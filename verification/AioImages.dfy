/** What the runs of the asynchronous phase do to the files and to the buffer: the threads and the kernel of
    AioEngine.dfy, with each completion carrying out its part of the transfer (cache2_hal_aio.cc). */
module AioImages {
  import opened Machine
  import opened AioEngine
  import opened AioSafety
  import opened FileTransfer
  import Storage
  import Engines
  import opened TextRecord
  import opened Whole

  /** How often the kernel has completed request `id`. */
  function Hits(moves: seq<Move>, id: nat): nat {
    if moves == [] then 0
    else Hits(moves[..|moves| - 1], id) + One(IsHit(moves[|moves| - 1], id))
  }

  predicate IsHit(m: Move, id: nat) { m.Complete? && m.id == id }

  /** One step: a request leaves the in-flight set when it is completed and enters it when accepted. */
  lemma HitStep(cfg: AioEngine.Config, st: State, m: Move, id: nat)
    requires Inv(cfg, st) && Enabled(st, m)
    ensures var k' := AioEngine.Step(cfg, st, m).k;
            One(id in k'.inflight) + One(IsHit(m, id)) + One(id < st.k.accepted)
              == One(id in st.k.inflight) + One(id < k'.accepted)
  {
    if m.Submitter? && st.s.Submit? {
      DoneBelowAccepted(st.k, Rest(st.c), st.m.done);
    }
  }

  /** Every accepted request is in flight or has been completed exactly once. */
  lemma {:induction false} CompletedOnce(cfg: AioEngine.Config, states: seq<State>, moves: seq<Move>, i: nat, id: nat)
    requires IsRun(cfg, states, moves) && i < |states|
    ensures Hits(moves[..i], id) + One(id in states[i].k.inflight) == One(id < states[i].k.accepted)
  {
    if i > 0 {
      CompletedOnce(cfg, states, moves, i - 1, id);
      RunOk(cfg, states, moves, i - 1);
      HitStep(cfg, states[i - 1], moves[i - 1], id);
      assert moves[..i][..i - 1] == moves[..i - 1];
    }
  }

  /** Two completions of a request count twice. */
  lemma {:induction false} HitsCount(moves: seq<Move>, j: nat, k: nat, id: nat)
    requires j <= k < |moves| && IsHit(moves[j], id) && IsHit(moves[k], id)
    ensures Hits(moves, id) >= (if j == k then 1 else 2)
    decreases |moves|
  {
    var n := |moves| - 1;
    if k < n {
      HitsCount(moves[..n], j, k, id);
    } else if j < n {
      HitsCount(moves[..n], j, j, id);
    }
  }

  /** A request completed once has been completed in one way only. */
  lemma OnlyHit(moves: seq<Move>, j: nat, id: nat, m: Move)
    requires Hits(moves, id) == 1 && j < |moves| && IsHit(moves[j], id) && m in moves && IsHit(m, id)
    ensures moves[j] == m
  {
    var k :| 0 <= k < |moves| && moves[k] == m;
    if j < k {
      HitsCount(moves, j, k, id);
    } else if k < j {
      HitsCount(moves, k, j, id);
    }
  }

  /* ---- events come from completions ---- */

  predicate Made(moves: seq<Move>, e: Event) { Complete(e.data, e.res, e.res2) in moves }

  ghost predicate AllMade(moves: seq<Move>, events: seq<Event>) {
    forall j :: 0 <= j < |events| ==> Made(moves, events[j])
  }

  function BatchOf(c: CPc): seq<Event> {
    if c.Judge? || c.Mark? || c.Count? then c.batch else []
  }

  ghost predicate Traced(moves: seq<Move>, st: State) {
    && AllMade(moves, st.k.ring) && AllMade(moves, BatchOf(st.c))
    && forall id :: id in st.m.results ==> Made(moves, st.m.results[id])
  }

  lemma TracedStep(cfg: AioEngine.Config, st: State, m: Move, moves: seq<Move>)
    requires Shape(cfg, st) && Enabled(st, m) && Traced(moves, st)
    ensures Traced(moves + [m], AioEngine.Step(cfg, st, m))
  {
    var more, st' := moves + [m], AioEngine.Step(cfg, st, m);
    assert forall e :: Made(moves, e) ==> Made(more, e);
    if m.Complete? {
      assert more[|moves|] == m;
      assert Made(more, Event(m.id, m.id, m.res, m.res2));
    }
  }

  lemma TracedNext(cfg: AioEngine.Config, st: State, m: Move, st': State, moves: seq<Move>, more: seq<Move>)
    requires Shape(cfg, st) && Enabled(st, m) && st' == AioEngine.Step(cfg, st, m)
    requires Traced(moves, st) && more == moves + [m]
    ensures Traced(more, st')
  {
    TracedStep(cfg, st, m, moves);
  }

  lemma {:induction false} RunTraced(cfg: AioEngine.Config, states: seq<State>, moves: seq<Move>, i: nat)
    requires IsRun(cfg, states, moves) && i < |states|
    ensures Traced(moves[..i], states[i])
  {
    if i == 0 {
      assert states[0] == Start(cfg);
    } else {
      RunTraced(cfg, states, moves, i - 1);
      assert moves[..i] == moves[..i - 1] + [moves[i - 1]];
      TracedNext(cfg, states[i - 1], moves[i - 1], states[i], moves[..i - 1], moves[..i]);
    }
  }

  /** A run of the threads and the kernel that has logged PHASE PASS and is closing its descriptors. */
  ghost predicate PassedAt(cfg: AioEngine.Config, states: seq<State>, moves: seq<Move>, i: nat) {
    IsRun(cfg, states, moves) && i < |states| && states[i].s.Closing?
  }

  /** PHASE PASS, seen from the kernel: over every interleaving each request has been completed exactly once,
      no other request has, and every completion moved the whole slot. */
  lemma PassMeansAllMoved(cfg: AioEngine.Config, states: seq<State>, moves: seq<Move>, i: nat, id: nat)
    requires PassedAt(cfg, states, moves, i)
    ensures Hits(moves[..i], id) == One(id < cfg.count)
    ensures id < cfg.count ==> Complete(id, cfg.slotBytes, 0) in moves[..i]
    ensures forall j :: 0 <= j < i && IsHit(moves[j], id) ==> moves[j] == Complete(id, cfg.slotBytes, 0)
  {
    RunOk(cfg, states, moves, i);
    SucceededIsIdle(cfg, states[i]);
    CompletedOnce(cfg, states, moves, i, id);
    RunTraced(cfg, states, moves, i);
    if id < cfg.count {
      assert Made(moves[..i], states[i].m.results[id]);
    }
    forall j | 0 <= j < i && IsHit(moves[j], id)
      ensures moves[j] == Complete(id, cfg.slotBytes, 0)
    {
      HitsCount(moves[..i], j, j, id);
      OnlyHit(moves[..i], j, id, Complete(id, cfg.slotBytes, 0));
    }
  }

  /* ---- the files of a dump ---- */

  /** The engine is configured for these options. */
  predicate Configured(cfg: AioEngine.Config, opt: Options) {
    cfg.count == opt.Slots() && cfg.slotBytes == opt.slotBytes
  }

  /** Bytes that a completion with result `res` has moved. */
  function Moved(res: int, slotBytes: nat): nat {
    if res < 0 then 0 else if res < slotBytes then res else slotBytes
  }

  /** What one step of a dump does to the files: an open creates, a completion writes. */
  ghost function Effect(st: State, m: Move, paths: seq<string>, data: seq<byte>, opt: Options): (trace: seq<Op>)
    requires Engines.Setting(paths, data, opt)
    ensures Engines.AllFit(trace, paths, data, opt)
  {
    if m.Complete? && m.id < opt.Slots() && m.res >= 0 then
      RequestPlaced(m.id, opt);
      var io := Request(m.id, opt);
      Engines.PlacedFits(io, Moved(m.res, opt.slotBytes), paths, data, opt);
      [Engines.WriteOf(io, Moved(m.res, opt.slotBytes), paths, data)]
    else if m.Submitter? && m.choice != Fault && st.s.Opening? && st.s.i < opt.Slots() then
      RequestPlaced(st.s.i, opt);
      [Op.Create(paths[Request(st.s.i, opt).block])]
    else []
  }

  /** The file operations of the first `i` steps of a run, in their order. */
  ghost function Effects(states: seq<State>, moves: seq<Move>, i: nat, paths: seq<string>, data: seq<byte>,
                         opt: Options)
      : seq<Op>
    requires Engines.Setting(paths, data, opt) && i <= |moves| < |states|
  {
    if i == 0 then []
    else Effects(states, moves, i - 1, paths, data, opt) + Effect(states[i - 1], moves[i - 1], paths, data, opt)
  }

  /** Whatever a run does, and whatever fails in it, it writes only the right pieces in their places. */
  lemma {:induction false} EffectsFit(states: seq<State>, moves: seq<Move>, i: nat, paths: seq<string>, data: seq<byte>,
                                      opt: Options)
    requires Engines.Setting(paths, data, opt) && i <= |moves| < |states|
    ensures Engines.AllFit(Effects(states, moves, i, paths, data, opt), paths, data, opt)
  {
    if i > 0 {
      EffectsFit(states, moves, i - 1, paths, data, opt);
    }
  }

  lemma {:induction false} EffectIn(states: seq<State>, moves: seq<Move>, i: nat, j: nat, op: Op, paths: seq<string>,
                                    data: seq<byte>, opt: Options)
    requires Engines.Setting(paths, data, opt) && j < i <= |moves| < |states|
    requires op in Effect(states[j], moves[j], paths, data, opt)
    ensures op in Effects(states, moves, i, paths, data, opt)
  {
    if j < i - 1 {
      EffectIn(states, moves, i - 1, j, op, paths, data, opt);
    }
  }

  /** At every step of every run, failing or not, files other than the blocks' are as they were. */
  lemma OthersUntouched(states: seq<State>, moves: seq<Move>, i: nat, before: FileTransfer.Files,
                        paths: seq<string>, data: seq<byte>, opt: Options)
    requires Engines.Setting(paths, data, opt) && i <= |moves| < |states|
    ensures Storage.SameOutside(before, Apply(before, Effects(states, moves, i, paths, data, opt)), paths)
  {
    EffectsFit(states, moves, i, paths, data, opt);
    Engines.FitsOutside(before, Effects(states, moves, i, paths, data, opt), paths, data, opt);
  }

  /** For every run of the threads and the kernel: at PHASE PASS each file holds its block's image over what
      was there before. */
  lemma PassMeansDumped(cfg: AioEngine.Config, states: seq<State>, moves: seq<Move>, i: nat,
                        before: FileTransfer.Files, paths: seq<string>, data: seq<byte>, opt: Options)
    requires PassedAt(cfg, states, moves, i)
    requires Engines.Setting(paths, data, opt) && Configured(cfg, opt)
    ensures Engines.Dumped(before, Apply(before, Effects(states, moves, i, paths, data, opt)), paths, data, opt)
  {
    var trace := Effects(states, moves, i, paths, data, opt);
    EffectsFit(states, moves, i, paths, data, opt);
    forall id | 0 <= id < opt.Slots()
      ensures Engines.Complete(id, trace, paths, data, opt)
    {
      PassMeansAllMoved(cfg, states, moves, i, id);
      var j :| 0 <= j < i && moves[..i][j] == Complete(id, cfg.slotBytes, 0);
      RequestPlaced(id, opt);
      EffectIn(states, moves, i, j, Engines.WriteOf(Request(id, opt), opt.slotBytes, paths, data), paths, data, opt);
    }
    Engines.CompleteCovers(trace, paths, data, opt);
    Engines.CompleteDump(before, trace, paths, data, opt);
  }

  /** `now` is the disk that each run of the two threads and the kernel leaves when it passes. */
  ghost predicate AsEveryDump(before: FileTransfer.Files, now: FileTransfer.Files, paths: seq<string>, data: seq<byte>,
                              opt: Options)
    requires Engines.Setting(paths, data, opt)
  {
    forall cfg, states, moves, i :: PassedAt(cfg, states, moves, i) && Configured(cfg, opt) ==>
      Apply(before, Effects(states, moves, i, paths, data, opt)) == now
  }

  /** Whatever makes a complete dump and touches nothing else leaves that disk. */
  lemma DumpsAgree(before: FileTransfer.Files, now: FileTransfer.Files, paths: seq<string>, data: seq<byte>,
                   opt: Options)
    requires Engines.Setting(paths, data, opt)
    requires Engines.Dumped(before, now, paths, data, opt) && Storage.SameOutside(before, now, paths)
    ensures AsEveryDump(before, now, paths, data, opt)
  {
    forall cfg, states, moves, i | PassedAt(cfg, states, moves, i) && Configured(cfg, opt)
      ensures Apply(before, Effects(states, moves, i, paths, data, opt)) == now
    {
      PassMeansDumped(cfg, states, moves, i, before, paths, data, opt);
      OthersUntouched(states, moves, i, before, paths, data, opt);
      Engines.OneOutcome(before, Apply(before, Effects(states, moves, i, paths, data, opt)), now, paths, data, opt);
    }
  }

  /* ---- the buffer of a load ---- */

  /** The place in its file of position `p` of the buffer, when `io` is the transfer that moves it. */
  function PlaceIn(io: Io, p: nat): nat
    requires io.pos <= p
  {
    io.offset + (p - io.pos)
  }

  /** The completion has moved position `p`. */
  predicate InPart(m: Move, p: nat, opt: Options)
    requires opt.Valid() && m.Complete?
  {
    m.id < opt.Slots() && Request(m.id, opt).pos <= p < Request(m.id, opt).pos + Moved(m.res, opt.slotBytes)
  }

  /** The kernel reports no more bytes as read than the file has from the request's offset on. */
  ghost predicate Real(m: Move, files: FileTransfer.Files, paths: seq<string>, opt: Options)
    requires opt.Valid() && |paths| == opt.blocks
  {
    m.Complete? && m.id < opt.Slots() && m.res > 0 ==> (
      RequestPlaced(m.id, opt);
      var io := Request(m.id, opt);
      io.offset + Moved(m.res, opt.slotBytes) <= |Content(files, paths[io.block])|)
  }

  ghost predicate AllReal(moves: seq<Move>, files: FileTransfer.Files, paths: seq<string>, opt: Options)
    requires opt.Valid() && |paths| == opt.blocks
  {
    forall j :: 0 <= j < |moves| ==> Real(moves[j], files, paths, opt)
  }

  /** The buffer after one step of a load: a completion puts the bytes of its block file, from the request's
      offset on, at the request's place in the buffer. */
  function Fetch(m: Move, buffer: seq<byte>, files: FileTransfer.Files, paths: seq<string>,
                 opt: Options): (r: seq<byte>)
    requires opt.Valid() && |paths| == opt.blocks
    ensures |r| == |buffer|
  {
    if m.Complete? && m.id < opt.Slots() then
      RequestPlaced(m.id, opt);
      var io := Request(m.id, opt);
      var file := Content(files, paths[io.block]);
      seq(|buffer|, p requires 0 <= p < |buffer| =>
        if InPart(m, p, opt) && PlaceIn(io, p) < |file| then file[PlaceIn(io, p)] else buffer[p])
    else buffer
  }

  /** The buffer after all steps. */
  function Fetched(moves: seq<Move>, buffer: seq<byte>, files: FileTransfer.Files, paths: seq<string>,
                   opt: Options): (r: seq<byte>)
    requires opt.Valid() && |paths| == opt.blocks
    ensures |r| == |buffer|
  {
    if moves == [] then buffer
    else Fetch(moves[|moves| - 1], Fetched(moves[..|moves| - 1], buffer, files, paths, opt), files, paths, opt)
  }

  /** Position `p` holds the byte of the file that request `id` reads there. */
  ghost predicate HoldsByte(x: seq<byte>, id: nat, p: nat, files: FileTransfer.Files, paths: seq<string>, opt: Options)
    requires opt.Valid() && |paths| == opt.blocks && id < opt.Slots() && p < |x|
  {
    RequestPlaced(id, opt);
    var io := Request(id, opt);
    var file := Content(files, paths[io.block]);
    io.pos <= p && PlaceIn(io, p) < |file| && x[p] == file[PlaceIn(io, p)]
  }

  lemma FetchAt(m: Move, id: nat, p: nat, buffer: seq<byte>, files: FileTransfer.Files, paths: seq<string>,
                opt: Options)
    requires opt.Valid() && |paths| == opt.blocks && |buffer| == opt.Bytes() && p < |buffer|
      && id == Div(p, opt.slotBytes)
    requires id < opt.Slots() && Real(m, files, paths, opt)
    ensures m.Complete? && InPart(m, p, opt) ==>
      HoldsByte(Fetch(m, buffer, files, paths, opt), id, p, files, paths, opt)
    ensures !(m.Complete? && InPart(m, p, opt)) ==> Fetch(m, buffer, files, paths, opt)[p] == buffer[p]
  {
    if m.Complete? && InPart(m, p, opt) {
      RequestsPartitionBuffer(p, m.id, opt);
      RequestPlaced(id, opt);
    }
  }

  /** Once its request has completed in full, a position keeps that byte, whatever else completes. */
  lemma {:induction false} FetchedOnce(moves: seq<Move>, j: nat, p: nat, buffer: seq<byte>, files: FileTransfer.Files,
                                       paths: seq<string>, opt: Options)
    requires opt.Valid() && |paths| == opt.blocks && |buffer| == opt.Bytes() && p < |buffer|
    requires AllReal(moves, files, paths, opt)
    requires j < |moves| && moves[j].Complete? && InPart(moves[j], p, opt)
    ensures moves[j].id == Div(p, opt.slotBytes)
    ensures HoldsByte(Fetched(moves, buffer, files, paths, opt), moves[j].id, p, files, paths, opt)
    decreases |moves|
  {
    var last := |moves| - 1;
    RequestsPartitionBuffer(p, moves[j].id, opt);
    if j < last {
      FetchedOnce(moves[..last], j, p, buffer, files, paths, opt);
    }
    FetchAt(moves[last], moves[j].id, p, Fetched(moves[..last], buffer, files, paths, opt), files, paths, opt);
  }

  /** The buffer is, block by block, what the files begin with. */
  ghost predicate Loaded(x: seq<byte>, files: FileTransfer.Files, paths: seq<string>, opt: Options)
    requires opt.Valid() && |paths| == opt.blocks && |x| == opt.Bytes()
  {
    forall b :: 0 <= b < opt.blocks ==> Engines.BlockOf(x, b, opt) <= Content(files, paths[b])
  }

  /** For every run: at PHASE PASS of a load each block of the buffer is what its file begins with; in
      particular every file is as long as a block. */
  lemma PassMeansLoaded(cfg: AioEngine.Config, states: seq<State>, moves: seq<Move>, i: nat,
                        buffer: seq<byte>, files: FileTransfer.Files, paths: seq<string>, opt: Options)
    requires PassedAt(cfg, states, moves, i)
    requires opt.Valid() && |paths| == opt.blocks && |buffer| == opt.Bytes() && Configured(cfg, opt)
    requires AllReal(moves[..i], files, paths, opt)
    ensures Loaded(Fetched(moves[..i], buffer, files, paths, opt), files, paths, opt)
  {
    hide AllReal, Fetched;
    var x := Fetched(moves[..i], buffer, files, paths, opt);
    forall b | 0 <= b < opt.blocks
      ensures Engines.BlockOf(x, b, opt) <= Content(files, paths[b])
    {
      Engines.BlockInside(b, opt);
      Engines.BlockNotEmpty(opt);
      forall k | 0 <= k < BlockBytes(opt)
        ensures k < |Content(files, paths[b])| && x[Times(b, BlockBytes(opt)) + k] == Content(files, paths[b])[k]
      {
        ByteLoaded(cfg, states, moves, i, b, k, buffer, files, paths, opt);
      }
      ByteLoaded(cfg, states, moves, i, b, BlockBytes(opt) - 1, buffer, files, paths, opt);
      assert forall k :: 0 <= k < BlockBytes(opt) ==> Engines.BlockOf(x, b, opt)[k] == x[Times(b, BlockBytes(opt)) + k];
    }
  }

  /** One byte of one block. */
  lemma ByteLoaded(cfg: AioEngine.Config, states: seq<State>, moves: seq<Move>, i: nat, b: nat, k: nat,
                   buffer: seq<byte>, files: FileTransfer.Files, paths: seq<string>, opt: Options)
    requires PassedAt(cfg, states, moves, i)
    requires opt.Valid() && |paths| == opt.blocks && |buffer| == opt.Bytes() && Configured(cfg, opt)
    requires AllReal(moves[..i], files, paths, opt) && b < opt.blocks && k < BlockBytes(opt)
    ensures Times(b, BlockBytes(opt)) + k < |buffer| && k < |Content(files, paths[b])|
    ensures Fetched(moves[..i], buffer, files, paths, opt)[Times(b, BlockBytes(opt)) + k] == Content(files, paths[b])[k]
  {
    var id, p := RequestOf(b, k, opt), Times(b, BlockBytes(opt)) + k;
    Engines.BlockInside(b, opt);
    RequestsPartition(b, k, id, opt);
    RequestPlaced(id, opt);
    PassMeansAllMoved(cfg, states, moves, i, id);
    var j :| 0 <= j < i && moves[..i][j] == Complete(id, cfg.slotBytes, 0);
    FetchedOnce(moves[..i], j, p, buffer, files, paths, opt);
  }

  /** `x` is the buffer that each run of the two threads and the kernel leaves when it passes, whatever was
      in the buffer before. */
  ghost predicate AsEveryLoad(files: FileTransfer.Files, x: seq<byte>, paths: seq<string>, opt: Options)
    requires Engines.Setting(paths, x, opt)
  {
    forall cfg, states, moves, i, buffer: seq<byte> ::
      PassedAt(cfg, states, moves, i) && Configured(cfg, opt) && |buffer| == opt.Bytes()
        && AllReal(moves[..i], files, paths, opt) ==>
      Fetched(moves[..i], buffer, files, paths, opt) == x
  }

  /** If the files put `x` into the buffer, every load that passes leaves `x`. */
  lemma LoadsAgree(files: FileTransfer.Files, x: seq<byte>, paths: seq<string>, opt: Options)
    requires Engines.Setting(paths, x, opt) && Engines.Agrees(files, paths, x, opt)
    ensures AsEveryLoad(files, x, paths, opt)
  {
    forall cfg, states, moves, i, buffer: seq<byte> |
        PassedAt(cfg, states, moves, i) && Configured(cfg, opt) && |buffer| == opt.Bytes()
        && AllReal(moves[..i], files, paths, opt)
      ensures Fetched(moves[..i], buffer, files, paths, opt) == x
    {
      PassMeansLoaded(cfg, states, moves, i, buffer, files, paths, opt);
      LoadedIs(Fetched(moves[..i], buffer, files, paths, opt), x, files, paths, opt);
    }
  }

  lemma LoadedIs(y: seq<byte>, x: seq<byte>, files: FileTransfer.Files, paths: seq<string>, opt: Options)
    requires Engines.Setting(paths, x, opt) && |y| == opt.Bytes()
    requires Loaded(y, files, paths, opt) && Engines.Agrees(files, paths, x, opt)
    ensures y == x
  {
    forall b | 0 <= b < opt.blocks
      ensures Engines.BlockOf(y, b, opt) == Engines.BlockOf(x, b, opt)
    {
      var file, image := Content(files, paths[b]), Engines.BlockOf(x, b, opt);
      assert Engines.AgreesIn(file, image) && Engines.BlockOf(y, b, opt) <= file;
      assert forall k :: 0 <= k < |image| ==> file[k] == image[k];
    }
    Engines.BlocksDetermine(y, x, opt);
  }

  /** Round trip over runs: after any run of a dump that passed and any run of a load that passed, the buffer
      is the buffer that was dumped. The completions of either run may come in any order, and the files
      may have been renamed in between. */
  lemma DumpThenLoad(cfg: AioEngine.Config, dump: seq<State>, dumpMoves: seq<Move>, i: nat,
                     load: seq<State>, loadMoves: seq<Move>, l: nat, before: FileTransfer.Files,
                     files: FileTransfer.Files, paths: seq<string>, renamed: seq<string>, data: seq<byte>,
                     buffer: seq<byte>, opt: Options)
    requires PassedAt(cfg, dump, dumpMoves, i) && PassedAt(cfg, load, loadMoves, l)
    requires Engines.Setting(paths, data, opt) && Configured(cfg, opt)
    requires |renamed| == opt.blocks && |buffer| == opt.Bytes()
    requires forall b :: 0 <= b < opt.blocks ==>
      Content(files, renamed[b]) == Content(Apply(before, Effects(dump, dumpMoves, i, paths, data, opt)), paths[b])
    requires AllReal(loadMoves[..l], files, renamed, opt)
    ensures Fetched(loadMoves[..l], buffer, files, renamed, opt) == data
  {
    var now := Apply(before, Effects(dump, dumpMoves, i, paths, data, opt));
    var x := Fetched(loadMoves[..l], buffer, files, renamed, opt);
    PassMeansDumped(cfg, dump, dumpMoves, i, before, paths, data, opt);
    PassMeansLoaded(cfg, load, loadMoves, l, buffer, files, renamed, opt);
    forall b | 0 <= b < opt.blocks
      ensures Engines.BlockOf(x, b, opt) == Engines.BlockOf(data, b, opt)
    {
      assert Engines.DumpedTo(before, now, paths[b], Engines.BlockOf(data, b, opt));
      assert Engines.BlockOf(x, b, opt) <= Content(files, renamed[b]);
    }
    Engines.BlocksDetermine(x, data, opt);
  }
}
