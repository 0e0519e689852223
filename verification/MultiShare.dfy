/** multi_share.cpp: one coordinator and `count` workers share `count` memory blocks.

    The whole run is a transition system. A worker's program counter names the statement it is
    about to execute; word queues stand for the two directions of each socket. Copies and fills
    of a block are broken into single-word steps, so the interleavings considered are those of
    individual memory accesses. A worker may throw at any step, be killed, and clean up; the
    coordinator may give up at any step. Memory whose owner has released it may change at will. */
module MultiShare {
  import opened Machine
  import opened Pattern

  /** One run: number of workers, number of read rounds, words in each block, exported handles. */
  datatype Config = Config(count: nat, rounds: nat, words: nat, tokens: seq<word>)
  {
    ghost predicate Valid() {
      && count > 0
      && words > 0
      && |tokens| == count
    }

    /** `2 * read_rounds + 4`, the coordinator's loop bound. */
    function Barriers(): nat { 2 * rounds + 4 }

    /** `300 + round * count + owner`, in 64-bit arithmetic. */
    function Seed(round: nat, owner: nat): word {
      (300 + round * count + owner) % WORD
    }

    function Image(round: nat, owner: nat): seq<word> {
      PatternBlock(Seed(round, owner), words)
    }
  }

  /** The barrier calls of `worker`, in program order. */
  datatype Barrier = Mapped | Tested | Written(round: nat) | ReadBack(round: nat) | Quiet | Unmapped

  function Index(cfg: Config, b: Barrier): nat {
    match b
    case Mapped => 0
    case Tested => 1
    case Written(r) => 2 + 2 * r
    case ReadBack(r) => 3 + 2 * r
    case Quiet => 2 + 2 * cfg.rounds
    case Unmapped => 3 + 2 * cfg.rounds
  }

  datatype Pc =
    | Export                                         // reserve, create, export, send the handle
    | AwaitToken(owner: nat)
    | MapSlice(owner: nat, token: word)
    | Arrive(barrier: Barrier)                       // barrier(): about to send 0
    | Depart(barrier: Barrier)                       // barrier(): waiting for the release word
    | OwnTest(stage: nat)                            // CPU and buffered AIO on the own block
    | FillWord(round: nat, i: nat)
    | CheckFill(round: nat)
    | Clear(round: nat, owner: nat)
    | CopyWord(round: nat, owner: nat, i: nat)
    | Check(round: nat, owner: nat)
    | CheckOwn(round: nat)
    | Unmap(owner: nat)
    | Leave                                          // past the try block

  /** Running inside the try block or past it; unwinding after an exception; process ended. */
  datatype Status = Running | Cleaning | Exited(ok: bool)

  /** `block` is the memory this worker allocated; `hbm` its private copy of the block being read;
      `wrote` and `seen` record what it wrote and what it accepted, by round and by round and owner. */
  datatype Worker = Worker(
    pc: Pc, status: Status, mapped: seq<bool>, freed: bool, block: seq<word>, hbm: seq<word>,
    wrote: map<nat, seq<word>>, seen: map<(nat, nat), seq<word>>)

  datatype Coord =
    | Collect(k: nat)              // receiving the handle of worker k
    | Hand(w: nat, k: nat)         // sending handle k to worker w
    | Gather(phase: nat, k: nat)   // receiving the arrival of worker k
    | Release(phase: nat, k: nat)  // releasing worker k
    | Finished                     // sockets closed, waiting for the children

  datatype State = State(
    workers: seq<Worker>, coord: Coord, aborted: bool, tokens: seq<word>,
    up: seq<seq<word>>, down: seq<seq<word>>)

  datatype Move =
    | Work(w: nat)
    | Throw(w: nat)
    | Clean(w: nat, ok: bool)
    | Kill(w: nat)
    | Coordinate
    | Abort
    | Scribble(w: nat, block: seq<word>)

  /** A block nobody has written yet holds anything; it starts as zeros here and may be scribbled on
      only after it has been released. */
  function Zeros(n: nat): seq<word> { seq(n, _ => 0) }

  function NoneMapped(cfg: Config): seq<bool> { seq(cfg.count, _ => false) }

  function StartWorker(cfg: Config): Worker {
    Worker(Export, Running, NoneMapped(cfg), false, Zeros(cfg.words), Zeros(cfg.words), map[], map[])
  }

  function Start(cfg: Config): State {
    State(seq(cfg.count, _ => StartWorker(cfg)), Collect(0), false, [],
          seq(cfg.count, _ => []), seq(cfg.count, _ => []))
  }

  /* ---- the worker ---- */

  function StartRound(cfg: Config, r: nat): Pc {
    if r < cfg.rounds then FillWord(r, 0) else Arrive(Quiet)
  }

  /** The statement after a barrier. */
  function After(cfg: Config, b: Barrier): Pc {
    match b
    case Mapped => OwnTest(0)
    case Tested => StartRound(cfg, 0)
    case Written(r) => Clear(r, 0)
    case ReadBack(r) => StartRound(cfg, r + 1)
    case Quiet => Unmap(0)
    case Unmapped => Leave
  }

  /** Structural sanity of a state: one entry for each worker, full-sized blocks. */
  ghost predicate Shape(cfg: Config, s: State) {
    && cfg.Valid()
    && |s.workers| == |s.up| == |s.down| == cfg.count
    && (forall w :: 0 <= w < cfg.count ==> |s.workers[w].block| == |s.workers[w].hbm| == cfg.words)
    && (forall w :: 0 <= w < cfg.count ==> |s.workers[w].mapped| == cfg.count)
    && (forall w :: 0 <= w < cfg.count ==> PcInRange(cfg, s.workers[w].pc))
    && CoordInRange(cfg, s)
  }

  predicate BarrierInRange(cfg: Config, b: Barrier) {
    match b
    case Written(r) => r < cfg.rounds
    case ReadBack(r) => r < cfg.rounds
    case _ => true
  }

  predicate PcInRange(cfg: Config, pc: Pc) {
    match pc
    case AwaitToken(k) => k < cfg.count
    case MapSlice(k, _) => k < cfg.count
    case Arrive(b) => BarrierInRange(cfg, b)
    case Depart(b) => BarrierInRange(cfg, b)
    case OwnTest(stage) => stage < 3
    case FillWord(r, i) => r < cfg.rounds && i < cfg.words
    case CheckFill(r) => r < cfg.rounds
    case Clear(r, o) => r < cfg.rounds && o < cfg.count
    case CopyWord(r, o, i) => r < cfg.rounds && o < cfg.count && i < cfg.words
    case Check(r, o) => r < cfg.rounds && o < cfg.count
    case CheckOwn(r) => r < cfg.rounds
    case Unmap(k) => k < cfg.count
    case _ => true
  }

  predicate CoordInRange(cfg: Config, s: State) {
    match s.coord
    case Collect(k) => k < cfg.count && |s.tokens| == k
    case Hand(w, k) => w < cfg.count && k < cfg.count && |s.tokens| == cfg.count
    case Gather(b, k) => b < cfg.Barriers() && k < cfg.count
    case Release(b, k) => b < cfg.Barriers() && k < cfg.count
    case Finished => true
  }

  /** A receive blocks until a word is there; every other statement can always run. */
  predicate CanWork(worker: Worker, down: seq<word>) {
    && worker.status == Running
    && worker.pc != Leave
    && (worker.pc.AwaitToken? || worker.pc.Depart? ==> |down| > 0)
  }

  function Goto(worker: Worker, pc: Pc): Worker { worker.(pc := pc) }

  predicate TouchesMemory(pc: Pc) {
    || pc.OwnTest? || pc.FillWord? || pc.CheckFill? || pc.Clear? || pc.CopyWord? || pc.Check? || pc.CheckOwn?
  }

  /** The statements of a round that touch memory, a word at a time. `source` is the content of the
      block being copied; a failed comparison throws. */
  function Touch(cfg: Config, me: nat, worker: Worker, source: seq<word>): Worker
    requires cfg.Valid() && PcInRange(cfg, worker.pc)
    requires |worker.block| == |worker.hbm| == |source| == cfg.words
  {
    match worker.pc
    case OwnTest(stage) =>
      if stage == 0 then
        worker.(block := PatternBlock((100 + me) % WORD, cfg.words), pc := OwnTest(1))
      else if stage == 1 then
        worker.(block := Zeros(cfg.words), pc := OwnTest(2))
      else
        worker.(block := PatternBlock((200 + me) % WORD, cfg.words), pc := Arrive(Tested))
    case FillWord(r, i) =>
      worker.(block := worker.block[i := PatternWord(i, cfg.Seed(r, me))],
              pc := if i + 1 < cfg.words then FillWord(r, i + 1) else CheckFill(r))
    case CheckFill(r) =>
      if worker.block == cfg.Image(r, me) then
        worker.(wrote := worker.wrote[r := worker.block], pc := Arrive(Written(r)))
      else
        worker.(status := Cleaning)
    case Clear(r, o) =>
      worker.(hbm := Zeros(cfg.words), pc := CopyWord(r, o, 0))
    case CopyWord(r, o, i) =>
      worker.(hbm := worker.hbm[i := source[i]],
              pc := if i + 1 < cfg.words then CopyWord(r, o, i + 1) else Check(r, o))
    case Check(r, o) =>
      if worker.hbm == cfg.Image(r, o) then
        worker.(seen := worker.seen[(r, o) := worker.hbm],
                pc := if o + 1 < cfg.count then Clear(r, o + 1) else CheckOwn(r))
      else
        worker.(status := Cleaning)
    case CheckOwn(r) =>
      if worker.block == cfg.Image(r, me) then
        Goto(worker, Arrive(ReadBack(r)))
      else
        worker.(status := Cleaning)
    case _ => worker
  }

  /** The block a worker is copying from; its own for statements that copy nothing. */
  function SourceOf(pc: Pc, me: nat): nat {
    if pc.CopyWord? then pc.owner else me
  }

  /** The worker after mapping or unmapping one slice. */
  function Remap(cfg: Config, worker: Worker): Worker
    requires worker.pc.MapSlice? || worker.pc.Unmap?
    requires worker.pc.owner < |worker.mapped|
  {
    var k := worker.pc.owner;
    if worker.pc.MapSlice? then
      worker.(mapped := worker.mapped[k := true], pc := if k + 1 < cfg.count then AwaitToken(k + 1) else Arrive(Mapped))
    else
      worker.(mapped := worker.mapped[k := false], pc := if k + 1 < cfg.count then Unmap(k + 1) else Arrive(Unmapped))
  }

  function WorkStep(cfg: Config, s: State, w: nat): State
    requires Shape(cfg, s) && w < cfg.count && CanWork(s.workers[w], s.down[w])
  {
    var worker := s.workers[w];
    if TouchesMemory(worker.pc) then
      s.(workers := s.workers[w := Touch(cfg, w, worker, s.workers[SourceOf(worker.pc, w)].block)])
    else
    match worker.pc
    case Export =>
      s.(workers := s.workers[w := Goto(worker, AwaitToken(0))], up := s.up[w := s.up[w] + [cfg.tokens[w]]])
    case AwaitToken(k) =>
      s.(workers := s.workers[w := Goto(worker, MapSlice(k, s.down[w][0]))], down := s.down[w := s.down[w][1..]])
    case MapSlice(_, _) =>
      s.(workers := s.workers[w := Remap(cfg, worker)])
    case Arrive(b) =>
      s.(workers := s.workers[w := Goto(worker, Depart(b))], up := s.up[w := s.up[w] + [0]])
    case Depart(b) =>
      var word := s.down[w][0];
      var next := if word == 0 then Goto(worker, After(cfg, b)) else worker.(status := Cleaning);
      s.(workers := s.workers[w := next], down := s.down[w := s.down[w][1..]])
    case Unmap(_) =>
      s.(workers := s.workers[w := Remap(cfg, worker)])
    case _ => s
  }

  /* ---- the coordinator ---- */

  predicate CanCoordinate(cfg: Config, s: State)
    requires Shape(cfg, s)
  {
    && !s.aborted
    && match s.coord
       case Collect(k) => |s.up[k]| > 0
       case Gather(_, k) => |s.up[k]| > 0
       case Finished => false
       case _ => true
  }

  function CoordStep(cfg: Config, s: State): State
    requires Shape(cfg, s) && CanCoordinate(cfg, s)
  {
    match s.coord
    case Collect(k) =>
      var next := if k + 1 < cfg.count then Collect(k + 1) else Hand(0, 0);
      s.(coord := next, tokens := s.tokens + [s.up[k][0]], up := s.up[k := s.up[k][1..]])
    case Hand(w, k) =>
      var next := if k + 1 < cfg.count then Hand(w, k + 1)
                  else if w + 1 < cfg.count then Hand(w + 1, 0) else Gather(0, 0);
      s.(coord := next, down := s.down[w := s.down[w] + [s.tokens[k]]])
    case Gather(b, k) =>
      if s.up[k][0] != 0 then
        s.(aborted := true, up := s.up[k := s.up[k][1..]])
      else
        var next := if k + 1 < cfg.count then Gather(b, k + 1) else Release(b, 0);
        s.(coord := next, up := s.up[k := s.up[k][1..]])
    case Release(b, k) =>
      var next := if k + 1 < cfg.count then Release(b, k + 1)
                  else if b + 1 < cfg.Barriers() then Gather(b + 1, 0) else Finished;
      s.(coord := next, down := s.down[k := s.down[k] + [0]])
  }

  /* ---- runs ---- */

  predicate Enabled(cfg: Config, s: State, m: Move)
    requires Shape(cfg, s)
  {
    match m
    case Work(w) => w < cfg.count && CanWork(s.workers[w], s.down[w])
    case Throw(w) => w < cfg.count && s.workers[w].status == Running && s.workers[w].pc != Leave
    case Clean(w, ok) =>
      && w < cfg.count
      && ((s.workers[w].status == Cleaning && !ok) || (s.workers[w].status == Running && s.workers[w].pc == Leave))
    case Kill(w) => w < cfg.count && !s.workers[w].status.Exited?
    case Coordinate => CanCoordinate(cfg, s)
    case Abort => !s.aborted && s.coord != Finished
    case Scribble(w, block) => w < cfg.count && s.workers[w].freed && |block| == cfg.words
  }

  /** Clean-up unmaps whatever is still mapped, releases the own allocation and ends the process;
      `ok` says whether every clean-up call succeeded. A killed process loses its memory at once. */
  function Step(cfg: Config, s: State, m: Move): State
    requires Shape(cfg, s) && Enabled(cfg, s, m)
  {
    match m
    case Work(w) => WorkStep(cfg, s, w)
    case Throw(w) => s.(workers := s.workers[w := s.workers[w].(status := Cleaning)])
    case Clean(w, ok) =>
      s.(workers := s.workers[w := s.workers[w].(status := Exited(ok), mapped := NoneMapped(cfg), freed := true)])
    case Kill(w) =>
      s.(workers := s.workers[w := s.workers[w].(status := Exited(false), mapped := NoneMapped(cfg), freed := true)])
    case Coordinate => CoordStep(cfg, s)
    case Abort => s.(aborted := true)
    case Scribble(w, block) => s.(workers := s.workers[w := s.workers[w].(block := block)])
  }

  /** The states visited by a list of moves, each enabled where it is taken. */
  ghost predicate IsRun(cfg: Config, states: seq<State>, moves: seq<Move>) {
    && cfg.Valid()
    && |states| == |moves| + 1
    && states[0] == Start(cfg)
    && forall i :: 0 <= i < |moves| ==>
        Shape(cfg, states[i]) && Enabled(cfg, states[i], moves[i]) && states[i + 1] == Step(cfg, states[i], moves[i])
  }

  /** The coordinator printed MULTI_RESULT PASS: all barriers done and every worker exited with 0. */
  predicate Passed(cfg: Config, s: State) {
    && !s.aborted
    && s.coord == Finished
    && forall w :: 0 <= w < |s.workers| ==> s.workers[w].status == Exited(true)
  }
}
