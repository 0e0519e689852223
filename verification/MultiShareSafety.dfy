/** What holds in every state of every run of multi_share.cpp, failing runs included.

    Both directions of a socket carry a fixed sequence of words, so the whole protocol state is
    determined by counting: a worker at a given statement has sent and received a known number of
    words, the coordinator likewise, and the queue between them holds exactly the difference. */
module MultiShareSafety {
  import opened Machine
  import opened Pattern
  import opened MultiShare

  /* ---- counting ---- */

  /** Barriers a worker has got past. */
  function Crossed(cfg: Config, pc: Pc): nat {
    match pc
    case Export | AwaitToken(_) | MapSlice(_, _) => 0
    case Arrive(b) => Index(cfg, b)
    case Depart(b) => Index(cfg, b)
    case OwnTest(_) => 1
    case FillWord(r, _) => 2 + 2 * r
    case CheckFill(r) => 2 + 2 * r
    case Clear(r, _) => 3 + 2 * r
    case CopyWord(r, _, _) => 3 + 2 * r
    case Check(r, _) => 3 + 2 * r
    case CheckOwn(r) => 3 + 2 * r
    case Unmap(_) => 3 + 2 * cfg.rounds
    case Leave => 4 + 2 * cfg.rounds
  }

  /** Words a worker has sent: its handle, and one for each barrier it has arrived at. */
  function Sent(cfg: Config, pc: Pc): nat {
    if pc.Export? then 0 else 1 + Crossed(cfg, pc) + (if pc.Depart? then 1 else 0)
  }

  /** Words a worker has received: every handle, and one for each barrier it has got past. */
  function Got(cfg: Config, pc: Pc): nat {
    match pc
    case Export => 0
    case AwaitToken(k) => k
    case MapSlice(k, _) => k + 1
    case _ => cfg.count + Crossed(cfg, pc)
  }

  function CoordGot(cfg: Config, c: Coord, w: nat): nat {
    match c
    case Collect(k) => if w < k then 1 else 0
    case Hand(_, _) => 1
    case Gather(b, k) => 1 + b + (if w < k then 1 else 0)
    case Release(b, _) => 2 + b
    case Finished => 1 + cfg.Barriers()
  }

  function CoordSent(cfg: Config, c: Coord, w: nat): nat {
    match c
    case Collect(_) => 0
    case Hand(v, k) => if w < v then cfg.count else if w == v then k else 0
    case Gather(b, _) => cfg.count + b
    case Release(b, k) => cfg.count + b + (if w < k then 1 else 0)
    case Finished => cfg.count + cfg.Barriers()
  }

  /** Word `i` that worker `w` ever sends, and word `i` that any worker ever receives. */
  function UpWord(cfg: Config, w: nat, i: nat): word
    requires cfg.Valid() && w < cfg.count
  {
    if i == 0 then cfg.tokens[w] else 0
  }

  function DownWord(cfg: Config, i: nat): word
    requires cfg.Valid()
  {
    if i < cfg.count then cfg.tokens[i] else 0
  }

  ghost predicate UpOk(cfg: Config, w: nat, queue: seq<word>, sent: nat, got: nat)
    requires cfg.Valid() && w < cfg.count
  {
    && got + |queue| == sent
    && forall i :: 0 <= i < |queue| ==> queue[i] == UpWord(cfg, w, got + i)
  }

  ghost predicate DownOk(cfg: Config, queue: seq<word>, sent: nat, got: nat)
    requires cfg.Valid()
  {
    && got + |queue| == sent
    && forall i :: 0 <= i < |queue| ==> queue[i] == DownWord(cfg, got + i)
  }

  /* ---- what a worker's own data must be ---- */

  /** Is slice `k` mapped at a statement of the try block? */
  predicate MappedAt(cfg: Config, pc: Pc, k: nat) {
    match pc
    case Export => false
    case AwaitToken(o) => k < o
    case MapSlice(o, _) => k < o
    case Unmap(o) => o <= k
    case Arrive(b) => b != Unmapped
    case Depart(b) => b != Unmapped
    case Leave => false
    case _ => true
  }

  /** From the end of the fill of round `r` to the end of its reads, the own block is its image. */
  predicate Holds(pc: Pc, r: nat) {
    match pc
    case CheckFill(q) => q == r
    case Arrive(b) => b == Written(r) || b == ReadBack(r)
    case Depart(b) => b == Written(r) || b == ReadBack(r)
    case Clear(q, _) => q == r
    case CopyWord(q, _, _) => q == r
    case Check(q, _) => q == r
    case CheckOwn(q) => q == r
    case _ => false
  }

  ghost predicate BlockOk(cfg: Config, w: nat, worker: Worker) {
    && |worker.block| == cfg.words
    && (forall r: nat :: Holds(worker.pc, r) ==> worker.block == cfg.Image(r, w))
    && (worker.pc.FillWord? ==>
          forall k: nat :: k < worker.pc.i && k < cfg.words ==>
            worker.block[k] == PatternWord(k, cfg.Seed(worker.pc.round, w)))
  }

  /** Fills completed, and reads completed, at a statement. */
  function Fills(cfg: Config, pc: Pc): nat {
    match pc
    case FillWord(r, _) => r
    case CheckFill(r) => r
    case Clear(r, _) => r + 1
    case CopyWord(r, _, _) => r + 1
    case Check(r, _) => r + 1
    case CheckOwn(r) => r + 1
    case Arrive(b) => FillsAt(cfg, b)
    case Depart(b) => FillsAt(cfg, b)
    case Unmap(_) => cfg.rounds
    case Leave => cfg.rounds
    case _ => 0
  }

  function FillsAt(cfg: Config, b: Barrier): nat {
    match b
    case Mapped | Tested => 0
    case Written(r) => r + 1
    case ReadBack(r) => r + 1
    case Quiet | Unmapped => cfg.rounds
  }

  predicate HasRead(cfg: Config, pc: Pc, r: nat, o: nat) {
    match pc
    case FillWord(q, _) => r < q
    case CheckFill(q) => r < q
    case Clear(q, p) => r < q || (r == q && o < p)
    case CopyWord(q, p, _) => r < q || (r == q && o < p)
    case Check(q, p) => r < q || (r == q && o < p)
    case CheckOwn(q) => r <= q
    case Arrive(b) => HasReadAt(cfg, b, r)
    case Depart(b) => HasReadAt(cfg, b, r)
    case Unmap(_) => r < cfg.rounds
    case Leave => r < cfg.rounds
    case _ => false
  }

  predicate HasReadAt(cfg: Config, b: Barrier, r: nat) {
    match b
    case Mapped | Tested => false
    case Written(q) => r < q
    case ReadBack(q) => r <= q
    case Quiet | Unmapped => r < cfg.rounds
  }

  ghost predicate WroteOk(cfg: Config, w: nat, worker: Worker) {
    && (forall r :: r in worker.wrote ==> worker.wrote[r] == cfg.Image(r, w))
    && (forall r: nat :: r < Fills(cfg, worker.pc) ==> r in worker.wrote)
  }

  ghost predicate SeenSound(cfg: Config, worker: Worker) {
    forall key :: key in worker.seen ==>
      && key.1 < cfg.count
      && HasRead(cfg, worker.pc, key.0, key.1)
      && worker.seen[key] == cfg.Image(key.0, key.1)
  }

  ghost predicate SeenComplete(cfg: Config, worker: Worker) {
    forall r: nat, o: nat :: o < cfg.count && HasRead(cfg, worker.pc, r, o) ==> (r, o) in worker.seen
  }

  ghost predicate LogsOk(cfg: Config, w: nat, worker: Worker) {
    WroteOk(cfg, w, worker) && SeenSound(cfg, worker) && SeenComplete(cfg, worker)
  }

  ghost predicate LifeOk(cfg: Config, worker: Worker)
    requires |worker.mapped| == cfg.count
  {
    && (worker.freed <==> worker.status.Exited?)
    && (worker.status == Exited(true) ==> worker.pc == Leave)
    && (worker.status.Exited? ==> forall k :: 0 <= k < cfg.count ==> !worker.mapped[k])
    && (forall k :: 0 <= k < cfg.count ==> worker.mapped[k] ==> MappedAt(cfg, worker.pc, k))
    && (worker.status == Running ==> forall k :: 0 <= k < cfg.count ==> MappedAt(cfg, worker.pc, k) ==>
          worker.mapped[k])
  }

  /** The part of the invariant about one worker's queues. */
  ghost predicate ChannelsOk(cfg: Config, c: Coord, w: nat, pc: Pc, up: seq<word>, down: seq<word>)
    requires cfg.Valid() && w < cfg.count
  {
    && UpOk(cfg, w, up, Sent(cfg, pc), CoordGot(cfg, c, w))
    && DownOk(cfg, down, CoordSent(cfg, c, w), Got(cfg, pc))
  }

  /** The part of the invariant about one worker's own state. */
  ghost predicate OwnOk(cfg: Config, w: nat, worker: Worker)
    requires cfg.Valid() && PcInRange(cfg, worker.pc) && |worker.mapped| == cfg.count
  {
    && (worker.pc.MapSlice? ==> worker.pc.token == cfg.tokens[worker.pc.owner])
    && (!worker.freed ==> BlockOk(cfg, w, worker))
    && LogsOk(cfg, w, worker)
    && LifeOk(cfg, worker)
  }

  ghost predicate WorkerOk(cfg: Config, s: State, w: nat)
    requires Shape(cfg, s) && w < cfg.count
  {
    && ChannelsOk(cfg, s.coord, w, s.workers[w].pc, s.up[w], s.down[w])
    && OwnOk(cfg, w, s.workers[w])
  }

  /** The private copy matches the block being read as far as it has got. */
  ghost predicate ReaderOk(cfg: Config, s: State, v: nat)
    requires Shape(cfg, s) && v < cfg.count
  {
    match s.workers[v].pc
    case CopyWord(r, o, i) =>
      !s.workers[o].freed ==> forall k: nat :: k < i && k < cfg.words ==>
        s.workers[v].hbm[k] == PatternWord(k, cfg.Seed(r, o))
    case Check(r, o) =>
      !s.workers[o].freed ==> s.workers[v].hbm == cfg.Image(r, o)
    case _ => true
  }

  ghost predicate Inv(cfg: Config, s: State) {
    && Shape(cfg, s)
    && s.tokens <= cfg.tokens
    && (forall w :: 0 <= w < cfg.count ==> WorkerOk(cfg, s, w))
    && (forall v :: 0 <= v < cfg.count ==> ReaderOk(cfg, s, v))
  }

  /* ---- consequences of counting ---- */

  /** Whoever has got past a barrier, every worker has arrived at it, whatever became of it since. */
  lemma Lockstep(cfg: Config, s: State, v: nat, o: nat)
    requires Inv(cfg, s) && v < cfg.count && o < cfg.count
    ensures Crossed(cfg, s.workers[v].pc) > 0 ==> Sent(cfg, s.workers[o].pc) > Crossed(cfg, s.workers[v].pc)
  {
    assert WorkerOk(cfg, s, v) && WorkerOk(cfg, s, o);
  }

  /** While somebody copies block `o` in round `r`, the owner is between its fill and its next barrier. */
  lemma OwnerHoldsImage(cfg: Config, s: State, v: nat, o: nat, r: nat)
    requires Inv(cfg, s) && v < cfg.count && o < cfg.count && r < cfg.rounds
    requires s.workers[v].pc.Clear? || s.workers[v].pc.CopyWord? || s.workers[v].pc.Check?
    requires s.workers[v].pc.round == r
    ensures Holds(s.workers[o].pc, r)
    ensures !s.workers[o].freed ==> s.workers[o].block == cfg.Image(r, o)
  {
    Lockstep(cfg, s, v, o);
    Lockstep(cfg, s, o, v);
    assert WorkerOk(cfg, s, o);
    assert PcInRange(cfg, s.workers[o].pc);
  }

  /* ---- every step keeps the invariant ---- */

  lemma StartOk(cfg: Config)
    requires cfg.Valid()
    ensures Inv(cfg, Start(cfg))
  {
    var s := Start(cfg);
    forall w | 0 <= w < cfg.count ensures WorkerOk(cfg, s, w) && ReaderOk(cfg, s, w) {
      assert s.workers[w] == StartWorker(cfg);
    }
  }

  lemma PopUp(cfg: Config, w: nat, queue: seq<word>, sent: nat, got: nat)
    requires cfg.Valid() && w < cfg.count && UpOk(cfg, w, queue, sent, got) && |queue| > 0
    ensures queue[0] == UpWord(cfg, w, got) && UpOk(cfg, w, queue[1..], sent, got + 1)
  {
    forall i | 0 <= i < |queue| - 1 ensures queue[1..][i] == UpWord(cfg, w, got + 1 + i) {
      assert queue[i + 1] == UpWord(cfg, w, got + (i + 1));
    }
  }

  lemma PopDown(cfg: Config, queue: seq<word>, sent: nat, got: nat)
    requires cfg.Valid() && DownOk(cfg, queue, sent, got) && |queue| > 0
    ensures queue[0] == DownWord(cfg, got) && DownOk(cfg, queue[1..], sent, got + 1)
  {
    forall i | 0 <= i < |queue| - 1 ensures queue[1..][i] == DownWord(cfg, got + 1 + i) {
      assert queue[i + 1] == DownWord(cfg, got + (i + 1));
    }
  }

  /** Changing nothing but the statement keeps a worker's own part, when the new statement demands
      no more than the old one. */
  lemma GotoOk(cfg: Config, w: nat, worker: Worker, pc: Pc)
    requires cfg.Valid() && w < cfg.count && PcInRange(cfg, worker.pc) && PcInRange(cfg, pc)
    requires |worker.mapped| == cfg.count && OwnOk(cfg, w, worker) && worker.status == Running
    requires pc.MapSlice? ==> pc.token == cfg.tokens[pc.owner]
    requires pc.FillWord? ==> pc.i == 0
    requires forall k :: 0 <= k < cfg.count ==> MappedAt(cfg, pc, k) == MappedAt(cfg, worker.pc, k)
    requires Fills(cfg, pc) <= Fills(cfg, worker.pc)
    requires forall r :: Holds(pc, r) ==> Holds(worker.pc, r)
    requires forall r, o: nat :: HasRead(cfg, pc, r, o) == HasRead(cfg, worker.pc, r, o)
    ensures OwnOk(cfg, w, Goto(worker, pc))
  {
  }

  lemma SendStepOk(cfg: Config, s: State, w: nat)
    requires Inv(cfg, s) && w < cfg.count && CanWork(s.workers[w], s.down[w])
    requires s.workers[w].pc.Export? || s.workers[w].pc.Arrive?
    ensures var s' := WorkStep(cfg, s, w); Shape(cfg, s') && WorkerOk(cfg, s', w) && ReaderOk(cfg, s', w)
    ensures WorkStep(cfg, s, w).workers[w].status == Running
  {
    assert WorkerOk(cfg, s, w);
    var worker := s.workers[w];
    assert PcInRange(cfg, worker.pc);
    var pc := if worker.pc.Export? then AwaitToken(0) else Depart(worker.pc.barrier);
    GotoOk(cfg, w, worker, pc);
    var s' := WorkStep(cfg, s, w);
    assert s'.workers[w] == Goto(worker, pc);
    assert UpOk(cfg, w, s'.up[w], Sent(cfg, pc), CoordGot(cfg, s.coord, w));
  }

  lemma ReceiveTokenOk(cfg: Config, s: State, w: nat)
    requires Inv(cfg, s) && w < cfg.count && CanWork(s.workers[w], s.down[w])
    requires s.workers[w].pc.AwaitToken?
    ensures var s' := WorkStep(cfg, s, w); Shape(cfg, s') && WorkerOk(cfg, s', w) && ReaderOk(cfg, s', w)
    ensures WorkStep(cfg, s, w).workers[w].status == Running
  {
    assert WorkerOk(cfg, s, w);
    var worker := s.workers[w];
    assert PcInRange(cfg, worker.pc);
    PopDown(cfg, s.down[w], CoordSent(cfg, s.coord, w), Got(cfg, worker.pc));
    var pc := MapSlice(worker.pc.owner, s.down[w][0]);
    GotoOk(cfg, w, worker, pc);
    assert WorkStep(cfg, s, w).workers[w] == Goto(worker, pc);
  }

  lemma DepartOk(cfg: Config, s: State, w: nat)
    requires Inv(cfg, s) && w < cfg.count && CanWork(s.workers[w], s.down[w])
    requires s.workers[w].pc.Depart?
    ensures var s' := WorkStep(cfg, s, w); Shape(cfg, s') && WorkerOk(cfg, s', w) && ReaderOk(cfg, s', w)
    ensures WorkStep(cfg, s, w).workers[w].status == Running
  {
    assert WorkerOk(cfg, s, w);
    var worker := s.workers[w];
    assert PcInRange(cfg, worker.pc);
    PopDown(cfg, s.down[w], CoordSent(cfg, s.coord, w), Got(cfg, worker.pc));
    AfterOk(cfg, worker.pc.barrier);
    var pc := After(cfg, worker.pc.barrier);
    GotoOk(cfg, w, worker, pc);
    assert WorkStep(cfg, s, w).workers[w] == Goto(worker, pc);
  }

  lemma AfterOk(cfg: Config, b: Barrier)
    requires cfg.Valid() && BarrierInRange(cfg, b)
    ensures var pc := After(cfg, b);
            && PcInRange(cfg, pc)
            && !pc.Depart? && !pc.Export? && !pc.MapSlice? && (pc.FillWord? ==> pc.i == 0)
            && !pc.CopyWord? && !pc.Check?
            && Crossed(cfg, pc) == Index(cfg, b) + 1
            && Got(cfg, pc) == Got(cfg, Depart(b)) + 1
            && (forall k :: MappedAt(cfg, pc, k) == MappedAt(cfg, Depart(b), k))
            && Fills(cfg, pc) == FillsAt(cfg, b)
            && (forall r :: Holds(pc, r) ==> Holds(Depart(b), r))
            && (forall r, o: nat :: HasRead(cfg, pc, r, o) == HasReadAt(cfg, b, r))
  {
  }

  lemma MapStepOk(cfg: Config, s: State, w: nat)
    requires Inv(cfg, s) && w < cfg.count && CanWork(s.workers[w], s.down[w])
    requires s.workers[w].pc.MapSlice? || s.workers[w].pc.Unmap?
    ensures var s' := WorkStep(cfg, s, w); Shape(cfg, s') && WorkerOk(cfg, s', w) && ReaderOk(cfg, s', w)
    ensures WorkStep(cfg, s, w).workers[w].status == Running
  {
    assert WorkerOk(cfg, s, w);
    var worker := s.workers[w];
    assert PcInRange(cfg, worker.pc);
    MapOwn(cfg, w, worker);
    ReplaceOk(cfg, s, w, Remap(cfg, worker));
  }

  lemma MapOwn(cfg: Config, w: nat, worker: Worker)
    requires cfg.Valid() && w < cfg.count && PcInRange(cfg, worker.pc)
    requires worker.pc.MapSlice? || worker.pc.Unmap?
    requires |worker.mapped| == cfg.count && OwnOk(cfg, w, worker) && worker.status == Running
    ensures var next := Remap(cfg, worker);
            && PcInRange(cfg, next.pc) && |next.mapped| == cfg.count && OwnOk(cfg, w, next)
            && Sent(cfg, next.pc) == Sent(cfg, worker.pc) && Got(cfg, next.pc) == Got(cfg, worker.pc)
  {
    var next := Remap(cfg, worker);
    assert LogsOk(cfg, w, next);
    assert LifeOk(cfg, next);
  }

  lemma TouchStepOk(cfg: Config, s: State, w: nat)
    requires Inv(cfg, s) && w < cfg.count && CanWork(s.workers[w], s.down[w])
    requires TouchesMemory(s.workers[w].pc)
    ensures var s' := WorkStep(cfg, s, w); Shape(cfg, s') && WorkerOk(cfg, s', w) && ReaderOk(cfg, s', w)
    ensures !(s.workers[w].pc.Check? && s.workers[s.workers[w].pc.owner].freed) ==>
              WorkStep(cfg, s, w).workers[w].status == Running
  {
    assert WorkerOk(cfg, s, w);
    var worker := s.workers[w];
    assert PcInRange(cfg, worker.pc);
    var source := s.workers[SourceOf(worker.pc, w)].block;
    TouchOwn(cfg, w, worker, source);
    ReplaceOk(cfg, s, w, Touch(cfg, w, worker, source));
    TouchReads(cfg, s, w);
  }

  /** Replacing one worker by one with the same counts. */
  lemma ReplaceOk(cfg: Config, s: State, w: nat, next: Worker)
    requires Inv(cfg, s) && w < cfg.count
    requires PcInRange(cfg, next.pc) && |next.mapped| == cfg.count && OwnOk(cfg, w, next)
    requires |next.block| == |next.hbm| == cfg.words
    requires Sent(cfg, next.pc) == Sent(cfg, s.workers[w].pc) && Got(cfg, next.pc) == Got(cfg, s.workers[w].pc)
    ensures var s' := s.(workers := s.workers[w := next]); Shape(cfg, s') && WorkerOk(cfg, s', w)
  {
    assert WorkerOk(cfg, s, w);
  }

  lemma TouchSizes(cfg: Config, w: nat, worker: Worker, source: seq<word>)
    requires cfg.Valid() && w < cfg.count && PcInRange(cfg, worker.pc) && TouchesMemory(worker.pc)
    requires |worker.block| == |worker.hbm| == |source| == cfg.words
    ensures var next := Touch(cfg, w, worker, source);
            && |next.block| == |next.hbm| == cfg.words
            && next.mapped == worker.mapped && next.freed == worker.freed
            && (next.status == worker.status || next.status == Cleaning)
  {
  }

  lemma TouchRange(cfg: Config, w: nat, worker: Worker, source: seq<word>)
    requires cfg.Valid() && w < cfg.count && PcInRange(cfg, worker.pc) && TouchesMemory(worker.pc)
    requires |worker.block| == |worker.hbm| == |source| == cfg.words
    ensures var next := Touch(cfg, w, worker, source); PcInRange(cfg, next.pc) && !next.pc.MapSlice?
  {
  }

  /** A memory statement neither sends nor receives, and every slice is mapped throughout. */
  lemma TouchCounts(cfg: Config, w: nat, worker: Worker, source: seq<word>)
    requires cfg.Valid() && w < cfg.count && PcInRange(cfg, worker.pc) && TouchesMemory(worker.pc)
    requires |worker.block| == |worker.hbm| == |source| == cfg.words
    ensures var next := Touch(cfg, w, worker, source).pc;
            && Sent(cfg, next) == Sent(cfg, worker.pc)
            && Got(cfg, next) == Got(cfg, worker.pc)
            && (forall k :: MappedAt(cfg, next, k))
            && (forall k :: MappedAt(cfg, worker.pc, k))
  {
    var next := Touch(cfg, w, worker, source).pc;
    assert TouchesMemory(next) || next == Arrive(Tested) || next == worker.pc
        || next == Arrive(Written(worker.pc.round)) || next == Arrive(ReadBack(worker.pc.round));
  }

  lemma TouchOwn(cfg: Config, w: nat, worker: Worker, source: seq<word>)
    requires cfg.Valid() && w < cfg.count && PcInRange(cfg, worker.pc) && TouchesMemory(worker.pc)
    requires |worker.block| == |worker.hbm| == |source| == cfg.words
    requires |worker.mapped| == cfg.count
    requires OwnOk(cfg, w, worker) && worker.status == Running
    ensures var next := Touch(cfg, w, worker, source);
            && PcInRange(cfg, next.pc) && |next.mapped| == cfg.count && OwnOk(cfg, w, next)
            && |next.block| == |next.hbm| == cfg.words
            && Sent(cfg, next.pc) == Sent(cfg, worker.pc) && Got(cfg, next.pc) == Got(cfg, worker.pc)
    ensures !worker.pc.Check? ==> Touch(cfg, w, worker, source).status == Running
  {
    TouchSizes(cfg, w, worker, source);
    TouchRange(cfg, w, worker, source);
    TouchCounts(cfg, w, worker, source);
    TouchBlock(cfg, w, worker, source);
    TouchLogs(cfg, w, worker, source);
  }

  /** Copying a word extends the copied part; a complete copy is the owner's image. */
  lemma TouchReads(cfg: Config, s: State, w: nat)
    requires Inv(cfg, s) && w < cfg.count && CanWork(s.workers[w], s.down[w])
    requires TouchesMemory(s.workers[w].pc)
    requires Shape(cfg, WorkStep(cfg, s, w))
    ensures ReaderOk(cfg, WorkStep(cfg, s, w), w)
    ensures s.workers[w].pc.Check? && !s.workers[s.workers[w].pc.owner].freed ==>
              WorkStep(cfg, s, w).workers[w].status == Running
  {
    assert ReaderOk(cfg, s, w);
    var worker := s.workers[w];
    var pc := worker.pc;
    var s' := WorkStep(cfg, s, w);
    if pc.CopyWord? {
      var source := s.workers[pc.owner].block;
      OwnerHoldsImage(cfg, s, w, pc.owner, pc.round);
      assert s'.workers[pc.owner].freed == s.workers[pc.owner].freed;
      assert s'.workers[w].hbm == worker.hbm[pc.i := source[pc.i]];
      if !s.workers[pc.owner].freed {
        assert source[pc.i] == PatternWord(pc.i, cfg.Seed(pc.round, pc.owner));
        assert forall k: nat :: k < pc.i + 1 && k < cfg.words ==>
            s'.workers[w].hbm[k] == PatternWord(k, cfg.Seed(pc.round, pc.owner));
        if pc.i + 1 == cfg.words {
          assert s'.workers[w].hbm == cfg.Image(pc.round, pc.owner);
        }
      }
    }
  }

  lemma TouchBlock(cfg: Config, w: nat, worker: Worker, source: seq<word>)
    requires cfg.Valid() && w < cfg.count && PcInRange(cfg, worker.pc) && TouchesMemory(worker.pc)
    requires |worker.block| == |worker.hbm| == |source| == cfg.words
    requires BlockOk(cfg, w, worker)
    ensures BlockOk(cfg, w, Touch(cfg, w, worker, source))
    ensures worker.status == Running && !worker.pc.Check? ==> Touch(cfg, w, worker, source).status == Running
  {
    var next := Touch(cfg, w, worker, source);
    if worker.pc.FillWord? && next.pc.CheckFill? {
      assert next.block == cfg.Image(worker.pc.round, w);
    }
  }

  lemma TouchLogs(cfg: Config, w: nat, worker: Worker, source: seq<word>)
    requires cfg.Valid() && w < cfg.count && PcInRange(cfg, worker.pc) && TouchesMemory(worker.pc)
    requires |worker.block| == |worker.hbm| == |source| == cfg.words
    requires LogsOk(cfg, w, worker)
    ensures LogsOk(cfg, w, Touch(cfg, w, worker, source))
  {
    assert WroteOk(cfg, w, Touch(cfg, w, worker, source));
    TouchHasRead(cfg, w, worker, source);
    TouchSeenSound(cfg, w, worker, source);
    TouchSeenComplete(cfg, w, worker, source);
  }

  /** A successful comparison adds exactly one read to those completed; nothing else adds any. */
  lemma TouchHasRead(cfg: Config, w: nat, worker: Worker, source: seq<word>)
    requires cfg.Valid() && w < cfg.count && PcInRange(cfg, worker.pc) && TouchesMemory(worker.pc)
    requires |worker.block| == |worker.hbm| == |source| == cfg.words
    ensures var next := Touch(cfg, w, worker, source);
            forall r: nat, o: nat :: o < cfg.count ==>
              (HasRead(cfg, next.pc, r, o) <==>
                 HasRead(cfg, worker.pc, r, o) ||
                 (worker.pc.Check? && worker.hbm == cfg.Image(worker.pc.round, worker.pc.owner)
                    && r == worker.pc.round && o == worker.pc.owner))
  {
  }

  lemma TouchSeenSound(cfg: Config, w: nat, worker: Worker, source: seq<word>)
    requires cfg.Valid() && w < cfg.count && PcInRange(cfg, worker.pc) && TouchesMemory(worker.pc)
    requires |worker.block| == |worker.hbm| == |source| == cfg.words
    requires SeenSound(cfg, worker)
    ensures SeenSound(cfg, Touch(cfg, w, worker, source))
  {
    TouchHasRead(cfg, w, worker, source);
    var next := Touch(cfg, w, worker, source);
    if next.seen != worker.seen {
      var r, o := worker.pc.round, worker.pc.owner;
      assert worker.pc == Check(r, o) && next.seen == worker.seen[(r, o) := worker.hbm];
    }
  }

  lemma TouchSeenComplete(cfg: Config, w: nat, worker: Worker, source: seq<word>)
    requires cfg.Valid() && w < cfg.count && PcInRange(cfg, worker.pc) && TouchesMemory(worker.pc)
    requires |worker.block| == |worker.hbm| == |source| == cfg.words
    requires SeenComplete(cfg, worker)
    ensures SeenComplete(cfg, Touch(cfg, w, worker, source))
  {
    TouchHasRead(cfg, w, worker, source);
  }

  /** A statement of worker `w` leaves every other worker's part of the invariant alone. */
  lemma OthersUntouched(cfg: Config, s: State, s': State, w: nat, v: nat)
    requires Inv(cfg, s) && Shape(cfg, s') && w < cfg.count && v < cfg.count && v != w
    requires s'.coord == s.coord && s'.workers[v] == s.workers[v] && s'.up[v] == s.up[v] && s'.down[v] == s.down[v]
    requires forall o :: 0 <= o < cfg.count && s.workers[o].freed ==> s'.workers[o].freed
    ensures WorkerOk(cfg, s', v) && ReaderOk(cfg, s', v)
  {
    assert WorkerOk(cfg, s, v) && ReaderOk(cfg, s, v);
    assert PcInRange(cfg, s.workers[v].pc);
  }

  lemma Reassemble(cfg: Config, s: State, s': State, w: nat)
    requires Inv(cfg, s) && Shape(cfg, s') && w < cfg.count
    requires s'.coord == s.coord && s'.tokens == s.tokens
    requires forall v :: 0 <= v < cfg.count && v != w ==>
        s'.workers[v] == s.workers[v] && s'.up[v] == s.up[v] && s'.down[v] == s.down[v]
    requires s.workers[w].freed ==> s'.workers[w].freed
    requires WorkerOk(cfg, s', w) && ReaderOk(cfg, s', w)
    ensures Inv(cfg, s')
  {
    forall v | 0 <= v < cfg.count && v != w ensures WorkerOk(cfg, s', v) && ReaderOk(cfg, s', v) {
      OthersUntouched(cfg, s, s', w, v);
    }
  }

  lemma WorkStepLocal(cfg: Config, s: State, w: nat)
    requires Shape(cfg, s) && w < cfg.count && CanWork(s.workers[w], s.down[w])
    ensures var s' := WorkStep(cfg, s, w);
            && s'.coord == s.coord && s'.tokens == s.tokens && s'.aborted == s.aborted
            && |s'.workers| == |s.workers| && |s'.up| == |s.up| && |s'.down| == |s.down|
            && (forall v :: 0 <= v < cfg.count && v != w ==>
                  s'.workers[v] == s.workers[v] && s'.up[v] == s.up[v] && s'.down[v] == s.down[v])
            && s'.workers[w].freed == s.workers[w].freed
  {
    assert PcInRange(cfg, s.workers[w].pc);
  }

  lemma WorkStepOk(cfg: Config, s: State, w: nat)
    requires Inv(cfg, s) && w < cfg.count && CanWork(s.workers[w], s.down[w])
    ensures Inv(cfg, WorkStep(cfg, s, w))
    ensures !(s.workers[w].pc.Check? && s.workers[s.workers[w].pc.owner].freed) ==>
              WorkStep(cfg, s, w).workers[w].status == Running
  {
    assert PcInRange(cfg, s.workers[w].pc);
    var pc := s.workers[w].pc;
    if TouchesMemory(pc) {
      TouchStepOk(cfg, s, w);
    } else if pc.MapSlice? || pc.Unmap? {
      MapStepOk(cfg, s, w);
    } else if pc.AwaitToken? {
      ReceiveTokenOk(cfg, s, w);
    } else if pc.Depart? {
      DepartOk(cfg, s, w);
    } else {
      SendStepOk(cfg, s, w);
    }
    WorkStepLocal(cfg, s, w);
    Reassemble(cfg, s, WorkStep(cfg, s, w), w);
  }

  /** One coordinator step moves exactly one count, of the one worker it talks to. */
  lemma CoordCounts(cfg: Config, s: State, w: nat)
    requires Shape(cfg, s) && CanCoordinate(cfg, s) && w < cfg.count
    requires s.coord.Gather? ==> s.up[s.coord.k][0] == 0
    ensures var c' := CoordStep(cfg, s).coord;
            && CoordGot(cfg, c', w) == CoordGot(cfg, s.coord, w)
                 + (if (s.coord.Collect? || s.coord.Gather?) && s.coord.k == w then 1 else 0)
            && CoordSent(cfg, c', w) == CoordSent(cfg, s.coord, w)
                 + (if (s.coord.Hand? && s.coord.w == w) || (s.coord.Release? && s.coord.k == w) then 1 else 0)
  {
  }

  /** The queue a coordinator step touches still holds exactly the words in between. */
  lemma CoordChannels(cfg: Config, s: State, w: nat)
    requires Inv(cfg, s) && CanCoordinate(cfg, s) && w < cfg.count
    requires s.coord.Gather? ==> s.up[s.coord.k][0] == 0
    ensures var s' := CoordStep(cfg, s);
            && |s'.up| == |s'.down| == cfg.count
            && ChannelsOk(cfg, s'.coord, w, s.workers[w].pc, s'.up[w], s'.down[w])
  {
    assert WorkerOk(cfg, s, w);
    CoordCounts(cfg, s, w);
    var pc := s.workers[w].pc;
    if (s.coord.Collect? || s.coord.Gather?) && s.coord.k == w {
      PopUp(cfg, w, s.up[w], Sent(cfg, pc), CoordGot(cfg, s.coord, w));
    }
  }

  lemma CoordWordIsExpected(cfg: Config, s: State)
    requires Inv(cfg, s) && CanCoordinate(cfg, s) && (s.coord.Collect? || s.coord.Gather?)
    ensures s.up[s.coord.k][0] == if s.coord.Collect? then cfg.tokens[s.coord.k] else 0
  {
    var k := s.coord.k;
    assert WorkerOk(cfg, s, k);
    PopUp(cfg, k, s.up[k], Sent(cfg, s.workers[k].pc), CoordGot(cfg, s.coord, k));
  }

  lemma CoordStepOk(cfg: Config, s: State)
    requires Inv(cfg, s) && CanCoordinate(cfg, s)
    ensures Inv(cfg, CoordStep(cfg, s))
    ensures !CoordStep(cfg, s).aborted
  {
    if s.coord.Collect? || s.coord.Gather? {
      CoordWordIsExpected(cfg, s);
    }
    var s' := CoordStep(cfg, s);
    assert s'.workers == s.workers;
    assert Shape(cfg, s');
    assert s'.tokens <= cfg.tokens;
    forall w | 0 <= w < cfg.count ensures WorkerOk(cfg, s', w) && ReaderOk(cfg, s', w) {
      assert WorkerOk(cfg, s, w) && ReaderOk(cfg, s, w);
      assert PcInRange(cfg, s.workers[w].pc);
      CoordChannels(cfg, s, w);
    }
  }

  /** Failing, unwinding, dying and the reuse of released memory change only what a worker owns. */
  lemma FateOk(cfg: Config, s: State, w: nat, next: Worker)
    requires Inv(cfg, s) && w < cfg.count
    requires var worker := s.workers[w];
             && next.pc == worker.pc && next.hbm == worker.hbm
             && next.wrote == worker.wrote && next.seen == worker.seen
             && (next.freed || next.block == worker.block)
             && (worker.freed ==> next.freed)
    requires |next.block| == cfg.words && |next.mapped| == cfg.count && LifeOk(cfg, next)
    ensures Inv(cfg, s.(workers := s.workers[w := next]))
  {
    var s' := s.(workers := s.workers[w := next]);
    assert WorkerOk(cfg, s, w) && ReaderOk(cfg, s, w);
    assert PcInRange(cfg, s.workers[w].pc);
    assert Shape(cfg, s');
    assert LogsOk(cfg, w, next);
    Reassemble(cfg, s, s', w);
  }

  lemma StepOk(cfg: Config, s: State, m: Move)
    requires Inv(cfg, s) && Enabled(cfg, s, m)
    ensures Inv(cfg, Step(cfg, s, m))
  {
    match m
    case Work(w) => WorkStepOk(cfg, s, w);
    case Coordinate => CoordStepOk(cfg, s);
    case Abort =>
      forall w | 0 <= w < cfg.count ensures WorkerOk(cfg, Step(cfg, s, m), w) && ReaderOk(cfg, Step(cfg, s, m), w) {
        assert WorkerOk(cfg, s, w) && ReaderOk(cfg, s, w);
      }
    case Throw(w) =>
      assert WorkerOk(cfg, s, w);
      FateOk(cfg, s, w, s.workers[w].(status := Cleaning));
    case Clean(w, ok) =>
      assert WorkerOk(cfg, s, w);
      FateOk(cfg, s, w, s.workers[w].(status := Exited(ok), mapped := NoneMapped(cfg), freed := true));
    case Kill(w) =>
      assert WorkerOk(cfg, s, w);
      FateOk(cfg, s, w, s.workers[w].(status := Exited(false), mapped := NoneMapped(cfg), freed := true));
    case Scribble(w, block) =>
      assert WorkerOk(cfg, s, w);
      FateOk(cfg, s, w, s.workers[w].(block := block));
  }

  lemma {:induction false} RunOk(cfg: Config, states: seq<State>, moves: seq<Move>, i: nat)
    requires IsRun(cfg, states, moves) && i < |states|
    ensures Inv(cfg, states[i])
  {
    if i == 0 {
      StartOk(cfg);
    } else {
      RunOk(cfg, states, moves, i - 1);
      StepOk(cfg, states[i - 1], moves[i - 1]);
    }
  }
}
