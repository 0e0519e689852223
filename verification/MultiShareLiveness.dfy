/** Without failures, a run of multi_share.cpp cannot get stuck and cannot go on for ever: whatever
    the interleaving, it ends within a bound fixed by the configuration, and it ends in PASS. */
module MultiShareLiveness {
  import opened Machine
  import opened MultiShare
  import opened MultiShareSafety
  import Whole

  /** Moves that are nobody's failure. */
  predicate Smooth(m: Move) {
    m.Work? || m.Coordinate? || (m.Clean? && m.ok)
  }

  ghost predicate IsSmoothRun(cfg: Config, states: seq<State>, moves: seq<Move>) {
    IsRun(cfg, states, moves) && forall i :: 0 <= i < |moves| ==> Smooth(moves[i])
  }

  ghost predicate SmoothInv(cfg: Config, s: State) {
    && Inv(cfg, s)
    && !s.aborted
    && forall w :: 0 <= w < cfg.count ==> s.workers[w].status == Running || s.workers[w].status == Exited(true)
  }

  lemma SmoothStepOk(cfg: Config, s: State, m: Move)
    requires SmoothInv(cfg, s) && Enabled(cfg, s, m) && Smooth(m)
    ensures SmoothInv(cfg, Step(cfg, s, m))
  {
    StepOk(cfg, s, m);
    match m
    case Work(w) =>
      WorkStepOk(cfg, s, w);
      WorkStepLocal(cfg, s, w);
      var pc := s.workers[w].pc;
      assert PcInRange(cfg, pc);
      if pc.Check? {
        OwnerHoldsImage(cfg, s, w, pc.owner, pc.round);
        assert WorkerOk(cfg, s, pc.owner);
      }
    case Coordinate => CoordStepOk(cfg, s);
    case Clean(w, ok) =>
  }

  lemma {:induction false} SmoothRunOk(cfg: Config, states: seq<State>, moves: seq<Move>, i: nat)
    requires IsSmoothRun(cfg, states, moves) && i < |states|
    ensures SmoothInv(cfg, states[i])
  {
    if i == 0 {
      StartOk(cfg);
    } else {
      SmoothRunOk(cfg, states, moves, i - 1);
      SmoothStepOk(cfg, states[i - 1], moves[i - 1]);
    }
  }

  /* ---- somebody can always move ---- */

  /** A worker that has sent no more than the coordinator has taken from it can move, as long as the
      coordinator has sent it everything that is due before that. */
  lemma WorkerCanMove(cfg: Config, s: State, w: nat)
    requires SmoothInv(cfg, s) && w < cfg.count
    requires s.workers[w].status == Running
    requires s.workers[w].pc.AwaitToken? || s.workers[w].pc.Depart? ==>
               Got(cfg, s.workers[w].pc) < CoordSent(cfg, s.coord, w)
    ensures exists m :: Smooth(m) && Enabled(cfg, s, m)
  {
    assert WorkerOk(cfg, s, w);
    var m := if s.workers[w].pc == Leave then Clean(w, true) else Work(w);
    assert Smooth(m) && Enabled(cfg, s, m);
  }

  lemma NeverStuck(cfg: Config, s: State)
    requires SmoothInv(cfg, s) && !Passed(cfg, s)
    ensures exists m :: Smooth(m) && Enabled(cfg, s, m)
  {
    if CanCoordinate(cfg, s) {
      assert Smooth(Coordinate) && Enabled(cfg, s, Coordinate);
    } else if s.coord == Finished {
      var w :| 0 <= w < cfg.count && s.workers[w].status == Running;
      assert WorkerOk(cfg, s, w) && PcInRange(cfg, s.workers[w].pc);
      WorkerCanMove(cfg, s, w);
    } else {
      var k := s.coord.k;
      assert WorkerOk(cfg, s, k) && PcInRange(cfg, s.workers[k].pc);
      assert Sent(cfg, s.workers[k].pc) == CoordGot(cfg, s.coord, k);
      WorkerCanMove(cfg, s, k);
    }
  }

  /* ---- every move brings the end nearer ---- */

  /** More than the number of statements between two barriers. */
  function Span(cfg: Config): nat { cfg.count * (cfg.words + 2) + 2 * cfg.count + cfg.words + 8 }

  function Local(cfg: Config, pc: Pc): nat {
    match pc
    case Export => 0
    case AwaitToken(k) => 1 + 2 * k
    case MapSlice(k, _) => 2 + 2 * k
    case Arrive(_) => Span(cfg) - 2
    case Depart(_) => Span(cfg) - 1
    case OwnTest(stage) => stage
    case FillWord(_, i) => i
    case CheckFill(_) => cfg.words
    case Clear(_, o) => o * (cfg.words + 2)
    case CopyWord(_, o, i) => o * (cfg.words + 2) + 1 + i
    case Check(_, o) => o * (cfg.words + 2) + 1 + cfg.words
    case CheckOwn(_) => cfg.count * (cfg.words + 2)
    case Unmap(k) => k
    case Leave => 0
  }

  function Progress(cfg: Config, worker: Worker): nat {
    Crossed(cfg, worker.pc) * Span(cfg) + Local(cfg, worker.pc) + (if worker.status.Exited? then 1 else 0)
  }

  function CoordProgress(cfg: Config, c: Coord): nat {
    match c
    case Collect(k) => k
    case Hand(w, k) => cfg.count + w * cfg.count + k
    case Gather(b, k) => cfg.count + cfg.count * cfg.count + 2 * b * cfg.count + k
    case Release(b, k) => cfg.count + cfg.count * cfg.count + 2 * b * cfg.count + cfg.count + k
    case Finished => cfg.count + cfg.count * cfg.count + 2 * cfg.Barriers() * cfg.count
  }

  function Sum(cfg: Config, workers: seq<Worker>): nat {
    if workers == [] then 0 else Progress(cfg, workers[0]) + Sum(cfg, workers[1..])
  }

  function Total(cfg: Config, s: State): nat {
    CoordProgress(cfg, s.coord) + Sum(cfg, s.workers)
  }

  lemma {:induction false} SumUpdate(cfg: Config, workers: seq<Worker>, w: nat, next: Worker)
    requires w < |workers|
    ensures Sum(cfg, workers[w := next]) == Sum(cfg, workers) - Progress(cfg, workers[w]) + Progress(cfg, next)
  {
    if w == 0 {
      assert workers[0 := next][1..] == workers[1..];
    } else {
      SumUpdate(cfg, workers[1..], w - 1, next);
      assert workers[w := next][1..] == workers[1..][w - 1 := next];
    }
  }

  lemma {:induction false} SumBound(cfg: Config, workers: seq<Worker>, each: nat)
    requires forall w :: 0 <= w < |workers| ==> Progress(cfg, workers[w]) <= each
    ensures Sum(cfg, workers) <= |workers| * each
  {
    if workers != [] {
      SumBound(cfg, workers[1..], each);
      assert |workers| * each == (|workers| - 1) * each + each;
    }
  }

  /** Statements of one barrier interval come one after the other, and before its barrier. */
  lemma LocalInSpan(cfg: Config, pc: Pc)
    requires cfg.Valid() && PcInRange(cfg, pc)
    ensures Local(cfg, pc) < Span(cfg)
    ensures !pc.Arrive? && !pc.Depart? ==> Local(cfg, pc) < Span(cfg) - 2
  {
    if pc.Clear? || pc.CopyWord? || pc.Check? {
      Whole.RowFits(pc.owner, cfg.count, cfg.words + 2);
    }
  }

  /** One statement: either a later one of the same interval, or the first of the next interval. */
  lemma WorkIsForward(cfg: Config, s: State, w: nat)
    requires SmoothInv(cfg, s) && w < cfg.count && CanWork(s.workers[w], s.down[w])
    ensures Progress(cfg, WorkStep(cfg, s, w).workers[w]) > Progress(cfg, s.workers[w])
  {
    SmoothStepOk(cfg, s, Work(w));
    assert WorkerOk(cfg, s, w);
    var worker := s.workers[w];
    var pc := worker.pc;
    assert PcInRange(cfg, pc);
    var next := WorkStep(cfg, s, w).workers[w];
    WorkStepLocal(cfg, s, w);
    if pc.Depart? {
      PopDown(cfg, s.down[w], CoordSent(cfg, s.coord, w), Got(cfg, pc));
      AfterOk(cfg, pc.barrier);
      Whole.NextRow(Index(cfg, pc.barrier), Span(cfg));
    } else {
      LocalInSpan(cfg, pc);
      SameInterval(cfg, s, w);
    }
  }

  lemma SameInterval(cfg: Config, s: State, w: nat)
    requires SmoothInv(cfg, s) && w < cfg.count && CanWork(s.workers[w], s.down[w])
    requires !s.workers[w].pc.Depart?
    ensures var next := WorkStep(cfg, s, w).workers[w];
            && next.status == s.workers[w].status
            && Crossed(cfg, next.pc) == Crossed(cfg, s.workers[w].pc)
            && Local(cfg, next.pc) > Local(cfg, s.workers[w].pc)
  {
    var pc := s.workers[w].pc;
    assert PcInRange(cfg, pc);
    assert WorkerOk(cfg, s, w);
    LocalInSpan(cfg, pc);
    SmoothStepOk(cfg, s, Work(w));
    var next := WorkStep(cfg, s, w).workers[w];
    assert WorkerOk(cfg, WorkStep(cfg, s, w), w);
    if TouchesMemory(pc) {
      TouchIsForward(cfg, w, s.workers[w], s.workers[SourceOf(pc, w)].block);
    }
  }

  lemma TouchIsForward(cfg: Config, w: nat, worker: Worker, source: seq<word>)
    requires cfg.Valid() && PcInRange(cfg, worker.pc) && TouchesMemory(worker.pc) && worker.status == Running
    requires |worker.block| == |worker.hbm| == |source| == cfg.words
    ensures var next := Touch(cfg, w, worker, source);
            next.status == Running ==>
              && Crossed(cfg, next.pc) == Crossed(cfg, worker.pc)
              && Local(cfg, next.pc) > Local(cfg, worker.pc)
  {
    LocalInSpan(cfg, worker.pc);
    if worker.pc.Check? {
      Whole.NextRow(worker.pc.owner, cfg.words + 2);
    }
  }

  lemma CoordIsForward(cfg: Config, s: State)
    requires SmoothInv(cfg, s) && CanCoordinate(cfg, s)
    ensures CoordProgress(cfg, CoordStep(cfg, s).coord) == CoordProgress(cfg, s.coord) + 1
  {
    if s.coord.Collect? || s.coord.Gather? {
      CoordWordIsExpected(cfg, s);
    }
    if s.coord.Hand? {
      Whole.NextRow(s.coord.w, cfg.count);
    }
    if s.coord.Release? {
      assert 2 * (s.coord.phase + 1) * cfg.count == 2 * s.coord.phase * cfg.count + 2 * cfg.count;
    }
  }

  lemma MoveIsForward(cfg: Config, s: State, m: Move)
    requires SmoothInv(cfg, s) && Enabled(cfg, s, m) && Smooth(m)
    ensures Total(cfg, Step(cfg, s, m)) > Total(cfg, s)
  {
    var s' := Step(cfg, s, m);
    match m
    case Work(w) =>
      WorkIsForward(cfg, s, w);
      WorkStepLocal(cfg, s, w);
      assert s'.workers == s.workers[w := s'.workers[w]];
      SumUpdate(cfg, s.workers, w, s'.workers[w]);
    case Coordinate =>
      CoordIsForward(cfg, s);
      assert s'.workers == s.workers;
    case Clean(w, ok) =>
      SumUpdate(cfg, s.workers, w, s'.workers[w]);
  }

  /** The longest a failure-free run can be. */
  function Bound(cfg: Config): nat {
    cfg.count + cfg.count * cfg.count + 2 * cfg.Barriers() * cfg.count
      + cfg.count * ((cfg.Barriers() + 1) * Span(cfg))
  }

  lemma CrossedInRange(cfg: Config, pc: Pc)
    requires cfg.Valid() && PcInRange(cfg, pc)
    ensures Crossed(cfg, pc) <= cfg.Barriers()
  {
  }

  lemma IntervalsBound(crossed: nat, barriers: nat, span: nat, local: nat)
    requires crossed <= barriers && local <= span
    ensures crossed * span + local <= (barriers + 1) * span
  {
    Whole.Grows(span, crossed, barriers);
    Whole.NextRow(barriers, span);
  }

  lemma CrossedBound(cfg: Config, worker: Worker)
    requires cfg.Valid() && PcInRange(cfg, worker.pc)
    requires worker.status == Running || (worker.status == Exited(true) && worker.pc == Leave)
    ensures Progress(cfg, worker) <= (cfg.Barriers() + 1) * Span(cfg)
  {
    LocalInSpan(cfg, worker.pc);
    CrossedInRange(cfg, worker.pc);
    var local := Local(cfg, worker.pc) + (if worker.status.Exited? then 1 else 0);
    IntervalsBound(Crossed(cfg, worker.pc), cfg.Barriers(), Span(cfg), local);
  }

  lemma PairsFit(k: nat, n: nat, width: nat)
    requires k < n
    ensures 2 * k * width + 2 * width <= 2 * n * width
  {
    Whole.RowFits(k, n, 2 * width);
  }

  lemma CoordBound(cfg: Config, s: State)
    requires Shape(cfg, s)
    ensures CoordProgress(cfg, s.coord) <= cfg.count + cfg.count * cfg.count + 2 * cfg.Barriers() * cfg.count
  {
    match s.coord
    case Hand(w, k) => Whole.RowFits(w, cfg.count, cfg.count);
    case Gather(b, k) => PairsFit(b, cfg.Barriers(), cfg.count);
    case Release(b, k) => PairsFit(b, cfg.Barriers(), cfg.count);
    case _ =>
  }

  lemma TotalBound(cfg: Config, s: State)
    requires SmoothInv(cfg, s)
    ensures Total(cfg, s) <= Bound(cfg)
  {
    CoordBound(cfg, s);
    forall w | 0 <= w < |s.workers|
      ensures Progress(cfg, s.workers[w]) <= (cfg.Barriers() + 1) * Span(cfg)
    {
      assert WorkerOk(cfg, s, w) && PcInRange(cfg, s.workers[w].pc);
      CrossedBound(cfg, s.workers[w]);
    }
    SumBound(cfg, s.workers, (cfg.Barriers() + 1) * Span(cfg));
  }

  lemma {:induction false} TotalGrows(cfg: Config, states: seq<State>, moves: seq<Move>, i: nat)
    requires IsSmoothRun(cfg, states, moves) && i < |states|
    ensures Total(cfg, states[i]) >= i
  {
    if i == 0 {
    } else {
      TotalGrows(cfg, states, moves, i - 1);
      SmoothRunOk(cfg, states, moves, i - 1);
      MoveIsForward(cfg, states[i - 1], moves[i - 1]);
    }
  }

  /** No failure-free run is longer than the bound; one that has not printed PASS can be continued;
      so each of them, continued for as long as it can be, ends with PASS. */
  lemma TerminatesWithPass(cfg: Config, states: seq<State>, moves: seq<Move>)
    requires IsSmoothRun(cfg, states, moves)
    ensures |moves| <= Bound(cfg)
    ensures var last := states[|moves|];
            Shape(cfg, last) && (Passed(cfg, last) || exists m :: Smooth(m) && Enabled(cfg, last, m))
  {
    var last := |moves|;
    SmoothRunOk(cfg, states, moves, last);
    TotalGrows(cfg, states, moves, last);
    TotalBound(cfg, states[last]);
    if !Passed(cfg, states[last]) {
      NeverStuck(cfg, states[last]);
    }
  }
}
