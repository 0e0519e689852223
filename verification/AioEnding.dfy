/** The failing half of progress: a phase that has failed, or whose deadline has passed, comes to its
    end. Nothing else is asked of the outcome of any call, except that io_getevents is not interrupted
    for ever and that the kernel completes what it has accepted. */
module AioEnding {
  import opened AioEngine
  import opened AioSafety
  import opened AioLiveness

  /** The statements that begin with `check()`. */
  predicate Checks(s: SPc) { s.LoopTop? || s.WaitCheck? || s.FinalCheck? }

  /** A step of an actor with any outcome; an actor with nothing to do leaves the state as it is. */
  ghost predicate AnyStep(cfg: Config, a: Actor, st: State, st': State)
    requires Shape(cfg, st)
  {
    match a
    case TheSubmitter =>
      if SubmitterEnabled(st) then exists choice: Choice :: st' == SubmitterStep(cfg, st, choice) else st' == st
    case TheCompleter =>
      if CompleterEnabled(st) then exists choice: Choice :: st' == CompleterStep(cfg, st, choice) else st' == st
    case TheKernel => KernelStep(cfg, st, st')
  }

  /** The kernel announces an event or completes a request with any result, if there is one. */
  ghost predicate KernelStep(cfg: Config, st: State, st': State)
    requires Shape(cfg, st)
  {
    || (st.k.inflight == {} && st.k.pending == 0 && st' == st)
    || (st.k.pending > 0 && st' == Step(cfg, st, Signal))
    || exists id, res, res2 :: id in st.k.inflight && st' == Step(cfg, st, Complete(id, res, res2))
  }

  /** Such a step once the phase has failed or its deadline has passed: a check then always throws.
      io_getevents is no longer interrupted. */
  ghost predicate LateStep(cfg: Config, a: Actor, st: State, st': State)
    requires Shape(cfg, st)
  {
    match a
    case TheSubmitter =>
      if SubmitterEnabled(st) then
        exists choice: Choice :: (Checks(st.s) && !st.m.failed ==> choice == Timeout) &&
          st' == SubmitterStep(cfg, st, choice)
      else st' == st
    case TheCompleter =>
      if CompleterEnabled(st) then
        exists choice: Choice :: (st.c.GetEvents? ==> choice != Again) && st' == CompleterStep(cfg, st, choice)
      else st' == st
    case TheKernel => KernelStep(cfg, st, st')
  }

  /** An endless run of the phase with any outcomes; after the end it stands still. */
  ghost predicate IsEndless(cfg: Config, states: nat -> State, turns: nat -> Actor) {
    && cfg.Valid()
    && states(0) == Start(cfg)
    && forall i: nat :: StepsAt(cfg, states, turns, i)
  }

  ghost predicate StepsAt(cfg: Config, states: nat -> State, turns: nat -> Actor, i: nat) {
    Shape(cfg, states(i)) && AnyStep(cfg, turns(i), states(i), states(i + 1))
  }

  ghost predicate LateAt(cfg: Config, states: nat -> State, turns: nat -> Actor, i: nat) {
    Shape(cfg, states(i)) && LateStep(cfg, turns(i), states(i), states(i + 1))
  }

  /** From step `n` on every check finds a failure or the deadline passed. */
  ghost predicate LateFrom(cfg: Config, states: nat -> State, turns: nat -> Actor, n: nat) {
    forall i: nat :: i >= n ==> LateAt(cfg, states, turns, i)
  }

  lemma AnyStepOk(cfg: Config, a: Actor, st: State, st': State)
    requires Inv(cfg, st) && AnyStep(cfg, a, st, st')
    ensures Inv(cfg, st')
  {
    if st' != st {
      match a
      case TheSubmitter =>
        var choice: Choice :| st' == SubmitterStep(cfg, st, choice);
        SubmitterStepOk(cfg, st, choice);
      case TheCompleter =>
        var choice: Choice :| st' == CompleterStep(cfg, st, choice);
        CompleterStepOk(cfg, st, choice);
      case TheKernel => AnyKernelOk(cfg, st, st');
    }
  }

  lemma AnyKernelOk(cfg: Config, st: State, st': State)
    requires Inv(cfg, st) && KernelStep(cfg, st, st') && st' != st
    ensures Inv(cfg, st')
  {
    if st.k.pending > 0 && st' == Step(cfg, st, Signal) {
      KernelStepOk(cfg, st, Signal);
    } else {
      var id, res, res2 :| id in st.k.inflight && st' == Step(cfg, st, Complete(id, res, res2));
      KernelStepOk(cfg, st, Complete(id, res, res2));
    }
  }

  lemma {:induction false} EndlessOk(cfg: Config, states: nat -> State, turns: nat -> Actor, n: nat)
    requires IsEndless(cfg, states, turns)
    ensures Inv(cfg, states(n))
  {
    if n == 0 {
      StartOk(cfg);
    } else {
      EndlessOk(cfg, states, turns, n - 1);
      assert StepsAt(cfg, states, turns, n - 1);
      AnyStepOk(cfg, turns(n - 1), states(n - 1), states(n));
    }
  }

  /* ---- the ranking ---- */

  /** Statements the submitting thread has still to execute, at most, when every check throws. */
  function StatementsLeft(cfg: Config, s: SPc): nat {
    var n := cfg.count;
    match s
    case Setup(stage) => 3 * n + 15 + Minus(3, stage)
    case Opening(i) => 2 * n + 14 + Minus(n, i)
    case WindowTest => 2 * n + 13
    case Submit => 2 * n + 12
    case Accepted => 2 * n + 11
    case LoopTop => 2 * n + 10
    case WaitTop => 2 * n + 9
    case WaitCheck | FinalCheck => 2 * n + 8
    case Stopping => 2 * n + 7
    case Joining => 2 * n + 6
    case Closing(i) => n + 5 + Minus(n, i)
    case Unwind => n + 4
    case UnwindJoin => n + 3
    case Destroy => n + 2
    case Dispose(i) => 1 + Minus(n, i)
    case Gone => 0
  }

  /** The actor whose turn brings the end nearer: the submitting thread, or the one it waits for. */
  function Awaited(st: State): Actor {
    if SubmitterEnabled(st) then TheSubmitter else if st.s.Destroy? then TheKernel else TheCompleter
  }

  /** Turns of the completion thread before it sees `stop_`. */
  function Polls(st: State): nat {
    if SubmitterEnabled(st) then 0 else if st.c.Epoll? then 2 else if st.c.ReadFd? then 1 else 0
  }

  predicate Closer(cfg: Config, st: State, st': State) {
    || StatementsLeft(cfg, st'.s) < StatementsLeft(cfg, st.s)
    || (st'.s == st.s && WorkLeft(st') < WorkLeft(st))
    || (st'.s == st.s && WorkLeft(st') == WorkLeft(st) && Awaited(st') == Awaited(st) && Polls(st') < Polls(st))
  }

  predicate AsFar(st: State, st': State) {
    st'.s == st.s && WorkLeft(st') == WorkLeft(st) && Awaited(st') == Awaited(st) && Polls(st') == Polls(st)
  }

  /** With every check throwing, no statement of the submitting thread is executed in vain. */
  lemma SubmitterCloser(cfg: Config, st: State, choice: Choice)
    requires Shape(cfg, st) && SubmitterEnabled(st)
    requires LifeOk(st.s, st.c, st.k) && ControlOk(cfg, st.s, st.m, st.k)
    requires Checks(st.s) && !st.m.failed ==> choice == Timeout
    ensures StatementsLeft(cfg, SubmitterStep(cfg, st, choice).s) < StatementsLeft(cfg, st.s)
  {
  }

  lemma PollCloser(cfg: Config, st: State, choice: Choice)
    requires Inv(cfg, st) && CompleterEnabled(st) && Parked(st.c)
    ensures var st' := CompleterStep(cfg, st, choice);
            Closer(cfg, st, st') || (Awaited(st) != TheCompleter && AsFar(st, st'))
  {
    assert CompleterStep(cfg, st, choice).k.inflight == st.k.inflight;
    assert CompleterStep(cfg, st, choice).k.ring == st.k.ring;
  }

  lemma CompleterCloser(cfg: Config, st: State, choice: Choice)
    requires Inv(cfg, st) && CompleterEnabled(st) && (st.c.GetEvents? ==> choice != Again)
    ensures var st' := CompleterStep(cfg, st, choice);
            Closer(cfg, st, st') || (Awaited(st) != TheCompleter && AsFar(st, st'))
  {
    if Parked(st.c) {
      PollCloser(cfg, st, choice);
    } else {
      WorkCloser(cfg, st, choice);
    }
  }

  lemma KernelCloser(cfg: Config, st: State, st': State)
    requires Inv(cfg, st) && KernelStep(cfg, st, st') && !st.s.Gone?
    ensures Closer(cfg, st, st') || (Awaited(st) != TheKernel && AsFar(st, st'))
  {
    if st' != st && !(st.k.pending > 0 && st' == Step(cfg, st, Signal)) {
      var id, res, res2 :| id in st.k.inflight && st' == Step(cfg, st, Complete(id, res, res2));
      assert |st.k.inflight - {id}| == |st.k.inflight| - 1;
    }
  }

  /** Every late step brings the end nearer, or is an idle turn of somebody nobody waits for. */
  lemma LateStepCloser(cfg: Config, a: Actor, st: State, st': State)
    requires Inv(cfg, st) && LateStep(cfg, a, st, st') && !st.s.Gone?
    ensures Inv(cfg, st')
    ensures Closer(cfg, st, st') || (a != Awaited(st) && AsFar(st, st'))
  {
    AnyStepOk(cfg, a, st, st');
    match a
    case TheSubmitter =>
      if SubmitterEnabled(st) {
        var choice: Choice :|
          (Checks(st.s) && !st.m.failed ==> choice == Timeout) && st' == SubmitterStep(cfg, st, choice);
        SubmitterCloser(cfg, st, choice);
      }
    case TheCompleter =>
      if CompleterEnabled(st) {
        var choice: Choice :| (st.c.GetEvents? ==> choice != Again) && st' == CompleterStep(cfg, st, choice);
        CompleterCloser(cfg, st, choice);
      }
    case TheKernel => KernelCloser(cfg, st, st');
  }

  /* ---- the end is reached ---- */

  ghost predicate Advanced(cfg: Config, base: State, st: State) { Inv(cfg, st) && Closer(cfg, base, st) }

  ghost predicate Waits(cfg: Config, base: State, st: State) { Inv(cfg, st) && AsFar(base, st) }

  lemma WaitKept(cfg: Config, base: State, states: nat -> State, turns: nat -> Actor, i: nat)
    requires LateFrom(cfg, states, turns, i) && !base.s.Gone?
    ensures forall k: nat :: k >= i && Waits(cfg, base, states(k)) ==>
      Advanced(cfg, base, states(k + 1)) || (Waits(cfg, base, states(k + 1)) && turns(k) != Awaited(base))
  {
    forall k: nat | k >= i && Waits(cfg, base, states(k))
      ensures Advanced(cfg, base, states(k + 1)) || (Waits(cfg, base, states(k + 1)) && turns(k) != Awaited(base))
    {
      assert LateAt(cfg, states, turns, k);
      LateStepCloser(cfg, turns(k), states(k), states(k + 1));
    }
  }

  lemma AdvancesWithin(cfg: Config, base: State, states: nat -> State, turns: nat -> Actor, i: nat, n: nat)
      returns (j: nat)
    requires LateFrom(cfg, states, turns, i) && !base.s.Gone?
    requires Waits(cfg, base, states(i)) && turns(i + n) == Awaited(base)
    ensures i < j && Advanced(cfg, base, states(j))
  {
    var level, better := (k: nat) => Waits(cfg, base, states(k)), (k: nat) => Advanced(cfg, base, states(k));
    var helps := (k: nat) => turns(k) == Awaited(base);
    WaitKept(cfg, base, states, turns, i);
    j := LeavesLevel(level, better, helps, i, n);
  }

  lemma {:induction false} ReachesEnd(cfg: Config, states: nat -> State, turns: nat -> Actor, i: nat) returns (j: nat)
    requires LateFrom(cfg, states, turns, i)
    requires IsFair(turns)
    requires Inv(cfg, states(i))
    ensures i <= j && states(j).s.Gone?
    decreases StatementsLeft(cfg, states(i).s), WorkLeft(states(i)), Polls(states(i))
  {
    if states(i).s.Gone? {
      j := i;
    } else {
      assert HasTurn(turns, Awaited(states(i)), i);
      var t :| t >= i && turns(t) == Awaited(states(i));
      j := AdvancesWithin(cfg, states(i), states, turns, i, t - i);
      j := ReachesEnd(cfg, states, turns, j);
    }
  }

  /** With fair scheduling, a phase whose checks find a failure or the deadline passed from some step on
      ends: `Run` is left, the completion thread joined, the context destroyed, the object gone. */
  lemma PhaseEnds(cfg: Config, states: nat -> State, turns: nat -> Actor, n: nat)
    requires IsEndless(cfg, states, turns) && IsFair(turns) && LateFrom(cfg, states, turns, n)
    ensures exists j :: j >= n && states(j).s.Gone?
  {
    EndlessOk(cfg, states, turns, n);
    var j := ReachesEnd(cfg, states, turns, n);
  }
}
