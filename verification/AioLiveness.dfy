/** Progress of the asynchronous phase. With no failure and no timeout, with each of the three actors
    scheduled again and again, and with calls interrupted or told to try again only finitely often, the
    submit and wait loops end and the phase passes, although both threads poll. */
module AioLiveness {
  import opened AioEngine
  import opened AioSafety

  datatype Actor = TheSubmitter | TheCompleter | TheKernel

  /** One failure-free step of an actor; an actor with nothing to do leaves the state as it is. */
  ghost predicate Next(cfg: Config, a: Actor, st: State, st': State)
    requires Shape(cfg, st)
  {
    match a
    case TheSubmitter => st' == if SubmitterEnabled(st) then SubmitterStep(cfg, st, Go) else st
    case TheCompleter => st' == if CompleterEnabled(st) then CompleterStep(cfg, st, Go) else st
    case TheKernel =>
      || (st.k.inflight == {} && st.k.pending == 0 && st' == st)
      || (st.k.pending > 0 && st' == Step(cfg, st, Signal))
      || exists id :: id in st.k.inflight && st' == Step(cfg, st, Complete(id, cfg.slotBytes, 0))
  }

  /** A call that has to be repeated: io_submit with EAGAIN, EINTR or 0, epoll_wait at its own time limit,
      epoll_wait or the eventfd read interrupted or too early, io_getevents interrupted. */
  ghost predicate Retry(cfg: Config, a: Actor, st: State, st': State)
    requires Shape(cfg, st)
  {
    match a
    case TheSubmitter => st.s.Submit? && st' == SubmitterStep(cfg, st, Again)
    case TheCompleter =>
      || ((st.c.Epoll? || st.c.ReadFd? || st.c.GetEvents?) && st' == CompleterStep(cfg, st, Again))
      || (st.c.Epoll? && st' == CompleterStep(cfg, st, Timeout))
    case TheKernel => false
  }

  /** The descriptors are open, the completion thread has just been started, nothing is submitted. */
  ghost predicate AtLoopStart(cfg: Config, st: State) {
    && Shape(cfg, st)
    && st.s == LoopTop && st.c == Top
    && st.m == Shared(0, 0, false, false, {}, map[])
    && st.k == Kernel(true, 0, {}, [], 0, 0)
    && st.f.opens == cfg.count && st.f.destroys == 0
    && forall i :: 0 <= i < cfg.count ==> st.f.open[i] && st.f.closes[i] == 0
  }

  lemma StartOfLoop(cfg: Config, st: State)
    requires AtLoopStart(cfg, st)
    ensures SmoothInv(cfg, st)
  {
  }

  /** An endless failure-free run from the start of the submit loop. */
  ghost predicate IsSmooth(cfg: Config, states: nat -> State, turns: nat -> Actor) {
    && AtLoopStart(cfg, states(0))
    && forall i: nat :: StepAt(cfg, states, turns, i)
  }

  ghost predicate StepAt(cfg: Config, states: nat -> State, turns: nat -> Actor, i: nat) {
    Shape(cfg, states(i)) &&
    (Next(cfg, turns(i), states(i), states(i + 1)) || Retry(cfg, turns(i), states(i), states(i + 1)))
  }

  /** A step that is no repetition. */
  ghost predicate CleanAt(cfg: Config, states: nat -> State, turns: nat -> Actor, i: nat) {
    Shape(cfg, states(i)) && Next(cfg, turns(i), states(i), states(i + 1))
  }

  /** From step `n` on no call has to be repeated any more. */
  ghost predicate CleanFrom(cfg: Config, states: nat -> State, turns: nat -> Actor, n: nat) {
    forall i: nat :: i >= n ==> CleanAt(cfg, states, turns, i)
  }

  /** Every actor gets a turn again and again. */
  ghost predicate IsFair(turns: nat -> Actor) {
    forall a: Actor, i: nat :: HasTurn(turns, a, i)
  }

  ghost predicate HasTurn(turns: nat -> Actor, a: Actor, i: nat) {
    exists j :: j >= i && turns(j) == a
  }

  /** In the loops, or about to finish. */
  predicate Underway(s: SPc) {
    Looping(s) || Waiting(s) || s.Stopping? || s.Joining?
  }

  ghost predicate SmoothInv(cfg: Config, st: State) {
    && Inv(cfg, st)
    && !st.m.failed
    && Underway(st.s)
    && (forall k :: 0 <= k < |st.k.ring| ==> Good(cfg, st.k.ring[k]))
    && (forall k :: 0 <= k < |Rest(st.c)| ==> Good(cfg, Rest(st.c)[k]))
    && (st.m.stop <==> st.s.Joining?)
    && (st.c.Exited? ==> st.m.stop)
  }

  lemma SmoothStepOk(cfg: Config, a: Actor, st: State, st': State)
    requires SmoothInv(cfg, st) && Next(cfg, a, st, st')
    ensures SmoothInv(cfg, st') || st'.s.Closing?
  {
    match a
    case TheSubmitter =>
      if SubmitterEnabled(st) {
        SubmitterStepOk(cfg, st, Go);
      }
    case TheCompleter =>
      if CompleterEnabled(st) {
        CompleterStepOk(cfg, st, Go);
        CompleterGood(cfg, st);
      }
    case TheKernel =>
      if st' != st {
        KernelGood(cfg, st, st');
      }
  }

  lemma CompleterGood(cfg: Config, st: State)
    requires SmoothInv(cfg, st) && CompleterEnabled(st)
    ensures var st' := CompleterStep(cfg, st, Go);
            && !st'.m.failed
            && (forall k :: 0 <= k < |st'.k.ring| ==> Good(cfg, st'.k.ring[k]))
            && (forall k :: 0 <= k < |Rest(st'.c)| ==> Good(cfg, Rest(st'.c)[k]))
            && (st'.c.Exited? ==> st.m.stop)
  {
    var st' := CompleterStep(cfg, st, Go);
    if st.c.Judge? && st.c.j < |st.c.batch| {
      CurrentIsFresh(cfg, st);
      assert st.c.batch[st.c.j] == Rest(st.c)[0];
      assert Rest(st'.c) == Rest(st.c);
    } else if st.c.Mark? {
      forall k | 0 <= k < |Rest(st'.c)| ensures Good(cfg, Rest(st'.c)[k]) {
        assert Rest(st'.c)[k] == Rest(st.c)[k + 1];
      }
    } else if st.c.Count? {
      assert Rest(st'.c) == Rest(st.c);
    }
  }

  lemma KernelGood(cfg: Config, st: State, st': State)
    requires SmoothInv(cfg, st) && Next(cfg, TheKernel, st, st') && st' != st
    ensures SmoothInv(cfg, st')
  {
    if st.k.pending > 0 && st' == Step(cfg, st, Signal) {
      KernelStepOk(cfg, st, Signal);
    } else {
      var id :| id in st.k.inflight && st' == Step(cfg, st, Complete(id, cfg.slotBytes, 0));
      CompleteGood(cfg, st, id);
    }
  }

  lemma CompleteGood(cfg: Config, st: State, id: nat)
    requires SmoothInv(cfg, st) && id in st.k.inflight
    ensures SmoothInv(cfg, Step(cfg, st, Complete(id, cfg.slotBytes, 0)))
  {
    KernelStepOk(cfg, st, Complete(id, cfg.slotBytes, 0));
  }

  /* ---- the ranking ---- */

  /** Work left in the completion thread; parked positions weigh the same. */
  function CompleterWeight(c: CPc): nat {
    match c
    case NotStarted => 2
    case Top | Epoll | ReadFd => 1
    case GetEvents => 3
    case Judge(batch, j) => Looking(batch) + 4 * Left(batch, j)
    case Mark(batch, j) => Looking(batch) + 4 * Left(batch, j) - 1
    case Count(batch, j) => Looking(batch) + 4 * Left(batch, j) - 2
    case Exited(_) => 0
  }

  function Looking(batch: seq<Event>): nat { if |batch| < BATCH then 2 else 4 }

  function Left(batch: seq<Event>, j: nat): nat { if j < |batch| then |batch| - j else 0 }

  function SubmitterWeight(s: SPc): nat {
    match s
    case LoopTop | WindowTest | Submit => 5
    case Accepted => 6
    case WaitTop | WaitCheck => 4
    case FinalCheck => 3
    case Stopping => 2
    case Joining => 1
    case _ => 0
  }

  predicate Parked(c: CPc) { c.Top? || c.Epoll? || c.ReadFd? }

  /** Work left for the kernel and the completion thread; goes down except when the latter polls. */
  function WorkLeft(st: State): nat {
    10 * |st.k.inflight| + 5 * |st.k.ring| + 4 * st.k.pending + 3 * st.k.efd + CompleterWeight(st.c)
  }

  function Minus(a: nat, b: nat): nat { if a < b then 0 else a - b }

  /** Decreases with every step that is not polling. */
  function Weight(cfg: Config, st: State): nat {
    12 * Minus(cfg.count, st.k.accepted) + WorkLeft(st) + SubmitterWeight(st.s)
  }

  /** The actor whose turn brings the phase forward. */
  function Helpful(st: State): Actor {
    if st.k.inflight != {} || st.k.pending > 0 then TheKernel
    else if !st.c.Exited? && (!Parked(st.c) || st.k.efd > 0 || st.m.stop) then TheCompleter
    else TheSubmitter
  }

  /** Turns of the helpful actor before the weight goes down. */
  function Delay(st: State): nat {
    match Helpful(st)
    case TheKernel => 0
    case TheCompleter => if st.c.Top? && !st.m.stop then 2 else if st.c.Epoll? then 1 else 0
    case TheSubmitter => if st.s.LoopTop? then 2 else if st.s.WindowTest? || st.s.WaitCheck? then 1 else 0
  }

  /** Nearer to the end: less weight, or the same weight and fewer turns to wait. */
  predicate Nearer(cfg: Config, st: State, st': State) {
    || Weight(cfg, st') < Weight(cfg, st)
    || (Weight(cfg, st') == Weight(cfg, st) && Helpful(st') == Helpful(st) && Delay(st') < Delay(st))
  }

  predicate Unmoved(cfg: Config, st: State, st': State) {
    Weight(cfg, st') == Weight(cfg, st) && Helpful(st') == Helpful(st) && Delay(st') == Delay(st)
  }

  /** With the kernel and the completion thread idle, everything accepted has been counted. */
  lemma IdleMeansCounted(cfg: Config, st: State)
    requires SmoothInv(cfg, st) && Helpful(st) == TheSubmitter
    ensures st.m.completed == st.k.accepted
  {
    if st.c.Exited? {
      SucceededIsIdle(cfg, st);
    } else {
      assert st.k.ring == [] && Rest(st.c) == [];
      forall id: nat | id < st.k.accepted ensures id in st.m.done {
        assert One(id in st.k.inflight) + Occ(st.k.ring, id) + Occ(Rest(st.c), id) + One(id in st.m.done)
            == One(id < st.k.accepted);
      }
      DoneBelowAccepted(st.k, Rest(st.c), st.m.done);
      assert st.m.done == UpTo(st.k.accepted);
    }
  }

  lemma SubmitterRank(cfg: Config, st: State)
    requires SmoothInv(cfg, st) && SubmitterEnabled(st)
    ensures var st' := SubmitterStep(cfg, st, Go);
            st'.s.Closing? || Nearer(cfg, st, st') || (Helpful(st) != TheSubmitter && Unmoved(cfg, st, st'))
  {
    var st' := SubmitterStep(cfg, st, Go);
    if Helpful(st) == TheSubmitter {
      IdleMeansCounted(cfg, st);
    }
    if st.s.Submit? {
      DoneBelowAccepted(st.k, Rest(st.c), st.m.done);
      assert st'.k.inflight == st.k.inflight + {st.m.submitted};
      assert st.m.submitted !in st.k.inflight;
      assert |st'.k.inflight| == |st.k.inflight| + 1;
    }
  }

  /** A batch costs as much as the ring gave up for it, less what fetching it cost. */
  lemma FetchCloser(k: Kernel, c: CPc)
    requires c.GetEvents?
    ensures 5 * |k.ring[Batch(k)..]| + CompleterWeight(Judge(k.ring[..Batch(k)], 0))
          < 5 * |k.ring| + CompleterWeight(c)
  {
    var n := Batch(k);
    assert |k.ring[n..]| == |k.ring| - n;
    assert CompleterWeight(Judge(k.ring[..n], 0)) == Looking(k.ring[..n]) + 4 * n;
  }

  /** Away from its three polling statements the completion thread always works something off. */
  lemma WorkCloser(cfg: Config, st: State, choice: Choice)
    requires Shape(cfg, st) && CompleterEnabled(st) && !Parked(st.c) && (st.c.GetEvents? ==> choice != Again)
    ensures WorkLeft(CompleterStep(cfg, st, choice)) < WorkLeft(st)
  {
    match st.c
    case GetEvents =>
      FetchCloser(st.k, st.c);
    case Judge(batch, j) =>
      assert CompleterStep(cfg, st, choice).k == st.k;
    case Mark(batch, j) =>
      assert CompleterStep(cfg, st, choice).k == st.k;
    case Count(batch, j) =>
      assert CompleterStep(cfg, st, choice).k == st.k;
  }

  /** Collecting and working off a batch is always progress. */
  lemma BatchRank(cfg: Config, st: State)
    requires Shape(cfg, st) && CompleterEnabled(st) && !Parked(st.c)
    ensures Weight(cfg, CompleterStep(cfg, st, Go)) < Weight(cfg, st)
  {
    WorkCloser(cfg, st, Go);
  }

  lemma CompleterRank(cfg: Config, st: State)
    requires SmoothInv(cfg, st) && CompleterEnabled(st)
    ensures var st' := CompleterStep(cfg, st, Go);
            Nearer(cfg, st, st') || (Helpful(st) != TheCompleter && Unmoved(cfg, st, st'))
  {
    if !Parked(st.c) {
      BatchRank(cfg, st);
    }
  }

  lemma KernelRank(cfg: Config, st: State, st': State)
    requires SmoothInv(cfg, st) && Next(cfg, TheKernel, st, st')
    ensures Nearer(cfg, st, st') || (Helpful(st) != TheKernel && Unmoved(cfg, st, st'))
  {
    if st' != st && !(st.k.pending > 0 && st' == Step(cfg, st, Signal)) {
      var id :| id in st.k.inflight && st' == Step(cfg, st, Complete(id, cfg.slotBytes, 0));
      assert |st.k.inflight - {id}| == |st.k.inflight| - 1;
    }
  }

  /** Every step either ends the phase, or brings the end nearer, or is somebody else's idle turn. */
  lemma StepRank(cfg: Config, a: Actor, st: State, st': State)
    requires SmoothInv(cfg, st) && Next(cfg, a, st, st')
    ensures st'.s.Closing? ||
            (SmoothInv(cfg, st') && (Nearer(cfg, st, st') || (a != Helpful(st) && Unmoved(cfg, st, st'))))
  {
    SmoothStepOk(cfg, a, st, st');
    match a
    case TheSubmitter =>
      if SubmitterEnabled(st) {
        SubmitterRank(cfg, st);
      }
    case TheCompleter =>
      if CompleterEnabled(st) {
        CompleterRank(cfg, st);
      }
    case TheKernel => KernelRank(cfg, st, st');
  }

  /** A repeated call keeps the invariant and leaves as much work as before. */
  lemma RetryKeeps(cfg: Config, a: Actor, st: State, st': State)
    requires SmoothInv(cfg, st) && Retry(cfg, a, st, st')
    ensures SmoothInv(cfg, st') && Weight(cfg, st') == Weight(cfg, st)
  {
    hide Conserved, FilesOk, WindowOk, WakeupOk;
    if a.TheSubmitter? {
      SubmitterStepOk(cfg, st, Again);
    } else if st' == CompleterStep(cfg, st, Again) {
      CompleterStepOk(cfg, st, Again);
    } else {
      CompleterStepOk(cfg, st, Timeout);
    }
  }

  /** What holds at the start and is kept until something else happens. */
  lemma {:induction false} KeptUntil(sound: nat -> bool, over: nat -> bool, n: nat)
    requires sound(0) && forall k: nat :: sound(k) ==> sound(k + 1) || over(k + 1)
    ensures sound(n) || exists j :: over(j)
  {
    if n > 0 {
      KeptUntil(sound, over, n - 1);
    }
  }

  /** Up to any step the phase has passed or is still sound. */
  lemma SoundUntil(cfg: Config, states: nat -> State, turns: nat -> Actor, n: nat)
    requires IsSmooth(cfg, states, turns)
    ensures SmoothInv(cfg, states(n)) || exists j :: states(j).s.Closing?
  {
    var sound, over := (k: nat) => SmoothInv(cfg, states(k)), (k: nat) => states(k).s.Closing?;
    StartOfLoop(cfg, states(0));
    forall k: nat | sound(k)
      ensures sound(k + 1) || over(k + 1)
    {
      SoundNext(cfg, states, turns, k);
    }
    KeptUntil(sound, over, n);
    if !sound(n) {
      var j :| over(j);
      assert states(j).s.Closing?;
    }
  }

  lemma SoundNext(cfg: Config, states: nat -> State, turns: nat -> Actor, k: nat)
    requires StepAt(cfg, states, turns, k) && SmoothInv(cfg, states(k))
    ensures SmoothInv(cfg, states(k + 1)) || states(k + 1).s.Closing?
  {
    if Next(cfg, turns(k), states(k), states(k + 1)) {
      SmoothStepOk(cfg, turns(k), states(k), states(k + 1));
    } else {
      RetryKeeps(cfg, turns(k), states(k), states(k + 1));
    }
  }

  /** Over, or nearer to the end than `base`. */
  ghost predicate Improved(cfg: Config, base: State, st: State) {
    st.s.Closing? || (SmoothInv(cfg, st) && Nearer(cfg, base, st))
  }

  /** Sound, and as far from the end as `base`. */
  ghost predicate Level(cfg: Config, base: State, st: State) {
    SmoothInv(cfg, st) && Unmoved(cfg, base, st)
  }

  /** One clean step from a state on the level of `base`: nearer to the end than `base`, or still on its
      level, and then it was not the turn of the helpful actor. */
  lemma CleanStep(cfg: Config, base: State, states: nat -> State, turns: nat -> Actor, i: nat)
    requires CleanAt(cfg, states, turns, i) && Level(cfg, base, states(i))
    ensures Improved(cfg, base, states(i + 1)) || (Level(cfg, base, states(i + 1)) && turns(i) != Helpful(base))
  {
    StepRank(cfg, turns(i), states(i), states(i + 1));
  }

  /** A level that can be left only for the better is left by the next helpful turn. */
  lemma {:induction false} LeavesLevel(level: nat -> bool, better: nat -> bool, helps: nat -> bool, i: nat, n: nat)
      returns (j: nat)
    requires forall k: nat :: k >= i && level(k) ==> better(k + 1) || (level(k + 1) && !helps(k))
    requires level(i) && helps(i + n)
    ensures i < j && better(j)
    decreases n
  {
    if better(i + 1) {
      j := i + 1;
    } else {
      j := LeavesLevel(level, better, helps, i + 1, n - 1);
    }
  }

  lemma LevelKept(cfg: Config, base: State, states: nat -> State, turns: nat -> Actor, i: nat)
    requires CleanFrom(cfg, states, turns, i)
    ensures forall k: nat :: k >= i && Level(cfg, base, states(k)) ==>
      Improved(cfg, base, states(k + 1)) || (Level(cfg, base, states(k + 1)) && turns(k) != Helpful(base))
  {
    forall k: nat | k >= i && Level(cfg, base, states(k))
      ensures Improved(cfg, base, states(k + 1)) || (Level(cfg, base, states(k + 1)) && turns(k) != Helpful(base))
    {
      CleanStep(cfg, base, states, turns, k);
    }
  }

  /** By the next turn of the helpful actor, `n` steps ahead, the end has come nearer. */
  lemma ImprovesWithin(cfg: Config, base: State, states: nat -> State, turns: nat -> Actor, i: nat, n: nat)
      returns (j: nat)
    requires CleanFrom(cfg, states, turns, i)
    requires Level(cfg, base, states(i)) && turns(i + n) == Helpful(base)
    ensures i < j && Improved(cfg, base, states(j))
  {
    var level, better := (k: nat) => Level(cfg, base, states(k)), (k: nat) => Improved(cfg, base, states(k));
    var helps := (k: nat) => turns(k) == Helpful(base);
    LevelKept(cfg, base, states, turns, i);
    j := LeavesLevel(level, better, helps, i, n);
  }

  lemma {:induction false} ReachesPass(cfg: Config, states: nat -> State, turns: nat -> Actor, i: nat) returns (j: nat)
    requires CleanFrom(cfg, states, turns, i)
    requires IsFair(turns)
    requires SmoothInv(cfg, states(i))
    ensures states(j).s.Closing?
    decreases Weight(cfg, states(i)), Delay(states(i))
  {
    assert HasTurn(turns, Helpful(states(i)), i);
    var t :| t >= i && turns(t) == Helpful(states(i));
    j := ImprovesWithin(cfg, states(i), states, turns, i, t - i);
    if !states(j).s.Closing? {
      j := ReachesPass(cfg, states, turns, j);
    }
  }

  /** With fair scheduling, no failure and finitely many repeated calls, the phase passes. */
  lemma PhasePasses(cfg: Config, states: nat -> State, turns: nat -> Actor, n: nat)
    requires IsSmooth(cfg, states, turns) && IsFair(turns) && CleanFrom(cfg, states, turns, n)
    ensures exists j :: states(j).s.Closing?
  {
    SoundUntil(cfg, states, turns, n);
    if SmoothInv(cfg, states(n)) {
      var j := ReachesPass(cfg, states, turns, n);
      assert states(j).s.Closing?;
    }
  }
}
