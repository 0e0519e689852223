/** The promises of the asynchronous phase, over every interleaving and every pattern of failures. */
module AioTheorems {
  import opened AioEngine
  import opened AioSafety

  /** How often the completion thread has marked request `id` done in the first `i` steps. */
  ghost function Marks(states: seq<State>, i: nat, id: nat): nat
    requires i < |states|
  {
    if i == 0 then 0
    else Marks(states, i - 1, id) + One(MarksNow(states[i - 1], states[i], id))
  }

  ghost predicate MarksNow(before: State, after: State, id: nat) {
    before.c.Mark? && before.c.j < |before.c.batch| && before.c.batch[before.c.j].data == id && after.c.Count?
  }

  /** A request is never marked done twice. */
  lemma {:induction false} MarkedOnce(cfg: Config, states: seq<State>, moves: seq<Move>, i: nat, id: nat)
    requires IsRun(cfg, states, moves) && i < |states|
    ensures Marks(states, i, id) == One(id in states[i].m.done)
  {
    if i == 0 {
    } else {
      MarkedOnce(cfg, states, moves, i - 1, id);
      RunOk(cfg, states, moves, i - 1);
      MarkStep(cfg, states[i - 1], moves[i - 1], id);
    }
  }

  lemma MarkStep(cfg: Config, st: State, m: Move, id: nat)
    requires Inv(cfg, st) && Enabled(st, m)
    ensures var st' := Step(cfg, st, m);
            One(id in st'.m.done) == One(id in st.m.done) + One(MarksNow(st, st', id))
  {
    if st.c.Mark? {
      CurrentIsFresh(cfg, st);
    }
  }

  /** PHASE PASS: every request id has completed exactly once, with all its bytes and without error,
      and the kernel holds no trace of the phase. */
  lemma PassMeansExactlyOnce(cfg: Config, states: seq<State>, moves: seq<Move>, i: nat, id: nat)
    requires IsRun(cfg, states, moves) && i < |states| && states[i].s.Closing?
    ensures states[i].m.completed == states[i].m.submitted == cfg.count
    ensures states[i].k.inflight == {} && states[i].k.ring == []
    ensures id < cfg.count <==> Marks(states, i, id) == 1
    ensures id >= cfg.count <==> Marks(states, i, id) == 0
    ensures id < cfg.count ==>
              && id in states[i].m.results
              && states[i].m.results[id].data == id
              && states[i].m.results[id].res == cfg.slotBytes && states[i].m.results[id].res2 == 0
  {
    RunOk(cfg, states, moves, i);
    SucceededIsIdle(cfg, states[i]);
    MarkedOnce(cfg, states, moves, i, id);
    if id < cfg.count {
      assert id in states[i].m.done;
    }
  }

  /** In every state, requests accepted by the kernel and not counted yet stay within the window, and
      the subtraction in the window test is exact. */
  lemma WindowHolds(cfg: Config, states: seq<State>, moves: seq<Move>, i: nat)
    requires IsRun(cfg, states, moves) && i < |states|
    ensures states[i].m.completed <= states[i].k.accepted <= states[i].m.completed + cfg.depth
    ensures |states[i].k.inflight| <= cfg.depth
    ensures states[i].s.WindowTest? ==>
              && states[i].m.completed <= states[i].m.submitted
              && Sub64(states[i].m.submitted, states[i].m.completed) == states[i].m.submitted - states[i].m.completed
  {
    RunOk(cfg, states, moves, i);
    var st := states[i];
    if st.s.WindowTest? {
      WindowTestExact(cfg, st);
    }
    InflightFits(st.k, Rest(st.c), st.m.done);
  }

  /** In-flight and done requests are different accepted requests. */
  lemma InflightFits(k: Kernel, rest: seq<Event>, done: set<nat>)
    requires Conserved(k, rest, done)
    ensures |k.inflight| + |done| <= k.accepted
  {
    DoneBelowAccepted(k, rest, done);
    forall id: nat | id in k.inflight ensures id !in done {
      assert One(id in k.inflight) + Occ(k.ring, id) + Occ(rest, id) + One(id in done) == One(id < k.accepted);
    }
    assert k.inflight !! done;
    assert |k.inflight + done| == |k.inflight| + |done|;
    SubsetSize(k.inflight + done, UpTo(k.accepted));
  }

  /** A thread parked in epoll_wait with an event in the ring has been woken, or is about to be. */
  lemma NoLostWakeup(cfg: Config, states: seq<State>, moves: seq<Move>, i: nat)
    requires IsRun(cfg, states, moves) && i < |states|
    ensures (states[i].c.Epoll? || states[i].c.Top?) && states[i].k.ring != [] ==>
              states[i].k.efd > 0 || states[i].k.pending > 0
  {
    RunOk(cfg, states, moves, i);
  }

  /** The kernel's own events are never rejected by the completion thread's validation. */
  lemma EventsAccepted(cfg: Config, states: seq<State>, moves: seq<Move>, i: nat)
    requires IsRun(cfg, states, moves) && i < |states|
    ensures states[i].c.Judge? && states[i].c.j < |states[i].c.batch| ==>
              Valid(cfg, states[i].m, states[i].c.batch[states[i].c.j])
  {
    RunOk(cfg, states, moves, i);
    if states[i].c.Judge? && states[i].c.j < |states[i].c.batch| {
      CurrentIsFresh(cfg, states[i]);
    }
  }

  /** Request descriptors are closed, and `Run`'s object is gone, only when the kernel has nothing left
      in flight and the completion thread has ended; in the destructor io_destroy comes first. */
  lemma TeardownOrder(cfg: Config, states: seq<State>, moves: seq<Move>, i: nat)
    requires IsRun(cfg, states, moves) && i < |states|
    requires states[i].s.Closing? || states[i].s.Dispose? || states[i].s.Gone?
    ensures states[i].k.inflight == {}
    ensures states[i].c.Exited? || states[i].c.NotStarted?
    ensures states[i].s.Closing? ==> states[i].f.destroys == 0
    ensures states[i].s.Dispose? || states[i].s.Gone? ==> states[i].f.destroys == One(states[i].k.ctx)
  {
    RunOk(cfg, states, moves, i);
    if states[i].s.Closing? {
      SucceededIsIdle(cfg, states[i]);
    }
  }

  /** A close attempt changes `closes` only in the two closing loops, when nothing is in flight. */
  lemma ClosesAreSafe(cfg: Config, states: seq<State>, moves: seq<Move>, i: nat)
    requires IsRun(cfg, states, moves) && i < |moves|
    ensures states[i + 1].f.closes != states[i].f.closes ==>
              states[i].k.inflight == {} && (states[i].s.Closing? || states[i].s.Dispose?)
  {
    if states[i].s.Closing? || states[i].s.Dispose? {
      TeardownOrder(cfg, states, moves, i);
    }
  }

  /** When the phase object is gone, every descriptor that was opened has had exactly one close attempt,
      also when a close on the success path threw, and the context exactly one destroy attempt. */
  lemma EachClosedOnce(cfg: Config, states: seq<State>, moves: seq<Move>, i: nat, id: nat)
    requires IsRun(cfg, states, moves) && i < |states| && states[i].s.Gone? && id < cfg.count
    ensures |states[i].f.closes| == |states[i].f.open| == cfg.count
    ensures !states[i].f.open[id] && states[i].f.closes[id] == One(id < states[i].f.opens)
    ensures states[i].f.destroys == One(states[i].k.ctx) && states[i].k.inflight == {}
  {
    RunOk(cfg, states, moves, i);
  }

  /** The completion thread never ends in silence: it has been told to stop, or `failed_` is set and the
      submitting thread will see it. No event it has collected is left unprocessed. */
  lemma NoSilentEnd(cfg: Config, states: seq<State>, moves: seq<Move>, i: nat)
    requires IsRun(cfg, states, moves) && i < |states| && states[i].c.Exited?
    ensures !states[i].m.stop ==> states[i].m.failed
    ensures states[i].c.lost == []
  {
    RunOk(cfg, states, moves, i);
  }

  /** A failing call of the submitting thread, a check after the deadline, or a failing call of the
      completion thread before the last check. */
  predicate Fatal(cfg: Config, st: State, m: Move) {
    match m
    case Submitter(Fault) => st.s.Setup? || st.s.Opening? || st.s.Submit? || (st.s.Closing? && st.s.i < cfg.count)
    case Submitter(Timeout) => (st.s.LoopTop? && st.m.submitted < cfg.count) || st.s.WaitCheck? || st.s.FinalCheck?
    case Completer(Fault) => (st.c.Epoll? || st.c.ReadFd? || st.c.GetEvents?) && !Succeeded(st.s)
    case _ => false
  }

  /** Past saving: the exception is under way, or `failed_` is set and the last check still to come. */
  predicate Doomed(st: State) {
    st.s.Unwind? || Ending(st.s) || (st.m.failed && !Succeeded(st.s))
  }

  /** After a fatal step the phase never passes. */
  lemma FailureIsFinal(cfg: Config, states: seq<State>, moves: seq<Move>, i: nat, j: nat)
    requires IsRun(cfg, states, moves) && i < j < |states| && Fatal(cfg, states[i], moves[i])
    ensures !Succeeded(states[j].s)
  {
    FatalDooms(cfg, states[i], moves[i]);
    DoomedForGood(cfg, states, moves, i + 1, j);
  }

  lemma FatalDooms(cfg: Config, st: State, m: Move)
    requires Shape(cfg, st) && Enabled(st, m) && Fatal(cfg, st, m)
    ensures Doomed(Step(cfg, st, m))
  {
  }

  lemma {:induction false} DoomedForGood(cfg: Config, states: seq<State>, moves: seq<Move>, i: nat, j: nat)
    requires IsRun(cfg, states, moves) && i <= j < |states| && Doomed(states[i])
    ensures Doomed(states[j])
  {
    if i < j {
      DoomedForGood(cfg, states, moves, i, j - 1);
      DoomedStep(cfg, states[j - 1], moves[j - 1]);
    }
  }

  lemma DoomedStep(cfg: Config, st: State, m: Move)
    requires Shape(cfg, st) && Enabled(st, m) && Doomed(st)
    ensures Doomed(Step(cfg, st, m))
  {
  }
}
