/** What holds in every state of every run of the asynchronous phase. */
module AioSafety {
  import opened AioEngine

  /** How many of the events concern request `id`. */
  function Occ(events: seq<Event>, id: nat): nat {
    if events == [] then 0 else (if events[0].data == id then 1 else 0) + Occ(events[1..], id)
  }

  lemma {:induction false} OccConcat(a: seq<Event>, b: seq<Event>, id: nat)
    ensures Occ(a + b, id) == Occ(a, id) + Occ(b, id)
  {
    if a == [] {
      assert a + b == b;
    } else {
      assert (a + b)[1..] == a[1..] + b;
      OccConcat(a[1..], b, id);
    }
  }

  /** Events taken from the ring and not yet marked done. */
  function Rest(c: CPc): seq<Event> {
    match c
    case Judge(batch, j) => if j <= |batch| then batch[j..] else []
    case Mark(batch, j) => if j <= |batch| then batch[j..] else []
    case Count(batch, j) => if j + 1 <= |batch| then batch[j + 1..] else []
    case Exited(lost) => lost
    case _ => []
  }

  function One(b: bool): nat { if b then 1 else 0 }

  /** Every accepted request is in exactly one place: in flight, in the ring, in the batch, or done. */
  ghost predicate Conserved(k: Kernel, rest: seq<Event>, done: set<nat>) {
    forall id: nat ::
      One(id in k.inflight) + Occ(k.ring, id) + Occ(rest, id) + One(id in done) == One(id < k.accepted)
  }

  ghost predicate EventsGenuine(events: seq<Event>) {
    forall k :: 0 <= k < |events| ==> events[k].obj == events[k].data
  }

  /** Every done request has its result, which is good unless `failed_` is set; the request between
      `Judge` and `Mark` is covered as well. */
  ghost predicate ResultsOk(cfg: Config, c: CPc, m: Shared) {
    && (forall id :: id in m.done ==> id in m.results && m.results[id].data == id)
    && (!m.failed ==> forall id :: id in m.done ==> Good(cfg, m.results[id]))
    && (!m.failed && c.Mark? ==> c.j < |c.batch| && Good(cfg, c.batch[c.j]))
  }

  predicate Looping(s: SPc) { s.LoopTop? || s.WindowTest? || s.Submit? || s.Accepted? }

  predicate Waiting(s: SPc) { s.WaitTop? || s.WaitCheck? || s.FinalCheck? }

  /** From here on the phase is known to have succeeded. */
  predicate Succeeded(s: SPc) { s.Stopping? || s.Joining? || s.Closing? }

  predicate Preparing(s: SPc) { s.Setup? || s.Opening? }

  ghost predicate AllGood(cfg: Config, m: Shared) {
    forall id: nat :: id < cfg.count ==> id in m.done && id in m.results && Good(cfg, m.results[id])
  }

  /** Where the submitting thread is, in terms of the counters. */
  ghost predicate ControlOk(cfg: Config, s: SPc, m: Shared, k: Kernel) {
    && k.accepted == m.submitted + One(s.Accepted?)
    && k.accepted <= cfg.count
    && (s.WindowTest? || s.Submit? ==> m.submitted < cfg.count)
    && (Waiting(s) || Succeeded(s) ==> m.submitted == cfg.count)
    && (s.FinalCheck? || Succeeded(s) ==> m.completed >= cfg.count)
    && (Succeeded(s) ==> AllGood(cfg, m))
  }

  /** When the thread and the context exist. */
  ghost predicate LifeOk(s: SPc, c: CPc, k: Kernel) {
    && (Preparing(s) ==> c.NotStarted?)
    && (c.NotStarted? ==> k.accepted == 0)
    && (Looping(s) || Waiting(s) || Succeeded(s) ==> !c.NotStarted?)
    && (k.ctx || c.NotStarted?)
    && (s.Opening? ==> k.ctx)
    && (s.Setup? && s.stage > 0 ==> k.ctx)
    && (s.Closing? || s.Destroy? || s.Dispose? || s.Gone? ==> c.Exited? || c.NotStarted?)
  }

  /** The completion thread ends only after a failure or when told to stop, and drops no event it has
      collected; the submitting thread joins it only after telling it to stop. */
  ghost predicate EndOk(s: SPc, c: CPc, m: Shared) {
    && (c.Exited? ==> c.lost == [] && (m.failed || m.stop))
    && (s.Joining? || s.Closing? || Ending(s) ==> m.stop)
  }

  /** In the destructor, past the store to `stop_`. */
  predicate Ending(s: SPc) { s.UnwindJoin? || s.Destroy? || s.Dispose? || s.Gone? }

  /** The window: accepted requests that are not counted yet. */
  ghost predicate WindowOk(cfg: Config, s: SPc, c: CPc, m: Shared, k: Kernel) {
    && m.completed + One(c.Count?) == |m.done|
    && |m.done| <= k.accepted
    && k.accepted <= m.completed + cfg.depth
    && (s.Submit? ==> m.submitted < m.completed + cfg.depth)
  }

  /** The thread will look at the ring again without being woken up. */
  predicate WillLook(c: CPc) {
    || c.GetEvents?
    || ((c.Judge? || c.Mark? || c.Count?) && |c.batch| >= BATCH)
  }

  /** An event in the ring that the thread is not about to collect is announced, or about to be. */
  ghost predicate WakeupOk(c: CPc, k: Kernel) {
    && (k.ring != [] && !WillLook(c) && !c.Exited? ==> k.efd + k.pending > 0)
    && (c.ReadFd? ==> k.efd > 0)
  }

  /** Descriptors: each one opened is either still open or has had its one close attempt. */
  ghost predicate FilesOk(cfg: Config, s: SPc, f: Files, k: Kernel)
    requires |f.open| == |f.closes| == cfg.count
  {
    && f.opens <= cfg.count
    && (forall i :: 0 <= i < cfg.count ==> f.closes[i] + One(f.open[i]) == One(i < f.opens))
    && (s.Setup? ==> f.opens == 0)
    && (s.Opening? ==> f.opens == s.i && forall i :: 0 <= i < f.opens ==> f.open[i])
    && (Looping(s) || Waiting(s) || s.Stopping? || s.Joining? ==>
          f.opens == cfg.count && forall i :: 0 <= i < cfg.count ==> f.open[i])
    && (s.Closing? ==> f.opens == cfg.count && forall i :: s.i <= i < cfg.count ==> f.open[i])
    && (s.Dispose? ==> forall i :: 0 <= i < s.i && i < cfg.count ==> !f.open[i])
    && (s.Gone? ==> forall i :: 0 <= i < cfg.count ==> !f.open[i])
    && (s.Dispose? || s.Gone? ==> k.inflight == {})
    && f.destroys == One((s.Dispose? || s.Gone?) && k.ctx)
  }

  ghost predicate Inv(cfg: Config, st: State) {
    && Shape(cfg, st)
    && Conserved(st.k, Rest(st.c), st.m.done)
    && EventsGenuine(st.k.ring) && EventsGenuine(Rest(st.c))
    && ResultsOk(cfg, st.c, st.m)
    && ControlOk(cfg, st.s, st.m, st.k)
    && LifeOk(st.s, st.c, st.k)
    && WindowOk(cfg, st.s, st.c, st.m, st.k)
    && WakeupOk(st.c, st.k)
    && FilesOk(cfg, st.s, st.f, st.k)
    && EndOk(st.s, st.c, st.m)
  }

  /* ---- consequences ---- */

  function UpTo(n: nat): (r: set<nat>)
    ensures forall id: nat :: id in r <==> id < n
    ensures |r| == n
  {
    if n == 0 then {} else UpTo(n - 1) + {n - 1}
  }

  lemma DoneBelowAccepted(k: Kernel, rest: seq<Event>, done: set<nat>)
    requires Conserved(k, rest, done)
    ensures done <= UpTo(k.accepted) && k.inflight <= UpTo(k.accepted)
    ensures |done| <= k.accepted
  {
    forall id: nat | id in done || id in k.inflight ensures id in UpTo(k.accepted) {
      assert Occ(k.ring, id) >= 0;
    }
    SubsetSize(done, UpTo(k.accepted));
  }

  lemma {:induction false} SubsetSize(a: set<nat>, b: set<nat>)
    requires a <= b
    ensures |a| <= |b|
    ensures |a| == |b| ==> a == b
    decreases |b|
  {
    if a != {} {
      var x :| x in a;
      SubsetSize(a - {x}, b - {x});
      assert a == (a - {x}) + {x} && b == (b - {x}) + {x};
    }
  }

  /** All requests counted means all of them done, and none anywhere else. */
  lemma AllDone(k: Kernel, rest: seq<Event>, done: set<nat>)
    requires Conserved(k, rest, done) && |done| >= k.accepted
    ensures done == UpTo(k.accepted) && k.inflight == {} && k.ring == [] && rest == []
  {
    DoneBelowAccepted(k, rest, done);
    SubsetSize(done, UpTo(k.accepted));
    forall id: nat ensures id !in k.inflight && Occ(k.ring, id) == 0 && Occ(rest, id) == 0 {
      assert One(id in done) == One(id < k.accepted);
    }
    OccFirst(k.ring);
    OccFirst(rest);
  }

  lemma OccFirst(events: seq<Event>)
    ensures events != [] ==> Occ(events, events[0].data) >= 1
  {
  }

  /* ---- every step keeps the invariant ---- */

  lemma StartOk(cfg: Config)
    requires cfg.Valid()
    ensures Inv(cfg, Start(cfg))
  {
  }

  /** The event the completion thread is looking at belongs to an accepted request not yet done. */
  lemma CurrentIsFresh(cfg: Config, st: State)
    requires Inv(cfg, st) && (st.c.Judge? || st.c.Mark?) && st.c.j < |st.c.batch|
    ensures var e := st.c.batch[st.c.j];
            e.data < st.k.accepted <= cfg.count && e.data !in st.m.done && e.obj == e.data
  {
    var rest := Rest(st.c);
    var e := st.c.batch[st.c.j];
    assert rest[0] == e;
    OccFirst(rest);
    assert One(e.data in st.k.inflight) + Occ(st.k.ring, e.data) + Occ(rest, e.data) + One(e.data in st.m.done)
        == One(e.data < st.k.accepted);
  }

  lemma OccCons(e: Event, events: seq<Event>, id: nat)
    ensures Occ([e] + events, id) == One(id == e.data) + Occ(events, id)
  {
    assert ([e] + events)[1..] == events;
  }

  lemma OccAppend(events: seq<Event>, e: Event, id: nat)
    ensures Occ(events + [e], id) == Occ(events, id) + One(id == e.data)
  {
    OccConcat(events, [e], id);
    OccCons(e, [], id);
    assert [e] + [] == [e];
  }

  /** A request leaves the in-flight set for the ring. */
  lemma CompleteConserves(k: Kernel, rest: seq<Event>, done: set<nat>, e: Event)
    requires Conserved(k, rest, done) && e.data in k.inflight && EventsGenuine(k.ring) && e.obj == e.data
    ensures Conserved(k.(inflight := k.inflight - {e.data}, ring := k.ring + [e], pending := k.pending + 1), rest, done)
    ensures EventsGenuine(k.ring + [e])
  {
    var k' := k.(inflight := k.inflight - {e.data}, ring := k.ring + [e], pending := k.pending + 1);
    forall id: nat ensures One(id in k'.inflight) + Occ(k'.ring, id) + Occ(rest, id) + One(id in done)
      == One(id < k'.accepted)
    {
      assert One(id in k.inflight) + Occ(k.ring, id) + Occ(rest, id) + One(id in done) == One(id < k.accepted);
      OccAppend(k.ring, e, id);
    }
  }

  lemma KernelStepOk(cfg: Config, st: State, m: Move)
    requires Inv(cfg, st) && Enabled(st, m) && (m.Complete? || m.Signal?)
    ensures Inv(cfg, Step(cfg, st, m))
  {
    if m.Complete? {
      CompleteConserves(st.k, Rest(st.c), st.m.done, Event(m.id, m.id, m.res, m.res2));
    }
  }

  /** Some events leave the ring for the batch. */
  lemma CollectConserves(k: Kernel, done: set<nat>, n: nat)
    requires Conserved(k, [], done) && n <= |k.ring|
    ensures Conserved(k.(ring := k.ring[n..]), k.ring[..n], done)
  {
    var k' := k.(ring := k.ring[n..]);
    assert k.ring[..n] + k.ring[n..] == k.ring;
    forall id: nat
      ensures One(id in k'.inflight) + Occ(k'.ring, id) + Occ(k.ring[..n], id) + One(id in done)
        == One(id < k'.accepted)
    {
      assert One(id in k.inflight) + Occ(k.ring, id) + Occ([], id) + One(id in done) == One(id < k.accepted);
      OccConcat(k.ring[..n], k.ring[n..], id);
    }
  }

  /** The first event of the rest is marked done. */
  lemma MarkConserves(k: Kernel, e: Event, rest: seq<Event>, done: set<nat>)
    requires Conserved(k, [e] + rest, done) && e.data !in done
    ensures Conserved(k, rest, done + {e.data})
  {
    forall id: nat
      ensures One(id in k.inflight) + Occ(k.ring, id) + Occ(rest, id) + One(id in done + {e.data})
        == One(id < k.accepted)
    {
      assert One(id in k.inflight) + Occ(k.ring, id) + Occ([e] + rest, id) + One(id in done) == One(id < k.accepted);
      OccCons(e, rest, id);
    }
  }

  lemma GetEventsConserves(cfg: Config, st: State, choice: Choice)
    requires Inv(cfg, st) && st.c.GetEvents?
    ensures var st' := CompleterStep(cfg, st, choice);
            Conserved(st'.k, Rest(st'.c), st'.m.done) && EventsGenuine(st'.k.ring) && EventsGenuine(Rest(st'.c))
  {
    if choice == Go || choice == Timeout {
      CollectConserves(st.k, st.m.done, Batch(st.k));
      assert Rest(CompleterStep(cfg, st, choice).c) == st.k.ring[..Batch(st.k)];
    }
  }

  lemma MarkStepConserves(cfg: Config, st: State, choice: Choice)
    requires Inv(cfg, st) && st.c.Mark?
    ensures var st' := CompleterStep(cfg, st, choice);
            Conserved(st'.k, Rest(st'.c), st'.m.done) && EventsGenuine(st'.k.ring) && EventsGenuine(Rest(st'.c))
  {
    var batch, j := st.c.batch, st.c.j;
    CurrentIsFresh(cfg, st);
    var rest := batch[j + 1..];
    assert Rest(st.c) == [batch[j]] + rest;
    MarkConserves(st.k, batch[j], rest, st.m.done);
    forall i | 0 <= i < |rest| ensures rest[i].obj == rest[i].data {
      assert rest[i] == Rest(st.c)[i + 1];
    }
  }

  lemma CompleterConserves(cfg: Config, st: State, choice: Choice)
    requires Inv(cfg, st) && CompleterEnabled(st)
    ensures var st' := CompleterStep(cfg, st, choice);
            Conserved(st'.k, Rest(st'.c), st'.m.done) && EventsGenuine(st'.k.ring) && EventsGenuine(Rest(st'.c))
  {
    if st.c.GetEvents? {
      GetEventsConserves(cfg, st, choice);
    } else if st.c.Mark? {
      MarkStepConserves(cfg, st, choice);
    } else {
      assert Rest(CompleterStep(cfg, st, choice).c) == Rest(st.c);
    }
  }

  /** The counters and results when a request is marked done. */
  lemma MarkCounts(cfg: Config, st: State, choice: Choice)
    requires Inv(cfg, st) && st.c.Mark?
    ensures var st' := CompleterStep(cfg, st, choice);
            ResultsOk(cfg, st'.c, st'.m) && WindowOk(cfg, st'.s, st'.c, st'.m, st'.k)
  {
    var st' := CompleterStep(cfg, st, choice);
    CurrentIsFresh(cfg, st);
    MarkStepConserves(cfg, st, choice);
    DoneBelowAccepted(st'.k, Rest(st'.c), st'.m.done);
  }

  /** The results under a step of the completion thread that marks nothing. */
  lemma CompleterResults(cfg: Config, st: State, choice: Choice)
    requires Shape(cfg, st) && ResultsOk(cfg, st.c, st.m) && !st.c.Mark?
    ensures ResultsOk(cfg, CompleterNext(cfg, st, choice), CompleterShared(cfg, st, choice))
  {
  }

  /** The counters under such a step. */
  lemma CompleterWindow(cfg: Config, st: State, choice: Choice)
    requires Shape(cfg, st) && WindowOk(cfg, st.s, st.c, st.m, st.k) && !st.c.Mark?
    ensures WindowOk(cfg, st.s, CompleterNext(cfg, st, choice), CompleterShared(cfg, st, choice),
                     CompleterKernel(st, choice))
  {
  }

  /** The counters and results under a step of the completion thread. */
  lemma CompleterCounts(cfg: Config, st: State, choice: Choice)
    requires Inv(cfg, st) && CompleterEnabled(st)
    ensures var st' := CompleterStep(cfg, st, choice);
            ResultsOk(cfg, st'.c, st'.m) && WindowOk(cfg, st'.s, st'.c, st'.m, st'.k)
  {
    if st.c.Mark? {
      MarkCounts(cfg, st, choice);
    } else {
      CompleterResults(cfg, st, choice);
      CompleterWindow(cfg, st, choice);
    }
  }

  /** What the submitting thread knows survives a step of the completion thread. */
  lemma CompleterKeepsControl(cfg: Config, st: State, choice: Choice)
    requires Inv(cfg, st) && CompleterEnabled(st)
    ensures var st' := CompleterStep(cfg, st, choice); ControlOk(cfg, st'.s, st'.m, st'.k)
  {
    if st.c.Mark? {
      CurrentIsFresh(cfg, st);
    }
  }

  lemma CompleterControl(cfg: Config, st: State, choice: Choice)
    requires Inv(cfg, st) && CompleterEnabled(st)
    ensures var st' := CompleterStep(cfg, st, choice);
            && Shape(cfg, st') && LifeOk(st'.s, st'.c, st'.k) && WakeupOk(st'.c, st'.k)
            && FilesOk(cfg, st'.s, st'.f, st'.k)
  {
  }

  /** The completion thread meets no event it would reject, so it ends for one of the two reasons. */
  lemma CompleterEnd(cfg: Config, st: State, choice: Choice)
    requires Inv(cfg, st) && CompleterEnabled(st)
    ensures var st' := CompleterStep(cfg, st, choice); EndOk(st'.s, st'.c, st'.m)
  {
    if st.c.Judge? && st.c.j < |st.c.batch| {
      CurrentIsFresh(cfg, st);
    }
  }

  lemma CompleterStepOk(cfg: Config, st: State, choice: Choice)
    requires Inv(cfg, st) && CompleterEnabled(st)
    ensures Inv(cfg, CompleterStep(cfg, st, choice))
  {
    CompleterConserves(cfg, st, choice);
    CompleterCounts(cfg, st, choice);
    CompleterKeepsControl(cfg, st, choice);
    CompleterControl(cfg, st, choice);
    CompleterEnd(cfg, st, choice);
  }

  /** An accepted request enters the in-flight set and nothing else. */
  lemma SubmitConserves(k: Kernel, rest: seq<Event>, done: set<nat>)
    requires Conserved(k, rest, done)
    ensures Conserved(k.(inflight := k.inflight + {k.accepted}, accepted := k.accepted + 1), rest, done)
  {
    var k' := k.(inflight := k.inflight + {k.accepted}, accepted := k.accepted + 1);
    forall id: nat ensures One(id in k'.inflight) + Occ(k'.ring, id) + Occ(rest, id) + One(id in done)
      == One(id < k'.accepted)
    {
      assert One(id in k.inflight) + Occ(k.ring, id) + Occ(rest, id) + One(id in done) == One(id < k.accepted);
    }
  }

  /** The window test reads the true difference: the subtraction cannot wrap. */
  lemma WindowTestExact(cfg: Config, st: State)
    requires Inv(cfg, st) && st.s.WindowTest?
    ensures st.m.completed <= st.m.submitted
    ensures Sub64(st.m.submitted, st.m.completed) == st.m.submitted - st.m.completed
  {
  }

  /** Seeing `completed_ == count` and then `failed_` unset proves every request good. */
  lemma FinalCheckDecides(cfg: Config, st: State)
    requires Inv(cfg, st) && st.s.FinalCheck? && !st.m.failed
    ensures AllGood(cfg, st.m)
  {
    AllDone(st.k, Rest(st.c), st.m.done);
  }

  lemma SubmitterConserves(cfg: Config, st: State, choice: Choice)
    requires Inv(cfg, st) && SubmitterEnabled(st)
    ensures var st' := SubmitterStep(cfg, st, choice);
            Rest(st'.c) == Rest(st.c) && Conserved(st'.k, Rest(st'.c), st'.m.done)
  {
    if st.s.Submit? {
      SubmitConserves(st.k, Rest(st.c), st.m.done);
    }
  }

  lemma SubmitterControl(cfg: Config, st: State, choice: Choice)
    requires Shape(cfg, st) && SubmitterEnabled(st) && ControlOk(cfg, st.s, st.m, st.k)
    requires st.s.FinalCheck? && !st.m.failed ==> AllGood(cfg, st.m)
    ensures var st' := SubmitterStep(cfg, st, choice); ControlOk(cfg, st'.s, st'.m, st'.k)
  {
  }

  lemma SubmitterWindow(cfg: Config, st: State, choice: Choice)
    requires Shape(cfg, st) && SubmitterEnabled(st) && ControlOk(cfg, st.s, st.m, st.k)
    requires WindowOk(cfg, st.s, st.c, st.m, st.k) && LifeOk(st.s, st.c, st.k)
    requires st.s.WindowTest? ==> Sub64(st.m.submitted, st.m.completed) == st.m.submitted - st.m.completed
    ensures var st' := SubmitterStep(cfg, st, choice); WindowOk(cfg, st'.s, st'.c, st'.m, st'.k)
  {
  }

  lemma SubmitterLife(cfg: Config, st: State, choice: Choice)
    requires Shape(cfg, st) && SubmitterEnabled(st)
    requires LifeOk(st.s, st.c, st.k) && WakeupOk(st.c, st.k) && ResultsOk(cfg, st.c, st.m)
    requires st.c.NotStarted? ==> st.k.ring == []
    ensures var st' := SubmitterStep(cfg, st, choice);
            && Shape(cfg, st') && LifeOk(st'.s, st'.c, st'.k) && WakeupOk(st'.c, st'.k) && ResultsOk(cfg, st'.c, st'.m)
  {
  }

  lemma SubmitterEnd(cfg: Config, st: State, choice: Choice)
    requires Shape(cfg, st) && SubmitterEnabled(st) && EndOk(st.s, st.c, st.m)
    ensures var st' := SubmitterStep(cfg, st, choice); EndOk(st'.s, st'.c, st'.m)
  {
  }

  /** Once the phase has succeeded the kernel holds nothing of it any more. */
  lemma SucceededIsIdle(cfg: Config, st: State)
    requires Inv(cfg, st) && (Succeeded(st.s) || st.s.FinalCheck?)
    ensures st.k.accepted == cfg.count && st.k.inflight == {} && st.k.ring == [] && Rest(st.c) == []
    ensures st.m.done == UpTo(cfg.count) && st.m.completed == cfg.count
  {
    AllDone(st.k, Rest(st.c), st.m.done);
  }

  /** Before the thread exists nothing has been accepted, so the ring is empty. */
  lemma NothingAccepted(k: Kernel, rest: seq<Event>, done: set<nat>)
    requires Conserved(k, rest, done) && k.accepted == 0
    ensures k.ring == [] && k.inflight == {}
  {
    AllDone(k, rest, done);
  }

  /** One close attempt turns "open, not yet tried" into "closed, tried once". */
  lemma CloseOneOk(cfg: Config, f: Files, i: nat)
    requires |f.open| == |f.closes| == cfg.count && i < cfg.count && f.open[i]
    requires f.opens <= cfg.count
    requires forall j :: 0 <= j < cfg.count ==> f.closes[j] + One(f.open[j]) == One(j < f.opens)
    ensures var f' := CloseOne(f, i);
            && |f'.open| == |f'.closes| == cfg.count
            && (forall j :: 0 <= j < cfg.count ==> f'.closes[j] + One(f'.open[j]) == One(j < f'.opens))
            && (forall j :: 0 <= j < cfg.count ==> f'.open[j] == (j != i && f.open[j]))
  {
  }

  /** The descriptors after a step of the submitting thread, by kind of step. */
  lemma SubmitterFilesOk(cfg: Config, st: State, choice: Choice)
    requires Shape(cfg, st) && SubmitterEnabled(st)
    requires LifeOk(st.s, st.c, st.k) && FilesOk(cfg, st.s, st.f, st.k)
    requires st.c.NotStarted? ==> st.k.inflight == {}
    requires st.s.Closing? ==> st.k.inflight == {}
    ensures FilesAfter(cfg, st, choice)
  {
    match st.s
    case Closing(_) => ClosingFilesOk(cfg, st, choice);
    case Dispose(_) => DisposeFilesOk(cfg, st, choice);
    case Opening(_) => OpeningFilesOk(cfg, st, choice);
    case Destroy => DestroyFilesOk(cfg, st, choice);
    case _ => OtherFilesOk(cfg, st, choice);
  }

  ghost predicate FilesAfter(cfg: Config, st: State, choice: Choice)
    requires Shape(cfg, st)
  {
    var f := SubmitterFiles(cfg, st, choice);
    && |f.open| == |f.closes| == cfg.count
    && FilesOk(cfg, SubmitterNext(cfg, st, choice), f, SubmitterKernel(st, choice))
  }

  lemma ClosingFilesOk(cfg: Config, st: State, choice: Choice)
    requires Shape(cfg, st) && FilesOk(cfg, st.s, st.f, st.k) && st.s.Closing?
    ensures FilesAfter(cfg, st, choice)
  {
    if st.s.i < cfg.count {
      ClosedFilesOk(cfg, st.s, st.f, st.k, if choice == Fault then Unwind else Closing(st.s.i + 1));
    } else {
      SkippedFilesOk(cfg, st.s, st.f, st.k);
    }
  }

  lemma DisposeFilesOk(cfg: Config, st: State, choice: Choice)
    requires Shape(cfg, st) && FilesOk(cfg, st.s, st.f, st.k) && st.s.Dispose?
    ensures FilesAfter(cfg, st, choice)
  {
    if st.s.i < cfg.count && st.f.open[st.s.i] {
      ClosedFilesOk(cfg, st.s, st.f, st.k, Unwind);
    } else {
      SkippedFilesOk(cfg, st.s, st.f, st.k);
    }
  }

  lemma DestroyFilesOk(cfg: Config, st: State, choice: Choice)
    requires Shape(cfg, st) && SubmitterEnabled(st) && st.s.Destroy?
    requires LifeOk(st.s, st.c, st.k) && FilesOk(cfg, st.s, st.f, st.k)
    requires st.c.NotStarted? ==> st.k.inflight == {}
    ensures FilesAfter(cfg, st, choice)
  {
  }

  /** Steps that touch no descriptor. */
  lemma OtherFilesOk(cfg: Config, st: State, choice: Choice)
    requires Shape(cfg, st) && FilesOk(cfg, st.s, st.f, st.k)
    requires !st.s.Closing? && !st.s.Dispose? && !st.s.Opening? && !st.s.Destroy?
    ensures FilesAfter(cfg, st, choice)
  {
    assert SubmitterFiles(cfg, st, choice) == st.f;
  }

  lemma SkippedFilesOk(cfg: Config, s: SPc, f: Files, k: Kernel)
    requires |f.open| == |f.closes| == cfg.count && FilesOk(cfg, s, f, k)
    requires (s.Closing? || s.Dispose?) && s.i <= cfg.count
    ensures s.Closing? && s.i == cfg.count ==> FilesOk(cfg, Unwind, f, k)
    ensures s.Dispose? && s.i == cfg.count ==> FilesOk(cfg, Gone, f, k)
    ensures s.Dispose? && s.i < cfg.count && !f.open[s.i] ==> FilesOk(cfg, Dispose(s.i + 1), f, k)
  {
  }

  lemma ClosedFilesOk(cfg: Config, s: SPc, f: Files, k: Kernel, next: SPc)
    requires |f.open| == |f.closes| == cfg.count && FilesOk(cfg, s, f, k)
    requires (s.Closing? || s.Dispose?) && s.i < cfg.count && f.open[s.i]
    requires next == Unwind || next == Closing(s.i + 1)
    ensures s.Closing? ==> FilesOk(cfg, next, CloseOne(f, s.i), k)
    ensures s.Dispose? ==> FilesOk(cfg, Dispose(s.i + 1), CloseOne(f, s.i), k)
  {
    CloseOneOk(cfg, f, s.i);
  }

  lemma OpeningFilesOk(cfg: Config, st: State, choice: Choice)
    requires Shape(cfg, st) && FilesOk(cfg, st.s, st.f, st.k) && st.s.Opening?
    ensures FilesAfter(cfg, st, choice)
  {
  }

  lemma SubmitterStepOk(cfg: Config, st: State, choice: Choice)
    requires Inv(cfg, st) && SubmitterEnabled(st)
    ensures Inv(cfg, SubmitterStep(cfg, st, choice))
  {
    SubmitterConserves(cfg, st, choice);
    if st.s.WindowTest? {
      WindowTestExact(cfg, st);
    }
    if st.s.FinalCheck? && !st.m.failed {
      FinalCheckDecides(cfg, st);
    }
    if st.c.NotStarted? {
      NothingAccepted(st.k, Rest(st.c), st.m.done);
    }
    if st.s.Closing? {
      SucceededIsIdle(cfg, st);
    }
    SubmitterControl(cfg, st, choice);
    SubmitterWindow(cfg, st, choice);
    SubmitterLife(cfg, st, choice);
    SubmitterFilesOk(cfg, st, choice);
    SubmitterEnd(cfg, st, choice);
  }

  lemma StepOk(cfg: Config, st: State, m: Move)
    requires Inv(cfg, st) && Enabled(st, m)
    ensures Inv(cfg, Step(cfg, st, m))
  {
    match m
    case Submitter(choice) => SubmitterStepOk(cfg, st, choice);
    case Completer(choice) => CompleterStepOk(cfg, st, choice);
    case _ => KernelStepOk(cfg, st, m);
  }

  lemma {:induction false} RunOk(cfg: Config, states: seq<State>, moves: seq<Move>, i: nat)
    requires IsRun(cfg, states, moves) && i < |states|
    ensures Inv(cfg, states[i])
  {
    if i == 0 {
      StartOk(cfg);
    } else {
      RunOk(cfg, states, moves, i - 1);
      StepOk(cfg, states[i - 1], moves[i - 1]);
    }
  }
}
