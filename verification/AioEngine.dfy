/** The asynchronous phase of cache2_hal_aio.cc: `AioPhase::Run` and its destructor.

    Three actors interleave: the submitting thread, the completion thread and the kernel. Every
    access to shared state (`failed_`, `stop_`, `completed_`, the event ring, the eventfd) is a step of
    its own. Any system call may fail where the code looks at its result, any check may time out, and
    the kernel completes accepted requests in any order with any result. */
module AioEngine {
  import opened Machine

  /** `count` requests of `slotBytes` bytes each, at most `depth` of them outstanding. */
  datatype Config = Config(count: nat, depth: nat, slotBytes: nat)
  {
    ghost predicate Valid() {
      0 < count <= 0x100_0000_0000 && 0 < depth
    }
  }

  const BATCH: nat := 128

  /** `obj` names the request whose control block the event points at. */
  datatype Event = Event(data: nat, obj: nat, res: int, res2: int)

  /** The submitting thread: `Run`, then the destructor from `Unwind` on. */
  datatype SPc =
    | Setup(stage: nat)       // io_setup, eventfd, epoll_create1, epoll_ctl
    | Opening(i: nat)
    | LoopTop                 // while (submitted < count) { check();
    | WindowTest              //   submitted - completed_ >= depth ?
    | Submit                  //   io_submit
    | Accepted                //   ++submitted
    | WaitTop                 // while (completed_ < count)
    | WaitCheck               //   check(); sleep
    | FinalCheck
    | Stopping                // stop_ = true
    | Joining
    | Closing(i: nat)         // PASS has been logged
    | Unwind                  // ~AioPhase: stop_ = true
    | UnwindJoin
    | Destroy                 // io_destroy
    | Dispose(i: nat)
    | Gone

  /** The completion thread. `batch` is what io_getevents returned, `j` the event being looked at;
      a thread that returns early leaves the events in `lost` unprocessed. */
  datatype CPc =
    | NotStarted
    | Top                                   // while (!stop_)
    | Epoll
    | ReadFd
    | GetEvents
    | Judge(batch: seq<Event>, j: nat)      // validate, compare res and res2
    | Mark(batch: seq<Event>, j: nat)       // req.done = true
    | Count(batch: seq<Event>, j: nat)      // completed_.fetch_add(1)
    | Exited(lost: seq<Event>)

  /** Shared by the two threads; `done` and `results` belong to the completion thread. */
  datatype Shared = Shared(
    submitted: nat, completed: nat, failed: bool, stop: bool, done: set<nat>, results: map<nat, Event>)

  /** `pending` events are in the ring but not yet announced on the eventfd, whose count is `efd`. */
  datatype Kernel = Kernel(
    ctx: bool, accepted: nat, inflight: set<nat>, ring: seq<Event>, pending: nat, efd: nat)

  /** Descriptors of the requests: how many were opened, which are open, close attempts of each. */
  datatype Files = Files(opens: nat, open: seq<bool>, closes: seq<nat>, destroys: nat)

  datatype State = State(s: SPc, c: CPc, m: Shared, k: Kernel, f: Files)

  /** How a system call or check turns out: as hoped, an error, the deadline, or "try again". */
  datatype Choice = Go | Fault | Timeout | Again

  datatype Move =
    | Submitter(choice: Choice)
    | Completer(choice: Choice)
    | Complete(id: nat, res: int, res2: int)   // kernel: finish a request, queue its event
    | Signal                                   // kernel: bump the eventfd for a queued event

  function Start(cfg: Config): State {
    State(Setup(0), NotStarted,
          Shared(0, 0, false, false, {}, map[]),
          Kernel(false, 0, {}, [], 0, 0),
          Files(0, seq(cfg.count, _ => false), seq(cfg.count, _ => 0), 0))
  }

  /** Unsigned 64-bit subtraction. */
  function Sub64(a: nat, b: nat): nat { (a - b) % WORD }

  predicate Good(cfg: Config, e: Event) { e.res == cfg.slotBytes && e.res2 == 0 }

  ghost predicate Shape(cfg: Config, st: State) {
    && cfg.Valid()
    && |st.f.open| == |st.f.closes| == cfg.count
    && (st.s.Opening? || st.s.Closing? || st.s.Dispose? ==> st.s.i <= cfg.count)
    && (st.c.Judge? ==> st.c.j <= |st.c.batch|)
    && (st.c.Mark? || st.c.Count? ==> st.c.j < |st.c.batch|)
  }

  /* ---- the submitting thread ---- */

  predicate SubmitterEnabled(st: State) {
    match st.s
    case Joining => st.c.Exited?
    case UnwindJoin => st.c.Exited? || st.c.NotStarted?
    case Destroy => st.k.ctx ==> st.k.inflight == {}     // io_destroy returns when nothing is in flight
    case Gone => false
    case _ => true
  }

  /** `check()`: an exception if something failed or the deadline has passed. */
  function Checked(m: Shared, choice: Choice, next: SPc): SPc {
    if m.failed || choice == Timeout then Unwind else next
  }

  /** The next statement. */
  function SubmitterNext(cfg: Config, st: State, choice: Choice): SPc
    requires Shape(cfg, st)
  {
    match st.s
    case Setup(stage) => if choice == Fault then Unwind else if stage < 3 then Setup(stage + 1) else Opening(0)
    case Opening(i) => if choice == Fault then Unwind else if i < cfg.count then Opening(i + 1) else LoopTop
    case LoopTop => if st.m.submitted < cfg.count then Checked(st.m, choice, WindowTest) else WaitTop
    case WindowTest => if Sub64(st.m.submitted, st.m.completed) >= cfg.depth then LoopTop else Submit
    case Submit => if choice == Go then Accepted else if choice == Again then LoopTop else Unwind
    case Accepted => LoopTop
    case WaitTop => if st.m.completed < cfg.count then WaitCheck else FinalCheck
    case WaitCheck => Checked(st.m, choice, WaitTop)
    case FinalCheck => Checked(st.m, choice, Stopping)
    case Stopping => Joining
    case Joining => Closing(0)
    case Closing(i) => if i == cfg.count || choice == Fault then Unwind else Closing(i + 1)
    case Unwind => UnwindJoin
    case UnwindJoin => Destroy
    case Destroy => Dispose(0)
    case Dispose(i) => if i == cfg.count then Gone else Dispose(i + 1)
    case Gone => Gone
  }

  function SubmitterShared(st: State): Shared {
    match st.s
    case Accepted => st.m.(submitted := st.m.submitted + 1)
    case Stopping => st.m.(stop := true)
    case Unwind => st.m.(stop := true)
    case _ => st.m
  }

  function SubmitterKernel(st: State, choice: Choice): Kernel {
    match st.s
    case Setup(_) => if choice == Fault then st.k else st.k.(ctx := true)
    case Submit =>
      if choice == Go then
        st.k.(inflight := st.k.inflight + {st.m.submitted}, accepted := st.k.accepted + 1)
      else st.k
    case _ => st.k
  }

  /** One close attempt; the descriptor is forgotten whether or not it succeeds. */
  function CloseOne(f: Files, i: nat): Files
    requires i < |f.open| == |f.closes|
  {
    f.(open := f.open[i := false], closes := f.closes[i := f.closes[i] + 1])
  }

  function SubmitterFiles(cfg: Config, st: State, choice: Choice): Files
    requires Shape(cfg, st)
  {
    match st.s
    case Opening(i) =>
      if choice == Fault || i == cfg.count then st.f
      else st.f.(open := st.f.open[i := true], opens := i + 1)
    case Closing(i) => if i == cfg.count then st.f else CloseOne(st.f, i)
    case Destroy => if st.k.ctx then st.f.(destroys := st.f.destroys + 1) else st.f
    case Dispose(i) => if i < cfg.count && st.f.open[i] then CloseOne(st.f, i) else st.f
    case _ => st.f
  }

  function SubmitterStep(cfg: Config, st: State, choice: Choice): State
    requires Shape(cfg, st) && SubmitterEnabled(st)
  {
    State(SubmitterNext(cfg, st, choice),
          if st.s.Opening? && st.s.i == cfg.count && choice != Fault then Top else st.c,
          SubmitterShared(st), SubmitterKernel(st, choice), SubmitterFiles(cfg, st, choice))
  }

  /* ---- the completion thread ---- */

  predicate CompleterEnabled(st: State) {
    !st.c.NotStarted? && !st.c.Exited?
  }

  /** How many events io_getevents returns. */
  function Batch(k: Kernel): nat { if |k.ring| < BATCH then |k.ring| else BATCH }

  /** The validation in the loop over the batch. */
  predicate Valid(cfg: Config, m: Shared, e: Event) {
    e.data < cfg.count && e.data !in m.done && e.obj == e.data
  }

  function CompleterNext(cfg: Config, st: State, choice: Choice): CPc
    requires Shape(cfg, st)
  {
    match st.c
    case NotStarted => NotStarted
    case Top => if st.m.stop then Exited([]) else Epoll
    case Epoll => if choice == Fault then Exited([]) else if choice == Go && st.k.efd > 0 then ReadFd else Top
    case ReadFd => if choice == Fault then Exited([]) else if choice == Go && st.k.efd > 0 then GetEvents else Top
    case GetEvents =>
      if choice == Fault then Exited([]) else if choice == Again then GetEvents else Judge(st.k.ring[..Batch(st.k)], 0)
    case Judge(batch, j) =>
      if j == |batch| then (if |batch| < BATCH then Top else GetEvents)
      else if Valid(cfg, st.m, batch[j]) then Mark(batch, j) else Exited(batch[j..])
    case Mark(batch, j) => Count(batch, j)
    case Count(batch, j) => Judge(batch, j + 1)
    case Exited(lost) => Exited(lost)
  }

  function CompleterShared(cfg: Config, st: State, choice: Choice): Shared
    requires Shape(cfg, st)
  {
    match st.c
    case Epoll => st.m.(failed := st.m.failed || choice == Fault)
    case ReadFd => st.m.(failed := st.m.failed || choice == Fault)
    case GetEvents => st.m.(failed := st.m.failed || choice == Fault)
    case Judge(batch, j) =>
      if j == |batch| then st.m
      else st.m.(failed := st.m.failed || !Valid(cfg, st.m, batch[j]) || !Good(cfg, batch[j]))
    case Mark(batch, j) =>
      st.m.(done := st.m.done + {batch[j].data}, results := st.m.results[batch[j].data := batch[j]])
    case Count(_, _) => st.m.(completed := st.m.completed + 1)
    case _ => st.m
  }

  function CompleterKernel(st: State, choice: Choice): Kernel {
    match st.c
    case ReadFd => if choice == Go && st.k.efd > 0 then st.k.(efd := 0) else st.k
    case GetEvents =>
      if choice == Fault || choice == Again then st.k else st.k.(ring := st.k.ring[Batch(st.k)..])
    case _ => st.k
  }

  function CompleterStep(cfg: Config, st: State, choice: Choice): State
    requires Shape(cfg, st) && CompleterEnabled(st)
  {
    st.(c := CompleterNext(cfg, st, choice), m := CompleterShared(cfg, st, choice), k := CompleterKernel(st, choice))
  }

  /* ---- the kernel, and runs ---- */

  predicate Enabled(st: State, m: Move) {
    match m
    case Submitter(_) => SubmitterEnabled(st)
    case Completer(_) => CompleterEnabled(st)
    case Complete(id, _, _) => id in st.k.inflight
    case Signal => st.k.pending > 0
  }

  function Step(cfg: Config, st: State, m: Move): State
    requires Shape(cfg, st) && Enabled(st, m)
  {
    match m
    case Submitter(choice) => SubmitterStep(cfg, st, choice)
    case Completer(choice) => CompleterStep(cfg, st, choice)
    case Complete(id, res, res2) =>
      st.(k := st.k.(inflight := st.k.inflight - {id}, ring := st.k.ring + [Event(id, id, res, res2)],
                     pending := st.k.pending + 1))
    case Signal => st.(k := st.k.(pending := st.k.pending - 1, efd := st.k.efd + 1))
  }

  ghost predicate IsRun(cfg: Config, states: seq<State>, moves: seq<Move>) {
    && cfg.Valid()
    && |states| == |moves| + 1
    && states[0] == Start(cfg)
    && forall i :: 0 <= i < |moves| ==>
        Shape(cfg, states[i]) && Enabled(states[i], moves[i]) && states[i + 1] == Step(cfg, states[i], moves[i])
  }
}
