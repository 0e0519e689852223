/** The promises of multi_share.cpp, over every run: any number of workers and rounds, every
    interleaving of single memory accesses, and every pattern of failures. */
module MultiShareTheorems {
  import opened Machine
  import opened Pattern
  import opened MultiShare
  import opened MultiShareSafety
  import Whole

  /** Inside the protocol, and not waiting in a barrier. */
  predicate Active(worker: Worker) {
    worker.status == Running && !worker.pc.Depart?
  }

  /** About to write a word of the own block. */
  predicate WritesOwn(worker: Worker) {
    worker.status == Running && (worker.pc.OwnTest? || worker.pc.FillWord?)
  }

  /** About to read a word of the block of `owner`. */
  predicate Reads(worker: Worker, owner: nat) {
    worker.status == Running && worker.pc.CopyWord? && worker.pc.owner == owner
  }

  /** Any two active workers have passed the same number of barriers. */
  lemma ActiveWorkersAgree(cfg: Config, states: seq<State>, moves: seq<Move>, i: nat, v: nat, w: nat)
    requires IsRun(cfg, states, moves) && i < |states|
    ensures |states[i].workers| == cfg.count
    ensures v < cfg.count && w < cfg.count && Active(states[i].workers[v]) && Active(states[i].workers[w]) ==>
              Crossed(cfg, states[i].workers[v].pc) == Crossed(cfg, states[i].workers[w].pc)
  {
    RunOk(cfg, states, moves, i);
    if v < cfg.count && w < cfg.count {
      Lockstep(cfg, states[i], v, w);
      Lockstep(cfg, states[i], w, v);
    }
  }

  /** No block is ever written by its owner while another worker reads it, and nobody reads a block
      it has not mapped. */
  lemma RaceFree(cfg: Config, states: seq<State>, moves: seq<Move>, i: nat, v: nat, w: nat)
    requires IsRun(cfg, states, moves) && i < |states|
    ensures |states[i].workers| == cfg.count
    ensures v < cfg.count && w < cfg.count ==>
              !(WritesOwn(states[i].workers[w]) && Reads(states[i].workers[v], w))
    ensures v < cfg.count && w < cfg.count && Reads(states[i].workers[v], w) ==>
              |states[i].workers[v].mapped| == cfg.count && states[i].workers[v].mapped[w]
  {
    ActiveWorkersAgree(cfg, states, moves, i, v, w);
    RunOk(cfg, states, moves, i);
    var s := states[i];
    if v < cfg.count && w < cfg.count && Reads(s.workers[v], w) {
      assert PcInRange(cfg, s.workers[v].pc) && PcInRange(cfg, s.workers[w].pc);
      assert WorkerOk(cfg, s, v);
    }
  }

  /** Whatever a reader has accepted as round `r` of block `o` is what that owner wrote in that round. */
  lemma AcceptedDataIsFresh(cfg: Config, states: seq<State>, moves: seq<Move>, i: nat, v: nat, r: nat, o: nat)
    requires IsRun(cfg, states, moves) && i < |states| && v < cfg.count
    ensures |states[i].workers| == cfg.count
    ensures (r, o) in states[i].workers[v].seen ==>
              && o < cfg.count && r < cfg.rounds
              && r in states[i].workers[o].wrote
              && states[i].workers[v].seen[(r, o)] == states[i].workers[o].wrote[r] == cfg.Image(r, o)
  {
    RunOk(cfg, states, moves, i);
    if (r, o) in states[i].workers[v].seen {
      SeenWasWritten(cfg, states[i], v, r, o);
    }
  }

  lemma SeenWasWritten(cfg: Config, s: State, v: nat, r: nat, o: nat)
    requires Inv(cfg, s) && v < cfg.count && (r, o) in s.workers[v].seen
    ensures o < cfg.count && r < cfg.rounds && r in s.workers[o].wrote
    ensures s.workers[v].seen[(r, o)] == s.workers[o].wrote[r] == cfg.Image(r, o)
  {
    assert WorkerOk(cfg, s, v) && PcInRange(cfg, s.workers[v].pc);
    assert SeenSound(cfg, s.workers[v]);
    ReadMeansCrossed(cfg, s.workers[v].pc, r, o);
    Lockstep(cfg, s, v, o);
    assert WorkerOk(cfg, s, o) && PcInRange(cfg, s.workers[o].pc);
    SentMeansFilled(cfg, s.workers[o].pc, r);
    assert WroteOk(cfg, o, s.workers[o]);
  }

  lemma ReadMeansCrossed(cfg: Config, pc: Pc, r: nat, o: nat)
    requires PcInRange(cfg, pc) && HasRead(cfg, pc, r, o)
    ensures r < cfg.rounds && Crossed(cfg, pc) >= 3 + 2 * r
  {
  }

  lemma SentMeansFilled(cfg: Config, pc: Pc, r: nat)
    requires PcInRange(cfg, pc) && r < cfg.rounds && Sent(cfg, pc) >= 4 + 2 * r
    ensures r < Fills(cfg, pc)
  {
  }

  /** The seeds of a run are pairwise distinct as long as there are no more of them than words, so a
      block from an earlier round or of another owner is never taken for the right one. */
  lemma ImagesDistinct(cfg: Config, r: nat, o: nat, q: nat, p: nat)
    requires cfg.Valid() && cfg.rounds * cfg.count <= WORD
    requires r < cfg.rounds && o < cfg.count && q < cfg.rounds && p < cfg.count
    ensures cfg.Image(r, o) == cfg.Image(q, p) <==> r == q && o == p
  {
    PlacesDistinct(cfg.rounds, cfg.count, r, o, q, p);
    SeedsDistinct(r * cfg.count + o, q * cfg.count + p);
    BlocksEqualIffSeedsEqual(cfg.Seed(r, o), cfg.Seed(q, p), cfg.words);
  }

  /** Places in a table stored row by row are different exactly when row or column are. */
  lemma PlacesDistinct(rows: nat, cols: nat, r: nat, c: nat, q: nat, d: nat)
    requires r < rows && c < cols && q < rows && d < cols
    ensures r * cols + c < rows * cols && q * cols + d < rows * cols
    ensures r * cols + c == q * cols + d <==> r == q && c == d
  {
    Whole.RowFits(r, rows, cols);
    Whole.RowFits(q, rows, cols);
    if r < q {
      Whole.RowFits(r, q, cols);
    } else if q < r {
      Whole.RowFits(q, r, cols);
    }
  }

  lemma SeedsDistinct(x: nat, y: nat)
    requires x < WORD && y < WORD
    ensures (300 + x) % WORD == (300 + y) % WORD <==> x == y
  {
  }

  /** Every word received is the one meant there: handles in rank order, then zeros. */
  lemma WordsAreTheOnesMeant(cfg: Config, states: seq<State>, moves: seq<Move>, i: nat)
    requires IsRun(cfg, states, moves) && i < |states|
    ensures Shape(cfg, states[i])
    ensures forall w :: 0 <= w < cfg.count && |states[i].down[w]| > 0 ==>
              && (states[i].workers[w].pc.AwaitToken? ==>
                    states[i].down[w][0] == cfg.tokens[states[i].workers[w].pc.owner])
              && (states[i].workers[w].pc.Depart? ==> states[i].down[w][0] == 0)
    ensures states[i].coord.Collect? && |states[i].up[states[i].coord.k]| > 0 ==>
              states[i].up[states[i].coord.k][0] == cfg.tokens[states[i].coord.k]
    ensures states[i].coord.Gather? && |states[i].up[states[i].coord.k]| > 0 ==>
              states[i].up[states[i].coord.k][0] == 0
    ensures forall w :: 0 <= w < cfg.count && states[i].workers[w].pc.MapSlice? ==>
              states[i].workers[w].pc.owner < cfg.count &&
              states[i].workers[w].pc.token == cfg.tokens[states[i].workers[w].pc.owner]
  {
    RunOk(cfg, states, moves, i);
    var s := states[i];
    forall w | 0 <= w < cfg.count && |s.down[w]| > 0
      ensures s.workers[w].pc.AwaitToken? ==> s.down[w][0] == cfg.tokens[s.workers[w].pc.owner]
      ensures s.workers[w].pc.Depart? ==> s.down[w][0] == 0
    {
      assert WorkerOk(cfg, s, w) && PcInRange(cfg, s.workers[w].pc);
      PopDown(cfg, s.down[w], CoordSent(cfg, s.coord, w), Got(cfg, s.workers[w].pc));
    }
    if s.coord.Collect? || s.coord.Gather? {
      var k := s.coord.k;
      assert WorkerOk(cfg, s, k);
      if |s.up[k]| > 0 {
        PopUp(cfg, k, s.up[k], Sent(cfg, s.workers[k].pc), CoordGot(cfg, s.coord, k));
      }
    }
    forall w | 0 <= w < cfg.count && s.workers[w].pc.MapSlice?
      ensures s.workers[w].pc.owner < cfg.count && s.workers[w].pc.token == cfg.tokens[s.workers[w].pc.owner]
    {
      assert WorkerOk(cfg, s, w) && PcInRange(cfg, s.workers[w].pc);
    }
  }

  /** A socket never holds more than one word upwards and `count` words downwards, so no send blocks. */
  lemma QueuesBounded(cfg: Config, states: seq<State>, moves: seq<Move>, i: nat, w: nat)
    requires IsRun(cfg, states, moves) && i < |states| && w < cfg.count
    ensures Shape(cfg, states[i]) && |states[i].up[w]| <= 1 && |states[i].down[w]| <= cfg.count
  {
    RunOk(cfg, states, moves, i);
    assert WorkerOk(cfg, states[i], w) && PcInRange(cfg, states[i].workers[w].pc);
  }

  /** A worker past its try block may release its memory: nobody has any slice mapped any more,
      whatever happens to the others afterwards. */
  lemma ReleaseIsSafe(cfg: Config, states: seq<State>, moves: seq<Move>, i: nat, w: nat, v: nat, k: nat)
    requires IsRun(cfg, states, moves) && i < |states| && w < cfg.count && v < cfg.count && k < cfg.count
    ensures Shape(cfg, states[i])
    ensures states[i].workers[w].pc == Leave ==> !states[i].workers[v].mapped[k]
  {
    RunOk(cfg, states, moves, i);
    var s := states[i];
    if s.workers[w].pc == Leave {
      Lockstep(cfg, s, w, v);
      assert WorkerOk(cfg, s, v) && PcInRange(cfg, s.workers[v].pc);
    }
  }

  /** An ended worker, however it ended, has no slice mapped and has given its memory back; one that has
      not ended still holds its memory, and has mapped at most what its place in the program allows. */
  lemma ExitedHoldsNothing(cfg: Config, states: seq<State>, moves: seq<Move>, i: nat, w: nat, k: nat)
    requires IsRun(cfg, states, moves) && i < |states| && w < cfg.count && k < cfg.count
    ensures Shape(cfg, states[i])
    ensures states[i].workers[w].status.Exited? ==> !states[i].workers[w].mapped[k]
    ensures states[i].workers[w].status.Exited? <==> states[i].workers[w].freed
    ensures states[i].workers[w].status == Running ==>
              (states[i].workers[w].mapped[k] <==> MappedAt(cfg, states[i].workers[w].pc, k))
  {
    RunOk(cfg, states, moves, i);
    assert WorkerOk(cfg, states[i], w);
  }

  /** The protocol itself never makes a worker fail: a statement throws only if the system call under
      it fails, or if it has read memory whose owner has already released it. */
  lemma NoFalseAlarm(cfg: Config, states: seq<State>, moves: seq<Move>, i: nat, w: nat)
    requires IsRun(cfg, states, moves) && i < |moves| && moves[i] == Work(w)
    ensures Shape(cfg, states[i]) && Shape(cfg, states[i + 1]) && w < cfg.count
    ensures states[i + 1].workers[w].status == Running
         || (states[i].workers[w].pc.Check? && states[i].workers[states[i].workers[w].pc.owner].freed)
  {
    RunOk(cfg, states, moves, i);
    RunOk(cfg, states, moves, i + 1);
    WorkStepOk(cfg, states[i], w);
  }

  /** MULTI_RESULT PASS: every reader has verified every owner's block in every round, against what
      that owner wrote in that round. */
  lemma PassMeansVerified(cfg: Config, states: seq<State>, moves: seq<Move>, i: nat, v: nat, r: nat, o: nat)
    requires IsRun(cfg, states, moves) && i < |states| && Passed(cfg, states[i])
    requires v < cfg.count && o < cfg.count && r < cfg.rounds
    ensures |states[i].workers| == cfg.count
    ensures (r, o) in states[i].workers[v].seen && r in states[i].workers[o].wrote
    ensures states[i].workers[v].seen[(r, o)] == states[i].workers[o].wrote[r] == cfg.Image(r, o)
  {
    RunOk(cfg, states, moves, i);
    assert WorkerOk(cfg, states[i], v);
    assert HasRead(cfg, states[i].workers[v].pc, r, o);
    AcceptedDataIsFresh(cfg, states, moves, i, v, r, o);
  }

  /** Something has failed: the coordinator has given up, or a worker is unwinding or has ended badly. */
  ghost predicate Failed(s: State) {
    s.aborted || exists w :: 0 <= w < |s.workers| && FailedWorker(s.workers[w])
  }

  predicate FailedWorker(worker: Worker) { worker.status == Cleaning || worker.status == Exited(false) }

  /** A move by which something fails. */
  predicate Fails(m: Move) { m.Throw? || m.Kill? || m.Abort? || (m.Clean? && !m.ok) }

  /** Whatever fails in a run, be it only a clean-up, that run never prints PASS. */
  lemma FailureIsFinal(cfg: Config, states: seq<State>, moves: seq<Move>, i: nat, j: nat)
    requires IsRun(cfg, states, moves) && i < j < |states| && Fails(moves[i])
    ensures !Passed(cfg, states[j])
  {
    FailedNow(cfg, states[i], moves[i]);
    FailedForGood(cfg, states, moves, i + 1, j);
  }

  lemma FailedNow(cfg: Config, s: State, m: Move)
    requires Shape(cfg, s) && Enabled(cfg, s, m) && Fails(m)
    ensures Failed(Step(cfg, s, m))
  {
    if !m.Abort? {
      assert FailedWorker(Step(cfg, s, m).workers[m.w]);
    }
  }

  lemma {:induction false} FailedForGood(cfg: Config, states: seq<State>, moves: seq<Move>, i: nat, j: nat)
    requires IsRun(cfg, states, moves) && i <= j < |states| && Failed(states[i])
    ensures Failed(states[j])
  {
    if i < j {
      FailedForGood(cfg, states, moves, i, j - 1);
      FailedStep(cfg, states[j - 1], moves[j - 1]);
    }
  }

  lemma FailedStep(cfg: Config, s: State, m: Move)
    requires Shape(cfg, s) && Enabled(cfg, s, m) && Failed(s)
    ensures Failed(Step(cfg, s, m))
  {
    var next := Step(cfg, s, m);
    if !s.aborted {
      var w :| 0 <= w < |s.workers| && FailedWorker(s.workers[w]);
      assert FailedWorker(next.workers[w]);
    }
  }

  /** What the test of the own memory has left in it at each of its steps, and until the first round; and in
      a round, that the part of the private copy that is still to be read is cleared. */
  predicate TestHolds(cfg: Config, w: nat, worker: Worker) {
    worker.status == Running ==>
      match worker.pc
      case OwnTest(stage) =>
        && (stage == 1 ==> worker.block == PatternBlock((100 + w) % WORD, cfg.words))
        && (stage == 2 ==> worker.block == Zeros(cfg.words))
      case Arrive(b) => b == Tested ==> worker.block == PatternBlock((200 + w) % WORD, cfg.words)
      case Depart(b) => b == Tested ==> worker.block == PatternBlock((200 + w) % WORD, cfg.words)
      case CopyWord(r, o, i) => forall k :: i <= k < |worker.hbm| ==> worker.hbm[k] == 0
      case FillWord(r, i) => r == 0 && i == 0 ==> worker.block == PatternBlock((200 + w) % WORD, cfg.words)
      case _ => true
  }

  /** Every worker tests its own memory with patterns of its own, and finds them unharmed by the others: nobody
      else writes there before the first round, whatever fails. Every block is read into a cleared copy, so
      that nothing of an earlier one can be mistaken for it. */
  lemma {:induction false} OwnTestHolds(cfg: Config, states: seq<State>, moves: seq<Move>, i: nat, w: nat)
    requires IsRun(cfg, states, moves) && i < |states| && w < cfg.count
    ensures Shape(cfg, states[i]) && TestHolds(cfg, w, states[i].workers[w])
  {
    RunOk(cfg, states, moves, i);
    if i > 0 {
      RunOk(cfg, states, moves, i - 1);
      OwnTestHolds(cfg, states, moves, i - 1, w);
      assert WorkerOk(cfg, states[i - 1], w);
      TestStep(cfg, states[i - 1], moves[i - 1], w);
    }
  }

  /** The worker's own statements. */
  lemma TestTouch(cfg: Config, w: nat, worker: Worker, source: seq<word>)
    requires cfg.Valid() && PcInRange(cfg, worker.pc) && TouchesMemory(worker.pc)
    requires |worker.block| == |worker.hbm| == |source| == cfg.words
    requires worker.status == Running && TestHolds(cfg, w, worker)
    ensures TestHolds(cfg, w, Touch(cfg, w, worker, source))
  {
  }

  /** A statement that touches no memory leaves the memory as it is, and does not lead into the middle of
      the tests. */
  lemma OtherKeeps(cfg: Config, s: State, w: nat)
    requires Shape(cfg, s) && w < cfg.count && CanWork(s.workers[w], s.down[w])
    requires !TouchesMemory(s.workers[w].pc)
    ensures |WorkStep(cfg, s, w).workers| == cfg.count
    ensures var before, now := s.workers[w], WorkStep(cfg, s, w).workers[w];
            && now.block == before.block && !now.pc.CopyWord? && (now.pc.OwnTest? ==> now.pc.stage == 0)
            && now.pc != Arrive(Tested)
            && (now.pc == Depart(Tested) && now.status == Running ==> before.pc == Arrive(Tested))
            && (now.pc == FillWord(0, 0) ==> before.pc == Depart(Tested))
  {
  }

  lemma TestOther(cfg: Config, s: State, w: nat)
    requires Shape(cfg, s) && w < cfg.count && CanWork(s.workers[w], s.down[w])
    requires !TouchesMemory(s.workers[w].pc) && TestHolds(cfg, w, s.workers[w])
    ensures |WorkStep(cfg, s, w).workers| == cfg.count && TestHolds(cfg, w, WorkStep(cfg, s, w).workers[w])
  {
    OtherKeeps(cfg, s, w);
    hide WorkStep;
  }

  lemma TestStep(cfg: Config, s: State, m: Move, w: nat)
    requires Shape(cfg, s) && Enabled(cfg, s, m) && w < cfg.count && TestHolds(cfg, w, s.workers[w])
    requires s.workers[w].freed ==> s.workers[w].status.Exited?
    ensures w < |Step(cfg, s, m).workers| && TestHolds(cfg, w, Step(cfg, s, m).workers[w])
  {
    if m == Work(w) {
      if TouchesMemory(s.workers[w].pc) {
        TestTouch(cfg, w, s.workers[w], s.workers[SourceOf(s.workers[w].pc, w)].block);
      } else {
        TestOther(cfg, s, w);
      }
    } else {
      assert m.Clean? || m.Kill? || m.Throw? || m.Scribble? || Step(cfg, s, m).workers[w] == s.workers[w];
    }
  }
}
