/** The hand-off of one shared buffer between the creator and the importer process (`worker` of
    host_share.cpp), as a transition system: the two run concurrently, exchange words over a socket
    pair, and either may fail at any step. */
module HandOff {

  datatype Content = Seed(seed: nat) | Mixed

  /** Where the creator is. In `CIo` it still has `left` writes to the buffer to make before the tests
      end with the buffer filled. */
  datatype CreatorPc =
    | CFirst
    | CWaitMapped
    | CSecond
    | CIo(left: nat)
    | CWaitImporter
    | CThird
    | CWaitUnmapped
    | CDone

  datatype ImporterPc =
    | IWaitToken
    | IImport
    | IFirst
    | IFill(left: nat)
    | IWaitIo
    | ISecond
    | IIo(left: nat)
    | IWaitFinal
    | IUnmap
    | IDone

  /** A process that has failed keeps its place, has given back what it held, and has closed its end. `cCases`
      and `iCases` are the failed cases of each one's own I/O tests, `total` what the creator has counted. */
  datatype State = State(
    c: CreatorPc, cFailed: bool, i: ImporterPc, iFailed: bool,
    mapped: bool,
    memory: Content,
    toImporter: seq<nat>, toCreator: seq<nat>,
    cCases: nat, iCases: nat, total: nat)

  /** The exported handle; nothing looks at its value. */
  const TOKEN: nat := 7

  function Init(content: Content): State {
    State(CFirst, false, IWaitToken, false, false, content, [], [], 0, 0, 0)
  }

  /** What is left open in a step: whether a call fails, what a write leaves in the buffer, and a number
      (writes to come, or the cases that failed). */
  datatype Choice = Choice(fails: bool, content: Content, number: nat)

  datatype Process = Creator | Importer

  predicate CreatorEnded(s: State) { s.cFailed || s.c.CDone? }

  predicate ImporterEnded(s: State) { s.iFailed || s.i.IDone? }

  predicate CreatorWaits(s: State) { s.c.CWaitMapped? || s.c.CWaitImporter? || s.c.CWaitUnmapped? }

  predicate ImporterWaits(s: State) { s.i.IWaitToken? || s.i.IWaitIo? || s.i.IWaitFinal? }

  /** A process waiting for a word can go on when there is one, or when the other end is closed. */
  predicate CanMove(s: State, p: Process) {
    match p
    case Creator => !CreatorEnded(s) && (CreatorWaits(s) ==> s.toCreator != [] || ImporterEnded(s))
    case Importer => !ImporterEnded(s) && (ImporterWaits(s) ==> s.toImporter != [] || CreatorEnded(s))
  }

  function FailCreator(s: State): State { s.(cFailed := true) }

  /** The importer's allocation is unmapped on the way out. */
  function FailImporter(s: State): State { s.(iFailed := true, mapped := false) }

  function CreatorSends(s: State, word: nat, next: CreatorPc): State {
    if ImporterEnded(s) then FailCreator(s) else s.(toImporter := s.toImporter + [word], c := next)
  }

  function ImporterSends(s: State, word: nat, next: ImporterPc): State {
    if CreatorEnded(s) then FailImporter(s) else s.(toCreator := s.toCreator + [word], i := next)
  }

  function CreatorStep(s: State, choice: Choice): State
    requires CanMove(s, Creator)
  {
    if choice.fails then FailCreator(s)
    else if CreatorWaits(s) then
      if s.toCreator == [] then FailCreator(s)
      else
        var word, t := s.toCreator[0], s.(toCreator := s.toCreator[1..]);
        if s.c.CWaitImporter? then t.(c := CThird, total := t.total + word)
        else if word != 0 then FailCreator(t)
        else if s.c.CWaitMapped? then t.(c := CSecond)
        else t.(c := CDone)
    else if s.c.CFirst? then CreatorSends(s.(memory := Seed(101)), TOKEN, CWaitMapped)
    else if s.c.CSecond? then
      if s.memory == Seed(202) then s.(c := CIo(choice.number)) else FailCreator(s)
    else if s.c.CIo? then
      if s.c.left > 0 then s.(memory := choice.content, c := CIo(s.c.left - 1))
      else CreatorSends(s.(memory := Seed(303), cCases := choice.number, total := choice.number), 303, CWaitImporter)
    else if s.c.CThird? && s.memory == Seed(404) then CreatorSends(s, 0, CWaitUnmapped)
    else FailCreator(s)
  }

  function ImporterStep(s: State, choice: Choice): State
    requires CanMove(s, Importer)
  {
    if choice.fails then FailImporter(s)
    else if ImporterWaits(s) then
      if s.toImporter == [] then FailImporter(s)
      else
        var word, t := s.toImporter[0], s.(toImporter := s.toImporter[1..]);
        if s.i.IWaitToken? then t.(i := IImport)
        else if s.i.IWaitIo? then (if word == 303 then t.(i := ISecond) else FailImporter(t))
        else if word == 0 then t.(i := IUnmap) else FailImporter(t)
    else if s.i.IImport? then s.(i := IFirst, mapped := true)
    else if s.i.IFirst? then
      if s.memory == Seed(101) then s.(i := IFill(choice.number)) else FailImporter(s)
    else if s.i.IFill? then
      if s.i.left > 0 then s.(memory := choice.content, i := IFill(s.i.left - 1))
      else ImporterSends(s.(memory := Seed(202)), 0, IWaitIo)
    else if s.i.ISecond? then
      if s.memory == Seed(303) then s.(i := IIo(choice.number)) else FailImporter(s)
    else if s.i.IIo? then
      if s.i.left > 0 then s.(memory := choice.content, i := IIo(s.i.left - 1))
      else ImporterSends(s.(memory := Seed(404), iCases := choice.number), choice.number, IWaitFinal)
    else ImporterSends(s.(mapped := false), 0, IDone)
  }

  function Step(s: State, p: Process, choice: Choice): State
    requires CanMove(s, p)
  {
    match p
    case Creator => CreatorStep(s, choice)
    case Importer => ImporterStep(s, choice)
  }

  /* ---- what always holds ---- */

  function CreatorSent(c: CreatorPc): nat {
    if c.CFirst? then 0
    else if c.CWaitMapped? || c.CSecond? || c.CIo? then 1
    else if c.CWaitImporter? || c.CThird? then 2
    else 3
  }

  function CreatorGot(c: CreatorPc): nat {
    if c.CFirst? || c.CWaitMapped? then 0
    else if c.CSecond? || c.CIo? || c.CWaitImporter? then 1
    else if c.CThird? || c.CWaitUnmapped? then 2
    else 3
  }

  function ImporterSent(i: ImporterPc): nat {
    if i.IWaitToken? || i.IImport? || i.IFirst? || i.IFill? then 0
    else if i.IWaitIo? || i.ISecond? || i.IIo? then 1
    else if i.IWaitFinal? || i.IUnmap? then 2
    else 3
  }

  function ImporterGot(i: ImporterPc): nat {
    if i.IWaitToken? then 0
    else if i.IImport? || i.IFirst? || i.IFill? || i.IWaitIo? then 1
    else if i.ISecond? || i.IIo? || i.IWaitFinal? then 2
    else 3
  }

  const CREATOR_WORDS: seq<nat> := [TOKEN, 303, 0]

  /** The words under way are exactly those sent and not yet received, and they are the ones meant. A
      failed process may have taken one word more than its place says. */
  predicate Queues(s: State) {
    && ImporterGot(s.i) <= CreatorSent(s.c) && CreatorGot(s.c) <= ImporterSent(s.i)
    && (!s.iFailed ==> s.toImporter == CREATOR_WORDS[ImporterGot(s.i)..CreatorSent(s.c)])
    && (!s.cFailed ==> |s.toCreator| == ImporterSent(s.i) - CreatorGot(s.c))
    && (!s.cFailed ==> forall k :: 0 <= k < |s.toCreator| && CreatorGot(s.c) + k != 1 ==> s.toCreator[k] == 0)
  }

  /** The content of the buffer whenever its next user looks at it. */
  predicate Handed(s: State) {
    && (CreatorSent(s.c) >= 1 && (s.i.IWaitToken? || s.i.IImport? || s.i.IFirst?) ==> s.memory == Seed(101))
    && (s.i.IWaitIo? && (s.c.CWaitMapped? || s.c.CSecond?) ==> s.memory == Seed(202))
    && (CreatorSent(s.c) >= 2 && (s.i.IWaitIo? || s.i.ISecond?) ==> s.memory == Seed(303))
    && (ImporterSent(s.i) >= 2 ==> s.memory == Seed(404))
  }

  predicate Mapped(s: State) {
    s.mapped <==> !s.iFailed && !s.i.IWaitToken? && !s.i.IImport? && !s.i.IDone?
  }

  /** The count that the importer sends arrives unchanged and is added once. */
  predicate Counted(s: State) {
    !s.cFailed ==>
      && (CreatorSent(s.c) >= 2 && CreatorGot(s.c) < 2 ==> s.total == s.cCases)
      && (CreatorGot(s.c) >= 2 ==> s.total == s.cCases + s.iCases)
      && (ImporterSent(s.i) >= 2 && CreatorGot(s.c) < 2 ==>
            1 - CreatorGot(s.c) < |s.toCreator| && s.toCreator[1 - CreatorGot(s.c)] == s.iCases)
  }

  predicate Inv(s: State) { Queues(s) && Handed(s) && Mapped(s) && Counted(s) }

  /** Failing changes nothing that the invariant speaks of. */
  lemma FailKeeps(s: State)
    requires Inv(s)
    ensures Inv(FailCreator(s)) && Inv(FailImporter(s))
  {
  }

  lemma InitHolds(content: Content)
    ensures Inv(Init(content))
  {
  }

  lemma CreatorReceives(s: State, next: CreatorPc)
    requires Inv(s) && !s.cFailed && s.toCreator != [] && CreatorWaits(s)
    requires next == if s.c.CWaitMapped? then CSecond else if s.c.CWaitImporter? then CThird else CDone
    ensures Inv(s.(toCreator := s.toCreator[1..], c := next,
                   total := s.total + if s.c.CWaitImporter? then s.toCreator[0] else 0))
    ensures !s.c.CWaitImporter? ==> s.toCreator[0] == 0
  {
    assert |s.toCreator| == 1;
  }

  lemma CreatorSendsWord(s: State, word: nat, next: CreatorPc)
    requires Queues(s) && Mapped(s) && !s.cFailed
    requires CreatorSent(next) == CreatorSent(s.c) + 1 && CreatorGot(next) == CreatorGot(s.c)
    requires word == CREATOR_WORDS[CreatorSent(s.c)]
    ensures Queues(CreatorSends(s, word, next)) && Mapped(CreatorSends(s, word, next))
  {
  }

  lemma CreatorCounts(s: State, choice: Choice)
    requires Inv(s) && CanMove(s, Creator)
    ensures Counted(CreatorStep(s, choice))
  {
  }

  lemma CreatorKeeps(s: State, choice: Choice)
    requires Inv(s) && CanMove(s, Creator)
    ensures Inv(CreatorStep(s, choice))
  {
    CreatorCounts(s, choice);
    hide Counted;
    FailKeeps(s);
    if CreatorWaits(s) && s.toCreator != [] && !choice.fails {
      CreatorReceives(s, if s.c.CWaitMapped? then CSecond else if s.c.CWaitImporter? then CThird else CDone);
    } else if s.c.CFirst? && !choice.fails {
      CreatorSendsWord(s.(memory := Seed(101)), TOKEN, CWaitMapped);
    } else if s.c.CIo? && s.c.left == 0 && !choice.fails {
      CreatorSendsWord(s.(memory := Seed(303), cCases := choice.number, total := choice.number), 303, CWaitImporter);
    } else if s.c.CThird? && !choice.fails && s.memory == Seed(404) {
      CreatorSendsWord(s, 0, CWaitUnmapped);
    }
  }

  lemma ImporterReceives(s: State, next: ImporterPc)
    requires Inv(s) && !s.iFailed && s.toImporter != [] && ImporterWaits(s)
    requires next == if s.i.IWaitToken? then IImport else if s.i.IWaitIo? then ISecond else IUnmap
    ensures Inv(s.(toImporter := s.toImporter[1..], i := next))
    ensures s.toImporter[0] == CREATOR_WORDS[ImporterGot(s.i)]
  {
  }

  lemma ImporterSendsWord(s: State, word: nat, next: ImporterPc)
    requires Queues(s) && !s.iFailed
    requires ImporterSent(next) == ImporterSent(s.i) + 1 && ImporterGot(next) == ImporterGot(s.i)
    requires ImporterSent(s.i) != 1 ==> word == 0
    ensures Queues(ImporterSends(s, word, next))
  {
  }

  lemma ImporterCounts(s: State, choice: Choice)
    requires Inv(s) && CanMove(s, Importer)
    ensures Counted(ImporterStep(s, choice))
  {
  }

  lemma ImporterKeeps(s: State, choice: Choice)
    requires Inv(s) && CanMove(s, Importer)
    ensures Inv(ImporterStep(s, choice))
  {
    ImporterCounts(s, choice);
    hide Counted;
    FailKeeps(s);
    if ImporterWaits(s) && s.toImporter != [] && !choice.fails {
      ImporterReceives(s, if s.i.IWaitToken? then IImport else if s.i.IWaitIo? then ISecond else IUnmap);
    } else if s.i.IFill? && s.i.left == 0 && !choice.fails {
      ImporterSendsWord(s.(memory := Seed(202)), 0, IWaitIo);
    } else if s.i.IIo? && s.i.left == 0 && !choice.fails {
      ImporterSendsWord(s.(memory := Seed(404), iCases := choice.number), choice.number, IWaitFinal);
    } else if s.i.IUnmap? && !choice.fails {
      ImporterSendsWord(s.(mapped := false), 0, IDone);
    }
  }

  /** A run: the states after each move. */
  ghost predicate IsRun(states: seq<State>, content: Content) {
    && states != [] && states[0] == Init(content)
    && forall k :: 0 <= k < |states| - 1 ==> StepAt(states, k)
  }

  ghost predicate StepAt(states: seq<State>, k: nat)
    requires k + 1 < |states|
  {
    exists p, choice :: CanMove(states[k], p) && states[k + 1] == Step(states[k], p, choice)
  }

  lemma {:induction false} RunKeeps(states: seq<State>, content: Content, k: nat)
    requires IsRun(states, content) && k < |states|
    ensures Inv(states[k])
  {
    if k == 0 {
      InitHolds(content);
    } else {
      RunKeeps(states, content, k - 1);
      assert StepAt(states, k - 1);
      var p, choice :| CanMove(states[k - 1], p) && states[k] == Step(states[k - 1], p, choice);
      if p.Creator? {
        CreatorKeeps(states[k - 1], choice);
      } else {
        ImporterKeeps(states[k - 1], choice);
      }
    }
  }

  /* ---- the theorems ---- */

  /** The creator reads or writes the buffer. */
  predicate CreatorTouches(s: State) {
    !s.cFailed && (s.c.CFirst? || s.c.CSecond? || s.c.CIo? || s.c.CThird?)
  }

  predicate ImporterTouches(s: State) {
    !s.iFailed && (s.i.IFirst? || s.i.IFill? || s.i.ISecond? || s.i.IIo?)
  }

  /** The two never touch the buffer at the same time, in any run, whatever fails. */
  lemma NeverBoth(states: seq<State>, content: Content, k: nat)
    requires IsRun(states, content) && k < |states|
    ensures !(CreatorTouches(states[k]) && ImporterTouches(states[k]))
  {
    RunKeeps(states, content, k);
  }

  /** Every check finds the seed that the other side last left. */
  lemma ChecksFindTheirSeed(states: seq<State>, content: Content, k: nat)
    requires IsRun(states, content) && k < |states|
    ensures states[k].i.IFirst? ==> states[k].memory == Seed(101)
    ensures states[k].c.CSecond? ==> states[k].memory == Seed(202)
    ensures states[k].i.ISecond? ==> states[k].memory == Seed(303)
    ensures states[k].c.CThird? ==> states[k].memory == Seed(404)
  {
    RunKeeps(states, content, k);
  }

  /** When the creator comes to its end normally, and so frees the memory, the importer has unmapped it. */
  lemma FreedAfterUnmapped(states: seq<State>, content: Content, k: nat)
    requires IsRun(states, content) && k < |states|
    ensures states[k].c.CDone? && !states[k].cFailed ==> !states[k].mapped && states[k].i.IDone?
  {
    RunKeeps(states, content, k);
  }

  /** The creator ends normally with the failed cases of both processes counted, each once; so it reports
      success only if no I/O case has failed on either side. */
  lemma CountsBothSides(states: seq<State>, content: Content, k: nat)
    requires IsRun(states, content) && k < |states|
    requires states[k].c.CDone? && !states[k].cFailed
    ensures states[k].total == states[k].cCases + states[k].iCases
    ensures states[k].total == 0 <==> states[k].cCases == 0 && states[k].iCases == 0
  {
    RunKeeps(states, content, k);
  }

  /** One of the two can move until both have ended. */
  lemma NeverStuck(states: seq<State>, content: Content, k: nat)
    requires IsRun(states, content) && k < |states|
    requires !(CreatorEnded(states[k]) && ImporterEnded(states[k]))
    ensures CanMove(states[k], Creator) || CanMove(states[k], Importer)
  {
    RunKeeps(states, content, k);
  }

  function Stage(s: State): nat {
    (if s.cFailed then 0 else CreatorStage(s.c)) + (if s.iFailed then 0 else ImporterStage(s.i))
  }

  function CreatorStage(c: CreatorPc): nat {
    match c
    case CFirst => 8
    case CWaitMapped => 7
    case CSecond => 6
    case CIo(_) => 5
    case CWaitImporter => 4
    case CThird => 3
    case CWaitUnmapped => 2
    case CDone => 1
  }

  function ImporterStage(i: ImporterPc): nat {
    match i
    case IWaitToken => 10
    case IImport => 9
    case IFirst => 8
    case IFill(_) => 7
    case IWaitIo => 6
    case ISecond => 5
    case IIo(_) => 4
    case IWaitFinal => 3
    case IUnmap => 2
    case IDone => 1
  }

  function WritesLeft(s: State): nat {
    (if s.c.CIo? then s.c.left else 0) + (if s.i.IFill? || s.i.IIo? then s.i.left else 0)
  }

  predicate Forward(s: State, t: State) {
    Stage(t) < Stage(s) || (Stage(t) == Stage(s) && WritesLeft(t) < WritesLeft(s))
  }

  lemma CreatorForward(s: State, choice: Choice)
    requires CanMove(s, Creator)
    ensures Forward(s, CreatorStep(s, choice))
  {
    var t := CreatorStep(s, choice);
    assert t.cFailed || CreatorStage(t.c) < CreatorStage(s.c) || (t.c.CIo? && s.c.CIo? && t.c.left < s.c.left);
  }

  lemma ImporterForward(s: State, choice: Choice)
    requires CanMove(s, Importer)
    ensures Forward(s, ImporterStep(s, choice))
  {
    var t := ImporterStep(s, choice);
    assert t.iFailed || ImporterStage(t.i) < ImporterStage(s.i)
        || (t.i.IFill? && s.i.IFill? && t.i.left < s.i.left) || (t.i.IIo? && s.i.IIo? && t.i.left < s.i.left);
  }

  /** Every move lowers the stage, or keeps it and uses up a write: every run ends. */
  lemma MovesGoForward(s: State, p: Process, choice: Choice)
    requires CanMove(s, p)
    ensures Forward(s, Step(s, p, choice))
  {
    if p.Creator? {
      CreatorForward(s, choice);
    } else {
      ImporterForward(s, choice);
    }
  }

  lemma NoFailureStep(s: State, p: Process, choice: Choice)
    requires Inv(s) && CanMove(s, p) && !s.cFailed && !s.iFailed && !choice.fails
    ensures !Step(s, p, choice).cFailed && !Step(s, p, choice).iFailed
  {
    if p.Creator? && CreatorWaits(s) && s.toCreator != [] {
      CreatorReceives(s, if s.c.CWaitMapped? then CSecond else if s.c.CWaitImporter? then CThird else CDone);
    }
    if p.Importer? && ImporterWaits(s) && s.toImporter != [] {
      ImporterReceives(s, if s.i.IWaitToken? then IImport else if s.i.IWaitIo? then ISecond else IUnmap);
    }
  }

  /** A run in which no call fails. */
  ghost predicate IsSmoothRun(states: seq<State>, content: Content) {
    && states != [] && states[0] == Init(content)
    && forall k :: 0 <= k < |states| - 1 ==> SmoothAt(states, k)
  }

  ghost predicate SmoothAt(states: seq<State>, k: nat)
    requires k + 1 < |states|
  {
    SmoothStep(states[k], states[k + 1])
  }

  ghost predicate SmoothStep(s: State, t: State) {
    exists p: Process, choice: Choice :: CanMove(s, p) && !choice.fails && t == Step(s, p, choice)
  }

  lemma {:induction false} SmoothKeeps(states: seq<State>, content: Content, k: nat)
    requires IsSmoothRun(states, content) && k < |states|
    ensures Inv(states[k]) && !states[k].cFailed && !states[k].iFailed
  {
    if k == 0 {
      InitHolds(content);
    } else {
      SmoothKeeps(states, content, k - 1);
      assert SmoothAt(states, k - 1);
      var p: Process, choice: Choice :| CanMove(states[k - 1], p) && !choice.fails
        && states[k] == Step(states[k - 1], p, choice);
      NoFailureStep(states[k - 1], p, choice);
      if p.Creator? {
        CreatorKeeps(states[k - 1], choice);
      } else {
        ImporterKeeps(states[k - 1], choice);
      }
    }
  }

  /** When no call fails, neither process ever fails; and a run that can go no further has ended well on
      both sides. */
  lemma NoSpuriousFailure(states: seq<State>, content: Content, k: nat)
    requires IsSmoothRun(states, content) && k < |states|
    ensures !states[k].cFailed && !states[k].iFailed
    ensures !CanMove(states[k], Creator) && !CanMove(states[k], Importer) ==>
      states[k].c.CDone? && states[k].i.IDone? && states[k].memory == Seed(404) && !states[k].mapped
  {
    SmoothKeeps(states, content, k);
  }
}
