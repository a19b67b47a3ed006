/** The fast-style death test of gtest-death-test.cc as two processes and a pipe: every
    interleaving of the parent that oversees and the child that executes the statement, with
    interrupted and failing system calls. */
module DeathTestProtocol {
  import opened Basics

  /** The wait status of a process. */
  datatype ExitStatus = Exited(code: int) | Signaled(signal: int)

  const SIGABRT := 6
  const SIGPIPE := 13

  /** How the statement under test ends in the child, and what it leaves on stderr. */
  datatype Ending =
    | Died(how: ExitStatus, output: string)
    | Returned(output: string)
    | Threw(output: string)
    | Lived(output: string)

  datatype AbortReason = EncounteredReturnStatement | ThrewException | DidNotDie

  datatype Outcome = InProgress | DIED | LIVED | RETURNED | THREW

  /** Where the parent is: before each of its system calls, or at an end. */
  datatype Parent =
    | ClosingWrite
    | Reading
    | ClosingRead
    | Waiting
    | Judging(status: ExitStatus)
    | Done(status: ExitStatus, passed: bool)
    | Fatal

  datatype Child =
    | ChildClosingRead
    | RunningStatement
    | Writing(flag: char)
    | Exiting
    | Dead(status: ExitStatus)
    | Reaped

  /** Both processes, the pipe with its four ends, and what has really happened: how the
      statement ended, whether a system call of the child failed, how many bytes were written
      and what the child left on stderr. */
  datatype State = State(
    parent: Parent,
    outcome: Outcome,
    parentRead: bool,
    parentWrite: bool,
    child: Child,
    childRead: bool,
    childWrite: bool,
    bytes: seq<char>,
    ended: Option<Ending>,
    childFault: bool,
    written: nat,
    stderr: string)

  /** Right after pipe() and fork(): both processes hold both ends. */
  const START := State(ClosingWrite, InProgress, true, true, ChildClosingRead, true, true, [], None, false, 0, "")

  datatype Step =
    | ParentClosesWrite
    | ParentReads
    | ParentClosesRead
    | ParentWaits
    | ParentJudges
    | ParentInterrupted
    | ParentFails
    | ChildClosesRead
    | StatementEnds(ending: Ending)
    | ChildWrites
    | ChildExits
    | ChildInterrupted
    | ChildFails(message: string)

  predicate Alive(c: Child) {
    !c.Dead? && !c.Reaped?
  }

  /** The reason that the macro gives to Abort: the sentinel's for a return, the handler's for
      an exception, and the last line's for a statement that lives. */
  function ReasonOf(e: Ending): AbortReason
    requires !e.Died?
  {
    match e
    case Returned(_) => EncounteredReturnStatement
    case Threw(_) => ThrewException
    case Lived(_) => DidNotDie
  }

  /** The status byte that Abort writes. */
  function FlagOf(reason: AbortReason): char {
    if reason == DidNotDie then 'L' else if reason == ThrewException then 'T' else 'R'
  }

  /** The parent's reading of a status byte; None is a fatal error. */
  function Interpret(flag: char): Option<Outcome> {
    match flag
    case 'R' => Some(RETURNED)
    case 'T' => Some(THREW)
    case 'L' => Some(LIVED)
    case _ => None
  }

  /** The child reports a return by R, an exception by T and survival by L, and the parent knows
      these three bytes only. */
  lemma StatusBytes(flag: char)
    ensures FlagOf(EncounteredReturnStatement) == 'R' && FlagOf(ThrewException) == 'T' && FlagOf(DidNotDie) == 'L'
    ensures Interpret('R') == Some(RETURNED) && Interpret('T') == Some(THREW) && Interpret('L') == Some(LIVED)
    ensures Interpret(flag).Some? <==> flag in ['R', 'T', 'L']
  {
  }

  /** Both ends of the parent close when it dies. */
  function Crash(s: State): State {
    s.(parent := Fatal, parentRead := false, parentWrite := false)
  }

  /** Both ends of the child close when it dies. */
  function Die(s: State, status: ExitStatus): State {
    s.(child := Dead(status), childRead := false, childWrite := false)
  }

  predicate NoWriter(s: State) {
    !s.parentWrite && !s.childWrite
  }

  predicate NoReader(s: State) {
    !s.parentRead && !s.childRead
  }

  /** What Passed computes; in progress it is a fatal error. */
  function Passed(outcome: Outcome, statusOk: bool, matched: bool): bool {
    outcome == DIED && statusOk && matched
  }

  /** One step, where it is possible.  The test accepts an exit status and a stderr text. */
  function Next(s: State, step: Step, accepts: ExitStatus -> bool, matches: string -> bool): Option<State> {
    match step
    case ParentClosesWrite =>
      if s.parent == ClosingWrite then Some(s.(parent := Reading, parentWrite := false)) else None
    case ParentReads =>
      if s.parent != Reading then None
      else if s.bytes != [] then
        match Interpret(s.bytes[0])
        case Some(o) => Some(s.(parent := ClosingRead, bytes := s.bytes[1..], outcome := o))
        case None => Some(Crash(s))
      else if NoWriter(s) then Some(s.(parent := ClosingRead, outcome := DIED))
      else None
    case ParentClosesRead =>
      if s.parent == ClosingRead then Some(s.(parent := Waiting, parentRead := false)) else None
    case ParentWaits =>
      if s.parent == Waiting && s.child.Dead? then Some(s.(parent := Judging(s.child.status), child := Reaped))
      else None
    case ParentJudges =>
      if !s.parent.Judging? then None
      else if s.outcome == InProgress then Some(Crash(s))
      else
        var status := s.parent.status;
        Some(s.(parent := Done(status, Passed(s.outcome, accepts(status), matches(s.stderr)))))
    case ParentInterrupted =>
      if s.parent in {ClosingWrite, Reading, ClosingRead, Waiting} then Some(s) else None
    case ParentFails =>
      if s.parent in {ClosingWrite, Reading, ClosingRead, Waiting} then Some(Crash(s)) else None
    case ChildClosesRead =>
      if s.child == ChildClosingRead then Some(s.(child := RunningStatement, childRead := false)) else None
    case StatementEnds(e) =>
      if s.child != RunningStatement then None
      else
        var t := s.(ended := Some(e), stderr := s.stderr + e.output);
        Some(if e.Died? then Die(t, e.how) else t.(child := Writing(FlagOf(ReasonOf(e)))))
    case ChildWrites =>
      if !s.child.Writing? then None
      else if NoReader(s) then Some(Die(s, Signaled(SIGPIPE)))
      else Some(s.(child := Exiting, bytes := s.bytes + [s.child.flag], written := s.written + 1))
    case ChildExits =>
      if s.child == Exiting then Some(Die(s, Exited(1))) else None
    case ChildInterrupted =>
      if s.child == ChildClosingRead || s.child.Writing? then Some(s) else None
    case ChildFails(message) =>
      if s.child == ChildClosingRead || s.child.Writing? then
        Some(Die(s.(childFault := true, stderr := s.stderr + message), Signaled(SIGABRT)))
      else None
  }

  /** A call can be interrupted or fail wherever a process makes one; an interruption changes
      nothing and a failure ends the process. */
  lemma WhereCallsFail(s: State, message: string, accepts: ExitStatus -> bool, matches: string -> bool)
    ensures Next(s, ChildInterrupted, accepts, matches)
         == if Next(s, ChildClosesRead, accepts, matches).Some? || Next(s, ChildWrites, accepts, matches).Some?
            then Some(s) else None
    ensures Next(s, ChildFails(message), accepts, matches).Some? <==> Next(s, ChildInterrupted, accepts, matches).Some?
    ensures Next(s, ChildFails(message), accepts, matches).Some? ==>
              Next(s, ChildFails(message), accepts, matches).value.child == Dead(Signaled(6))
    ensures Next(s, ParentInterrupted, accepts, matches)
         == if s.parent.Judging? || s.parent.Done? || s.parent.Fatal? then None else Some(s)
    ensures Next(s, ParentFails, accepts, matches).Some? <==> Next(s, ParentInterrupted, accepts, matches).Some?
    ensures Next(s, ParentFails, accepts, matches).Some? ==>
              Next(s, ParentFails, accepts, matches).value.parent == Fatal
  {
  }

  // ---------- Runs ----------

  function Run(s: State, steps: seq<Step>, accepts: ExitStatus -> bool, matches: string -> bool): Option<State>
    decreases |steps|
  {
    if steps == [] then Some(s)
    else
      match Next(s, steps[0], accepts, matches)
      case None => None
      case Some(t) => Run(t, steps[1..], accepts, matches)
  }

  function OutcomeOf(e: Ending): Outcome {
    match e
    case Died(_, _) => DIED
    case Returned(_) => RETURNED
    case Threw(_) => THREW
    case Lived(_) => LIVED
  }

  /** What the parent must conclude: a child that could not report counts as dead. */
  function TrueOutcome(s: State): Outcome {
    if s.childFault then DIED else if s.ended.None? then InProgress else OutcomeOf(s.ended.value)
  }

  ghost predicate ParentInv(s: State) {
    match s.parent
    case ClosingWrite => s.outcome == InProgress && s.parentRead && s.parentWrite
    case Reading => s.outcome == InProgress && s.parentRead && !s.parentWrite
    case ClosingRead => s.outcome != InProgress && s.parentRead && !s.parentWrite && s.bytes == []
    case Waiting => s.outcome != InProgress && !s.parentRead && !s.parentWrite && s.bytes == []
    case Judging(st) => s.outcome != InProgress && !s.parentWrite && s.child == Reaped
    case Done(_, _) => s.outcome != InProgress && !s.parentWrite && s.child == Reaped
    case Fatal => !s.parentRead && !s.parentWrite
  }

  /** What the child has done so far. */
  ghost predicate ChildInv(s: State) {
    match s.child
    case ChildClosingRead => s.childRead && s.childWrite && s.ended.None? && !s.childFault && s.written == 0
    case RunningStatement => !s.childRead && s.childWrite && s.ended.None? && !s.childFault && s.written == 0
    case Writing(flag) =>
      !s.childRead && s.childWrite && !s.childFault && s.written == 0
      && s.ended.Some? && !s.ended.value.Died? && flag == FlagOf(ReasonOf(s.ended.value))
    case Exiting =>
      !s.childRead && s.childWrite && !s.childFault && s.written == 1
      && s.ended.Some? && !s.ended.value.Died?
    case _ => DeadInv(s)
  }

  /** A dead child died in the statement, after its report, or because a call of its own failed
      or the parent was gone. */
  ghost predicate DeadInv(s: State) {
    && !s.childRead && !s.childWrite
    && (s.childFault ==> s.written == 0 && (s.ended.Some? ==> !s.ended.value.Died?))
    && (!s.childFault ==> s.ended.Some?)
    && (!s.childFault && s.ended.value.Died? ==> s.written == 0)
    && (!s.childFault && !s.ended.value.Died? ==> s.written == 1 || s.parent == Fatal)
  }

  ghost predicate PipeInv(s: State) {
    && s.written <= 1
    && (s.written == 1 ==> s.ended.Some? && !s.ended.value.Died? && !s.childFault)
    && (s.bytes != [] ==> s.written == 1 && s.bytes == [FlagOf(ReasonOf(s.ended.value))])
    && (s.outcome == InProgress && s.written == 1 ==> s.bytes != [] || s.parent == Fatal)
    && (s.outcome != InProgress ==> s.child == Exiting || !Alive(s.child))
    && (s.child == Reaped ==> s.parent.Judging? || s.parent.Done? || s.parent == Fatal)
  }

  /** The exit status that the child leaves, read off what happened. */
  ghost predicate StatusIs(s: State, status: ExitStatus) {
    && (s.childFault ==> status == Signaled(SIGABRT))
    && (!s.childFault && s.ended.Some? && s.ended.value.Died? ==> status == s.ended.value.how)
    && (!s.childFault && s.ended.Some? && !s.ended.value.Died? && s.parent != Fatal ==> status == Exited(1))
  }

  ghost predicate Inv(s: State) {
    && ParentInv(s) && ChildInv(s) && PipeInv(s)
    && (s.outcome != InProgress && s.parent != Fatal ==> s.outcome == TrueOutcome(s))
    && (s.child.Dead? ==> StatusIs(s, s.child.status))
    && (s.parent.Judging? || s.parent.Done? ==> StatusIs(s, s.parent.status))
    && (!s.childFault ==> s.stderr == if s.ended.Some? then s.ended.value.output else "")
  }

  lemma StepKeepsInv(s: State, step: Step, accepts: ExitStatus -> bool, matches: string -> bool)
    requires Inv(s) && Next(s, step, accepts, matches).Some?
    ensures Inv(Next(s, step, accepts, matches).value)
  {
    hide *;
    if IsParentStep(step) {
      ParentStepKeepsInv(s, step, accepts, matches);
    } else {
      ChildStepKeepsInv(s, step, accepts, matches);
    }
  }

  predicate IsParentStep(step: Step) {
    match step
    case ParentClosesWrite | ParentReads | ParentClosesRead | ParentWaits
       | ParentJudges | ParentInterrupted | ParentFails => true
    case _ => false
  }

  lemma ParentStepKeepsInv(s: State, step: Step, accepts: ExitStatus -> bool, matches: string -> bool)
    requires Inv(s) && IsParentStep(step) && Next(s, step, accepts, matches).Some?
    ensures Inv(Next(s, step, accepts, matches).value)
  {
  }

  lemma ChildStepKeepsInv(s: State, step: Step, accepts: ExitStatus -> bool, matches: string -> bool)
    requires Inv(s) && !IsParentStep(step) && Next(s, step, accepts, matches).Some?
    ensures Inv(Next(s, step, accepts, matches).value)
  {
  }

  lemma {:induction false} RunKeepsInv(s: State, steps: seq<Step>, accepts: ExitStatus -> bool, matches: string -> bool)
    requires Inv(s) && Run(s, steps, accepts, matches).Some?
    ensures Inv(Run(s, steps, accepts, matches).value)
    decreases |steps|
  {
    if steps != [] {
      StepKeepsInv(s, steps[0], accepts, matches);
      RunKeepsInv(Next(s, steps[0], accepts, matches).value, steps[1..], accepts, matches);
    }
  }

  ghost predicate Reachable(s: State, accepts: ExitStatus -> bool, matches: string -> bool) {
    exists steps: seq<Step> :: Run(START, steps, accepts, matches) == Some(s)
  }

  lemma ReachableInv(s: State, accepts: ExitStatus -> bool, matches: string -> bool)
    requires Reachable(s, accepts, matches)
    ensures Inv(s)
  {
    var steps: seq<Step> :| Run(START, steps, accepts, matches) == Some(s);
    RunKeepsInv(START, steps, accepts, matches);
  }

  // ---------- What holds in every interleaving ----------

  /** The child reports at most once, and only for a statement that did not die. */
  lemma AtMostOneByte(s: State, accepts: ExitStatus -> bool, matches: string -> bool)
    requires Reachable(s, accepts, matches)
    ensures s.written <= 1 && |s.bytes| <= s.written
    ensures s.written == 1 ==> s.ended.Some? && !s.ended.value.Died?
  {
    ReachableInv(s, accepts, matches);
  }

  /** Once the parent has an outcome it is how the statement really ended, exactly if no system
      call of the child failed; a child that failed counts as dead. */
  lemma OutcomeIsEnding(s: State, accepts: ExitStatus -> bool, matches: string -> bool)
    requires Reachable(s, accepts, matches) && s.outcome != InProgress && s.parent != Fatal
    ensures (s.ended.Some? && s.outcome == OutcomeOf(s.ended.value)) <==> !s.childFault
    ensures s.childFault ==> s.outcome == DIED
  {
    ReachableInv(s, accepts, matches);
  }

  /** A parent that is blocked in read on the empty pipe has a live child that holds the only
      write end and can go on. */
  lemma BlockedParentHasLiveChild(s: State, accepts: ExitStatus -> bool, matches: string -> bool)
    requires Reachable(s, accepts, matches) && s.parent == Reading
    requires Next(s, ParentReads, accepts, matches).None?
    ensures s.bytes == [] && Alive(s.child) && s.childWrite && !s.parentWrite
    ensures Next(s, Onward(s), accepts, matches).Some? && Onward(s) != ParentReads
  {
    ReachableInv(s, accepts, matches);
  }

  /** The test passes exactly if the statement died with an accepted status and matching
      stderr, as long as no system call of the child failed. */
  lemma PassedIff(s: State, accepts: ExitStatus -> bool, matches: string -> bool)
    requires Reachable(s, accepts, matches) && s.parent.Done? && !s.childFault
    ensures s.ended.Some?
    ensures DoneRight(s, accepts, matches)
    ensures s.parent.passed <==>
        s.ended.value.Died? && accepts(s.ended.value.how) && matches(s.ended.value.output)
  {
    var steps: seq<Step> :| Run(START, steps, accepts, matches) == Some(s);
    RunKeepsInv(START, steps, accepts, matches);
    RunDoneRight(START, steps, accepts, matches);
  }

  /** The exit status that is judged: 6 is the signal of an abort, and a child that reported has
      exited with 1. */
  lemma JudgedStatus(s: State, accepts: ExitStatus -> bool, matches: string -> bool)
    requires Reachable(s, accepts, matches) && s.parent.Done?
    ensures s.parent.status ==
      if s.childFault then Signaled(6)
      else if s.ended.Some? && s.ended.value.Died? then s.ended.value.how
      else Exited(1)
  {
    ReachableInv(s, accepts, matches);
  }

  /** If one did fail, the verdict is about the aborted child. */
  lemma PassedAfterFault(s: State, accepts: ExitStatus -> bool, matches: string -> bool)
    requires Reachable(s, accepts, matches) && s.parent.Done? && s.childFault
    ensures s.parent.passed <==> accepts(Signaled(SIGABRT)) && matches(s.stderr)
  {
    var steps: seq<Step> :| Run(START, steps, accepts, matches) == Some(s);
    RunKeepsInv(START, steps, accepts, matches);
    RunDoneRight(START, steps, accepts, matches);
  }

  /** The death that the test asks for. */
  ghost predicate DiedAsAsked(s: State, accepts: ExitStatus -> bool, matches: string -> bool) {
    && s.ended.Some? && s.ended.value.Died?
    && accepts(s.ended.value.how) && matches(s.ended.value.output)
  }

  /** Exactly when a test passes that should not: a call of the child failed, before or after
      the statement, and the abort that follows is accepted. */
  lemma WrongPassIff(s: State, accepts: ExitStatus -> bool, matches: string -> bool)
    requires Reachable(s, accepts, matches) && s.parent.Done?
    ensures (s.parent.passed && !DiedAsAsked(s, accepts, matches))
            <==> (s.childFault && accepts(Signaled(SIGABRT)) && matches(s.stderr))
    ensures DiedAsAsked(s, accepts, matches) ==> s.parent.passed
  {
    ReachableInv(s, accepts, matches);
    if s.childFault {
      PassedAfterFault(s, accepts, matches);
    } else {
      PassedIff(s, accepts, matches);
    }
  }

  /** The verdict is the one that the final state calls for. */
  ghost predicate DoneRight(s: State, accepts: ExitStatus -> bool, matches: string -> bool) {
    s.parent.Done? ==> s.parent.passed == Passed(s.outcome, accepts(s.parent.status), matches(s.stderr))
  }

  lemma StepDoneRight(s: State, step: Step, accepts: ExitStatus -> bool, matches: string -> bool)
    requires Inv(s) && DoneRight(s, accepts, matches) && Next(s, step, accepts, matches).Some?
    ensures DoneRight(Next(s, step, accepts, matches).value, accepts, matches)
  {
  }

  lemma {:induction false} RunDoneRight(s: State, steps: seq<Step>, accepts: ExitStatus -> bool,
                                        matches: string -> bool)
    requires Inv(s) && DoneRight(s, accepts, matches) && Run(s, steps, accepts, matches).Some?
    ensures DoneRight(Run(s, steps, accepts, matches).value, accepts, matches)
    decreases |steps|
  {
    hide Next, Inv, DoneRight;
    if steps != [] {
      StepKeepsInv(s, steps[0], accepts, matches);
      StepDoneRight(s, steps[0], accepts, matches);
      RunDoneRight(Next(s, steps[0], accepts, matches).value, steps[1..], accepts, matches);
    }
  }

  /** Only a failing system call of its own stops the parent: it never reads an unknown status
      byte and never judges a test that is in progress. */
  lemma OnlyFailureIsFatal(s: State, step: Step, accepts: ExitStatus -> bool, matches: string -> bool)
    requires Reachable(s, accepts, matches) && s.parent != Fatal
    requires Next(s, step, accepts, matches).Some? && Next(s, step, accepts, matches).value.parent == Fatal
    ensures step == ParentFails
  {
    ReachableInv(s, accepts, matches);
  }

  // ---------- No deadlock, no endless run ----------

  /** Nothing is left to do. */
  predicate Finished(s: State) {
    (s.parent.Done? || s.parent == Fatal) && !Alive(s.child)
  }

  /** A step that is neither a failure nor a retry; a running statement is taken to end. */
  function Onward(s: State): Step {
    match s.child
    case ChildClosingRead => ChildClosesRead
    case RunningStatement => StatementEnds(Lived(""))
    case Writing(_) => ChildWrites
    case Exiting => ChildExits
    case _ =>
      match s.parent
      case ClosingWrite => ParentClosesWrite
      case Reading => ParentReads
      case ClosingRead => ParentClosesRead
      case Waiting => ParentWaits
      case _ => ParentJudges
  }

  /** Wherever the processes are, one of them can go on, until both are done. */
  lemma NoDeadlock(s: State, accepts: ExitStatus -> bool, matches: string -> bool)
    requires Reachable(s, accepts, matches) && !Finished(s)
    ensures Next(s, Onward(s), accepts, matches).Some?
    ensures Remaining(Next(s, Onward(s), accepts, matches).value) < Remaining(s)
  {
    hide StatusIs, TrueOutcome, Reachable;
    ReachableInv(s, accepts, matches);
  }

  function ParentRemaining(p: Parent): nat {
    match p
    case ClosingWrite => 5
    case Reading => 4
    case ClosingRead => 3
    case Waiting => 2
    case Judging(_) => 1
    case _ => 0
  }

  function ChildRemaining(c: Child): nat {
    match c
    case ChildClosingRead => 4
    case RunningStatement => 3
    case Writing(_) => 2
    case Exiting => 1
    case _ => 0
  }

  function Remaining(s: State): nat {
    ParentRemaining(s.parent) + ChildRemaining(s.child)
  }

  predicate IsRetry(step: Step) {
    step == ParentInterrupted || step == ChildInterrupted
  }

  function Moves(steps: seq<Step>): nat
    decreases |steps|
  {
    if steps == [] then 0 else (if IsRetry(steps[0]) then 0 else 1) + Moves(steps[1..])
  }

  /** Interrupted calls apart, no run has more than nine steps. */
  lemma {:induction false} RunsEnd(s: State, steps: seq<Step>, accepts: ExitStatus -> bool, matches: string -> bool)
    requires Run(s, steps, accepts, matches).Some?
    ensures Moves(steps) + Remaining(Run(s, steps, accepts, matches).value) <= Remaining(s)
    decreases |steps|
  {
    if steps != [] {
      var t := Next(s, steps[0], accepts, matches).value;
      RunsEnd(t, steps[1..], accepts, matches);
      MoveCounts(s, steps[0], accepts, matches);
    }
  }

  lemma MoveCounts(s: State, step: Step, accepts: ExitStatus -> bool, matches: string -> bool)
    requires Next(s, step, accepts, matches).Some?
    ensures IsRetry(step) ==> Next(s, step, accepts, matches).value == s
    ensures !IsRetry(step) ==> Remaining(Next(s, step, accepts, matches).value) < Remaining(s)
  {
    hide *;
    if IsParentStep(step) {
      ParentMoveCounts(s, step, accepts, matches);
    } else {
      ChildMoveCounts(s, step, accepts, matches);
    }
  }

  lemma ParentMoveCounts(s: State, step: Step, accepts: ExitStatus -> bool, matches: string -> bool)
    requires IsParentStep(step) && Next(s, step, accepts, matches).Some?
    ensures IsRetry(step) ==> Next(s, step, accepts, matches).value == s
    ensures !IsRetry(step) ==> Remaining(Next(s, step, accepts, matches).value) < Remaining(s)
  {
    hide Passed, NoWriter, Interpret;
  }

  lemma ChildMoveCounts(s: State, step: Step, accepts: ExitStatus -> bool, matches: string -> bool)
    requires !IsParentStep(step) && Next(s, step, accepts, matches).Some?
    ensures IsRetry(step) ==> Next(s, step, accepts, matches).value == s
    ensures !IsRetry(step) ==> Remaining(Next(s, step, accepts, matches).value) < Remaining(s)
  {
    hide NoReader;
  }

  lemma {:induction false} RunLast(s: State, steps: seq<Step>, t: State, step: Step,
                                   accepts: ExitStatus -> bool, matches: string -> bool)
    requires Run(s, steps, accepts, matches) == Some(t)
    ensures Run(s, steps + [step], accepts, matches) == Next(t, step, accepts, matches)
    decreases |steps|
  {
    if steps == [] {
      assert ([step])[1..] == [] && steps + [step] == [step];
    } else {
      assert (steps + [step])[1..] == steps[1..] + [step];
      RunLast(Next(s, steps[0], accepts, matches).value, steps[1..], t, step, accepts, matches);
    }
  }

  lemma ReachableStep(s: State, step: Step, accepts: ExitStatus -> bool, matches: string -> bool)
    requires Reachable(s, accepts, matches) && Next(s, step, accepts, matches).Some?
    ensures Reachable(Next(s, step, accepts, matches).value, accepts, matches)
  {
    var steps: seq<Step> :| Run(START, steps, accepts, matches) == Some(s);
    RunLast(START, steps, s, step, accepts, matches);
  }

  /** The child of a statement that lived, which could not write its report. */
  function Unreported(message: string): State {
    State(Reading, InProgress, true, false, Dead(Signaled(SIGABRT)), false, false, [], Some(Lived("")), true, 0,
          message)
  }

  lemma StartReachable(accepts: ExitStatus -> bool, matches: string -> bool)
    ensures Reachable(START, accepts, matches)
  {
    assert Run(START, [], accepts, matches) == Some(START);
  }

  /** That child before its report. */
  const SURVIVOR :=
    State(Reading, InProgress, true, false, Writing('L'), false, true, [], Some(Lived("")), false, 0, "")

  lemma SurvivorReachable(accepts: ExitStatus -> bool, matches: string -> bool)
    ensures Reachable(SURVIVOR, accepts, matches)
  {
    var s1 := Next(START, ParentClosesWrite, accepts, matches).value;
    var s2 := Next(s1, ChildClosesRead, accepts, matches).value;
    hide Run, Reachable;
    StartReachable(accepts, matches);
    ReachableStep(START, ParentClosesWrite, accepts, matches);
    ReachableStep(s1, ChildClosesRead, accepts, matches);
    ReachableStep(s2, StatementEnds(Lived("")), accepts, matches);
    assert "" + "" == "";
  }

  lemma UnreportedReachable(message: string, accepts: ExitStatus -> bool, matches: string -> bool)
    ensures Reachable(Unreported(message), accepts, matches)
  {
    hide Run, Reachable;
    SurvivorReachable(accepts, matches);
    ReachableStep(SURVIVOR, ChildFails(message), accepts, matches);
    assert "" + message == message;
  }

  /** A statement that lives passes for a death if the child cannot write its report and the
      test accepts an abort with that message. */
  lemma LivedPassesIfReportFails(message: string, accepts: ExitStatus -> bool, matches: string -> bool)
    requires accepts(Signaled(SIGABRT)) && matches(message)
    ensures exists s: State ::
        Reachable(s, accepts, matches) && s.ended == Some(Lived("")) && s.parent == Done(Signaled(SIGABRT), true)
  {
    var s4 := Unreported(message);
    var s5 := Next(s4, ParentReads, accepts, matches).value;
    var s6 := Next(s5, ParentClosesRead, accepts, matches).value;
    var s7 := Next(s6, ParentWaits, accepts, matches).value;
    UnreportedReachable(message, accepts, matches);
    ReachableStep(s4, ParentReads, accepts, matches);
    ReachableStep(s5, ParentClosesRead, accepts, matches);
    ReachableStep(s6, ParentWaits, accepts, matches);
    ReachableStep(s7, ParentJudges, accepts, matches);
  }
}
