/** The parent's and the child's side of DeathTestImpl (gtest-death-test.cc), with their retry
    loops around system calls, proved against the steps of DeathTestProtocol: in every
    interleaving the objects end as the two processes of the protocol do. */
module DeathTestObject {
  import opened Basics
  import opened DeathTestProtocol

  /** What a system call answers; an interrupted one is made again. */
  datatype Answer<+T> = Success(value: T) | Interrupted | Failure

  /** The first answer that is not an interruption, if there is one. */
  function Settled<T>(answers: seq<Answer<T>>): Answer<T>
    decreases |answers|
  {
    if answers == [] then Interrupted
    else if !answers[0].Interrupted? then answers[0]
    else Settled(answers[1..])
  }

  lemma {:induction false} SettledIsFirst<T>(answers: seq<Answer<T>>, k: nat)
    requires k < |answers| && !answers[k].Interrupted?
    requires forall i :: 0 <= i < k ==> answers[i].Interrupted?
    ensures Settled(answers) == answers[k]
    decreases k
  {
    if k > 0 {
      SettledIsFirst(answers[1..], k - 1);
    }
  }

  /** The kernel is taken to give an answer at some time. */
  predicate Settles<T>(answers: seq<Answer<T>>) {
    !Settled(answers).Interrupted?
  }

  /** Repeats a system call as long as it is interrupted. */
  method Retry<T>(answers: seq<Answer<T>>) returns (answer: Answer<T>)
    requires Settles(answers)
    ensures answer == Settled(answers) && !answer.Interrupted?
  {
    var i := 0;
    answer := answers[i];
    while answer.Interrupted?
      invariant 0 <= i < |answers| && answer == answers[i]
      invariant Settled(answers[i..]) == Settled(answers)
      decreases |answers| - i
    {
      assert answers[i..][1..] == answers[i + 1..];
      i := i + 1;
      answer := answers[i];
    }
  }

  /** What the kernel answers to a read of one byte in a state of the protocol. */
  function KernelRead(s: State): Answer<Option<char>>
    requires s.bytes != [] || NoWriter(s)
  {
    if s.bytes != [] then Success(Some(s.bytes[0])) else Success(None)
  }

  /** The outcome that a settled read stands for; None is a fatal error. */
  function Concluded(answer: Answer<Option<char>>): Option<Outcome> {
    if !answer.Success? then None
    else if answer.value.None? then Some(DIED)
    else Interpret(answer.value.value)
  }

  /** What a process knows of the death test, and which ends of the pipe it has open. */
  datatype View = View(spawned: bool, status: Option<ExitStatus>, outcome: Outcome, readEnd: bool, writeEnd: bool)

  /** What a call leaves; a fatal error ends the process there. */
  datatype Upshot = Upshot(fatal: bool, view: View)

  /** Right after pipe() and fork(). */
  const FORKED := View(false, None, InProgress, true, true)

  function CloseWrite(v: View, close: Answer<()>): Upshot {
    if close.Failure? then Upshot(true, v) else Upshot(false, v.(writeEnd := false, spawned := true))
  }

  function CloseRead(v: View, close: Answer<()>): Upshot {
    if close.Failure? then Upshot(true, v) else Upshot(false, v.(readEnd := false))
  }

  function ReadStatus(v: View, read: Answer<Option<char>>, close: Answer<()>): Upshot {
    match Concluded(read)
    case None => Upshot(true, v)
    case Some(o) => CloseRead(v.(outcome := o), close)
  }

  function Reap(v: View, wait: Answer<ExitStatus>): Upshot {
    if wait.Success? then Upshot(false, v.(status := Some(wait.value))) else Upshot(true, v)
  }

  function ReadThenReap(v: View, read: Answer<Option<char>>, close: Answer<()>, wait: Answer<ExitStatus>): Upshot {
    var u := ReadStatus(v, read, close);
    if u.fatal then u else Reap(u.view, wait)
  }

  /** The verdict on a test; None is a fatal error. */
  function Judged(v: View, statusOk: bool, matched: bool): Option<bool> {
    if !v.spawned then Some(false)
    else if v.outcome == InProgress then None
    else Some(Passed(v.outcome, statusOk, matched))
  }

  datatype Role = OverseeTest | ExecuteTest | Aborted

  /** The child's report: the byte it writes, if it can, and the status it exits with. */
  datatype Report = Report(byte: Option<char>, exit: ExitStatus)

  function Reported(flag: char, write: Answer<()>): Report {
    if write.Success? then Report(Some(flag), Exited(1)) else Report(None, Signaled(SIGABRT))
  }

  class DeathTestImpl {
    var spawned: bool
    var status: Option<ExitStatus>
    var outcome: Outcome
    var readEnd: bool
    var writeEnd: bool

    function Value(): View
      reads this
    {
      View(spawned, status, outcome, readEnd, writeEnd)
    }

    constructor ()
      ensures Value() == View(false, None, InProgress, false, false)
    {
      spawned, status, outcome, readEnd, writeEnd := false, None, InProgress, false, false;
    }

    /** From pipe() and fork() on: each side closes the end of the pipe that it does not use. */
    method AssumeRole(inChild: bool, close: seq<Answer<()>>) returns (role: Role)
      requires Value() == View(false, None, InProgress, false, false) && Settles(close)
      modifies this
      ensures var u := if inChild then CloseRead(FORKED, Settled(close)) else CloseWrite(FORKED, Settled(close));
              && Value() == u.view
              && role == if u.fatal then Aborted else if inChild then ExecuteTest else OverseeTest
    {
      readEnd, writeEnd := true, true;
      var closed := Retry(close);
      if closed.Failure? {
        return Aborted;
      }
      if inChild {
        readEnd := false;
        return ExecuteTest;
      }
      writeEnd := false;
      spawned := true;
      return OverseeTest;
    }

    /** Reads the result code of the child, interprets it and closes the read end. */
    method ReadAndInterpretStatusByte(read: seq<Answer<Option<char>>>, close: seq<Answer<()>>) returns (fatal: bool)
      requires Settles(read) && Settles(close)
      modifies this`outcome, this`readEnd
      ensures Upshot(fatal, Value()) == ReadStatus(old(Value()), Settled(read), Settled(close))
    {
      var got := Retry(read);
      if !got.Success? {
        return true;
      }
      if got.value.None? {
        outcome := DIED;
      } else {
        match got.value.value {
          case 'R' => outcome := RETURNED;
          case 'T' => outcome := THREW;
          case 'L' => outcome := LIVED;
          case _ => return true;
        }
      }
      var closed := Retry(close);
      if closed.Failure? {
        return true;
      }
      readEnd := false;
      fatal := false;
    }

    /** Waits for the child: its report, then its exit status; 0 if there is no child. */
    method Wait(read: seq<Answer<Option<char>>>, close: seq<Answer<()>>, wait: seq<Answer<ExitStatus>>)
      returns (fatal: bool, result: ExitStatus)
      requires Settles(read) && Settles(close) && Settles(wait)
      modifies this
      ensures !old(spawned) ==> !fatal && result == Exited(0) && unchanged(this)
      ensures old(spawned) ==>
          && Upshot(fatal, Value()) == ReadThenReap(old(Value()), Settled(read), Settled(close), Settled(wait))
          && (!fatal ==> status == Some(result))
    {
      if !spawned {
        return false, Exited(0);
      }
      fatal := ReadAndInterpretStatusByte(read, close);
      if fatal {
        return true, Exited(0);
      }
      var waited := Retry(wait);
      if !waited.Success? {
        return true, Exited(0);
      }
      status := Some(waited.value);
      result := waited.value;
    }

    /** Assesses the test; None is a fatal error. */
    method Judge(statusOk: bool, matched: bool) returns (success: Option<bool>)
      ensures success == Judged(Value(), statusOk, matched)
    {
      if !spawned {
        return Some(false);
      }
      match outcome
      case LIVED => return Some(false);
      case THREW => return Some(false);
      case RETURNED => return Some(false);
      case DIED => return Some(statusOk && matched);
      case InProgress => return None;
    }

    /** The parent's part of the macro: wait for the child and judge it. */
    method Oversee(a: Answers, accepts: ExitStatus -> bool, matched: bool) returns (passed: Option<bool>)
      requires spawned && Settles(a.read) && Settles(a.closeRead) && Settles(a.wait)
      modifies this
      ensures passed == Verdict(Resume(old(Value()), Reading, a), accepts, matched)
    {
      var fatal, result := Wait(a.read, a.closeRead, a.wait);
      if fatal {
        return None;
      }
      passed := Judge(accepts(result), matched);
    }

    /** The child's report before _exit(1): the byte it writes, unless the write fails. */
    method Abort(reason: AbortReason, write: seq<Answer<()>>) returns (report: Report)
      requires Settles(write)
      ensures report == Reported(FlagOf(reason), Settled(write))
      ensures report.byte.Some? ==> Interpret(report.byte.value).Some?
    {
      var flag := if reason == DidNotDie then 'L' else if reason == ThrewException then 'T' else 'R';
      var wrote := Retry(write);
      if wrote.Success? {
        return Report(Some(flag), Exited(1));
      }
      return Report(None, Signaled(SIGABRT));
    }
  }

  // ---------- The parent in every interleaving ----------

  /** The answers that the parent gets, call by call. */
  datatype Answers = Answers(
    closeWrite: seq<Answer<()>>,
    read: seq<Answer<Option<char>>>,
    closeRead: seq<Answer<()>>,
    wait: seq<Answer<ExitStatus>>)

  /** The rest of the parent's work up to the verdict. */
  function Resume(v: View, at: Parent, a: Answers): Upshot {
    match at
    case ClosingWrite =>
      var u := CloseWrite(v, Settled(a.closeWrite));
      if u.fatal then u else ReadThenReap(u.view, Settled(a.read), Settled(a.closeRead), Settled(a.wait))
    case Reading => ReadThenReap(v, Settled(a.read), Settled(a.closeRead), Settled(a.wait))
    case ClosingRead =>
      var u := CloseRead(v, Settled(a.closeRead));
      if u.fatal then u else Reap(u.view, Settled(a.wait))
    case Waiting => Reap(v, Settled(a.wait))
    case Judging(_) | Done(_, _) => Upshot(false, v)
    case Fatal => Upshot(true, v)
  }

  function Verdict(u: Upshot, accepts: ExitStatus -> bool, matched: bool): Option<bool> {
    if u.fatal then None
    else
      match u.view.status
      case None => None
      case Some(status) => Judged(u.view, accepts(status), matched)
  }

  /** What the parent's object holds in a state of the protocol. */
  function ViewOf(s: State): View {
    View(s.parent != ClosingWrite, if s.parent.Judging? || s.parent.Done? then Some(s.parent.status) else None,
         s.outcome, s.parentRead, s.parentWrite)
  }

  /** A call that gives the parent nothing. */
  function Missed(at: Parent, failed: bool, a: Answers): Answers {
    match at
    case ClosingWrite => a.(closeWrite := [if failed then Failure else Interrupted] + a.closeWrite)
    case Reading => a.(read := [if failed then Failure else Interrupted] + a.read)
    case ClosingRead => a.(closeRead := [if failed then Failure else Interrupted] + a.closeRead)
    case Waiting => a.(wait := [if failed then Failure else Interrupted] + a.wait)
    case _ => a
  }

  /** The answers to the parent, from a step of the system on. */
  function Heard(s: State, step: Step, a: Answers, accepts: ExitStatus -> bool, matches: string -> bool): Answers
    requires Next(s, step, accepts, matches).Some?
  {
    match step
    case ParentClosesWrite => a.(closeWrite := [Success(())] + a.closeWrite)
    case ParentReads => a.(read := [KernelRead(s)] + a.read)
    case ParentClosesRead => a.(closeRead := [Success(())] + a.closeRead)
    case ParentWaits => a.(wait := [Success(s.child.status)] + a.wait)
    case ParentInterrupted => Missed(s.parent, false, a)
    case ParentFails => Missed(s.parent, true, a)
    case _ => a
  }

  function AllHeard(s: State, steps: seq<Step>, a: Answers, accepts: ExitStatus -> bool, matches: string -> bool):
      Answers
    requires Run(s, steps, accepts, matches).Some?
    decreases |steps|
  {
    if steps == [] then a
    else
      var t := Next(s, steps[0], accepts, matches).value;
      Heard(s, steps[0], AllHeard(t, steps[1..], a, accepts, matches), accepts, matches)
  }

  /** The same end: in a fatal error the process is gone and the rest does not matter. */
  predicate SameEnd(u: Upshot, w: Upshot) {
    u.fatal == w.fatal && (u.fatal || u.view == w.view)
  }

  lemma SettledPrepend<T>(first: Answer<T>, answers: seq<Answer<T>>)
    ensures Settled([first] + answers) == if first.Interrupted? then Settled(answers) else first
  {
    assert ([first] + answers)[1..] == answers;
  }

  lemma SettledMissed(at: Parent, failed: bool, a: Answers, v: View)
    ensures failed && at in {ClosingWrite, Reading, ClosingRead, Waiting} ==> Resume(v, at, Missed(at, failed, a)).fatal
    ensures !failed ==> Resume(v, at, Missed(at, failed, a)) == Resume(v, at, a)
  {
    SettledPrepend(if failed then Failure else Interrupted, a.closeWrite);
    SettledPrepend(if failed then Failure else Interrupted, a.read);
    SettledPrepend(if failed then Failure else Interrupted, a.closeRead);
    SettledPrepend(if failed then Failure else Interrupted, a.wait);
  }

  /** One step of the system is what the parent's object does with the kernel's answer, and
      the steps of the child do not touch it. */
  lemma HeardStep(s: State, step: Step, a: Answers, accepts: ExitStatus -> bool, matches: string -> bool)
    requires Inv(s) && Next(s, step, accepts, matches).Some?
    ensures var t := Next(s, step, accepts, matches).value;
            SameEnd(Resume(ViewOf(s), s.parent, Heard(s, step, a, accepts, matches)), Resume(ViewOf(t), t.parent, a))
  {
    hide DeadInv, StatusIs, TrueOutcome;
    match step
    case ParentClosesWrite => SettledPrepend(Success(()), a.closeWrite);
    case ParentReads => SettledPrepend(KernelRead(s), a.read);
    case ParentClosesRead => SettledPrepend(Success(()), a.closeRead);
    case ParentWaits => SettledPrepend(Success(s.child.status), a.wait);
    case ParentInterrupted => SettledMissed(s.parent, false, a, ViewOf(s));
    case ParentFails => SettledMissed(s.parent, true, a, ViewOf(s));
    case _ =>
  }

  lemma {:induction false} HeardRun(s: State, steps: seq<Step>, t: State, a: Answers,
                                    accepts: ExitStatus -> bool, matches: string -> bool)
    requires Inv(s) && Run(s, steps, accepts, matches) == Some(t)
    ensures SameEnd(Resume(ViewOf(s), s.parent, AllHeard(s, steps, a, accepts, matches)),
                    Resume(ViewOf(t), t.parent, a))
    decreases |steps|
  {
    if steps != [] {
      var next := Next(s, steps[0], accepts, matches).value;
      StepKeepsInv(s, steps[0], accepts, matches);
      HeardStep(s, steps[0], AllHeard(next, steps[1..], a, accepts, matches), accepts, matches);
      HeardRun(next, steps[1..], t, a, accepts, matches);
    }
  }

  ghost predicate AllSettle(a: Answers) {
    Settles(a.closeWrite) && Settles(a.read) && Settles(a.closeRead) && Settles(a.wait)
  }

  /** The answers of a run go before later ones and settle with them. */
  lemma {:induction false} HeardSettles(s: State, steps: seq<Step>, a: Answers,
                                        accepts: ExitStatus -> bool, matches: string -> bool)
    requires Run(s, steps, accepts, matches).Some? && AllSettle(a)
    ensures AllSettle(AllHeard(s, steps, a, accepts, matches))
    decreases |steps|
  {
    if steps != [] {
      var t := Next(s, steps[0], accepts, matches).value;
      HeardSettles(t, steps[1..], a, accepts, matches);
      OneMoreSettles(s, steps[0], AllHeard(t, steps[1..], a, accepts, matches), accepts, matches);
    }
  }

  lemma OneMoreSettles(s: State, step: Step, a: Answers, accepts: ExitStatus -> bool, matches: string -> bool)
    requires Next(s, step, accepts, matches).Some? && AllSettle(a)
    ensures AllSettle(Heard(s, step, a, accepts, matches))
  {
    match step
    case ParentClosesWrite => SettledPrepend(Success(()), a.closeWrite);
    case ParentReads => SettledPrepend(KernelRead(s), a.read);
    case ParentClosesRead => SettledPrepend(Success(()), a.closeRead);
    case ParentWaits => SettledPrepend(Success(s.child.status), a.wait);
    case ParentInterrupted => MissedSettles(s.parent, false, a);
    case ParentFails => MissedSettles(s.parent, true, a);
    case _ =>
  }

  lemma MissedSettles(at: Parent, failed: bool, a: Answers)
    requires AllSettle(a)
    ensures AllSettle(Missed(at, failed, a))
  {
    SettledPrepend(if failed then Failure else Interrupted, a.closeWrite);
    SettledPrepend(if failed then Failure else Interrupted, a.read);
    SettledPrepend(if failed then Failure else Interrupted, a.closeRead);
    SettledPrepend(if failed then Failure else Interrupted, a.wait);
  }

  /** In every interleaving, and whatever the kernel may answer later, the parent's object ends
      as the parent of the protocol does: with the same fatal error or the same verdict. */
  lemma ParentFollowsRun(steps: seq<Step>, t: State, a: Answers, accepts: ExitStatus -> bool, matches: string -> bool)
    requires Run(START, steps, accepts, matches) == Some(t) && (t.parent.Done? || t.parent == Fatal)
    ensures Verdict(Resume(FORKED, ClosingWrite, AllHeard(START, steps, a, accepts, matches)),
                    accepts, matches(t.stderr))
            == if t.parent == Fatal then None else Some(t.parent.passed)
  {
    RunKeepsInv(START, steps, accepts, matches);
    RunDoneRight(START, steps, accepts, matches);
    HeardRun(START, steps, t, a, accepts, matches);
  }

  /** The step that judges gives the object's verdict. */
  lemma JudgeIsStep(s: State, accepts: ExitStatus -> bool, matches: string -> bool)
    requires s.parent.Judging?
    ensures var t := Next(s, ParentJudges, accepts, matches).value;
            Judged(ViewOf(s), accepts(s.parent.status), matches(s.stderr))
            == if t.parent == Fatal then None else Some(t.parent.passed)
  {
  }

  // ---------- The child in every interleaving ----------

  datatype ChildAnswers = ChildAnswers(closeRead: seq<Answer<()>>, write: seq<Answer<()>>)

  /** How many bytes the child has written and how it ends, if the statement ends as e. */
  function ChildEnd(c: Child, written: nat, e: Ending, a: ChildAnswers): (nat, ExitStatus)
    requires c != Reaped
  {
    match c
    case ChildClosingRead =>
      if CloseRead(FORKED, Settled(a.closeRead)).fatal then (written, Signaled(SIGABRT))
      else AfterStatement(written, e, Settled(a.write))
    case RunningStatement => AfterStatement(written, e, Settled(a.write))
    case Writing(flag) => AfterReport(written, Reported(flag, Settled(a.write)))
    case Exiting => (written, Exited(1))
    case Dead(status) => (written, status)
  }

  /** The same in a state of the protocol: the parent knows how a reaped child has ended. */
  function EndOf(s: State, e: Ending, a: ChildAnswers): (nat, ExitStatus)
    requires s.child == Reaped ==> s.parent.Judging? || s.parent.Done?
  {
    if s.child == Reaped then (s.written, s.parent.status) else ChildEnd(s.child, s.written, e, a)
  }

  function AfterStatement(written: nat, e: Ending, write: Answer<()>): (nat, ExitStatus) {
    if e.Died? then (written, e.how) else AfterReport(written, Reported(FlagOf(ReasonOf(e)), write))
  }

  function AfterReport(written: nat, report: Report): (nat, ExitStatus) {
    (written + if report.byte.Some? then 1 else 0, report.exit)
  }

  /** The answers to the child, from a step of the system on. */
  function ChildHeard(s: State, step: Step, a: ChildAnswers): ChildAnswers {
    match step
    case ChildClosesRead => a.(closeRead := [Success(())] + a.closeRead)
    case ChildWrites => a.(write := [Success(())] + a.write)
    case ChildInterrupted => ChildMissed(s.child, Interrupted, a)
    case ChildFails(_) => ChildMissed(s.child, Failure, a)
    case _ => a
  }

  function ChildMissed(c: Child, answer: Answer<()>, a: ChildAnswers): ChildAnswers {
    if c == ChildClosingRead then a.(closeRead := [answer] + a.closeRead) else a.(write := [answer] + a.write)
  }

  function AllChildHeard(s: State, steps: seq<Step>, a: ChildAnswers, accepts: ExitStatus -> bool,
                         matches: string -> bool): ChildAnswers
    requires Run(s, steps, accepts, matches).Some?
    decreases |steps|
  {
    if steps == [] then a
    else
      var t := Next(s, steps[0], accepts, matches).value;
      ChildHeard(s, steps[0], AllChildHeard(t, steps[1..], a, accepts, matches))
  }

  /** The parent's steps leave the child as it is, or take over its status. */
  lemma ParentStepKeepsEnd(s: State, step: Step, e: Ending, a: ChildAnswers, accepts: ExitStatus -> bool,
                           matches: string -> bool)
    requires Inv(s) && IsParentStep(step) && Next(s, step, accepts, matches).Some?
    requires s.parent != Fatal && Next(s, step, accepts, matches).value.parent != Fatal
    ensures EndOf(s, e, a) == EndOf(Next(s, step, accepts, matches).value, e, a)
  {
    hide DeadInv, StatusIs, TrueOutcome, ChildEnd;
    DeadEnd(s.written, e, a);
  }

  lemma DeadEnd(written: nat, e: Ending, a: ChildAnswers)
    ensures forall status :: ChildEnd(Dead(status), written, e, a) == (written, status)
  {
  }

  /** A child whose pipe has a reader goes on as its object does with the kernel's answer. */
  lemma ChildHeardStep(s: State, step: Step, e: Ending, a: ChildAnswers, accepts: ExitStatus -> bool,
                       matches: string -> bool)
    requires Inv(s) && s.parent != Fatal && Next(s, step, accepts, matches).Some?
    requires var t := Next(s, step, accepts, matches).value;
             t.parent != Fatal && (t.ended.Some? ==> t.ended.value == e)
    ensures var t := Next(s, step, accepts, matches).value;
            (t.child == Reaped ==> t.parent.Judging? || t.parent.Done?)
            && EndOf(s, e, ChildHeard(s, step, a)) == EndOf(t, e, a)
  {
    hide DeadInv, StatusIs, TrueOutcome, ChildEnd;
    if IsParentStep(step) {
      ParentStepKeepsEnd(s, step, e, a, accepts, matches);
    } else {
      ChildStepMovesEnd(s, step, e, a, accepts, matches);
    }
  }

  lemma ChildStepMovesEnd(s: State, step: Step, e: Ending, a: ChildAnswers, accepts: ExitStatus -> bool,
                          matches: string -> bool)
    requires Inv(s) && s.parent != Fatal && !IsParentStep(step) && Next(s, step, accepts, matches).Some?
    requires var t := Next(s, step, accepts, matches).value; t.ended.Some? ==> t.ended.value == e
    ensures EndOf(s, e, ChildHeard(s, step, a)) == EndOf(Next(s, step, accepts, matches).value, e, a)
  {
    hide DeadInv, StatusIs, TrueOutcome;
    match step
    case ChildClosesRead => SettledPrepend(Success(()), a.closeRead);
    case ChildWrites => SettledPrepend(Success(()), a.write);
    case ChildInterrupted =>
      SettledPrepend(Interrupted, a.closeRead);
      SettledPrepend(Interrupted, a.write);
    case ChildFails(_) =>
      SettledPrepend(Failure, a.closeRead);
      SettledPrepend(Failure, a.write);
    case _ =>
  }

  lemma StepPersists(s: State, step: Step, accepts: ExitStatus -> bool, matches: string -> bool)
    requires Inv(s) && Next(s, step, accepts, matches).Some?
    ensures var t := Next(s, step, accepts, matches).value;
            && (s.parent == Fatal ==> t.parent == Fatal)
            && (s.ended.Some? ==> t.ended == s.ended)
  {
    hide DeadInv, PipeInv, StatusIs;
  }

  /** What is settled stays settled. */
  lemma {:induction false} RunPersists(s: State, steps: seq<Step>, t: State, accepts: ExitStatus -> bool,
                                       matches: string -> bool)
    requires Inv(s) && Run(s, steps, accepts, matches) == Some(t)
    ensures s.parent == Fatal ==> t.parent == Fatal
    ensures s.ended.Some? ==> t.ended == s.ended
    decreases |steps|
  {
    hide Next, Inv;
    if steps != [] {
      StepKeepsInv(s, steps[0], accepts, matches);
      StepPersists(s, steps[0], accepts, matches);
      RunPersists(Next(s, steps[0], accepts, matches).value, steps[1..], t, accepts, matches);
    }
  }

  lemma {:induction false} ChildHeardRun(s: State, steps: seq<Step>, t: State, e: Ending, a: ChildAnswers,
                                         accepts: ExitStatus -> bool, matches: string -> bool)
    requires Inv(s) && Run(s, steps, accepts, matches) == Some(t)
    requires t.parent != Fatal && (t.ended.Some? ==> t.ended.value == e)
    ensures t.child == Reaped ==> t.parent.Judging? || t.parent.Done?
    ensures s.child == Reaped ==> s.parent.Judging? || s.parent.Done?
    ensures EndOf(s, e, AllChildHeard(s, steps, a, accepts, matches)) == EndOf(t, e, a)
    decreases |steps|
  {
    RunPersists(s, steps, t, accepts, matches);
    if steps != [] {
      var next := Next(s, steps[0], accepts, matches).value;
      StepKeepsInv(s, steps[0], accepts, matches);
      RunPersists(next, steps[1..], t, accepts, matches);
      ChildHeardStep(s, steps[0], e, AllChildHeard(next, steps[1..], a, accepts, matches), accepts, matches);
      ChildHeardRun(next, steps[1..], t, e, a, accepts, matches);
    }
  }

  ghost predicate ChildSettles(a: ChildAnswers) {
    Settles(a.closeRead) && Settles(a.write)
  }

  /** The answers of a run to the child go before later ones and settle with them. */
  lemma {:induction false} ChildHeardSettles(s: State, steps: seq<Step>, a: ChildAnswers,
                                             accepts: ExitStatus -> bool, matches: string -> bool)
    requires Run(s, steps, accepts, matches).Some? && ChildSettles(a)
    ensures ChildSettles(AllChildHeard(s, steps, a, accepts, matches))
    decreases |steps|
  {
    if steps != [] {
      var t := Next(s, steps[0], accepts, matches).value;
      var later := AllChildHeard(t, steps[1..], a, accepts, matches);
      ChildHeardSettles(t, steps[1..], a, accepts, matches);
      forall answer: Answer<()>
        ensures Settles([answer] + later.closeRead) && Settles([answer] + later.write)
      {
        SettledPrepend(answer, later.closeRead);
        SettledPrepend(answer, later.write);
      }
    }
  }

  /** In every interleaving in which the parent goes on, the child's object writes what the
      child of the protocol writes and ends with the same status, which is the one that the
      parent gets if it has waited for the child. */
  lemma ChildFollowsRun(steps: seq<Step>, t: State, e: Ending, a: ChildAnswers, accepts: ExitStatus -> bool,
                        matches: string -> bool)
    requires Run(START, steps, accepts, matches) == Some(t) && !Alive(t.child) && t.parent != Fatal
    requires t.ended.Some? ==> t.ended.value == e
    ensures t.child.Dead? || t.parent.Judging? || t.parent.Done?
    ensures ChildEnd(ChildClosingRead, 0, e, AllChildHeard(START, steps, a, accepts, matches))
            == (t.written, if t.child.Dead? then t.child.status else t.parent.status)
  {
    ChildHeardRun(START, steps, t, e, a, accepts, matches);
  }

  /** What the child writes is read back as how the statement ended. */
  lemma FlagsReadBack(e: Ending)
    requires !e.Died?
    ensures Interpret(FlagOf(ReasonOf(e))) == Some(OutcomeOf(e))
  {
  }
}
