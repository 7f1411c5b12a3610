/** `process_all_courses`: the batch loop over the PDF files and its
    success/failure tally, together with the single-file trial
    `test_single_course`. Finding the folder and listing its files are
    inputs. */
module Batch {
  import opened Options
  import opened Sessions
  import opened Workflow

  /** How one iteration of the batch loop ended: the pipeline returned true
      or false, it raised an unexpected exception, or the operator
      interrupted it (KeyboardInterrupt). */
  datatype ItemEvent = Ok | Fail | Exception | Interrupt

  datatype Tally = Tally(successful: nat, failed: nat)

  /** The number of iterations that completed: the index of the first
      interrupt, or all of them when there is none. */
  function Completed(events: seq<ItemEvent>): (k: nat)
    ensures k <= |events|
    ensures forall i | 0 <= i < k :: events[i] != Interrupt
    ensures k < |events| ==> events[k] == Interrupt
  {
    if |events| == 0 || events[0] == Interrupt then 0 else 1 + Completed(events[1..])
  }

  /** The batch loop as a left fold: an `Ok` adds one to `successful`, a
      `Fail` or an `Exception` adds one to `failed`, and an `Interrupt`
      ends the loop without counting its item. */
  function Fold(acc: Tally, events: seq<ItemEvent>): (t: Tally)
    ensures var done := multiset(events[..Completed(events)]);
      && t.successful == acc.successful + done[Ok]
      && t.failed == acc.failed + done[Fail] + done[Exception]
    decreases |events|
  {
    if |events| == 0 then acc
    else
      var rest := events[1..];
      assert events[0] != Interrupt ==> events[..Completed(events)] == [events[0]] + rest[..Completed(rest)];
      match events[0]
      case Interrupt => acc
      case Ok => Fold(acc.(successful := acc.successful + 1), rest)
      case Fail => Fold(acc.(failed := acc.failed + 1), rest)
      case Exception => Fold(acc.(failed := acc.failed + 1), rest)
  }

  function TallyOf(events: seq<ItemEvent>): Tally {
    Fold(Tally(0, 0), events)
  }

  /** A sequence without interrupts splits into its `Ok`, `Fail` and
      `Exception` events. */
  lemma {:induction false} EventsPartition(s: seq<ItemEvent>)
    requires Interrupt !in s
    ensures multiset(s)[Ok] + multiset(s)[Fail] + multiset(s)[Exception] == |s|
  {
    if s != [] {
      EventsPartition(s[1..]);
      assert s == [s[0]] + s[1..];
      var m, m' := multiset(s), multiset(s[1..]);
      assert m == multiset{s[0]} + m';
      match s[0]
      case Ok => assert m[Ok] == m'[Ok] + 1 && m[Fail] == m'[Fail] && m[Exception] == m'[Exception];
      case Fail => assert m[Ok] == m'[Ok] && m[Fail] == m'[Fail] + 1 && m[Exception] == m'[Exception];
      case Exception => assert m[Ok] == m'[Ok] && m[Fail] == m'[Fail] && m[Exception] == m'[Exception] + 1;
    }
  }

  /** Every completed iteration is counted exactly once, so the counts add
      up to the number of completed iterations; they add up to the number
      of files exactly when no interrupt occurred. */
  lemma {:induction false} TallyAccounting(events: seq<ItemEvent>)
    ensures TallyOf(events).successful + TallyOf(events).failed == Completed(events)
    ensures Interrupt !in events ==> TallyOf(events).successful + TallyOf(events).failed == |events|
    ensures Interrupt in events ==> TallyOf(events).successful + TallyOf(events).failed < |events|
  {
    var k := Completed(events);
    EventsPartition(events[..k]);
    if Interrupt !in events {
      assert k == |events|;
    }
  }

  /** An interrupt ends the loop: the files after it are never processed,
      so nothing after it changes the tally. */
  lemma {:induction false} AfterInterruptIgnored(done: seq<ItemEvent>, rest: seq<ItemEvent>)
    requires Interrupt !in done
    ensures TallyOf(done + [Interrupt] + rest) == TallyOf(done)
  {
    var events := done + [Interrupt] + rest;
    var k := Completed(events);
    assert events[|done|] == Interrupt;
    assert k == |done|;
    assert Completed(done) == |done|;
    assert events[..k] == done;
    assert done[..|done|] == done;
  }

  /** What happens when the loop reaches a file: the pipeline runs with the
      given step results, an unexpected exception escapes it, or the
      operator interrupts it. */
  datatype Behaviour = Runs(steps: StepResults) | Raises | Interrupted

  datatype Document = Document(path: string, behaviour: Behaviour)

  /** The event one file contributes to the tally, given the session
      headers the pipeline uses. */
  function EventOf(h: Headers, d: Document): (e: ItemEvent)
    ensures e == Ok <==> d.behaviour.Runs? && CreateCourseFromFile(h, d.path, d.behaviour.steps).success
    ensures e == Exception <==> d.behaviour.Raises?
    ensures e == Interrupt <==> d.behaviour.Interrupted?
  {
    match d.behaviour
    case Runs(st) => if CreateCourseFromFile(h, d.path, st).success then Ok else Fail
    case Raises => Exception
    case Interrupted => Interrupt
  }

  /** The events of the files in listing order, with the pipeline using the
      session headers `h`. */
  function Events(h: Headers, docs: seq<Document>): seq<ItemEvent> {
    seq(|docs|, i requires 0 <= i < |docs| => EventOf(h, docs[i]))
  }

  datatype BatchOutcome =
    | FolderMissing
    | NoFiles
    | LoginFailed
    | Summary(tally: Tally, total: nat)

  /** The outcome of `process_all_courses`, whether it attempted the login,
      and the session it leaves behind. */
  datatype BatchRun = BatchRun(outcome: BatchOutcome, loginAttempted: bool, session: Session)

  /** `process_all_courses`: stop when the folder is missing or holds no
      PDF file, before logging in; stop when the login fails; otherwise run
      every file in order and report the tally and the number of files. */
  function ProcessAllCourses(s: Session, folderExists: bool, docs: seq<Document>, reply: LoginReply): (b: BatchRun)
    ensures !folderExists ==> b.outcome == FolderMissing
    ensures folderExists && docs == [] ==> b.outcome == NoFiles
    ensures b.loginAttempted <==> folderExists && docs != []
    ensures b.loginAttempted ==> b.session == Login(s, reply).session
    ensures !b.loginAttempted ==> b.session == s
    ensures b.outcome == LoginFailed <==> b.loginAttempted && !Login(s, reply).ok
    ensures b.outcome.Summary? <==> b.loginAttempted && Login(s, reply).ok
    ensures b.outcome.Summary? ==>
      && b.outcome.total == |docs|
      && b.outcome.tally.successful + b.outcome.tally.failed <= |docs|
      && ((forall i | 0 <= i < |docs| :: !docs[i].behaviour.Interrupted?) <==>
          b.outcome.tally.successful + b.outcome.tally.failed == |docs|)
    ensures b.outcome.Summary? ==>
      var events := Events(b.session.headers, docs);
      var done := multiset(events[..Completed(events)]);
      b.outcome.tally == Tally(done[Ok], done[Fail] + done[Exception])
  {
    if !folderExists then BatchRun(FolderMissing, false, s)
    else if docs == [] then BatchRun(NoFiles, false, s)
    else
      var login := Login(s, reply);
      if !login.ok then BatchRun(LoginFailed, true, login.session)
      else
        var h := login.session.headers;
        var events := Events(h, docs);
        TallyAccounting(events);
        assert Interrupt in events <==> exists i | 0 <= i < |docs| :: docs[i].behaviour.Interrupted? by {
          assert forall i | 0 <= i < |docs| :: events[i] == Interrupt <==> docs[i].behaviour.Interrupted?;
        }
        BatchRun(Summary(TallyOf(events), |docs|), true, login.session)
  }

  /** The outcome of `test_single_course`: whether it logged in, the
      session it leaves behind and the pipeline run on the first file. */
  datatype SingleTest = SingleTest(loginAttempted: bool, session: Session, run: Run)

  /** `test_single_course`: the same guards as the batch, then the pipeline
      on the first file only. */
  function TestSingleCourse(s: Session, folderExists: bool, paths: seq<string>, reply: LoginReply, st: StepResults): (t: SingleTest)
    ensures t.loginAttempted <==> folderExists && paths != []
    ensures t.session == if t.loginAttempted then Login(s, reply).session else s
    ensures t.run.trace != [] <==> t.loginAttempted && Login(s, reply).ok
    ensures t.run.trace != [] ==>
      t.run == CreateCourseFromFile(t.session.headers, paths[0], st)
    ensures t.run.success ==> t.run.trace != [] && Truthy(st.upload) && Truthy(st.create) && st.publish
  {
    if !folderExists || paths == [] then SingleTest(false, s, Run(false, []))
    else
      var login := Login(s, reply);
      if !login.ok then SingleTest(true, login.session, Run(false, []))
      else SingleTest(true, login.session, CreateCourseFromFile(login.session.headers, paths[0], st))
  }

  /** `test_single_course` is the batch cut down to the first file: after a
      successful login its pipeline succeeds exactly when a one-file batch
      of that file counts one success, and fails exactly when it counts one
      failure. */
  lemma {:induction false} SingleTestIsOneFileBatch(s: Session, paths: seq<string>, reply: LoginReply, st: StepResults)
    requires paths != [] && Login(s, reply).ok
    ensures var t := TestSingleCourse(s, true, paths, reply, st);
      var b := ProcessAllCourses(s, true, [Document(paths[0], Runs(st))], reply);
      && t.session == b.session
      && (t.run.success <==> b.outcome.tally == Tally(1, 0))
      && (!t.run.success <==> b.outcome.tally == Tally(0, 1))
  {
    var h := Login(s, reply).session.headers;
    var events := Events(h, [Document(paths[0], Runs(st))]);
    assert events == [EventOf(h, Document(paths[0], Runs(st)))];
    assert Completed(events) == 1;
    assert events[..1] == events;
  }
}
