/** The per-file pipeline of `create_course_from_file` and the manual path of
    `manual_course_creation`, with the results of the four step methods
    passed in and every step method invoked recorded in a trace. */
module Workflow {
  import opened Options
  import opened Sessions
  import PathNames
  import Text
  import Steps

  /** One step method invoked, with its arguments and the headers its
      request would carry. The course name of a create call is an argument
      of `create_course`, which only prints it: the request body holds the
      material id alone. An upload call is recorded even when the file
      cannot be opened, in which case no request is sent. */
  datatype Call =
    | UploadCall(path: string, headers: Headers)
    | CreateCall(materialId: string, courseName: Option<string>, headers: Headers)
    | RenameCall(courseId: string, newName: string, headers: Headers)
    | PublishCall(courseId: string, headers: Headers)

  /** What each step returns when it is invoked: `upload_material` and
      `create_course` an optional id, `update_course_name` and
      `publish_course` a success flag. */
  datatype StepResults = StepResults(upload: Option<string>, create: Option<string>, rename: bool, publish: bool)

  /** The returned flag and the step methods invoked, in order. */
  datatype Run = Run(success: bool, trace: seq<Call>)

  datatype StepKind = Upload | Create | Rename | Publish

  function Kind(c: Call): StepKind {
    match c
    case UploadCall(_, _) => Upload
    case CreateCall(_, _, _) => Create
    case RenameCall(_, _, _) => Rename
    case PublishCall(_, _) => Publish
  }

  /** Which steps a trace invoked, in order. */
  function Kinds(t: seq<Call>): seq<StepKind> {
    seq(|t|, i requires 0 <= i < |t| => Kind(t[i]))
  }

  /** The steps of `create_course_from_file` once the course name `name` is
      derived: upload, create, rename, publish, stopping after a falsy
      upload or create result. The name is passed to create and to rename;
      the rename result is ignored and the publish result is returned. */
  function Pipeline(h: Headers, path: string, name: string, st: StepResults): (r: Run)
    ensures !Truthy(st.upload) ==> Kinds(r.trace) == [Upload]
    ensures Truthy(st.upload) && !Truthy(st.create) ==> Kinds(r.trace) == [Upload, Create]
    ensures Truthy(st.upload) && Truthy(st.create) ==> Kinds(r.trace) == [Upload, Create, Rename, Publish]
    ensures r.success <==> Truthy(st.upload) && Truthy(st.create) && st.publish
    ensures |r.trace| > 0 && r.trace[0] == UploadCall(path, UploadHeaders(h))
    ensures forall i | 0 <= i < |r.trace| && r.trace[i].CreateCall? ::
      Truthy(st.upload) && r.trace[i].materialId == st.upload.value && r.trace[i].courseName == Some(name)
    ensures forall i | 0 <= i < |r.trace| && r.trace[i].RenameCall? ::
      Truthy(st.create) && r.trace[i].courseId == st.create.value && r.trace[i].newName == name
    ensures forall i | 0 <= i < |r.trace| && r.trace[i].PublishCall? ::
      Truthy(st.create) && r.trace[i].courseId == st.create.value
    ensures forall i | 1 <= i < |r.trace| :: r.trace[i].headers == h
  {
    var upload := UploadCall(path, UploadHeaders(h));
    if !Truthy(st.upload) then
      Run(false, [upload])
    else
      var create := CreateCall(st.upload.value, Some(name), h);
      if !Truthy(st.create) then
        Run(false, [upload, create])
      else
        var courseId := st.create.value;
        Run(st.publish, [upload, create, RenameCall(courseId, name, h), PublishCall(courseId, h)])
  }

  /** `create_course_from_file`: the pipeline run with the course name
      derived from the file's path. */
  function CreateCourseFromFile(h: Headers, path: string, st: StepResults): Run {
    Pipeline(h, path, PathNames.CourseName(path), st)
  }

  /** The name `create_course_from_file` passes to create and to rename is
      the one derived from the path, so it holds no `_`, `-` or `/`. */
  lemma {:induction false} DerivedNameInRequests(h: Headers, path: string, st: StepResults)
    ensures var r := CreateCourseFromFile(h, path, st);
      forall i | 0 <= i < |r.trace| && r.trace[i].CreateCall? ::
        && r.trace[i].courseName == Some(PathNames.CourseName(path))
        && '_' !in r.trace[i].courseName.value && '-' !in r.trace[i].courseName.value
    ensures var r := CreateCourseFromFile(h, path, st);
      forall i | 0 <= i < |r.trace| && r.trace[i].RenameCall? ::
        && r.trace[i].newName == PathNames.CourseName(path)
        && '_' !in r.trace[i].newName && '-' !in r.trace[i].newName && '/' !in r.trace[i].newName
  {
    PathNames.CourseNameShape(path);
  }

  /** The upload's answer decides whether the file pipeline goes on: it
      stops after the upload exactly when the answer holds no non-empty
      `material_id` (a missing file and a failed request included), and
      otherwise creates the course from that id. */
  lemma {:induction false} UploadAnswerDecidesPipeline(h: Headers, path: string, name: string, st: StepResults, reply: Steps.UploadReply)
    ensures var r := Pipeline(h, path, name, st.(upload := Steps.UploadMaterial(reply)));
      && (Kinds(r.trace) == [Upload] <==> !(reply.UploadBody? && Truthy(reply.materialId)))
      && (reply.UploadBody? && Truthy(reply.materialId) ==>
            |r.trace| > 1 && r.trace[1] == CreateCall(reply.materialId.value, Some(name), h))
  {
    var r := Pipeline(h, path, name, st.(upload := Steps.UploadMaterial(reply)));
    assert Kinds(r.trace)[0] == Upload && |Kinds(r.trace)| == |r.trace|;
  }

  /** After a successful upload the creation answer decides the rest: the
      pipeline stops after create exactly when the answer holds no non-empty
      `course_id`, a timeout included, and otherwise renames and publishes
      that course. */
  lemma {:induction false} CreateAnswerDecidesPipeline(h: Headers, path: string, name: string, st: StepResults, reply: Steps.CreateReply)
    requires Truthy(st.upload)
    ensures var r := Pipeline(h, path, name, st.(create := Steps.CreateCourse(reply)));
      && (Kinds(r.trace) == [Upload, Create] <==> !(reply.CreateBody? && Truthy(reply.courseId)))
      && (reply.CreateTimedOut? ==> !r.success && |r.trace| == 2)
      && (reply.CreateBody? && Truthy(reply.courseId) ==>
            && |r.trace| == 4
            && r.trace[2] == RenameCall(reply.courseId.value, name, h)
            && r.trace[3] == PublishCall(reply.courseId.value, h))
  {
    var r := Pipeline(h, path, name, st.(create := Steps.CreateCourse(reply)));
    assert |Kinds(r.trace)| == |r.trace|;
  }

  /** What rename returned never changes what the pipeline does. */
  lemma {:induction false} RenameResultIgnored(h: Headers, path: string, st: StepResults, renamed: bool)
    ensures CreateCourseFromFile(h, path, st.(rename := renamed)) == CreateCourseFromFile(h, path, st)
  {
  }

  // The pipeline as a state machine: each stage invokes one step and
  // moves on, or finishes with the result.

  datatype Stage =
    | Uploading(path: string)
    | Creating(materialId: string)
    | Renaming(courseId: string, name: string)
    | Publishing(courseId: string)
    | Finished(success: bool)

  function Remaining(s: Stage): nat {
    match s
    case Uploading(_) => 4
    case Creating(_) => 3
    case Renaming(_, _) => 2
    case Publishing(_) => 1
    case Finished(_) => 0
  }

  /** One transition: the step invoked at stage `s` and the next stage. A
      falsy upload or create result finishes with failure; creation goes on
      to renaming only when there is a course name to rename to. */
  function Advance(h: Headers, courseName: Option<string>, st: StepResults, s: Stage): (step: (Call, Stage))
    requires !s.Finished?
    ensures Remaining(step.1) < Remaining(s)
  {
    match s
    case Uploading(p) =>
      (UploadCall(p, UploadHeaders(h)), if Truthy(st.upload) then Creating(st.upload.value) else Finished(false))
    case Creating(m) =>
      (CreateCall(m, courseName, h),
       if !Truthy(st.create) then Finished(false)
       else if courseName.Some? then Renaming(st.create.value, courseName.value)
       else Publishing(st.create.value))
    case Renaming(c, n) => (RenameCall(c, n, h), Publishing(c))
    case Publishing(c) => (PublishCall(c, h), Finished(st.publish))
  }

  /** Runs the machine from stage `s` to the end. */
  function Execute(h: Headers, courseName: Option<string>, st: StepResults, s: Stage): (r: Run)
    ensures |r.trace| <= Remaining(s)
    ensures s.Finished? ==> r == Run(s.success, [])
    decreases Remaining(s)
  {
    if s.Finished? then Run(s.success, [])
    else
      var (call, next) := Advance(h, courseName, st, s);
      var rest := Execute(h, courseName, st, next);
      Run(rest.success, [call] + rest.trace)
  }

  /** The pipeline is the machine started at the upload stage, with the
      course name as the name to rename to. */
  lemma {:induction false} PipelineIsMachine(h: Headers, path: string, name: string, st: StepResults)
    ensures Pipeline(h, path, name, st) == Execute(h, Some(name), st, Uploading(path))
  {
    if Truthy(st.upload) {
      UploadThenCreation(h, Some(name), st, path);
      if Truthy(st.create) {
        var c := st.create.value;
        assert Execute(h, Some(name), st, Renaming(c, name)).trace
            == [RenameCall(c, name, h), PublishCall(c, h)];
      }
    }
  }

  /** After a successful upload the file pipeline continues exactly as the
      machine does from the creation stage, which is where the manual path
      starts. */
  lemma {:induction false} UploadThenCreation(h: Headers, courseName: Option<string>, st: StepResults, path: string)
    requires Truthy(st.upload)
    ensures Execute(h, courseName, st, Uploading(path))
         == var rest := Execute(h, courseName, st, Creating(st.upload.value));
            Run(rest.success, [UploadCall(path, UploadHeaders(h))] + rest.trace)
  {
  }

  /** The part of `manual_course_creation` after the operator's input: create
      the course from the (stripped) material id, rename it only when a
      (stripped) name was entered, and publish it once a course id exists.
      The returned flag is the publish result, which the method only
      reports. */
  function ManualSteps(h: Headers, materialId: string, name: string, st: StepResults): (r: Run)
    ensures |r.trace| > 0 && r.trace[0] == CreateCall(materialId, if name != "" then Some(name) else None, h)
    ensures Kinds(r.trace) ==
      if !Truthy(st.create) then [Create]
      else if name != "" then [Create, Rename, Publish]
      else [Create, Publish]
    ensures r.success <==> Truthy(st.create) && st.publish
    ensures forall i | 0 <= i < |r.trace| :: r.trace[i].headers == h
    ensures forall i | 0 <= i < |r.trace| && r.trace[i].RenameCall? :: r.trace[i].newName == name
    ensures forall i | 0 <= i < |r.trace| && (r.trace[i].RenameCall? || r.trace[i].PublishCall?) ::
      Truthy(st.create) && r.trace[i].courseId == st.create.value
  {
    var courseName := if name != "" then Some(name) else None;
    var create := CreateCall(materialId, courseName, h);
    if !Truthy(st.create) then
      Run(false, [create])
    else
      var courseId := st.create.value;
      if courseName.Some? then
        var t := [create, RenameCall(courseId, name, h), PublishCall(courseId, h)];
        assert Kinds(t) == [Create, Rename, Publish];
        Run(st.publish, t)
      else
        var t := [create, PublishCall(courseId, h)];
        assert Kinds(t) == [Create, Publish];
        Run(st.publish, t)
  }

  /** On the manual path the creation answer decides the same way: nothing
      follows create exactly when the answer holds no non-empty `course_id`,
      a timeout included. */
  lemma {:induction false} CreateAnswerDecidesManual(h: Headers, materialId: string, name: string, st: StepResults, reply: Steps.CreateReply)
    ensures var r := ManualSteps(h, materialId, name, st.(create := Steps.CreateCourse(reply)));
      && (|r.trace| == 1 <==> !(reply.CreateBody? && Truthy(reply.courseId)))
      && (reply.CreateTimedOut? ==> !r.success)
  {
    var r := ManualSteps(h, materialId, name, st.(create := Steps.CreateCourse(reply)));
    assert |Kinds(r.trace)| == |r.trace|;
  }

  /** The outcome of `manual_course_creation`: the session after its login
      and the run of the steps it started, if any. */
  datatype ManualRun = ManualRun(session: Session, run: Run)

  /** `manual_course_creation`: log in, then read a material id and an
      optional course name, both stripped. No step is invoked when the
      login fails or the material id is blank. */
  function ManualCourseCreation(s: Session, reply: LoginReply, materialInput: string, nameInput: string, st: StepResults): (m: ManualRun)
    ensures m.session == Login(s, reply).session
    ensures m.run.trace != [] <==> Login(s, reply).ok && Text.Strip(materialInput) != ""
    ensures m.run.trace != [] ==>
      m.run == ManualSteps(m.session.headers, Text.Strip(materialInput), Text.Strip(nameInput), st)
    ensures m.run.trace == [] ==> !m.run.success
  {
    var login := Login(s, reply);
    if !login.ok then ManualRun(login.session, Run(false, []))
    else
      var materialId := Text.Strip(materialInput);
      if materialId == "" then ManualRun(login.session, Run(false, []))
      else ManualRun(login.session, ManualSteps(login.session.headers, materialId, Text.Strip(nameInput), st))
  }

  /** The manual steps are the same machine as the file pipeline, started at
      the creation stage (no upload), renaming only to a non-empty name. */
  lemma {:induction false} ManualIsMachineWithoutUpload(h: Headers, materialId: string, name: string, st: StepResults)
    ensures ManualSteps(h, materialId, name, st)
         == Execute(h, if name != "" then Some(name) else None, st, Creating(materialId))
  {
    var courseName := if name != "" then Some(name) else None;
    if Truthy(st.create) {
      var c := st.create.value;
      if courseName.Some? {
        assert Execute(h, courseName, st, Renaming(c, name)).trace == [RenameCall(c, name, h), PublishCall(c, h)];
      }
    }
  }

  /** After a successful login every step of the file pipeline carries the
      bearer credential in its headers, the upload included. */
  lemma {:induction false} RequestsCarryCredential(s: Session, token: string, path: string, name: string, st: StepResults)
    requires token != ""
    ensures var h := Login(s, LoginBody(Some(token))).session.headers;
      forall i | 0 <= i < |Pipeline(h, path, name, st).trace| ::
        Authorization in Pipeline(h, path, name, st).trace[i].headers
        && Pipeline(h, path, name, st).trace[i].headers[Authorization] == "Bearer " + token
  {
    var h := Login(s, LoginBody(Some(token))).session.headers;
    UploadKeepsCredential(h);
  }
}
