/** How `upload_material` and `create_course` turn what the service answered
    into the optional identifier they return. The HTTP exchange itself is
    the reply value passed in. */
module Steps {
  import opened Options

  /** What the upload attempt produced: the file could not be opened, the
      request failed, or the service answered with a body whose
      `material_id` entry is absent or present. */
  datatype UploadReply = FileMissing | UploadRequestFailed | UploadBody(materialId: Option<string>)

  /** `upload_material`: yields the material id exactly when the body holds
      a non-empty one, and `None` for every failure. */
  function UploadMaterial(reply: UploadReply): (r: Option<string>)
    ensures r.Some? <==> reply.UploadBody? && Truthy(reply.materialId)
    ensures r.Some? ==> r == reply.materialId
    ensures r.Some? ==> Truthy(r)
  {
    match reply
    case UploadBody(id) => if Truthy(id) then id else None
    case _ => None
  }

  /** What the course-creation attempt produced: the 150-second timeout
      expired, the request failed otherwise, or the service answered with a
      body whose `course_id` entry is absent or present. */
  datatype CreateReply = CreateTimedOut | CreateRequestFailed | CreateBody(courseId: Option<string>)

  /** `create_course`: yields the course id exactly when the body holds a
      non-empty one. A timeout yields `None`, like every other failure. */
  function CreateCourse(reply: CreateReply): (r: Option<string>)
    ensures r.Some? <==> reply.CreateBody? && Truthy(reply.courseId)
    ensures r.Some? ==> r == reply.courseId
    ensures r.Some? ==> Truthy(r)
    ensures reply.CreateTimedOut? ==> r == None
  {
    match reply
    case CreateBody(id) => if Truthy(id) then id else None
    case _ => None
  }

  /** The timeout is not a distinct outcome: the caller sees the same `None`
      as for a rejected request or a body without a course id. */
  lemma {:induction false} TimeoutIsPlainFailure()
    ensures CreateCourse(CreateTimedOut) == CreateCourse(CreateRequestFailed)
    ensures CreateCourse(CreateTimedOut) == CreateCourse(CreateBody(None))
  {
  }
}
