/** The session state of `PenseumCourseCreator`: the default request headers
    every call sends and the token the last login obtained. The state is a
    value threaded through the operations instead of fields of an object. */
module Sessions {
  import opened Options

  type Headers = map<string, string>

  datatype Session = Session(headers: Headers, jwtToken: Option<string>)

  const ContentType: string := "content-type"
  const Authorization: string := "Authorization"

  /** The state a fresh creator starts in: JSON `accept` and `content-type`
      headers and no token. */
  const InitialSession: Session :=
    Session(map["accept" := "application/json", ContentType := "application/json"], None)

  /** What the login request produced: the request failed (connection
      error, error status, undecodable body), or it answered with a body
      whose `access_token` entry is absent (`None`) or present. */
  datatype LoginReply = LoginRequestFailed | LoginBody(accessToken: Option<string>)

  datatype LoginResult = LoginResult(ok: bool, session: Session)

  /** `login`: succeeds exactly when the reply carries a non-empty token, and
      then adds the bearer `Authorization` header. A failed request leaves
      the state alone; a body without a usable token overwrites the stored
      token but leaves every header, including an `Authorization` set by an
      earlier login, as it was. */
  function Login(s: Session, reply: LoginReply): (r: LoginResult)
    ensures r.ok <==> reply.LoginBody? && Truthy(reply.accessToken)
    ensures r.ok ==> r.session.headers == s.headers[Authorization := "Bearer " + reply.accessToken.value]
    ensures !r.ok ==> r.session.headers == s.headers
    ensures reply.LoginRequestFailed? ==> r.session == s
    ensures reply.LoginBody? ==> r.session.jwtToken == reply.accessToken
  {
    match reply
    case LoginRequestFailed => LoginResult(false, s)
    case LoginBody(token) =>
      var s' := s.(jwtToken := token);
      if Truthy(token) then
        LoginResult(true, s'.(headers := s.headers[Authorization := "Bearer " + token.value]))
      else
        LoginResult(false, s')
  }

  /** The headers `upload_material` sends: the session headers without the
      `content-type` entry, so that the multipart body sets its own. */
  function UploadHeaders(h: Headers): (u: Headers)
    ensures u.Keys == h.Keys - {ContentType}
    ensures forall k | k in u :: u[k] == h[k]
  {
    map k | k in h && k != ContentType :: h[k]
  }

  /** After a successful login from the initial state the upload headers are
      exactly `accept` and the bearer `Authorization`. */
  lemma {:induction false} UploadHeadersAfterLogin(token: string)
    requires token != ""
    ensures var h := Login(InitialSession, LoginBody(Some(token))).session.headers;
      UploadHeaders(h) == map["accept" := "application/json", Authorization := "Bearer " + token]
  {
    var h := Login(InitialSession, LoginBody(Some(token))).session.headers;
    var want := map["accept" := "application/json", Authorization := "Bearer " + token];
    assert UploadHeaders(h).Keys == want.Keys;
  }

  /** Only `content-type` is removed: every other header of the session,
      the credential included, is sent with the upload unchanged. */
  lemma {:induction false} UploadKeepsCredential(h: Headers)
    requires Authorization in h
    ensures Authorization in UploadHeaders(h) && UploadHeaders(h)[Authorization] == h[Authorization]
    ensures ContentType !in UploadHeaders(h)
    ensures |UploadHeaders(h)| == if ContentType in h then |h| - 1 else |h|
  {
    var u := UploadHeaders(h);
    if ContentType in h {
      assert u.Keys + {ContentType} == h.Keys;
    } else {
      assert u.Keys == h.Keys;
    }
  }

  /** A failed login never grants a credential: a session without an
      `Authorization` header still has none afterwards. */
  lemma {:induction false} FailedLoginAddsNoCredential(s: Session, reply: LoginReply)
    requires Authorization !in s.headers
    ensures !Login(s, reply).ok ==> Authorization !in Login(s, reply).session.headers
    ensures Login(s, reply).ok ==> Authorization in Login(s, reply).session.headers
  {
  }
}
