/**
 * The client of the face-recognition backend (`FaceRecognitionAPI`): the
 * records it exchanges, the requests it builds (method, URL, body), the rule
 * that a reply outside 2xx throws, and the transform `getUsers` applies to
 * every user record. The network itself is not modelled: a reply is an input.
 */
module Api {
  import opened Wrappers
  import opened Text

  // ---------------------------------------------------------------------------
  // Records

  /** A browser `File`: name, MIME type and size in bytes (its bytes are not modelled). */
  datatype File = File(name: string, mimeType: string, size: nat)

  /** One face found by detection; only the confidence is read by the client. */
  datatype FaceData = FaceData(confidence: real)

  datatype DetectFaceResponse = DetectFaceResponse(
    success: bool,
    message: string,
    facesDetected: int,
    faces: seq<FaceData>,
    recommendations: seq<string>)

  datatype EnrollResponse = EnrollResponse(success: bool, message: string, userId: int, faceId: string)

  datatype DeleteUserResponse = DeleteUserResponse(success: bool, message: string)

  /**
   * A user record. The fields from `employeeId` to `lastAccess` are the
   * optional "computed" ones; `name`, `email`, `department` and `phone` are
   * not declared on the record but are read by the manage screen, so they are
   * optional here.
   */
  datatype User = User(
    id: int,
    cccdNumber: string,
    fullName: string,
    gender: string,
    birthDate: string,
    permanentAddress: string,
    imageUrl: Option<string>,
    createdAt: string,
    updatedAt: string,
    employeeId: Option<string>,
    position: Option<string>,
    notes: Option<string>,
    enrollmentDate: Option<string>,
    status: Option<string>,
    lastAccess: Option<string>,
    name: Option<string>,
    email: Option<string>,
    department: Option<string>,
    phone: Option<string>)

  datatype GetUsersResponse = GetUsersResponse(success: bool, users: seq<User>, count: int)

  /** The six values `enrollUser` sends. */
  datatype EnrollUserData = EnrollUserData(
    cccdNumber: string,
    fullName: string,
    gender: string,
    birthDate: string,
    permanentAddress: string,
    image: File)

  // ---------------------------------------------------------------------------
  // Requests

  datatype HttpMethod = Get | Post | Delete | Patch

  datatype FormValue = TextValue(text: string) | FileValue(file: File)

  datatype Body = NoBody | Multipart(parts: seq<(string, FormValue)>) | Json(text: string)

  datatype Request = Request(verb: HttpMethod, url: string, body: Body)

  datatype UserStatus = Active | Inactive {
    function Name(): string {
      match this
      case Active => "active"
      case Inactive => "inactive"
    }
  }

  /**
   * The text `${API_BASE_URL}` produces: the configured base URL, or the word
   * "undefined" when none is configured (there is no built-in default).
   */
  function BaseUrl(configured: Option<string>): string {
    if configured.Some? then configured.value else "undefined"
  }

  /** Loading the module warns exactly when the base URL is unset or empty. */
  predicate WarnsAboutBaseUrl(configured: Option<string>) {
    configured.None? || configured.value == ""
  }

  function DetectFaceRequest(base: string, image: File): Request {
    Request(Post, base + "/api/detect-faces", Multipart([("image", FileValue(image))]))
  }

  /** The multipart field names of an enrollment, in the order they are appended. */
  const EnrollFieldNames: seq<string> :=
    ["cccd_number", "full_name", "gender", "birth_date", "permanent_address", "image"]

  function PartNames(parts: seq<(string, FormValue)>): (names: seq<string>)
    ensures |names| == |parts|
  {
    seq(|parts|, i requires 0 <= i < |parts| => parts[i].0)
  }

  /** Reads an enrollment back from its multipart fields, if they have exactly the expected shape. */
  function DecodeEnrollParts(parts: seq<(string, FormValue)>): Option<EnrollUserData> {
    if && PartNames(parts) == EnrollFieldNames
       && parts[0].1.TextValue? && parts[1].1.TextValue? && parts[2].1.TextValue?
       && parts[3].1.TextValue? && parts[4].1.TextValue? && parts[5].1.FileValue?
    then
      Some(EnrollUserData(parts[0].1.text, parts[1].1.text, parts[2].1.text,
                          parts[3].1.text, parts[4].1.text, parts[5].1.file))
    else
      None
  }

  /**
   * The fields `enrollUser` appends: exactly six, named as the backend
   * expects and in that order, carrying the values verbatim (so the data can
   * be read back from them).
   */
  function EnrollParts(data: EnrollUserData): (parts: seq<(string, FormValue)>)
    ensures PartNames(parts) == EnrollFieldNames
    ensures DecodeEnrollParts(parts) == Some(data)
  {
    [ ("cccd_number", TextValue(data.cccdNumber)),
      ("full_name", TextValue(data.fullName)),
      ("gender", TextValue(data.gender)),
      ("birth_date", TextValue(data.birthDate)),
      ("permanent_address", TextValue(data.permanentAddress)),
      ("image", FileValue(data.image)) ]
  }

  function EnrollUserRequest(base: string, data: EnrollUserData): Request {
    Request(Post, base + "/api/enroll", Multipart(EnrollParts(data)))
  }

  function GetUsersRequest(base: string): Request {
    Request(Get, base + "/api/users", NoBody)
  }

  function DeleteUserRequest(base: string, userId: string): Request {
    Request(Delete, base + "/api/user/" + userId, NoBody)
  }

  function UpdateUserStatusRequest(base: string, userId: string, status: UserStatus): Request {
    Request(Patch, base + "/api/users/" + userId + "/status", Json("{\"status\":\"" + status.Name() + "\"}"))
  }

  function GetUserByIdRequest(base: string, userId: string): Request {
    Request(Get, base + "/api/users/" + userId, NoBody)
  }

  /**
   * With no base URL configured the module warns, yet every URL starts with
   * the text "undefined" (there is no default to fall back on); with an empty
   * one it warns as well and the URLs are paths on the page's own origin.
   */
  lemma UnsetBaseUrl()
    ensures WarnsAboutBaseUrl(None) && GetUsersRequest(BaseUrl(None)).url == "undefined/api/users"
    ensures WarnsAboutBaseUrl(Some("")) && GetUsersRequest(BaseUrl(Some(""))).url == "/api/users"
  {
  }

  /** A non-empty configured base URL causes no warning and prefixes every URL verbatim. */
  lemma ConfiguredBaseUrl(base: string, image: File, data: EnrollUserData, userId: string, status: UserStatus)
    requires base != ""
    ensures !WarnsAboutBaseUrl(Some(base))
    ensures BaseUrl(Some(base)) == base
    ensures IsPrefixOf(base, DetectFaceRequest(base, image).url)
    ensures IsPrefixOf(base, EnrollUserRequest(base, data).url)
    ensures IsPrefixOf(base, GetUsersRequest(base).url)
    ensures IsPrefixOf(base, DeleteUserRequest(base, userId).url)
    ensures IsPrefixOf(base, UpdateUserStatusRequest(base, userId, status).url)
    ensures IsPrefixOf(base, GetUserByIdRequest(base, userId).url)
  {
  }

  /**
   * The method and body of every operation's request: detection and
   * enrollment POST multipart bodies (the detection body is the image alone,
   * the enrollment body decodes back to the data), listing and lookup GET,
   * deletion DELETEs, all three without a body, and the status update
   * PATCHes a JSON body.
   */
  lemma RequestMethodsAndBodies(base: string, image: File, data: EnrollUserData, userId: string, status: UserStatus)
    ensures DetectFaceRequest(base, image).verb == Post
    ensures DetectFaceRequest(base, image).body == Multipart([("image", FileValue(image))])
    ensures EnrollUserRequest(base, data).verb == Post
    ensures EnrollUserRequest(base, data).body.Multipart?
    ensures DecodeEnrollParts(EnrollUserRequest(base, data).body.parts) == Some(data)
    ensures GetUsersRequest(base).verb == Get && GetUsersRequest(base).body == NoBody
    ensures GetUserByIdRequest(base, userId).verb == Get && GetUserByIdRequest(base, userId).body == NoBody
    ensures DeleteUserRequest(base, userId).verb == Delete && DeleteUserRequest(base, userId).body == NoBody
    ensures UpdateUserStatusRequest(base, userId, status).verb == Patch
    ensures UpdateUserStatusRequest(base, userId, status).body.Json?
  {
  }

  /**
   * The URL layout: the lookup URL is the list URL extended by "/" and the
   * id, and the status URL is the lookup URL extended by "/status".
   */
  lemma UserUrlsExtendList(base: string, userId: string, status: UserStatus)
    ensures GetUserByIdRequest(base, userId).url == GetUsersRequest(base).url + "/" + userId
    ensures UpdateUserStatusRequest(base, userId, status).url == GetUserByIdRequest(base, userId).url + "/status"
  {
    assert base + "/api/users" + "/" == base + "/api/users/";
  }

  /** The detection, enrollment and list endpoints are three different URLs under the same base. */
  lemma FixedEndpointsDiffer(base: string, image: File, data: EnrollUserData)
    ensures IsPrefixOf(base + "/api/", DetectFaceRequest(base, image).url)
    ensures IsPrefixOf(base + "/api/", EnrollUserRequest(base, data).url)
    ensures IsPrefixOf(base + "/api/", GetUsersRequest(base).url)
    ensures DetectFaceRequest(base, image).url != EnrollUserRequest(base, data).url
    ensures DetectFaceRequest(base, image).url != GetUsersRequest(base).url
    ensures EnrollUserRequest(base, data).url != GetUsersRequest(base).url
  {
    var d, e, g := DetectFaceRequest(base, image).url, EnrollUserRequest(base, data).url, GetUsersRequest(base).url;
    assert d[|base| + 5] == 'd' && e[|base| + 5] == 'e' && g[|base| + 5] == 'u';
    assert d[..|base| + 5] == base + "/api/";
    assert e[..|base| + 5] == base + "/api/";
    assert g[..|base| + 5] == base + "/api/";
  }

  /** A path parameter between a fixed prefix and a fixed suffix can be read back from the URL. */
  lemma PathParameterDetermined(prefix: string, suffix: string, a: string, b: string)
    ensures prefix + a + suffix == prefix + b + suffix <==> a == b
  {
    if prefix + a + suffix == prefix + b + suffix {
      var u := prefix + a + suffix;
      assert |a| == |b|;
      assert a == u[|prefix|..|prefix| + |a|];
      assert b == u[|prefix|..|prefix| + |b|];
    }
  }

  /** The user-specific URLs name exactly one user: different ids give different URLs. */
  lemma UserUrlsDetermineId(base: string, a: string, b: string, status: UserStatus)
    ensures DeleteUserRequest(base, a).url == DeleteUserRequest(base, b).url <==> a == b
    ensures UpdateUserStatusRequest(base, a, status).url == UpdateUserStatusRequest(base, b, status).url <==> a == b
    ensures GetUserByIdRequest(base, a).url == GetUserByIdRequest(base, b).url <==> a == b
  {
    PathParameterDetermined(base + "/api/user/", "", a, b);
    assert base + "/api/user/" + a == base + "/api/user/" + a + "";
    assert base + "/api/user/" + b == base + "/api/user/" + b + "";
    PathParameterDetermined(base + "/api/users/", "/status", a, b);
    PathParameterDetermined(base + "/api/users/", "", a, b);
    assert base + "/api/users/" + a == base + "/api/users/" + a + "";
    assert base + "/api/users/" + b == base + "/api/users/" + b + "";
  }

  /** Deletion goes to the singular `/api/user/` path, never to the URL a lookup uses. */
  lemma DeleteAndLookupUrlsDiffer(base: string, a: string, b: string)
    ensures DeleteUserRequest(base, a).url != GetUserByIdRequest(base, b).url
  {
    var d := DeleteUserRequest(base, a).url;
    var g := GetUserByIdRequest(base, b).url;
    assert d[|base| + 9] == '/';
    assert g[|base| + 9] == 's';
  }

  // ---------------------------------------------------------------------------
  // Replies

  /** What `fetch` yields: no response at all, or a status with a body that may not parse as JSON. */
  datatype HttpReply<T> = NoResponse | Reply(status: int, body: Option<T>)

  datatype ApiError = NetworkError | HttpError(status: int) | InvalidJson

  /** `response.ok`. */
  predicate IsOk(status: int) {
    200 <= status <= 299
  }

  /**
   * The shared reply handling of every operation: a status outside 2xx
   * throws before the body is read; otherwise the parsed body is returned.
   */
  function Receive<T>(reply: HttpReply<T>): (r: Result<T, ApiError>)
    ensures r.Success? <==> reply.Reply? && IsOk(reply.status) && reply.body.Some?
    ensures r.Success? ==> r.value == reply.body.value
    ensures reply.Reply? && !IsOk(reply.status) ==> r == Failure(HttpError(reply.status))
    ensures reply.NoResponse? ==> r == Failure(NetworkError)
    ensures reply.Reply? && IsOk(reply.status) && reply.body.None? ==> r == Failure(InvalidJson)
  {
    match reply
    case NoResponse => Failure(NetworkError)
    case Reply(status, body) =>
      if !IsOk(status) then Failure(HttpError(status))
      else if body.None? then Failure(InvalidJson)
      else Success(body.value)
  }

  function DetectFace(reply: HttpReply<DetectFaceResponse>): Result<DetectFaceResponse, ApiError> {
    Receive(reply)
  }

  function EnrollUser(reply: HttpReply<EnrollResponse>): Result<EnrollResponse, ApiError> {
    Receive(reply)
  }

  function DeleteUser(reply: HttpReply<DeleteUserResponse>): Result<DeleteUserResponse, ApiError> {
    Receive(reply)
  }

  /**
   * The record `getUsers` derives from a backend user: every field kept,
   * `employee_id` the string form of the id, `enrollment_date` the part of
   * `created_at` before the first "T" (all of it when there is none), and
   * `status` "active".
   */
  function TransformUser(u: User): (t: User)
    ensures t.(employeeId := u.employeeId, enrollmentDate := u.enrollmentDate, status := u.status) == u
    ensures t.employeeId.Some? && IsIntegerNumeral(t.employeeId.value) && NumeralValue(t.employeeId.value) == u.id
    ensures IsCanonicalNumeral(t.employeeId.value)
    ensures t.enrollmentDate.Some? && IsPrefixOf(t.enrollmentDate.value, u.createdAt)
    ensures 'T' !in t.enrollmentDate.value
    ensures |t.enrollmentDate.value| == |u.createdAt| || u.createdAt[|t.enrollmentDate.value|] == 'T'
    ensures t.status == Some("active")
  {
    IntToStringRoundTrip(u.id);
    u.(employeeId := Some(IntToString(u.id)),
       enrollmentDate := Some(BeforeFirst(u.createdAt, 'T')),
       status := Some("active"))
  }

  /** `response.users.map(transformUser)`: every user transformed, in order. */
  function TransformUsers(raw: seq<User>): (users: seq<User>)
    ensures |users| == |raw|
    ensures forall i :: 0 <= i < |raw| ==> users[i] == TransformUser(raw[i])
  {
    seq(|raw|, i requires 0 <= i < |raw| => TransformUser(raw[i]))
  }

  /**
   * `getUsers`: a failed reply throws; otherwise every user is transformed,
   * in order, and `success` and `count` are copied as the backend sent them.
   */
  function GetUsers(reply: HttpReply<GetUsersResponse>): (r: Result<GetUsersResponse, ApiError>)
    ensures r.Failure? <==> Receive(reply).Failure?
    ensures r.Failure? ==> r.error == Receive(reply).error
    ensures r.Success? ==>
      var data := reply.body.value;
      && r.value.success == data.success
      && r.value.count == data.count
      && r.value.users == TransformUsers(data.users)
  {
    match Receive(reply)
    case Failure(e) => Failure(e)
    case Success(data) => Success(GetUsersResponse(data.success, TransformUsers(data.users), data.count))
  }
}
