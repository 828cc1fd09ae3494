/**
 * The upload-URL handler (api/uploads/presign.js): an ordered chain of checks on the
 * request, then the S3 key `drafts/<year>/<uuid>.<ext>` for a URL that expires after
 * 300 seconds. The user and owner lookups, the random UUID and the signer are inputs.
 */
module Presign {
  import opened Common
  import Text
  import opened UploadAuth

  datatype PresignRequest = PresignRequest(
    httpMethod: string,
    filename: Option<string>,
    contentType: Option<string>,
    seasonId: Option<string>,
    year: Option<int>,
    authorization: Option<string>)

  /** Why the handler turned the request down, in the order it checks. */
  datatype Rejection =
    | MethodNotAllowed | MissingFields | BadType | BadExtension | NoAuthorization
    | Misconfigured | InvalidToken | NotOwner | SignFailed

  /** The status code of each rejection. */
  function Status(why: Rejection): int {
    match why
    case MethodNotAllowed => 405
    case MissingFields => 400
    case BadType => 400
    case BadExtension => 400
    case NoAuthorization => 401
    case Misconfigured => 500
    case InvalidToken => 401
    case NotOwner => 403
    case SignFailed => 500
  }

  /** The `error` text of each rejection. */
  function Message(why: Rejection): string {
    match why
    case MethodNotAllowed => "Method not allowed"
    case MissingFields => "Missing required fields: filename, contentType, seasonId, year"
    case BadType => "Only JPG and PNG files are allowed"
    case BadExtension => "Invalid file extension"
    case NoAuthorization => "Authorization required"
    case Misconfigured => "Server configuration error"
    case InvalidToken => "Invalid or expired token"
    case NotOwner => "User is not an approved league owner"
    case SignFailed => "Failed to generate upload URL"
  }

  datatype Body = Rejected(why: Rejection) | Upload(uploadUrl: string, s3Key: string, expiresIn: int)

  const AllowedTypes: seq<string> := ["image/jpeg", "image/png"]
  const AllowedExtensions: seq<string> := ["jpg", "jpeg", "png"]
  const ExpiresIn := 300

  /** `!filename || !contentType || !seasonId || !year`: a year of 0 is falsy. */
  predicate MissingField(r: PresignRequest) {
    !Given(r.filename) || !Given(r.contentType) || !Given(r.seasonId) || r.year.None? || r.year.value == 0
  }

  /** `filename.split('.').pop().toLowerCase()`: the lower-cased text after the last dot, or the whole name. */
  function Extension(filename: string): (ext: string)
    ensures '.' !in ext
    ensures |ext| <= |filename|
    ensures forall i :: 0 <= i < |ext| ==> ext[i] == Text.LowerChar(filename[|filename| - |ext| + i])
    ensures '.' in filename ==> |ext| < |filename| && filename[|filename| - |ext| - 1] == '.'
    ensures '.' !in filename ==> |ext| == |filename|
  {
    var e := Text.LastPart(filename, '.');
    var ext := Text.Lower(e);
    assert forall i :: 0 <= i < |ext| ==> ext[i] != '.' by {
      forall i | 0 <= i < |ext| ensures ext[i] != '.' {
        assert e[i] != '.';
      }
    }
    ext
  }

  /** `` `drafts/${year}/${uuid}.${ext}` ``. */
  function Key(year: int, uuid: string, ext: string): string {
    "drafts/" + Text.IntToString(year) + "/" + uuid + "." + ext
  }

  /** The first request check that fails, in the order method, fields, type, extension, header. */
  function RequestCheck(r: PresignRequest): Option<Rejection> {
    if r.httpMethod != "POST" then Some(MethodNotAllowed)
    else if MissingField(r) then Some(MissingFields)
    else if r.contentType.value !in AllowedTypes then Some(BadType)
    else if Extension(r.filename.value) !in AllowedExtensions then Some(BadExtension)
    else if Unauthorized(r.authorization) then Some(NoAuthorization)
    else None
  }

  /** The handler's outcome; `sign` is `getSignedUrl` for a key, `None` when it throws. */
  function Handle(r: PresignRequest, b: Backend, uuid: string, sign: string -> Option<string>): Body {
    var check := RequestCheck(r);
    if check.Some? then Rejected(check.value)
    else if !b.configured then Rejected(Misconfigured)
    else
      var user := b.users(Token(r.authorization.value));
      if user.None? then Rejected(InvalidToken)
      else if b.owners(user.value.email).None? then Rejected(NotOwner)
      else
        var key := Key(r.year.value, uuid, Extension(r.filename.value));
        var url := sign(key);
        if url.None? then Rejected(SignFailed)
        else Upload(url.value, key, ExpiresIn)
  }

  /** `res.status(...).json(...)` for an outcome. */
  function Respond(body: Body): Response<Body> {
    if body.Rejected? then Response(Status(body.why), body) else Response(200, body)
  }

  /**
   * Each request check rejects exactly when every earlier one passed and its own failed,
   * so the first failing check decides the response; the lookups run only after all of them.
   */
  lemma Rejections(r: PresignRequest)
    ensures var c := RequestCheck(r);
      && (c == Some(MethodNotAllowed) <==> r.httpMethod != "POST")
      && (c == Some(MissingFields) <==> r.httpMethod == "POST" && MissingField(r))
      && (c == Some(BadType) <==> r.httpMethod == "POST" && !MissingField(r) && r.contentType.value !in AllowedTypes)
      && (c == Some(BadExtension) <==>
            r.httpMethod == "POST" && !MissingField(r) && r.contentType.value in AllowedTypes
            && Extension(r.filename.value) !in AllowedExtensions)
      && (c == Some(NoAuthorization) <==>
            r.httpMethod == "POST" && !MissingField(r) && r.contentType.value in AllowedTypes
            && Extension(r.filename.value) in AllowedExtensions && Unauthorized(r.authorization))
      && (c.None? <==> RequestValid(r))
  {
  }

  /** The request checks all pass. */
  predicate RequestValid(r: PresignRequest) {
    r.httpMethod == "POST" && !MissingField(r) && r.contentType.value in AllowedTypes
    && Extension(r.filename.value) in AllowedExtensions && !Unauthorized(r.authorization)
  }

  /** A rejected request never reaches the lookups or the signer, whatever they would answer. */
  lemma RejectedEarly(r: PresignRequest, b: Backend, b': Backend, uuid: string, sign: string -> Option<string>)
    requires !RequestValid(r)
    ensures Handle(r, b, uuid, sign) == Handle(r, b', uuid, sign) == Rejected(RequestCheck(r).value)
    ensures Respond(Handle(r, b, uuid, sign)).status in {400, 401, 405}
  {
    Rejections(r);
  }

  /**
   * A successful response names the key `drafts/<year>/<uuid>.<ext>` with an allowed,
   * lowercase extension, which is also what follows the key's last `.`, and expires after
   * 300 seconds; it needs a valid request, a known user and an approved owner.
   */
  lemma Success(r: PresignRequest, b: Backend, uuid: string, sign: string -> Option<string>)
    requires '/' !in uuid && '.' !in uuid
    requires Handle(r, b, uuid, sign).Upload?
    ensures var body := Handle(r, b, uuid, sign);
      && RequestValid(r) && b.configured
      && b.users(Token(r.authorization.value)).Some?
      && b.owners(b.users(Token(r.authorization.value)).value.email).Some?
      && Respond(body).status == 200
      && body.expiresIn == 300
      && var ext := Extension(r.filename.value);
      && ext in AllowedExtensions
      && Text.Split(body.s3Key, '/') == ["drafts", Text.IntToString(r.year.value), uuid + "." + ext]
      && Text.LastPart(body.s3Key, '.') == ext
  {
    Rejections(r);
    KeyShape(r.year.value, uuid, Extension(r.filename.value));
  }

  /** The key splits at `/` into `drafts`, the year and the file name, which ends in `.<ext>`. */
  lemma KeyShape(year: int, uuid: string, ext: string)
    requires '/' !in uuid && '.' !in uuid
    requires ext in AllowedExtensions
    ensures Text.Split(Key(year, uuid, ext), '/') == ["drafts", Text.IntToString(year), uuid + "." + ext]
    ensures Text.LastPart(Key(year, uuid, ext), '.') == ext
  {
    var y := Text.IntToString(year);
    var last := uuid + "." + ext;
    assert '/' !in ext && '.' !in ext;
    assert '/' !in last;
    var parts := ["drafts", y, last];
    assert Text.Join(parts, '/') == Key(year, uuid, ext) by {
      assert Text.Join(parts[1..], '/') == y + "/" + last;
    }
    Text.SplitJoin(parts, '/');
    KeyExtension(y, uuid, ext);
  }

  /** What follows the last `.` of `drafts/<y>/<uuid>.<ext>` is `ext`. */
  lemma KeyExtension(y: string, uuid: string, ext: string)
    requires '.' !in y && '.' !in uuid && '.' !in ext
    ensures Text.LastPart("drafts/" + y + "/" + uuid + "." + ext, '.') == ext
  {
    var head := "drafts/" + y + "/" + uuid;
    assert '.' !in head;
    var key := head + "." + ext;
    assert key == head + ['.'] + ext;
    Text.SplitPrefix(head, ext, '.');
    Text.SplitFree(ext, '.');
  }
}
