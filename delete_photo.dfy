/**
 * The photo-deletion handler (api/uploads/delete.js): an ordered chain of checks on the
 * request, the signed-in user, the owner record and the photo row, and only then the
 * storage delete. The lookups and the storage call are inputs.
 */
module DeletePhoto {
  import opened Common
  import opened UploadAuth

  datatype DeleteRequest = DeleteRequest(
    httpMethod: string,
    s3Key: Option<string>,
    photoId: Option<string>,
    authorization: Option<string>)

  /** The `draft_photos` row selected by id: `id, s3_key, uploaded_by`. */
  datatype Photo = Photo(id: string, s3Key: string, uploadedBy: string)

  datatype Rejection =
    | MethodNotAllowed | MissingFields | NoAuthorization | Misconfigured | InvalidToken
    | NotOwner | PhotoNotFound | NotUploader | KeyMismatch | DeleteFailed

  function Status(why: Rejection): int {
    match why
    case MethodNotAllowed => 405
    case MissingFields => 400
    case NoAuthorization => 401
    case Misconfigured => 500
    case InvalidToken => 401
    case NotOwner => 403
    case PhotoNotFound => 404
    case NotUploader => 403
    case KeyMismatch => 400
    case DeleteFailed => 500
  }

  function Message(why: Rejection): string {
    match why
    case MethodNotAllowed => "Method not allowed"
    case MissingFields => "Missing required fields: s3Key, photoId"
    case NoAuthorization => "Authorization required"
    case Misconfigured => "Server configuration error"
    case InvalidToken => "Invalid or expired token"
    case NotOwner => "User is not an approved league owner"
    case PhotoNotFound => "Photo not found"
    case NotUploader => "You can only delete your own photos"
    case KeyMismatch => "S3 key mismatch"
    case DeleteFailed => "Failed to delete photo"
  }

  /** `{ success: true }` or the rejection. */
  datatype Body = Rejected(why: Rejection) | Success

  /**
   * The outcome and the key handed to the storage delete, if the handler got that far.
   */
  datatype Outcome = Outcome(body: Body, deleted: Option<string>)

  /** Every check passed: the delete request is for the caller's own photo under its recorded key. */
  predicate Authorized(r: DeleteRequest, b: Backend, photos: string -> Option<Photo>) {
    && r.httpMethod == "DELETE" && Given(r.s3Key) && Given(r.photoId)
    && !Unauthorized(r.authorization) && b.configured
    && var user := b.users(Token(r.authorization.value));
    && user.Some?
    && var owner := b.owners(user.value.email);
    && owner.Some?
    && var photo := photos(r.photoId.value);
    && photo.Some? && photo.value.uploadedBy == owner.value && photo.value.s3Key == r.s3Key.value
  }

  /**
   * The handler; `photos` is the `draft_photos` lookup by id, and `remove` tells whether
   * the storage delete of a key succeeds (`false` when it throws).
   */
  function Handle(r: DeleteRequest, b: Backend, photos: string -> Option<Photo>, remove: string -> bool): Outcome {
    if r.httpMethod != "DELETE" then Outcome(Rejected(MethodNotAllowed), None)
    else if !Given(r.s3Key) || !Given(r.photoId) then Outcome(Rejected(MissingFields), None)
    else if Unauthorized(r.authorization) then Outcome(Rejected(NoAuthorization), None)
    else if !b.configured then Outcome(Rejected(Misconfigured), None)
    else
      var user := b.users(Token(r.authorization.value));
      if user.None? then Outcome(Rejected(InvalidToken), None)
      else
        var owner := b.owners(user.value.email);
        if owner.None? then Outcome(Rejected(NotOwner), None)
        else
          var photo := photos(r.photoId.value);
          if photo.None? then Outcome(Rejected(PhotoNotFound), None)
          else if photo.value.uploadedBy != owner.value then Outcome(Rejected(NotUploader), None)
          else if photo.value.s3Key != r.s3Key.value then Outcome(Rejected(KeyMismatch), None)
          else if remove(r.s3Key.value) then Outcome(Success, Some(r.s3Key.value))
          else Outcome(Rejected(DeleteFailed), Some(r.s3Key.value))
  }

  function Respond(body: Body): Response<Body> {
    if body.Rejected? then Response(Status(body.why), body) else Response(200, body)
  }

  /**
   * The storage delete is attempted exactly when every check passed, and then only for
   * the requested key, which is the photo's recorded key; success needs it.
   */
  lemma DeleteOnlyWhenAuthorized(r: DeleteRequest, b: Backend, photos: string -> Option<Photo>, remove: string -> bool)
    ensures var o := Handle(r, b, photos, remove);
      && (o.deleted.Some? <==> Authorized(r, b, photos))
      && (o.deleted.Some? ==> o.deleted.value == r.s3Key.value == photos(r.photoId.value).value.s3Key)
      && (o.body == Success <==> Authorized(r, b, photos) && remove(r.s3Key.value))
      && (Respond(o.body).status == 200 <==> o.body == Success)
  {
  }

  /**
   * A photo uploaded by someone else is refused with 403 before the keys are compared, so
   * a wrong key on another owner's photo still reads as not yours; a key mismatch on one's
   * own photo is 400.
   */
  lemma OwnershipBeforeKey(r: DeleteRequest, b: Backend, photos: string -> Option<Photo>, remove: string -> bool)
    requires r.httpMethod == "DELETE" && Given(r.s3Key) && Given(r.photoId)
    requires !Unauthorized(r.authorization) && b.configured
    requires b.users(Token(r.authorization.value)).Some?
    requires b.owners(b.users(Token(r.authorization.value)).value.email).Some?
    requires photos(r.photoId.value).Some?
    ensures var owner := b.owners(b.users(Token(r.authorization.value)).value.email).value;
      var photo := photos(r.photoId.value).value;
      && (photo.uploadedBy != owner ==> Respond(Handle(r, b, photos, remove).body).status == 403)
      && (photo.uploadedBy == owner && photo.s3Key != r.s3Key.value ==>
            Handle(r, b, photos, remove).body == Rejected(KeyMismatch))
  {
  }

  /** The request checks decide before any lookup: method 405, fields 400, header 401. */
  lemma RequestChecks(r: DeleteRequest, b: Backend, photos: string -> Option<Photo>, remove: string -> bool)
    ensures var o := Handle(r, b, photos, remove);
      && (r.httpMethod != "DELETE" ==> o.body == Rejected(MethodNotAllowed) && Respond(o.body).status == 405)
      && (r.httpMethod == "DELETE" && (!Given(r.s3Key) || !Given(r.photoId)) ==>
            o.body == Rejected(MissingFields) && Respond(o.body).status == 400)
      && (r.httpMethod == "DELETE" && Given(r.s3Key) && Given(r.photoId) && Unauthorized(r.authorization) ==>
            o.body == Rejected(NoAuthorization) && Respond(o.body).status == 401)
  {
  }

  /**
   * After the request checks and configuration, an unknown user is 401, a user who is not
   * an approved owner 403 and an unknown photo 404.
   */
  lemma LookupFailures(r: DeleteRequest, b: Backend, photos: string -> Option<Photo>, remove: string -> bool)
    requires r.httpMethod == "DELETE" && Given(r.s3Key) && Given(r.photoId)
    requires !Unauthorized(r.authorization) && b.configured
    ensures var o := Handle(r, b, photos, remove);
      var user := b.users(Token(r.authorization.value));
      && (user.None? ==> o.body == Rejected(InvalidToken) && Respond(o.body).status == 401)
      && (user.Some? && b.owners(user.value.email).None? ==>
            o.body == Rejected(NotOwner) && Respond(o.body).status == 403)
      && (user.Some? && b.owners(user.value.email).Some? && photos(r.photoId.value).None? ==>
            o.body == Rejected(PhotoNotFound) && Respond(o.body).status == 404)
  {
  }
}
