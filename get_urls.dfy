/**
 * The view-URL handler (api/uploads/get-urls.js): its request checks, a non-empty array
 * of at most 100 keys, and the map from each key to its signed URL. The signer is an input.
 */
module GetUrls {
  import opened Common
  import opened UploadAuth

  /** `req.body.s3Keys`: absent, some value that is not an array, or an array of keys. */
  datatype KeysField = Absent | NotArray | Keys(keys: seq<string>)

  datatype Rejection = MethodNotAllowed | MissingKeys | TooManyKeys | SignFailed

  datatype Body = Rejected(why: Rejection) | Urls(urls: map<string, string>, expiresIn: int)

  const MaxKeys := 100
  const ExpiresIn := 3600

  function Status(why: Rejection): int {
    match why
    case MethodNotAllowed => 405
    case MissingKeys => 400
    case TooManyKeys => 400
    case SignFailed => 500
  }

  /** Whether every key can be signed. */
  predicate AllSigned(keys: seq<string>, sign: string -> Option<string>) {
    forall k :: k in keys ==> sign(k).Some?
  }

  /** The handler; `sign` is `getSignedUrl` for a key, `None` when it throws. */
  function Handle(httpMethod: string, field: KeysField, sign: string -> Option<string>): Body {
    if httpMethod != "POST" then Rejected(MethodNotAllowed)
    else if !field.Keys? || |field.keys| == 0 then Rejected(MissingKeys)
    else if |field.keys| > MaxKeys then Rejected(TooManyKeys)
    else if !AllSigned(field.keys, sign) then Rejected(SignFailed)
    else Urls(map k | k in field.keys :: sign(k).value, ExpiresIn)
  }

  /**
   * Only a POST of an array of 1 to 100 keys whose signing succeeds gets URLs, one per
   * distinct key, each the key's own signed URL, valid for an hour.
   */
  lemma UrlsSpec(httpMethod: string, field: KeysField, sign: string -> Option<string>)
    ensures var body := Handle(httpMethod, field, sign);
      && (body.Urls? <==>
            httpMethod == "POST" && field.Keys? && 1 <= |field.keys| <= 100 && AllSigned(field.keys, sign))
      && (body.Urls? ==>
            && body.urls.Keys == set k | k in field.keys
            && (forall k :: k in body.urls ==> Some(body.urls[k]) == sign(k))
            && body.expiresIn == 3600)
      && (body == Rejected(TooManyKeys) <==> httpMethod == "POST" && field.Keys? && |field.keys| > 100)
  {
  }
}
