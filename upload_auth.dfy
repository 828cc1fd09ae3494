/**
 * What the upload handlers under api/uploads/ share: the response shape, the truthiness
 * of request fields, the `Bearer` header test and the lookups they make, which are
 * modelled as inputs.
 */
module UploadAuth {
  import opened Common
  import Text

  /** `res.status(code).json(body)`. */
  datatype Response<B> = Response(status: int, body: B)

  /** An optional request string is truthy when present and non-empty. */
  predicate Given(s: Option<string>) {
    s.Some? && s.value != ""
  }

  /** `!authHeader || !authHeader.startsWith('Bearer ')`. */
  predicate Unauthorized(authHeader: Option<string>) {
    !Given(authHeader) || !Text.StartsWith(authHeader.value, "Bearer ")
  }

  /** `authHeader.split(' ')[1]`, for a header that passed the `Bearer ` test. */
  function Token(authHeader: string): (t: string)
    requires Text.StartsWith(authHeader, "Bearer ")
    ensures ' ' !in t
  {
    assert authHeader[6] == ' ';
    Text.OccurrencesPositive(authHeader, ' ', 6);
    Text.SplitSpec(authHeader, ' ');
    Text.Split(authHeader, ' ')[1]
  }

  /** The token of `Bearer <t>` is `t`, for a `t` without spaces. */
  lemma BearerToken(t: string)
    requires ' ' !in t
    ensures Text.StartsWith("Bearer " + t, "Bearer ")
    ensures Token("Bearer " + t) == t
  {
    assert "Bearer " + t == "Bearer" + [' '] + t;
    Text.SplitPrefix("Bearer", t, ' ');
    Text.SplitFree(t, ' ');
  }

  /** The signed-in user `supabase.auth.getUser(token)` finds, if any. */
  datatype User = User(email: string)

  /**
   * The environment and the lookups the handlers make. `users` is `getUser`, `owners` the
   * approved-owner query by e-mail (its `approved_owners.id`).
   */
  datatype Backend = Backend(
    configured: bool,
    users: string -> Option<User>,
    owners: string -> Option<string>)
}
