/**
 * The `protect` middleware (backend/middleware/authMiddleware.js): read a bearer token from
 * the `Authorization` header, verify it, and load the user it names without the password.
 * `jwt.verify` with the server's secret is the parameter `verify`; a token it rejects (bad
 * signature, expired, malformed, or no token at all) is `None`.
 */
module AuthMiddleware {
  import opened Wrappers
  import opened Http
  import opened Text
  import opened UserModel

  /** `jwt.verify(token, secret).id`, or `None` where `jwt.verify` throws. */
  type Verifier = string -> Option<UserId>

  predicate StartsWith(s: string, prefix: string) {
    |prefix| <= |s| && s[..|prefix|] == prefix
  }

  /** `header.split(' ')[1]`: the second space-separated piece, or `undefined` when there is none. */
  function TokenOf(header: string): (t: Option<string>)
    ensures t.Some? ==> ' ' !in t.value
    ensures t.None? <==> ' ' !in header
  {
    var parts := Split(header, ' ');
    if |parts| < 2 then None else Some(parts[1])
  }

  /** For `Bearer <t>` with a space-free `t`, the extracted token is exactly `t`. */
  lemma TokenOfBearer(t: string)
    requires ' ' !in t
    ensures TokenOf("Bearer " + t) == Some(t)
  {
    assert "Bearer " + t == "Bearer" + [' '] + t;
    SplitAfterFirst("Bearer", ' ', t);
    assert Split(t, ' ') == [t];
  }

  /**
   * `protect`: 401 'no token' unless the header exists and starts with "Bearer" (no space
   * required); 401 'token failed' when there is no second piece or it does not verify;
   * 401 'User not found' when no stored user has the verified id; otherwise the request
   * proceeds (`next()` once) with that user, minus its password, as `req.user`.
   */
  function Protect(authorization: Option<string>, verify: Verifier, users: UserCollection): (r: Result<PublicUser>)
    reads users
    ensures r == Err(Unauthorized("Not authorized, no token")) <==>
      !(authorization.Some? && StartsWith(authorization.value, "Bearer"))
    ensures r == Err(Unauthorized("Not authorized, token failed")) <==>
      && authorization.Some? && StartsWith(authorization.value, "Bearer")
      && (TokenOf(authorization.value).None? || verify(TokenOf(authorization.value).value).None?)
    ensures r == Err(Unauthorized("User not found")) <==>
      && authorization.Some? && StartsWith(authorization.value, "Bearer")
      && TokenOf(authorization.value).Some? && verify(TokenOf(authorization.value).value).Some?
      && forall k :: 0 <= k < |users.users| ==> users.users[k].id != verify(TokenOf(authorization.value).value).value
    ensures r.Ok? ==>
      && authorization.Some? && TokenOf(authorization.value).Some?
      && exists u :: u in users.users && verify(TokenOf(authorization.value).value) == Some(u.id)
           && r.value == WithoutPassword(u)
    ensures r.Ok? || r.error in {Unauthorized("Not authorized, no token"),
      Unauthorized("Not authorized, token failed"), Unauthorized("User not found")}
  {
    if authorization.None? || !StartsWith(authorization.value, "Bearer") then
      Err(Unauthorized("Not authorized, no token"))
    else
      match TokenOf(authorization.value)
      case None => Err(Unauthorized("Not authorized, token failed"))
      case Some(token) =>
        match verify(token)
        case None => Err(Unauthorized("Not authorized, token failed"))
        case Some(id) =>
          match FindById(users.users, id)
          case None => Err(Unauthorized("User not found"))
          case Some(u) => Ok(WithoutPassword(u))
  }

  /** A well-formed bearer header whose token verifies to a stored user's id lets exactly that user through. */
  lemma ProtectAdmits(t: string, verify: Verifier, users: UserCollection, u: User)
    requires users.Valid() && u in users.users
    requires ' ' !in t && verify(t) == Some(u.id)
    ensures Protect(Some("Bearer " + t), verify, users) == Ok(WithoutPassword(u))
  {
    TokenOfBearer(t);
    assert StartsWith("Bearer " + t, "Bearer");
    var k :| 0 <= k < |users.users| && users.users[k] == u;
    assert forall j :: 0 <= j < |users.users| && users.users[j].id == u.id ==> j == k by {
      assert UniqueIds(users.users);
    }
  }
}
