/** The Auth0 guards of server/src/middleware/auth0.js: `verifyAuth0Token`
    checks the `Authorization` header, takes the bearer token and builds the
    request's user from the verified claims; `requireAdmin` admits only the
    role 'admin'. Decoding the token header and fetching the signing key
    and verifying against it are parameters: `hasKid` says whether the
    decoded header carries a key id, `verify` answers the claims or None
    when verification throws. */
module Auth0Middleware {

  import opened Common
  import opened Text

  /** The claims of a verified Auth0 token used here; `roles` is the custom
      `https://thesora.io/roles` claim. */
  datatype Auth0Claims = Auth0Claims(sub: string, email: Option<string>, name: Option<string>, roles: Option<string>)

  /** The `req.user` the middleware sets. The role is a string: nothing
      constrains it to the two roles of the User schema. */
  datatype Auth0User = Auth0User(id: string, email: Option<string>, name: Option<string>, role: string)

  const HeaderMissing: string := "Authorization header missing"
  const NotBearer: string := "Token must be a Bearer token"
  const InvalidToken: string := "Invalid token"

  /** The role of a verified token: the roles claim when present and
      non-empty, else 'user'. */
  function RoleOf(claims: Auth0Claims): (role: string)
    ensures Truthy(claims.roles) ==> role == claims.roles.value
    ensures !Truthy(claims.roles) ==> role == "user"
  {
    if Truthy(claims.roles) then claims.roles.value else "user"
  }

  /** A header starting with "Bearer " always has a second field. */
  lemma BearerHasToken(header: string)
    requires "Bearer " <= header
    ensures SecondField(header, ' ').Some?
  {
    assert header[6] == ' ';
  }

  /** `verifyAuth0Token`: 401 "Authorization header missing" without a
      header; 401 unless it starts with "Bearer " (space included); then
      the token, always the second space-separated field, must decode with
      a key id and verify, else 401 "Invalid token". */
  function VerifyAuth0Token(authorization: Option<string>, hasKid: string -> bool,
                            verify: string -> Option<Auth0Claims>): (r: Result<Auth0User, string>)
    ensures !Truthy(authorization) ==> r == Failure(HeaderMissing)
    ensures Truthy(authorization) && !("Bearer " <= authorization.value) ==> r == Failure(NotBearer)
    ensures Truthy(authorization) && "Bearer " <= authorization.value ==>
      SecondField(authorization.value, ' ').Some? &&
      var token := SecondField(authorization.value, ' ').value;
      && (r.Success? <==> hasKid(token) && verify(token).Some?)
      && (r.Failure? ==> r.error == InvalidToken)
      && (r.Success? ==>
            var claims := verify(token).value;
            r.value == Auth0User(claims.sub, claims.email, claims.name, RoleOf(claims)))
  {
    if !Truthy(authorization) then Failure(HeaderMissing)
    else if !("Bearer " <= authorization.value) then Failure(NotBearer)
    else
      BearerHasToken(authorization.value);
      var token := SecondField(authorization.value, ' ').value;
      if !hasKid(token) then Failure(InvalidToken)
      else match verify(token)
        case None => Failure(InvalidToken)
        case Some(claims) => Success(Auth0User(claims.sub, claims.email, claims.name, RoleOf(claims)))
  }

  /** "Bearer <t>" is checked with the token `t`. */
  lemma Auth0BearerToken(t: string, hasKid: string -> bool, verify: string -> Option<Auth0Claims>)
    requires ' ' !in t
    ensures VerifyAuth0Token(Some("Bearer " + t), hasKid, verify).Success? <==> hasKid(t) && verify(t).Some?
  {
    SecondFieldOf("Bearer", ' ', t, "");
    assert "Bearer " + t == "Bearer" + [' '] + t;
  }

  /** `requireAdmin`: 403 unless a user is present whose role is exactly
      'admin'. */
  function RequireAdmin(user: Option<Auth0User>): (s: Status)
    ensures s in {Ok, Forbidden}
    ensures s == Ok <==> user.Some? && user.value.role == "admin"
  {
    if user.None? || user.value.role != "admin" then Forbidden else Ok
  }

  /** A verified token without a roles claim gets the role 'user', so it
      never passes `requireAdmin`. */
  lemma NoRolesClaimIsNotAdmin(authorization: Option<string>, hasKid: string -> bool, verify: string -> Option<Auth0Claims>)
    requires VerifyAuth0Token(authorization, hasKid, verify).Success?
    requires SecondField(authorization.value, ' ').Some?
    requires !Truthy(verify(SecondField(authorization.value, ' ').value).value.roles)
    ensures RequireAdmin(Some(VerifyAuth0Token(authorization, hasKid, verify).value)) == Forbidden
  {
  }
}
