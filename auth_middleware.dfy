/** The request guards of server/src/middleware/auth.js: `protect` finds the
    token in the request headers, verifies it and loads the account it
    names; `authorize` admits listed roles; `trackAnalytics` logs an event
    for an authenticated request without ever failing it. JWT verification
    is a parameter (`verify`), answering the decoded claims or None when
    the signature or expiry check throws. */
module AuthMiddleware {

  import opened Common
  import opened Text
  import opened UserModel
  import opened AnalyticsModel
  import opened Store
  import opened AccessPolicy

  // ---------------------------------------------------------------------------
  // protect

  /** The token of a request: with an `Authorization` header starting with
      "Bearer", its second space-separated field (and `x-auth-token` is then
      not consulted); otherwise `x-auth-token`. An empty or missing token is
      `None`. */
  function ExtractToken(authorization: Option<string>, xAuthToken: Option<string>): (token: Option<string>)
    ensures token.Some? ==> token.value != ""
    ensures Truthy(authorization) && "Bearer" <= authorization.value ==>
      (token.Some? <==> SecondField(authorization.value, ' ').Some? && SecondField(authorization.value, ' ').value != "")
      && (token.Some? ==> token == SecondField(authorization.value, ' ') && ' ' !in token.value)
    ensures !(Truthy(authorization) && "Bearer" <= authorization.value) ==>
      token == (if Truthy(xAuthToken) then xAuthToken else None)
  {
    if Truthy(authorization) && "Bearer" <= authorization.value then
      var field := SecondField(authorization.value, ' ');
      if field.Some? && field.value != "" then field else None
    else if Truthy(xAuthToken) then xAuthToken
    else None
  }

  /** "Bearer <t>" yields `t`, also with further fields after it. */
  lemma BearerToken(t: string, rest: string, xAuthToken: Option<string>)
    requires t != "" && ' ' !in t
    ensures ExtractToken(Some("Bearer " + t), xAuthToken) == Some(t)
    ensures ExtractToken(Some("Bearer " + t + " " + rest), xAuthToken) == Some(t)
  {
    SecondFieldOf("Bearer", ' ', t, rest);
    assert "Bearer " + t == "Bearer" + [' '] + t;
    assert "Bearer " + t + " " + rest == "Bearer" + [' '] + t + [' '] + rest;
  }

  /** A bare "Bearer" header has no token, whatever `x-auth-token` says. */
  lemma BareBearerIgnoresAlternative(xAuthToken: Option<string>)
    ensures ExtractToken(Some("Bearer"), xAuthToken) == None
  {
    assert ' ' !in "Bearer";
  }

  /** The claims `jwt.verify` decodes: a top-level `id`, or a nested `user.id`. */
  datatype Claims = Claims(id: Option<UserId>, nestedUserId: Option<UserId>)

  /** `decoded.id || (decoded.user && decoded.user.id)`. */
  function ClaimedId(c: Claims): (id: Option<UserId>)
    ensures c.id.Some? ==> id == c.id
    ensures c.id.None? ==> id == c.nestedUserId
  {
    if c.id.Some? then c.id else c.nestedUserId
  }

  const NotAuthorized: string := "Not authorized to access this route"
  const InvalidTokenFormat: string := "Invalid token format"
  const TokenNotValid: string := "Token is not valid"

  /** `protect`: 401 in every failing case, with the message of the source:
      no token, a token `verify` refuses, claims without a user id, or an
      id with no account. Otherwise the request acts as that account. */
  function Protect(db: Database, authorization: Option<string>, xAuthToken: Option<string>,
                   verify: string -> Option<Claims>): (r: Result<Actor, string>)
    reads db
    ensures var token := ExtractToken(authorization, xAuthToken);
      && (token.None? ==> r == Failure(NotAuthorized))
      && (token.Some? && verify(token.value).None? ==> r == Failure(TokenNotValid))
      && (token.Some? && verify(token.value).Some? && ClaimedId(verify(token.value).value).None? ==>
            r == Failure(InvalidTokenFormat))
      && (token.Some? && verify(token.value).Some? && ClaimedId(verify(token.value).value).Some? &&
          ClaimedId(verify(token.value).value).value !in db.users
          ==> r == Failure(NotAuthorized))
      && (r.Success? <==>
            token.Some? && verify(token.value).Some? && ClaimedId(verify(token.value).value).Some? &&
            ClaimedId(verify(token.value).value).value in db.users)
      && (r.Success? ==>
            var id := ClaimedId(verify(token.value).value).value;
            id in db.users && r.value == Actor(id, db.users[id].role))
  {
    var token := ExtractToken(authorization, xAuthToken);
    if token.None? then Failure(NotAuthorized)
    else match verify(token.value)
      case None => Failure(TokenNotValid)
      case Some(claims) =>
        var id := ClaimedId(claims);
        if id.None? then Failure(InvalidTokenFormat)
        else if id.value !in db.users then Failure(NotAuthorized)
        else Success(Actor(id.value, db.users[id.value].role))
  }

  // ---------------------------------------------------------------------------
  // authorize

  /** `authorize(...roles)`: the request continues iff the actor's role name
      is among `roles`; otherwise 403. */
  function Authorize(roles: seq<string>, actor: Actor): (s: Status)
    ensures s in {Ok, Forbidden}
    ensures s == Ok <==> exists i :: 0 <= i < |roles| && roles[i] == RoleName(actor.role)
  {
    if RoleName(actor.role) in roles then Ok else Forbidden
  }

  /** `authorize('admin')` admits exactly the admins; a role list naming both
      roles admits everyone. */
  lemma AuthorizeRoles(actor: Actor)
    ensures Authorize(["admin"], actor) == Ok <==> IsAdmin(actor)
    ensures Authorize(["admin", "user"], actor) == Ok
  {
    assert ["admin"][0] == "admin";
    assert ["admin", "user"][1] == "user";
  }

  // ---------------------------------------------------------------------------
  // trackAnalytics

  /** The fields `trackAnalytics` hands to `Analytics.create`: the actor,
      the route's action type, the time and the request's address and agent,
      plus the image and collection only when the route has those params. */
  function TrackedData(actor: Actor, actionType: string, imageParam: Option<ImageId>, collectionParam: Option<CollectionId>,
                       now: int, ip: Option<string>, userAgent: Option<string>): (d: EventData)
    ensures d.user == Some(actor.id) && d.actionType == Some(actionType) && d.timestamp == Some(now)
    ensures d.image == imageParam && d.collection == collectionParam
    ensures d.ipAddress == ip && d.userAgent == userAgent
  {
    EventData(Some(actor.id), Some(actionType), imageParam, collectionParam, Some(now), ip, userAgent)
  }

  /** `trackAnalytics(actionType)`: with an actor, one event is appended
      when `Analytics.create` succeeds (`createOk`, and a valid action type);
      without one, or when writing fails, nothing is. The request always
      continues. */
  method TrackAnalytics(db: Database, actor: Option<Actor>, actionType: string,
                        imageParam: Option<ImageId>, collectionParam: Option<CollectionId>,
                        now: int, ip: Option<string>, userAgent: Option<string>, createOk: bool)
    returns (next: bool)
    requires db.Valid()
    modifies db`events
    ensures db.Valid()
    ensures next
    ensures actor.None? || !createOk || ParseActionType(actionType).None? ==> db.events == old(db.events)
    ensures actor.Some? && createOk && ParseActionType(actionType).Some? ==>
      var e := AnalyticsModel.Create(TrackedData(actor.value, actionType, imageParam, collectionParam, now, ip, userAgent), now);
      && e.Some?
      && db.events == old(db.events) + [e.value]
      && e.value.user == actor.value.id && ActionName(e.value.actionType) == actionType
      && e.value.image == imageParam && e.value.collection == collectionParam && e.value.timestamp == now
  {
    next := true;
    if actor.Some? {
      var e := AnalyticsModel.Create(TrackedData(actor.value, actionType, imageParam, collectionParam, now, ip, userAgent), now);
      if createOk && e.Some? {
        db.events := db.events + [e.value];
      }
    }
  }
}
