/**
 * `NoneStatusGuard`: optional authentication for public endpoints. With no
 * authorization header the request passes untouched; otherwise the bearer
 * token is checked against the blacklist and validated, the user is looked
 * up, a banned user is answered with NotFound, and the request passes.
 *
 * The blacklist, the token validation and the user lookup are services
 * that are not part of this model; they are parameters here.
 */
module NoneStatusGuard {
  import opened Wrappers
  import Text

  datatype BanInfo = BanInfo(isBanned: bool)

  /** A user as `findUserByUserId` returns it; `banInfo` may be missing. */
  datatype User = User(id: string, login: string, email: string, banInfo: Option<BanInfo>)

  /** The claims `validAccessJWT` extracts from a valid access token. */
  datatype AccessPayload = AccessPayload(userId: string)

  /** The identity the guard assigns: `{ id, login, email, banInfo: { isBanned } }`. */
  datatype Identity = Identity(id: string, login: string, email: string, isBanned: bool)

  /** A value of `request.user`: undefined, null, or an identity. */
  datatype UserSlot = Undefined | Null | Present(identity: Identity)

  /** `request.headers`, whose `authorization` entry may be missing. */
  datatype Headers = Headers(authorization: Option<string>)

  /** How `canActivate` ends: a returned boolean or an exception. */
  datatype Outcome = Returned(allowed: bool) | ThrewNotFound | ThrewTypeError

  /**
   * The collaborators: `blacklistJwtRepository.findJWT`,
   * `authService.validAccessJWT` and `usersService.findUserByUserId`.
   * A token that is `undefined` is passed on as `None`.
   */
  datatype Services = Services(
    findJWT: Option<string> -> bool,
    validAccessJWT: Option<string> -> Option<AccessPayload>,
    findUserByUserId: string -> Option<User>)

  class Request {
    const headers: Option<Headers>
    var user: UserSlot

    constructor (headers: Option<Headers>, user: UserSlot)
      ensures this.headers == headers && this.user == user
    {
      this.headers := headers;
      this.user := user;
    }
  }

  /** `request.headers && request.headers.authorization`: the empty string is falsy too. */
  predicate HasAuthorization(headers: Option<Headers>)
  {
    headers.Some? && headers.value.authorization.Some? && headers.value.authorization.value != ""
  }

  /** `authorization.split(' ')[1]`: the second space-separated field, if there is one. */
  function AccessToken(authorization: string): Option<string>
  {
    var fields := Text.Split(authorization, ' ');
    if |fields| > 1 then Some(fields[1]) else None
  }

  /** For `"<scheme> <token>"` with no space in either part the token is `<token>`. */
  lemma AccessTokenOfBearer(scheme: string, token: string)
    requires ' ' !in scheme && ' ' !in token
    ensures AccessToken(scheme + " " + token) == Some(token)
  {
    assert Text.Join([scheme, token], ' ') == scheme + " " + token;
    Text.SplitJoin([scheme, token], ' ');
  }

  /** A header without a space carries no token: the guard sees `undefined`. */
  lemma AccessTokenNeedsSpace(authorization: string)
    requires ' ' !in authorization
    ensures AccessToken(authorization) == None
  {
    Text.SplitNoSeparator(authorization, ' ');
  }

  predicate IsBanned(u: User)
  {
    u.banInfo.Some? && u.banInfo.value.isBanned
  }

  /** The user is looked up only for a token that is not blacklisted and validates. */
  function LookedUpUser(headers: Option<Headers>, services: Services): Option<User>
    requires HasAuthorization(headers)
  {
    var token := AccessToken(headers.value.authorization.value);
    var checkInBL := services.findJWT(token);
    var payload := services.validAccessJWT(token);
    if !checkInBL && payload.Some? then services.findUserByUserId(payload.value.userId) else None
  }

  /** How `canActivate` ends and what `request.user` holds afterwards. */
  datatype Decision = Decision(outcome: Outcome, user: UserSlot)

  /** The guard as written: any identity it builds is overwritten with null before returning. */
  function Decide(headers: Option<Headers>, user: UserSlot, services: Services): Decision
  {
    if !HasAuthorization(headers) then Decision(Returned(true), user)
    else
      var found := LookedUpUser(headers, services);
      if found.Some? && IsBanned(found.value) then Decision(ThrewNotFound, user)
      else if found.Some? && found.value.banInfo.None? then Decision(ThrewTypeError, user)
      else Decision(Returned(true), Null)
  }

  /**
   * `canActivate`. Reading `user.banInfo.isBanned` of a user without
   * `banInfo` throws a TypeError while the identity is being built.
   */
  method CanActivate(request: Request, services: Services) returns (r: Outcome)
    modifies request
    ensures r == Decide(request.headers, old(request.user), services).outcome
    ensures request.user == Decide(request.headers, old(request.user), services).user
  {
    if !HasAuthorization(request.headers) {
      return Returned(true);
    }
    var accessToken := AccessToken(request.headers.value.authorization.value);
    var checkInBL := services.findJWT(accessToken);
    var payload := services.validAccessJWT(accessToken);
    if !checkInBL && payload.Some? {
      var user := services.findUserByUserId(payload.value.userId);
      if user.Some? && IsBanned(user.value) {
        return ThrewNotFound;
      }
      if user.Some? {
        if user.value.banInfo.None? {
          return ThrewTypeError;
        }
        request.user := Present(Identity(user.value.id, user.value.login, user.value.email,
                                         user.value.banInfo.value.isBanned));
      }
    }
    request.user := Null;
    return Returned(true);
  }

  // ---------------------------------------------------------------------
  // Properties of the guard as written
  // ---------------------------------------------------------------------

  /** Without an authorization header the request passes and `request.user` is untouched. */
  lemma NoHeaderPassesUntouched(headers: Option<Headers>, user: UserSlot, services: Services)
    requires !HasAuthorization(headers)
    ensures Decide(headers, user, services) == Decision(Returned(true), user)
  {
  }

  /** The guard never rejects: it returns true or throws. */
  lemma NeverRejects(headers: Option<Headers>, user: UserSlot, services: Services)
    ensures Decide(headers, user, services).outcome != Returned(false)
  {
  }

  /** Past the header check, every path that returns leaves `request.user` null. */
  lemma ReturnLeavesNull(headers: Option<Headers>, user: UserSlot, services: Services)
    requires HasAuthorization(headers)
    requires Decide(headers, user, services).outcome.Returned?
    ensures Decide(headers, user, services).user == Null
  {
  }

  /** A valid, non-blacklisted token of a banned user is answered with NotFound. */
  lemma BannedUserNotFound(headers: Option<Headers>, user: UserSlot, services: Services)
    requires HasAuthorization(headers)
    requires LookedUpUser(headers, services).Some? && IsBanned(LookedUpUser(headers, services).value)
    ensures Decide(headers, user, services).outcome == ThrewNotFound
  {
  }

  /**
   * A blacklisted or invalid token never reaches the user lookup: the
   * decision is the same whatever `findUserByUserId` would answer.
   */
  lemma LookupOnlyForUsableToken(headers: Option<Headers>, user: UserSlot, s1: Services, s2: Services)
    requires HasAuthorization(headers)
    requires s1.findJWT == s2.findJWT && s1.validAccessJWT == s2.validAccessJWT
    requires var token := AccessToken(headers.value.authorization.value);
             s1.findJWT(token) || s1.validAccessJWT(token).None?
    ensures Decide(headers, user, s1) == Decide(headers, user, s2)
            && Decide(headers, user, s1) == Decision(Returned(true), Null)
  {
  }

  // ---------------------------------------------------------------------
  // The intended guard: keep the identity of an authenticated user
  // ---------------------------------------------------------------------

  /** As the guard is evidently meant to work: the identity survives, null only otherwise. */
  function DecideIntended(headers: Option<Headers>, user: UserSlot, services: Services): Decision
  {
    if !HasAuthorization(headers) then Decision(Returned(true), user)
    else
      var found := LookedUpUser(headers, services);
      if found.Some? && IsBanned(found.value) then Decision(ThrewNotFound, user)
      else if found.Some? && found.value.banInfo.None? then Decision(ThrewTypeError, user)
      else if found.Some? then
        Decision(Returned(true), Present(Identity(found.value.id, found.value.login, found.value.email, false)))
      else Decision(Returned(true), Null)
  }

  /** The intended guard authenticates the owner of a usable token who is not banned. */
  lemma IntendedAuthenticates(headers: Option<Headers>, user: UserSlot, services: Services, u: User)
    requires HasAuthorization(headers)
    requires LookedUpUser(headers, services) == Some(u)
    requires u.banInfo == Some(BanInfo(false))
    ensures DecideIntended(headers, user, services)
            == Decision(Returned(true), Present(Identity(u.id, u.login, u.email, false)))
  {
  }

  /** The intended guard differs from the written one only in the identity it keeps. */
  lemma IntendedAgreesOnOutcome(headers: Option<Headers>, user: UserSlot, services: Services)
    ensures DecideIntended(headers, user, services).outcome == Decide(headers, user, services).outcome
    ensures Decide(headers, user, services).user != DecideIntended(headers, user, services).user ==>
              Decide(headers, user, services).user == Null
              && DecideIntended(headers, user, services).user.Present?
  {
  }

  /**
   * The written guard discards that identity: for the header
   * `"Bearer t"`, a valid token `t` of the unbanned user `u1`,
   * `request.user` ends null where the intended guard has `u1`.
   */
  lemma IdentityDiscarded()
    ensures var u := User("u1", "login1", "u1@example.com", Some(BanInfo(false)));
            var services := Services(t => false, t => Some(AccessPayload("u1")), id => Some(u));
            var headers := Some(Headers(Some("Bearer t")));
            Decide(headers, Undefined, services) == Decision(Returned(true), Null)
            && DecideIntended(headers, Undefined, services).user == Present(Identity("u1", "login1", "u1@example.com", false))
  {
    var u := User("u1", "login1", "u1@example.com", Some(BanInfo(false)));
    var services := Services(t => false, t => Some(AccessPayload("u1")), id => Some(u));
    var headers := Some(Headers(Some("Bearer t")));
    assert HasAuthorization(headers);
    assert LookedUpUser(headers, services) == Some(u);
  }
}
