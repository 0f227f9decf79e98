/** The cookie authentication strategy: `validateFunc`, the scope list it
    derives, and the scope check Hapi makes with it before a handler runs. */
module AuthPlugin {
  import opened Wrappers
  import opened Store

  /** What a validated request carries: the session row with its user
      included, and the scopes Hapi checks routes against. */
  datatype Credentials = Credentials(session: Session, user: UserView, scope: seq<string>)

  datatype Validation = Invalid | Valid(credentials: Credentials)

  /** `['user', 'user-<userId>', role]` */
  function Scope(userId: UserId, role: Role): (scope: seq<string>)
    ensures |scope| == 3
  {
    ["user", "user-" + userId, RoleName(role)]
  }

  /** The `user-<id>` entry of a scope list names its owner and nobody else. */
  lemma ScopeNamesOnlyOwner(userId: UserId, role: Role, other: UserId)
    ensures "user-" + other in Scope(userId, role) <==> other == userId
  {
    var tag := "user-" + other;
    if tag == "user-" + userId {
      assert other == tag[5..] == ("user-" + userId)[5..] == userId;
    }
    assert tag != RoleName(role) by {
      if role == ADMIN {
        assert tag[0] != RoleName(role)[0];
      }
    }
  }

  /** A scope list grants the `ADMIN` scope exactly when the role is ADMIN. */
  lemma ScopeGrantsAdminIffAdmin(userId: UserId, role: Role)
    ensures RoleName(ADMIN) in Scope(userId, role) <==> role == ADMIN
  {
    var tag := "user-" + userId;
    assert tag[0] == 'u' && RoleName(ADMIN)[0] == 'A';
    assert "user" != RoleName(ADMIN) by {
      assert |"user"| != |RoleName(ADMIN)|;
    }
    if role == USER {
      assert RoleName(USER)[0] == RoleName(ADMIN)[0] ==> false;
    }
  }

  /** `findUnique` of the cookie's session id, with its user included, and
      the scopes derived from it. */
  function Lookup(sessions: map<SessionId, Session>, users: map<UserId, User>, sid: SessionId): (v: Validation)
    requires SessionsWellFormed(sessions, users)
    ensures v.Valid? <==> sid in sessions
    ensures v.Valid? ==>
              && v.credentials.session == sessions[sid]
              && v.credentials.user == View(users[sessions[sid].userId])
              && v.credentials.scope == Scope(sessions[sid].userId, users[sessions[sid].userId].role)
  {
    if sid in sessions then
      var s := sessions[sid];
      var u := users[s.userId];
      Valid(Credentials(s, View(u), Scope(s.userId, u.role)))
    else
      Invalid
  }

  /** The decoded cookie holds a session id (`session?.id` is truthy) and
      there is a request. */
  predicate CarriesId(request: bool, cookieId: Option<string>)
    ensures CarriesId(request, cookieId) ==> cookieId.Some? && |cookieId.value| > 0
    ensures !request || cookieId == None || cookieId == Some("") ==> !CarriesId(request, cookieId)
  {
    request && cookieId.Some? && cookieId.value != ""
  }

  /** `validateFunc`: with no session id it answers invalid and touches
      nothing; otherwise it deletes every expired session, then looks the
      id up, and clears the cookie when the id is not (or no longer) there. */
  method Validate(db: Db, request: bool, cookieId: Option<string>, now: nat) returns (v: Validation, clearCookie: bool)
    requires db.Valid()
    modifies db
    ensures db.Valid() && db.users == old(db.users)
    ensures !CarriesId(request, cookieId) ==> v == Invalid && !clearCookie && db.sessions == old(db.sessions)
    ensures CarriesId(request, cookieId) ==>
              && db.sessions == Sweep(old(db.sessions), now)
              && v == Lookup(db.sessions, db.users, cookieId.value)
              && (clearCookie <==> v == Invalid)
    ensures v.Valid? ==> !Expired(v.credentials.session, now) && v.credentials.session.id in db.sessions
  {
    if !CarriesId(request, cookieId) {
      return Invalid, false;
    }
    db.sessions := Sweep(db.sessions, now);
    v := Lookup(db.sessions, db.users, cookieId.value);
    if v == Invalid {
      clearCookie := true;
      return;
    }
    clearCookie := false;
  }

  /** A session past its expiry time is never authenticated: the sweep
      runs before the lookup. */
  lemma NeverAuthenticatesExpired(sessions: map<SessionId, Session>, users: map<UserId, User>, sid: SessionId, now: nat)
    requires SessionsWellFormed(sessions, users)
    requires sid in sessions && Expired(sessions[sid], now)
    ensures SessionsWellFormed(Sweep(sessions, now), users)
    ensures Lookup(Sweep(sessions, now), users, sid) == Invalid
  {
  }

  /** A session is authenticated up to and including the millisecond of
      `validUntil` (the sweep deletes only `validUntil < now`). */
  lemma AuthenticatesLiveSession(sessions: map<SessionId, Session>, users: map<UserId, User>, sid: SessionId, now: nat)
    requires SessionsWellFormed(sessions, users)
    requires sid in sessions && sessions[sid].validUntil >= now
    ensures SessionsWellFormed(Sweep(sessions, now), users)
    ensures Lookup(Sweep(sessions, now), users, sid).Valid?
    ensures Lookup(Sweep(sessions, now), users, sid).credentials.session == sessions[sid]
  {
  }

  /** How a route is guarded: `auth: { mode: 'try' }` lets every request
      through; the default strategy (mode `required`) needs a valid session
      and, when the route names one, that scope among the credentials'. */
  datatype Guard = Try | Required(scope: Option<string>)

  function Admits(guard: Guard, v: Validation): (ok: bool)
    ensures guard.Required? && v.Invalid? ==> !ok
  {
    match guard
    case Try => true
    case Required(None) => v.Valid?
    case Required(Some(s)) => v.Valid? && s in v.credentials.scope
  }

  /** The admin routes (`scope: ADMIN`) admit a request exactly when its
      session is live and belongs to an ADMIN. */
  lemma {:induction false} AdminRoutesAdmitOnlyAdmins(sessions: map<SessionId, Session>, users: map<UserId, User>, sid: SessionId, now: nat)
    requires SessionsWellFormed(sessions, users)
    ensures SessionsWellFormed(Sweep(sessions, now), users)
    ensures Admits(Required(Some(RoleName(ADMIN))), Lookup(Sweep(sessions, now), users, sid))
        <==> sid in sessions && !Expired(sessions[sid], now) && users[sessions[sid].userId].role == ADMIN
  {
    var live := Sweep(sessions, now);
    if sid in live {
      var s := live[sid];
      ScopeGrantsAdminIffAdmin(s.userId, users[s.userId].role);
    }
  }
}
