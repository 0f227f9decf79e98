/** The `/register`, `/login` and `/me` handlers. */
module AuthRoute {
  import opened Wrappers
  import opened Failures
  import opened Passwords
  import opened Store
  import opened AuthPlugin

  /** SESSION_VALIDITY in milliseconds: the configured default, one day. */
  const SESSION_VALIDITY: nat := 86_400_000

  /** The row `user.create({ data: { id, email, password } })` inserts; the
      other columns take their defaults (role USER, not approved, no names). */
  function Registered(id: UserId, email: string, digest: string): (u: User)
    ensures u.id == id && u.email == email && u.password == digest
    ensures u.role == USER && !u.isApproved
  {
    User(id, email, digest, USER, None, None, None, false)
  }

  /** POST /register: strength check, then e-mail conflict, then hash and
      insert. `freshId` is the cuid the handler generates. */
  method Register(db: Db, kit: Kit, email: string, password: string, freshId: UserId) returns (r: Reply<()>)
    requires db.Valid() && freshId !in db.users
    modifies db
    ensures db.Valid() && db.sessions == old(db.sessions)
    ensures !kit.StrongEnough(password) ==>
              r == Fail(BadRequest(TOO_EASY)) && db.users == old(db.users)
    ensures kit.StrongEnough(password) && EmailTaken(old(db.users), email) ==>
              r == Fail(Conflict) && db.users == old(db.users)
    ensures kit.StrongEnough(password) && !EmailTaken(old(db.users), email) ==>
              && r == Ok(())
              && db.users == old(db.users)[freshId := Registered(freshId, email, kit.hash(password))]
              && |db.users| == |old(db.users)| + 1
  {
    if !kit.StrongEnough(password) {
      return Fail(BadRequest(TOO_EASY));
    }
    if EmailTaken(db.users, email) {
      return Fail(Conflict);
    }
    var digest := kit.hash(password);
    db.users := db.users[freshId := Registered(freshId, email, digest)];
    r := Ok(());
  }

  /** POST /login: look the e-mail up, compare the password, check approval,
      then insert a session valid for SESSION_VALIDITY from `now` and set
      the cookie to it (the returned session). An unknown e-mail and a wrong
      password give the same 404. `freshSid` is the random hex id. */
  method Login(db: Db, kit: Kit, email: string, password: string, freshSid: SessionId, now: nat)
    returns (r: Reply<Session>)
    requires db.Valid() && freshSid !in db.sessions
    modifies db
    ensures db.Valid() && db.users == old(db.users)
    ensures !EmailTaken(db.users, email) ==> r == Fail(NotFound) && db.sessions == old(db.sessions)
    ensures EmailTaken(db.users, email) ==>
              var u := UserWithEmail(db.users, email);
              && (!kit.compare(password, u.password) ==>
                    r == Fail(NotFound) && db.sessions == old(db.sessions))
              && (kit.compare(password, u.password) && !u.isApproved ==>
                    r == Fail(Unauthorized(NOT_APPROVED)) && db.sessions == old(db.sessions))
              && (kit.compare(password, u.password) && u.isApproved ==>
                    && r == Ok(Session(freshSid, u.id, now + SESSION_VALIDITY))
                    && db.sessions == old(db.sessions)[freshSid := r.value])
  {
    if !EmailTaken(db.users, email) {
      return Fail(NotFound);
    }
    var id :| id in db.users && db.users[id].email == email;
    var user := db.users[id];
    if !kit.compare(password, user.password) {
      return Fail(NotFound);
    }
    if !user.isApproved {
      return Fail(Unauthorized(NOT_APPROVED));
    }
    var session := Session(freshSid, user.id, now + SESSION_VALIDITY);
    db.sessions := db.sessions[freshSid := session];
    r := Ok(session);
  }

  /** GET /me: the session of the request's credentials, with its user, or
      `data: null` when the request carries none. */
  function Me(v: Validation): (data: Option<(Session, UserView)>)
    ensures data.Some? <==> v.Valid?
    ensures data.Some? ==> data.value.0 == v.credentials.session && data.value.1 == v.credentials.user
  {
    match v
    case Valid(c) => Some((c.session, c.user))
    case Invalid => None
  }

  /** What /me shows after validation: the cookie's session when it is still
      live, nothing when it has expired or never existed. */
  lemma MeShowsOnlyLiveSession(sessions: map<SessionId, Session>, users: map<UserId, User>, sid: SessionId, now: nat)
    requires SessionsWellFormed(sessions, users)
    ensures SessionsWellFormed(Sweep(sessions, now), users)
    ensures var data := Me(Lookup(Sweep(sessions, now), users, sid));
            && (data.Some? <==> sid in sessions && !Expired(sessions[sid], now))
            && (data.Some? ==> data.value.0 == sessions[sid] && data.value.1 == View(users[sessions[sid].userId]))
  {
  }
}
