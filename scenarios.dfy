/** Sequences of requests, proved from the handlers' contracts alone. */
module Scenarios {
  import opened Wrappers
  import opened Failures
  import opened Passwords
  import opened Store
  import opened AuthPlugin
  import opened AuthRoute
  import opened UsersRoutes

  const HOUR: nat := 3_600_000

  /** Register, log in before and after an admin approves the account, then
      present the session cookie 23 and 25 hours later. */
  method ApprovalThenExpiry(kit: Kit, userId: UserId, sid: SessionId, t0: nat)
    returns (early: Validation, late: Validation, lateCleared: bool)
    requires kit.Sound() && kit.StrongEnough("Tr0ub4dor&3") && sid != ""
    ensures early.Valid? && early.credentials.session == Session(sid, userId, t0 + SESSION_VALIDITY)
    ensures early.credentials.scope == ["user", "user-" + userId, "USER"]
    ensures late == Invalid && lateCleared
  {
    var db := new Db();
    var email, password := "a@x.com", "Tr0ub4dor&3";
    var registered := Register(db, kit, email, password, userId);
    assert registered == Ok(());
    assert db.users[userId].email == email;

    var refused := Login(db, kit, email, password, sid, t0);
    assert refused == Fail(Unauthorized(NOT_APPROVED));

    var approval := UserPatch(Keep, Keep, Keep, Keep, Keep, Keep, Set(true));
    var approved := UpdateUser(db, kit, userId, approval);
    assert approved.Ok? && db.users[userId].isApproved;
    assert db.users[userId].email == email;

    var session := Login(db, kit, email, password, sid, t0);
    assert session == Ok(Session(sid, userId, t0 + SESSION_VALIDITY));

    var cleared;
    early, cleared := Validate(db, true, Some(sid), t0 + 23 * HOUR);
    late, lateCleared := Validate(db, true, Some(sid), t0 + 25 * HOUR);
    assert sid !in db.sessions;
  }

  /** Validating the same cookie twice at one instant gives the same answer,
      clears the cookie either both times or neither time,
      and leaves the session table as one validation left it. */
  method ValidateTwice(db: Db, request: bool, cookieId: Option<string>, now: nat)
    returns (first: Validation, firstCleared: bool, second: Validation, secondCleared: bool)
    requires db.Valid()
    modifies db
    ensures db.Valid() && second == first && secondCleared == firstCleared
    ensures CarriesId(request, cookieId) ==> db.sessions == Sweep(old(db.sessions), now)
    ensures !CarriesId(request, cookieId) ==> db.sessions == old(db.sessions)
  {
    first, firstCleared := Validate(db, request, cookieId, now);
    second, secondCleared := Validate(db, request, cookieId, now);
    if CarriesId(request, cookieId) {
      SweepIdempotent(old(db.sessions), now);
    }
  }

  /** Deleting a user twice leaves what deleting once left. */
  method DeleteTwice(db: Db, id: UserId)
    requires db.Valid()
    modifies db
    ensures db.Valid() && id !in db.users
    ensures db.users == old(db.users) - {id}
    ensures id in old(db.users) ==> db.sessions == DropSessionsOf(old(db.sessions), id)
    ensures id !in old(db.users) ==> db.sessions == old(db.sessions)
  {
    var r1 := DeleteUser(db, id);
    var r2 := DeleteUser(db, id);
  }
}
