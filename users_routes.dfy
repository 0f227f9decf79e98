/** The `/users` handlers: the admin listing, admin create, the four update
    routes and admin delete. */
module UsersRoutes {
  import opened Wrappers
  import opened Failures
  import opened Passwords
  import opened Store
  import opened Lexicographic
  import opened UsersFunctions

  // ----- GET /users: the listing -------------------------------------------

  ghost predicate EmailsDistinct(s: set<User>) {
    forall a, b :: a in s && b in s && a.email == b.email ==> a == b
  }

  /** Strictly ascending by e-mail (`orderBy: { email: 'asc' }`). */
  ghost predicate Ascending(xs: seq<User>) {
    forall i, j :: 0 <= i < j < |xs| ==> Less(xs[i].email, xs[j].email)
  }

  /** How many rows of `s` sort before `u`: its position in the ordering. */
  ghost function Rank(u: User, s: set<User>): nat {
    |set v | v in s && Less(v.email, u.email)|
  }

  lemma LowerBoundAll(a: string, b: string, s: set<User>)
    requires LessEq(a, b)
    requires forall u :: u in s ==> LessEq(b, u.email)
    ensures forall u :: u in s ==> LessEq(a, u.email)
  {
    forall u | u in s
      ensures LessEq(a, u.email)
    {
      Transitive(a, b, u.email);
    }
  }

  ghost function Pick(s: set<User>): (x: User)
    requires s != {}
    ensures x in s
  {
    var x :| x in s; x
  }

  /** A row of `s` whose e-mail sorts first (LeastIsLeast). */
  ghost function Least(s: set<User>): (m: User)
    requires s != {}
    ensures m in s
    decreases |s|
  {
    var x := Pick(s);
    if s == {x} then
      x
    else
      var m := Least(s - {x});
      if LessEq(x.email, m.email) then x else m
  }

  lemma {:induction false} LeastIsLeast(s: set<User>)
    requires s != {}
    ensures forall u :: u in s ==> LessEq(Least(s).email, u.email)
    decreases |s|
  {
    var x := Pick(s);
    if s == {x} {
      Reflexive(x.email);
    } else {
      var m := Least(s - {x});
      LeastIsLeast(s - {x});
      if LessEq(x.email, m.email) {
        LowerBoundAll(x.email, m.email, s - {x});
        Reflexive(x.email);
      } else {
        Total(x.email, m.email);
      }
    }
  }

  /** The rows of `s` in ascending e-mail order: the least, then the rest
      in order (OrderedMembers, OrderedAscending). */
  ghost function Ordered(s: set<User>): (xs: seq<User>)
    ensures |xs| == |s|
    decreases |s|
  {
    if s == {} then [] else var m := Least(s); [m] + Ordered(s - {m})
  }

  /** The ordering holds the rows of `s` and nothing else. */
  lemma {:induction false} OrderedMembers(s: set<User>)
    ensures forall u :: u in Ordered(s) <==> u in s
    decreases |s|
  {
    if s != {} {
      var m := Least(s);
      OrderedMembers(s - {m});
      assert Ordered(s) == [m] + Ordered(s - {m});
    }
  }

  /** The least row sorts strictly before every other row. */
  lemma LeastBeforeOthers(s: set<User>)
    requires EmailsDistinct(s) && s != {}
    ensures forall u :: u in s - {Least(s)} ==> Less(Least(s).email, u.email)
  {
    LeastIsLeast(s);
  }

  lemma AscendingCons(m: User, rest: seq<User>)
    requires Ascending(rest)
    requires forall j :: 0 <= j < |rest| ==> Less(m.email, rest[j].email)
    ensures Ascending([m] + rest)
  {
    var xs := [m] + rest;
    forall i, j | 0 <= i < j < |xs|
      ensures Less(xs[i].email, xs[j].email)
    {
      if i > 0 {
        assert xs[i] == rest[i - 1] && xs[j] == rest[j - 1];
      }
    }
  }

  lemma {:induction false} OrderedAscending(s: set<User>)
    requires EmailsDistinct(s)
    ensures Ascending(Ordered(s))
    decreases |s|
  {
    if s != {} {
      var m := Least(s);
      var rest := Ordered(s - {m});
      OrderedAscending(s - {m});
      OrderedMembers(s - {m});
      LeastBeforeOthers(s);
      assert forall j :: 0 <= j < |rest| ==> rest[j] in s - {m};
      AscendingCons(m, rest);
      assert Ordered(s) == [m] + rest;
    }
  }

  /** Nothing sorts before the least row. */
  lemma RankOfLeast(s: set<User>)
    requires s != {}
    ensures Rank(Least(s), s) == 0
  {
    var m := Least(s);
    var below := set v | v in s && Less(v.email, m.email);
    LeastIsLeast(s);
    forall v | v in s
      ensures v !in below
    {
      if Less(v.email, m.email) {
        Antisymmetric(v.email, m.email);
      }
    }
    assert below == {};
  }

  /** Removing a row that sorts before `x` lowers the rank of `x` by one. */
  lemma RankWithout(s: set<User>, m: User, x: User)
    requires m in s && Less(m.email, x.email)
    ensures Rank(x, s) == Rank(x, s - {m}) + 1
  {
    var below := set v | v in s && Less(v.email, x.email);
    var belowRest := set v | v in s - {m} && Less(v.email, x.email);
    assert below == belowRest + {m};
    assert m !in belowRest;
  }

  /** The i-th row of the ordering has exactly i rows sorting before it. */
  lemma {:induction false} OrderedRank(s: set<User>, i: nat)
    requires EmailsDistinct(s) && i < |s|
    ensures Rank(Ordered(s)[i], s) == i
    decreases |s|
  {
    var m := Least(s);
    var rest := Ordered(s - {m});
    assert Ordered(s) == [m] + rest;
    if i == 0 {
      RankOfLeast(s);
    } else {
      var x := rest[i - 1];
      OrderedRank(s - {m}, i - 1);
      OrderedMembers(s - {m});
      LeastIsLeast(s);
      assert x in s - {m};
      assert Less(m.email, x.email);
      RankWithout(s, m, x);
    }
  }

  /** Each row of `s` sits in the ordering at the index its rank gives. */
  lemma RankPlacesMember(s: set<User>, u: User)
    requires EmailsDistinct(s) && u in s
    ensures Rank(u, s) < |s| && Ordered(s)[Rank(u, s)] == u
  {
    var xs := Ordered(s);
    OrderedMembers(s);
    var j :| 0 <= j < |xs| && xs[j] == u;
    OrderedRank(s, j);
  }

  /** A row in a window of the ordering has its rank inside the window. */
  lemma WindowMemberRanked(s: set<User>, lo: nat, hi: nat, u: User)
    requires EmailsDistinct(s) && lo <= hi <= |s|
    requires u in Ordered(s)[lo..hi]
    ensures u in s && lo <= Rank(u, s) < hi
  {
    var xs := Ordered(s);
    var k :| lo <= k < hi && xs[k] == u;
    OrderedMembers(s);
    OrderedRank(s, k);
  }

  /** A row whose rank is inside a window of the ordering is in it. */
  lemma RankedInWindow(s: set<User>, lo: nat, hi: nat, u: User)
    requires EmailsDistinct(s) && lo <= hi <= |s|
    requires u in s && lo <= Rank(u, s) < hi
    ensures u in Ordered(s)[lo..hi]
  {
    var xs := Ordered(s);
    RankPlacesMember(s, u);
    assert xs[lo..hi][Rank(u, s) - lo] == u;
  }

  /** The rows a window of the ordering holds are exactly those whose rank
      falls inside it. */
  lemma OrderedWindow(s: set<User>, lo: nat, hi: nat)
    requires EmailsDistinct(s) && lo <= hi <= |s|
    ensures forall u :: u in Ordered(s)[lo..hi] <==> u in s && lo <= Rank(u, s) < hi
  {
    forall u
      ensures u in Ordered(s)[lo..hi] <==> u in s && lo <= Rank(u, s) < hi
    {
      if u in Ordered(s)[lo..hi] {
        WindowMemberRanked(s, lo, hi, u);
      }
      if u in s && lo <= Rank(u, s) < hi {
        RankedInWindow(s, lo, hi, u);
      }
    }
  }

  /** Every rank is below the number of rows. */
  lemma RanksBelowSize(s: set<User>)
    requires EmailsDistinct(s)
    ensures forall u :: u in s ==> Rank(u, s) < |s|
  {
    forall u | u in s
      ensures Rank(u, s) < |s|
    {
      RankPlacesMember(s, u);
    }
  }

  /** The end of the window that skips `skip` rows and takes `take`. */
  function WindowEnd(size: nat, skip: nat, take: nat): (end: nat)
    requires skip <= size
    ensures skip <= end <= size && end - skip <= take
    ensures end == size || end == skip + take
  {
    if skip + take <= size then skip + take else size
  }

  /** What `findMany({ skip, take, orderBy: { email: 'asc' } })` returns
      when `skip` is short of the row count: at least one and at most `take`
      rows, in ascending order, exactly those ranked from `skip` on. */
  lemma {:induction false} WindowOfOrdering(s: set<User>, skip: nat, take: nat)
    requires EmailsDistinct(s) && skip < |s| && take > 0
    ensures var w := Ordered(s)[skip..WindowEnd(|s|, skip, take)];
            && 0 < |w| <= take
            && Ascending(w)
            && forall u :: u in w <==> u in s && skip <= Rank(u, s) < skip + take
  {
    var end := WindowEnd(|s|, skip, take);
    OrderedWindow(s, skip, end);
    RanksBelowSize(s);
    OrderedAscending(s);
    var xs := Ordered(s);
    var w := xs[skip..end];
    forall i, j | 0 <= i < j < |w|
      ensures Less(w[i].email, w[j].email)
    {
      assert w[i] == xs[skip + i] && w[j] == xs[skip + j];
    }
  }

  /** The users the listing ranges over: every row but the caller's
      (`where: { id: { not: id } }`). */
  function Others(users: map<UserId, User>, callerId: UserId): (s: set<User>)
    requires KeysMatch(users)
    ensures forall u :: u in s <==> u.id in users && users[u.id] == u && u.id != callerId
  {
    set id | id in users && id != callerId :: users[id]
  }

  lemma OthersDistinct(users: map<UserId, User>, callerId: UserId)
    requires KeysMatch(users) && UniqueEmails(users)
    ensures EmailsDistinct(Others(users, callerId))
  {
  }

  /** `data: null`, or a page of rows with its pagination links. */
  datatype UsersReply = NoData | Data(users: seq<User>, page: Page)

  /** GET /users with `take` and `page` as the query schema bounds them:
      skip `take * (page - 1)` rows of the others in e-mail order, return
      at most `take`, and `data: null` when nothing is left. */
  ghost function GetUsers(users: map<UserId, User>, callerId: UserId, url: Url, take: nat, page: nat): (r: UsersReply)
    requires KeysMatch(users) && UniqueEmails(users)
    requires 25 <= take <= 500 && page >= 1
    ensures var others := Others(users, callerId);
            var skip := take * (page - 1);
            && (r.NoData? <==> skip >= |others|)
            && (r.Data? ==>
                  && 0 < |r.users| <= take
                  && Ascending(r.users)
                  && (forall u :: u in r.users <==> u in others && skip <= Rank(u, others) < skip + take)
                  && r.page == CreatePaginationObject(url, take, page, |others|))
  {
    var others := Others(users, callerId);
    var skip := take * (page - 1);
    if skip >= |others| then
      NoData
    else
      OthersDistinct(users, callerId);
      WindowOfOrdering(others, skip, take);
      Data(Ordered(others)[skip..WindowEnd(|others|, skip, take)], CreatePaginationObject(url, take, page, |others|))
  }

  /** The listing never shows the caller, and shows only stored rows. */
  lemma ListingExcludesCaller(users: map<UserId, User>, callerId: UserId, url: Url, take: nat, page: nat)
    requires KeysMatch(users) && UniqueEmails(users)
    requires 25 <= take <= 500 && page >= 1
    ensures var r := GetUsers(users, callerId, url, take, page);
            r.Data? ==> forall u :: u in r.users ==> u.id != callerId && u.id in users && users[u.id] == u
  {
  }

  // ----- POST /users --------------------------------------------------------

  /** The payload of POST /users; `isApproved` may be left out. */
  datatype NewUser = NewUser(
    email: string,
    password: string,
    role: Role,
    firstName: Option<string>,
    lastName: Option<string>,
    avatarURL: Option<string>,
    isApproved: Option<bool>)

  /** The row `user.create({ data: { ...rest, email, id, password } })` inserts. */
  function Created(id: UserId, p: NewUser, digest: string): (u: User)
    ensures u.id == id && u.email == p.email && u.password == digest && u.role == p.role
    ensures u.firstName == p.firstName && u.lastName == p.lastName && u.avatarURL == p.avatarURL
    ensures u.isApproved == (p.isApproved.Some? && p.isApproved.value)
  {
    User(id, p.email, digest, p.role, p.firstName, p.lastName, p.avatarURL, p.isApproved.GetOr(false))
  }

  /** POST /users: e-mail conflict first, then strength (the reverse of
      /register), then hash and insert. */
  method CreateUser(db: Db, kit: Kit, p: NewUser, freshId: UserId) returns (r: Reply<()>)
    requires db.Valid() && freshId !in db.users
    modifies db
    ensures db.Valid() && db.sessions == old(db.sessions)
    ensures EmailTaken(old(db.users), p.email) ==>
              r == Fail(Conflict) && db.users == old(db.users)
    ensures !EmailTaken(old(db.users), p.email) && !kit.StrongEnough(p.password) ==>
              r == Fail(BadRequest(TOO_EASY)) && db.users == old(db.users)
    ensures !EmailTaken(old(db.users), p.email) && kit.StrongEnough(p.password) ==>
              && r == Ok(())
              && db.users == old(db.users)[freshId := Created(freshId, p, kit.hash(p.password))]
              && |db.users| == |old(db.users)| + 1
  {
    if EmailTaken(db.users, p.email) {
      return Fail(Conflict);
    }
    if !kit.StrongEnough(p.password) {
      return Fail(BadRequest(TOO_EASY));
    }
    var digest := kit.hash(p.password);
    db.users := db.users[freshId := Created(freshId, p, digest)];
    r := Ok(());
  }

  // ----- the update routes ---------------------------------------------------

  /** The data of `user.update`: every column the payload may set. */
  datatype UserPatch = UserPatch(
    email: Field<string>,
    password: Field<string>,
    role: Field<Role>,
    firstName: Field<Option<string>>,
    lastName: Field<Option<string>>,
    avatarURL: Field<Option<string>>,
    isApproved: Field<bool>)

  /** The payload of PATCH /users (every field optional). */
  datatype MePatch = MePatch(
    email: Field<string>,
    password: Field<string>,
    firstName: Field<Option<string>>,
    lastName: Field<Option<string>>,
    avatarURL: Field<Option<string>>)
  {
    /** The caller can never set their own role or approval. */
    function Changes(): (c: UserPatch)
      ensures c.role.Keep? && c.isApproved.Keep?
      ensures c.email == email && c.password == password
      ensures c.firstName == firstName && c.lastName == lastName && c.avatarURL == avatarURL
    {
      UserPatch(email, password, Keep, firstName, lastName, avatarURL, Keep)
    }
  }

  /** The payload of PUT /users (every field required). */
  datatype MeReplacement = MeReplacement(
    email: string,
    password: string,
    firstName: Option<string>,
    lastName: Option<string>,
    avatarURL: Option<string>)
  {
    /** Every column of the payload is written; role and approval are not. */
    function Changes(): (c: UserPatch)
      ensures c.role.Keep? && c.isApproved.Keep?
      ensures c.email == Set(email) && c.password == Set(password)
      ensures c.firstName == Set(firstName) && c.lastName == Set(lastName) && c.avatarURL == Set(avatarURL)
    {
      UserPatch(Set(email), Set(password), Keep, Set(firstName), Set(lastName), Set(avatarURL), Keep)
    }
  }

  /** The payload of PUT /users/{id} (every field required). */
  datatype UserReplacement = UserReplacement(
    email: string,
    password: string,
    role: Role,
    firstName: Option<string>,
    lastName: Option<string>,
    avatarURL: Option<string>,
    isApproved: bool)
  {
    /** Every column is written. */
    function Changes(): (c: UserPatch)
      ensures c.email == Set(email) && c.password == Set(password) && c.role == Set(role)
      ensures c.firstName == Set(firstName) && c.lastName == Set(lastName) && c.avatarURL == Set(avatarURL)
      ensures c.isApproved == Set(isApproved)
    {
      UserPatch(Set(email), Set(password), Set(role), Set(firstName), Set(lastName), Set(avatarURL), Set(isApproved))
    }
  }

  /** The row after `user.update`: supplied columns take the payload's
      value, the password its digest; the rest, and the id, stay. */
  function Updated(u: User, p: UserPatch, kit: Kit): (v: User)
    ensures v.id == u.id
    ensures p.password.Keep? ==> v.password == u.password
    ensures p.password.Set? ==> v.password == kit.hash(p.password.value)
    ensures p.email.Keep? ==> v.email == u.email
    ensures p.email.Set? ==> v.email == p.email.value
    ensures p.role.Keep? ==> v.role == u.role
    ensures p.role.Set? ==> v.role == p.role.value
    ensures p.firstName.Keep? ==> v.firstName == u.firstName
    ensures p.firstName.Set? ==> v.firstName == p.firstName.value
    ensures p.lastName.Keep? ==> v.lastName == u.lastName
    ensures p.lastName.Set? ==> v.lastName == p.lastName.value
    ensures p.avatarURL.Keep? ==> v.avatarURL == u.avatarURL
    ensures p.avatarURL.Set? ==> v.avatarURL == p.avatarURL.value
    ensures p.isApproved.Keep? ==> v.isApproved == u.isApproved
    ensures p.isApproved.Set? ==> v.isApproved == p.isApproved.value
  {
    User(
      u.id,
      p.email.Or(u.email),
      if p.password.Set? then kit.hash(p.password.value) else u.password,
      p.role.Or(u.role),
      p.firstName.Or(u.firstName),
      p.lastName.Or(u.lastName),
      p.avatarURL.Or(u.avatarURL),
      p.isApproved.Or(u.isApproved))
  }

  /** The supplied e-mail is already stored: `if (email)` then `findUnique`. */
  predicate EmailConflict(users: map<UserId, User>, p: UserPatch)
    ensures p.email.Keep? ==> !EmailConflict(users, p)
    ensures p.email.Set? ==> (EmailConflict(users, p) <==> exists id :: id in users && users[id].email == p.email.value)
  {
    p.email.Set? && EmailTaken(users, p.email.value)
  }

  /** The last step of every update route, once its checks have passed. */
  method ApplyUpdate(db: Db, kit: Kit, id: UserId, p: UserPatch) returns (r: Reply<UserView>)
    requires db.Valid() && !EmailConflict(db.users, p)
    modifies db
    ensures db.Valid() && db.sessions == old(db.sessions)
    ensures id !in old(db.users) ==> r == Fail(StoreError) && db.users == old(db.users)
    ensures id in old(db.users) ==>
              && db.users == old(db.users)[id := Updated(old(db.users)[id], p, kit)]
              && r == Ok(View(db.users[id]))
  {
    if id !in db.users {
      return Fail(StoreError);
    }
    var u := Updated(db.users[id], p, kit);
    db.users := db.users[id := u];
    r := Ok(View(u));
  }

  /** PUT /users: the caller's own row. Conflict, then strength, always. */
  method UpdateMe(db: Db, kit: Kit, callerId: UserId, p: MeReplacement) returns (r: Reply<UserView>)
    requires db.Valid()
    modifies db
    ensures db.Valid() && db.sessions == old(db.sessions)
    ensures forall id :: id in old(db.users) && id != callerId ==> id in db.users && db.users[id] == old(db.users)[id]
    ensures EmailTaken(old(db.users), p.email) ==>
              r == Fail(Conflict) && db.users == old(db.users)
    ensures !EmailTaken(old(db.users), p.email) && !kit.StrongEnough(p.password) ==>
              r == Fail(BadRequest(TOO_EASY)) && db.users == old(db.users)
    ensures !EmailTaken(old(db.users), p.email) && kit.StrongEnough(p.password) ==>
              && (callerId !in old(db.users) ==> r == Fail(StoreError) && db.users == old(db.users))
              && (callerId in old(db.users) ==>
                    && db.users == old(db.users)[callerId := Updated(old(db.users)[callerId], p.Changes(), kit)]
                    && r == Ok(View(db.users[callerId])))
  {
    var changes := p.Changes();
    if EmailConflict(db.users, changes) {
      return Fail(Conflict);
    }
    if !kit.StrongEnough(p.password) {
      return Fail(BadRequest(TOO_EASY));
    }
    r := ApplyUpdate(db, kit, callerId, changes);
  }

  /** PATCH /users: the caller's own row. Conflict if an e-mail is supplied,
      strength only if a password is. */
  method UpdateMePartial(db: Db, kit: Kit, callerId: UserId, p: MePatch) returns (r: Reply<UserView>)
    requires db.Valid()
    modifies db
    ensures db.Valid() && db.sessions == old(db.sessions)
    ensures forall id :: id in old(db.users) && id != callerId ==> id in db.users && db.users[id] == old(db.users)[id]
    ensures EmailConflict(old(db.users), p.Changes()) ==>
              r == Fail(Conflict) && db.users == old(db.users)
    ensures !EmailConflict(old(db.users), p.Changes()) && p.password.Set? && !kit.StrongEnough(p.password.value) ==>
              r == Fail(BadRequest(TOO_EASY)) && db.users == old(db.users)
    ensures !EmailConflict(old(db.users), p.Changes()) && (p.password.Keep? || kit.StrongEnough(p.password.value)) ==>
              && (callerId !in old(db.users) ==> r == Fail(StoreError) && db.users == old(db.users))
              && (callerId in old(db.users) ==>
                    && db.users == old(db.users)[callerId := Updated(old(db.users)[callerId], p.Changes(), kit)]
                    && r == Ok(View(db.users[callerId])))
  {
    var changes := p.Changes();
    if EmailConflict(db.users, changes) {
      return Fail(Conflict);
    }
    if p.password.Set? && !kit.StrongEnough(p.password.value) {
      return Fail(BadRequest(TOO_EASY));
    }
    r := ApplyUpdate(db, kit, callerId, changes);
  }

  /** PUT /users/{id} (named UpdateUserPartialRoute in the source, though it
      takes the full payload): not found, then conflict, then strength,
      always. */
  method UpdateUserPartial(db: Db, kit: Kit, id: UserId, p: UserReplacement) returns (r: Reply<UserView>)
    requires db.Valid()
    modifies db
    ensures db.Valid() && db.sessions == old(db.sessions)
    ensures forall other :: other in old(db.users) && other != id ==> other in db.users && db.users[other] == old(db.users)[other]
    ensures id !in old(db.users) ==>
              r == Fail(NotFound) && db.users == old(db.users)
    ensures id in old(db.users) && EmailTaken(old(db.users), p.email) ==>
              r == Fail(Conflict) && db.users == old(db.users)
    ensures id in old(db.users) && !EmailTaken(old(db.users), p.email) && !kit.StrongEnough(p.password) ==>
              r == Fail(BadRequest(TOO_EASY)) && db.users == old(db.users)
    ensures id in old(db.users) && !EmailTaken(old(db.users), p.email) && kit.StrongEnough(p.password) ==>
              && db.users == old(db.users)[id := Updated(old(db.users)[id], p.Changes(), kit)]
              && r == Ok(View(db.users[id]))
  {
    if id !in db.users {
      return Fail(NotFound);
    }
    var changes := p.Changes();
    if EmailConflict(db.users, changes) {
      return Fail(Conflict);
    }
    if !kit.StrongEnough(p.password) {
      return Fail(BadRequest(TOO_EASY));
    }
    r := ApplyUpdate(db, kit, id, changes);
  }

  /** PATCH /users/{id} (named UpdateUserRoute in the source, though it takes
      the partial payload): not found, then conflict if an e-mail is
      supplied, then strength only if a password is. */
  method UpdateUser(db: Db, kit: Kit, id: UserId, p: UserPatch) returns (r: Reply<UserView>)
    requires db.Valid()
    modifies db
    ensures db.Valid() && db.sessions == old(db.sessions)
    ensures forall other :: other in old(db.users) && other != id ==> other in db.users && db.users[other] == old(db.users)[other]
    ensures id !in old(db.users) ==>
              r == Fail(NotFound) && db.users == old(db.users)
    ensures id in old(db.users) && EmailConflict(old(db.users), p) ==>
              r == Fail(Conflict) && db.users == old(db.users)
    ensures id in old(db.users) && !EmailConflict(old(db.users), p) && p.password.Set? && !kit.StrongEnough(p.password.value) ==>
              r == Fail(BadRequest(TOO_EASY)) && db.users == old(db.users)
    ensures id in old(db.users) && !EmailConflict(old(db.users), p) && (p.password.Keep? || kit.StrongEnough(p.password.value)) ==>
              && db.users == old(db.users)[id := Updated(old(db.users)[id], p, kit)]
              && r == Ok(View(db.users[id]))
  {
    if id !in db.users {
      return Fail(NotFound);
    }
    if EmailConflict(db.users, p) {
      return Fail(Conflict);
    }
    if p.password.Set? && !kit.StrongEnough(p.password.value) {
      return Fail(BadRequest(TOO_EASY));
    }
    r := ApplyUpdate(db, kit, id, p);
  }

  /** A row's own e-mail counts as taken: an update that re-sends it is a
      conflict. */
  lemma OwnEmailConflicts(users: map<UserId, User>, id: UserId, p: UserPatch)
    requires id in users && p.email == Set(users[id].email)
    ensures EmailConflict(users, p)
  {
  }

  // ----- DELETE /users/{id} -------------------------------------------------

  /** DELETE /users/{id}: answers null whether or not the row exists; an
      existing row is deleted, and its sessions with it. */
  method DeleteUser(db: Db, id: UserId) returns (r: Reply<()>)
    requires db.Valid()
    modifies db
    ensures db.Valid() && r == Ok(())
    ensures id !in old(db.users) ==> db.users == old(db.users) && db.sessions == old(db.sessions)
    ensures id in old(db.users) ==>
              && db.users == old(db.users) - {id}
              && db.sessions == DropSessionsOf(old(db.sessions), id)
  {
    if id !in db.users {
      return Ok(());
    }
    db.users := db.users - {id};
    db.sessions := DropSessionsOf(db.sessions, id);
    r := Ok(());
  }
}
