/** The two database tables the core works on, `user` and `session`,
    held in memory by `Db`, with the constraints the database enforces. */
module Store {
  import opened Wrappers

  type UserId = string
  type SessionId = string

  datatype Role = USER | ADMIN

  /** The enum value as stored and as used for a scope. */
  function RoleName(role: Role): string {
    match role
    case USER => "USER"
    case ADMIN => "ADMIN"
  }

  /** A `user` row; `password` holds the bcrypt digest. */
  datatype User = User(
    id: UserId,
    email: string,
    password: string,
    role: Role,
    firstName: Option<string>,
    lastName: Option<string>,
    avatarURL: Option<string>,
    isApproved: bool)

  /** A user as a session includes it: every column except the password. */
  datatype UserView = UserView(
    id: UserId,
    email: string,
    role: Role,
    firstName: Option<string>,
    lastName: Option<string>,
    avatarURL: Option<string>,
    isApproved: bool)

  function View(u: User): (v: UserView)
    ensures v.id == u.id && v.email == u.email && v.role == u.role
    ensures v.firstName == u.firstName && v.lastName == u.lastName && v.avatarURL == u.avatarURL
    ensures v.isApproved == u.isApproved
  {
    UserView(u.id, u.email, u.role, u.firstName, u.lastName, u.avatarURL, u.isApproved)
  }

  /** A `session` row; `validUntil` is a time in milliseconds. */
  datatype Session = Session(id: SessionId, userId: UserId, validUntil: nat)

  predicate Expired(s: Session, now: nat) {
    s.validUntil < now
  }

  predicate KeysMatch(users: map<UserId, User>) {
    forall id :: id in users ==> users[id].id == id
  }

  /** The unique constraint on `user.email`. */
  predicate UniqueEmails(users: map<UserId, User>) {
    forall a, b :: a in users && b in users && users[a].email == users[b].email ==> a == b
  }

  /** Every session row is stored under its id and references an existing
      user (the foreign key from `session.userId`). */
  predicate SessionsWellFormed(sessions: map<SessionId, Session>, users: map<UserId, User>) {
    forall sid :: sid in sessions ==> sessions[sid].id == sid && sessions[sid].userId in users
  }

  predicate Consistent(users: map<UserId, User>, sessions: map<SessionId, Session>) {
    KeysMatch(users) && UniqueEmails(users) && SessionsWellFormed(sessions, users)
  }

  /** `findUnique({ where: { email } })` finds a row. */
  predicate EmailTaken(users: map<UserId, User>, email: string)
    ensures EmailTaken(users, email) <==> email in (set id | id in users :: users[id].email)
  {
    exists id :: id in users && users[id].email == email
  }

  /** The one row holding `email`. */
  ghost function UserWithEmail(users: map<UserId, User>, email: string): (u: User)
    requires KeysMatch(users) && UniqueEmails(users) && EmailTaken(users, email)
    ensures u.id in users && users[u.id] == u && u.email == email
    ensures forall id :: id in users && users[id].email == email ==> id == u.id
  {
    var id :| id in users && users[id].email == email;
    users[id]
  }

  /** `session.deleteMany({ where: { validUntil: { lt: now } } })`: the
      table that is left. */
  function Sweep(sessions: map<SessionId, Session>, now: nat): (live: map<SessionId, Session>)
    ensures forall sid :: sid in live ==> sid in sessions && live[sid] == sessions[sid]
    ensures forall sid :: sid in live ==> !Expired(live[sid], now)
    ensures forall sid :: sid in sessions && !Expired(sessions[sid], now) ==> sid in live
  {
    map sid | sid in sessions && !Expired(sessions[sid], now) :: sessions[sid]
  }

  /** The session table after the user row `id` is deleted: the foreign key
      cascades to the user's sessions. */
  function DropSessionsOf(sessions: map<SessionId, Session>, id: UserId): (rest: map<SessionId, Session>)
    ensures forall sid :: sid in rest ==> sid in sessions && rest[sid] == sessions[sid] && rest[sid].userId != id
    ensures forall sid :: sid in sessions && sessions[sid].userId != id ==> sid in rest
  {
    map sid | sid in sessions && sessions[sid].userId != id :: sessions[sid]
  }

  /** Sweeping twice at one instant leaves what sweeping once left. */
  lemma SweepIdempotent(sessions: map<SessionId, Session>, now: nat)
    ensures Sweep(Sweep(sessions, now), now) == Sweep(sessions, now)
  {
  }

  /** The database, with its two tables. */
  class Db {
    var users: map<UserId, User>
    var sessions: map<SessionId, Session>

    ghost predicate Valid()
      reads this
    {
      Consistent(users, sessions)
    }

    constructor ()
      ensures Valid() && users == map[] && sessions == map[]
    {
      users := map[];
      sessions := map[];
    }
  }
}
