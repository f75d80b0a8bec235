/**
 The local account store (ipaper/local_auth.py): users, sessions, invitations and
 password reset codes as tables, and specification functions for its operations.

 Reads run outside any transaction; the first write of a call opens one, which ends with
 the commit. An operation that reads before it writes is therefore given in parts: what
 each read lets through is carried to the write as a value of `Ready`. The function with
 the plain name of the operation puts the parts together for a call nobody interrupts.

 SHA-256 is taken to be injective, so the tables are keyed by the token itself.
 Argon2 is idealised as a salted hash that verifies exactly its own password.
 User names arrive normalised.
 */
module LocalAuth {
  import opened Common

  const SESSION_ABSOLUTE_SECONDS := 7 * 24 * 3600
  const SESSION_IDLE_SECONDS := 12 * 3600
  const ONE_TIME_CODE_SECONDS := 24 * 3600

  type Id = nat
  type Token = string
  type Password = string

  datatype Role = Admin | Member
  datatype Status = Active | Disabled
  datatype Hash = Hash(salt: nat, secret: Password)

  /** How a user came to exist: a history field that no operation reads. */
  datatype Origin = Bootstrapped | Invited(invite: Id)

  datatype User = User(name: string, hash: Hash, role: Role, status: Status, mustChange: bool, origin: Origin)

  /** `openedRole` and `openedSecret` are history fields that no operation reads. */
  datatype Session = Session(user: Id, csrf: Token, createdAt: int, lastSeen: int, expiresAt: int,
                             revokedAt: Option<int>, openedRole: Role, openedSecret: Password)

  datatype Invite = Invite(token: Token, createdBy: Id, createdAt: int, expiresAt: int,
                           usedAt: Option<int>, usedBy: Option<Id>, revokedAt: Option<int>)

  datatype Reset = Reset(token: Token, user: Id, createdBy: Id, createdAt: int, expiresAt: int,
                         usedAt: Option<int>, revokedAt: Option<int>)

  datatype Db = Db(users: map<Id, User>, sessions: map<Token, Session>,
                   invites: map<Id, Invite>, resets: map<Id, Reset>)

  /** Why a call raised; `ConstraintFailed` is a database error that the service does not catch. */
  datatype Reason =
    | InvalidPassword | InvalidCredentials | UsernameUnavailable | UserNotFound
    | LastAdministratorRequired | InvalidResetCode | InvalidInvite | ConstraintFailed

  datatype Reply<+T> = Ok(value: T) | Refused(reason: Reason)

  /**
   How a call leaves its connection: its writes committed, nothing written (it never
   wrote, or rolled back), or a transaction open that nobody will commit.
   */
  datatype TxnEnd = Committed | NotWritten | LeftOpen

  datatype Identity = Identity(user: Id, name: string, role: Role, mustChange: bool)

  predicate ValidPassword(p: Password) { 8 <= |p| <= 128 }

  predicate Verifies(h: Hash, p: Password) { h.secret == p }

  // ---------------------------------------------------- unique columns and lookups

  predicate NameTaken(users: map<Id, User>, name: string) {
    exists id :: id in users && users[id].name == name
  }

  ghost predicate UniqueNames(users: map<Id, User>) {
    forall i, j :: i in users && j in users && users[i].name == users[j].name ==> i == j
  }

  ghost predicate UniqueInvites(invites: map<Id, Invite>) {
    forall i, j :: i in invites && j in invites && invites[i].token == invites[j].token ==> i == j
  }

  ghost predicate UniqueResets(resets: map<Id, Reset>) {
    forall i, j :: i in resets && j in resets && resets[i].token == resets[j].token ==> i == j
  }

  /** The UNIQUE constraints of the schema. */
  ghost predicate Unique(db: Db) {
    UniqueNames(db.users) && UniqueInvites(db.invites) && UniqueResets(db.resets)
  }

  ghost function UserNamed(users: map<Id, User>, name: string): (r: Option<Id>)
    ensures r.Some? ==> r.value in users && users[r.value].name == name
    ensures r.None? ==> !NameTaken(users, name)
  {
    if NameTaken(users, name) then
      var id :| id in users && users[id].name == name;
      Some(id)
    else None
  }

  ghost function InviteOf(invites: map<Id, Invite>, token: Token): (r: Option<Id>)
    ensures r.Some? ==> r.value in invites && invites[r.value].token == token
    ensures r.None? ==> forall i :: i in invites ==> invites[i].token != token
  {
    if i :| i in invites && invites[i].token == token then Some(i) else None
  }

  ghost function ResetOf(resets: map<Id, Reset>, token: Token): (r: Option<Id>)
    ensures r.Some? ==> r.value in resets && resets[r.value].token == token
    ensures r.None? ==> forall i :: i in resets ==> resets[i].token != token
  {
    if i :| i in resets && resets[i].token == token then Some(i) else None
  }

  // ------------------------------------------------------------------ single writes

  function FreshSession(user: Id, csrf: Token, now: int, role: Role, secret: Password): Session {
    Session(user, csrf, now, now, now + SESSION_ABSOLUTE_SECONDS, None, role, secret)
  }

  /** Every open session of the user is revoked; revoked ones keep their time. */
  function RevokeAll(sessions: map<Token, Session>, user: Id, now: int): (r: map<Token, Session>)
    ensures r.Keys == sessions.Keys
  {
    map t | t in sessions ::
      if sessions[t].user == user && sessions[t].revokedAt.None? then sessions[t].(revokedAt := Some(now))
      else sessions[t]
  }

  /** An update of one user row changes nothing when there is no such row. */
  function SetHash(users: map<Id, User>, user: Id, h: Hash, mustChange: bool): map<Id, User> {
    if user in users then users[user := users[user].(hash := h, mustChange := mustChange)] else users
  }

  function SetRole(users: map<Id, User>, user: Id, role: Role, status: Status): map<Id, User> {
    if user in users then users[user := users[user].(role := role, status := status)] else users
  }

  function ActiveAdmins(users: map<Id, User>): set<Id> {
    set id | id in users && users[id].role == Admin && users[id].status == Active
  }

  function GetOr<T>(o: Option<T>, d: T): T {
    if o.Some? then o.value else d
  }

  // -------------------------------------------------- operations without a first read

  ghost function Bootstrap(db: Db, id: Id, name: string, password: Password, salt: nat): (Db, TxnEnd, Reply<Id>) {
    if !ValidPassword(password) then (db, NotWritten, Refused(InvalidPassword))
    else if NameTaken(db.users, name) || id in db.users then (db, LeftOpen, Refused(UsernameUnavailable))
    else
      (db.(users := db.users[id := User(name, Hash(salt, password), Admin, Active, true, Bootstrapped)]),
       Committed, Ok(id))
  }

  function Logout(db: Db, now: int, token: Token): Db {
    if token != "" && token in db.sessions && db.sessions[token].revokedAt.None? then
      db.(sessions := db.sessions[token := db.sessions[token].(revokedAt := Some(now))])
    else db
  }

  ghost function CreateInvite(db: Db, now: int, admin: Id, id: Id, token: Token): (Db, TxnEnd, Reply<Id>) {
    if id in db.invites || InviteOf(db.invites, token).Some? then (db, LeftOpen, Refused(ConstraintFailed))
    else
      var invite := Invite(token, admin, now, now + ONE_TIME_CODE_SECONDS, None, None, None);
      (db.(invites := db.invites[id := invite]), Committed, Ok(id))
  }

  function RevokeInvite(db: Db, now: int, id: Id): Db {
    if id in db.invites && db.invites[id].usedAt.None? then
      db.(invites := db.invites[id := db.invites[id].(revokedAt := Some(now))])
    else db
  }

  /** The first read only asks whether the user exists, and users are never deleted. */
  ghost function CreateReset(db: Db, now: int, admin: Id, user: Id, id: Id, token: Token): (Db, TxnEnd, Reply<Id>) {
    if user !in db.users then (db, NotWritten, Refused(UserNotFound))
    else if id in db.resets || ResetOf(db.resets, token).Some? then (db, LeftOpen, Refused(ConstraintFailed))
    else
      var reset := Reset(token, user, admin, now, now + ONE_TIME_CODE_SECONDS, None, None);
      (db.(resets := db.resets[id := reset]), Committed, Ok(id))
  }

  /** The first read only looks up the id of a name, and neither ever changes. */
  ghost function OfflineReset(db: Db, now: int, name: string, temporary: Password, salt: nat): (Db, TxnEnd, Reply<()>) {
    if !ValidPassword(temporary) then (db, NotWritten, Refused(InvalidPassword))
    else
      match UserNamed(db.users, name)
      case None => (db, NotWritten, Refused(UserNotFound))
      case Some(id) =>
        (db.(users := SetHash(db.users, id, Hash(salt, temporary), true),
             sessions := RevokeAll(db.sessions, id, now)), Committed, Ok(()))
  }

  // ------------------------------------------------------- operations in several parts

  /**
   What a call carries from its reads to its write. `row`, the user row as read, is held
   by the source too; `admins` and the row of `ReadyChange` are history.
   */
  datatype Ready =
    | ReadyLogin(user: Id, row: User, password: Password, rehash: bool)
    | ReadyUse(token: Token, at: int, identity: Identity)
    | RowForChange(user: Id, row: User, replacement: Password, session: Token)
    | ReadyChange(user: Id, row: User, replacement: Password, at: int)
    | RowForUpdate(user: Id, row: User, role: Role, status: Status)
    | ReadyUpdate(user: Id, row: User, role: Role, status: Status, admins: Option<set<Id>>)
    | ReadyReset(id: Id, user: Id, replacement: Password, at: int)
    | ReadyRegister(name: string, password: Password, invite: Id, at: int)

  ghost function LoginRead(db: Db, name: string, password: Password, rehash: bool): Reply<Ready> {
    match UserNamed(db.users, name)
    case None => Refused(InvalidCredentials)
    case Some(id) =>
      if db.users[id].status != Active || !Verifies(db.users[id].hash, password) then Refused(InvalidCredentials)
      else Ok(ReadyLogin(id, db.users[id], password, rehash))
  }

  function LoginWrite(db: Db, now: int, p: Ready, salt: nat, token: Token, csrf: Token): (Db, TxnEnd, Reply<Id>)
    requires p.ReadyLogin?
  {
    var users := if p.rehash && p.user in db.users
                 then SetHash(db.users, p.user, Hash(salt, p.password), db.users[p.user].mustChange) else db.users;
    if token in db.sessions then (db.(users := users), LeftOpen, Refused(ConstraintFailed))
    else
      var session := FreshSession(p.user, csrf, now, p.row.role, p.password);
      (db.(users := users, sessions := db.sessions[token := session]), Committed, Ok(p.user))
  }

  /** The row filter of `authenticate`. */
  predicate Usable(db: Db, now: int, token: Token) {
    && token != "" && token in db.sessions
    && var s := db.sessions[token];
       && s.user in db.users && db.users[s.user].status == Active && s.revokedAt.None?
       && s.expiresAt > now && s.lastSeen + SESSION_IDLE_SECONDS > now
  }

  function AuthenticateRead(db: Db, now: int, token: Token): Option<Ready> {
    if !Usable(db, now, token) then None
    else
      var id := db.sessions[token].user;
      var u := db.users[id];
      Some(ReadyUse(token, now, Identity(id, u.name, u.role, u.mustChange)))
  }

  /** The last use is written back without another look at the row. */
  function AuthenticateWrite(db: Db, p: Ready): Db
    requires p.ReadyUse?
  {
    if p.token in db.sessions
    then db.(sessions := db.sessions[p.token := db.sessions[p.token].(lastSeen := p.at)]) else db
  }

  function ChangeRead(db: Db, user: Id, current: Password, replacement: Password, session: Token): Reply<Ready> {
    if !ValidPassword(replacement) then Refused(InvalidPassword)
    else if user !in db.users || !Verifies(db.users[user].hash, current) then Refused(InvalidCredentials)
    else Ok(RowForChange(user, db.users[user], replacement, session))
  }

  /** The second read of `change_password`: the session it was called from. */
  function ChangeCheck(db: Db, now: int, p: Ready): Reply<Ready>
    requires p.RowForChange?
  {
    if p.session !in db.sessions || db.sessions[p.session].user != p.user || db.sessions[p.session].revokedAt.Some?
    then Refused(InvalidCredentials)
    else Ok(ReadyChange(p.user, if p.user in db.users then db.users[p.user] else p.row, p.replacement, now))
  }

  function ChangeWrite(db: Db, p: Ready, salt: nat, token: Token, csrf: Token): (Db, TxnEnd, Reply<()>)
    requires p.ReadyChange?
  {
    var after := db.(users := SetHash(db.users, p.user, Hash(salt, p.replacement), false),
                     sessions := RevokeAll(db.sessions, p.user, p.at));
    if token in db.sessions then (after, LeftOpen, Refused(ConstraintFailed))
    else
      var role := if p.user in db.users then db.users[p.user].role else p.row.role;
      var session := FreshSession(p.user, csrf, p.at, role, p.replacement);
      (after.(sessions := after.sessions[token := session]), Committed, Ok(()))
  }

  function UpdateRead(db: Db, user: Id, role: Option<Role>, status: Option<Status>): Reply<Ready> {
    if user !in db.users then Refused(UserNotFound)
    else
      var u := db.users[user];
      var nextRole, nextStatus := GetOr(role, u.role), GetOr(status, u.status);
      if u.role == Admin && u.status == Active && (nextRole != Admin || nextStatus != Active)
      then Ok(RowForUpdate(user, u, nextRole, nextStatus))
      else Ok(ReadyUpdate(user, u, nextRole, nextStatus, None))
  }

  /** The second read of `update_user`, made only when an active administrator is to be removed. */
  function UpdateCount(db: Db, p: Ready): Reply<Ready>
    requires p.RowForUpdate?
  {
    if |ActiveAdmins(db.users)| <= 1 then Refused(LastAdministratorRequired)
    else Ok(ReadyUpdate(p.user, p.row, p.role, p.status, Some(ActiveAdmins(db.users))))
  }

  /** Sessions are revoked when the new role differs from the one that was read. */
  function UpdateWrite(db: Db, now: int, p: Ready): Db
    requires p.ReadyUpdate?
  {
    db.(users := SetRole(db.users, p.user, p.role, p.status),
        sessions := if p.status == Disabled || p.role != p.row.role then RevokeAll(db.sessions, p.user, now)
                    else db.sessions)
  }

  ghost function ResetRead(db: Db, now: int, code: Token, replacement: Password): Reply<Ready> {
    if !ValidPassword(replacement) then Refused(InvalidPassword)
    else if code == "" then Refused(InvalidResetCode)
    else
      match ResetOf(db.resets, code)
      case None => Refused(InvalidResetCode)
      case Some(id) =>
        var r := db.resets[id];
        if r.usedAt.Some? || r.revokedAt.Some? || r.expiresAt <= now then Refused(InvalidResetCode)
        else Ok(ReadyReset(id, r.user, replacement, now))
  }

  /** The code is marked used only if it still is not; otherwise everything is rolled back. */
  function ResetWrite(db: Db, p: Ready, salt: nat): (Db, TxnEnd, Reply<()>)
    requires p.ReadyReset?
  {
    if p.id in db.resets && db.resets[p.id].usedAt.None? then
      (db.(users := SetHash(db.users, p.user, Hash(salt, p.replacement), false),
           resets := db.resets[p.id := db.resets[p.id].(usedAt := Some(p.at))],
           sessions := RevokeAll(db.sessions, p.user, p.at)), Committed, Ok(()))
    else (db, NotWritten, Refused(InvalidResetCode))
  }

  ghost function RegisterRead(db: Db, now: int, name: string, password: Password, code: Token): Reply<Ready> {
    if !ValidPassword(password) then Refused(InvalidPassword)
    else if code == "" then Refused(InvalidInvite)
    else
      match InviteOf(db.invites, code)
      case None => Refused(InvalidInvite)
      case Some(id) =>
        var i := db.invites[id];
        if i.usedAt.Some? || i.revokedAt.Some? || i.expiresAt <= now then Refused(InvalidInvite)
        else Ok(ReadyRegister(name, password, id, now))
  }

  /** A name that is taken is rolled back; an invitation that is gone leaves the transaction open. */
  function RegisterWrite(db: Db, p: Ready, id: Id, salt: nat): (Db, TxnEnd, Reply<Id>)
    requires p.ReadyRegister?
  {
    if id in db.users || NameTaken(db.users, p.name) then (db, NotWritten, Refused(UsernameUnavailable))
    else
      var u := User(p.name, Hash(salt, p.password), Member, Active, false, Invited(p.invite));
      var inserted := db.(users := db.users[id := u]);
      if p.invite in db.invites && Redeemable(db.invites[p.invite], p.at) then
        var used := db.invites[p.invite].(usedAt := Some(p.at), usedBy := Some(id));
        (inserted.(invites := db.invites[p.invite := used]), Committed, Ok(id))
      else (inserted, LeftOpen, Refused(InvalidInvite))
  }

  /** The conditions of the conditional update. */
  predicate Redeemable(i: Invite, now: int) {
    i.usedAt.None? && i.revokedAt.None? && i.expiresAt > now
  }
}
