/**
 `LocalAuthService` in its own form: four tables updated in place, as one connection
 sees them. An operation that reads before it writes has one method for each part, in the
 order in which the call makes them, since other requests may commit in between; every
 method is proved to do what its specification function says.
 */
module LocalAuthService {
  import opened Common
  import opened LocalAuth

  class Service {
    var users: map<Id, User>
    var sessions: map<Token, Session>
    var invites: map<Id, Invite>
    var resets: map<Id, Reset>

    /** The tables; after `LeftOpen` they hold writes that were never committed. */
    ghost function Tables(): Db reads this {
      Db(users, sessions, invites, resets)
    }

    /** The UNIQUE constraints of the schema. */
    ghost predicate Valid() reads this {
      Unique(Tables())
    }

    constructor ()
      ensures Valid() && Tables() == Db(map[], map[], map[], map[])
    {
      users, sessions, invites, resets := map[], map[], map[], map[];
    }

    method CreateBootstrapAdmin(id: Id, name: string, password: Password, salt: nat)
      returns (end: TxnEnd, r: Reply<Id>)
      requires Valid()
      modifies this
      ensures Valid() && (Tables(), end, r) == Bootstrap(old(Tables()), id, name, password, salt)
    {
      if !ValidPassword(password) { return NotWritten, Refused(InvalidPassword); }
      if NameTaken(users, name) || id in users { return LeftOpen, Refused(UsernameUnavailable); }
      users := users[id := User(name, Hash(salt, password), Admin, Active, true, Bootstrapped)];
      return Committed, Ok(id);
    }

    // ----------------------------------------------------------------- login

    method FindCredentials(name: string, password: Password, rehash: bool) returns (r: Reply<Ready>)
      requires Valid()
      ensures r == LoginRead(Tables(), name, password, rehash)
    {
      if !NameTaken(users, name) { return Refused(InvalidCredentials); }
      var id :| id in users && users[id].name == name;
      var row := users[id];
      if row.status != Active || !Verifies(row.hash, password) { return Refused(InvalidCredentials); }
      return Ok(ReadyLogin(id, row, password, rehash));
    }

    method OpenSession(now: int, p: Ready, salt: nat, token: Token, csrf: Token) returns (end: TxnEnd, r: Reply<Id>)
      requires Valid() && p.ReadyLogin?
      modifies this
      ensures Valid() && (Tables(), end, r) == LoginWrite(old(Tables()), now, p, salt, token, csrf)
    {
      if p.rehash && p.user in users {
        users := users[p.user := users[p.user].(hash := Hash(salt, p.password))];
      }
      if token in sessions { return LeftOpen, Refused(ConstraintFailed); }
      sessions := sessions[token := FreshSession(p.user, csrf, now, p.row.role, p.password)];
      return Committed, Ok(p.user);
    }

    // ---------------------------------------------------------- authenticate

    method FindSession(now: int, token: Token) returns (r: Option<Ready>)
      requires Valid()
      ensures r == AuthenticateRead(Tables(), now, token)
    {
      if token == "" || token !in sessions || sessions[token].user !in users { return None; }
      var s := sessions[token];
      var row := users[s.user];
      if row.status != Active || s.revokedAt.Some? || s.expiresAt <= now || s.lastSeen + SESSION_IDLE_SECONDS <= now {
        return None;
      }
      return Some(ReadyUse(token, now, Identity(s.user, row.name, row.role, row.mustChange)));
    }

    method RecordUse(p: Ready)
      requires Valid() && p.ReadyUse?
      modifies this
      ensures Valid() && Tables() == AuthenticateWrite(old(Tables()), p)
    {
      if p.token in sessions {
        sessions := sessions[p.token := sessions[p.token].(lastSeen := p.at)];
      }
    }

    method Logout(now: int, token: Token)
      requires Valid()
      modifies this
      ensures Valid() && Tables() == LocalAuth.Logout(old(Tables()), now, token)
    {
      if token != "" && token in sessions && sessions[token].revokedAt.None? {
        sessions := sessions[token := sessions[token].(revokedAt := Some(now))];
      }
    }

    // ------------------------------------------------------- change password

    method CheckCurrentPassword(user: Id, current: Password, replacement: Password, session: Token)
      returns (r: Reply<Ready>)
      requires Valid()
      ensures r == ChangeRead(Tables(), user, current, replacement, session)
    {
      if !ValidPassword(replacement) { return Refused(InvalidPassword); }
      var valid := user in users && Verifies(users[user].hash, current);
      if !valid { return Refused(InvalidCredentials); }
      return Ok(RowForChange(user, users[user], replacement, session));
    }

    method CheckCurrentSession(now: int, p: Ready) returns (r: Reply<Ready>)
      requires Valid() && p.RowForChange?
      ensures r == ChangeCheck(Tables(), now, p)
    {
      if p.session !in sessions || sessions[p.session].user != p.user || sessions[p.session].revokedAt.Some? {
        return Refused(InvalidCredentials);
      }
      return Ok(ReadyChange(p.user, if p.user in users then users[p.user] else p.row, p.replacement, now));
    }

    method ReplacePassword(p: Ready, salt: nat, token: Token, csrf: Token) returns (end: TxnEnd, r: Reply<()>)
      requires Valid() && p.ReadyChange?
      modifies this
      ensures Valid() && (Tables(), end, r) == ChangeWrite(old(Tables()), p, salt, token, csrf)
    {
      users := SetHash(users, p.user, Hash(salt, p.replacement), false);
      sessions := RevokeAll(sessions, p.user, p.at);
      if token in sessions { return LeftOpen, Refused(ConstraintFailed); }
      var role := if p.user in users then users[p.user].role else p.row.role;
      sessions := sessions[token := FreshSession(p.user, csrf, p.at, role, p.replacement)];
      return Committed, Ok(());
    }

    // -------------------------------------------------- invitations and users

    method CreateInvite(now: int, admin: Id, id: Id, token: Token) returns (end: TxnEnd, r: Reply<Id>)
      requires Valid()
      modifies this
      ensures Valid() && (Tables(), end, r) == LocalAuth.CreateInvite(old(Tables()), now, admin, id, token)
    {
      if id in invites || exists i :: i in invites && invites[i].token == token {
        return LeftOpen, Refused(ConstraintFailed);
      }
      invites := invites[id := Invite(token, admin, now, now + ONE_TIME_CODE_SECONDS, None, None, None)];
      return Committed, Ok(id);
    }

    method RevokeInvite(now: int, id: Id)
      requires Valid()
      modifies this
      ensures Valid() && Tables() == LocalAuth.RevokeInvite(old(Tables()), now, id)
    {
      if id in invites && invites[id].usedAt.None? {
        invites := invites[id := invites[id].(revokedAt := Some(now))];
      }
    }

    method FindTarget(user: Id, role: Option<Role>, status: Option<Status>) returns (r: Reply<Ready>)
      requires Valid()
      ensures r == UpdateRead(Tables(), user, role, status)
    {
      if user !in users { return Refused(UserNotFound); }
      var target := users[user];
      var nextRole, nextStatus := GetOr(role, target.role), GetOr(status, target.status);
      var removingActiveAdmin :=
        target.role == Admin && target.status == Active && (nextRole != Admin || nextStatus != Active);
      if removingActiveAdmin { return Ok(RowForUpdate(user, target, nextRole, nextStatus)); }
      return Ok(ReadyUpdate(user, target, nextRole, nextStatus, None));
    }

    method CountAdmins(p: Ready) returns (r: Reply<Ready>)
      requires Valid() && p.RowForUpdate?
      ensures r == UpdateCount(Tables(), p)
    {
      var count := |ActiveAdmins(users)|;
      if count <= 1 { return Refused(LastAdministratorRequired); }
      return Ok(ReadyUpdate(p.user, p.row, p.role, p.status, Some(ActiveAdmins(users))));
    }

    method WriteUser(now: int, p: Ready)
      requires Valid() && p.ReadyUpdate?
      modifies this
      ensures Valid() && Tables() == UpdateWrite(old(Tables()), now, p)
    {
      users := SetRole(users, p.user, p.role, p.status);
      if p.status == Disabled || p.role != p.row.role {
        sessions := RevokeAll(sessions, p.user, now);
      }
    }

    // ---------------------------------------------------------- reset codes

    method CreatePasswordReset(now: int, admin: Id, user: Id, id: Id, token: Token)
      returns (end: TxnEnd, r: Reply<Id>)
      requires Valid()
      modifies this
      ensures Valid() && (Tables(), end, r) == CreateReset(old(Tables()), now, admin, user, id, token)
    {
      if user !in users { return NotWritten, Refused(UserNotFound); }
      if id in resets || exists i :: i in resets && resets[i].token == token {
        return LeftOpen, Refused(ConstraintFailed);
      }
      resets := resets[id := Reset(token, user, admin, now, now + ONE_TIME_CODE_SECONDS, None, None)];
      return Committed, Ok(id);
    }

    method OfflineResetPassword(now: int, name: string, temporary: Password, salt: nat)
      returns (end: TxnEnd, r: Reply<()>)
      requires Valid()
      modifies this
      ensures Valid() && (Tables(), end, r) == OfflineReset(old(Tables()), now, name, temporary, salt)
    {
      if !ValidPassword(temporary) { return NotWritten, Refused(InvalidPassword); }
      if !NameTaken(users, name) { return NotWritten, Refused(UserNotFound); }
      var id :| id in users && users[id].name == name;
      users := users[id := users[id].(hash := Hash(salt, temporary), mustChange := true)];
      sessions := RevokeAll(sessions, id, now);
      return Committed, Ok(());
    }

    method FindResetCode(now: int, code: Token, replacement: Password) returns (r: Reply<Ready>)
      requires Valid()
      ensures r == ResetRead(Tables(), now, code, replacement)
    {
      if !ValidPassword(replacement) { return Refused(InvalidPassword); }
      if code == "" || !exists i :: i in resets && resets[i].token == code { return Refused(InvalidResetCode); }
      var id :| id in resets && resets[id].token == code;
      var row := resets[id];
      if row.usedAt.Some? || row.revokedAt.Some? || row.expiresAt <= now { return Refused(InvalidResetCode); }
      return Ok(ReadyReset(id, row.user, replacement, now));
    }

    /** The transaction of `reset_password`; a rollback restores the users. */
    method UseResetCode(p: Ready, salt: nat) returns (end: TxnEnd, r: Reply<()>)
      requires Valid() && p.ReadyReset?
      modifies this
      ensures Valid() && (Tables(), end, r) == ResetWrite(old(Tables()), p, salt)
    {
      var before := users;
      users := SetHash(users, p.user, Hash(salt, p.replacement), false);
      var changed := 0;
      if p.id in resets && resets[p.id].usedAt.None? {
        resets := resets[p.id := resets[p.id].(usedAt := Some(p.at))];
        changed := 1;
      }
      if changed != 1 {
        users := before;
        return NotWritten, Refused(InvalidResetCode);
      }
      sessions := RevokeAll(sessions, p.user, p.at);
      return Committed, Ok(());
    }

    // --------------------------------------------------------- registration

    method CheckInvite(now: int, name: string, password: Password, code: Token) returns (r: Reply<Ready>)
      requires Valid()
      ensures r == RegisterRead(Tables(), now, name, password, code)
    {
      if !ValidPassword(password) { return Refused(InvalidPassword); }
      if code == "" || !exists i :: i in invites && invites[i].token == code { return Refused(InvalidInvite); }
      var id :| id in invites && invites[id].token == code;
      var invite := invites[id];
      if invite.usedAt.Some? || invite.revokedAt.Some? || invite.expiresAt <= now { return Refused(InvalidInvite); }
      return Ok(ReadyRegister(name, password, id, now));
    }

    /** The transaction of `register`; the failure at the invitation neither commits nor rolls back. */
    method RegisterTransaction(p: Ready, id: Id, salt: nat) returns (end: TxnEnd, r: Reply<Id>)
      requires Valid() && p.ReadyRegister?
      modifies this
      ensures Valid() && (Tables(), end, r) == RegisterWrite(old(Tables()), p, id, salt)
    {
      if id in users || NameTaken(users, p.name) { return NotWritten, Refused(UsernameUnavailable); }
      users := users[id := User(p.name, Hash(salt, p.password), Member, Active, false, Invited(p.invite))];
      var changed := 0;
      if p.invite in invites && Redeemable(invites[p.invite], p.at) {
        invites := invites[p.invite := invites[p.invite].(usedAt := Some(p.at), usedBy := Some(id))];
        changed := 1;
      }
      if changed != 1 { return LeftOpen, Refused(InvalidInvite); }
      return Committed, Ok(id);
    }
  }
}
