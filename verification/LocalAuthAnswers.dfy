/**
 What the account store answers, and what a step does to a user, told from the calls and
 the rows alone: who is let in and as whom, which password, role and flags a user has after
 a step, and how long invitations and reset codes work.
 */
module LocalAuthAnswers {
  import opened Common
  import opened LocalAuth
  import opened LocalAuthRuns
  import opened LocalAuthSessions
  import opened LocalAuthLifetimes

  // ------------------------------------------------------------------ who is let in

  /** A token is accepted exactly for 7 days, within 12 hours of its last use, for an active user, until revoked. */
  lemma AcceptedIff(w: World, now: int, token: Token, then': int)
    requires Sane(w, then')
    ensures FirstRead(w.db, now, CallAuthenticate(token)).Some?
       <==> token != "" && token in w.db.sessions
            && var s := w.db.sessions[token];
               && w.db.users[s.user].status == Active && s.revokedAt.None?
               && now < s.createdAt + 7 * 24 * 60 * 60 && now < s.lastSeen + 12 * 60 * 60
  {
    if token in w.db.sessions { assert SessionSane(w.db, w.db.sessions[token], then'); }
  }

  /** The answer names the owner of the session, as the users have it now, and is stamped with the time of the read. */
  lemma AnswerNamesTheOwner(w: World, now: int, token: Token)
    requires SessionsCurrent(w.db) && FirstRead(w.db, now, CallAuthenticate(token)).Some?
    ensures var p := FirstRead(w.db, now, CallAuthenticate(token)).value;
            && p.ReadyUse? && p.token == token && p.at == now && token in w.db.sessions
            && var s, id := w.db.sessions[token], p.identity;
               && id.user == s.user && s.user in w.db.users && id.role == s.openedRole
               && id.name == w.db.users[s.user].name && id.mustChange == w.db.users[s.user].mustChange
  {
    assert Current(w.db, w.db.sessions[token]);
  }

  /** From the empty store on, an accepted token is answered with its owner and the role it was opened under. */
  lemma AnswersInEveryRun(es: seq<Timed>, now: int, token: Token)
    requires FitsThroughout(EMPTY, es) && FirstRead(Run(EMPTY, es).db, now, CallAuthenticate(token)).Some?
    ensures var w, p := Run(EMPTY, es), FirstRead(Run(EMPTY, es).db, now, CallAuthenticate(token)).value;
            && p.ReadyUse? && p.token == token && p.at == now && token in w.db.sessions
            && var s, id := w.db.sessions[token], p.identity;
               && id.user == s.user && s.user in w.db.users && id.role == s.openedRole
               && id.name == w.db.users[s.user].name && id.mustChange == w.db.users[s.user].mustChange
  {
    CurrentInEveryRunIff(EMPTY, es);
    AnswerNamesTheOwner(Run(EMPTY, es), now, token);
  }

  /** A login reads the one active user of that name with that password, or is refused. */
  lemma LoginIff(db: Db, now: int, name: string, password: Password, rehash: bool, user: Id)
    requires Unique(db)
    ensures (user in db.users && FirstRead(db, now, CallLogin(name, password, rehash))
                                 == Some(ReadyLogin(user, db.users[user], password, rehash)))
       <==> user in db.users && db.users[user].name == name && db.users[user].status == Active
            && db.users[user].hash.secret == password
    ensures FirstRead(db, now, CallLogin(name, password, rehash)).Some? ==>
              exists u :: u in db.users && FirstRead(db, now, CallLogin(name, password, rehash))
                                           == Some(ReadyLogin(u, db.users[u], password, rehash))
  {
    if FirstRead(db, now, CallLogin(name, password, rehash)).Some? {
      var u := FirstRead(db, now, CallLogin(name, password, rehash)).value.user;
      assert u in db.users;
    }
  }

  /** A change of password needs the current one and an open session of the user. */
  lemma ChangeIff(db: Db, now: int, user: Id, row: User, current: Password, replacement: Password, session: Token)
    ensures var p := FirstRead(db, now, CallChange(user, current, replacement, session));
            && (p.Some? <==> 8 <= |replacement| <= 128 && user in db.users && db.users[user].hash.secret == current)
            && (p.Some? ==> p.value == RowForChange(user, db.users[user], replacement, session))
    ensures var q := SecondRead(db, now, RowForChange(user, row, replacement, session));
            && (q.Some? <==> session in db.sessions && db.sessions[session].user == user
                             && db.sessions[session].revokedAt.None?)
            && (q.Some? && user in db.users ==> q.value == ReadyChange(user, db.users[user], replacement, now))
  {
  }

  /** An update fills in what it was not given, and counts administrators exactly when it takes one away. */
  lemma UpdateIff(db: Db, now: int, user: Id, role: Option<Role>, status: Option<Status>)
    ensures var p := FirstRead(db, now, CallUpdate(user, role, status));
            && (p.Some? <==> user in db.users)
            && (p.Some? ==>
                  var u, r, s := db.users[user], GetOr(role, db.users[user].role), GetOr(status, db.users[user].status);
                  p.value == if user in ActiveAdmins(db.users) && !(r == Admin && s == Active)
                             then RowForUpdate(user, u, r, s) else ReadyUpdate(user, u, r, s, None))
    ensures forall u, r, s ::
              SecondRead(db, now, RowForUpdate(user, u, r, s))
              == if |ActiveAdmins(db.users)| >= 2 then Some(ReadyUpdate(user, u, r, s, Some(ActiveAdmins(db.users))))
                 else None
  {
  }

  // ---------------------------------------------------------- what a step does to a user

  /** A write with what was read commits. */
  predicate Lands(db: Db, p: Ready, x: Fresh) {
    match p
    case ReadyLogin(_, _, _, _) => x.token !in db.sessions
    case ReadyChange(_, _, _, _) => x.token !in db.sessions
    case ReadyReset(id, _, _, _) => id in db.resets && db.resets[id].usedAt.None?
    case ReadyRegister(name, _, i, at) =>
      && x.id !in db.users && (forall u :: u in db.users ==> db.users[u].name != name)
      && i in db.invites && db.invites[i].usedAt.None? && db.invites[i].revokedAt.None?
      && at < db.invites[i].expiresAt
    case _ => true
  }

  /** The step is a write that commits. */
  predicate Writes(w: World, e: Timed) {
    && e.event.Write? && w.open.None? && e.event.request in w.ready
    && !ReadsAgain(w.ready[e.event.request]) && Lands(w.db, w.ready[e.event.request], e.event.draw)
  }

  lemma LandsIff(db: Db, now: int, p: Ready, x: Fresh)
    requires !ReadsAgain(p)
    ensures WriteHalf(db, now, p, x).1 == Committed <==> Lands(db, p, x)
  {
  }

  /** The step is the offline reset of `user`. */
  predicate ResetsOffline(w: World, e: Timed, user: Id) {
    && e.event.Do? && w.open.None? && e.event.op.OpOfflineReset? && 8 <= |e.event.op.temporary| <= 128
    && user in w.db.users && w.db.users[user].name == e.event.op.name
  }

  /** What a write sets of a user: the password, whether it must be changed, role and status. */
  datatype Sets = Sets(hash: Option<Hash>, mustChange: Option<bool>,
                       role: Option<Role>, status: Option<Status>)

  const NOTHING := Sets(None, None, None, None)

  /** An own new password need not be changed. */
  function WriteSets(p: Ready, salt: nat, user: Id): Sets {
    if p.ReadyUse? || p.ReadyRegister? || p.user != user then NOTHING
    else
      match p
      case ReadyLogin(_, _, password, rehash) =>
        if rehash then Sets(Some(Hash(salt, password)), None, None, None) else NOTHING
      case ReadyChange(_, _, replacement, _) => Sets(Some(Hash(salt, replacement)), Some(false), None, None)
      case ReadyReset(_, _, replacement, _) => Sets(Some(Hash(salt, replacement)), Some(false), None, None)
      case ReadyUpdate(_, _, role, status, _) => Sets(None, None, Some(role), Some(status))
      case _ => NOTHING
  }

  /** A password set offline must be changed. */
  function StepSets(w: World, e: Timed, user: Id): Sets {
    if Writes(w, e) then WriteSets(w.ready[e.event.request], e.event.draw.salt, user)
    else if ResetsOffline(w, e, user) then 
      Sets(Some(Hash(e.event.op.salt, e.event.op.temporary)), Some(true), None, None)
    else NOTHING
  }

  predicate Becomes(u: User, u': User, s: Sets) {
    && u'.name == u.name && u'.origin == u.origin
    && u'.hash == GetOr(s.hash, u.hash) && u'.mustChange == GetOr(s.mustChange, u.mustChange)
    && u'.role == GetOr(s.role, u.role) && u'.status == GetOr(s.status, u.status)
  }

  lemma WriteOnUser(db: Db, now: int, p: Ready, x: Fresh, user: Id)
    requires !ReadsAgain(p) && Lands(db, p, x) && user in db.users
    ensures var after := WriteHalf(db, now, p, x).0.users;
            user in after && Becomes(db.users[user], after[user], WriteSets(p, x.salt, user))
  {
  }

  lemma NamedIff(users: map<Id, User>, name: string, user: Id)
    requires UniqueNames(users) && user in users
    ensures UserNamed(users, name) == Some(user) <==> users[user].name == name
  {
  }

  lemma OfflineOnUser(db: Db, now: int, name: string, temporary: Password, salt: nat, user: Id)
    requires Unique(db) && user in db.users
    ensures var r := OfflineReset(db, now, name, temporary, salt);
            && user in r.0.users
            && (if 8 <= |temporary| <= 128 && db.users[user].name == name
                then r.1 == Committed
                     && Becomes(db.users[user], r.0.users[user],
                                Sets(Some(Hash(salt, temporary)), Some(true), None, None))
                else r.0.users[user] == db.users[user])
  {
    NamedIff(db.users, name, user);
  }

  lemma OtherOpOnUser(db: Db, now: int, op: Op, user: Id)
    requires !op.OpOfflineReset? && user in db.users
    ensures user in Apply(db, now, op).0.users && Apply(db, now, op).0.users[user] == db.users[user]
  {
    if !op.OpBootstrap? { assert Apply(db, now, op).0.users == db.users; }
  }

  lemma OpOnUser(w: World, e: Timed, user: Id)
    requires Unique(w.db) && e.event.Do? && w.open.None? && user in w.db.users
    ensures var after := Apply(w.db, e.now, e.event.op).0.users;
            user in after && Becomes(w.db.users[user], after[user], StepSets(w, e, user))
  {
    match e.event.op
    case OpOfflineReset(name, temporary, salt) => OfflineOnUser(w.db, e.now, name, temporary, salt, user);
    case _ => OtherOpOnUser(w.db, e.now, e.event.op, user);
  }

  /** No step changes anything about a user but what its call says. */
  lemma UserAfterStep(w: World, e: Timed, user: Id)
    requires Unique(w.db) && user in w.db.users
    ensures user in Step(w, e).db.users
    ensures Becomes(w.db.users[user], Step(w, e).db.users[user], StepSets(w, e, user))
  {
    StepCommits(w, e);
    if e.event.Do? && w.open.None? { OpOnUser(w, e, user); }
    if e.event.Write? && CanWrite(w, e.event.request) {
      LandsIff(w.db, e.now, w.ready[e.event.request], e.event.draw);
      if Writes(w, e) { WriteOnUser(w.db, e.now, w.ready[e.event.request], e.event.draw, user); }
    }
  }

  /** The step inserts `user`: a bootstrap or a registration. */
  ghost predicate Inserts(w: World, e: Timed, user: Id, u: User) {
    match e.event
    case Do(_, OpBootstrap(id, name, password, salt)) =>
      && w.open.None? && id == user && 8 <= |password| <= 128
      && (forall v :: v in w.db.users ==> w.db.users[v].name != name)
      && u == User(name, Hash(salt, password), Admin, Active, true, Bootstrapped)
    case Write(r, x) =>
      && Writes(w, e) && w.ready[r].ReadyRegister? && x.id == user
      && var p := w.ready[r];
         u == User(p.name, Hash(x.salt, p.password), Member, Active, false, Invited(p.invite))
    case _ => false
  }

  lemma OpInsertsIff(w: World, e: Timed, user: Id, u: User)
    requires user !in w.db.users && e.event.Do? && w.open.None?
    ensures var r := Apply(w.db, e.now, e.event.op);
            r.1 == Committed && user in r.0.users && r.0.users[user] == u <==> Inserts(w, e, user, u)
  {
    if !e.event.op.OpBootstrap? {
      OpKeepsUsers(w.db, e.now, e.event.op);
    }
  }

  lemma WriteInsertsIff(w: World, e: Timed, user: Id, u: User)
    requires user !in w.db.users && Writes(w, e)
    ensures var after := WriteHalf(w.db, e.now, w.ready[e.event.request], e.event.draw).0.users;
            user in after && after[user] == u <==> Inserts(w, e, user, u)
  {
    var p := w.ready[e.event.request];
    if !p.ReadyRegister? { WriteKeepsUsers(w.db, e.now, p, e.event.draw); }
  }

  /** New users come from nowhere else, and are what the call says. */
  lemma UserIsInsertedIff(w: World, e: Timed, user: Id, u: User)
    requires user !in w.db.users
    ensures user in Step(w, e).db.users && Step(w, e).db.users[user] == u <==> Inserts(w, e, user, u)
  {
    StepCommits(w, e);
    if e.event.Do? && w.open.None? { OpInsertsIff(w, e, user, u); }
    if e.event.Write? && CanWrite(w, e.event.request) {
      LandsIff(w.db, e.now, w.ready[e.event.request], e.event.draw);
      if Writes(w, e) { WriteInsertsIff(w, e, user, u); }
    }
  }

  // ------------------------------------------------------- what a step does to a session

  /** When a write revokes the open sessions of `user`. */
  function WriteEnds(p: Ready, now: int, user: Id): Option<int> {
    match p
    case ReadyChange(u, _, _, at) => if u == user then Some(at) else None
    case ReadyReset(_, u, _, at) => if u == user then Some(at) else None
    case ReadyUpdate(u, row, role, status, _) =>
      if u == user && (status == Disabled || role != row.role) then Some(now) else None
    case _ => None
  }

  /** The time at which the step revokes an open session of `user` with this token. */
  function StepEnds(w: World, e: Timed, token: Token, user: Id): Option<int> {
    if Writes(w, e) then WriteEnds(w.ready[e.event.request], e.now, user)
    else if ResetsOffline(w, e, user) then Some(e.now)
    else if e.event == Do(e.event.request, OpLogout(token)) && w.open.None? && token != "" then Some(e.now)
    else None
  }

  lemma OfflineOnSession(db: Db, now: int, name: string, temporary: Password, salt: nat, token: Token)
    requires Unique(db) && token in db.sessions && db.sessions[token].user in db.users
    ensures var s, after := db.sessions[token], OfflineReset(db, now, name, temporary, salt).0.sessions;
            token in after
            && after[token].revokedAt
               == if s.revokedAt.Some? || !(8 <= |temporary| <= 128 && db.users[s.user].name == name)
                  then s.revokedAt else Some(now)
  {
    NamedIff(db.users, name, db.sessions[token].user);
  }

  lemma OtherOpOnSession(db: Db, now: int, op: Op, token: Token)
    requires !op.OpOfflineReset? && token in db.sessions
    ensures var s, after := db.sessions[token], Apply(db, now, op).0.sessions;
            token in after
            && after[token].revokedAt
               == if s.revokedAt.None? && op == OpLogout(token) && token != "" then Some(now) else s.revokedAt
  {
    if !op.OpLogout? { assert Apply(db, now, op).0.sessions == db.sessions; }
  }

  lemma OpOnSession(w: World, e: Timed, token: Token)
    requires Unique(w.db) && e.event.Do? && w.open.None? && token in w.db.sessions
    requires w.db.sessions[token].user in w.db.users
    ensures var s, after := w.db.sessions[token], Apply(w.db, e.now, e.event.op).0.sessions;
            token in after
            && after[token].revokedAt == if s.revokedAt.Some? then s.revokedAt else StepEnds(w, e, token, s.user)
  {
    match e.event.op
    case OpOfflineReset(name, temporary, salt) => OfflineOnSession(w.db, e.now, name, temporary, salt, token);
    case _ => OtherOpOnSession(w.db, e.now, e.event.op, token);
  }

  lemma WriteOnSession(db: Db, now: int, p: Ready, x: Fresh, token: Token)
    requires !ReadsAgain(p) && Lands(db, p, x) && token in db.sessions
    ensures var s, after := db.sessions[token], WriteHalf(db, now, p, x).0.sessions;
            token in after
            && after[token].revokedAt == if s.revokedAt.Some? then s.revokedAt else WriteEnds(p, now, s.user)
  {
    if p.ReadyRegister? { assert WriteHalf(db, now, p, x).0.sessions == db.sessions; }
  }

  /** An open session is revoked by exactly these steps, at their time; a revoked one keeps its time. */
  lemma SessionAfterStep(w: World, e: Timed, token: Token)
    requires Unique(w.db) && token in w.db.sessions && w.db.sessions[token].user in w.db.users
    ensures token in Step(w, e).db.sessions
    ensures var s, s' := w.db.sessions[token], Step(w, e).db.sessions[token];
            s'.revokedAt == if s.revokedAt.Some? then s.revokedAt else StepEnds(w, e, token, s.user)
  {
    StepCommits(w, e);
    if e.event.Do? && w.open.None? { OpOnSession(w, e, token); }
    if e.event.Write? && CanWrite(w, e.event.request) {
      LandsIff(w.db, e.now, w.ready[e.event.request], e.event.draw);
      if Writes(w, e) { WriteOnSession(w.db, e.now, w.ready[e.event.request], e.event.draw, token); }
    }
  }

  /** The step opens session `s` under this token: a login or a change of password. */
  predicate Opens(w: World, e: Timed, token: Token, s: Session) {
    && Writes(w, e) && e.event.draw.token == token
    && match w.ready[e.event.request]
       case ReadyLogin(user, row, password, _) =>
         s == Session(user, e.event.draw.csrf, e.now, e.now, e.now + 7 * 24 * 60 * 60, None, row.role, password)
       case ReadyChange(user, row, replacement, at) =>
         && (s.openedRole == if user in w.db.users then w.db.users[user].role else row.role)
         && s == Session(user, e.event.draw.csrf, at, at, at + 7 * 24 * 60 * 60, None, s.openedRole, replacement)
       case _ => false
  }

  /** Sessions come from nowhere else, and are what the call says. */
  lemma SessionIsOpenedIff(w: World, e: Timed, token: Token, s: Session)
    requires token !in w.db.sessions
    ensures token in Step(w, e).db.sessions && Step(w, e).db.sessions[token] == s <==> Opens(w, e, token, s)
  {
    if e.event.Do? && w.open.None? { OpKeepsTokens(w.db, e.now, e.event.op); }
    if e.event.Write? && CanWrite(w, e.event.request) {
      var p := w.ready[e.event.request];
      LandsIff(w.db, e.now, p, e.event.draw);
      if !p.ReadyLogin? && !p.ReadyChange? { KeepsTokens(w.db, e.now, p, e.event.draw); }
    }
  }

  // ---------------------------------------------------------------- what callers are told

  /**
   A refused login, or a refused code, does not tell why: an unknown name, a disabled user
   and a wrong password, or an unknown, used, revoked and expired code, are one answer.
   */
  lemma RefusalsDoNotTell(db: Db, now: int, name: string, user: Id, password: Password, replacement: Password,
                          rehash: bool, token: Token, code: Token, p: Ready)
    ensures LoginRead(db, name, password, rehash).Refused? ==>
              LoginRead(db, name, password, rehash).reason == InvalidCredentials
    ensures var r := ChangeRead(db, user, password, replacement, token);
            r.Refused? ==> r.reason == if 8 <= |replacement| <= 128 then InvalidCredentials else InvalidPassword
    ensures p.RowForChange? && ChangeCheck(db, now, p).Refused? ==> ChangeCheck(db, now, p).reason == InvalidCredentials
    ensures var r := ResetRead(db, now, code, replacement);
            r.Refused? ==> r.reason == if 8 <= |replacement| <= 128 then InvalidResetCode else InvalidPassword
    ensures var r := RegisterRead(db, now, name, password, code);
            r.Refused? ==> r.reason == if 8 <= |password| <= 128 then InvalidInvite else InvalidPassword
  {
  }

  /** A write is answered with success exactly when it commits, otherwise with what stood in its way. */
  lemma WritesAreAnswered(db: Db, now: int, p: Ready, x: Fresh)
    ensures p.ReadyLogin? ==>
              var r := LoginWrite(db, now, p, x.salt, x.token, x.csrf);
              r.2 == if Lands(db, p, x) then Ok(p.user) else Refused(ConstraintFailed)
    ensures p.ReadyChange? ==>
              var r := ChangeWrite(db, p, x.salt, x.token, x.csrf);
              r.2 == if Lands(db, p, x) then Ok(()) else Refused(ConstraintFailed)
    ensures p.ReadyReset? ==>
              ResetWrite(db, p, x.salt).2 == if Lands(db, p, x) then Ok(()) else Refused(InvalidResetCode)
    ensures p.ReadyRegister? ==>
              var taken := x.id in db.users || exists u :: u in db.users && db.users[u].name == p.name;
              RegisterWrite(db, p, x.id, x.salt).2
              == if Lands(db, p, x) then Ok(x.id) else Refused(if taken then UsernameUnavailable else InvalidInvite)
  {
  }
}
