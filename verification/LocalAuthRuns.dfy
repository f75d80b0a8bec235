/**
 Runs of the account store with any number of requests at work at once. A step is one
 read, one transaction, or the end of a request: reads run in autocommit, and between two
 parts of one call every other request may commit. A transaction that a failing call
 leaves open keeps other writers out until its request ends.

 A request that left a transaction open makes no further call before it ends; every route
 answers right after such a failure.
 */
module LocalAuthRuns {
  import opened Common
  import opened LocalAuth

  /** Calls whose single transaction needs no earlier read. */
  datatype Op =
    | OpBootstrap(id: Id, name: string, password: Password, salt: nat)
    | OpLogout(token: Token)
    | OpCreateInvite(admin: Id, id: Id, token: Token)
    | OpRevokeInvite(id: Id)
    | OpCreateReset(admin: Id, user: Id, id: Id, token: Token)
    | OpOfflineReset(name: string, temporary: Password, salt: nat)

  /** Calls that read before they write. */
  datatype Call =
    | CallLogin(name: string, password: Password, rehash: bool)
    | CallAuthenticate(token: Token)
    | CallChange(user: Id, current: Password, replacement: Password, session: Token)
    | CallUpdate(user: Id, role: Option<Role>, status: Option<Status>)
    | CallReset(code: Token, replacement: Password)
    | CallRegister(name: string, password: Password, code: Token)

  /** What a write draws at random: an id, a salt and two tokens. */
  datatype Fresh = Fresh(id: Id, salt: nat, token: Token, csrf: Token)

  ghost function Apply(db: Db, now: int, op: Op): (Db, TxnEnd) {
    match op
    case OpBootstrap(id, name, password, salt) =>
      var r := Bootstrap(db, id, name, password, salt); (r.0, r.1)
    case OpLogout(token) => (Logout(db, now, token), Committed)
    case OpCreateInvite(admin, id, token) =>
      var r := CreateInvite(db, now, admin, id, token); (r.0, r.1)
    case OpRevokeInvite(id) => (RevokeInvite(db, now, id), Committed)
    case OpCreateReset(admin, user, id, token) =>
      var r := CreateReset(db, now, admin, user, id, token); (r.0, r.1)
    case OpOfflineReset(name, temporary, salt) =>
      var r := OfflineReset(db, now, name, temporary, salt); (r.0, r.1)
  }

  function Lift(r: Reply<Ready>): Option<Ready> {
    if r.Ok? then Some(r.value) else None
  }

  ghost function FirstRead(db: Db, now: int, call: Call): Option<Ready> {
    match call
    case CallLogin(name, password, rehash) => Lift(LoginRead(db, name, password, rehash))
    case CallAuthenticate(token) => AuthenticateRead(db, now, token)
    case CallChange(user, current, replacement, session) => Lift(ChangeRead(db, user, current, replacement, session))
    case CallUpdate(user, role, status) => Lift(UpdateRead(db, user, role, status))
    case CallReset(code, replacement) => Lift(ResetRead(db, now, code, replacement))
    case CallRegister(name, password, code) => Lift(RegisterRead(db, now, name, password, code))
  }

  /** Two calls read once more before they can write. */
  predicate ReadsAgain(p: Ready) { p.RowForChange? || p.RowForUpdate? }

  function SecondRead(db: Db, now: int, p: Ready): Option<Ready>
    requires ReadsAgain(p)
  {
    if p.RowForChange? then Lift(ChangeCheck(db, now, p)) else Lift(UpdateCount(db, p))
  }

  function WriteHalf(db: Db, now: int, p: Ready, x: Fresh): (Db, TxnEnd)
    requires !ReadsAgain(p)
  {
    match p
    case ReadyLogin(_, _, _, _) => var r := LoginWrite(db, now, p, x.salt, x.token, x.csrf); (r.0, r.1)
    case ReadyUse(_, _, _) => (AuthenticateWrite(db, p), Committed)
    case ReadyChange(_, _, _, _) => var r := ChangeWrite(db, p, x.salt, x.token, x.csrf); (r.0, r.1)
    case ReadyUpdate(_, _, _, _, _) => (UpdateWrite(db, now, p), Committed)
    case ReadyReset(_, _, _, _) => var r := ResetWrite(db, p, x.salt); (r.0, r.1)
    case ReadyRegister(_, _, _, _) => var r := RegisterWrite(db, p, x.id, x.salt); (r.0, r.1)
  }

  /** A transaction left open by request `owner`: its private view of the tables. */
  datatype Open = Open(owner: Id, view: Db)

  /** The committed tables, what the requests at work have read, and the open transaction. */
  datatype World = World(db: Db, ready: map<Id, Ready>, open: Option<Open>)

  datatype Event =
    | Do(request: Id, op: Op)
    | First(request: Id, call: Call)
    | Second(request: Id)
    | Write(request: Id, draw: Fresh)
    | EndRequest(request: Id)

  datatype Timed = At(now: int, event: Event)

  function Settle(w: World, request: Id, view: Db, end: TxnEnd): World {
    match end
    case Committed => w.(db := view)
    case NotWritten => w
    case LeftOpen => w.(open := Some(Open(request, view)))
  }

  predicate Stuck(w: World, request: Id) {
    w.open.Some? && w.open.value.owner == request
  }

  predicate CanWrite(w: World, request: Id) {
    w.open.None? && request in w.ready && !ReadsAgain(w.ready[request])
  }

  /** A step that its request cannot take changes nothing: a writer waits for the lock. */
  ghost function Step(w: World, e: Timed): World {
    match e.event
    case Do(request, op) =>
      if w.open.Some? then w
      else
        var (view, end) := Apply(w.db, e.now, op);
        Settle(w.(ready := w.ready - {request}), request, view, end)
    case First(request, call) =>
      if Stuck(w, request) then w
      else
        var p := FirstRead(w.db, e.now, call);
        w.(ready := if p.Some? then w.ready[request := p.value] else w.ready - {request})
    case Second(request) =>
      if request !in w.ready || !ReadsAgain(w.ready[request]) then w
      else
        var p := SecondRead(w.db, e.now, w.ready[request]);
        w.(ready := if p.Some? then w.ready[request := p.value] else w.ready - {request})
    case Write(request, x) =>
      if !CanWrite(w, request) then w
      else
        var (view, end) := WriteHalf(w.db, e.now, w.ready[request], x);
        Settle(w.(ready := w.ready - {request}), request, view, end)
    case EndRequest(request) =>
      w.(ready := w.ready - {request}, open := if Stuck(w, request) then None else w.open)
  }

  ghost function Run(w: World, es: seq<Timed>): World
    decreases |es|
  {
    if es == [] then w else Run(Step(w, es[0]), es[1..])
  }

  const EMPTY := World(Db(map[], map[], map[], map[]), map[], None)

  /** The clock never goes back, starting from `from`. */
  predicate Clocked(es: seq<Timed>, from: int)
    decreases |es|
  {
    es == [] || (es[0].now >= from && Clocked(es[1..], es[0].now))
  }

  /** The tables change only by a transaction that commits. */
  lemma StepCommits(w: World, e: Timed)
    ensures Step(w, e).db == w.db
         || (w.open.None? && e.event.Do? && Step(w, e).db == Apply(w.db, e.now, e.event.op).0
             && Apply(w.db, e.now, e.event.op).1 == Committed)
         || (e.event.Write? && CanWrite(w, e.event.request)
             && var r := WriteHalf(w.db, e.now, w.ready[e.event.request], e.event.draw);
                Step(w, e).db == r.0 && r.1 == Committed)
  {
  }

  lemma {:induction false} RunAppend(w: World, a: seq<Timed>, b: seq<Timed>)
    ensures Run(w, a + b) == Run(Run(w, a), b)
    decreases |a|
  {
    if a == [] {
      assert a + b == b;
    } else {
      assert (a + b)[1..] == a[1..] + b;
      RunAppend(Step(w, a[0]), a[1..], b);
    }
  }

  lemma RunCons(w: World, e: Timed, es: seq<Timed>)
    ensures Run(w, [e] + es) == Run(Step(w, e), es)
  {
    assert ([e] + es)[1..] == es;
  }

  lemma RunOne(w: World, e: Timed)
    ensures Run(w, [e]) == Step(w, e)
  {
    assert Run(Step(w, e), [e][1..]) == Step(w, e);
  }

  lemma RunTwo(w: World, a: Timed, b: Timed)
    ensures Run(w, [a, b]) == Step(Step(w, a), b)
  {
    assert [a, b] == [a] + [b];
    RunCons(w, a, [b]);
    RunOne(Step(w, a), b);
  }

  // ------------------------------------------------------------- the open transaction

  /** Exactly the failures that neither commit nor roll back leave their transaction open. */
  lemma WriteLeavesOpenIff(db: Db, now: int, p: Ready, x: Fresh)
    requires !ReadsAgain(p)
    ensures WriteHalf(db, now, p, x).1 == LeftOpen
       <==> match p
            case ReadyLogin(_, _, _, _) => x.token in db.sessions
            case ReadyChange(_, _, _, _) => x.token in db.sessions
            case ReadyRegister(name, _, invite, at) =>
              x.id !in db.users && !NameTaken(db.users, name)
              && !(invite in db.invites && Redeemable(db.invites[invite], at))
            case _ => false
  {
  }

  lemma OpLeavesOpenIff(db: Db, now: int, op: Op)
    ensures Apply(db, now, op).1 == LeftOpen
       <==> match op
            case OpBootstrap(id, name, password, _) =>
              ValidPassword(password) && (NameTaken(db.users, name) || id in db.users)
            case OpCreateInvite(_, id, token) => id in db.invites || InviteOf(db.invites, token).Some?
            case OpCreateReset(_, user, id, token) =>
              user in db.users && (id in db.resets || ResetOf(db.resets, token).Some?)
            case _ => false
  {
  }

  predicate Ends(es: seq<Timed>, request: Id) {
    exists k :: 0 <= k < |es| && es[k].event == EndRequest(request)
  }

  /** Until its request ends an open transaction stays, and no other request commits anything. */
  lemma {:induction false} OpenTransactionHolds(w: World, es: seq<Timed>)
    requires w.open.Some? && !Ends(es, w.open.value.owner)
    ensures Run(w, es).db == w.db && Run(w, es).open == w.open
    decreases |es|
  {
    if es != [] {
      assert es[0].event != EndRequest(w.open.value.owner);
      forall k | 0 <= k < |es[1..]| ensures es[1..][k].event != EndRequest(w.open.value.owner) {
        assert es[1..][k] == es[k + 1];
      }
      OpenTransactionHolds(Step(w, es[0]), es[1..]);
    }
  }

  /**
   A call that leaves its transaction open leaves nothing behind: whatever the other
   requests try, the committed tables stay as they were until its request ends, and then
   the transaction is gone. For a failed registration the user it inserted never shows.
   */
  lemma FailedCallLeavesNothing(w: World, e: Timed, es: seq<Timed>, now: int)
    requires w.open.None? && Step(w, e).open.Some? && !Ends(es, Step(w, e).open.value.owner)
    ensures (e.event.Do? || e.event.Write?) && Step(w, e).open.value.owner == e.event.request
    ensures var before := Run(Step(w, e), es);
            var after := Step(before, At(now, EndRequest(e.event.request)));
            before.db == after.db == w.db && before.open.Some? && after.open.None?
  {
    OpenTransactionHolds(Step(w, e), es);
  }

  /** A registration commits exactly when name and id are free and the invitation is still redeemable then. */
  lemma RegistrationCommitsIff(db: Db, now: int, p: Ready, x: Fresh)
    requires p.ReadyRegister?
    ensures WriteHalf(db, now, p, x).1 == Committed
       <==> x.id !in db.users && !NameTaken(db.users, p.name)
            && p.invite in db.invites && Redeemable(db.invites[p.invite], p.at)
    ensures WriteHalf(db, now, p, x).1 == Committed ==>
              var after := WriteHalf(db, now, p, x).0;
              && UsedInvites(after) == UsedInvites(db) + {p.invite} && p.invite !in UsedInvites(db)
              && InvitedUsers(after) == InvitedUsers(db) + {x.id} && after.users[x.id].role == Member
  {
  }

  // ------------------------------------------------------------------ unique columns

  /** Users are never removed and keep their name and where they came from. */
  ghost predicate UsersKept(users: map<Id, User>, after: map<Id, User>) {
    forall u :: u in users ==>
      u in after && after[u].name == users[u].name && after[u].origin == users[u].origin
  }

  ghost predicate SameUsers(users: map<Id, User>, after: map<Id, User>) {
    after.Keys == users.Keys && UsersKept(users, after)
  }

  lemma OpKeepsUsers(db: Db, now: int, op: Op)
    ensures UsersKept(db.users, Apply(db, now, op).0.users)
    ensures !op.OpBootstrap? ==> SameUsers(db.users, Apply(db, now, op).0.users)
  {
  }

  lemma SetHashKeepsUsers(users: map<Id, User>, id: Id, hash: Hash, mustChange: bool)
    ensures SameUsers(users, SetHash(users, id, hash, mustChange))
  {
  }

  lemma SetRoleKeepsUsers(users: map<Id, User>, id: Id, role: Role, status: Status)
    ensures SameUsers(users, SetRole(users, id, role, status))
  {
  }

  /** A write inserts a user, sets a password, sets role and status, or leaves the users alone. */
  lemma WriteKeepsUsers(db: Db, now: int, p: Ready, x: Fresh)
    requires !ReadsAgain(p)
    ensures UsersKept(db.users, WriteHalf(db, now, p, x).0.users)
    ensures !p.ReadyRegister? ==> SameUsers(db.users, WriteHalf(db, now, p, x).0.users)
  {
    match p
    case ReadyLogin(user, _, password, _) =>
      if user in db.users { SetHashKeepsUsers(db.users, user, Hash(x.salt, password), db.users[user].mustChange); }
    case ReadyChange(user, _, replacement, _) => SetHashKeepsUsers(db.users, user, Hash(x.salt, replacement), false);
    case ReadyUpdate(user, _, role, status, _) => SetRoleKeepsUsers(db.users, user, role, status);
    case ReadyReset(_, user, replacement, _) => SetHashKeepsUsers(db.users, user, Hash(x.salt, replacement), false);
    case _ =>
  }

  lemma StepKeepsUsers(w: World, e: Timed)
    ensures UsersKept(w.db.users, Step(w, e).db.users)
  {
    StepCommits(w, e);
    if e.event.Do? { OpKeepsUsers(w.db, e.now, e.event.op); }
    if e.event.Write? && CanWrite(w, e.event.request) {
      WriteKeepsUsers(w.db, e.now, w.ready[e.event.request], e.event.draw);
    }
  }

  lemma SameUsersUnique(users: map<Id, User>, after: map<Id, User>)
    requires UniqueNames(users) && SameUsers(users, after)
    ensures UniqueNames(after)
  {
    forall i, j | i in after && j in after && after[i].name == after[j].name ensures i == j {
      assert i in users && j in users;
    }
  }

  lemma OpKeepsNames(db: Db, now: int, op: Op)
    requires UniqueNames(db.users)
    ensures UniqueNames(Apply(db, now, op).0.users)
  {
    if !op.OpBootstrap? {
      OpKeepsUsers(db, now, op);
      SameUsersUnique(db.users, Apply(db, now, op).0.users);
    }
  }

  lemma OpKeepsUnique(db: Db, now: int, op: Op)
    requires Unique(db)
    ensures Unique(Apply(db, now, op).0)
  {
    var after := Apply(db, now, op).0;
    OpKeepsNames(db, now, op);
    if !op.OpCreateInvite? && !op.OpRevokeInvite? { assert after.invites == db.invites; }
    if !op.OpCreateReset? { assert after.resets == db.resets; }
  }

  lemma WriteKeepsUnique(db: Db, now: int, p: Ready, x: Fresh)
    requires Unique(db) && !ReadsAgain(p) && WriteHalf(db, now, p, x).1 == Committed
    ensures Unique(WriteHalf(db, now, p, x).0)
  {
    var after := WriteHalf(db, now, p, x).0;
    if p.ReadyRegister? {
      assert UniqueNames(after.users);
    } else {
      WriteKeepsUsers(db, now, p, x);
      SameUsersUnique(db.users, after.users);
    }
    if !p.ReadyRegister? { assert after.invites == db.invites; }
    if !p.ReadyReset? { assert after.resets == db.resets; }
  }

  lemma StepKeepsUnique(w: World, e: Timed)
    requires Unique(w.db)
    ensures Unique(Step(w, e).db)
  {
    StepCommits(w, e);
    if e.event.Do? { OpKeepsUnique(w.db, e.now, e.event.op); }
    if Step(w, e).db != w.db && e.event.Write? {
      WriteKeepsUnique(w.db, e.now, w.ready[e.event.request], e.event.draw);
    }
  }

  lemma {:induction false} UniqueInEveryRun(w: World, es: seq<Timed>)
    requires Unique(w.db)
    ensures Unique(Run(w, es).db)
    decreases |es|
  {
    if es != [] {
      StepKeepsUnique(w, es[0]);
      UniqueInEveryRun(Step(w, es[0]), es[1..]);
    }
  }

  // ------------------------------------------------------------------ reset codes

  lemma {:induction false} UsedCodesStayUsed(w: World, es: seq<Timed>, id: Id)
    requires id in w.db.resets && w.db.resets[id].usedAt.Some?
    ensures id in Run(w, es).db.resets && Run(w, es).db.resets[id] == w.db.resets[id]
    decreases |es|
  {
    if es != [] {
      StepKeepsUsedCode(w, es[0], id);
      UsedCodesStayUsed(Step(w, es[0]), es[1..], id);
    }
  }

  ghost predicate StillSpent(db: Db, after: Db, id: Id) {
    id in db.resets && db.resets[id].usedAt.Some? ==> id in after.resets && after.resets[id] == db.resets[id]
  }

  lemma OpKeepsUsedCode(db: Db, now: int, op: Op, id: Id)
    ensures StillSpent(db, Apply(db, now, op).0, id)
  {
    if !op.OpCreateReset? { assert Apply(db, now, op).0.resets == db.resets; }
  }

  lemma WriteKeepsUsedCode(db: Db, now: int, p: Ready, x: Fresh, id: Id)
    requires !ReadsAgain(p)
    ensures StillSpent(db, WriteHalf(db, now, p, x).0, id)
  {
    if !p.ReadyReset? { assert WriteHalf(db, now, p, x).0.resets == db.resets; }
  }

  lemma StepKeepsUsedCode(w: World, e: Timed, id: Id)
    requires id in w.db.resets && w.db.resets[id].usedAt.Some?
    ensures id in Step(w, e).db.resets && Step(w, e).db.resets[id] == w.db.resets[id]
  {
    StepCommits(w, e);
    if e.event.Do? { OpKeepsUsedCode(w.db, e.now, e.event.op, id); }
    if e.event.Write? && CanWrite(w, e.event.request) {
      WriteKeepsUsedCode(w.db, e.now, w.ready[e.event.request], e.event.draw, id);
    }
  }

  /**
   A reset code resets one password: after any later run a call that reads it is refused,
   and a call that had read it before it was used is rolled back.
   */
  lemma ResetIsSingleUse(w: World, now: int, p: Ready, x: Fresh, es: seq<Timed>)
    requires Unique(w.db) && p.ReadyReset? && WriteHalf(w.db, now, p, x).1 == Committed
    ensures var later := Run(w.(db := WriteHalf(w.db, now, p, x).0), es).db;
            && (forall now': int, replacement ::
                  ResetRead(later, now', w.db.resets[p.id].token, replacement).Refused?)
            && (forall now': int, q: Ready, x': Fresh :: q.ReadyReset? && q.id == p.id ==>
                  WriteHalf(later, now', q, x') == (later, NotWritten))
  {
    var w' := w.(db := WriteHalf(w.db, now, p, x).0);
    WriteKeepsUnique(w.db, now, p, x);
    UniqueInEveryRun(w', es);
    UsedCodesStayUsed(w', es, p.id);
  }

  // ------------------------------------------------------------------ invitations

  /** Used invitations and invited users point at each other; nothing is both used and revoked. */
  ghost predicate InvitesMatch(db: Db) {
    && (forall i :: i in db.invites ==> InviteSound(db, i))
    && (forall u :: u in db.users && db.users[u].origin.Invited? ==>
          var i := db.users[u].origin.invite;
          i in db.invites && db.invites[i].usedBy == Some(u))
  }

  ghost predicate InviteSound(db: Db, i: Id)
    requires i in db.invites
  {
    var v := db.invites[i];
    && (v.usedAt.Some? <==> v.usedBy.Some?)
    && (v.usedAt.Some? ==> v.revokedAt.None?)
    && (v.usedBy.Some? ==> v.usedBy.value in db.users && db.users[v.usedBy.value].origin == Invited(i))
  }

  lemma SameInvitesKeepMatch(db: Db, after: Db)
    requires InvitesMatch(db) && after.invites == db.invites && SameUsers(db.users, after.users)
    ensures InvitesMatch(after)
  {
    forall i | i in after.invites ensures InviteSound(after, i) {
      assert InviteSound(db, i);
    }
    forall u | u in after.users && after.users[u].origin.Invited?
      ensures var i := after.users[u].origin.invite; i in after.invites && after.invites[i].usedBy == Some(u)
    {
      assert u in db.users;
    }
  }

  lemma CreateInviteKeepsMatch(db: Db, now: int, admin: Id, id: Id, token: Token)
    requires InvitesMatch(db)
    ensures InvitesMatch(CreateInvite(db, now, admin, id, token).0)
  {
    var after := CreateInvite(db, now, admin, id, token).0;
    forall i | i in after.invites ensures InviteSound(after, i) {
      if i in db.invites { assert InviteSound(db, i); }
    }
  }

  lemma RevokeInviteKeepsMatch(db: Db, now: int, id: Id)
    requires InvitesMatch(db)
    ensures InvitesMatch(RevokeInvite(db, now, id))
  {
    var after := RevokeInvite(db, now, id);
    forall i | i in after.invites ensures InviteSound(after, i) {
      assert InviteSound(db, i);
    }
  }

  lemma BootstrapKeepsMatch(db: Db, id: Id, name: string, password: Password, salt: nat)
    requires InvitesMatch(db)
    ensures InvitesMatch(Bootstrap(db, id, name, password, salt).0)
  {
    var after := Bootstrap(db, id, name, password, salt).0;
    forall i | i in after.invites ensures InviteSound(after, i) {
      assert InviteSound(db, i);
    }
  }

  lemma OpKeepsInvitesMatch(db: Db, now: int, op: Op)
    requires InvitesMatch(db)
    ensures InvitesMatch(Apply(db, now, op).0)
  {
    match op
    case OpBootstrap(id, name, password, salt) => BootstrapKeepsMatch(db, id, name, password, salt);
    case OpCreateInvite(admin, id, token) => CreateInviteKeepsMatch(db, now, admin, id, token);
    case OpRevokeInvite(id) => RevokeInviteKeepsMatch(db, now, id);
    case _ =>
      OpKeepsUsers(db, now, op);
      SameInvitesKeepMatch(db, Apply(db, now, op).0);
  }

  lemma WriteKeepsInvitesMatch(db: Db, now: int, p: Ready, x: Fresh)
    requires InvitesMatch(db) && !ReadsAgain(p) && WriteHalf(db, now, p, x).1 == Committed
    ensures InvitesMatch(WriteHalf(db, now, p, x).0)
  {
    var after := WriteHalf(db, now, p, x).0;
    if p.ReadyRegister? {
      forall i | i in after.invites ensures InviteSound(after, i) {
        assert InviteSound(db, i);
      }
    } else {
      WriteKeepsUsers(db, now, p, x);
      SameInvitesKeepMatch(db, after);
    }
  }

  lemma {:induction false} InvitesMatchInEveryRun(w: World, es: seq<Timed>)
    requires InvitesMatch(w.db)
    ensures InvitesMatch(Run(w, es).db)
    decreases |es|
  {
    if es != [] {
      var e := es[0];
      StepCommits(w, e);
      if e.event.Do? { OpKeepsInvitesMatch(w.db, e.now, e.event.op); }
      if Step(w, e).db != w.db && e.event.Write? {
        WriteKeepsInvitesMatch(w.db, e.now, w.ready[e.event.request], e.event.draw);
      }
      InvitesMatchInEveryRun(Step(w, e), es[1..]);
    }
  }

  ghost predicate StillUsed(db: Db, after: Db, i: Id) {
    i in db.invites && db.invites[i].usedAt.Some? ==> i in after.invites && after.invites[i] == db.invites[i]
  }

  lemma OpKeepsUsedInvite(db: Db, now: int, op: Op, i: Id)
    ensures StillUsed(db, Apply(db, now, op).0, i)
  {
    if !op.OpCreateInvite? && !op.OpRevokeInvite? { assert Apply(db, now, op).0.invites == db.invites; }
  }

  lemma WriteKeepsUsedInvite(db: Db, now: int, p: Ready, x: Fresh, i: Id)
    requires !ReadsAgain(p)
    ensures StillUsed(db, WriteHalf(db, now, p, x).0, i)
  {
    if !p.ReadyRegister? { assert WriteHalf(db, now, p, x).0.invites == db.invites; }
  }

  lemma StepKeepsUsedInvite(w: World, e: Timed, i: Id)
    requires i in w.db.invites && w.db.invites[i].usedAt.Some?
    ensures i in Step(w, e).db.invites && Step(w, e).db.invites[i] == w.db.invites[i]
  {
    StepCommits(w, e);
    if e.event.Do? { OpKeepsUsedInvite(w.db, e.now, e.event.op, i); }
    if e.event.Write? && CanWrite(w, e.event.request) {
      WriteKeepsUsedInvite(w.db, e.now, w.ready[e.event.request], e.event.draw, i);
    }
  }

  /** A used invitation keeps its user, its time and its unrevoked state for ever. */
  lemma {:induction false} UsedInvitesStayUsed(w: World, es: seq<Timed>, i: Id)
    requires i in w.db.invites && w.db.invites[i].usedAt.Some?
    ensures i in Run(w, es).db.invites && Run(w, es).db.invites[i] == w.db.invites[i]
    decreases |es|
  {
    if es != [] {
      StepKeepsUsedInvite(w, es[0], i);
      UsedInvitesStayUsed(Step(w, es[0]), es[1..], i);
    }
  }

  ghost function UsedInvites(db: Db): set<Id> {
    set i | i in db.invites && db.invites[i].usedAt.Some?
  }

  ghost function InvitedUsers(db: Db): set<Id> {
    set u | u in db.users && db.users[u].origin.Invited?
  }

  /** The user recorded on each used invitation. */
  ghost function Redemptions(db: Db): map<Id, Id>
    requires InvitesMatch(db)
  {
    map i | i in UsedInvites(db) :: (assert InviteSound(db, i); db.invites[i].usedBy.value)
  }

  /** Redemption is a bijection between used invitations and registered users. */
  lemma RedemptionIsABijection(db: Db)
    requires InvitesMatch(db)
    ensures Redemptions(db).Keys == UsedInvites(db) && Redemptions(db).Values == InvitedUsers(db)
    ensures forall i, j :: i in Redemptions(db) && j in Redemptions(db) && Redemptions(db)[i] == Redemptions(db)[j]
              ==> i == j
  {
    var m := Redemptions(db);
    forall i, j | i in m && j in m && m[i] == m[j] ensures i == j {
      assert InviteSound(db, i) && InviteSound(db, j);
    }
    forall u ensures u in m.Values <==> u in InvitedUsers(db) {
      if u in m.Values {
        var i :| i in m && m[i] == u;
        assert InviteSound(db, i);
      }
      if u in InvitedUsers(db) {
        var i := db.users[u].origin.invite;
        assert InviteSound(db, i);
        assert m[i] == u;
      }
    }
  }
}
