/**
 Sessions and administrators over runs of the account store. A call that writes on the
 strength of an earlier read can act on a row that has changed since; each theorem says
 exactly when that breaks an invariant, and holds for every run without such a write.
 */
module LocalAuthSessions {
  import opened Common
  import opened LocalAuth
  import opened LocalAuthRuns

  // ---------------------------------------------------- sessions stay current

  /** Every unrevoked session belongs to an active user and was opened under the current role and password. */
  ghost predicate SessionsCurrent(db: Db) {
    forall t :: t in db.sessions && db.sessions[t].revokedAt.None? ==> Current(db, db.sessions[t])
  }

  ghost predicate Current(db: Db, s: Session) {
    && s.user in db.users
    && var u := db.users[s.user];
       u.status == Active && u.role == s.openedRole && u.hash.secret == s.openedSecret
  }

  ghost predicate HasOpenSession(db: Db, user: Id) {
    exists t :: t in db.sessions && db.sessions[t].user == user && db.sessions[t].revokedAt.None?
  }

  /**
   The row that a write acts on still fits what was read. A login needs the user active
   with the role and the password that were read, or no other session while a rehash
   brings its password back; a change of password needs the user active; an update needs
   to revoke, to keep the role, or to find no session open.
   */
  ghost predicate Fits(db: Db, p: Ready) {
    match p
    case ReadyLogin(user, row, password, rehash) =>
      user in db.users && db.users[user].status == Active && db.users[user].role == row.role
      && (db.users[user].hash.secret == password || (rehash && !HasOpenSession(db, user)))
    case ReadyChange(user, _, _, _) => user in db.users && db.users[user].status == Active
    case ReadyUpdate(user, row, role, status, _) =>
      status == Disabled || role != row.role || !HasOpenSession(db, user)
      || (user in db.users && db.users[user].role == role)
    case _ => true
  }

  lemma OpKeepsCurrent(db: Db, now: int, op: Op)
    requires SessionsCurrent(db)
    ensures SessionsCurrent(Apply(db, now, op).0)
  {
  }

  lemma LoginKeepsCurrentIff(db: Db, now: int, p: Ready, salt: nat, token: Token, csrf: Token)
    requires SessionsCurrent(db) && p.ReadyLogin? && token !in db.sessions
    ensures SessionsCurrent(LoginWrite(db, now, p, salt, token, csrf).0)
       <==> Fits(db, p)
  {
    var after := LoginWrite(db, now, p, salt, token, csrf).0;
    assert token in after.sessions;
    if HasOpenSession(db, p.user) {
      var t :| t in db.sessions && db.sessions[t].user == p.user && db.sessions[t].revokedAt.None?;
      assert after.sessions[t] == db.sessions[t] && Current(db, db.sessions[t]);
    }
    if SessionsCurrent(after) {
      assert Current(after, after.sessions[token]);
    } else {
      var t :| t in after.sessions && after.sessions[t].revokedAt.None? && !Current(after, after.sessions[t]);
      assert t != token ==> Current(db, db.sessions[t]);
    }
  }

  lemma ChangeKeepsCurrentIff(db: Db, p: Ready, salt: nat, token: Token, csrf: Token)
    requires SessionsCurrent(db) && p.ReadyChange? && token !in db.sessions
    ensures SessionsCurrent(ChangeWrite(db, p, salt, token, csrf).0)
       <==> Fits(db, p)
  {
    var after := ChangeWrite(db, p, salt, token, csrf).0;
    assert token in after.sessions;
    if SessionsCurrent(after) {
      assert Current(after, after.sessions[token]);
    } else {
      var t :| t in after.sessions && after.sessions[t].revokedAt.None? && !Current(after, after.sessions[t]);
      assert t != token ==> Current(db, db.sessions[t]);
    }
  }

  lemma UpdateKeepsCurrentIff(db: Db, now: int, p: Ready)
    requires SessionsCurrent(db) && p.ReadyUpdate?
    ensures SessionsCurrent(UpdateWrite(db, now, p))
       <==> Fits(db, p)
  {
    var after := UpdateWrite(db, now, p);
    if p.status != Disabled && p.role == p.row.role && HasOpenSession(db, p.user) {
      var t :| t in db.sessions && db.sessions[t].user == p.user && db.sessions[t].revokedAt.None?;
      assert Current(db, db.sessions[t]) && after.sessions[t] == db.sessions[t];
    }
  }

  lemma OtherWritesKeepCurrent(db: Db, now: int, p: Ready, x: Fresh)
    requires SessionsCurrent(db) && (p.ReadyUse? || p.ReadyReset? || p.ReadyRegister?)
    requires WriteHalf(db, now, p, x).1 == Committed
    ensures SessionsCurrent(WriteHalf(db, now, p, x).0)
  {
  }

  lemma WriteKeepsCurrentIff(db: Db, now: int, p: Ready, x: Fresh)
    requires SessionsCurrent(db) && !ReadsAgain(p) && WriteHalf(db, now, p, x).1 == Committed
    ensures SessionsCurrent(WriteHalf(db, now, p, x).0) <==> Fits(db, p)
  {
    match p
    case ReadyLogin(_, _, _, _) => LoginKeepsCurrentIff(db, now, p, x.salt, x.token, x.csrf);
    case ReadyChange(_, _, _, _) => ChangeKeepsCurrentIff(db, p, x.salt, x.token, x.csrf);
    case ReadyUpdate(_, _, _, _, _) => UpdateKeepsCurrentIff(db, now, p);
    case _ => OtherWritesKeepCurrent(db, now, p, x);
  }

  /** A write that commits finds its row as it needs it. */
  ghost predicate FitsStep(w: World, e: Timed) {
    e.event.Write? && CanWrite(w, e.event.request)
    && WriteHalf(w.db, e.now, w.ready[e.event.request], e.event.draw).1 == Committed
    ==> Fits(w.db, w.ready[e.event.request])
  }

  /** Every step keeps each open session current, but for a write whose row no longer fits. */
  lemma StepKeepsCurrentIff(w: World, e: Timed)
    requires SessionsCurrent(w.db)
    ensures SessionsCurrent(Step(w, e).db) <==> FitsStep(w, e)
  {
    if e.event.Write? && CanWrite(w, e.event.request) {
      var p := w.ready[e.event.request];
      if WriteHalf(w.db, e.now, p, e.event.draw).1 == Committed {
        WriteKeepsCurrentIff(w.db, e.now, p, e.event.draw);
      }
    } else if e.event.Do? {
      OpKeepsCurrent(w.db, e.now, e.event.op);
    }
  }

  ghost predicate CurrentThroughout(w: World, es: seq<Timed>)
    decreases |es|
  {
    SessionsCurrent(w.db) && (es == [] || CurrentThroughout(Step(w, es[0]), es[1..]))
  }

  ghost predicate FitsThroughout(w: World, es: seq<Timed>)
    decreases |es|
  {
    es == [] || (FitsStep(w, es[0]) && FitsThroughout(Step(w, es[0]), es[1..]))
  }

  /** Every open session is current all along a run exactly when every write of the run finds its row fitting. */
  lemma {:induction false} CurrentInEveryRunIff(w: World, es: seq<Timed>)
    requires SessionsCurrent(w.db)
    ensures CurrentThroughout(w, es) <==> FitsThroughout(w, es)
    ensures FitsThroughout(w, es) ==> SessionsCurrent(Run(w, es).db)
    decreases |es|
  {
    if es != [] {
      StepKeepsCurrentIff(w, es[0]);
      if FitsStep(w, es[0]) { CurrentInEveryRunIff(Step(w, es[0]), es[1..]); }
    }
  }

  /**
   The condition is needed: a login that read the old password before a reset and writes
   after it opens a session under that password, and the session is usable.
   */
  lemma StaleLoginOpensAnOldSession(w: World, now: int, a: Id, b: Id, name: string, password: Password,
                                    temporary: Password, salt: nat, x: Fresh)
    requires a != b && w.open.None? && LoginRead(w.db, name, password, false).Ok?
    requires ValidPassword(temporary) && temporary != password && x.token != "" && x.token !in w.db.sessions
    ensures var w' := Run(w, [At(now, First(a, CallLogin(name, password, false))),
                              At(now, Do(b, OpOfflineReset(name, temporary, salt))),
                              At(now, Write(a, x))]);
            && Usable(w'.db, now, x.token) && !SessionsCurrent(w'.db)
            && w'.db.users[w'.db.sessions[x.token].user].hash.secret == temporary
  {
    var e1, e2, e3 := At(now, First(a, CallLogin(name, password, false))),
                      At(now, Do(b, OpOfflineReset(name, temporary, salt))), At(now, Write(a, x));
    RunThree(w, e1, e2, e3);
    LoginIsRead(w, now, a, name, password);
    var p, w1 := LoginRead(w.db, name, password, false).value, Step(w, e1);
    var w2 := Step(w1, e2);
    PasswordIsReset(w1, now, a, b, name, temporary, salt, p);
    LoginWrites(w2, now, a, x, p);
    var after := Step(w2, e3).db;
    assert !Current(after, after.sessions[x.token]);
  }

  lemma LoginIsRead(w: World, now: int, a: Id, name: string, password: Password)
    requires w.open.None? && LoginRead(w.db, name, password, false).Ok?
    ensures var p := LoginRead(w.db, name, password, false).value;
            Step(w, At(now, First(a, CallLogin(name, password, false)))) == w.(ready := w.ready[a := p])
            && p.ReadyLogin? && !p.rehash && p.password == password && UserNamed(w.db.users, name) == Some(p.user)
            && w.db.users[p.user] == p.row && p.row.status == Active
  {
  }

  lemma PasswordIsReset(w: World, now: int, a: Id, b: Id, name: string, temporary: Password, salt: nat, p: Ready)
    requires a != b && w.open.None? && a in w.ready && w.ready[a] == p && p.ReadyLogin? && ValidPassword(temporary)
    requires UserNamed(w.db.users, name) == Some(p.user) && w.db.users[p.user] == p.row
    ensures var w' := Step(w, At(now, Do(b, OpOfflineReset(name, temporary, salt))));
            && w'.open.None? && a in w'.ready && w'.ready[a] == p && p.user in w'.db.users
            && w'.db.users[p.user].status == p.row.status && w'.db.users[p.user].hash.secret == temporary
            && w'.db.sessions.Keys == w.db.sessions.Keys
  {
  }

  /** A login writes on the strength of what it read, whatever has happened since. */
  lemma LoginWrites(w: World, now: int, a: Id, x: Fresh, p: Ready)
    requires w.open.None? && a in w.ready && w.ready[a] == p && p.ReadyLogin? && !p.rehash
    requires x.token !in w.db.sessions
    ensures var session := FreshSession(p.user, x.csrf, now, p.row.role, p.password);
            Step(w, At(now, Write(a, x)))
            == w.(db := w.db.(sessions := w.db.sessions[x.token := session]), ready := w.ready - {a})
  {
  }

  lemma RunThree(w: World, a: Timed, b: Timed, c: Timed)
    ensures Run(w, [a, b, c]) == Step(Step(Step(w, a), b), c)
  {
    assert [a, b, c] == [a] + ([b] + [c]);
    RunAppend(w, [a], [b] + [c]);
    RunOne(w, a);
    RunAppend(Step(w, a), [b], [c]);
    RunOne(Step(w, a), b);
    RunOne(Step(Step(w, a), b), c);
  }

  // --------------------------------------------------- an administrator remains

  lemma UpdateWriteAdmins(db: Db, now: int, p: Ready)
    requires p.ReadyUpdate? && p.user in db.users
    ensures ActiveAdmins(UpdateWrite(db, now, p).users)
         == (ActiveAdmins(db.users) - {p.user}) + if p.role == Admin && p.status == Active then {p.user} else {}
  {
  }

  /** The one kind of write that can remove the last administrator does not. */
  ghost predicate SparesAnAdmin(w: World, e: Timed) {
    e.event.Write? && CanWrite(w, e.event.request) && w.ready[e.event.request].ReadyUpdate? ==>
      var p := w.ready[e.event.request];
      p.user !in w.db.users || (p.role == Admin && p.status == Active) || ActiveAdmins(w.db.users) - {p.user} != {}
  }

  lemma OpKeepsAdmins(db: Db, now: int, op: Op)
    ensures ActiveAdmins(db.users) <= ActiveAdmins(Apply(db, now, op).0.users)
  {
  }

  lemma OtherWritesKeepAdmins(db: Db, now: int, p: Ready, x: Fresh)
    requires !ReadsAgain(p) && !p.ReadyUpdate?
    ensures ActiveAdmins(db.users) <= ActiveAdmins(WriteHalf(db, now, p, x).0.users)
  {
  }

  /** Every step keeps an active administrator, but for an update that takes the last one away when it writes. */
  lemma StepKeepsAnAdminIff(w: World, e: Timed)
    requires ActiveAdmins(w.db.users) != {}
    ensures ActiveAdmins(Step(w, e).db.users) != {} <==> SparesAnAdmin(w, e)
  {
    StepCommits(w, e);
    var admin :| admin in ActiveAdmins(w.db.users);
    if e.event.Do? {
      OpKeepsAdmins(w.db, e.now, e.event.op);
      assert admin in ActiveAdmins(Step(w, e).db.users);
    } else if e.event.Write? && CanWrite(w, e.event.request) {
      var p := w.ready[e.event.request];
      if p.ReadyUpdate? {
        if p.user in w.db.users { UpdateWriteAdmins(w.db, e.now, p); }
      } else {
        OtherWritesKeepAdmins(w.db, e.now, p, e.event.draw);
        assert admin in ActiveAdmins(Step(w, e).db.users);
      }
    } else {
      assert admin in ActiveAdmins(Step(w, e).db.users);
    }
  }

  ghost predicate AdminThroughout(w: World, es: seq<Timed>)
    decreases |es|
  {
    ActiveAdmins(w.db.users) != {} && (es == [] || AdminThroughout(Step(w, es[0]), es[1..]))
  }

  ghost predicate SparesThroughout(w: World, es: seq<Timed>)
    decreases |es|
  {
    es == [] || (SparesAnAdmin(w, es[0]) && SparesThroughout(Step(w, es[0]), es[1..]))
  }

  /** An administrator remains all along a run exactly when no update takes away the last one when it writes. */
  lemma {:induction false} AdminInEveryRunIff(w: World, es: seq<Timed>)
    requires ActiveAdmins(w.db.users) != {}
    ensures AdminThroughout(w, es) <==> SparesThroughout(w, es)
    ensures SparesThroughout(w, es) ==> ActiveAdmins(Run(w, es).db.users) != {}
    decreases |es|
  {
    if es != [] {
      StepKeepsAnAdminIff(w, es[0]);
      if SparesAnAdmin(w, es[0]) { AdminInEveryRunIff(Step(w, es[0]), es[1..]); }
    }
  }

  // --------------------------------------------- nothing changes between read and write

  /** The row of `p` as it was read: status, role and password are still those. */
  predicate Unchanged(db: Db, p: Ready)
    requires p.ReadyLogin? || p.ReadyChange? || p.ReadyUpdate?
  {
    p.user in db.users && var u := db.users[p.user];
    u.status == p.row.status && u.role == p.row.role && u.hash.secret == p.row.hash.secret
  }

  /** Nothing that the write relies on has changed since it was read. */
  ghost predicate SteadyWrite(db: Db, p: Ready) {
    match p
    case ReadyLogin(_, _, _, _) => Unchanged(db, p)
    case ReadyChange(_, _, _, _) => Unchanged(db, p)
    case ReadyUpdate(_, _, _, _, admins) =>
      Unchanged(db, p) && (admins.Some? ==> ActiveAdmins(db.users) == admins.value)
    case _ => true
  }

  ghost predicate SteadyStep(w: World, e: Timed) {
    e.event.Write? && CanWrite(w, e.event.request) ==> SteadyWrite(w.db, w.ready[e.event.request])
  }

  /** No write of the run acts on a user that was changed after it was read. */
  ghost predicate SteadyRun(w: World, es: seq<Timed>)
    decreases |es|
  {
    es == [] || (SteadyStep(w, es[0]) && SteadyRun(Step(w, es[0]), es[1..]))
  }

  /** What the reads have checked. */
  ghost predicate Checked(p: Ready) {
    match p
    case ReadyLogin(_, row, password, _) => row.status == Active && row.hash.secret == password
    case ReadyChange(_, row, _, _) => row.status == Active
    case ReadyUpdate(_, row, role, status, None) =>
      row.role == Admin && row.status == Active ==> role == Admin && status == Active
    case ReadyUpdate(_, _, _, _, Some(admins)) => |admins| > 1
    case _ => true
  }

  ghost predicate AllChecked(w: World) {
    forall r :: r in w.ready ==> Checked(w.ready[r])
  }

  lemma FirstReadIsChecked(db: Db, now: int, call: Call)
    ensures FirstRead(db, now, call).Some? ==> Checked(FirstRead(db, now, call).value)
  {
  }

  lemma SecondReadIsChecked(db: Db, now: int, p: Ready)
    requires SessionsCurrent(db) && ReadsAgain(p)
    ensures SecondRead(db, now, p).Some? ==> Checked(SecondRead(db, now, p).value)
  {
    if p.RowForChange? && p.session in db.sessions && db.sessions[p.session].revokedAt.None? {
      assert Current(db, db.sessions[p.session]);
    }
  }

  lemma StepKeepsChecked(w: World, e: Timed)
    requires SessionsCurrent(w.db) && AllChecked(w)
    ensures AllChecked(Step(w, e))
  {
    match e.event
    case First(request, call) => FirstReadIsChecked(w.db, e.now, call);
    case Second(request) =>
      if request in w.ready && ReadsAgain(w.ready[request]) {
        SecondReadIsChecked(w.db, e.now, w.ready[request]);
      }
    case _ =>
  }

  lemma SteadyStepSparesAnAdmin(w: World, e: Timed)
    requires ActiveAdmins(w.db.users) != {} && AllChecked(w) && SteadyStep(w, e)
    ensures SparesAnAdmin(w, e)
  {
    if e.event.Write? && CanWrite(w, e.event.request) && w.ready[e.event.request].ReadyUpdate? {
      var p := w.ready[e.event.request];
      assert Checked(p);
      var admin :| admin in ActiveAdmins(w.db.users);
      if p.admins.Some? {
        assert |ActiveAdmins(w.db.users) - {p.user}| >= |p.admins.value| - 1 > 0;
      } else if p.role != Admin || p.status != Active {
        assert admin in ActiveAdmins(w.db.users) - {p.user};
      }
    }
  }

  lemma SteadyStepFits(w: World, e: Timed)
    requires AllChecked(w) && SteadyStep(w, e)
    ensures FitsStep(w, e)
  {
    if e.event.Write? && CanWrite(w, e.event.request) { assert Checked(w.ready[e.event.request]); }
  }

  /** Steady runs meet both conditions: sessions stay current and an administrator, once there, remains. */
  lemma {:induction false} SteadyRunsKeepBoth(w: World, es: seq<Timed>)
    requires SessionsCurrent(w.db) && AllChecked(w) && SteadyRun(w, es)
    ensures FitsThroughout(w, es) && AllChecked(Run(w, es))
    ensures ActiveAdmins(w.db.users) != {} ==> SparesThroughout(w, es)
    decreases |es|
  {
    if es != [] {
      SteadyStepFits(w, es[0]);
      StepKeepsCurrentIff(w, es[0]);
      StepKeepsChecked(w, es[0]);
      if ActiveAdmins(w.db.users) != {} {
        SteadyStepSparesAnAdmin(w, es[0]);
        StepKeepsAnAdminIff(w, es[0]);
      }
      SteadyRunsKeepBoth(Step(w, es[0]), es[1..]);
    }
  }

  /** Two demotions that both counted two administrators before either wrote leave none. */
  lemma StaleCountsLoseTheLastAdmin(w: World, now: int, a: Id, b: Id, one: Id, two: Id, x: Fresh)
    requires a != b && one != two && w.open.None? && ActiveAdmins(w.db.users) == {one, two}
    ensures var counts := [At(now, First(a, CallUpdate(one, Some(Member), None))),
                          At(now, First(b, CallUpdate(two, Some(Member), None))),
                           At(now, Second(a)), At(now, Second(b))];
            ActiveAdmins(Run(w, counts + [At(now, Write(a, x)), At(now, Write(b, x))]).db.users) == {}
  {
    assert one in ActiveAdmins(w.db.users) && two in ActiveAdmins(w.db.users);
    assert |{one, two}| == 2;
    var e1, e2 := At(now, First(a, CallUpdate(one, Some(Member), None))),
                  At(now, First(b, CallUpdate(two, Some(Member), None)));
    var w1 := Step(w, e1);
    var w2 := Step(w1, e2);
    var w3 := Step(w2, At(now, Second(a)));
    var w4 := Step(w3, At(now, Second(b)));
    TwoCounted(w, now, a, b, one, two);
    RunThree(w, e1, e2, At(now, Second(a)));
    var counts := [e1, e2, At(now, Second(a)), At(now, Second(b))];
    assert counts == [e1, e2, At(now, Second(a))] + [At(now, Second(b))];
    RunAppend(w, [e1, e2, At(now, Second(a))], [At(now, Second(b))]);
    RunOne(w3, At(now, Second(b)));
    var writes := [At(now, Write(a, x)), At(now, Write(b, x))];
    RunAppend(w, counts, writes);
    assert writes == [writes[0]] + [writes[1]];
    RunAppend(w4, [writes[0]], [writes[1]]);
    RunOne(w4, writes[0]);
    RunOne(Step(w4, writes[0]), writes[1]);
    TwoDemoted(w4, now, a, b, one, two, x);
  }

  ghost predicate Demotes(w: World, request: Id, user: Id) {
    request in w.ready && w.ready[request].ReadyUpdate? && w.ready[request].user == user
    && w.ready[request].role == Member
  }

  lemma TwoCounted(w: World, now: int, a: Id, b: Id, one: Id, two: Id)
    requires a != b && one != two && w.open.None? && ActiveAdmins(w.db.users) == {one, two}
    requires one in ActiveAdmins(w.db.users) && two in ActiveAdmins(w.db.users) && |{one, two}| == 2
    ensures var w2 := Step(Step(w, At(now, First(a, CallUpdate(one, Some(Member), None)))),
                           At(now, First(b, CallUpdate(two, Some(Member), None))));
            var w4 := Step(Step(w2, At(now, Second(a))), At(now, Second(b)));
            w4.db == w.db && w4.open.None? && Demotes(w4, a, one) && Demotes(w4, b, two)
  {
  }

  lemma TwoDemoted(w: World, now: int, a: Id, b: Id, one: Id, two: Id, x: Fresh)
    requires a != b && one != two && w.open.None? && ActiveAdmins(w.db.users) == {one, two}
    requires Demotes(w, a, one) && Demotes(w, b, two)
    ensures ActiveAdmins(Step(Step(w, At(now, Write(a, x))), At(now, Write(b, x))).db.users) == {}
  {
    assert one in ActiveAdmins(w.db.users) && two in ActiveAdmins(w.db.users);
    UpdateWriteAdmins(w.db, now, w.ready[a]);
    var w1 := Step(w, At(now, Write(a, x)));
    assert w1.db == UpdateWrite(w.db, now, w.ready[a]) && w1.open.None? && w1.ready[b] == w.ready[b];
    UpdateWriteAdmins(w1.db, now, w1.ready[b]);
  }

  // ------------------------------------------------------------------ together

  /**
   From the empty store on: unique columns and invitations in every run, current sessions
   in every run whose writes fit, and an administrator, once there, stays through every
   run whose updates spare one.
   */
  lemma EveryReachableState(es: seq<Timed>, more: seq<Timed>)
    ensures var w := Run(EMPTY, es);
            && Unique(w.db) && InvitesMatch(w.db)
            && (FitsThroughout(EMPTY, es) ==> SessionsCurrent(w.db))
            && (ActiveAdmins(w.db.users) != {} && SparesThroughout(w, more) ==>
                  ActiveAdmins(Run(w, more).db.users) != {})
  {
    InvitesMatchInEveryRun(EMPTY, es);
    UniqueInEveryRun(EMPTY, es);
    CurrentInEveryRunIff(EMPTY, es);
    var w := Run(EMPTY, es);
    if ActiveAdmins(w.db.users) != {} { AdminInEveryRunIff(w, more); }
  }
}
