/**
 Invitations and password reset codes of the account store over runs: who they let in, for
 how long, what uses them up and what revokes them.
 */
module LocalAuthCodes {
  import opened Common
  import opened LocalAuth
  import opened LocalAuthRuns
  import opened LocalAuthAnswers
  import opened LocalAuthLifetimes

  // ----------------------------------------------------------------- what a step does

  /** An invitation is used by the registration that commits with it, and revoked only while unused. */
  lemma InviteAfterStep(w: World, e: Timed, i: Id)
    requires i in w.db.invites
    ensures i in Step(w, e).db.invites
    ensures var v, used := w.db.invites[i], Redeems(w, e, i);
            Step(w, e).db.invites[i]
            == Invite(v.token, v.createdBy, v.createdAt, v.expiresAt,
                      if used then Some(w.ready[e.event.request].at) else v.usedAt,
                      if used then Some(e.event.draw.id) else v.usedBy,
                      if Revokes(w, e, i) then Some(e.now) else v.revokedAt)
  {
    StepCommits(w, e);
    if e.event.Do? && w.open.None? { OpOnInvite(w.db, e.now, e.event.op, i); }
    if e.event.Write? && CanWrite(w, e.event.request) {
      LandsIff(w.db, e.now, w.ready[e.event.request], e.event.draw);
      if Writes(w, e) { WriteOnInvite(w.db, e.now, w.ready[e.event.request], e.event.draw, i); }
    }
  }

  predicate Redeems(w: World, e: Timed, i: Id) {
    Writes(w, e) && w.ready[e.event.request].ReadyRegister? && w.ready[e.event.request].invite == i
  }

  predicate Revokes(w: World, e: Timed, i: Id) {
    e.event.Do? && w.open.None? && e.event.op == OpRevokeInvite(i)
    && i in w.db.invites && w.db.invites[i].usedAt.None?
  }

  lemma OpOnInvite(db: Db, now: int, op: Op, i: Id)
    requires i in db.invites
    ensures var after := Apply(db, now, op).0.invites;
            i in after
            && after[i] == if op == OpRevokeInvite(i) && db.invites[i].usedAt.None?
                           then db.invites[i].(revokedAt := Some(now)) else db.invites[i]
  {
    if !op.OpCreateInvite? && !op.OpRevokeInvite? { assert Apply(db, now, op).0.invites == db.invites; }
  }

  lemma WriteOnInvite(db: Db, now: int, p: Ready, x: Fresh, i: Id)
    requires !ReadsAgain(p) && Lands(db, p, x) && i in db.invites
    ensures var after := WriteHalf(db, now, p, x).0.invites;
            i in after
            && after[i] == if p.ReadyRegister? && p.invite == i
                           then db.invites[i].(usedAt := Some(p.at), usedBy := Some(x.id)) else db.invites[i]
  {
    if !p.ReadyRegister? { assert WriteHalf(db, now, p, x).0.invites == db.invites; }
  }

  lemma WriteKeepsCodes(db: Db, now: int, p: Ready, x: Fresh)
    requires !ReadsAgain(p)
    ensures WriteHalf(db, now, p, x).0.invites.Keys == db.invites.Keys
    ensures WriteHalf(db, now, p, x).0.resets.Keys == db.resets.Keys
  {
  }

  lemma OpKeepsCodes(db: Db, now: int, op: Op)
    ensures !op.OpCreateInvite? ==> Apply(db, now, op).0.invites.Keys == db.invites.Keys
    ensures !op.OpCreateReset? ==> Apply(db, now, op).0.resets == db.resets
  {
  }

  lemma CreatesInviteIff(db: Db, now: int, op: Op, i: Id, v: Invite)
    requires op.OpCreateInvite? && i !in db.invites
    ensures Apply(db, now, op).1 == Committed && i in Apply(db, now, op).0.invites
            && Apply(db, now, op).0.invites[i] == v
       <==> op.id == i && (forall j :: j in db.invites ==> db.invites[j].token != op.token)
            && v == Invite(op.token, op.admin, now, now + 24 * 60 * 60, None, None, None)
  {
  }

  lemma CreatesResetIff(db: Db, now: int, op: Op, i: Id, v: Reset)
    requires op.OpCreateReset? && i !in db.resets
    ensures Apply(db, now, op).1 == Committed && i in Apply(db, now, op).0.resets
            && Apply(db, now, op).0.resets[i] == v
       <==> op.id == i && op.user in db.users && (forall j :: j in db.resets ==> db.resets[j].token != op.token)
            && v == Reset(op.token, op.user, op.admin, now, now + 24 * 60 * 60, None, None)
  {
  }

  /** Invitations come from nowhere else, unused, with a day to live. */
  lemma InviteIsCreatedIff(w: World, e: Timed, i: Id, v: Invite)
    requires i !in w.db.invites
    ensures i in Step(w, e).db.invites && Step(w, e).db.invites[i] == v
       <==> && e.event.Do? && w.open.None? && e.event.op.OpCreateInvite? && e.event.op.id == i
            && (forall j :: j in w.db.invites ==> w.db.invites[j].token != e.event.op.token)
            && v == Invite(e.event.op.token, e.event.op.admin, e.now, e.now + 24 * 60 * 60, None, None, None)
  {
    StepCommits(w, e);
    if e.event.Do? && w.open.None? {
      OpKeepsCodes(w.db, e.now, e.event.op);
      if e.event.op.OpCreateInvite? { CreatesInviteIff(w.db, e.now, e.event.op, i, v); }
    }
    if e.event.Write? && CanWrite(w, e.event.request) {
      WriteKeepsCodes(w.db, e.now, w.ready[e.event.request], e.event.draw);
    }
  }

  /** A reset code is used by the reset that commits with it; nothing else happens to it. */
  lemma ResetAfterStep(w: World, e: Timed, i: Id)
    requires i in w.db.resets
    ensures i in Step(w, e).db.resets
    ensures Step(w, e).db.resets[i]
         == w.db.resets[i].(usedAt := if UsesCode(w, e, i) then Some(w.ready[e.event.request].at)
                                      else w.db.resets[i].usedAt)
  {
    StepCommits(w, e);
    if e.event.Do? && w.open.None? { OpKeepsCodes(w.db, e.now, e.event.op); }
    if e.event.Write? && CanWrite(w, e.event.request) {
      LandsIff(w.db, e.now, w.ready[e.event.request], e.event.draw);
      if Writes(w, e) { WriteOnReset(w.db, e.now, w.ready[e.event.request], e.event.draw, i); }
    }
  }

  predicate UsesCode(w: World, e: Timed, i: Id) {
    Writes(w, e) && w.ready[e.event.request].ReadyReset? && w.ready[e.event.request].id == i
  }

  lemma WriteOnReset(db: Db, now: int, p: Ready, x: Fresh, i: Id)
    requires !ReadsAgain(p) && Lands(db, p, x) && i in db.resets
    ensures var after := WriteHalf(db, now, p, x).0.resets;
            i in after
            && after[i] == if p.ReadyReset? && p.id == i then db.resets[i].(usedAt := Some(p.at)) else db.resets[i]
  {
    if !p.ReadyReset? { assert WriteHalf(db, now, p, x).0.resets == db.resets; }
  }

  lemma ResetIsCreatedIff(w: World, e: Timed, i: Id, v: Reset)
    requires i !in w.db.resets
    ensures i in Step(w, e).db.resets && Step(w, e).db.resets[i] == v
       <==> && e.event.Do? && w.open.None? && e.event.op.OpCreateReset? && e.event.op.id == i
            && e.event.op.user in w.db.users
            && (forall j :: j in w.db.resets ==> w.db.resets[j].token != e.event.op.token)
            && v == Reset(e.event.op.token, e.event.op.user, e.event.op.admin, e.now, e.now + 24 * 60 * 60, None, None)
  {
    StepCommits(w, e);
    if e.event.Do? && w.open.None? {
      OpKeepsCodes(w.db, e.now, e.event.op);
      if e.event.op.OpCreateReset? { CreatesResetIff(w.db, e.now, e.event.op, i, v); }
    }
    if e.event.Write? && CanWrite(w, e.event.request) {
      WriteKeepsCodes(w.db, e.now, w.ready[e.event.request], e.event.draw);
    }
  }

  // --------------------------------------------------------------------- in time

  predicate InviteInTime(v: Invite, now: int) {
    && v.createdAt <= now && v.expiresAt == v.createdAt + 24 * 60 * 60
    && (v.usedAt.Some? ==> v.createdAt <= v.usedAt.value < v.createdAt + 24 * 60 * 60)
  }

  predicate ResetInTime(v: Reset, now: int) {
    && v.createdAt <= now && v.expiresAt == v.createdAt + 24 * 60 * 60 && v.revokedAt.None?
    && (v.usedAt.Some? ==> v.createdAt <= v.usedAt.value < v.createdAt + 24 * 60 * 60)
  }

  /** What was read of a code was read in its time. */
  predicate ReadyInTime(db: Db, p: Ready, now: int) {
    match p
    case ReadyRegister(_, _, i, at) => i in db.invites && db.invites[i].createdAt <= at <= now
    case ReadyReset(i, user, _, at) =>
      && i in db.resets && db.resets[i].user == user
      && db.resets[i].createdAt <= at <= now && at < db.resets[i].createdAt + 24 * 60 * 60
    case _ => true
  }

  ghost predicate InTime(w: World, now: int) {
    && (forall i :: i in w.db.invites ==> InviteInTime(w.db.invites[i], now))
    && (forall i :: i in w.db.resets ==> ResetInTime(w.db.resets[i], now))
    && (forall r :: r in w.ready ==> ReadyInTime(w.db, w.ready[r], now))
  }

  /** With an open invitation, of a day at most, and a good password one can register. */
  lemma RegisterIff(w: World, now: int, then': int, name: string, password: Password, code: Token, i: Id)
    requires Unique(w.db) && InTime(w, then')
    ensures FirstRead(w.db, now, CallRegister(name, password, code)) == Some(ReadyRegister(name, password, i, now))
       <==> && 8 <= |password| <= 128 && code != "" && i in w.db.invites
            && var v := w.db.invites[i];
               v.token == code && v.usedAt.None? && v.revokedAt.None? && now < v.createdAt + 24 * 60 * 60
    ensures FirstRead(w.db, now, CallRegister(name, password, code)).Some? ==>
              exists j :: FirstRead(w.db, now, CallRegister(name, password, code))
                          == Some(ReadyRegister(name, password, j, now))
  {
  }

  /** With an unused code of a day at most one can set a good password for the user it was made for. */
  lemma ResetIff(w: World, now: int, then': int, code: Token, replacement: Password, i: Id, user: Id)
    requires Unique(w.db) && InTime(w, then')
    ensures FirstRead(w.db, now, CallReset(code, replacement)) == Some(ReadyReset(i, user, replacement, now))
       <==> && 8 <= |replacement| <= 128 && code != "" && i in w.db.resets
            && var v := w.db.resets[i];
               v.token == code && v.user == user && v.usedAt.None? && now < v.createdAt + 24 * 60 * 60
    ensures FirstRead(w.db, now, CallReset(code, replacement)).Some? ==>
              exists j, u ::
                FirstRead(w.db, now, CallReset(code, replacement)) == Some(ReadyReset(j, u, replacement, now))
  {
  }

  lemma ReadIsInTime(w: World, now: int, call: Call)
    requires InTime(w, now)
    ensures FirstRead(w.db, now, call).Some? ==> ReadyInTime(w.db, FirstRead(w.db, now, call).value, now)
  {
  }

  lemma ReadyStaysInTime(w: World, e: Timed, p: Ready, now: int)
    requires ReadyInTime(w.db, p, now) && now <= e.now
    ensures ReadyInTime(Step(w, e).db, p, e.now)
  {
    match p
    case ReadyRegister(_, _, i, _) => InviteAfterStep(w, e, i);
    case ReadyReset(i, _, _, _) => ResetAfterStep(w, e, i);
    case _ =>
  }

  lemma InviteStaysInTime(w: World, e: Timed, i: Id, now: int)
    requires InTime(w, now) && now <= e.now && i in Step(w, e).db.invites
    ensures InviteInTime(Step(w, e).db.invites[i], e.now)
  {
    if i in w.db.invites {
      InviteAfterStep(w, e, i);
      assert InviteInTime(w.db.invites[i], now);
      if Redeems(w, e, i) { assert ReadyInTime(w.db, w.ready[e.event.request], now); }
    } else {
      InviteIsCreatedIff(w, e, i, Step(w, e).db.invites[i]);
    }
  }

  lemma ResetStaysInTime(w: World, e: Timed, i: Id, now: int)
    requires InTime(w, now) && now <= e.now && i in Step(w, e).db.resets
    ensures ResetInTime(Step(w, e).db.resets[i], e.now)
  {
    if i in w.db.resets {
      ResetAfterStep(w, e, i);
      assert ResetInTime(w.db.resets[i], now);
      if UsesCode(w, e, i) { assert ReadyInTime(w.db, w.ready[e.event.request], now); }
    } else {
      ResetIsCreatedIff(w, e, i, Step(w, e).db.resets[i]);
    }
  }

  lemma LaterIsInTime(w: World, now: int, later: int)
    requires InTime(w, now) && now <= later
    ensures InTime(w, later)
  {
    forall r | r in w.ready ensures ReadyInTime(w.db, w.ready[r], later) {
      assert ReadyInTime(w.db, w.ready[r], now);
    }
  }

  lemma StepKeepsInTime(w: World, e: Timed, now: int)
    requires InTime(w, now) && now <= e.now
    ensures InTime(Step(w, e), e.now)
  {
    var w' := Step(w, e);
    LaterIsInTime(w, now, e.now);
    forall i | i in w'.db.invites ensures InviteInTime(w'.db.invites[i], e.now) {
      InviteStaysInTime(w, e, i, now);
    }
    forall i | i in w'.db.resets ensures ResetInTime(w'.db.resets[i], e.now) {
      ResetStaysInTime(w, e, i, now);
    }
    forall r | r in w'.ready ensures ReadyInTime(w'.db, w'.ready[r], e.now) {
      ReadyAfter(w, e, r);
      if r in w.ready && w'.ready[r] == w.ready[r] {
        ReadyStaysInTime(w, e, w.ready[r], now);
      } else if e.event.First? {
        ReadIsInTime(w, e.now, e.event.call);
      }
    }
  }

  lemma {:induction false} InTimeInEveryRun(w: World, es: seq<Timed>, now: int)
    requires InTime(w, now) && Clocked(es, now)
    ensures InTime(Run(w, es), EndTime(es, now))
    decreases |es|
  {
    if es != [] {
      StepKeepsInTime(w, es[0], now);
      InTimeInEveryRun(Step(w, es[0]), es[1..], es[0].now);
    }
  }

  /** From the empty store on, however calls overlap, every code that was used was used within a day of its making. */
  lemma CodesAreUsedInTime(es: seq<Timed>, now: int)
    requires Clocked(es, now)
    ensures var db := Run(EMPTY, es).db;
            && (forall i :: i in db.invites && db.invites[i].usedAt.Some? ==>
                  db.invites[i].createdAt <= db.invites[i].usedAt.value < db.invites[i].createdAt + 24 * 60 * 60)
            && (forall i :: i in db.resets && db.resets[i].usedAt.Some? ==>
                  db.resets[i].createdAt <= db.resets[i].usedAt.value < db.resets[i].createdAt + 24 * 60 * 60)
  {
    InTimeInEveryRun(EMPTY, es, now);
    var w := Run(EMPTY, es);
    forall i | i in w.db.invites ensures InviteInTime(w.db.invites[i], EndTime(es, now)) {
    }
    forall i | i in w.db.resets ensures ResetInTime(w.db.resets[i], EndTime(es, now)) {
    }
  }
}
