/**
 The life of one session over runs of the account store: both time limits, when a
 rejection is final, and what a logout or a new password ends for good. `authenticate`
 reads the session, and later writes the time of that read back.
 */
module LocalAuthLifetimes {
  import opened Common
  import opened LocalAuth
  import opened LocalAuthRuns
  import opened LocalAuthSessions

  datatype Verdict = Accepted | Rejected

  /** What the read of `authenticate` decides. */
  ghost function Attempt(w: World, now: int, token: Token): Verdict {
    if Usable(w.db, now, token) then Accepted else Rejected
  }

  predicate Asks(w: World, e: Timed, token: Token) {
    e.event.First? && e.event.call == CallAuthenticate(token) && !Stuck(w, e.event.request)
  }

  /** The verdict of one step, if it asks for one. */
  ghost function VerdictOf(w: World, e: Timed, token: Token): seq<(int, Verdict)> {
    if Asks(w, e, token) then [(e.now, Attempt(w, e.now, token))] else []
  }

  /** The verdicts on one token along a run, each with its time. */
  ghost function Verdicts(w: World, es: seq<Timed>, token: Token): seq<(int, Verdict)>
    decreases |es|
  {
    if es == [] then [] else VerdictOf(w, es[0], token) + Verdicts(Step(w, es[0]), es[1..], token)
  }

  ghost predicate AllRejected(vs: seq<(int, Verdict)>) {
    forall k :: 0 <= k < |vs| ==> vs[k].1 == Rejected
  }

  /** Request `r` has read the session and not yet written its use back. */
  predicate UseInFlight(w: World, r: Id, token: Token) {
    r in w.ready && w.ready[r].ReadyUse? && w.ready[r].token == token
  }

  // ------------------------------------------------------- what a step does to a session

  /** Owner and limits of a session never change, and a revocation stays. */
  predicate Continues(s: Session, s': Session) {
    s'.user == s.user && s'.createdAt == s.createdAt && s'.expiresAt == s.expiresAt
    && (s.revokedAt.Some? ==> s'.revokedAt == s.revokedAt)
  }

  lemma OpContinues(db: Db, now: int, op: Op, token: Token)
    requires token in db.sessions
    ensures var after := Apply(db, now, op).0;
            token in after.sessions && Continues(db.sessions[token], after.sessions[token])
            && after.sessions[token].lastSeen == db.sessions[token].lastSeen
  {
    if !op.OpLogout? && !op.OpOfflineReset? { assert Apply(db, now, op).0.sessions == db.sessions; }
  }

  lemma WriteContinues(db: Db, now: int, p: Ready, x: Fresh, token: Token)
    requires token in db.sessions && !ReadsAgain(p) && WriteHalf(db, now, p, x).1 == Committed
    ensures var after := WriteHalf(db, now, p, x).0;
            token in after.sessions && Continues(db.sessions[token], after.sessions[token])
            && after.sessions[token].lastSeen
               == if p.ReadyUse? && p.token == token then p.at else db.sessions[token].lastSeen
  {
    if p.ReadyRegister? { assert WriteHalf(db, now, p, x).0.sessions == db.sessions; }
  }

  /** The last use moves only to the time of a read whose write was in flight. */
  lemma StepContinues(w: World, e: Timed, token: Token)
    requires token in w.db.sessions
    ensures token in Step(w, e).db.sessions
    ensures var s, s' := w.db.sessions[token], Step(w, e).db.sessions[token];
            Continues(s, s')
            && (s'.lastSeen == s.lastSeen
                || (e.event.Write? && UseInFlight(w, e.event.request, token)
                    && s'.lastSeen == w.ready[e.event.request].at))
  {
    StepCommits(w, e);
    if e.event.Do? { OpContinues(w.db, e.now, e.event.op, token); }
    if Step(w, e).db != w.db && e.event.Write? {
      WriteContinues(w.db, e.now, w.ready[e.event.request], e.event.draw, token);
    }
  }

  /** New uses come into flight only by an accepted read. */
  lemma NewUseWasRead(w: World, e: Timed, r: Id, token: Token)
    requires UseInFlight(Step(w, e), r, token)
    ensures (UseInFlight(w, r, token) && Step(w, e).ready[r] == w.ready[r])
         || (Asks(w, e, token) && Usable(w.db, e.now, token) && Step(w, e).ready[r].at == e.now)
  {
  }

  // ------------------------------------------------------------- reachable states

  /** What holds of every state reached by time `now`. */
  ghost predicate Sane(w: World, now: int) {
    && (forall t :: t in w.db.sessions ==> SessionSane(w.db, w.db.sessions[t], now))
    && (forall r :: r in w.ready ==> ReadySane(w.db, w.ready[r], now))
    && (w.open.Some? ==> w.open.value.owner !in w.ready)
  }

  predicate SessionSane(db: Db, s: Session, now: int) {
    s.user in db.users && s.expiresAt == s.createdAt + SESSION_ABSOLUTE_SECONDS
    && s.createdAt <= s.lastSeen <= now
  }

  predicate ReadySane(db: Db, p: Ready, now: int) {
    match p
    case ReadyLogin(user, _, _, _) => user in db.users
    case ReadyUse(token, at, _) => token in db.sessions && db.sessions[token].createdAt <= at <= now
    case RowForChange(user, _, _, _) => user in db.users
    case ReadyChange(user, _, _, at) => user in db.users && at <= now
    case _ => true
  }

  lemma FirstReadIsSane(w: World, now: int, call: Call)
    requires Sane(w, now)
    ensures FirstRead(w.db, now, call).Some? ==> ReadySane(w.db, FirstRead(w.db, now, call).value, now)
  {
    if call.CallAuthenticate? && call.token in w.db.sessions {
      assert SessionSane(w.db, w.db.sessions[call.token], now);
    }
  }

  /** A record that was sane stays so: users and sessions stay, and no creation time moves. */
  lemma ReadyStaysSane(w: World, e: Timed, p: Ready, now: int)
    requires ReadySane(w.db, p, now) && e.now >= now
    ensures ReadySane(Step(w, e).db, p, e.now)
  {
    StepKeepsUsers(w, e);
    if p.ReadyUse? { StepContinues(w, e, p.token); }
  }

  lemma OpKeepsTokens(db: Db, now: int, op: Op)
    ensures Apply(db, now, op).0.sessions.Keys == db.sessions.Keys
  {
  }

  lemma WriteOpensFresh(db: Db, now: int, p: Ready, x: Fresh, token: Token)
    requires !ReadsAgain(p) && ReadySane(db, p, now) && WriteHalf(db, now, p, x).1 == Committed
    requires token !in db.sessions && token in WriteHalf(db, now, p, x).0.sessions
    ensures var after := WriteHalf(db, now, p, x).0;
            var s := after.sessions[token];
            s.user in after.users && s.expiresAt == s.createdAt + SESSION_ABSOLUTE_SECONDS
            && s.lastSeen == s.createdAt <= now && s.revokedAt.None?
  {
    if !p.ReadyLogin? && !p.ReadyChange? { KeepsTokens(db, now, p, x); }
  }

  lemma KeepsTokens(db: Db, now: int, p: Ready, x: Fresh)
    requires !ReadsAgain(p) && !p.ReadyLogin? && !p.ReadyChange?
    ensures WriteHalf(db, now, p, x).0.sessions.Keys == db.sessions.Keys
  {
  }

  /** Sessions are created unrevoked, with the full lifetime and a first use at their creation. */
  lemma NewSessionsAreFresh(w: World, e: Timed, token: Token, now: int)
    requires Sane(w, now) && e.now >= now && token !in w.db.sessions && token in Step(w, e).db.sessions
    ensures var s := Step(w, e).db.sessions[token];
            SessionSane(Step(w, e).db, s, e.now) && s.lastSeen == s.createdAt && s.revokedAt.None?
  {
    StepCommits(w, e);
    if e.event.Do? { OpKeepsTokens(w.db, e.now, e.event.op); }
    if Step(w, e).db != w.db && e.event.Write? {
      var p := w.ready[e.event.request];
      assert ReadySane(w.db, p, now);
      assert ReadySane(w.db, p, e.now);
      WriteOpensFresh(w.db, e.now, p, e.event.draw, token);
    }
  }

  lemma SessionStaysSane(w: World, e: Timed, token: Token, now: int)
    requires Sane(w, now) && e.now >= now && token in w.db.sessions
    ensures token in Step(w, e).db.sessions && SessionSane(Step(w, e).db, Step(w, e).db.sessions[token], e.now)
  {
    StepContinues(w, e, token);
    StepKeepsUsers(w, e);
    assert SessionSane(w.db, w.db.sessions[token], now);
    if e.event.Write? && UseInFlight(w, e.event.request, token) {
      assert ReadySane(w.db, w.ready[e.event.request], now);
    }
  }

  lemma SecondReadIsSane(w: World, now: int, p: Ready)
    requires ReadsAgain(p) && ReadySane(w.db, p, now)
    ensures SecondRead(w.db, now, p).Some? ==> ReadySane(w.db, SecondRead(w.db, now, p).value, now)
  {
  }

  /** The records after a step are old ones, or what one read gave. */
  lemma ReadyAfter(w: World, e: Timed, r: Id)
    requires r in Step(w, e).ready
    ensures (r in w.ready && Step(w, e).ready[r] == w.ready[r])
         || (e.event.First? && FirstRead(w.db, e.now, e.event.call) == Some(Step(w, e).ready[r]))
         || (e.event.Second? && r in w.ready && ReadsAgain(w.ready[r])
             && SecondRead(w.db, e.now, w.ready[r]) == Some(Step(w, e).ready[r]))
  {
  }

  lemma LaterIsSane(w: World, now: int, later: int)
    requires Sane(w, now) && now <= later
    ensures Sane(w, later)
  {
    forall t | t in w.db.sessions ensures SessionSane(w.db, w.db.sessions[t], later) {
      assert SessionSane(w.db, w.db.sessions[t], now);
    }
    forall r | r in w.ready ensures ReadySane(w.db, w.ready[r], later) {
      assert ReadySane(w.db, w.ready[r], now);
    }
  }

  lemma StepKeepsSane(w: World, e: Timed, now: int)
    requires Sane(w, now) && e.now >= now
    ensures Sane(Step(w, e), e.now)
  {
    var w' := Step(w, e);
    LaterIsSane(w, now, e.now);
    forall t | t in w'.db.sessions ensures SessionSane(w'.db, w'.db.sessions[t], e.now) {
      if t in w.db.sessions { SessionStaysSane(w, e, t, now); } else { NewSessionsAreFresh(w, e, t, now); }
    }
    forall r | r in w'.ready ensures ReadySane(w'.db, w'.ready[r], e.now) {
      ReadyAfter(w, e, r);
      if e.event.First? { FirstReadIsSane(w, e.now, e.event.call); }
      if e.event.Second? && r in w.ready && ReadsAgain(w.ready[r]) { SecondReadIsSane(w, e.now, w.ready[r]); }
      if r in w.ready && w'.ready[r] == w.ready[r] { ReadyStaysSane(w, e, w.ready[r], e.now); }
    }
  }

  function EndTime(es: seq<Timed>, from: int): int
    decreases |es|
  {
    if es == [] then from else EndTime(es[1..], es[0].now)
  }

  lemma {:induction false} SaneInEveryRun(w: World, es: seq<Timed>, now: int)
    requires Sane(w, now) && Clocked(es, now)
    ensures Sane(Run(w, es), EndTime(es, now))
    decreases |es|
  {
    if es != [] {
      StepKeepsSane(w, es[0], now);
      SaneInEveryRun(Step(w, es[0]), es[1..], es[0].now);
    }
  }

  /** So it holds of everything that is reached from the empty store. */
  lemma ReachableIsSane(es: seq<Timed>, now: int)
    requires Clocked(es, now)
    ensures Sane(Run(EMPTY, es), EndTime(es, now))
  {
    SaneInEveryRun(EMPTY, es, now);
  }

  // ------------------------------------------------------------------- both limits

  /** Every use lies under 12 hours after the one before it and under 7 days after `created`. */
  ghost predicate UsesInTime(vs: seq<(int, Verdict)>, last: int, created: int)
    decreases |vs|
  {
    vs == [] ||
    (if vs[0].1 == Accepted then
       && last <= vs[0].0 < last + SESSION_IDLE_SECONDS
       && vs[0].0 < created + SESSION_ABSOLUTE_SECONDS
       && UsesInTime(vs[1..], vs[0].0, created)
     else UsesInTime(vs[1..], last, created))
  }

  /** No use that is recorded, or still to be written back, is later than `last`. */
  ghost predicate UsedBy(w: World, token: Token, last: int) {
    token in w.db.sessions && w.db.sessions[token].lastSeen <= last
    && forall r :: UseInFlight(w, r, token) ==> w.ready[r].at <= last
  }

  lemma StepUsedBy(w: World, e: Timed, token: Token, last: int)
    requires UsedBy(w, token, last) && last <= e.now
    ensures UsedBy(Step(w, e), token, if Asks(w, e, token) && Usable(w.db, e.now, token) then e.now else last)
  {
    StepContinues(w, e, token);
    forall r | UseInFlight(Step(w, e), r, token)
      ensures Step(w, e).ready[r].at <= if Asks(w, e, token) && Usable(w.db, e.now, token) then e.now else last
    {
      NewUseWasRead(w, e, r, token);
    }
  }

  /**
   Both limits hold for every accepted use along every run, however uses of the session
   overlap: an old time that is written back late only shortens its life.
   */
  lemma {:induction false} EveryUseIsInTime(w: World, es: seq<Timed>, token: Token, last: int, now: int)
    requires UsedBy(w, token, last) && last <= now && Clocked(es, now)
    requires w.db.sessions[token].expiresAt == w.db.sessions[token].createdAt + SESSION_ABSOLUTE_SECONDS
    ensures UsesInTime(Verdicts(w, es, token), last, w.db.sessions[token].createdAt)
    decreases |es|
  {
    if es != [] {
      var w', e := Step(w, es[0]), es[0];
      var accepted := Asks(w, e, token) && Usable(w.db, e.now, token);
      StepContinues(w, e, token);
      StepUsedBy(w, e, token, last);
      EveryUseIsInTime(w', es[1..], token, if accepted then e.now else last, e.now);
      var rest := Verdicts(w', es[1..], token);
      assert Verdicts(w, es, token) == rest || Verdicts(w, es, token)[1..] == rest;
    }
  }

  lemma NewSessionIsUnused(w: World, e: Timed, r: Id, token: Token, now: int)
    requires Sane(w, now) && token !in w.db.sessions
    ensures !UseInFlight(Step(w, e), r, token)
  {
    assert !UseInFlight(w, r, token) by {
      if r in w.ready { assert ReadySane(w.db, w.ready[r], now); }
    }
    if UseInFlight(Step(w, e), r, token) { NewUseWasRead(w, e, r, token); }
  }

  /** From the step that creates a session on, all its uses keep both limits. */
  lemma UsesFromCreation(w: World, es: seq<Timed>, token: Token, now: int)
    requires Sane(w, now) && es != [] && Clocked(es, now)
    requires token !in w.db.sessions && token in Step(w, es[0]).db.sessions
    ensures var created := Step(w, es[0]).db.sessions[token].createdAt;
            created <= es[0].now && UsesInTime(Verdicts(Step(w, es[0]), es[1..], token), created, created)
  {
    var w', e := Step(w, es[0]), es[0];
    var created := w'.db.sessions[token].createdAt;
    NewSessionsAreFresh(w, e, token, now);
    forall r ensures !UseInFlight(w', r, token) {
      NewSessionIsUnused(w, e, r, token, now);
    }
    EveryUseIsInTime(w', es[1..], token, created, e.now);
  }

  // ---------------------------------------------------------- when a rejection is final

  /** The session is revoked or expired, or idle too long with no use in flight that could bring it back. */
  ghost predicate Finished(w: World, token: Token, now: int) {
    token in w.db.sessions &&
    var s := w.db.sessions[token];
    || s.revokedAt.Some?
    || s.expiresAt <= now
    || (s.lastSeen + SESSION_IDLE_SECONDS <= now
        && forall r :: UseInFlight(w, r, token) ==> w.ready[r].at + SESSION_IDLE_SECONDS <= now)
  }

  lemma StepKeepsFinished(w: World, e: Timed, token: Token, now: int)
    requires Finished(w, token, now) && e.now >= now
    ensures Finished(Step(w, e), token, e.now)
    ensures !Usable(w.db, e.now, token)
  {
    StepContinues(w, e, token);
    forall r | UseInFlight(Step(w, e), r, token)
      ensures UseInFlight(w, r, token) && Step(w, e).ready[r] == w.ready[r]
    {
      NewUseWasRead(w, e, r, token);
    }
  }

  lemma {:induction false} FinishedIsFinal(w: World, es: seq<Timed>, token: Token, now: int)
    requires Finished(w, token, now) && Clocked(es, now)
    ensures AllRejected(Verdicts(w, es, token))
    decreases |es|
  {
    if es != [] {
      StepKeepsFinished(w, es[0], token, now);
      FinishedIsFinal(Step(w, es[0]), es[1..], token, es[0].now);
    }
  }

  ghost predicate RejectedForGood(w: World, token: Token, now: int) {
    forall es :: Clocked(es, now) ==> AllRejected(Verdicts(w, es, token))
  }

  /** Every step of the run happens at the same time. */
  predicate AllAt(es: seq<Timed>, now: int) {
    forall k :: 0 <= k < |es| ==> es[k].now == now
  }

  lemma {:induction false} AllAtIsClocked(es: seq<Timed>, now: int)
    requires AllAt(es, now)
    ensures Clocked(es, now)
    decreases |es|
  {
    if es != [] {
      forall k | 0 <= k < |es[1..]| ensures es[1..][k].now == now {
        assert es[1..][k] == es[k + 1];
      }
      AllAtIsClocked(es[1..], now);
    }
  }

  lemma VerdictsCons(w: World, e: Timed, es: seq<Timed>, token: Token)
    ensures Verdicts(w, [e] + es, token) == VerdictOf(w, e, token) + Verdicts(Step(w, e), es, token)
  {
    assert ([e] + es)[1..] == es;
  }

  lemma Associative<T>(x: seq<T>, y: seq<T>, z: seq<T>)
    ensures x + (y + z) == (x + y) + z
  {
  }

  lemma VerdictsOne(w: World, e: Timed, token: Token)
    ensures Verdicts(w, [e], token) == VerdictOf(w, e, token)
  {
    VerdictsCons(w, e, [], token);
    AddNothing([e]);
    AddNothing(VerdictOf(w, e, token));
  }

  lemma AddNothing<T>(s: seq<T>)
    ensures s + [] == s
  {
  }

  lemma Uncons<T>(a: seq<T>, b: seq<T>)
    requires a != []
    ensures a == [a[0]] + a[1..] && a + b == [a[0]] + (a[1..] + b)
  {
  }

  lemma AppendAfter(w: World, e: Timed, a: seq<Timed>, b: seq<Timed>, token: Token)
    requires var w' := Step(w, e);
             Verdicts(w', a + b, token) == Verdicts(w', a, token) + Verdicts(Run(w', a), b, token)
    ensures Verdicts(w, [e] + (a + b), token) == Verdicts(w, [e] + a, token) + Verdicts(Run(w, [e] + a), b, token)
  {
    VerdictsCons(w, e, a, token);
    VerdictsCons(w, e, a + b, token);
    RunCons(w, e, a);
    var w' := Step(w, e);
    Associative(VerdictOf(w, e, token), Verdicts(w', a, token), Verdicts(Run(w', a), b, token));
  }

  lemma {:induction false} VerdictsAppend(w: World, a: seq<Timed>, b: seq<Timed>, token: Token)
    ensures Verdicts(w, a + b, token) == Verdicts(w, a, token) + Verdicts(Run(w, a), b, token)
    decreases |a|
  {
    if a == [] {
      assert a + b == b;
    } else {
      VerdictsAppend(Step(w, a[0]), a[1..], b, token);
      AppendAfter(w, a[0], a[1..], b, token);
      Uncons(a, b);
    }
  }

  /** A session that other requests can still bring back. */
  ghost predicate Revivable(w: World, token: Token, now: int) {
    token != "" && token in w.db.sessions &&
    var s := w.db.sessions[token];
    && s.user in w.db.users && s.revokedAt.None? && s.expiresAt > now
    && (s.lastSeen + SESSION_IDLE_SECONDS > now
        || exists q :: UseInFlight(w, q, token) && w.ready[q].at + SESSION_IDLE_SECONDS > now)
  }

  predicate UserActive(w: World, token: Token) {
    token in w.db.sessions && w.db.sessions[token].user in w.db.users
    && w.db.users[w.db.sessions[token].user].status == Active
  }

  /** First the open transaction goes. */
  lemma Unlock(w: World, token: Token, now: int) returns (es: seq<Timed>)
    requires Revivable(w, token, now) && Sane(w, now)
    ensures AllAt(es, now) && Run(w, es).open.None? && Revivable(Run(w, es), token, now)
  {
    if w.open.None? {
      es := [];
    } else {
      var e := At(now, EndRequest(w.open.value.owner));
      es := [e];
      RunOne(w, e);
      assert Step(w, e).ready == w.ready;
      KeepsRevivable(w, Step(w, e), token, now);
    }
  }

  lemma KeepsRevivable(w: World, w': World, token: Token, now: int)
    requires Revivable(w, token, now) && w'.db.sessions == w.db.sessions && w.db.users.Keys <= w'.db.users.Keys
    requires forall q :: UseInFlight(w, q, token) ==> q in w'.ready && w'.ready[q] == w.ready[q]
    ensures Revivable(w', token, now)
  {
    if q :| UseInFlight(w, q, token) && w.ready[q].at + SESSION_IDLE_SECONDS > now {
      assert UseInFlight(w', q, token);
    }
  }

  /** A request that has nothing in flight. */
  lemma FreeRequest(m: map<Id, Ready>) returns (r: Id)
    ensures r !in m
  {
    r := Above(m.Keys);
  }

  lemma {:induction false} Above(s: set<Id>) returns (n: nat)
    ensures forall k :: k in s ==> k < n
    decreases |s|
  {
    if s == {} {
      n := 0;
    } else {
      var x := Pick(s);
      var m := Above(s - {x});
      n := if x < m then m else x + 1;
      assert forall k :: k in s ==> k == x || k in s - {x};
    }
  }

  /** Then a disabled user is enabled again; role and sessions stay. */
  lemma Enable(w: World, token: Token, now: int) returns (es: seq<Timed>)
    requires Revivable(w, token, now) && w.open.None?
    ensures AllAt(es, now) && Run(w, es).open.None? && Revivable(Run(w, es), token, now)
    ensures UserActive(Run(w, es), token)
  {
    var user := w.db.sessions[token].user;
    if w.db.users[user].status == Active {
      es := [];
    } else {
      var r := FreeRequest(w.ready);
      var x := Fresh(0, 0, "", "");
      var a, b := At(now, First(r, CallUpdate(user, None, Some(Active)))), At(now, Write(r, x));
      es := [a] + [b];
      RunAppend(w, [a], [b]);
      RunOne(w, a);
      RunOne(Step(w, a), b);
      EnableSteps(w, token, user, r, now, x);
      KeepsRevivable(w, Run(w, es), token, now);
    }
  }

  lemma EnableSteps(w: World, token: Token, user: Id, r: Id, now: int, x: Fresh)
    requires w.open.None? && user in w.db.users && w.db.users[user].status != Active && r !in w.ready
    ensures var w' := Step(Step(w, At(now, First(r, CallUpdate(user, None, Some(Active))))), At(now, Write(r, x)));
            && w'.open.None? && w'.db.sessions == w.db.sessions && w'.db.users.Keys == w.db.users.Keys
            && w'.db.users[user].status == Active && w'.ready == w.ready
  {
    var a := At(now, First(r, CallUpdate(user, None, Some(Active))));
    var p := ReadyUpdate(user, w.db.users[user], w.db.users[user].role, Active, None);
    assert FirstRead(w.db, now, a.event.call) == Some(p);
    assert Step(w, a).ready == w.ready[r := p] && Step(w, a).ready - {r} == w.ready;
  }

  /** Then a use in flight is written back, if the session needs it. */
  lemma WriteBack(w: World, token: Token, now: int) returns (es: seq<Timed>)
    requires Revivable(w, token, now) && w.open.None? && UserActive(w, token)
    ensures AllAt(es, now) && Run(w, es).open.None? && Usable(Run(w, es).db, now, token)
  {
    if w.db.sessions[token].lastSeen + SESSION_IDLE_SECONDS > now {
      es := [];
    } else {
      var q :| UseInFlight(w, q, token) && w.ready[q].at + SESSION_IDLE_SECONDS > now;
      var e := At(now, Write(q, Fresh(0, 0, "", "")));
      es := [e];
      RunOne(w, e);
    }
  }

  /** So some run from here accepts the session once more. */
  lemma RevivableIsAccepted(w: World, token: Token, now: int) returns (es: seq<Timed>)
    requires Revivable(w, token, now) && Sane(w, now)
    ensures Clocked(es, now) && !AllRejected(Verdicts(w, es, token))
  {
    var a := Unlock(w, token, now);
    var b := Enable(Run(w, a), token, now);
    var c := WriteBack(Run(Run(w, a), b), token, now);
    RunAppend(w, a, b);
    RunAppend(w, a + b, c);
    es := a + b + c + [At(now, First(0, CallAuthenticate(token)))];
    AllAtIsClocked(es, now);
    AcceptedAtTheEnd(w, a + b + c, token, now);
  }

  lemma AcceptedAtTheEnd(w: World, es: seq<Timed>, token: Token, now: int)
    requires Run(w, es).open.None? && Usable(Run(w, es).db, now, token)
    ensures !AllRejected(Verdicts(w, es + [At(now, First(0, CallAuthenticate(token)))], token))
  {
    var ask := At(now, First(0, CallAuthenticate(token)));
    VerdictsAppend(w, es, [ask], token);
    VerdictsOne(Run(w, es), ask, token);
    LastIsAccepted(Verdicts(w, es, token), now);
  }

  lemma LastIsAccepted(vs: seq<(int, Verdict)>, now: int)
    ensures !AllRejected(vs + [(now, Accepted)])
  {
    assert (vs + [(now, Accepted)])[|vs|] == (now, Accepted);
  }

  /**
   In every reachable state an issued session is rejected from now on, in every run,
   exactly when it is finished: revoked, expired, or idle too long with no late write of
   an earlier use that would bring it back.
   */
  lemma RejectedForGoodIff(w: World, token: Token, now: int)
    requires Sane(w, now) && token != "" && token in w.db.sessions
    ensures RejectedForGood(w, token, now) <==> Finished(w, token, now)
  {
    if Finished(w, token, now) {
      forall es | Clocked(es, now) ensures AllRejected(Verdicts(w, es, token)) {
        FinishedIsFinal(w, es, token, now);
      }
    } else {
      assert SessionSane(w.db, w.db.sessions[token], now);
      var es := RevivableIsAccepted(w, token, now);
    }
  }

  /**
   Where sessions are current and no use of this one is in flight, one rejection is
   final, even when the user is disabled and enabled again.
   */
  lemma RejectionIsPermanent(w: World, token: Token, now: int)
    requires SessionsCurrent(w.db) && token != "" && token in w.db.sessions
    requires forall r :: !UseInFlight(w, r, token)
    ensures Attempt(w, now, token) == Rejected <==> RejectedForGood(w, token, now)
  {
    var e := At(now, First(FreeOwner(w), CallAuthenticate(token)));
    if Attempt(w, now, token) == Rejected {
      assert w.db.sessions[token].revokedAt.None? ==> Current(w.db, w.db.sessions[token]);
      forall es | Clocked(es, now) ensures AllRejected(Verdicts(w, es, token)) {
        FinishedIsFinal(w, es, token, now);
      }
    } else {
      assert Clocked([e], now);
      assert Verdicts(w, [e], token)[0] == (now, Accepted);
    }
  }

  lemma {:induction false} NothingAsked(w: World, es: seq<Timed>, token: Token)
    requires forall k :: 0 <= k < |es| ==> es[k].event.First? ==> es[k].event.call != CallAuthenticate(token)
    ensures Verdicts(w, es, token) == []
    decreases |es|
  {
    if es != [] {
      forall k | 0 <= k < |es[1..]| ensures es[1..][k] == es[k + 1] {
      }
      NothingAsked(Step(w, es[0]), es[1..], token);
    }
  }

  /**
   The condition is needed. A use that was read just before the idle limit and is written
   after it brings back a session that has been rejected in between.
   */
  lemma LateUseRevivesASession(w: World, now: int, a: Id, b: Id, token: Token, x: Fresh)
    requires w.open.None? && a != b && Usable(w.db, now - 1, token)
    requires w.db.sessions[token].lastSeen + SESSION_IDLE_SECONDS == now < w.db.sessions[token].expiresAt
    ensures var ask := At(now, First(b, CallAuthenticate(token)));
            Verdicts(w, [At(now - 1, First(a, CallAuthenticate(token))), ask, At(now, Write(a, x)), ask], token)
            == [(now - 1, Accepted), (now, Rejected), (now, Accepted)]
  {
    var read, ask, write := At(now - 1, First(a, CallAuthenticate(token))),
                            At(now, First(b, CallAuthenticate(token))), At(now, Write(a, x));
    var w1 := Step(w, read);
    var w2 := Step(w1, ask);
    var w3 := Step(w2, write);
    UseIsRead(w, now - 1, a, token);
    AskingOnly(w1, now, b, token);
    UseIsWritten(w2, now, a, token, x);
    VerdictsFour(w, read, ask, write, ask, token);
    assert VerdictOf(w, read, token) == [(now - 1, Accepted)] && VerdictOf(w1, ask, token) == [(now, Rejected)];
    assert VerdictOf(w2, write, token) == [] && VerdictOf(w3, ask, token) == [(now, Accepted)];
  }

  lemma UseIsRead(w: World, now: int, a: Id, token: Token)
    requires w.open.None? && Usable(w.db, now, token)
    ensures var w' := Step(w, At(now, First(a, CallAuthenticate(token))));
            && w'.db == w.db && w'.open.None? && UseInFlight(w', a, token) && w'.ready[a].at == now
  {
  }

  /** A read changes no table and only the record of its own request. */
  lemma AskingOnly(w: World, now: int, b: Id, token: Token)
    requires w.open.None?
    ensures var w' := Step(w, At(now, First(b, CallAuthenticate(token))));
            && w'.db == w.db && w'.open.None?
            && forall r :: r in w.ready && r != b ==> r in w'.ready && w'.ready[r] == w.ready[r]
  {
  }

  lemma UseIsWritten(w: World, now: int, a: Id, token: Token, x: Fresh)
    requires w.open.None? && UseInFlight(w, a, token) && token in w.db.sessions
    ensures var w' := Step(w, At(now, Write(a, x)));
            && w'.open.None? && w'.db.users == w.db.users
            && w'.db.sessions == w.db.sessions[token := w.db.sessions[token].(lastSeen := w.ready[a].at)]
  {
  }

  lemma ConsThree<T>(a: T, b: T, c: T, d: T)
    ensures [a] + [b, c, d] == [a, b, c, d] && [b] + [c, d] == [b, c, d] && [c] + [d] == [c, d]
  {
  }

  lemma VerdictsFour(w: World, a: Timed, b: Timed, c: Timed, d: Timed, token: Token)
    ensures var w1 := Step(w, a);
            var w2 := Step(w1, b);
            var w3 := Step(w2, c);
            Verdicts(w, [a, b, c, d], token)
            == VerdictOf(w, a, token) + (VerdictOf(w1, b, token) + (VerdictOf(w2, c, token) + VerdictOf(w3, d, token)))
  {
    var w1 := Step(w, a);
    var w2 := Step(w1, b);
    ConsThree(a, b, c, d);
    VerdictsCons(w, a, [b, c, d], token);
    VerdictsCons(w1, b, [c, d], token);
    VerdictsCons(w2, c, [d], token);
    VerdictsOne(Step(w2, c), d, token);
  }

  /**
   So does enabling a user again: a login that read the row before the user was disabled
   opens a session after it, which is rejected until then and accepted from then on.
   */
  lemma StaleLoginRevivesASession(w: World, now: int, a: Id, b: Id, c: Id, name: string, password: Password,
                                  x: Fresh, y: Fresh)
    requires w.open.None? && a != b && a != c && b != c && LoginRead(w.db, name, password, false).Ok?
    requires LoginRead(w.db, name, password, false).value.row.role == Member
    requires x.token != "" && x.token !in w.db.sessions
    ensures var user := LoginRead(w.db, name, password, false).value.user;
            var disabled := [At(now, First(a, CallLogin(name, password, false)))]
                            + [At(now, First(b, CallUpdate(user, None, Some(Disabled)))), At(now, Write(b, y))]
                            + [At(now, Write(a, x))];
            var enabled := [At(now, First(b, CallUpdate(user, None, Some(Active)))), At(now, Write(b, y))];
            var ask := At(now, First(c, CallAuthenticate(x.token)));
            && Attempt(Run(w, disabled), now, x.token) == Rejected
            && Verdicts(Run(w, disabled), [ask] + enabled + [ask], x.token) == [(now, Rejected), (now, Accepted)]
  {
    var user := LoginRead(w.db, name, password, false).value.user;
    DisabledBehindLogin(w, now, a, b, name, password, x, y);
    EnabledAgain(Run(w, [At(now, First(a, CallLogin(name, password, false)))]
                        + [At(now, First(b, CallUpdate(user, None, Some(Disabled)))), At(now, Write(b, y))]
                        + [At(now, Write(a, x))]), now, b, c, user, x.token, y);
  }

  /** `token` names an open, fresh session of a member with this status. */
  predicate FreshWithStatus(w: World, now: int, user: Id, token: Token, status: Status) {
    && w.open.None? && user in w.db.users && w.db.users[user].role == Member && w.db.users[user].status == status
    && token in w.db.sessions && var s := w.db.sessions[token];
    && s.user == user && s.revokedAt.None? && s.lastSeen == now < s.expiresAt
  }

  lemma DisabledBehindLogin(w: World, now: int, a: Id, b: Id, name: string, password: Password, x: Fresh, y: Fresh)
    requires w.open.None? && a != b && LoginRead(w.db, name, password, false).Ok?
    requires LoginRead(w.db, name, password, false).value.row.role == Member && x.token !in w.db.sessions
    ensures var user := LoginRead(w.db, name, password, false).value.user;
            FreshWithStatus(Run(w, [At(now, First(a, CallLogin(name, password, false)))]
                                   + [At(now, First(b, CallUpdate(user, None, Some(Disabled)))), At(now, Write(b, y))]
                                   + [At(now, Write(a, x))]), now, user, x.token, Disabled)
  {
    var p := LoginRead(w.db, name, password, false).value;
    var read, write := At(now, First(a, CallLogin(name, password, false))), At(now, Write(a, x));
    var off := [At(now, First(b, CallUpdate(p.user, None, Some(Disabled)))), At(now, Write(b, y))];
    RunAppend(w, [read] + off, [write]);
    RunAppend(w, [read], off);
    RunOne(w, read);
    LoginIsRead(w, now, a, name, password);
    StatusIsSet(Step(w, read), now, b, p.user, Disabled, y);
    var w2 := Run(Step(w, read), off);
    RunOne(w2, write);
    LoginWrites(w2, now, a, x, p);
  }

  lemma EnabledAgain(w: World, now: int, b: Id, c: Id, user: Id, token: Token, y: Fresh)
    requires FreshWithStatus(w, now, user, token, Disabled) && token != ""
    ensures var enabled := [At(now, First(b, CallUpdate(user, None, Some(Active)))), At(now, Write(b, y))];
            var ask := At(now, First(c, CallAuthenticate(token)));
            && Attempt(w, now, token) == Rejected
            && Verdicts(w, [ask] + enabled + [ask], token) == [(now, Rejected), (now, Accepted)]
  {
    var on := [At(now, First(b, CallUpdate(user, None, Some(Active)))), At(now, Write(b, y))];
    var ask := At(now, First(c, CallAuthenticate(token)));
    AskingOnly(w, now, c, token);
    StatusIsSet(Step(w, ask), now, b, user, Active, y);
    VerdictsAround(w, ask, on, token);
    AskedTwice(w, Run(Step(w, ask), on), ask, user, token);
  }

  lemma AskedTwice(w: World, w': World, ask: Timed, user: Id, token: Token)
    requires FreshWithStatus(w, ask.now, user, token, Disabled) && FreshWithStatus(w', ask.now, user, token, Active)
    requires token != "" && ask.event.First? && ask.event.call == CallAuthenticate(token)
    ensures VerdictOf(w, ask, token) + VerdictOf(w', ask, token) == [(ask.now, Rejected), (ask.now, Accepted)]
    ensures Attempt(w, ask.now, token) == Rejected
  {
  }

  /** Asking, some other steps, and asking again. */
  lemma VerdictsAround(w: World, ask: Timed, es: seq<Timed>, token: Token)
    requires forall k :: 0 <= k < |es| ==> es[k].event.First? ==> es[k].event.call != CallAuthenticate(token)
    ensures Verdicts(w, [ask] + es + [ask], token)
         == VerdictOf(w, ask, token) + VerdictOf(Run(Step(w, ask), es), ask, token)
  {
    var w' := Step(w, ask);
    Associative([ask], es, [ask]);
    VerdictsCons(w, ask, es + [ask], token);
    VerdictsAppend(w', es, [ask], token);
    NothingAsked(w', es, token);
    VerdictsOne(Run(w', es), ask, token);
  }

  /** An uninterrupted `update_user` of a member sets the status; disabling revokes what is open. */
  lemma StatusIsSet(w: World, now: int, b: Id, user: Id, status: Status, y: Fresh)
    requires w.open.None? && user in w.db.users && w.db.users[user].role == Member
    ensures var w' := Run(w, [At(now, First(b, CallUpdate(user, None, Some(status)))), At(now, Write(b, y))]);
            && w'.open.None? && w'.ready == w.ready - {b}
            && user in w'.db.users && w'.db.users[user].role == Member && w'.db.users[user].status == status
            && w'.db.sessions == if status == Disabled then RevokeAll(w.db.sessions, user, now) else w.db.sessions
  {
    var e, e' := At(now, First(b, CallUpdate(user, None, Some(status)))), At(now, Write(b, y));
    RunTwo(w, e, e');
    MemberIsRead(w, now, b, user, status);
    MemberIsWritten(Step(w, e), now, b, ReadyUpdate(user, w.db.users[user], Member, status, None), y);
    assert w.ready[b := Step(w, e).ready[b]] - {b} == w.ready - {b};
  }

  lemma MemberIsRead(w: World, now: int, b: Id, user: Id, status: Status)
    requires w.open.None? && user in w.db.users && w.db.users[user].role == Member
    ensures Step(w, At(now, First(b, CallUpdate(user, None, Some(status)))))
         == w.(ready := w.ready[b := ReadyUpdate(user, w.db.users[user], Member, status, None)])
  {
  }

  lemma MemberIsWritten(w: World, now: int, b: Id, p: Ready, y: Fresh)
    requires w.open.None? && b in w.ready && w.ready[b] == p && p.ReadyUpdate?
    ensures Step(w, At(now, Write(b, y))) == w.(db := UpdateWrite(w.db, now, p), ready := w.ready - {b})
  {
  }

  /** A request that holds no open transaction. */
  function FreeOwner(w: World): Id {
    if Stuck(w, 0) then 1 else 0
  }

  // ------------------------------------------------------------ ended for good

  /** A revoked session stays revoked and is never accepted again. */
  lemma {:induction false} RevokedForGood(w: World, es: seq<Timed>, token: Token)
    requires token in w.db.sessions && w.db.sessions[token].revokedAt.Some?
    ensures token in Run(w, es).db.sessions
    ensures Run(w, es).db.sessions[token].revokedAt == w.db.sessions[token].revokedAt
    ensures AllRejected(Verdicts(w, es, token))
    decreases |es|
  {
    if es != [] {
      StepContinues(w, es[0], token);
      RevokedForGood(Step(w, es[0]), es[1..], token);
    }
  }

  /** After a logout the session is revoked over every later run, and every verdict on it is a rejection. */
  lemma LogoutEndsTheSession(w: World, request: Id, token: Token, now: int, es: seq<Timed>)
    requires w.open.None? && token != "" && token in w.db.sessions
    ensures var w' := Step(w, At(now, Do(request, OpLogout(token))));
            && token in Run(w', es).db.sessions && Run(w', es).db.sessions[token].revokedAt.Some?
            && AllRejected(Verdicts(w', es, token))
  {
    RevokedForGood(Step(w, At(now, Do(request, OpLogout(token)))), es, token);
  }

  /** The step commits a new password of `user`: a change, a reset by code, or an offline reset. */
  ghost predicate SetsPassword(w: World, e: Timed, user: Id) {
    match e.event
    case Write(request, x) =>
      CanWrite(w, request) && WriteHalf(w.db, e.now, w.ready[request], x).1 == Committed
      && (w.ready[request].ReadyChange? || w.ready[request].ReadyReset?) && w.ready[request].user == user
    case Do(_, OpOfflineReset(name, temporary, _)) =>
      w.open.None? && ValidPassword(temporary) && UserNamed(w.db.users, name) == Some(user)
    case _ => false
  }

  /** A new password ends every session its user had, over every later run. */
  lemma NewPasswordEndsOldSessions(w: World, e: Timed, user: Id, token: Token, es: seq<Timed>)
    requires SetsPassword(w, e, user) && token in w.db.sessions && w.db.sessions[token].user == user
    ensures token in Run(Step(w, e), es).db.sessions
    ensures Run(Step(w, e), es).db.sessions[token].revokedAt.Some?
    ensures AllRejected(Verdicts(Step(w, e), es, token))
  {
    RevokedForGood(Step(w, e), es, token);
  }

  /** What it leaves open for the user is at most the one session that a change has just created. */
  lemma NewPasswordOpensOneSession(w: World, e: Timed, user: Id, token: Token)
    requires SetsPassword(w, e, user) && token in Step(w, e).db.sessions
    requires Step(w, e).db.sessions[token].user == user && Step(w, e).db.sessions[token].revokedAt.None?
    ensures e.event.Write? && w.ready[e.event.request].ReadyChange? && token == e.event.draw.token
    ensures token !in w.db.sessions
  {
  }
}
