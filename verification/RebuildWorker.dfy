/**
 Coalescing of search index rebuilds (the nested `rebuild_search_index` of app.py):
 two flags under a lock, callers that may have to submit a worker, and a worker that
 repeats its pass while requests are pending. Each locked region is one step.
 */
module RebuildWorker {
  datatype Flags = Flags(running: bool, pending: bool)

  /** First locked region of a caller: does it have to submit a worker? */
  function OnRequest(f: Flags): (Flags, bool) {
    if f.running then (f.(pending := true), false) else (f.(running := true), true)
  }

  /** Locked region after a submit that raised; `pending` is left as it is. */
  function OnSubmitFailed(f: Flags): Flags {
    f.(running := false)
  }

  /** Locked region after a pass: does the worker go on? */
  function OnPassDone(f: Flags): (Flags, bool) {
    if f.pending then (f.(pending := false), true) else (f.(running := false), false)
  }

  /** The two module variables and their three locked regions. */
  class RebuildFlags {
    var running: bool
    var pending: bool

    function View(): Flags reads this { Flags(running, pending) }

    constructor ()
      ensures View() == Flags(false, false)
    {
      running, pending := false, false;
    }

    method Request() returns (submit: bool)
      modifies this
      ensures (View(), submit) == OnRequest(old(View()))
    {
      if running {
        pending := true;
        return false;
      }
      running := true;
      return true;
    }

    method SubmitFailed()
      modifies this
      ensures View() == OnSubmitFailed(old(View()))
    {
      running := false;
    }

    method PassDone() returns (again: bool)
      modifies this
      ensures (View(), again) == OnPassDone(old(View()))
    {
      if pending {
        pending := false;
        return true;
      }
      running := false;
      return false;
    }
  }

  // ----------------------------------------------------------------- all threads

  datatype Event = Request | SubmitOk | SubmitRaises | ResetFlag | PassStart | PassEnd

  /**
   How many threads are where: `submitting` callers before their submit returns,
   `failing` ones after it raised, workers `waiting` before a pass and `passing`
   inside one. `uncovered` counts the requests made since the last pass started.
   */
  datatype Sys = Sys(flags: Flags, submitting: nat, failing: nat, waiting: nat, passing: nat,
                     requests: nat, passes: nat, uncovered: nat, lastSubmitOk: bool)

  const INITIAL := Sys(Flags(false, false), 0, 0, 0, 0, 0, 0, 0, true)

  /** One step of one thread; a step that no thread can take changes nothing. */
  function Step(s: Sys, e: Event): Sys {
    match e
    case Request =>
      var (flags, submit) := OnRequest(s.flags);
      s.(flags := flags, submitting := s.submitting + One(submit),
         requests := s.requests + 1, uncovered := s.uncovered + 1)
    case SubmitOk =>
      if s.submitting == 0 then s
      else s.(submitting := s.submitting - 1, waiting := s.waiting + 1, lastSubmitOk := true)
    case SubmitRaises =>
      if s.submitting == 0 then s
      else s.(submitting := s.submitting - 1, failing := s.failing + 1, lastSubmitOk := false)
    case ResetFlag =>
      if s.failing == 0 then s else s.(failing := s.failing - 1, flags := OnSubmitFailed(s.flags))
    case PassStart =>
      if s.waiting == 0 then s
      else s.(waiting := s.waiting - 1, passing := s.passing + 1, passes := s.passes + 1, uncovered := 0)
    case PassEnd =>
      if s.passing == 0 then s
      else
        var (flags, again) := OnPassDone(s.flags);
        s.(flags := flags, passing := s.passing - 1, waiting := s.waiting + One(again))
  }

  /** Any interleaving of the threads, from `s` on. */
  function Run(s: Sys, trace: seq<Event>): Sys
    decreases |trace|
  {
    if trace == [] then s else Run(Step(s, trace[0]), trace[1..])
  }

  function Active(s: Sys): nat {
    s.submitting + s.failing + s.waiting + s.passing
  }

  function One(b: bool): nat {
    if b then 1 else 0
  }

  /** The flag `running` is a token held by exactly one thread; the rest follows from where it is. */
  ghost predicate Inv(s: Sys) {
    && Active(s) == One(s.flags.running)
    && (s.submitting > 0 ==> s.uncovered > 0)
    && (s.failing > 0 ==> s.uncovered > 0 && !s.lastSubmitOk)
    && (s.waiting > 0 ==> s.lastSubmitOk)
    && (s.passing > 0 ==> s.lastSubmitOk && (s.uncovered > 0 ==> s.flags.pending))
    && (!s.flags.running ==> (s.uncovered == 0 <==> s.lastSubmitOk) && (s.lastSubmitOk ==> !s.flags.pending))
    && s.passes + One(s.flags.pending) + s.submitting + s.failing + s.waiting <= s.requests
  }

  lemma StepKeepsInv(s: Sys, e: Event)
    requires Inv(s)
    ensures Inv(Step(s, e))
  {
  }

  lemma {:induction false} InvInEveryRun(s: Sys, trace: seq<Event>)
    requires Inv(s)
    ensures Inv(Run(s, trace))
    decreases |trace|
  {
    if trace != [] {
      StepKeepsInv(s, trace[0]);
      InvInEveryRun(Step(s, trace[0]), trace[1..]);
    }
  }

  /** At most one caller or worker is ever active, and there are no more passes than requests. */
  lemma AtMostOneWorker(trace: seq<Event>)
    ensures var s := Run(INITIAL, trace);
            && s.waiting + s.passing <= Active(s) <= 1 && (Active(s) == 1 <==> s.flags.running)
            && s.passes <= s.requests
  {
    var s := Run(INITIAL, trace);
    assert Inv(s) by { InvInEveryRun(INITIAL, trace); }
    OneHolder(s);
  }

  lemma OneHolder(s: Sys)
    requires Inv(s)
    ensures s.waiting + s.passing <= Active(s) <= 1 && (Active(s) == 1 <==> s.flags.running) && s.passes <= s.requests
  {
  }

  /**
   Whenever nothing is active, the last pass started after the last request exactly
   if the last submit did not raise.
   */
  lemma IdleIsCoveredIff(trace: seq<Event>)
    ensures var s := Run(INITIAL, trace); Active(s) == 0 ==> (s.uncovered == 0 <==> s.lastSubmitOk)
  {
    var s := Run(INITIAL, trace);
    assert Inv(s) by { InvInEveryRun(INITIAL, trace); }
    IdleInv(s);
  }

  lemma IdleInv(s: Sys)
    requires Inv(s)
    ensures Active(s) == 0 ==> (s.uncovered == 0 <==> s.lastSubmitOk)
  {
  }

  lemma {:induction false} LastSubmitStaysOk(s: Sys, trace: seq<Event>)
    requires s.lastSubmitOk && SubmitRaises !in trace
    ensures Run(s, trace).lastSubmitOk
    decreases |trace|
  {
    if trace != [] { LastSubmitStaysOk(Step(s, trace[0]), trace[1..]); }
  }

  /** In particular no request is lost while no submit raises. */
  lemma NoRequestIsLost(trace: seq<Event>)
    requires SubmitRaises !in trace
    ensures var s := Run(INITIAL, trace); Active(s) == 0 ==> s.uncovered == 0
  {
    LastSubmitStaysOk(INITIAL, trace);
    IdleIsCoveredIff(trace);
  }

  /** The condition is needed: the request whose submit raised stays uncovered. */
  lemma FailedSubmitLosesItsRequest(trace: seq<Event>)
    ensures var s := Run(INITIAL, trace);
            var lost := Run(s, [Request, SubmitRaises, ResetFlag]);
            Active(s) == 0 ==> Active(lost) == 0 && lost.uncovered > 0
  {
    var s := Run(INITIAL, trace);
    assert Inv(s) by { InvInEveryRun(INITIAL, trace); }
    RunThree(s, Request, SubmitRaises, ResetFlag);
    if Active(s) == 0 { FailedSubmit(s); }
  }

  lemma FailedSubmit(s: Sys)
    requires Inv(s) && Active(s) == 0
    ensures var lost := Step(Step(Step(s, Request), SubmitRaises), ResetFlag);
            Active(lost) == 0 && lost.uncovered > 0
  {
    var s1 := Step(s, Request);
    assert s1.submitting == 1;
    assert Step(s1, SubmitRaises).failing == 1;
  }

  lemma RunThree(s: Sys, a: Event, b: Event, c: Event)
    ensures Run(s, [a, b, c]) == Step(Step(Step(s, a), b), c)
  {
    assert [a, b, c][1..] == [b, c] && [b, c][1..] == [c] && [c][1..] == [];
    assert Run(Step(s, a), [b, c]) == Run(Step(Step(s, a), b), [c]);
    assert Run(Step(Step(s, a), b), [c]) == Run(Step(Step(Step(s, a), b), c), []);
  }

  /** A submit that did not raise has happened, or is about to. */
  ghost predicate Served(s: Sys) {
    Inv(s) && (s.lastSubmitOk || s.submitting > 0)
  }

  lemma StepKeepsServed(s: Sys, e: Event)
    requires Served(s) && e != SubmitRaises
    ensures Served(Step(s, e))
  {
    StepKeepsInv(s, e);
  }

  lemma {:induction false} RunKeepsServed(s: Sys, more: seq<Event>)
    requires Served(s) && SubmitRaises !in more
    ensures Served(Run(s, more))
    decreases |more|
  {
    if more != [] {
      StepKeepsServed(s, more[0]);
      RunKeepsServed(Step(s, more[0]), more[1..]);
    }
  }

  /** In a quiet state only a request changes anything, and it makes its caller submit. */
  lemma QuietStep(s: Sys, e: Event)
    requires Inv(s) && Active(s) == 0
    ensures if e == Request then Served(Step(s, e)) && Step(s, e).submitting == 1 else Step(s, e) == s
  {
    StepKeepsInv(s, e);
  }

  lemma {:induction false} NextRequestIsServed(s: Sys, more: seq<Event>)
    requires Inv(s) && Active(s) == 0 && SubmitRaises !in more && Request in more
    ensures Served(Run(s, more))
    decreases |more|
  {
    QuietStep(s, more[0]);
    if more[0] == Request {
      RunKeepsServed(Step(s, Request), more[1..]);
    } else {
      assert more == [more[0]] + more[1..];
      NextRequestIsServed(s, more[1..]);
    }
  }

  /**
   After any quiet state, left behind by a refused submit or not, requests are accepted
   again: however the threads interleave from the next request on, as long as no submit
   raises, every request is covered whenever nothing is active.
   */
  lemma LaterRequestsAreAccepted(trace: seq<Event>, more: seq<Event>)
    requires SubmitRaises !in more && Request in more
    ensures var s := Run(INITIAL, trace);
            var later := Run(s, more);
            Active(s) == 0 && Active(later) == 0 ==> later.uncovered == 0
  {
    var s := Run(INITIAL, trace);
    assert Inv(s) by { InvInEveryRun(INITIAL, trace); }
    if Active(s) == 0 {
      NextRequestIsServed(s, more);
      QuietAndServed(Run(s, more));
    }
  }

  lemma QuietAndServed(s: Sys)
    requires Served(s)
    ensures Active(s) == 0 ==> s.uncovered == 0
  {
  }

  /** What a waiting worker does when no new request comes. */
  ghost predicate Drains(s: Sys) {
    var once := Step(Step(s, PassStart), PassEnd);
    var twice := Step(Step(once, PassStart), PassEnd);
    if s.flags.pending then once.waiting == 1 && Active(twice) == 0 && twice.uncovered == 0
    else Active(once) == 0 && once.uncovered == 0
  }

  /** Without new requests a worker stops after at most two more passes, with every request covered. */
  lemma WorkerDrains(trace: seq<Event>)
    requires Run(INITIAL, trace).waiting == 1
    ensures Drains(Run(INITIAL, trace))
  {
    InvInEveryRun(INITIAL, trace);
    WaitingDrains(Run(INITIAL, trace));
  }

  lemma WaitingDrains(s: Sys)
    requires Inv(s) && s.waiting == 1
    ensures Drains(s)
  {
    PassWithoutRequests(s);
    PassWithoutRequests(Step(Step(s, PassStart), PassEnd));
  }

  lemma PassWithoutRequests(s: Sys)
    requires Inv(s)
    ensures var once := Step(Step(s, PassStart), PassEnd);
            && Inv(once)
            && (s.waiting == 1 ==>
                  if s.flags.pending then once.waiting == 1 && !once.flags.pending
                  else Active(once) == 0 && once.uncovered == 0)
  {
    StepKeepsInv(s, PassStart);
    StepKeepsInv(Step(s, PassStart), PassEnd);
  }

  // --------------------------------------------------------- what requests lead to

  /** A request that is submitted leads to one pass, which covers it, and the worker stops. */
  ghost predicate Rebuilds(s: Sys) {
    Step(Step(Step(Step(s, Request), SubmitOk), PassStart), PassEnd)
    == s.(requests := s.requests + 1, passes := s.passes + 1)
  }

  lemma RequestIsRebuilt(trace: seq<Event>)
    ensures var s := Run(INITIAL, trace); Active(s) == 0 && s.lastSubmitOk ==> Rebuilds(s)
  {
    var s := Run(INITIAL, trace);
    assert Inv(s) by { InvInEveryRun(INITIAL, trace); }
    if Active(s) == 0 && s.lastSubmitOk { OneRebuild(s); }
  }

  lemma OneRebuild(s: Sys)
    requires Inv(s) && Active(s) == 0 && s.lastSubmitOk
    ensures Rebuilds(s)
  {
    var s1 := Step(s, Request);
    var s2 := Step(s1, SubmitOk);
    assert s1 == s.(flags := Flags(true, false), submitting := 1, requests := s.requests + 1, uncovered := 1);
    assert s2 == s1.(submitting := 0, waiting := 1, lastSubmitOk := true);
  }

  /** `n` requests in a row. */
  function Requests(n: nat): seq<Event> {
    if n == 0 then [] else [Request] + Requests(n - 1)
  }

  lemma {:induction false} RequestsDuringAPass(s: Sys, n: nat)
    requires s.passing == 1 && s.flags.running
    ensures Run(s, Requests(n))
         == s.(flags := s.flags.(pending := s.flags.pending || n > 0),
               requests := s.requests + n, uncovered := s.uncovered + n)
    decreases n
  {
    if n > 0 {
      assert Requests(n)[1..] == Requests(n - 1);
      RequestsDuringAPass(Step(s, Request), n - 1);
    }
  }

  /** After `n` requests during a pass one more pass covers them all, and the worker stops. */
  ghost predicate ShareOne(s: Sys, n: nat) {
    var end := Step(Step(Step(Run(s, Requests(n)), PassEnd), PassStart), PassEnd);
    && Active(end) == 0 && end.uncovered == 0
    && end.passes == s.passes + 1 && end.requests == s.requests + n
  }

  lemma RequestsDuringAPassShareOne(trace: seq<Event>, n: nat)
    requires n > 0
    ensures var s := Run(INITIAL, trace); s.passing == 1 ==> ShareOne(s, n)
  {
    var s := Run(INITIAL, trace);
    assert Inv(s) by { InvInEveryRun(INITIAL, trace); }
    if s.passing == 1 { PassIsShared(s, n); }
  }

  lemma PassIsShared(s: Sys, n: nat)
    requires Inv(s) && s.passing == 1 && n > 0
    ensures ShareOne(s, n)
  {
    PassIsTheOnlyOne(s);
    RequestsDuringAPass(s, n);
    OneMorePass(Run(s, Requests(n)));
  }

  lemma PassIsTheOnlyOne(s: Sys)
    requires Inv(s) && s.passing == 1
    ensures s.flags.running && s.submitting == s.failing == s.waiting == 0
  {
  }

  lemma OneMorePass(s: Sys)
    requires s.flags == Flags(true, true) && s.passing == 1 && s.submitting == s.failing == s.waiting == 0
    ensures Step(Step(Step(s, PassEnd), PassStart), PassEnd)
         == s.(flags := Flags(false, false), passing := 0, passes := s.passes + 1, uncovered := 0)
  {
    assert Step(s, PassEnd) == s.(flags := Flags(true, false), passing := 0, waiting := 1);
  }
}
