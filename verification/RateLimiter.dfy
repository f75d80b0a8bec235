/**
 `FixedWindowRateLimiter` (ipaper/auth.py): a pruned deque of allowed events per bucket
 and identity, against a reference limiter that keeps the whole history. The clock is
 monotonic; each bucket is used with one limit and one window (`_sensitive_rate_policy`
 of app.py returns constants).
 */
module RateLimiter {
  import opened Common

  datatype Key = Key(bucket: string, identity: string)

  datatype Outcome = Allowed | Denied(retryAfter: int)

  /** The popping loop at the left end of the deque. */
  function Prune(q: seq<real>, cutoff: real): seq<real> {
    if q != [] && q[0] <= cutoff then Prune(q[1..], cutoff) else q
  }

  function Ceil(x: real): int { -((-x).Floor) }

  /** One call for a key whose deque is `q`. */
  function Decide(q: seq<real>, limit: int, window: int, now: real): (seq<real>, Outcome)
    requires limit > 0
  {
    var kept := Prune(q, now - window as real);
    if |kept| >= limit then (kept, Denied(Max(1, Ceil(kept[0] + window as real - now))))
    else (kept + [now], Allowed)
  }

  class Limiter {
    var events: map<Key, seq<real>>

    function Queue(key: Key): seq<real> reads this {
      if key in events then events[key] else []
    }

    constructor ()
      ensures forall key :: Queue(key) == []
    {
      events := map[];
    }

    method Check(key: Key, limit: int, window: int, now: real) returns (r: Outcome)
      requires limit > 0
      modifies this
      ensures (Queue(key), r) == Decide(old(Queue(key)), limit, window, now)
      ensures forall other :: other != key ==> Queue(other) == old(Queue(other))
    {
      var cutoff := now - window as real;
      var queue := Queue(key);
      while queue != [] && queue[0] <= cutoff
        invariant Prune(queue, cutoff) == Prune(old(Queue(key)), cutoff)
        decreases |queue|
      {
        queue := queue[1..];
      }
      if |queue| >= limit {
        events := events[key := queue];
        return Denied(Max(1, Ceil(queue[0] + window as real - now)));
      }
      events := events[key := queue + [now]];
      return Allowed;
    }

    method Clear()
      modifies this
      ensures forall key :: Queue(key) == []
    {
      events := map[];
    }
  }

  // --------------------------------------------------------------- the reference

  /** Events of `h` in the window that ends now. */
  function Recent(h: seq<real>, cutoff: real): nat {
    if h == [] then 0 else Recent(h[1..], cutoff) + if h[0] > cutoff then 1 else 0
  }

  /** The reference limiter: it counts in the full history of allowed events. */
  function Reference(h: seq<real>, limit: int, window: int, now: real): (seq<real>, bool) {
    if Recent(h, now - window as real) < limit then (h + [now], true) else (h, false)
  }

  /** Events in order, none after `now`. */
  ghost predicate Chain(h: seq<real>, now: real) {
    h == [] || (h[0] <= now && (|h| > 1 ==> h[0] <= h[1]) && Chain(h[1..], now))
  }

  lemma {:induction false} ChainLater(h: seq<real>, now: real, later: real)
    requires Chain(h, now) && now <= later
    ensures Chain(h, later)
  {
    if h != [] { ChainLater(h[1..], now, later); }
  }

  lemma {:induction false} ChainAppend(h: seq<real>, now: real)
    requires Chain(h, now)
    ensures Chain(h + [now], now)
  {
    if h == [] {
      assert [now][1..] == [];
    } else {
      ChainAppend(h[1..], now);
      assert (h + [now])[1..] == h[1..] + [now];
    }
  }

  lemma {:induction false} PruneTwice(h: seq<real>, cutoff: real, later: real)
    requires cutoff <= later
    ensures Prune(Prune(h, cutoff), later) == Prune(h, later)
  {
    if h != [] && h[0] <= cutoff { PruneTwice(h[1..], cutoff, later); }
  }

  lemma {:induction false} PruneAppend(h: seq<real>, x: real, cutoff: real)
    requires x > cutoff
    ensures Prune(h + [x], cutoff) == Prune(h, cutoff) + [x]
  {
    if h != [] && h[0] <= cutoff {
      assert (h + [x])[1..] == h[1..] + [x];
      PruneAppend(h[1..], x, cutoff);
    }
  }

  lemma {:induction false} PruneFacts(h: seq<real>, cutoff: real, now: real)
    requires Chain(h, now)
    ensures var kept := Prune(h, cutoff);
            Chain(kept, now) && |kept| <= |h| && (kept != [] ==> cutoff < kept[0] <= now)
  {
    if h != [] && h[0] <= cutoff { PruneFacts(h[1..], cutoff, now); }
  }

  lemma {:induction false} AllRecent(h: seq<real>, cutoff: real, now: real)
    requires Chain(h, now) && (h != [] ==> h[0] > cutoff)
    ensures Recent(h, cutoff) == |h|
  {
    if h != [] { AllRecent(h[1..], cutoff, now); }
  }

  /** Of an ordered history, pruning leaves as many events as there are in the window. */
  lemma {:induction false} RecentIsPruned(h: seq<real>, cutoff: real, now: real)
    requires Chain(h, now)
    ensures Recent(h, cutoff) == |Prune(h, cutoff)|
  {
    if h != [] && h[0] <= cutoff {
      RecentIsPruned(h[1..], cutoff, now);
    } else {
      AllRecent(h, cutoff, now);
    }
  }

  /** The deque is the history after dropping what had left the window at time `now`. */
  ghost predicate Refines(q: seq<real>, h: seq<real>, window: int, now: real) {
    Chain(h, now) && q == Prune(h, now - window as real)
  }

  /** One call on the deque gives the answer of the reference, and stays a refinement of it. */
  lemma CheckRefinesReference(q: seq<real>, h: seq<real>, limit: int, window: int, before: real, now: real)
    requires limit > 0 && window > 0 && before <= now && Refines(q, h, window, before)
    ensures var (q', r) := Decide(q, limit, window, now);
            var (h', allowed) := Reference(h, limit, window, now);
            (r == Allowed <==> allowed) && Refines(q', h', window, now)
  {
    var cutoff := now - window as real;
    PruneTwice(h, before - window as real, cutoff);
    ChainLater(h, before, now);
    RecentIsPruned(h, cutoff, now);
    PruneAppend(h, now, cutoff);
    ChainAppend(h, now);
  }

  /** The answers of the deque for a series of calls. */
  function Answers(q: seq<real>, limit: int, window: int, calls: seq<real>): seq<bool>
    requires limit > 0
    decreases |calls|
  {
    if calls == [] then []
    else [Decide(q, limit, window, calls[0]).1 == Allowed]
         + Answers(Decide(q, limit, window, calls[0]).0, limit, window, calls[1..])
  }

  function ReferenceAnswers(h: seq<real>, limit: int, window: int, calls: seq<real>): seq<bool>
    decreases |calls|
  {
    if calls == [] then []
    else [Reference(h, limit, window, calls[0]).1]
         + ReferenceAnswers(Reference(h, limit, window, calls[0]).0, limit, window, calls[1..])
  }

  /** The clock does not go back. */
  predicate Clocked(calls: seq<real>, from: real)
    decreases |calls|
  {
    calls == [] || (from <= calls[0] && Clocked(calls[1..], calls[0]))
  }

  /** Over every series of calls the pruned deque and the full history answer alike. */
  lemma {:induction false} DequeAnswersLikeHistory(q: seq<real>, h: seq<real>, limit: int, window: int,
                                                   before: real, calls: seq<real>)
    requires limit > 0 && window > 0 && Refines(q, h, window, before) && Clocked(calls, before)
    ensures Answers(q, limit, window, calls) == ReferenceAnswers(h, limit, window, calls)
    decreases |calls|
  {
    if calls != [] {
      var now := calls[0];
      CheckRefinesReference(q, h, limit, window, before, now);
      DequeAnswersLikeHistory(Decide(q, limit, window, now).0, Reference(h, limit, window, now).0,
                              limit, window, now, calls[1..]);
    }
  }

  // --------------------------------------------------------------- the limit

  /** The calls that were allowed. */
  function Granted(calls: seq<real>, answers: seq<bool>): seq<real>
    requires |calls| == |answers|
  {
    if calls == [] then []
    else (if answers[0] then [calls[0]] else []) + Granted(calls[1..], answers[1..])
  }

  /** No `limit + 1` events within one window. */
  ghost predicate Spaced(h: seq<real>, limit: int, window: int)
    requires limit > 0
  {
    forall i :: 0 <= i < |h| - limit ==> h[i] + window as real <= h[i + limit]
  }

  lemma {:induction false} ChainAt(h: seq<real>, now: real, i: nat)
    requires Chain(h, now) && i < |h|
    ensures h[0] <= h[i] <= now
  {
    if i > 0 { ChainAt(h[1..], now, i - 1); }
  }

  /** From a recent event on all are recent. */
  lemma {:induction false} RecentFrom(h: seq<real>, cutoff: real, now: real, i: nat)
    requires Chain(h, now) && i < |h| && h[i] > cutoff
    ensures Recent(h, cutoff) >= |h| - i
  {
    if i > 0 {
      RecentFrom(h[1..], cutoff, now, i - 1);
    } else {
      AllRecent(h, cutoff, now);
    }
  }

  lemma StepKeepsSpaced(h: seq<real>, limit: int, window: int, now: real)
    requires limit > 0 && Chain(h, now) && Spaced(h, limit, window)
    ensures Spaced(Reference(h, limit, window, now).0, limit, window)
  {
    var cutoff := now - window as real;
    if Recent(h, cutoff) < limit && |h| >= limit && h[|h| - limit] > cutoff {
      RecentFrom(h, cutoff, now, |h| - limit);
    }
  }

  lemma {:induction false} AllowedCallsAreSpaced(q: seq<real>, h: seq<real>, limit: int, window: int,
                                                 before: real, calls: seq<real>)
    requires limit > 0 && window > 0 && Refines(q, h, window, before) && Clocked(calls, before)
    requires Spaced(h, limit, window)
    ensures |Answers(q, limit, window, calls)| == |calls|
    ensures Spaced(h + Granted(calls, Answers(q, limit, window, calls)), limit, window)
    ensures Refines(After(q, limit, window, calls), h + Granted(calls, Answers(q, limit, window, calls)),
                    window, LastCall(calls, before))
    decreases |calls|
  {
    if calls == [] {
      assert h + [] == h;
    } else {
      var now := calls[0];
      CheckRefinesReference(q, h, limit, window, before, now);
      ChainLater(h, before, now);
      StepKeepsSpaced(h, limit, window, now);
      var q', h' := Decide(q, limit, window, now).0, Reference(h, limit, window, now).0;
      AllowedCallsAreSpaced(q', h', limit, window, now, calls[1..]);
      GrantNext(h, h', calls, Decide(q, limit, window, now).1 == Allowed, Answers(q', limit, window, calls[1..]));
    }
  }

  lemma GrantFirst(calls: seq<real>, ok: bool, answers: seq<bool>)
    requires calls != [] && |calls| == |answers| + 1
    ensures Granted(calls, [ok] + answers) == (if ok then [calls[0]] else []) + Granted(calls[1..], answers)
  {
    assert ([ok] + answers)[1..] == answers;
  }

  lemma Regroup<T>(a: seq<T>, b: seq<T>, c: seq<T>)
    ensures a + (b + c) == (a + b) + c
  {
  }

  lemma GrantNext(h: seq<real>, h': seq<real>, calls: seq<real>, ok: bool, answers: seq<bool>)
    requires calls != [] && |calls| == |answers| + 1
    requires h' == if ok then h + [calls[0]] else h
    ensures h + Granted(calls, [ok] + answers) == h' + Granted(calls[1..], answers)
  {
    GrantFirst(calls, ok, answers);
    Regroup(h, if ok then [calls[0]] else [], Granted(calls[1..], answers));
    assert !ok ==> h + [] == h;
  }

  /**
   Over every series of calls: of the allowed ones no more than `limit` lie within one window,
   and the deque is left with exactly those of them that are in the window of the last call.
   */
  lemma RateIsLimited(limit: int, window: int, from: real, calls: seq<real>)
    requires limit > 0 && window > 0 && Clocked(calls, from)
    ensures |Answers([], limit, window, calls)| == |calls|
    ensures var granted := Granted(calls, Answers([], limit, window, calls));
            && (forall i :: 0 <= i < |granted| - limit ==> granted[i] + window as real <= granted[i + limit])
            && After([], limit, window, calls) == Prune(granted, LastCall(calls, from) - window as real)
  {
    AllowedCallsAreSpaced([], [], limit, window, from, calls);
    var granted := Granted(calls, Answers([], limit, window, calls));
    assert [] + granted == granted;
    assert Spaced(granted, limit, window);
  }

  // --------------------------------------------------------------- retry_after

  /** A deque as the limiter leaves it: in order, and never more than `limit` events. */
  ghost predicate Kept(q: seq<real>, limit: int, now: real) {
    Chain(q, now) && |q| <= limit
  }

  lemma CheckKeeps(q: seq<real>, limit: int, window: int, before: real, now: real)
    requires limit > 0 && window > 0 && before <= now && Kept(q, limit, before)
    ensures Kept(Decide(q, limit, window, now).0, limit, now)
  {
    ChainLater(q, before, now);
    PruneFacts(q, now - window as real, now);
    ChainAppend(Prune(q, now - window as real), now);
  }

  /** The deque of a key after a series of calls. */
  function After(q: seq<real>, limit: int, window: int, calls: seq<real>): seq<real>
    requires limit > 0
    decreases |calls|
  {
    if calls == [] then q else After(Decide(q, limit, window, calls[0]).0, limit, window, calls[1..])
  }

  /** The time of the last call of a series, or `from` before any. */
  function LastCall(calls: seq<real>, from: real): real {
    if calls == [] then from else calls[|calls| - 1]
  }

  /** Every series of calls leaves the deque in order and within the limit. */
  lemma {:induction false} DequeIsKept(q: seq<real>, limit: int, window: int, before: real, calls: seq<real>)
    requires limit > 0 && window > 0 && Kept(q, limit, before) && Clocked(calls, before)
    ensures Kept(After(q, limit, window, calls), limit, LastCall(calls, before)) && before <= LastCall(calls, before)
    decreases |calls|
  {
    if calls != [] {
      CheckKeeps(q, limit, window, before, calls[0]);
      DequeIsKept(Decide(q, limit, window, calls[0]).0, limit, window, calls[0], calls[1..]);
    }
  }

  lemma KeptAllowedAgainIff(q: seq<real>, limit: int, window: int, before: real, now: real, later: real)
    requires limit > 0 && window > 0 && before <= now <= later && Kept(q, limit, before)
    requires Decide(q, limit, window, now).1.Denied?
    ensures var kept := Decide(q, limit, window, now).0;
            Decide(kept, limit, window, later).1 == Allowed <==> kept[0] + window as real <= later
  {
    ChainLater(q, before, now);
    PruneFacts(q, now - window as real, now);
    var kept := Decide(q, limit, window, now).0;
    PruneFacts(kept[1..], later - window as real, now);
  }

  lemma KeptRetryAfter(q: seq<real>, limit: int, window: int, before: real, now: real, wait: nat)
    requires limit > 0 && window > 0 && before <= now && Kept(q, limit, before)
    requires Decide(q, limit, window, now).1.Denied?
    ensures var (kept, r) := Decide(q, limit, window, now);
            && 1 <= r.retryAfter <= window
            && (Decide(kept, limit, window, now + wait as real).1 == Allowed <==> wait >= r.retryAfter)
  {
    ChainLater(q, before, now);
    PruneFacts(q, now - window as real, now);
    KeptAllowedAgainIff(q, limit, window, before, now, now + wait as real);
    var kept := Decide(q, limit, window, now).0;
    CeilFacts(kept[0] + window as real - now);
  }

  lemma CeilFacts(x: real)
    ensures (Ceil(x) - 1) as real < x <= Ceil(x) as real
  {
  }

  /**
   After every series of calls: left untouched, a denied key is allowed again exactly
   when its oldest event has left the window.
   */
  lemma AllowedAgainIff(limit: int, window: int, from: real, calls: seq<real>, now: real, later: real)
    requires limit > 0 && window > 0 && Clocked(calls, from) && LastCall(calls, from) <= now <= later
    ensures var (kept, r) := Decide(After([], limit, window, calls), limit, window, now);
            r.Denied? ==> (Decide(kept, limit, window, later).1 == Allowed <==> kept[0] + window as real <= later)
  {
    DequeIsKept([], limit, window, from, calls);
    var q := After([], limit, window, calls);
    if Decide(q, limit, window, now).1.Denied? {
      KeptAllowedAgainIff(q, limit, window, LastCall(calls, from), now, later);
    }
  }

  /**
   After every series of calls: `retry_after` lies in 1..window and is the least whole
   number of seconds after which an untouched key is allowed again.
   */
  lemma RetryAfterIsLeast(limit: int, window: int, from: real, calls: seq<real>, now: real, wait: nat)
    requires limit > 0 && window > 0 && Clocked(calls, from) && LastCall(calls, from) <= now
    ensures var (kept, r) := Decide(After([], limit, window, calls), limit, window, now);
            r.Denied? ==>
              && 1 <= r.retryAfter <= window
              && (Decide(kept, limit, window, now + wait as real).1 == Allowed <==> wait >= r.retryAfter)
  {
    DequeIsKept([], limit, window, from, calls);
    var q := After([], limit, window, calls);
    if Decide(q, limit, window, now).1.Denied? {
      KeptRetryAfter(q, limit, window, LastCall(calls, from), now, wait);
    }
  }
}
