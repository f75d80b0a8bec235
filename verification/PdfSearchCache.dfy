/**
 The page text cache of `PdfSearch.items` (frontend/src/pdfSearch.ts): least recently
 used order, at most 16 pages and 8 MiB, filled by asynchronous loads. Each stretch of
 code between awaits is one step.
 */
module PdfSearchCache {
  import opened Common
  import opened OrderedMap
  import opened ReadingSearch

  const LIMIT := 8 * 1024 * 1024
  const PAGES := 16

  type Items = seq<TextItem>

  function ItemCost(i: TextItem): nat { |i.str| * 26 + 64 }

  function Cost(items: Items): nat {
    if items == [] then 0 else Cost(items[..|items| - 1]) + ItemCost(items[|items| - 1])
  }

  /** `used`, the time of the last use, is a history field. */
  datatype Cached = Cached(items: Items, used: nat)

  function CachedCost(e: Cached): nat { Cost(e.items) }

  type Cache = Map<nat, Cached>

  /**
   The eviction loop before a page of `cost` is stored: what is left, the counter, and
   whether the loop came to an end; reading the first pair of an empty map is a type error.
   */
  function Evict(c: Cache, bytes: int, cost: nat): (Cache, int, bool) {
    if |c| >= PAGES || bytes + cost > LIMIT then
      if c == [] then (c, bytes, false) else Evict(c[1..], bytes - CachedCost(c[0].value), cost)
    else (c, bytes, true)
  }

  datatype Held = Held(cache: Cache, bytes: int)

  /** A hit moves the page to the end. */
  function OnHit(h: Held, page: nat, now: nat): Held {
    match Find(h.cache, page)
    case None => h
    case Some(e) => h.(cache := Refresh(h.cache, page, e.(used := now)))
  }

  /** The end of a load; after the type error the evicted pages are gone all the same. */
  function OnStore(h: Held, page: nat, items: Items, now: nat): (Held, bool) {
    var (c, b, ok) := Evict(h.cache, h.bytes, Cost(items));
    if ok then (Held(Put(c, page, Cached(items, now)), b + Cost(items)), true) else (Held(c, b), false)
  }

  function Concat(chunks: seq<Items>): Items {
    if chunks == [] then [] else Concat(chunks[..|chunks| - 1]) + chunks[|chunks| - 1]
  }

  lemma ConcatNext(chunks: seq<Items>, k: nat)
    requires k < |chunks|
    ensures Concat(chunks[..k + 1]) == Concat(chunks[..k]) + chunks[k]
  {
    assert chunks[..k + 1][..k] == chunks[..k];
  }

  /** The items of `k` chunks and `n` more. */
  ghost function Got(chunks: seq<Items>, k: nat, n: nat): Items
    requires k < |chunks| && n <= |chunks[k]|
  {
    Concat(chunks[..k]) + chunks[k][..n]
  }

  lemma GotChunk(chunks: seq<Items>, k: nat)
    requires k < |chunks|
    ensures Got(chunks, k, 0) == Concat(chunks[..k]) && Got(chunks, k, |chunks[k]|) == Concat(chunks[..k + 1])
  {
    ConcatNext(chunks, k);
    assert chunks[k][..|chunks[k]|] == chunks[k];
  }

  /** One more item of a chunk. */
  lemma GotNext(chunks: seq<Items>, k: nat, n: nat)
    requires k < |chunks| && n < |chunks[k]|
    ensures Got(chunks, k, n + 1) == Got(chunks, k, n) + [chunks[k][n]]
    ensures Cost(Got(chunks, k, n + 1)) == Cost(Got(chunks, k, n)) + ItemCost(chunks[k][n])
  {
    var items := Got(chunks, k, n);
    assert chunks[k][..n + 1] == chunks[k][..n] + [chunks[k][n]];
    assert Got(chunks, k, n + 1) == items + [chunks[k][n]];
    assert (items + [chunks[k][n]])[..|items|] == items;
  }

  lemma {:induction false} CostAppend(a: Items, b: Items)
    ensures Cost(a + b) == Cost(a) + Cost(b)
    decreases |b|
  {
    if b == [] {
      assert a + b == a;
    } else {
      assert (a + b)[..|a + b| - 1] == a + b[..|b| - 1];
      CostAppend(a, b[..|b| - 1]);
    }
  }

  datatype Start = Aborted | Hit(items: Items) | Miss

  /** The fields `cache`, `bytes` and `dead`. */
  class PageCache {
    var cache: Cache
    var bytes: int
    var dead: bool

    function View(): Held reads this { Held(cache, bytes) }

    constructor ()
      ensures View() == Held([], 0) && !dead
    {
      cache, bytes, dead := [], 0, false;
    }

    /** The synchronous start of `items`: a destroyed search aborts, a hit is moved to the end and returned. */
    method Lookup(page: nat, now: nat) returns (r: Start)
      modifies this
      ensures dead == old(dead) && View() == if dead then old(View()) else OnHit(old(View()), page, now)
      ensures r == if dead then Aborted
                   else if Find(old(cache), page).Some? then Hit(Find(old(cache), page).value.items) else Miss
    {
      if dead { return Aborted; }
      var hit := Find(cache, page);
      if hit.None? { return Miss; }
      cache := Delete(cache, page);
      cache := Put(cache, page, hit.value.(used := now));
      return Hit(hit.value.items);
    }

    /** The read loop: all items of the stream, or nothing when they cost too much. */
    method ReadPage(chunks: seq<Items>) returns (r: Option<Items>, cost: nat)
      ensures r == if Cost(Concat(chunks)) <= LIMIT then Some(Concat(chunks)) else None
      ensures r.Some? ==> cost == Cost(r.value)
    {
      var items: Items := [];
      cost := 0;
      assert chunks[..|chunks|] == chunks;
      for k := 0 to |chunks|
        invariant items == Concat(chunks[..k]) && cost == Cost(items) <= LIMIT
      {
        GotChunk(chunks, k);
        var chunk := chunks[k];
        for n := 0 to |chunk|
          invariant items == Got(chunks, k, n) && cost == Cost(items) <= LIMIT
        {
          GotNext(chunks, k, n);
          cost := cost + ItemCost(chunk[n]);
          if cost > LIMIT {
            TooMuch(chunks, k, n + 1);
            return None, cost;
          }
          items := items + [chunk[n]];
        }
      }
      return Some(items), cost;
    }

    /** After the load: evict, store, count. False is the type error. */
    method Store(page: nat, items: Items, cost: nat, now: nat) returns (ok: bool)
      requires cost == Cost(items)
      modifies this
      ensures dead == old(dead) && (View(), ok) == OnStore(old(View()), page, items, now)
    {
      while |cache| >= PAGES || bytes + cost > LIMIT
        invariant Evict(cache, bytes, cost) == Evict(old(cache), old(bytes), cost)
        invariant dead == old(dead)
        decreases |cache|
      {
        if cache == [] { return false; }
        var first := cache[0].value;
        cache := cache[1..];
        bytes := bytes - Cost(first.items);
      }
      cache := Put(cache, page, Cached(items, now));
      bytes := bytes + cost;
      return true;
    }

    method Destroy()
      modifies this
      ensures dead && View() == Held([], 0)
    {
      dead := true;
      cache := [];
      bytes := 0;
    }
  }

  lemma {:induction false} ConcatPrefix(chunks: seq<Items>, k: nat)
    requires k <= |chunks|
    ensures Cost(Concat(chunks[..k])) <= Cost(Concat(chunks))
    decreases |chunks| - k
  {
    if k == |chunks| {
      assert chunks[..k] == chunks;
    } else {
      ConcatPrefix(chunks, k + 1);
      ConcatNext(chunks, k);
      CostAppend(Concat(chunks[..k]), chunks[k]);
    }
  }

  /** A prefix that already costs too much decides for the whole stream. */
  lemma TooMuch(chunks: seq<Items>, k: nat, n: nat)
    requires k < |chunks| && n <= |chunks[k]|
    requires Cost(Got(chunks, k, n)) > LIMIT
    ensures Cost(Concat(chunks)) > LIMIT
  {
    var before, chunk := Concat(chunks[..k]), chunks[k];
    assert before + chunk == (before + chunk[..n]) + chunk[n..];
    CostAppend(before + chunk[..n], chunk[n..]);
    ConcatNext(chunks, k);
    ConcatPrefix(chunks, k + 1);
  }

  // ------------------------------------------------------------ counter and drift

  /** By how much the counter exceeds what is cached. */
  function Drift(h: Held): int {
    h.bytes - Sum(CachedCost, h.cache)
  }

  /** With the pages from `j` on, the loop has to go on. */
  ghost predicate MustGo(c: Cache, cost: nat, j: nat)
    requires j <= |c|
  {
    |c[j..]| >= PAGES || Sum(CachedCost, c[j..]) + cost > LIMIT
  }

  lemma {:induction false} EvictFrom(c: Cache, cost: nat, i: nat) returns (k: nat)
    requires i <= |c| && cost <= LIMIT
    ensures i <= k <= |c| && Evict(c[i..], Sum(CachedCost, c[i..]), cost) == (c[k..], Sum(CachedCost, c[k..]), true)
    ensures !MustGo(c, cost, k) && forall j :: i <= j < k ==> MustGo(c, cost, j)
    decreases |c| - i
  {
    if MustGo(c, cost, i) {
      assert c[i..][1..] == c[i + 1..];
      k := EvictFrom(c, cost, i + 1);
    } else {
      k := i;
    }
  }

  /** With an exact counter the loop never fails, keeps a suffix in bounds and drops no more than it must. */
  lemma EvictDropsOldest(c: Cache, bytes: int, cost: nat) returns (k: nat)
    requires bytes == Sum(CachedCost, c) && cost <= LIMIT
    ensures k <= |c| && Evict(c, bytes, cost) == (c[k..], Sum(CachedCost, c[k..]), true)
    ensures !MustGo(c, cost, k) && forall j :: 0 <= j < k ==> MustGo(c, cost, j)
  {
    assert c[0..] == c;
    k := EvictFrom(c, cost, 0);
  }

  /** Whatever the counter says, the loop keeps a suffix and the drift, and ends in bounds or with nothing left. */
  lemma {:induction false} EvictKeepsDrift(c: Cache, bytes: int, cost: nat) returns (k: nat)
    ensures var (kept, b, ok) := Evict(c, bytes, cost);
            && k <= |c| && kept == c[k..] && Drift(Held(kept, b)) == Drift(Held(c, bytes))
            && (if ok then |kept| < PAGES && b + cost <= LIMIT else kept == [])
  {
    assert c[0..] == c;
    k := 0;
    if (|c| >= PAGES || bytes + cost > LIMIT) && c != [] {
      k := EvictKeepsDrift(c[1..], bytes - CachedCost(c[0].value), cost);
      assert c[1..][k..] == c[k + 1..];
      k := k + 1;
    }
  }

  /** The type error occurs exactly when the drift leaves no room for the page. */
  lemma {:induction false} EvictFailsIff(c: Cache, bytes: int, cost: nat)
    ensures !Evict(c, bytes, cost).2 <==> Drift(Held(c, bytes)) + cost > LIMIT
  {
    if (|c| >= PAGES || bytes + cost > LIMIT) && c != [] {
      EvictFailsIff(c[1..], bytes - CachedCost(c[0].value), cost);
    }
  }

  /** A store adds to the drift what the page had already been counted for. */
  lemma StoreDrift(h: Held, page: nat, items: Items, now: nat)
    ensures var (after, ok) := OnStore(h, page, items, now);
            var kept := Evict(h.cache, h.bytes, Cost(items)).0;
            Drift(after) == Drift(h) + if ok && Find(kept, page).Some? then Cost(Find(kept, page).value.items) else 0
  {
    var k := EvictKeepsDrift(h.cache, h.bytes, Cost(items));
    SumPut(CachedCost, Evict(h.cache, h.bytes, Cost(items)).0, page, Cached(items, now));
  }

  lemma HitDrift(h: Held, page: nat, now: nat)
    requires Distinct(h.cache)
    ensures Drift(OnHit(h, page, now)) == Drift(h)
  {
    FindFacts(h.cache, page);
    if Has(h.cache, page) {
      var k := FindAt(h.cache, page);
      var rest, e := Without(h.cache, k), h.cache[k].value.(used := now);
      WithoutFacts(h.cache, k);
      SumWithout(CachedCost, h.cache, k);
      PutFresh(rest, page, e);
      SumAppend(CachedCost, rest, page, e);
    }
  }

  /** One load that ends: an exact counter stays exact exactly if the page is no longer cached or has no items. */
  lemma StoreIsExactIff(h: Held, page: nat, items: Items, now: nat)
    requires Drift(h) == 0 && Distinct(h.cache) && Cost(items) <= LIMIT
    requires forall k :: 0 <= k < |h.cache| && h.cache[k].key == page ==> h.cache[k].value.items == items
    ensures OnStore(h, page, items, now).1
    ensures var kept := Evict(h.cache, h.bytes, Cost(items)).0;
            Drift(OnStore(h, page, items, now).0) == 0 <==> !Has(kept, page) || items == []
  {
    EvictFailsIff(h.cache, h.bytes, Cost(items));
    StoreDrift(h, page, items, now);
    var k := EvictKeepsDrift(h.cache, h.bytes, Cost(items));
    var kept := h.cache[k..];
    SuffixFacts(h.cache, k);
    FindFacts(kept, page);
    if Has(kept, page) {
      var j := FindAt(kept, page);
      assert h.cache[k + j] == kept[j];
      CostPositive(items);
    }
  }

  lemma CostPositive(items: Items)
    ensures Cost(items) == 0 <==> items == []
  {
  }

  // --------------------------------------------------------- loads and requests

  /** A returned page text. */
  datatype Reply = Reply(page: nat, items: Items)

  /** `loads` are the pages being loaded, oldest first; `failed` says that the type error occurred. */
  datatype Sys = Sys(held: Held, dead: bool, loads: seq<nat>, replies: seq<Reply>, failed: bool, now: nat)

  const INITIAL := Sys(Held([], 0), false, [], [], false, 0)

  datatype Event = Request(page: nat) | LoadFails(k: nat) | LoadEnds(k: nat) | Destroy

  function RemoveLoad(loads: seq<nat>, k: nat): seq<nat>
    requires k < |loads|
  {
    loads[..k] + loads[k + 1..]
  }

  /** `text` gives the items of each page of the document. */
  function Step(s: Sys, text: nat -> Items, e: Event): Sys {
    match e
    case Request(page) =>
      if s.dead then s
      else if Find(s.held.cache, page).Some? then
        s.(held := OnHit(s.held, page, s.now), now := s.now + 1,
           replies := s.replies + [Reply(page, Find(s.held.cache, page).value.items)])
      else s.(loads := s.loads + [page])
    case LoadFails(k) => if k < |s.loads| then s.(loads := RemoveLoad(s.loads, k)) else s
    case LoadEnds(k) =>
      if k >= |s.loads| || Cost(text(s.loads[k])) > LIMIT then s
      else
        var page := s.loads[k];
        var (held, ok) := OnStore(s.held, page, text(page), s.now);
        s.(held := held, loads := RemoveLoad(s.loads, k), failed := s.failed || !ok, now := s.now + 1,
           replies := if ok then s.replies + [Reply(page, text(page))] else s.replies)
    case Destroy => s.(held := Held([], 0), dead := true)
  }

  function Run(s: Sys, text: nat -> Items, es: seq<Event>): Sys
    decreases |es|
  {
    if es == [] then s else Run(Step(s, text, es[0]), text, es[1..])
  }

  // ------------------------------------------------------------------ every run

  /** The cached pages all hold the text of the document. */
  ghost predicate Texts(c: Cache, text: nat -> Items) {
    forall k :: 0 <= k < |c| ==> c[k].value.items == text(c[k].key)
  }

  /** Holds with and without overlapping loads: the counter is never too small. */
  ghost predicate Bounded(h: Held, text: nat -> Items) {
    Distinct(h.cache) && Texts(h.cache, text) && Drift(h) >= 0 && h.bytes <= LIMIT && |h.cache| <= PAGES
  }

  ghost predicate RepliesRight(s: Sys, text: nat -> Items) {
    forall k :: 0 <= k < |s.replies| ==> s.replies[k].items == text(s.replies[k].page)
  }

  lemma HitKeepsBounded(h: Held, text: nat -> Items, page: nat, now: nat)
    requires Bounded(h, text)
    ensures Bounded(OnHit(h, page, now), text)
    ensures Find(h.cache, page).Some? ==> Find(h.cache, page).value.items == text(page)
  {
    HitDrift(h, page, now);
    FindFacts(h.cache, page);
    if Has(h.cache, page) {
      var k := FindAt(h.cache, page);
      var rest, e := Without(h.cache, k), h.cache[k].value.(used := now);
      WithoutFacts(h.cache, k);
      PutFresh(rest, page, e);
      AppendFacts(rest, page, e);
    }
  }

  /** Storing the text of a page that may be cached already. */
  lemma {:induction false} PutKeepsTexts(c: Cache, text: nat -> Items, page: nat, now: nat)
    requires Distinct(c) && Texts(c, text)
    ensures var d := Put(c, page, Cached(text(page), now));
            && Texts(d, text) && Distinct(d) && |d| == |c| + (if Has(c, page) then 0 else 1)
            && forall other :: Has(d, other) ==> other == page || Has(c, other)
  {
    FindFacts(c, page);
    if Has(c, page) {
      var k := FindAt(c, page);
      PutInPlace(c, page, Cached(text(page), now), k);
      UpdateFacts(c, k, Cached(text(page), now));
    } else {
      PutFresh(c, page, Cached(text(page), now));
      AppendFacts(c, page, Cached(text(page), now));
    }
  }

  lemma StoreKeepsBounded(h: Held, text: nat -> Items, page: nat, now: nat)
    requires Bounded(h, text)
    ensures Bounded(OnStore(h, page, text(page), now).0, text)
    ensures Drift(OnStore(h, page, text(page), now).0) >= Drift(h)
  {
    var k := EvictKeepsDrift(h.cache, h.bytes, Cost(text(page)));
    StoreDrift(h, page, text(page), now);
    SuffixFacts(h.cache, k);
    assert Texts(h.cache[k..], text);
    PutKeepsTexts(h.cache[k..], text, page, now);
  }

  lemma StepKeepsBounded(s: Sys, text: nat -> Items, e: Event)
    requires Bounded(s.held, text) && RepliesRight(s, text)
    ensures Bounded(Step(s, text, e).held, text) && RepliesRight(Step(s, text, e), text)
    ensures e != Destroy ==> Drift(Step(s, text, e).held) >= Drift(s.held)
  {
    match e
    case Request(page) =>
      HitKeepsBounded(s.held, text, page, s.now);
      HitDrift(s.held, page, s.now);
    case LoadEnds(k) =>
      if k < |s.loads| { StoreKeepsBounded(s.held, text, s.loads[k], s.now); }
    case _ =>
  }

  /**
   In every run, with overlapping loads too: every reply is the text of its page, what is
   cached fits 16 pages and 8 MiB, and the counter never drifts back while the search lives.
   */
  lemma {:induction false} BoundedInEveryRun(s: Sys, text: nat -> Items, es: seq<Event>)
    requires Bounded(s.held, text) && RepliesRight(s, text)
    ensures Bounded(Run(s, text, es).held, text) && RepliesRight(Run(s, text, es), text)
    ensures Destroy !in es ==> Drift(Run(s, text, es).held) >= Drift(s.held)
    decreases |es|
  {
    if es != [] {
      StepKeepsBounded(s, text, es[0]);
      BoundedInEveryRun(Step(s, text, es[0]), text, es[1..]);
    }
  }

  /**
   So once the drift leaves no room for a page, no load of it can ever be stored again
   before the search is destroyed.
   */
  lemma DriftedPageFailsForGood(s: Sys, text: nat -> Items, es: seq<Event>, page: nat, now: nat)
    requires Bounded(s.held, text) && RepliesRight(s, text)
    requires Drift(s.held) + Cost(text(page)) > LIMIT && Destroy !in es
    ensures !OnStore(Run(s, text, es).held, page, text(page), now).1
  {
    BoundedInEveryRun(s, text, es);
    var h := Run(s, text, es).held;
    EvictFailsIff(h.cache, h.bytes, Cost(text(page)));
  }

  // ------------------------------------------------------ loads that do not overlap

  /** No page is requested while it is being loaded. */
  predicate NoOverlap(s: Sys, text: nat -> Items, es: seq<Event>)
    decreases |es|
  {
    es == [] || ((es[0].Request? ==> es[0].page !in s.loads) && NoOverlap(Step(s, text, es[0]), text, es[1..]))
  }

  /** Oldest use first: insertion order is the order of last use. */
  ghost predicate ByUse(c: Cache, now: nat) {
    && (forall i, j :: 0 <= i < j < |c| ==> c[i].value.used < c[j].value.used)
    && (forall i :: 0 <= i < |c| ==> c[i].value.used < now)
  }

  /** The pages being loaded are different and none of them is cached. */
  ghost predicate LoadsFree(loads: seq<nat>, c: Cache) {
    && (forall k :: 0 <= k < |loads| ==> !Has(c, loads[k]))
    && (forall i, j :: 0 <= i < j < |loads| ==> loads[i] != loads[j])
  }

  ghost predicate Inv(s: Sys, text: nat -> Items) {
    && Bounded(s.held, text) && RepliesRight(s, text)
    && Drift(s.held) == 0 && ByUse(s.held.cache, s.now) && !s.failed
    && LoadsFree(s.loads, s.held.cache)
  }

  /** What moves to the end, or is added there, has the latest use. */
  lemma AppendByUse(c: Cache, page: nat, items: Items, now: nat)
    requires ByUse(c, now)
    ensures ByUse(c + [Pair(page, Cached(items, now))], now + 1)
  {
  }

  lemma WithoutByUse(c: Cache, k: nat, now: nat)
    requires ByUse(c, now) && Distinct(c) && k < |c|
    ensures ByUse(Without(c, k), now)
  {
    WithoutFacts(c, k);
  }

  lemma LoadGone(loads: seq<nat>, k: nat, c: Cache)
    requires LoadsFree(loads, c) && k < |loads|
    ensures LoadsFree(RemoveLoad(loads, k), c)
    ensures forall i :: 0 <= i < |RemoveLoad(loads, k)| ==> RemoveLoad(loads, k)[i] != loads[k]
  {
    var rest := RemoveLoad(loads, k);
    forall i | 0 <= i < |rest| ensures rest[i] == loads[if i < k then i else i + 1] {
    }
  }

  lemma FewerPagesStayFree(loads: seq<nat>, c: Cache, d: Cache)
    requires LoadsFree(loads, c) && forall page :: Has(d, page) ==> Has(c, page)
    ensures LoadsFree(loads, d)
  {
  }

  lemma HitKeepsOrder(h: Held, page: nat, now: nat)
    requires Distinct(h.cache) && ByUse(h.cache, now) && Has(h.cache, page)
    ensures ByUse(OnHit(h, page, now).cache, now + 1)
    ensures forall other :: Has(OnHit(h, page, now).cache, other) ==> Has(h.cache, other)
  {
    var k := FindAt(h.cache, page);
    var rest, e := Without(h.cache, k), h.cache[k].value.(used := now);
    WithoutFacts(h.cache, k);
    WithoutByUse(h.cache, k, now);
    PutFresh(rest, page, e);
    AppendFacts(rest, page, e);
    AppendByUse(rest, page, e.items, now);
  }

  lemma RequestKeepsInv(s: Sys, text: nat -> Items, page: nat)
    requires Inv(s, text) && page !in s.loads
    ensures Inv(Step(s, text, Request(page)), text)
  {
    StepKeepsBounded(s, text, Request(page));
    FindFacts(s.held.cache, page);
    if Has(s.held.cache, page) {
      HitDrift(s.held, page, s.now);
      HitKeepsOrder(s.held, page, s.now);
      FewerPagesStayFree(s.loads, s.held.cache, OnHit(s.held, page, s.now).cache);
    } else {
      assert LoadsFree(s.loads + [page], s.held.cache);
    }
  }

  /** With an exact counter, storing a page that is not cached appends it to a suffix. */
  lemma FreshStoreAppends(h: Held, page: nat, items: Items, now: nat) returns (k: nat)
    requires Distinct(h.cache) && Drift(h) == 0 && !Has(h.cache, page) && Cost(items) <= LIMIT
    ensures k <= |h.cache| && OnStore(h, page, items, now).1 && Drift(OnStore(h, page, items, now).0) == 0
    ensures !Has(h.cache[k..], page)
    ensures OnStore(h, page, items, now).0.cache == h.cache[k..] + [Pair(page, Cached(items, now))]
  {
    EvictFailsIff(h.cache, h.bytes, Cost(items));
    StoreDrift(h, page, items, now);
    k := EvictKeepsDrift(h.cache, h.bytes, Cost(items));
    SuffixFacts(h.cache, k);
    FindFacts(h.cache[k..], page);
    PutFresh(h.cache[k..], page, Cached(items, now));
  }

  lemma FreshStore(h: Held, text: nat -> Items, page: nat, now: nat)
    requires Bounded(h, text) && Drift(h) == 0 && ByUse(h.cache, now) && !Has(h.cache, page)
    requires Cost(text(page)) <= LIMIT
    ensures OnStore(h, page, text(page), now).1
    ensures var after := OnStore(h, page, text(page), now).0;
            && Drift(after) == 0 && ByUse(after.cache, now + 1)
            && forall other :: Has(after.cache, other) ==> other == page || Has(h.cache, other)
  {
    var k := FreshStoreAppends(h, page, text(page), now);
    var kept := h.cache[k..];
    SuffixFacts(h.cache, k);
    AppendFacts(kept, page, Cached(text(page), now));
    AppendByUse(kept, page, text(page), now);
  }

  lemma LoadEndKeepsInv(s: Sys, text: nat -> Items, k: nat)
    requires Inv(s, text)
    ensures Inv(Step(s, text, LoadEnds(k)), text)
  {
    StepKeepsBounded(s, text, LoadEnds(k));
    if k < |s.loads| && Cost(text(s.loads[k])) <= LIMIT {
      var page := s.loads[k];
      LoadGone(s.loads, k, s.held.cache);
      FreshStore(s.held, text, page, s.now);
      StaysFree(RemoveLoad(s.loads, k), s.held.cache, OnStore(s.held, page, text(page), s.now).0.cache, page);
    }
  }

  lemma StaysFree(loads: seq<nat>, c: Cache, d: Cache, page: nat)
    requires LoadsFree(loads, c) && forall i :: 0 <= i < |loads| ==> loads[i] != page
    requires forall other :: Has(d, other) ==> other == page || Has(c, other)
    ensures LoadsFree(loads, d)
  {
  }

  lemma StepKeepsInv(s: Sys, text: nat -> Items, e: Event)
    requires Inv(s, text) && (e.Request? ==> e.page !in s.loads)
    ensures Inv(Step(s, text, e), text)
  {
    match e
    case Request(page) => RequestKeepsInv(s, text, page);
    case LoadFails(k) => if k < |s.loads| { LoadGone(s.loads, k, s.held.cache); }
    case LoadEnds(k) => LoadEndKeepsInv(s, text, k);
    case Destroy =>
  }

  /**
   While no page is requested during its own load: every reply is the text of its page,
   the counter is the sum of the cached costs, at most 16 pages and 8 MiB are held, the
   type error never occurs and the map is in order of last use.
   */
  lemma {:induction false} CacheIsSoundInEveryRun(s: Sys, text: nat -> Items, es: seq<Event>)
    requires Inv(s, text) && NoOverlap(s, text, es)
    ensures Inv(Run(s, text, es), text)
    decreases |es|
  {
    if es != [] {
      StepKeepsInv(s, text, es[0]);
      CacheIsSoundInEveryRun(Step(s, text, es[0]), text, es[1..]);
    }
  }

  lemma BeforeAndAfter<T>(s: seq<T>, k: nat, x: T, y: T) returns (i: nat, j: nat)
    requires k <= |s| && x in s && x !in s[k..] && y in s[k..]
    ensures i < k <= j < |s| && s[i] == x && s[j] == y
  {
    forall m | k <= m < |s| ensures s[m] in s[k..] {
      assert s[k..][m - k] == s[m];
    }
    i :| i < |s| && s[i] == x;
    j :| j < |s[k..]| && s[k..][j] == y;
    j := k + j;
  }

  /** What is evicted was used before everything that stays. */
  lemma EvictionIsLeastRecentlyUsed(h: Held, cost: nat, now: nat)
    requires ByUse(h.cache, now)
    ensures var kept := Evict(h.cache, h.bytes, cost).0;
            forall gone, stays :: gone in h.cache && gone !in kept && stays in kept ==>
              gone.value.used < stays.value.used
  {
    var k := EvictKeepsDrift(h.cache, h.bytes, cost);
    var kept := h.cache[k..];
    forall gone, stays | gone in h.cache && gone !in kept && stays in kept
      ensures gone.value.used < stays.value.used
    {
      var i, j := BeforeAndAfter(h.cache, k, gone, stays);
    }
  }

  /** A request of an uncached page, and the end of its load: the reply comes, the page is the newest. */
  ghost predicate Answers(s: Sys, text: nat -> Items, page: nat) {
    var asked := Step(s, text, Request(page));
    var failed := Step(asked, text, LoadFails(|s.loads|));
    var done := Step(asked, text, LoadEnds(|s.loads|));
    && failed == s
    && (Cost(text(page)) <= 8_388_608 ==>
          && done.replies == s.replies + [Reply(page, text(page))] && done.loads == s.loads && !done.failed
          && done.held.cache != []
          && done.held.cache[|done.held.cache| - 1] == Pair(page, Cached(text(page), s.now)))
  }

  /** A request of the page at `k`: the reply comes at once, and the page is the newest. */
  ghost predicate AnswersAtOnce(s: Sys, text: nat -> Items, k: nat)
    requires k < |s.held.cache|
  {
    var page := s.held.cache[k].key;
    var done := Step(s, text, Request(page));
    && done.replies == s.replies + [Reply(page, text(page))] && done.loads == s.loads
    && done.held.bytes == s.held.bytes
    && done.held.cache == s.held.cache[..k] + s.held.cache[k + 1..] + [Pair(page, Cached(text(page), s.now))]
  }

  lemma LoadIsRemoved(loads: seq<nat>, page: nat)
    ensures RemoveLoad(loads + [page], |loads|) == loads
  {
  }

  lemma UncachedIsAnswered(s: Sys, text: nat -> Items, page: nat)
    requires Inv(s, text) && !s.dead && !Has(s.held.cache, page)
    ensures Answers(s, text, page)
  {
    FindFacts(s.held.cache, page);
    LoadIsRemoved(s.loads, page);
    assert Step(s, text, Request(page)) == s.(loads := s.loads + [page]);
    if Cost(text(page)) <= LIMIT {
      var k := FreshStoreAppends(s.held, page, text(page), s.now);
    }
  }

  lemma CachedIsAnswered(s: Sys, text: nat -> Items, k: nat)
    requires Inv(s, text) && !s.dead && k < |s.held.cache|
    ensures AnswersAtOnce(s, text, k)
  {
    RefreshMoves(s.held.cache, k, Cached(text(s.held.cache[k].key), s.now));
  }

  /**
   While loads do not overlap, every request is answered: at once when the page is cached,
   otherwise at the end of its load, which costs nothing else its place. A load that fails
   leaves no trace.
   */
  lemma RequestsAreAnswered(text: nat -> Items, es: seq<Event>, page: nat)
    requires NoOverlap(INITIAL, text, es) && !Run(INITIAL, text, es).dead
    ensures var s := Run(INITIAL, text, es);
            (exists k :: 0 <= k < |s.held.cache| && s.held.cache[k].key == page && AnswersAtOnce(s, text, k))
            || Answers(s, text, page)
  {
    var s := Run(INITIAL, text, es);
    assert Inv(s, text) by { CacheIsSoundInEveryRun(INITIAL, text, es); }
    if Has(s.held.cache, page) {
      var k := FindAt(s.held.cache, page);
      CachedIsAnswered(s, text, k);
    } else {
      UncachedIsAnswered(s, text, page);
    }
  }

  /** A destroyed search holds nothing and answers no request. */
  lemma DestroyedSearchRefuses(s: Sys, text: nat -> Items, page: nat)
    ensures var gone := Step(s, text, Destroy);
            gone.held.cache == [] && gone.held.bytes == 0 && Step(gone, text, Request(page)) == gone
  {
  }

  // -------------------------------------------------------- loads that do overlap

  const TWICE := [LoadEnds(0), LoadEnds(0)]

  /** Two overlapping loads of one non-empty page leave a counter that is too large. */
  lemma OverlappingLoadsDoubleCount(text: nat -> Items, page: nat) returns (s: Sys)
    requires text(page) != [] && 2 * Cost(text(page)) <= LIMIT
    ensures s == Run(INITIAL, text, [Request(page), Request(page)] + TWICE)
    ensures Drift(s.held) == Cost(text(page)) > 0 && s.held.cache == [Pair(page, Cached(text(page), 1))]
    ensures s.loads == [] && !s.dead && !s.failed
  {
    var items := text(page);
    CostPositive(items);
    var s1 := Step(INITIAL, text, Request(page));
    var s2 := Step(s1, text, Request(page));
    var s3 := Step(s2, text, LoadEnds(0));
    s := Step(s3, text, LoadEnds(0));
    assert s2.loads == [page, page] && s3.loads == [page];
    assert s3.held == Held([Pair(page, Cached(items, 0))], Cost(items));
    assert s.held == Held([Pair(page, Cached(items, 1))], 2 * Cost(items));
    var c := s.held.cache;
    assert c[1..] == [] && Sum(CachedCost, c) == CachedCost(c[0].value) + Sum(CachedCost, c[1..]);
    RunFour(INITIAL, text, Request(page), Request(page), LoadEnds(0), LoadEnds(0));
    assert [Request(page), Request(page)] + TWICE == [Request(page), Request(page), LoadEnds(0), LoadEnds(0)];
  }

  lemma RunFour(s: Sys, text: nat -> Items, a: Event, b: Event, c: Event, d: Event)
    ensures Run(s, text, [a, b, c, d]) == Step(Step(Step(Step(s, text, a), text, b), text, c), text, d)
  {
    assert [a, b, c, d][1..] == [b, c, d] && [b, c, d][1..] == [c, d] && [c, d][1..] == [d] && [d][1..] == [];
    var s1 := Step(s, text, a);
    var s2 := Step(s1, text, b);
    var s3 := Step(s2, text, c);
    assert Run(s2, text, [c, d]) == Run(s3, text, [d]) == Run(Step(s3, text, d), text, []);
    assert Run(s, text, [a, b, c, d]) == Run(s1, text, [b, c, d]) == Run(s2, text, [c, d]);
  }

  lemma {:induction false} RunAppend(s: Sys, text: nat -> Items, a: seq<Event>, b: seq<Event>)
    ensures Run(s, text, a + b) == Run(Run(s, text, a), text, b)
    decreases |a|
  {
    if a == [] {
      assert a + b == b;
    } else {
      assert (a + b)[1..] == a[1..] + b;
      RunAppend(Step(s, text, a[0]), text, a[1..], b);
    }
  }

  /** And then a page that fits the cache by itself cannot be stored: the loop empties the map and fails. */
  lemma OverlappingLoadsReachTheTypeError(text: nat -> Items, p: nat, q: nat)
    requires p != q && text(p) != [] && 2 * Cost(text(p)) <= LIMIT
    requires Cost(text(q)) <= LIMIT < Cost(text(p)) + Cost(text(q))
    ensures var s := Run(INITIAL, text, [Request(p), Request(p)] + TWICE + [Request(q), LoadEnds(0)]);
            s.failed && s.held.cache == []
  {
    var s := OverlappingLoadsDoubleCount(text, p);
    var first, last := [Request(p), Request(p)] + TWICE, [Request(q), LoadEnds(0)];
    RunAppend(INITIAL, text, first, last);
    assert s.held.cache[1..] == [] && Find(s.held.cache, q) == Find(s.held.cache[1..], q);
    assert last[1..] == [LoadEnds(0)] && [LoadEnds(0)][1..] == [];
    var s1 := Step(s, text, Request(q));
    assert s1 == s.(loads := [q]);
    EvictFailsIff(s.held.cache, s.held.bytes, Cost(text(q)));
    var k := EvictKeepsDrift(s.held.cache, s.held.bytes, Cost(text(q)));
    assert Run(s, text, last) == Run(s1, text, [LoadEnds(0)]) == Run(Step(s1, text, LoadEnds(0)), text, []);
  }

  /** A load whose stream has ended when the search is destroyed still stores its page. */
  lemma LateLoadRefillsTheCache(text: nat -> Items, page: nat)
    requires Cost(text(page)) <= LIMIT
    ensures var s := Run(INITIAL, text, [Request(page), Destroy] + [LoadEnds(0)]);
            s.dead && s.held == Held([Pair(page, Cached(text(page), 0))], Cost(text(page)))
  {
    var s1 := Step(INITIAL, text, Request(page));
    var s2 := Step(s1, text, Destroy);
    assert s2.loads == [page] && s2.held == Held([], 0);
    RunAppend(INITIAL, text, [Request(page), Destroy], [LoadEnds(0)]);
    assert [Request(page), Destroy][1..] == [Destroy] && [Destroy][1..] == [] && [LoadEnds(0)][1..] == [];
    assert Run(INITIAL, text, [Request(page), Destroy]) == Run(s1, text, [Destroy]) == Run(s2, text, []);
    assert Run(s2, text, [LoadEnds(0)]) == Run(Step(s2, text, LoadEnds(0)), text, []);
  }
}
