/**
 The cover renderer (frontend/src/library-cover-renderer.ts): a serial queue of jobs, a
 cache of rendered canvases bounded to 12 MiB, and clear events that may fall between
 any two awaits of a job. Each stretch of code between awaits is one step.
 */
module CoverCache {
  import opened Common
  import opened OrderedMap

  const LIMIT := 12 * 1024 * 1024

  /** A rendered cover; `generation`, the epoch of the job that drew it, is a history field. */
  datatype Canvas = Canvas(etag: string, width: nat, height: nat, generation: nat)

  function Size(e: Canvas): nat { e.width * e.height * 4 }

  type Cache = Map<string, Canvas>

  /** The eviction loop: oldest first, until the counter is in bounds or nothing is left. */
  function Evict(c: Cache, bytes: int): (Cache, int) {
    if bytes > LIMIT && c != [] then Evict(c[1..], bytes - Size(c[0].value)) else (c, bytes)
  }

  function Truthy(etag: Option<string>): bool {
    etag.Some? && etag.value != ""
  }

  datatype Held = Held(cache: Cache, bytes: int, epoch: nat)

  function OnClear(h: Held): Held {
    Held([], 0, h.epoch + 1)
  }

  /** After the HEAD request: a hit moves to the end, a stale cover is dropped. */
  function OnHead(h: Held, id: string, etag: Option<string>): (Held, Option<Canvas>) {
    match Find(h.cache, id)
    case None => (h, None)
    case Some(e) =>
      if Truthy(etag) && e.etag == etag.value then (h.(cache := Refresh(h.cache, id, e)), Some(e))
      else (h.(cache := Delete(h.cache, id), bytes := h.bytes - Size(e)), None)
  }

  /** After rendering: store a copy and evict. */
  function OnRendered(h: Held, id: string, e: Canvas): Held {
    var (c, b) := Evict(Put(h.cache, id, e), h.bytes + Size(e));
    h.(cache := c, bytes := b)
  }

  /** The module variables `cache`, `bytes` and `epoch`. */
  class CoverStore {
    var cache: Cache
    var bytes: int
    var epoch: nat

    function View(): Held reads this { Held(cache, bytes, epoch) }

    constructor ()
      ensures View() == Held([], 0, 0)
    {
      cache, bytes, epoch := [], 0, 0;
    }

    method Clear()
      modifies this
      ensures View() == OnClear(old(View()))
    {
      epoch := epoch + 1;
      cache := [];
      bytes := 0;
    }

    method Head(id: string, etag: Option<string>) returns (hit: Option<Canvas>)
      modifies this
      ensures (View(), hit) == OnHead(old(View()), id, etag)
    {
      var cached := Find(cache, id);
      if Truthy(etag) && cached.Some? && cached.value.etag == etag.value {
        cache := Delete(cache, id);
        cache := Put(cache, id, cached.value);
        return cached;
      }
      if cached.Some? {
        bytes := bytes - Size(cached.value);
        cache := Delete(cache, id);
      }
      return None;
    }

    method Rendered(id: string, e: Canvas)
      modifies this
      ensures View() == OnRendered(old(View()), id, e)
    {
      cache := Put(cache, id, e);
      bytes := bytes + Size(e);
      while bytes > LIMIT && cache != []
        invariant Evict(cache, bytes) == Evict(Put(old(cache), id, e), old(bytes) + Size(e))
        invariant epoch == old(epoch)
        decreases |cache|
      {
        var first := cache[0].value;
        bytes := bytes - Size(first);
        cache := cache[1..];
      }
    }
  }

  /** The covers from `j` on are too many. */
  ghost predicate TooMany(c: Cache, j: nat)
    requires j <= |c|
  {
    Sum(Size, c[j..]) > LIMIT
  }

  lemma {:induction false} EvictFrom(c: Cache, i: nat) returns (k: nat)
    requires i <= |c|
    ensures i <= k <= |c| && Evict(c[i..], Sum(Size, c[i..])) == (c[k..], Sum(Size, c[k..]))
    ensures !TooMany(c, k) && forall j :: i <= j < k ==> TooMany(c, j)
    decreases |c| - i
  {
    if TooMany(c, i) {
      assert c[i..][1..] == c[i + 1..];
      k := EvictFrom(c, i + 1);
    } else {
      k := i;
    }
  }

  /** Eviction keeps a suffix with an exact counter in bounds, and drops no more than it must. */
  lemma EvictDropsOldest(c: Cache, bytes: int) returns (k: nat)
    requires bytes == Sum(Size, c)
    ensures k <= |c| && Evict(c, bytes) == (c[k..], Sum(Size, c[k..]))
    ensures !TooMany(c, k) && forall j :: 0 <= j < k ==> TooMany(c, j)
  {
    assert c[0..] == c;
    k := EvictFrom(c, 0);
  }

  // ------------------------------------------------------------ jobs and clears

  datatype Job = Job(id: string, generation: nat)

  /** The await at which the running job stands. */
  datatype Stage = Fetching | Loading(etag: Option<string>) | Rendering(etag: Option<string>) | Closing

  datatype Running = Idle | Active(job: Job, stage: Stage)

  /** A picture drawn from the cache: the cover, the job's fresh ETag and the epoch at that moment. */
  datatype Hit = Hit(cover: Canvas, job: Job, fetched: string, epoch: nat)

  datatype Sys = Sys(held: Held, queue: seq<Job>, running: Running, hits: seq<Hit>)

  const INITIAL := Sys(Held([], 0, 0), [], Idle, [])

  /** `aborted` is what `signal.aborted` says at that moment. */
  datatype Event =
    | Clear
    | Enqueue(id: string)
    | Start(aborted: bool)
    | HeadDone(ok: bool, etag: Option<string>, aborted: bool)
    | PdfDone(ok: bool, aborted: bool)
    | RenderDone(ok: bool, width: nat, height: nat, aborted: bool)
    | Closed

  function Stale(s: Sys, aborted: bool): bool
    requires s.running.Active?
  {
    aborted || s.running.job.generation != s.held.epoch
  }

  function At(s: Sys, stage: Stage): Sys
    requires s.running.Active?
  {
    s.(running := s.running.(stage := stage))
  }

  function Step(s: Sys, e: Event): Sys {
    match e
    case Clear => s.(held := OnClear(s.held))
    case Enqueue(id) => s.(queue := s.queue + [Job(id, s.held.epoch)])
    case Start(aborted) =>
      if s.running.Active? || s.queue == [] then s
      else
        var begun := s.(queue := s.queue[1..], running := Active(s.queue[0], Fetching));
        if Stale(begun, aborted) then begun.(running := Idle) else begun
    case HeadDone(ok, etag, aborted) =>
      if !(s.running.Active? && s.running.stage.Fetching?) then s
      else if !ok || Stale(s, aborted) then s.(running := Idle)
      else
        var (held, hit) := OnHead(s.held, s.running.job.id, etag);
        if hit.Some? then
          s.(held := held, running := Idle,
             hits := s.hits + [Hit(hit.value, s.running.job, GetTag(etag), held.epoch)])
        else At(s.(held := held), Loading(etag))
    case PdfDone(ok, aborted) =>
      if !(s.running.Active? && s.running.stage.Loading?) then s
      else if !ok || Stale(s, aborted) then At(s, Closing)
      else At(s, Rendering(s.running.stage.etag))
    case RenderDone(ok, width, height, aborted) =>
      if !(s.running.Active? && s.running.stage.Rendering?) then s
      else if !ok || !Truthy(s.running.stage.etag) || Stale(s, aborted) then At(s, Closing)
      else
        var cover := Canvas(s.running.stage.etag.value, width, height, s.running.job.generation);
        At(s.(held := OnRendered(s.held, s.running.job.id, cover)), Closing)
    case Closed =>
      if s.running.Active? && s.running.stage.Closing? then s.(running := Idle) else s
  }

  function GetTag(etag: Option<string>): string {
    if etag.Some? then etag.value else ""
  }

  function Run(s: Sys, es: seq<Event>): Sys
    decreases |es|
  {
    if es == [] then s else Run(Step(s, es[0]), es[1..])
  }

  /** The counter is exact and bounded, and every cover was drawn by a job queued in this epoch. */
  ghost predicate Exact(h: Held) {
    && Distinct(h.cache)
    && h.bytes == Sum(Size, h.cache) && h.bytes <= LIMIT
    && AllOf(h.cache, h.epoch)
  }

  ghost predicate AllOf(c: Cache, epoch: nat) {
    forall k :: 0 <= k < |c| ==> c[k].value.generation == epoch
  }

  ghost predicate HitSound(x: Hit) {
    x.fetched != "" && x.cover.etag == x.fetched && x.cover.generation == x.job.generation == x.epoch
  }

  /** A job of this epoch is on its way to store its canvas. */
  predicate Drawing(s: Sys) {
    s.running.Active? && (s.running.stage.Loading? || s.running.stage.Rendering?)
    && s.running.job.generation == s.held.epoch
  }

  ghost predicate Inv(s: Sys) {
    && Exact(s.held)
    && (Drawing(s) ==> !Has(s.held.cache, s.running.job.id))
    && (s.running.Active? ==> s.running.job.generation <= s.held.epoch)
    && (forall k :: 0 <= k < |s.queue| ==> s.queue[k].generation <= s.held.epoch)
    && forall k :: 0 <= k < |s.hits| ==> HitSound(s.hits[k])
  }

  /** Dropping one cover, and putting it back at the end. */
  lemma DropKeepsExact(c: Cache, id: string, epoch: nat) returns (k: nat)
    requires Distinct(c) && AllOf(c, epoch) && Has(c, id)
    ensures k < |c| && Find(c, id) == Some(c[k].value) && Delete(c, id) == Without(c, k) && c[k].key == id
    ensures Distinct(Without(c, k)) && AllOf(Without(c, k), epoch) && !Has(Without(c, k), id)
    ensures Sum(Size, c) == Sum(Size, Without(c, k)) + Size(c[k].value)
  {
    k := FindAt(c, id);
    WithoutFacts(c, k);
    SumWithout(Size, c, k);
  }

  lemma AppendKeepsExact(c: Cache, id: string, e: Canvas, epoch: nat)
    requires Distinct(c) && AllOf(c, epoch) && !Has(c, id) && e.generation == epoch
    ensures Put(c, id, e) == c + [Pair(id, e)]
    ensures Distinct(c + [Pair(id, e)]) && AllOf(c + [Pair(id, e)], epoch)
    ensures Sum(Size, c + [Pair(id, e)]) == Sum(Size, c) + Size(e)
  {
    PutFresh(c, id, e);
    SumAppend(Size, c, id, e);
    AppendFacts(c, id, e);
  }

  /** A hit leaves and enters again at the end. */
  lemma HitKeepsExact(h: Held, id: string, e: Canvas)
    requires Exact(h) && Find(h.cache, id) == Some(e)
    ensures Exact(h.(cache := Refresh(h.cache, id, e))) && e.generation == h.epoch
  {
    FindFacts(h.cache, id);
    var k := DropKeepsExact(h.cache, id, h.epoch);
    AppendKeepsExact(Without(h.cache, k), id, e, h.epoch);
  }

  lemma StaleKeepsExact(h: Held, id: string, e: Canvas)
    requires Exact(h) && Find(h.cache, id) == Some(e)
    ensures Exact(h.(cache := Delete(h.cache, id), bytes := h.bytes - Size(e))) && !Has(Delete(h.cache, id), id)
  {
    FindFacts(h.cache, id);
    var k := DropKeepsExact(h.cache, id, h.epoch);
  }

  lemma HeadKeepsExact(h: Held, id: string, etag: Option<string>)
    requires Exact(h)
    ensures var (after, hit) := OnHead(h, id, etag);
            && Exact(after) && after.epoch == h.epoch
            && (hit.None? ==> !Has(after.cache, id))
            && (hit.Some? ==> hit.value.generation == h.epoch && Truthy(etag) && hit.value.etag == etag.value)
  {
    FindFacts(h.cache, id);
    if Has(h.cache, id) {
      HitKeepsExact(h, id, Find(h.cache, id).value);
      StaleKeepsExact(h, id, Find(h.cache, id).value);
    }
  }

  lemma EvictKeepsExact(c: Cache, epoch: nat)
    requires Distinct(c) && AllOf(c, epoch)
    ensures var (kept, bytes) := Evict(c, Sum(Size, c));
            Distinct(kept) && AllOf(kept, epoch) && bytes == Sum(Size, kept) && bytes <= LIMIT
  {
    var k := EvictDropsOldest(c, Sum(Size, c));
    SuffixFacts(c, k);
  }

  lemma RenderKeepsExact(h: Held, id: string, e: Canvas)
    requires Exact(h) && !Has(h.cache, id) && e.generation == h.epoch
    ensures Exact(OnRendered(h, id, e)) && OnRendered(h, id, e).epoch == h.epoch
  {
    AppendKeepsExact(h.cache, id, e, h.epoch);
    EvictKeepsExact(h.cache + [Pair(id, e)], h.epoch);
  }

  lemma StepKeepsInv(s: Sys, e: Event)
    requires Inv(s)
    ensures Inv(Step(s, e))
  {
    match e
    case HeadDone(ok, etag, aborted) =>
      if s.running.Active? && s.running.stage.Fetching? && ok && !Stale(s, aborted) {
        HeadKeepsExact(s.held, s.running.job.id, etag);
      }
    case RenderDone(ok, width, height, aborted) =>
      if s.running.Active? && s.running.stage.Rendering? && Truthy(s.running.stage.etag) && !Stale(s, aborted) {
        var cover := Canvas(s.running.stage.etag.value, width, height, s.running.job.generation);
        RenderKeepsExact(s.held, s.running.job.id, cover);
      }
    case _ =>
  }

  /** Counter, bound, freshness of entries and soundness of hits, under any interleaving. */
  lemma {:induction false} InvInEveryRun(s: Sys, es: seq<Event>)
    requires Inv(s)
    ensures Inv(Run(s, es))
    decreases |es|
  {
    if es != [] {
      StepKeepsInv(s, es[0]);
      InvInEveryRun(Step(s, es[0]), es[1..]);
    }
  }

  lemma CoversAreAccountedAndFresh(es: seq<Event>)
    ensures Exact(Run(INITIAL, es).held)
    ensures forall k :: 0 <= k < |Run(INITIAL, es).hits| ==> HitSound(Run(INITIAL, es).hits[k])
  {
    InvInEveryRun(INITIAL, es);
  }
}
