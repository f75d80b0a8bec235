/**
 What the jobs of the cover renderer (frontend/src/library-cover-renderer.ts) achieve: a
 cover that was drawn is served from the cache while its ETag stays, and nothing is stored
 or served for a job that was aborted or is from before the last clear.
 */
module CoverCacheRuns {
  import opened Common
  import opened OrderedMap
  import opened CoverCache

  /** The cover of `id` is the newest one held, with at most 12 MiB in all. */
  ghost predicate Newest(h: Held, id: string, cover: Canvas) {
    h.cache != [] && h.cache[|h.cache| - 1] == Pair(id, cover) && h.bytes <= 12_582_912
  }

  /** A cover of at most 12 MiB stays behind the ones that are evicted for it. */
  lemma {:induction false} EvictKeepsTheLast(c: Cache, bytes: int)
    requires c != [] && bytes == Sum(Size, c)
    requires c[|c| - 1].value.width * c[|c| - 1].value.height * 4 <= 12_582_912
    ensures var (kept, b) := Evict(c, bytes);
            kept != [] && kept[|kept| - 1] == c[|c| - 1] && b <= 12_582_912
    decreases |c|
  {
    if |c| == 1 {
      assert c[1..] == [];
    } else if bytes > 12_582_912 {
      EvictKeepsTheLast(c[1..], bytes - Size(c[0].value));
    }
  }

  lemma RenderedIsNewest(h: Held, id: string, cover: Canvas)
    requires Exact(h) && !Has(h.cache, id) && cover.generation == h.epoch
    requires cover.width * cover.height * 4 <= 12_582_912
    ensures Newest(OnRendered(h, id, cover), id, cover)
  {
    AppendKeepsExact(h.cache, id, cover, h.epoch);
    EvictKeepsTheLast(h.cache + [Pair(id, cover)], h.bytes + Size(cover));
  }

  // ------------------------------------------------------------------ one job

  /** The first job in the queue can begin. */
  predicate Next(s: Sys, id: string, rest: seq<Job>) {
    s.running.Idle? && s.queue == [Job(id, s.held.epoch)] + rest
  }

  /** A cover of `id` is held under this ETag. */
  ghost predicate HeldUnder(c: Cache, id: string, tag: string) {
    exists k :: 0 <= k < |c| && c[k].key == id && c[k].value.etag == tag
  }

  lemma Misses(h: Held, id: string, tag: string)
    requires Exact(h) && (tag == "" || !HeldUnder(h.cache, id, tag))
    ensures OnHead(h, id, Some(tag)).1.None? && OnHead(h, id, Some(tag)).0.epoch == h.epoch
  {
    FindFacts(h.cache, id);
    if Has(h.cache, id) {
      var k := FindAt(h.cache, id);
    }
  }

  lemma HeadMisses(s: Sys, id: string, rest: seq<Job>, tag: string)
    requires Next(s, id, rest) && OnHead(s.held, id, Some(tag)).1.None?
    requires OnHead(s.held, id, Some(tag)).0.epoch == s.held.epoch
    ensures var asked := Step(Step(s, Start(false)), HeadDone(true, Some(tag), false));
            && asked.queue == rest && asked.running == Active(Job(id, s.held.epoch), Loading(Some(tag)))
            && asked.hits == s.hits && asked.held.epoch == s.held.epoch
  {
    assert Step(s, Start(false)) == s.(queue := rest, running := Active(Job(id, s.held.epoch), Fetching));
  }

  /** What a job is answered that draws its cover, while a cover `later` is asked for. */
  function AnswersToDraw(later: string, tag: string, width: nat, height: nat): seq<Event> {
    [Enqueue(later), Start(false), HeadDone(true, Some(tag), false), PdfDone(true, false),
     RenderDone(true, width, height, false), Closed]
  }

  lemma RunOne(s: Sys, e: Event, rest: seq<Event>)
    ensures Run(s, [e] + rest) == Run(Step(s, e), rest)
  {
    assert ([e] + rest)[1..] == rest;
  }

  lemma ThreeOnes<T>(a: T, b: T, c: T, rest: seq<T>)
    ensures [a, b, c] + rest == [a] + ([b] + ([c] + rest))
  {
  }

  lemma RunThree(s: Sys, a: Event, b: Event, c: Event, rest: seq<Event>)
    ensures Run(s, [a, b, c] + rest) == Run(Step(Step(Step(s, a), b), c), rest)
  {
    ThreeOnes(a, b, c, rest);
    RunOne(s, a, [b] + ([c] + rest));
    RunOne(Step(s, a), b, [c] + rest);
    RunOne(Step(Step(s, a), b), c, rest);
  }

  lemma SixOnes<T>(a: T, b: T, c: T, d: T, e: T, f: T)
    ensures [a, b, c, d, e, f] == [a, b, c] + ([d, e, f] + [])
  {
  }

  lemma RunSix(s: Sys, a: Event, b: Event, c: Event, d: Event, e: Event, f: Event)
    ensures Run(s, [a, b, c, d, e, f]) == Step(Step(Step(Step(Step(Step(s, a), b), c), d), e), f)
  {
    SixOnes(a, b, c, d, e, f);
    RunThree(s, a, b, c, [d, e, f] + []);
    RunThree(Step(Step(Step(s, a), b), c), d, e, f, []);
  }

  /**
   A job whose cover is not held under the ETag it fetches draws it and stores it; the next
   job can begin, and what was asked for meanwhile waits behind the others.
   */
  lemma CoverIsDrawn(es: seq<Event>, id: string, rest: seq<Job>, later: string, tag: string, width: nat, height: nat)
    requires var s := Run(INITIAL, es);
             && Next(s, id, rest) && tag != "" && width * height * 4 <= 12_582_912
             && !HeldUnder(s.held.cache, id, tag)
    ensures var s := Run(INITIAL, es);
            var drawn := Run(s, AnswersToDraw(later, tag, width, height));
            && Newest(drawn.held, id, Canvas(tag, width, height, s.held.epoch)) && drawn.held.epoch == s.held.epoch
            && drawn.running.Idle? && drawn.queue == rest + [Job(later, s.held.epoch)] && drawn.hits == s.hits
  {
    InvInEveryRun(INITIAL, es);
    var s := Run(INITIAL, es);
    StepKeepsInv(s, Enqueue(later));
    DrawsCover(Step(s, Enqueue(later)), id, rest + [Job(later, s.held.epoch)], tag, width, height);
    RunSix(s, Enqueue(later), Start(false), HeadDone(true, Some(tag), false), PdfDone(true, false),
           RenderDone(true, width, height, false), Closed);
  }

  lemma DrawsCover(s: Sys, id: string, rest: seq<Job>, tag: string, width: nat, height: nat)
    requires Inv(s) && Next(s, id, rest) && tag != "" && width * height * 4 <= 12_582_912
    requires !HeldUnder(s.held.cache, id, tag)
    ensures var drawn := Step(Step(Step(Step(Step(s, Start(false)), HeadDone(true, Some(tag), false)),
                                        PdfDone(true, false)), RenderDone(true, width, height, false)), Closed);
            && Newest(drawn.held, id, Canvas(tag, width, height, s.held.epoch)) && drawn.held.epoch == s.held.epoch
            && drawn.running.Idle? && drawn.queue == rest && drawn.hits == s.hits
  {
    Misses(s.held, id, tag);
    HeadMisses(s, id, rest, tag);
    StepKeepsInv(s, Start(false));
    var asked := Step(Step(s, Start(false)), HeadDone(true, Some(tag), false));
    StepKeepsInv(Step(s, Start(false)), HeadDone(true, Some(tag), false));
    var loaded := Step(asked, PdfDone(true, false));
    StepKeepsInv(asked, PdfDone(true, false));
    RenderedIsNewest(loaded.held, id, Canvas(tag, width, height, s.held.epoch));
  }

  /** While a cover is held, a job that fetches its ETag is served it, and the cover becomes the newest. */
  lemma CoverIsServed(es: seq<Event>, id: string, rest: seq<Job>, k: nat)
    requires var s := Run(INITIAL, es);
             && Next(s, id, rest) && k < |s.held.cache| && s.held.cache[k].key == id
             && s.held.cache[k].value.etag != ""
    ensures var s := Run(INITIAL, es);
            var cover := s.held.cache[k].value;
            var served := Step(Step(s, Start(false)), HeadDone(true, Some(cover.etag), false));
            && served.hits == s.hits + [Hit(cover, Job(id, s.held.epoch), cover.etag, s.held.epoch)]
            && served.held.cache == s.held.cache[..k] + s.held.cache[k + 1..] + [s.held.cache[k]]
            && served.held.bytes == s.held.bytes && served.held.epoch == s.held.epoch
            && served.running.Idle? && served.queue == rest
  {
    InvInEveryRun(INITIAL, es);
    ServesCover(Run(INITIAL, es), id, rest, k);
  }

  lemma HeldAt(h: Held, id: string, k: nat)
    requires Exact(h) && k < |h.cache| && h.cache[k].key == id
    ensures Find(h.cache, id) == Some(h.cache[k].value)
    ensures Refresh(h.cache, id, h.cache[k].value) == h.cache[..k] + h.cache[k + 1..] + [h.cache[k]]
  {
    RefreshMoves(h.cache, k, h.cache[k].value);
  }

  lemma ServesCover(s: Sys, id: string, rest: seq<Job>, k: nat)
    requires Inv(s) && Next(s, id, rest) && k < |s.held.cache| && s.held.cache[k].key == id
    requires s.held.cache[k].value.etag != ""
    ensures var cover := s.held.cache[k].value;
            var served := Step(Step(s, Start(false)), HeadDone(true, Some(cover.etag), false));
            && served.hits == s.hits + [Hit(cover, Job(id, s.held.epoch), cover.etag, s.held.epoch)]
            && served.held == s.held.(cache := s.held.cache[..k] + s.held.cache[k + 1..] + [s.held.cache[k]])
            && served.running.Idle? && served.queue == rest
  {
    HeldAt(s.held, id, k);
  }

  // ------------------------------------------------------- jobs that come too late

  /** Every job is from before the last clear, and nothing is held. */
  ghost predicate AllStale(s: Sys) {
    && s.held.cache == [] && s.held.bytes == 0
    && (s.running.Active? ==> s.running.job.generation < s.held.epoch)
    && forall k :: 0 <= k < |s.queue| ==> s.queue[k].generation < s.held.epoch
  }

  lemma StaleStep(s: Sys, e: Event)
    requires AllStale(s) && !e.Enqueue?
    ensures AllStale(Step(s, e)) && Step(s, e).hits == s.hits
  {
  }

  lemma {:induction false} StaleRun(s: Sys, es: seq<Event>)
    requires AllStale(s) && forall k :: 0 <= k < |es| ==> !es[k].Enqueue?
    ensures AllStale(Run(s, es)) && Run(s, es).hits == s.hits
    decreases |es|
  {
    if es != [] {
      StaleStep(s, es[0]);
      StaleRun(Step(s, es[0]), es[1..]);
    }
  }

  /**
   After a clear the cache stays empty and nothing is served, however the jobs from before
   it go on, until a cover is asked for again.
   */
  lemma ClearIsFinal(es: seq<Event>, more: seq<Event>)
    requires forall k :: 0 <= k < |more| ==> !more[k].Enqueue?
    ensures var s := Run(INITIAL, es);
            var later := Run(Step(s, Clear), more);
            later.held.cache == [] && later.held.bytes == 0 && later.hits == s.hits
  {
    InvInEveryRun(INITIAL, es);
    StaleRun(Step(Run(INITIAL, es), Clear), more);
  }

  /** A job that is aborted or from before the last clear when its turn comes is skipped. */
  lemma LateJobIsSkipped(s: Sys, aborted: bool)
    requires s.running.Idle? && s.queue != [] && (aborted || s.queue[0].generation != s.held.epoch)
    ensures Step(s, Start(aborted)) == s.(queue := s.queue[1..])
  {
  }

  /**
   A job that is aborted, or whose current await fails, stores and serves nothing more;
   having closed its document, if it has one, it makes room for the next.
   */
  lemma AbortedJobEnds(s: Sys, aborted: bool, etag: Option<string>, width: nat, height: nat)
    requires s.running.Active?
    ensures var e := match s.running.stage
                     case Fetching => HeadDone(aborted, etag, aborted)
                     case Loading(_) => PdfDone(aborted, aborted)
                     case Rendering(_) => RenderDone(aborted, width, height, aborted)
                     case Closing => Closed;
            (if s.running.stage.Fetching? || s.running.stage.Closing? then Step(s, e) else Step(Step(s, e), Closed))
            == s.(running := Idle)
  {
  }
}
