/**
 Time helpers (ipaper/timeutil.py): splitting an interval into UTC+8 days, and the
 arXiv announcement of a submission.

 Instants are integers (microseconds); the product zone is the fixed offset +8, and the
 announcement calendar is in Eastern wall time.
 */
module AppTime {
  import opened Common

  const HOUR := 3_600_000_000
  const DAY := 24 * HOUR
  const APP_OFFSET := 8 * HOUR

  // ------------------------------------------------------------- days in UTC+8

  /** The UTC+8 calendar day of an instant. */
  function AppDay(t: int): int { (t + APP_OFFSET) / DAY }

  /** `day_bounds_utc`: the instants `[start, end)` of one UTC+8 day. */
  function DayBounds(day: int): (int, int) {
    (day * DAY - APP_OFFSET, (day + 1) * DAY - APP_OFFSET)
  }

  /** The time that `[start, end)` and a UTC+8 day have in common. */
  function Overlap(start: int, end: int, day: int): int {
    Max(0, Min(end, DayBounds(day).1) - Max(start, DayBounds(day).0))
  }

  /** The UTC+8 days that meet `[start, end)`, each with its overlap. */
  ghost predicate IsSplit(start: int, end: int, m: map<int, int>) {
    && (forall d :: d in m <==> Overlap(start, end, d) > 0)
    && (forall d :: d in m ==> m[d] == Overlap(start, end, d))
  }

  ghost predicate Ascending(items: seq<(int, int)>) {
    forall i, j :: 0 <= i < j < |items| ==> items[i].0 < items[j].0
  }

  function MapOf(items: seq<(int, int)>): map<int, int> {
    if items == [] then map[] else MapOf(items[..|items| - 1])[items[|items| - 1].0 := items[|items| - 1].1]
  }

  /** `items` are the buckets in ascending order of day: `sorted(buckets.items())`. */
  ghost predicate SortedItems(m: map<int, int>, items: seq<(int, int)>) {
    Ascending(items) && MapOf(items) == m
  }

  function SumParts(items: seq<(int, int)>): int {
    if items == [] then 0 else SumParts(items[..|items| - 1]) + items[|items| - 1].1
  }

  lemma DayOfInstant(t: int, day: int)
    ensures DayBounds(day).0 <= t < DayBounds(day).1 <==> day == AppDay(t)
  {
  }

  /** What one bucket of the loop is worth. */
  lemma ChunkIsOverlap(start: int, end: int, cursor: int)
    requires start <= cursor < end && (cursor == start || cursor == DayBounds(AppDay(cursor)).0)
    ensures var chunkEnd := Min(DayBounds(AppDay(cursor)).1, end);
            && cursor < chunkEnd && chunkEnd - cursor == Overlap(start, end, AppDay(cursor))
            && (chunkEnd < end ==> AppDay(chunkEnd) == AppDay(cursor) + 1 && chunkEnd == DayBounds(AppDay(chunkEnd)).0)
  {
    DayOfInstant(cursor, AppDay(cursor));
    DayOfInstant(DayBounds(AppDay(cursor)).1, AppDay(cursor) + 1);
  }

  /** Only the days from the first to the last instant meet the interval. */
  lemma OverlapRange(start: int, end: int, day: int)
    requires start < end
    ensures Overlap(start, end, day) > 0 <==> AppDay(start) <= day <= AppDay(end - 1)
  {
    DayOfInstant(start, AppDay(start));
    DayOfInstant(end - 1, AppDay(end - 1));
  }

  /** The buckets of the days before `cursor`, which stands at the start, a midnight or the end. */
  ghost predicate Filled(start: int, end: int, cursor: int, buckets: map<int, int>) {
    && start <= cursor <= end && (cursor == start || cursor == end || cursor == DayBounds(AppDay(cursor)).0)
    && (forall d :: d in buckets <==>
          AppDay(start) <= d && if cursor < end then d < AppDay(cursor) else d <= AppDay(end - 1))
    && forall d :: d in buckets ==> buckets[d] == Overlap(start, end, d)
  }

  lemma FilledNext(start: int, end: int, cursor: int, buckets: map<int, int>)
    requires Filled(start, end, cursor, buckets) && cursor < end
    ensures var key := AppDay(cursor);
            && key !in buckets
            && Filled(start, end, Min(DayBounds(key).1, end), buckets[key := Overlap(start, end, key)])
  {
    ChunkIsOverlap(start, end, cursor);
    DayOfInstant(start, AppDay(start));
    DayOfInstant(end - 1, AppDay(cursor));
  }

  /**
   `split_interval_by_app_day`: the result lists in order exactly the days that meet the
   interval, each with its overlap.
   */
  method SplitIntervalByAppDay(start: int, end: int) returns (items: seq<(int, int)>)
    ensures exists m :: IsSplit(start, end, m) && SortedItems(m, items)
  {
    if end <= start {
      assert IsSplit(start, end, map[]) && SortedItems(map[], []);
      return [];
    }
    var buckets: map<int, int> := map[];
    var cursor := start;
    while cursor < end
      invariant Filled(start, end, cursor, buckets)
      decreases end - cursor
    {
      ChunkIsOverlap(start, end, cursor);
      FilledNext(start, end, cursor, buckets);
      var key := AppDay(cursor);
      var nextMidnight := DayBounds(key).1;
      var chunkEnd := Min(nextMidnight, end);
      var minutes := chunkEnd - cursor;
      buckets := buckets[key := GetOr(buckets, key, 0) + minutes];
      cursor := chunkEnd;
    }
    forall d ensures d in buckets <==> Overlap(start, end, d) > 0 {
      OverlapRange(start, end, d);
    }
    items := Sort(buckets);
  }

  /** `buckets.get(key, default)`. */
  function GetOr(m: map<int, int>, key: int, default: int): int {
    if key in m then m[key] else default
  }

  lemma {:induction false} LeastKey(s: set<int>) returns (k: int)
    requires s != {}
    ensures k in s && forall j :: j in s ==> k <= j
    decreases s
  {
    var some := Pick(s);
    var rest := s - {some};
    k := some;
    if rest != {} {
      var other := LeastKey(rest);
      k := Min(some, other);
    }
    forall j | j in s ensures k <= j {
      assert j == some || j in rest;
    }
  }

  /** Ascending items of a dictionary. */
  method Sort(m: map<int, int>) returns (items: seq<(int, int)>)
    ensures SortedItems(m, items)
  {
    items := [];
    var left := m.Keys;
    while left != {}
      invariant left <= m.Keys && Ascending(items)
      invariant forall i, d :: 0 <= i < |items| && d in left ==> items[i].0 < d
      invariant MapOf(items) == m - left
      decreases |left|
    {
      ghost var least := LeastKey(left);
      var k :| k in left && forall j :: j in left ==> k <= j;
      assert (items + [(k, m[k])])[..|items|] == items;
      items := items + [(k, m[k])];
      left := left - {k};
    }
  }

  /** Interval time before the end of day `d`. */
  function Elapsed(start: int, end: int, d: int): int {
    Max(0, Min(end, DayBounds(d).1) - start)
  }

  /** The parts of any split add up to the length of the interval. */
  lemma PartsSumToLength(start: int, end: int, m: map<int, int>, items: seq<(int, int)>)
    requires start < end && IsSplit(start, end, m) && SortedItems(m, items)
    ensures SumParts(items) == end - start
  {
    ItemsAreConsecutive(start, end, m, items);
    SumOfFirst(start, end, items, |items|);
    assert items[..|items|] == items;
    AllElapsed(start, end);
  }

  lemma AllElapsed(start: int, end: int)
    requires start < end
    ensures Elapsed(start, end, AppDay(end - 1)) == end - start && AppDay(start) <= AppDay(end - 1)
  {
    DayOfInstant(end - 1, AppDay(end - 1));
  }

  lemma ItemsAreConsecutive(start: int, end: int, m: map<int, int>, items: seq<(int, int)>)
    requires start < end && IsSplit(start, end, m) && SortedItems(m, items)
    ensures |items| == AppDay(end - 1) - AppDay(start) + 1
    ensures forall i :: 0 <= i < |items| ==> items[i] == (AppDay(start) + i, Overlap(start, end, AppDay(start) + i))
  {
    KeysAreConsecutive(start, end, m, items);
    forall i | 0 <= i < |items| ensures items[i] == (AppDay(start) + i, Overlap(start, end, AppDay(start) + i)) {
      ItemIsOverlap(start, end, m, items, i);
    }
  }

  lemma KeysAreConsecutive(start: int, end: int, m: map<int, int>, items: seq<(int, int)>)
    requires start < end && IsSplit(start, end, m) && SortedItems(m, items)
    ensures |items| == AppDay(end - 1) - AppDay(start) + 1
    ensures forall i :: 0 <= i < |items| ==> items[i].0 == AppDay(start) + i
  {
    forall d ensures d in m <==> AppDay(start) <= d < AppDay(end - 1) + 1 {
      OverlapRange(start, end, d);
    }
    AllElapsed(start, end);
    Consecutive(items, AppDay(start), AppDay(end - 1) + 1);
  }

  lemma ItemIsOverlap(start: int, end: int, m: map<int, int>, items: seq<(int, int)>, i: nat)
    requires IsSplit(start, end, m) && SortedItems(m, items) && i < |items|
    ensures items[i] == (items[i].0, Overlap(start, end, items[i].0))
  {
    KeysOfItems(items, i);
  }

  /** Item `i` is in the map, and no key exceeds the last one. */
  lemma {:induction false} KeysOfItems(items: seq<(int, int)>, i: nat)
    requires Ascending(items) && i < |items|
    ensures items[i].0 in MapOf(items) && MapOf(items)[items[i].0] == items[i].1
    ensures forall d :: d in MapOf(items) ==> d <= items[|items| - 1].0
  {
    var init := items[..|items| - 1];
    if init != [] {
      KeysOfItems(init, if i < |init| then i else 0);
    }
  }

  /** An ascending list with exactly the keys `lo..hi-1` counts up from `lo`. */
  lemma {:induction false} Consecutive(items: seq<(int, int)>, lo: int, hi: int)
    requires lo <= hi && Ascending(items)
    requires forall d :: d in MapOf(items) <==> lo <= d < hi
    ensures |items| == hi - lo
    ensures forall i :: 0 <= i < |items| ==> items[i].0 == lo + i
    decreases |items|
  {
    if items == [] {
      assert lo !in MapOf(items);
    } else {
      var last, init := |items| - 1, items[..|items| - 1];
      KeysOfItems(items, last);
      assert hi - 1 in MapOf(items);
      if init != [] { KeysOfItems(init, 0); }
      assert items[last].0 == hi - 1;
      forall d ensures d in MapOf(init) <==> lo <= d < hi - 1 {
        assert d in MapOf(items) <==> d in MapOf(init) || d == hi - 1;
      }
      Consecutive(init, lo, hi - 1);
    }
  }

  lemma {:induction false} SumOfFirst(start: int, end: int, items: seq<(int, int)>, n: nat)
    requires start < end && n <= |items|
    requires forall i :: 0 <= i < |items| ==> items[i] == (AppDay(start) + i, Overlap(start, end, AppDay(start) + i))
    ensures SumParts(items[..n]) == if n == 0 then 0 else Elapsed(start, end, AppDay(start) + n - 1)
  {
    if n > 0 {
      assert items[..n][..n - 1] == items[..n - 1];
      SumOfFirst(start, end, items, n - 1);
      DayOfInstant(start, AppDay(start));
    }
  }

  /**
   The buckets in microseconds: day `d` is listed exactly when the interval has time
   between 16:00 UTC of the day before and 16:00 UTC, and its part is that time.
   */
  lemma BucketsInUtc(start: int, end: int, m: map<int, int>, d: int)
    requires IsSplit(start, end, m)
    ensures var lo, hi := d * 86_400_000_000 - 28_800_000_000, d * 86_400_000_000 + 57_600_000_000;
            && (d in m <==> start < end && start < hi && lo < end)
            && (d in m ==> m[d] == (if end < hi then end else hi) - if lo < start then start else lo)
  {
  }

  /** Splitting at any midpoint and merging the buckets gives the same result. */
  lemma SplitAtMidpoint(start: int, mid: int, end: int, a: map<int, int>, b: map<int, int>)
    requires start <= mid <= end && IsSplit(start, mid, a) && IsSplit(mid, end, b)
    ensures IsSplit(start, end, Merge(a, b))
  {
    forall d ensures Overlap(start, end, d) == Overlap(start, mid, d) + Overlap(mid, end, d) {
    }
  }

  /** Bucket-wise addition. */
  function Merge(a: map<int, int>, b: map<int, int>): map<int, int> {
    map d | d in a.Keys + b.Keys :: (if d in a then a[d] else 0) + (if d in b then b[d] else 0)
  }

  // ------------------------------------------------- the arXiv announcement

  /** Day number and weekday (0 is Monday) of an Eastern wall time; day 0 is taken to be a Monday. */
  function WallDay(t: int): int { t / DAY }

  function WallWeekday(day: int): int { day % 7 }

  predicate IsWorkday(day: int) { WallWeekday(day) < 5 }

  function Cutoff(day: int): int { day * DAY + 14 * HOUR }

  /** `arxiv_announce_instant`: replace the time, step over the cutoff, skip the weekend. */
  method ArxivAnnounceInstant(submitted: int) returns (announced: int)
    ensures announced == Announced(submitted)
  {
    var cutoff := Cutoff(WallDay(submitted));
    if submitted >= cutoff {
      cutoff := cutoff + DAY;
    }
    ghost var day := WallDay(submitted) + if submitted >= Cutoff(WallDay(submitted)) then 1 else 0;
    while WallWeekday(WallDay(cutoff)) >= 5
      invariant cutoff == Cutoff(day)
      invariant FirstWorkday(day) == AnnounceDay(submitted)
      decreases AnnounceDay(submitted) - day
    {
      CutoffDay(day);
      FirstWorkdayFacts(day);
      cutoff := cutoff + DAY;
      day := day + 1;
    }
    CutoffDay(day);
    announced := WallDay(cutoff) * DAY + 20 * HOUR;
  }

  lemma CutoffDay(day: int)
    ensures WallDay(Cutoff(day)) == day && Cutoff(day) + DAY == Cutoff(day + 1)
  {
  }

  /** The first working day on or after `day`. */
  function FirstWorkday(day: int): int
    decreases (7 - WallWeekday(day)) % 7
  {
    if IsWorkday(day) then day else FirstWorkday(day + 1)
  }

  lemma FirstWorkdayFacts(day: int)
    ensures day <= FirstWorkday(day) <= day + 2 && IsWorkday(FirstWorkday(day))
    ensures forall k :: day <= k < FirstWorkday(day) ==> !IsWorkday(k)
  {
    if !IsWorkday(day) && !IsWorkday(day + 1) {
      assert IsWorkday(day + 2);
      assert FirstWorkday(day) == FirstWorkday(day + 1) == FirstWorkday(day + 2) == day + 2;
    }
  }

  function AnnounceDay(t: int): int {
    FirstWorkday(WallDay(t) + if t >= Cutoff(WallDay(t)) then 1 else 0)
  }

  /** It is the earliest working day whose 14:00 lies strictly after the submission. */
  lemma AnnounceDayIsEarliest(t: int)
    ensures IsWorkday(AnnounceDay(t)) && t < Cutoff(AnnounceDay(t))
    ensures forall d :: IsWorkday(d) && t < Cutoff(d) ==> AnnounceDay(t) <= d
  {
    var from := WallDay(t) + if t >= Cutoff(WallDay(t)) then 1 else 0;
    FirstWorkdayFacts(from);
    forall d | IsWorkday(d) && t < Cutoff(d) ensures AnnounceDay(t) <= d {
      assert from <= d;
    }
  }

  function Announced(t: int): int { Cutoff(AnnounceDay(t)) + 6 * HOUR }

  /** What is left to wait: days from the day of the submission, by weekday (0 is Monday). */
  function WaitingDays(weekday: int, late: bool): int {
    match weekday
    case 4 => if late then 3 else 0
    case 5 => 2
    case 6 => 1
    case _ => if late then 1 else 0
  }

  /** From 14:00 on it is too late for the day itself; the announcement is at 20:00. */
  lemma AnnouncedByWeekday(t: int)
    ensures var day, time := t / 86_400_000_000, t % 86_400_000_000;
            Announced(t)
            == (day + WaitingDays(day % 7, time >= 50_400_000_000)) * 86_400_000_000 + 72_000_000_000
  {
    var from := WallDay(t) + if t >= Cutoff(WallDay(t)) then 1 else 0;
    FirstWorkdayFacts(from);
  }

  /** The announcement comes more than 6 and at most 78 hours later, and never earlier for a later submission. */
  lemma AnnouncementDelay(t: int, u: int)
    ensures 6 * HOUR < Announced(t) - t <= 78 * HOUR
    ensures t <= u ==> Announced(t) <= Announced(u)
  {
    AnnounceDayIsEarliest(t);
    AnnounceDayIsEarliest(u);
    WeekendIsShort(t);
  }

  lemma WeekendIsShort(t: int)
    ensures Cutoff(AnnounceDay(t)) - t <= 72 * HOUR
  {
    var from := WallDay(t) + if t >= Cutoff(WallDay(t)) then 1 else 0;
    FirstWorkdayFacts(from);
  }

  /** Later days have later cutoffs. */
  lemma CutoffOrder(d: int, e: int)
    ensures Cutoff(d) <= Cutoff(e) <==> d <= e
  {
  }

  /** Two submissions share an announcement exactly when no working-day 14:00 lies in (s1, s2]. */
  lemma SameAnnouncementIff(s1: int, s2: int)
    requires s1 <= s2
    ensures Announced(s1) == Announced(s2) <==> !exists d :: CutoffBetween(d, s1, s2)
  {
    var d1, d2 := AnnounceDay(s1), AnnounceDay(s2);
    assert IsAnnounceDay(d1, s1) by { AnnounceDayIsEarliest(s1); }
    assert IsAnnounceDay(d2, s2) by { AnnounceDayIsEarliest(s2); }
    CutoffOrder(d1, d2);
    CutoffOrder(d2, d1);
    if d1 != d2 {
      assert CutoffBetween(d1, s1, s2);
    } else {
      forall d ensures !CutoffBetween(d, s1, s2) {
        CutoffOrder(d1, d);
      }
    }
  }

  /** `d` is the first workday whose cutoff lies after `s`. */
  ghost predicate IsAnnounceDay(d: int, s: int) {
    IsWorkday(d) && s < Cutoff(d) && forall e :: IsWorkday(e) && s < Cutoff(e) ==> d <= e
  }

  /** The cutoff of workday `d` lies after `s1` and not after `s2`. */
  predicate CutoffBetween(d: int, s1: int, s2: int) {
    IsWorkday(d) && s1 < Cutoff(d) <= s2
  }
}
