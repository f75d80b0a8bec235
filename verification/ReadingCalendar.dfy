/**
 The reading calendar: the server builds a payload of whole weeks
 (ipaper/reading_activity.py), the client cuts a shorter one out of the payload of 53
 weeks (frontend/src/home-data.ts) instead of asking again.

 Dates are day numbers (day 1 is a Monday); ISO strings of four-digit years compare the
 same way. Minutes are counted in integer tenths, which is how rows come out of their
 rounding; a legacy total is any real number of minutes.
 */
module ReadingCalendar {
  import opened Common

  /** `date.weekday()`: 0 is Monday. */
  function Weekday(d: int): int { (d + 6) % 7 }

  datatype Row = Row(date: int, tenths: int, papers: nat, attributed: nat)
  datatype Legacy = Legacy(minutes: real, papers: seq<string>)
  datatype Store = Store(rows: seq<Row>, legacy: map<int, Legacy>)

  datatype Day = Day(date: int, minutes: int, papers: nat, papersKnown: bool, legacy: bool, future: bool, today: bool)
  datatype Summary = Summary(totalMinutes: int, weekMinutes: int, readingDays: nat)
  datatype Range = Range(start: int, end: int, weeks: int)
  datatype Payload = Payload(timezone: string, range: Range, summary: Summary, days: seq<Day>)

  const APP_TZ_NAME := "Asia/Shanghai"

  // ------------------------------------------------------------------ one day

  /** The dictionary of rows by date: a later row replaces an earlier one. */
  function RowOn(rows: seq<Row>, d: int): Row {
    if rows == [] then Row(d, 0, 0, 0)
    else if rows[|rows| - 1].date == d then rows[|rows| - 1]
    else RowOn(rows[..|rows| - 1], d)
  }

  function LegacyOn(legacy: map<int, Legacy>, d: int): Legacy {
    if d in legacy then legacy[d] else Legacy(0.0, [])
  }

  /** `round(minutes, 1)` in tenths: to the nearest, a tie to the even one. */
  function Tenths(minutes: real): int {
    var x := minutes * 10.0;
    var rest := x - x.Floor as real;
    if rest < 0.5 || (rest == 0.5 && x.Floor % 2 == 0) then x.Floor else x.Floor + 1
  }

  function MaxReal(x: real, y: real): real {
    if x < y then y else x
  }

  /** A total too small for one decimal still counts as a legacy day. */
  function DayOf(store: Store, today: int, d: int): Day {
    var row, prior := RowOn(store.rows, d), LegacyOn(store.legacy, d);
    var minutes := MaxReal(row.tenths as real / 10.0, prior.minutes);
    var shown :=
      if row.attributed != 0 then (row.papers, true, false)
      else if prior.papers != [] then (|set p | p in prior.papers|, true, false)
      else (0, false, minutes > 0.0);
    Day(d, Tenths(minutes), shown.0, shown.1, shown.2, d > today, d == today)
  }

  /** The days `start..end`, both included. */
  function DaysBetween(store: Store, today: int, start: int, end: int): (days: seq<Day>)
    ensures |days| == Max(0, end - start + 1)
    ensures forall k :: 0 <= k < |days| ==> days[k] == DayOf(store, today, start + k)
  {
    seq(Max(0, end - start + 1), k requires 0 <= k => DayOf(store, today, start + k))
  }

  /** `build_activity_days`. */
  method BuildActivityDays(store: Store, today: int, start: int, end: int) returns (days: seq<Day>)
    ensures days == DaysBetween(store, today, start, end)
  {
    days := [];
    var cursor := start;
    while cursor <= end
      invariant start <= cursor <= Max(start, end + 1)
      invariant |days| == cursor - start
      invariant forall k :: 0 <= k < |days| ==> days[k] == DayOf(store, today, start + k)
      decreases end - cursor
    {
      days := days + [DayOf(store, today, cursor)];
      cursor := cursor + 1;
    }
  }

  // ------------------------------------------------------------------ summaries

  function Total(days: seq<Day>): int {
    if days == [] then 0 else Total(days[..|days| - 1]) + days[|days| - 1].minutes
  }

  predicate InWeek(day: Day, today: int) {
    today - Weekday(today) <= day.date <= today
  }

  function WeekTotal(days: seq<Day>, today: int): int {
    if days == [] then 0
    else WeekTotal(days[..|days| - 1], today)
         + if InWeek(days[|days| - 1], today) then days[|days| - 1].minutes else 0
  }

  function ActiveDays(days: seq<Day>): nat {
    if days == [] then 0 else ActiveDays(days[..|days| - 1]) + if days[|days| - 1].minutes > 0 then 1 else 0
  }

  function SummaryOf(days: seq<Day>, today: int): Summary {
    Summary(Total(days), WeekTotal(days, today), ActiveDays(days))
  }

  /** `summarize`: one pass with three accumulators. */
  method Summarize(days: seq<Day>, today: int) returns (s: Summary)
    ensures s == SummaryOf(days, today)
  {
    var weekStart := today - Weekday(today);
    var total, week, active := 0, 0, 0;
    assert days[..|days|] == days;
    for k := 0 to |days|
      invariant total == Total(days[..k]) && week == WeekTotal(days[..k], today) && active == ActiveDays(days[..k])
    {
      assert days[..k + 1][..k] == days[..k];
      total := total + days[k].minutes;
      if weekStart <= days[k].date <= today { week := week + days[k].minutes; }
      if days[k].minutes > 0 { active := active + 1; }
    }
    s := Summary(total, week, active);
  }

  // ------------------------------------------------------------------ the payload

  function ActivityRange(today: int, weeks: int): (int, int) {
    var w := Clamp(weeks, 1, 53);
    var start := today - (Weekday(today) + (w - 1) * 7);
    (start, start + w * 7 - 1)
  }

  /** Every range is whole weeks from a Monday to the Sunday on or after today. */
  lemma RangeIsWholeWeeks(today: int, weeks: int)
    ensures var (start, end) := ActivityRange(today, weeks);
            && Weekday(start) == 0 && Weekday(end) == 6
            && start <= today <= end < today + 7
            && end - start + 1 == 7 * Clamp(weeks, 1, 53)
  {
  }

  function PayloadOf(store: Store, today: int, weeks: int): Payload {
    var (start, end) := ActivityRange(today, weeks);
    var days := DaysBetween(store, today, start, end);
    Payload(APP_TZ_NAME, Range(start, end, weeks), SummaryOf(days, today), days)
  }

  method ActivityPayload(store: Store, today: int, weeks: int) returns (p: Payload)
    ensures p == PayloadOf(store, today, weeks)
  {
    var (start, end) := ActivityRange(today, weeks);
    var days := BuildActivityDays(store, today, start, end);
    var summary := Summarize(days, today);
    p := Payload(APP_TZ_NAME, Range(start, end, weeks), summary, days);
  }

  function Since(rows: seq<Row>, start: int): seq<Row> {
    if rows == [] then []
    else Since(rows[..|rows| - 1], start) + if rows[|rows| - 1].date >= start then [rows[|rows| - 1]] else []
  }

  lemma {:induction false} RowOnSince(rows: seq<Row>, start: int, d: int)
    requires d >= start
    ensures RowOn(Since(rows, start), d) == RowOn(rows, d)
  {
    if rows != [] {
      var init, last := rows[..|rows| - 1], rows[|rows| - 1];
      RowOnSince(init, start, d);
      if last.date >= start {
        assert (Since(init, start) + [last])[..|Since(init, start)|] == Since(init, start);
      } else {
        assert Since(rows, start) == Since(init, start);
      }
    }
  }

  /** The route asks only for rows from the start of the range on; the payload is the same. */
  lemma RowsBeforeTheRangeDoNotMatter(store: Store, today: int, weeks: int)
    ensures var (start, _) := ActivityRange(today, weeks);
            PayloadOf(store.(rows := Since(store.rows, start)), today, weeks) == PayloadOf(store, today, weeks)
  {
    var (start, end) := ActivityRange(today, weeks);
    var fewer := store.(rows := Since(store.rows, start));
    forall d | start <= d <= end ensures DayOf(fewer, today, d) == DayOf(store, today, d) {
      RowOnSince(store.rows, start, d);
    }
    assert DaysBetween(fewer, today, start, end) == DaysBetween(store, today, start, end);
  }

  // ---------------------------------------------------------------- the client

  /** `array.slice(i)`. */
  function JsSlice<T>(s: seq<T>, i: int): seq<T> {
    s[if i < 0 then Max(0, |s| + i) else Min(i, |s|)..]
  }

  function ElapsedActiveDays(days: seq<Day>): nat {
    if days == [] then 0
    else ElapsedActiveDays(days[..|days| - 1])
         + if days[|days| - 1].minutes > 0 && !days[|days| - 1].future then 1 else 0
  }

  /** `calendarWindow`. */
  function CalendarWindow(data: Option<Payload>, weeks: int): Option<Payload> {
    if data.None? || weeks >= data.value.range.weeks then data
    else
      var days := JsSlice(data.value.days, -weeks * 7);
      Some(data.value.(
        range := data.value.range.(
          start := if days == [] then data.value.range.start else days[0].date, weeks := weeks),
        summary := data.value.summary.(totalMinutes := Total(days), readingDays := ElapsedActiveDays(days)),
        days := days))
  }

  // ------------------------------------------------- the cut refines the recompute

  predicate AllBefore(days: seq<Day>, d: int) {
    forall k :: 0 <= k < |days| ==> days[k].date < d
  }

  lemma {:induction false} WeekTotalIgnoresEarlier(a: seq<Day>, b: seq<Day>, today: int)
    requires AllBefore(a, today - Weekday(today))
    ensures WeekTotal(a + b, today) == WeekTotal(b, today)
    decreases |a| + |b|
  {
    if b != [] {
      assert (a + b)[..|a + b| - 1] == a + b[..|b| - 1];
      WeekTotalIgnoresEarlier(a, b[..|b| - 1], today);
    } else if a != [] {
      assert a + b == a && (a + b)[..|a + b| - 1] == a[..|a| - 1] + [];
      WeekTotalIgnoresEarlier(a[..|a| - 1], [], today);
    }
  }

  predicate FutureMinutes(day: Day) {
    day.future && day.minutes > 0
  }

  lemma {:induction false} ElapsedCount(days: seq<Day>)
    ensures ElapsedActiveDays(days) <= ActiveDays(days)
    ensures ElapsedActiveDays(days) == ActiveDays(days) <==> forall k :: 0 <= k < |days| ==> !FutureMinutes(days[k])
  {
    if days != [] {
      var init := days[..|days| - 1];
      ElapsedCount(init);
      assert days == init + [days[|days| - 1]];
    }
  }

  /** The `n` days from `start` on. */
  predicate DaysFrom(days: seq<Day>, store: Store, today: int, start: int, n: nat) {
    |days| == n && forall k :: 0 <= k < n ==> days[k] == DayOf(store, today, start + k)
  }

  /** The Monday that is `w - 1` weeks before this week's. */
  function FirstMonday(today: int, w: int): int { today - Weekday(today) - 7 * (w - 1) }

  lemma PayloadShape(store: Store, today: int, w: int)
    requires 1 <= w <= 53
    ensures var p := PayloadOf(store, today, w);
            && DaysFrom(p.days, store, today, FirstMonday(today, w), 7 * w)
            && p.range == Range(FirstMonday(today, w), today - Weekday(today) + 6, w)
            && p.timezone == APP_TZ_NAME && p.summary == SummaryOf(p.days, today)
  {
  }

  /** A run of days ends with the days of a later start; the others precede it. */
  lemma LaterDays(long: seq<Day>, short: seq<Day>, store: Store, today: int, start: int, m: nat, n: int)
    requires n > 0 && DaysFrom(long, store, today, start, m + n) && DaysFrom(short, store, today, start + m, n)
    ensures JsSlice(long, -n) == short && long == long[..m] + short && AllBefore(long[..m], start + m)
  {
    assert JsSlice(long, -n) == long[m..];
    forall k | 0 <= k < n ensures long[m..][k] == short[k] {
      assert long[m + k] == DayOf(store, today, start + (m + k));
    }
  }

  lemma CutOf(long: seq<Day>, short: seq<Day>, store: Store, today: int, w: int)
    requires 1 <= w < 53
    requires DaysFrom(long, store, today, FirstMonday(today, 53), 371)
    requires DaysFrom(short, store, today, FirstMonday(today, w), 7 * w)
    ensures JsSlice(long, -w * 7) == short && long == long[..371 - 7 * w] + short
    ensures AllBefore(long[..371 - 7 * w], today - Weekday(today))
  {
    LaterDays(long, short, store, today, FirstMonday(today, 53), 371 - 7 * w, 7 * w);
  }

  /** The days of the long payload end with the days of the short one; the others precede this week. */
  lemma CutDays(store: Store, today: int, w: int)
    requires 1 <= w < 53
    ensures var long, short := PayloadOf(store, today, 53).days, PayloadOf(store, today, w).days;
            && |long| == 371 && |short| == 7 * w && JsSlice(long, -w * 7) == short
            && long == long[..371 - 7 * w] + short
            && AllBefore(long[..371 - 7 * w], today - Weekday(today))
  {
    PayloadShape(store, today, 53);
    PayloadShape(store, today, w);
    CutOf(PayloadOf(store, today, 53).days, PayloadOf(store, today, w).days, store, today, w);
  }

  lemma CutWeekTotal(store: Store, today: int, w: int)
    requires 1 <= w < 53
    ensures WeekTotal(PayloadOf(store, today, 53).days, today) == WeekTotal(PayloadOf(store, today, w).days, today)
  {
    CutDays(store, today, w);
    var long := PayloadOf(store, today, 53).days;
    WeekTotalIgnoresEarlier(long[..371 - 7 * w], PayloadOf(store, today, w).days, today);
  }

  /** What the cut replaces, field by field. */
  lemma CutFields(long: Payload, short: Payload, w: int)
    requires w < long.range.weeks && JsSlice(long.days, -w * 7) == short.days
    requires short.days != [] && short.range == Range(short.days[0].date, long.range.end, w)
    requires short.timezone == long.timezone && short.summary.weekMinutes == long.summary.weekMinutes
    requires short.summary.totalMinutes == Total(short.days)
    ensures CalendarWindow(Some(long), w)
         == Some(short.(summary := short.summary.(readingDays := ElapsedActiveDays(short.days))))
  {
    var cut := CalendarWindow(Some(long), w).value;
    assert cut.days == short.days && cut.timezone == short.timezone;
    assert cut.range == short.range;
    assert cut.summary == short.summary.(readingDays := ElapsedActiveDays(short.days));
  }

  /** All but the number of reading days is as the server would compute it. */
  lemma CutIsShort(store: Store, today: int, w: int)
    requires 1 <= w < 53
    ensures var short := PayloadOf(store, today, w);
            CalendarWindow(Some(PayloadOf(store, today, 53)), w)
            == Some(short.(summary := short.summary.(readingDays := ElapsedActiveDays(short.days))))
  {
    var long, short := PayloadOf(store, today, 53), PayloadOf(store, today, w);
    CutDays(store, today, w);
    CutWeekTotal(store, today, w);
    PayloadShape(store, today, 53);
    PayloadShape(store, today, w);
    assert short.days[0] == DayOf(store, today, FirstMonday(today, w));
    CutFields(long, short, w);
  }

  /**
   For 1 <= w <= 53 the calendar cut out of the payload of 53 weeks is the payload of w
   weeks exactly when w is 53 or no date after today in the current week has minutes.
   */
  lemma WindowIsRecomputedPayload(store: Store, today: int, w: int)
    requires 1 <= w <= 53
    ensures CalendarWindow(Some(PayloadOf(store, today, 53)), w) == Some(PayloadOf(store, today, w))
       <==> w == 53 || forall d :: today < d <= today - Weekday(today) + 6 ==> !FutureMinutes(DayOf(store, today, d))
  {
    if w < 53 {
      CutIsShort(store, today, w);
      ElapsedCount(PayloadOf(store, today, w).days);
      FutureDaysAreThisWeek(store, today, w);
    }
  }

  /** The condition is needed: one row dated tomorrow, before the week is over, and the two disagree. */
  lemma TomorrowsRowBreaksTheCut(today: int, w: int, tenths: int)
    requires 1 <= w < 53 && Weekday(today) < 6 && tenths > 0
    ensures var store := Store([Row(today + 1, tenths, 0, 0)], map[]);
            CalendarWindow(Some(PayloadOf(store, today, 53)), w) != Some(PayloadOf(store, today, w))
  {
    var rows := [Row(today + 1, tenths, 0, 0)];
    var store := Store(rows, map[]);
    assert RowOn(rows, today + 1) == rows[0];
    TenthsOfTenths(tenths);
    assert FutureMinutes(DayOf(store, today, today + 1));
    WindowIsRecomputedPayload(store, today, w);
  }

  lemma TenthsOfTenths(n: int)
    requires n >= 0
    ensures Tenths(MaxReal(n as real / 10.0, 0.0)) == n
  {
    assert n as real / 10.0 * 10.0 == n as real;
  }

  lemma FutureDaysAreThisWeek(store: Store, today: int, w: int)
    requires 1 <= w <= 53
    ensures var days := PayloadOf(store, today, w).days;
            (forall k :: 0 <= k < |days| ==> !FutureMinutes(days[k]))
            <==> forall d :: today < d <= today - Weekday(today) + 6 ==> !FutureMinutes(DayOf(store, today, d))
  {
    PayloadShape(store, today, w);
    FutureIndices(store, today, PayloadOf(store, today, w).days, FirstMonday(today, w), 7 * w);
  }

  lemma FutureIndices(store: Store, today: int, days: seq<Day>, start: int, n: nat)
    requires DaysFrom(days, store, today, start, n) && start <= today
    ensures (forall k :: 0 <= k < n ==> !FutureMinutes(days[k]))
       <==> forall d :: today < d < start + n ==> !FutureMinutes(DayOf(store, today, d))
  {
    if forall k :: 0 <= k < n ==> !FutureMinutes(days[k]) {
      forall d | today < d < start + n ensures !FutureMinutes(DayOf(store, today, d)) {
        assert days[d - start] == DayOf(store, today, d);
      }
    } else {
      var k :| 0 <= k < n && FutureMinutes(days[k]);
      assert days[k] == DayOf(store, today, start + k);
    }
  }
}
