/**
 What the days and the summary of an activity payload say about the two stores
 (ipaper/reading_activity.py), told from the rows and the legacy entries themselves.
 */
module ReadingCalendarDays {
  import opened Common
  import opened ReadingCalendar

  /** Row `i` is the last one of date `d`. */
  predicate LastRow(rows: seq<Row>, d: int, i: nat) {
    i < |rows| && rows[i].date == d && forall j :: i < j < |rows| ==> rows[j].date != d
  }

  predicate NoRow(rows: seq<Row>, d: int) {
    forall j :: 0 <= j < |rows| ==> rows[j].date != d
  }

  /** `row` is what the rows have of `d`: the last one, or nothing at all. */
  ghost predicate RowOfDate(rows: seq<Row>, d: int, row: Row) {
    (exists i: nat :: LastRow(rows, d, i) && row == rows[i]) || (NoRow(rows, d) && row == Row(d, 0, 0, 0))
  }

  predicate EntryOfDate(legacy: map<int, Legacy>, d: int, e: Legacy) {
    if d in legacy then e == legacy[d] else e == Legacy(0.0, [])
  }

  lemma {:induction false} RowOnIs(rows: seq<Row>, d: int)
    ensures RowOfDate(rows, d, RowOn(rows, d))
  {
    if rows != [] {
      var init := rows[..|rows| - 1];
      if rows[|rows| - 1].date == d {
        assert LastRow(rows, d, |rows| - 1);
      } else {
        RowOnIs(init, d);
        if i: nat :| LastRow(init, d, i) && RowOn(init, d) == init[i] {
          assert LastRow(rows, d, i);
        } else {
          assert NoRow(rows, d);
        }
      }
    }
  }

  lemma RowOfDateIsUnique(rows: seq<Row>, d: int, row: Row, row': Row)
    requires RowOfDate(rows, d, row) && RowOfDate(rows, d, row')
    ensures row == row'
  {
    if !NoRow(rows, d) {
      var i: nat :| LastRow(rows, d, i) && row == rows[i];
      var j: nat :| LastRow(rows, d, j) && row' == rows[j];
      assert i == j;
    }
  }

  /** `n` tenths are `minutes` rounded to one decimal, a tie to the even one. */
  predicate IsRounded(n: int, minutes: real) {
    var rest := minutes * 10.0 - n as real;
    -0.5 <= rest <= 0.5 && (rest == 0.5 || rest == -0.5 ==> n % 2 == 0)
  }

  lemma TenthsRound(minutes: real)
    ensures IsRounded(Tenths(minutes), minutes)
  {
  }

  lemma TenthsAreExact(n: int)
    ensures Tenths(n as real / 10.0) == n
  {
    assert n as real / 10.0 * 10.0 == n as real;
  }

  lemma TenthsGrow(x: real, y: real)
    requires x <= y
    ensures Tenths(x) <= Tenths(y)
  {
    assert x * 10.0 <= y * 10.0;
    assert (x * 10.0).Floor <= (y * 10.0).Floor;
  }

  /** A day shows the larger of its two stores, the legacy one rounded, never their sum. */
  ghost predicate ShowsTheLarger(day: Day, row: Row, e: Legacy) {
    exists n :: IsRounded(n, e.minutes) && day.minutes == if n <= row.tenths then row.tenths else n
  }

  /** `n` is how many different papers the list has. */
  ghost predicate DistinctCount(papers: seq<string>, n: nat) {
    exists once: seq<string> :: Once(once) && |once| == n && SameElements(once, papers)
  }

  ghost predicate Once(s: seq<string>) {
    forall i, j :: 0 <= i < j < |s| ==> s[i] != s[j]
  }

  ghost predicate SameElements(s: seq<string>, t: seq<string>) {
    (forall p :: p in s ==> p in t) && (forall p :: p in t ==> p in s)
  }

  /** The papers are known when rows are attributed, or else when the legacy entry lists some. */
  ghost predicate ShowsPapers(day: Day, row: Row, e: Legacy) {
    && (day.papersKnown <==> row.attributed != 0 || e.papers != [])
    && (row.attributed != 0 ==> day.papers == row.papers)
    && (row.attributed == 0 ==> DistinctCount(e.papers, day.papers))
    && (day.legacy <==> !day.papersKnown && (row.tenths > 0 || e.minutes > 0.0))
  }

  lemma {:induction false} ListOnce(s: set<string>) returns (once: seq<string>)
    ensures Once(once) && |once| == |s| && forall p :: p in once <==> p in s
    decreases |s|
  {
    if s == {} {
      once := [];
    } else {
      var p := Pick(s);
      var rest := ListOnce(s - {p});
      once := rest + [p];
    }
  }

  lemma CountDistinct(papers: seq<string>)
    ensures DistinctCount(papers, |set p | p in papers|)
  {
    var once := ListOnce(set p | p in papers);
    assert SameElements(once, papers);
  }

  lemma LargerRounds(tenths: int, minutes: real)
    ensures Tenths(MaxReal(tenths as real / 10.0, minutes))
         == if Tenths(minutes) <= tenths then tenths else Tenths(minutes)
  {
    TenthsAreExact(tenths);
    if tenths as real / 10.0 < minutes {
      TenthsGrow(tenths as real / 10.0, minutes);
    } else {
      TenthsGrow(minutes, tenths as real / 10.0);
    }
  }

  lemma LargerIsShown(store: Store, today: int, d: int)
    ensures ShowsTheLarger(DayOf(store, today, d), RowOn(store.rows, d), LegacyOn(store.legacy, d))
  {
    TenthsRound(LegacyOn(store.legacy, d).minutes);
    LargerRounds(RowOn(store.rows, d).tenths, LegacyOn(store.legacy, d).minutes);
  }

  lemma PapersAreShown(store: Store, today: int, d: int)
    ensures ShowsPapers(DayOf(store, today, d), RowOn(store.rows, d), LegacyOn(store.legacy, d))
  {
    CountDistinct(LegacyOn(store.legacy, d).papers);
    if LegacyOn(store.legacy, d).papers == [] { assert (set p | p in LegacyOn(store.legacy, d).papers) == {}; }
  }

  lemma DayShowsItsStores(store: Store, today: int, d: int, row: Row, e: Legacy)
    requires RowOfDate(store.rows, d, row) && EntryOfDate(store.legacy, d, e)
    ensures ShowsTheLarger(DayOf(store, today, d), row, e) && ShowsPapers(DayOf(store, today, d), row, e)
  {
    RowOnIs(store.rows, d);
    RowOfDateIsUnique(store.rows, d, row, RowOn(store.rows, d));
    LargerIsShown(store, today, d);
    PapersAreShown(store, today, d);
  }

  lemma PayloadDay(store: Store, today: int, weeks: int, k: nat)
    requires k < |PayloadOf(store, today, weeks).days|
    ensures PayloadOf(store, today, weeks).days[k]
         == DayOf(store, today, PayloadOf(store, today, weeks).range.start + k)
  {
  }

  lemma DayIsDated(store: Store, today: int, d: int)
    ensures DayOf(store, today, d).date == d
    ensures DayOf(store, today, d).future <==> d > today
    ensures DayOf(store, today, d).today <==> d == today
  {
  }

  /**
   Every day of a payload is dated in order from the first Monday on and shows, of the row
   and the legacy entry of its date, the larger minutes and the papers that are known.
   */
  lemma EveryDayShowsItsStores(store: Store, today: int, weeks: int, k: nat, day: Day, row: Row, e: Legacy)
    requires k < |PayloadOf(store, today, weeks).days| && day == PayloadOf(store, today, weeks).days[k]
    requires RowOfDate(store.rows, day.date, row) && EntryOfDate(store.legacy, day.date, e)
    ensures day.date == PayloadOf(store, today, weeks).range.start + k
    ensures (day.future <==> day.date > today) && (day.today <==> day.date == today)
    ensures ShowsTheLarger(day, row, e) && ShowsPapers(day, row, e)
  {
    var d := PayloadOf(store, today, weeks).range.start + k;
    PayloadDay(store, today, weeks, k);
    DayIsDated(store, today, d);
    DayShowsItsStores(store, today, d, row, e);
  }

  /** A date that neither store has is shown without minutes and without papers. */
  lemma UnknownDaysAreEmpty(store: Store, today: int, weeks: int, k: nat, day: Day)
    requires k < |PayloadOf(store, today, weeks).days| && day == PayloadOf(store, today, weeks).days[k]
    requires NoRow(store.rows, day.date) && day.date !in store.legacy
    ensures day == Day(day.date, 0, 0, false, false, day.date > today, day.date == today)
  {
    var d := PayloadOf(store, today, weeks).range.start + k;
    PayloadDay(store, today, weeks, k);
    DayIsDated(store, today, d);
    RowOnIs(store.rows, d);
    RowOfDateIsUnique(store.rows, d, Row(d, 0, 0, 0), RowOn(store.rows, d));
    TenthsAreExact(0);
  }

  // ---------------------------------------------------------------------- the summary

  lemma {:induction false} TotalAddsUp(a: seq<Day>, b: seq<Day>)
    ensures Total(a + b) == Total(a) + Total(b)
    decreases |b|
  {
    if b == [] {
      assert a + b == a;
    } else {
      assert (a + b)[..|a + b| - 1] == a + b[..|b| - 1];
      TotalAddsUp(a, b[..|b| - 1]);
    }
  }

  lemma {:induction false} WeekTotalAddsUp(a: seq<Day>, b: seq<Day>, today: int)
    ensures WeekTotal(a + b, today) == WeekTotal(a, today) + WeekTotal(b, today)
    decreases |b|
  {
    if b == [] {
      assert a + b == a;
    } else {
      assert (a + b)[..|a + b| - 1] == a + b[..|b| - 1];
      WeekTotalAddsUp(a, b[..|b| - 1], today);
    }
  }

  lemma {:induction false} ActiveDaysAddUp(a: seq<Day>, b: seq<Day>)
    ensures ActiveDays(a + b) == ActiveDays(a) + ActiveDays(b)
    decreases |b|
  {
    if b == [] {
      assert a + b == a;
    } else {
      assert (a + b)[..|a + b| - 1] == a + b[..|b| - 1];
      ActiveDaysAddUp(a, b[..|b| - 1]);
    }
  }

  /** The summary of days put together is the sum of their summaries. */
  lemma SummaryAddsUp(a: seq<Day>, b: seq<Day>, today: int)
    ensures SummaryOf(a + b, today).totalMinutes == SummaryOf(a, today).totalMinutes + SummaryOf(b, today).totalMinutes
    ensures SummaryOf(a + b, today).weekMinutes == SummaryOf(a, today).weekMinutes + SummaryOf(b, today).weekMinutes
    ensures SummaryOf(a + b, today).readingDays == SummaryOf(a, today).readingDays + SummaryOf(b, today).readingDays
  {
    TotalAddsUp(a, b);
    WeekTotalAddsUp(a, b, today);
    ActiveDaysAddUp(a, b);
  }

  lemma WeekBegins(monday: int, today: int)
    requires monday <= today < monday + 7 && monday % 7 == 1
    ensures today - Weekday(today) == monday
  {
  }

  /**
   One day counts in the total, in the week when it is from this Monday to today, and as
   a reading day when it has minutes. Day 1 is a Monday.
   */
  lemma SummaryOfOneDay(day: Day, monday: int, today: int)
    requires monday <= today < monday + 7 && monday % 7 == 1
    ensures SummaryOf([day], today)
         == Summary(day.minutes,
                    if monday <= day.date <= today then day.minutes else 0,
                    if day.minutes > 0 then 1 else 0)
  {
    assert [day][..0] == [];
    assert SummaryOf([], today) == Summary(0, 0, 0);
    WeekBegins(monday, today);
  }

  /** The payload of `w` weeks ends on this Sunday, and its summary is that of its days. */
  lemma PayloadSpansItsWeeks(store: Store, monday: int, today: int, weeks: int)
    requires monday <= today < monday + 7 && monday % 7 == 1
    ensures var p := PayloadOf(store, today, weeks);
            var w := if weeks < 1 then 1 else if weeks > 53 then 53 else weeks;
            && p.range == Range(monday - 7 * (w - 1), monday + 6, weeks) && |p.days| == 7 * w
            && p.summary == SummaryOf(p.days, today) && p.timezone == "Asia/Shanghai"
  {
    WeekBegins(monday, today);
  }
}
