/**
 From a global match number to one match of one page: `PdfSearch.scan`
 (frontend/src/pdfSearch.ts) lists the pages with their counts and `choose`
 (frontend/src/ReadingTools.tsx) walks that list.
 */
module PdfNavigation {
  import opened Common
  import opened ReadingSearch

  /** What loading one page of the document gives. */
  datatype Page = Text(items: seq<TextItem>) | Broken(message: string)

  datatype PageSearch = PageSearch(page: nat, count: nat, characters: nat, error: Option<string>)

  /** One open search: the document, the query and its sensitivity. */
  datatype Search = Search(tables: Tables, doc: seq<Page>, query: Str, sensitive: bool)

  /** All matches of one page; a page that cannot be read has none. */
  ghost function PageMatches(s: Search, p: Page): seq<Match> {
    match p
    case Text(items) => AllMatches(s.tables, items, s.query, s.sensitive)
    case Broken(_) => []
  }

  ghost function MatchesPerPage(s: Search): (per: seq<seq<Match>>)
    ensures |per| == |s.doc|
  {
    seq(|s.doc|, k requires 0 <= k < |s.doc| => PageMatches(s, s.doc[k]))
  }

  /** The matches of the first `upto` pages in reading order. */
  ghost function DocumentMatches(per: seq<seq<Match>>, upto: nat): seq<Match>
    requires upto <= |per|
  {
    if upto == 0 then [] else DocumentMatches(per, upto - 1) + per[upto - 1]
  }

  /** Row `k` describes page `k + 1`. */
  ghost predicate RowsOf(per: seq<seq<Match>>, pages: seq<PageSearch>) {
    && |pages| <= |per|
    && forall k :: 0 <= k < |pages| ==> pages[k].page == k + 1 && pages[k].count == |per[k]|
  }

  /** The length of the normalised text of a page. */
  function PageCharacters(s: Search, p: Page): nat {
    match p
    case Text(items) => |Trim(Units(Normalized(s.tables, s.sensitive, items)))|
    case Broken(_) => 0
  }

  /** The row for one page: a page that fails to load is listed with count 0 and its error. */
  method ScanPage(s: Search, k: nat) returns (row: PageSearch)
    requires k < |s.doc|
    ensures row.page == k + 1 && row.count == |MatchesPerPage(s)[k]|
    ensures row.characters == PageCharacters(s, s.doc[k])
    ensures row.error == if s.doc[k].Text? then None else Some(s.doc[k].message)
  {
    match s.doc[k]
    case Text(items) =>
      var count, _, characters := FindMatches(s.tables, items, s.query, s.sensitive, 0, 0);
      row := PageSearch(k + 1, count, characters, None);
    case Broken(message) =>
      row := PageSearch(k + 1, 0, 0, Some(message));
  }

  /**
   When the search is destroyed, if it is: before page `k + 1` is begun, or while it is
   searched, where the answer may still arrive.
   */
  datatype Stop = Never | Before(k: nat) | During(k: nat, answered: bool)

  /** How many pages get a row, and how many of these rows are shown. */
  function RowsUntil(s: Search, stop: Stop): nat {
    match stop
    case Never => |s.doc|
    case Before(k) => Min(k, |s.doc|)
    case During(k, answered) =>
      if k >= |s.doc| then |s.doc| else if answered && s.doc[k].Text? then k + 1 else k
  }

  function ShownUntil(s: Search, stop: Stop): nat {
    if stop.Never? then |s.doc| else Min(stop.k, |s.doc|)
  }

  lemma NextRow(per: seq<seq<Match>>, pages: seq<PageSearch>, row: PageSearch)
    requires RowsOf(per, pages) && |pages| < |per| && row.page == |pages| + 1 && row.count == |per[|pages|]|
    ensures RowsOf(per, pages + [row])
  {
  }

  /** `scan`: one row a page until the search is destroyed; every update shows the rows so far. */
  method Scan(s: Search, stop: Stop) returns (pages: seq<PageSearch>, updates: seq<seq<PageSearch>>)
    ensures RowsOf(MatchesPerPage(s), pages) && |pages| == RowsUntil(s, stop) && |updates| == ShownUntil(s, stop)
    ensures forall k :: 0 <= k < |updates| ==> k < |pages| && updates[k] == pages[..k + 1]
  {
    pages, updates := [], [];
    ghost var per := MatchesPerPage(s);
    var page := 0;
    while page < |s.doc| && stop != Before(page)
      invariant RowsOf(per, pages) && |pages| == |updates| == page <= |s.doc|
      invariant !stop.Never? ==> page <= stop.k
      invariant forall k :: 0 <= k < |updates| ==> updates[k] == pages[..k + 1]
    {
      var row := ScanPage(s, page);
      NextRow(per, pages, row);
      if stop.During? && stop.k == page {
        if stop.answered && s.doc[page].Text? { pages := pages + [row]; }
        return;
      }
      pages := pages + [row];
      updates := updates + [pages];
      page := page + 1;
    }
  }

  /** Number of matches on the listed pages. */
  function Total(pages: seq<PageSearch>): nat {
    if pages == [] then 0 else Total(pages[..|pages| - 1]) + pages[|pages| - 1].count
  }

  /** The remainder operator of JavaScript: it takes the sign of the dividend. */
  function JsRemainder(a: int, b: int): (r: int)
    requires b > 0
    ensures -b < r < b && (a >= 0 ==> r >= 0)
  {
    if a >= 0 then a % b else -((-a) % b)
  }

  /** The index that `choose` makes active. */
  function ActiveIndex(pages: seq<PageSearch>, index: int): int
    requires Total(pages) > 0
  {
    JsRemainder(index + Total(pages), Total(pages))
  }

  /** Neither so far below zero that the remainder turns negative, nor off a multiple of the total. */
  predicate Reduces(index: int, total: int)
    requires total > 0
  {
    index + total >= 0 || (index + total) % total == 0
  }

  lemma NegatedMultiple(a: int, b: int)
    requires b > 0
    ensures a % b == 0 <==> (-a) % b == 0
  {
    var q, r := a / b, a % b;
    assert a == b * q + r;
    if r == 0 {
      assert -a == b * -q + 0;
      QuotientIsUnique(-a, b, -q, 0);
    } else {
      assert -a == b * (-q - 1) + (b - r);
      QuotientIsUnique(-a, b, -q - 1, b - r);
    }
  }

  lemma QuotientIsUnique(a: int, b: int, q: int, r: int)
    requires b > 0 && 0 <= r < b && a == b * q + r
    ensures a % b == r
  {
    var d := a / b - q;
    assert b * d == r - a % b;
    assert d >= 1 ==> b * d >= b;
    assert d <= -1 ==> b * d <= -b;
  }

  /** The reduced index is a match number exactly under that condition. */
  lemma ActiveIndexInRangeIff(pages: seq<PageSearch>, index: int)
    requires Total(pages) > 0
    ensures 0 <= ActiveIndex(pages, index) < Total(pages) <==> Reduces(index, Total(pages))
  {
    NegatedMultiple(index + Total(pages), Total(pages));
  }

  /** The buttons ask for `active - 1` or `active + 1` with `active` at least -1; all of that reduces. */
  lemma ButtonsReduce(index: int, total: int)
    requires total > 0 && index >= -2
    ensures Reduces(index, total)
  {
    if total == 1 { QuotientIsUnique(index + 1, 1, index + 1, 0); }
  }

  /**
   A match number stays itself, "next" moves on by one and from the last match to the
   first, "previous" moves back by one and from the first to the last. Before anything is
   chosen (-1) "next" shows the first match and "previous" the last but one.
   */
  lemma NextAndPrevious(pages: seq<PageSearch>, i: int)
    requires Total(pages) > 0
    ensures 0 <= i < Total(pages) ==>
              && ActiveIndex(pages, i) == i
              && ActiveIndex(pages, i + 1) == (if i + 1 < Total(pages) then i + 1 else 0)
              && ActiveIndex(pages, i - 1) == if i == 0 then Total(pages) - 1 else i - 1
    ensures i == -1 ==>
              && ActiveIndex(pages, i + 1) == 0
              && ActiveIndex(pages, i - 1) == if Total(pages) == 1 then 0 else Total(pages) - 2
  {
    var n := Total(pages);
    if 0 <= i < n {
      QuotientIsUnique(i + n, n, 1, i);
      QuotientIsUnique(i + 1 + n, n, if i + 1 < n then 1 else 2, if i + 1 < n then i + 1 else 0);
      QuotientIsUnique(i - 1 + n, n, if i == 0 then 0 else 1, if i == 0 then n - 1 else i - 1);
    } else if i == -1 {
      QuotientIsUnique(n, n, 1, 0);
      if n == 1 {
        QuotientIsUnique(1, 1, 1, 0);
      } else {
        QuotientIsUnique(n - 2, n, 0, n - 2);
      }
    }
  }

  /** Global number `g` is match `k` of the page in row `row`. */
  ghost predicate Names(per: seq<seq<Match>>, pages: seq<PageSearch>, g: int, row: int, k: int) {
    0 <= row < |pages| <= |per| && 0 <= k < |per[row]| && g == Total(pages[..row]) + k
  }

  /** The call that `choose` makes on the page it found: one match from `skip` on. */
  method PageMatch(s: Search, row: nat, skip: int) returns (shown: Option<Match>)
    requires row < |s.doc|
    ensures 0 <= skip < |MatchesPerPage(s)[row]| ==> shown == Some(MatchesPerPage(s)[row][skip])
  {
    shown := None;
    if s.doc[row].Text? {
      var _, found, _ := FindMatches(s.tables, s.doc[row].items, s.query, s.sensitive, skip, 1);
      ghost var all := PageMatches(s, s.doc[row]);
      assert 0 <= skip < |all| ==> Window(all, skip, 1) == [all[skip]];
      if found != [] {
        shown := Some(found[0]);
      }
    }
  }

  /** The walk over the rows with its running start; `|pages|` when no row is picked. */
  method FindRow(pages: seq<PageSearch>, active: int) returns (row: nat, start: nat)
    ensures row <= |pages| && start == Total(pages[..row])
    ensures 0 <= active < Total(pages) ==> row < |pages| && start <= active
    ensures row < |pages| ==> active < start + pages[row].count
  {
    row, start := 0, 0;
    assert pages[..|pages|] == pages;
    while row < |pages| && !(active < start + pages[row].count)
      invariant row <= |pages| && start == Total(pages[..row])
      invariant 0 <= active ==> start <= active
    {
      assert pages[..row + 1][..row] == pages[..row];
      start := start + pages[row].count;
      row := row + 1;
    }
  }

  /** The document's match number `active`, with its page counted from 1. */
  ghost predicate ShowsNumber(per: seq<seq<Match>>, pages: seq<PageSearch>, active: int, page: nat,
                              shown: Option<Match>)
  {
    && |pages| <= |per|
    && 0 <= active < Total(pages) == |DocumentMatches(per, |pages|)|
    && shown == Some(DocumentMatches(per, |pages|)[active])
    && exists row, k :: Names(per, pages, active, row, k) && page == row + 1
  }

  /** The part of `choose` after the index has been reduced. */
  method Show(s: Search, pages: seq<PageSearch>, active: int) returns (page: nat, shown: Option<Match>)
    requires RowsOf(MatchesPerPage(s), pages)
    ensures 0 <= active < Total(pages) ==> ShowsNumber(MatchesPerPage(s), pages, active, page, shown)
  {
    page, shown := 0, None;
    var row, start := FindRow(pages, active);
    if row < |pages| {
      page := pages[row].page;
      shown := PageMatch(s, row, active - start);
    }
    if 0 <= active < Total(pages) {
      FoundMatch(MatchesPerPage(s), pages, active, row, start, page, shown);
    }
  }

  /**
   `choose` shows the match with the reduced number in the whole document exactly when
   the index reduces; otherwise the number is negative and names no match.
   */
  method Choose(s: Search, pages: seq<PageSearch>, index: int) returns (active: int, page: nat, shown: Option<Match>)
    requires RowsOf(MatchesPerPage(s), pages) && Total(pages) > 0
    ensures active == ActiveIndex(pages, index)
    ensures ShowsNumber(MatchesPerPage(s), pages, active, page, shown) <==> Reduces(index, Total(pages))
  {
    active := ActiveIndex(pages, index);
    ActiveIndexInRangeIff(pages, index);
    page, shown := Show(s, pages, active);
  }

  lemma FoundMatch(per: seq<seq<Match>>, pages: seq<PageSearch>, g: nat, row: nat, start: nat,
                   page: nat, shown: Option<Match>)
    requires RowsOf(per, pages) && g < Total(pages) && row < |pages|
    requires start == Total(pages[..row]) && start <= g < start + pages[row].count
    requires page == pages[row].page && shown == Some(per[row][g - start])
    ensures ShowsNumber(per, pages, g, page, shown)
  {
    assert Names(per, pages, g, row, g - start);
    NameIsPosition(per, pages, |pages|, g, row, g - start);
    AllListed(per, pages);
  }

  lemma AllListed(per: seq<seq<Match>>, pages: seq<PageSearch>)
    requires RowsOf(per, pages)
    ensures |pages| <= |per| && |DocumentMatches(per, |pages|)| == Total(pages)
  {
    DocumentLength(per, pages, |pages|);
    assert pages[..|pages|] == pages;
  }

  lemma {:induction false} DocumentLength(per: seq<seq<Match>>, pages: seq<PageSearch>, upto: nat)
    requires RowsOf(per, pages) && upto <= |pages|
    ensures |DocumentMatches(per, upto)| == Total(pages[..upto])
  {
    if upto > 0 {
      assert pages[..upto][..upto - 1] == pages[..upto - 1];
      DocumentLength(per, pages, upto - 1);
    }
  }

  lemma {:induction false} NameIsPosition(per: seq<seq<Match>>, pages: seq<PageSearch>, upto: nat,
                                          g: nat, row: nat, k: nat)
    requires RowsOf(per, pages) && row < upto <= |pages| && Names(per, pages, g, row, k)
    ensures g < |DocumentMatches(per, upto)| && DocumentMatches(per, upto)[g] == per[row][k]
  {
    DocumentLength(per, pages, upto - 1);
    if row < upto - 1 {
      NameIsPosition(per, pages, upto - 1, g, row, k);
    }
  }

  lemma {:induction false} TotalPrefix(pages: seq<PageSearch>, i: nat, j: nat)
    requires i < j <= |pages|
    ensures Total(pages[..i]) + pages[i].count <= Total(pages[..j])
    decreases j - i
  {
    assert pages[..j][..j - 1] == pages[..j - 1];
    if i < j - 1 {
      TotalPrefix(pages, i, j - 1);
    }
  }

  lemma {:induction false} NameExists(per: seq<seq<Match>>, pages: seq<PageSearch>, g: nat, upto: nat)
    requires RowsOf(per, pages) && upto <= |pages| && g < Total(pages[..upto])
    ensures exists row, k :: Names(per, pages, g, row, k)
  {
    assert pages[..upto][..upto - 1] == pages[..upto - 1];
    if g < Total(pages[..upto - 1]) {
      NameExists(per, pages, g, upto - 1);
    } else {
      assert Names(per, pages, g, upto - 1, g - Total(pages[..upto - 1]));
    }
  }

  /** Every global number below the total names one page and one of its matches, and only one. */
  lemma GlobalIndexPicksOneMatch(per: seq<seq<Match>>, pages: seq<PageSearch>, g: nat)
    requires RowsOf(per, pages) && g < Total(pages)
    ensures exists row, k :: Names(per, pages, g, row, k)
    ensures forall row, k, row', k' :: Names(per, pages, g, row, k) && Names(per, pages, g, row', k') ==>
              row == row' && k == k'
  {
    assert pages[..|pages|] == pages;
    NameExists(per, pages, g, |pages|);
    forall row, k, row', k' | Names(per, pages, g, row, k) && Names(per, pages, g, row', k')
      ensures row == row' && k == k'
    {
      if row < row' {
        TotalPrefix(pages, row, row');
      } else if row' < row {
        TotalPrefix(pages, row', row);
      }
    }
  }

  /** Conversely every match of every listed page has a global number. */
  lemma EveryMatchHasANumber(per: seq<seq<Match>>, pages: seq<PageSearch>, row: nat, k: nat)
    requires RowsOf(per, pages) && row < |pages| && k < |per[row]|
    ensures Total(pages[..row]) + k < Total(pages) && Names(per, pages, Total(pages[..row]) + k, row, k)
  {
    assert pages[..|pages|] == pages;
    TotalPrefix(pages, row, |pages|);
  }
}
