/**
 What the normalised text of a page is, told without the loops: every code point but soft
 hyphens through the Unicode tables, and runs of white space squeezed to one space. What a
 search finds follows from that text and the query alone.
 */
module ReadingSearchText {
  import opened Common
  import opened ReadingSearch
  import opened ReadingSearchTheorems

  /** A code point through NFKC and, unless the search is case-sensitive, through lower-casing. */
  function Image(t: Tables, sensitive: bool, cp: Str): Str {
    var compatible := t.nfkc(cp);
    if sensitive then compatible else t.lower(compatible)
  }

  /** What a code point adds: a soft hyphen nothing, any other its image. */
  function Adds(t: Tables, sensitive: bool, cp: Str): Str {
    if cp == [0xAD] then [] else Image(t, sensitive, cp)
  }

  function Images(t: Tables, sensitive: bool, cps: seq<Str>): Str {
    if cps == [] then [] else Adds(t, sensitive, cps[0]) + Images(t, sensitive, cps[1..])
  }

  /** White space becomes a space, and a space behind a space is dropped. */
  function Squeeze(s: Str): Str {
    if s == [] then []
    else
      var r, u := Squeeze(s[..|s| - 1]), if IsSpace(s[|s| - 1]) then 0x20 else s[|s| - 1];
      if u == 0x20 && r != [] && r[|r| - 1] == 0x20 then r else r + [u]
  }

  lemma SqueezeNext(s: Str, u: Unit)
    ensures var r, v := Squeeze(s), if IsSpace(u) then 0x20 else u;
            Squeeze(s + [u]) == if v == 0x20 && r != [] && r[|r| - 1] == 0x20 then r else r + [v]
  {
    assert (s + [u])[..|s|] == s;
  }

  lemma SqueezeWord(s: Str, ch: Str)
    requires |ch| == 2 && IsHigh(ch[0]) && IsLow(ch[1])
    ensures Squeeze(s + ch) == Squeeze(s) + ch
  {
    SqueezeNext(s, ch[0]);
    SqueezeNext(s + [ch[0]], ch[1]);
    assert s + ch == s + [ch[0]] + [ch[1]];
  }

  /** Emitting one character is squeezing it onto the text. */
  lemma EmitSqueezes(acc: seq<Glyph>, s: Str, ch: Str, c: Cell)
    requires Units(acc) == Squeeze(s) && ch != [] && CodePoints(ch) == [ch]
    ensures Units(Emit(acc, Part(ch), c)) == Squeeze(s + ch)
  {
    CodePointShape(ch, 0);
    EmitUnits(acc, Part(ch), c);
    assert |acc| == |Units(acc)|;
    if |ch| == 1 {
      assert ch == [ch[0]];
      SqueezeNext(s, ch[0]);
    } else {
      SqueezeWord(s, ch);
    }
  }

  lemma FirstIsOne(s: Str)
    requires s != []
    ensures CodePoints(s[..FirstLength(s)]) == [s[..FirstLength(s)]]
  {
    var ch := s[..FirstLength(s)];
    assert ch[..FirstLength(ch)] == ch && ch[FirstLength(ch)..] == [];
  }

  lemma {:induction false} EmitAllSqueezes(acc: seq<Glyph>, s: Str, folded: Str, c: Cell)
    requires Units(acc) == Squeeze(s)
    ensures Units(EmitAll(acc, CodePoints(folded), c)) == Squeeze(s + folded)
    decreases |folded|
  {
    if folded == [] {
      assert s + folded == s;
    } else {
      var n := FirstLength(folded);
      var ch, rest := folded[..n], folded[n..];
      FirstIsOne(folded);
      EmitSqueezes(acc, s, ch, c);
      EmitNext(acc, folded, c);
      EmitAllSqueezes(Emit(acc, Part(ch), c), s + ch, rest, c);
      assert s + folded == s + ch + rest;
    }
  }

  lemma AbsorbSqueezes(t: Tables, sensitive: bool, acc: seq<Glyph>, s: Str, c: Cell)
    requires Units(acc) == Squeeze(s)
    ensures Units(Absorb(t, sensitive, acc, c)) == Squeeze(s + Adds(t, sensitive, c.cp))
  {
    if c.cp == [0xAD] {
      assert s + [] == s;
    } else {
      EmitAllSqueezes(acc, s, Image(t, sensitive, c.cp), c);
    }
  }

  lemma {:induction false} RunSqueezes(t: Tables, sensitive: bool, acc: seq<Glyph>, s: Str, cells: seq<Cell>)
    requires Units(acc) == Squeeze(s)
    ensures Units(Run(t, sensitive, acc, cells)) == Squeeze(s + Images(t, sensitive, Cps(cells)))
    decreases |cells|
  {
    if cells == [] {
      assert s + [] == s;
    } else {
      var own, rest := Adds(t, sensitive, cells[0].cp), Images(t, sensitive, Cps(cells[1..]));
      AbsorbSqueezes(t, sensitive, acc, s, cells[0]);
      RunSqueezes(t, sensitive, Absorb(t, sensitive, acc, cells[0]), s + own, cells[1..]);
      ImagesOfCells(t, sensitive, cells);
      Associative(s, own, rest);
    }
  }

  lemma ImagesOfCells(t: Tables, sensitive: bool, cells: seq<Cell>)
    requires cells != []
    ensures Images(t, sensitive, Cps(cells))
         == Adds(t, sensitive, cells[0].cp) + Images(t, sensitive, Cps(cells[1..]))
  {
    assert Cps(cells)[1..] == Cps(cells[1..]);
  }

  lemma Associative(x: Str, y: Str, z: Str)
    ensures x + (y + z) == (x + y) + z
  {
  }

  /** The text of a list of code points. */
  function TextOf(t: Tables, sensitive: bool, cps: seq<Str>): Str {
    Squeeze(Images(t, sensitive, cps))
  }

  /** The normalised text of every page is the squeezed image of its code points. */
  lemma TextIsTheImage(t: Tables, sensitive: bool, items: seq<TextItem>)
    ensures Units(Normalized(t, sensitive, items)) == TextOf(t, sensitive, PageCodePoints(items))
  {
    RunSqueezes(t, sensitive, [], [], Cells(items, 0));
    CpsOfCells(items, 0);
    assert items[0..] == items;
    assert [] + Images(t, sensitive, PageCodePoints(items)) == Images(t, sensitive, PageCodePoints(items));
  }

  // ------------------------------------------------------------------ the needle

  predicate Blank(s: Str) { forall k :: 0 <= k < |s| ==> IsSpace(s[k]) }

  /** Neither empty nor with white space at an end. */
  predicate Firm(s: Str) { s != [] && !IsSpace(s[0]) && !IsSpace(s[|s| - 1]) }

  lemma {:induction false} TrimStartOf(l: Str, x: Str)
    requires Blank(l) && (x == [] || !IsSpace(x[0]))
    ensures TrimStart(l + x) == x
    decreases |l|
  {
    if l == [] { assert l + x == x; } else {
      assert (l + x)[1..] == l[1..] + x;
      TrimStartOf(l[1..], x);
    }
  }

  lemma {:induction false} TrimEndOf(x: Str, r: Str)
    requires Blank(r) && (x == [] || !IsSpace(x[|x| - 1]))
    ensures TrimEnd(x + r) == x
    decreases |r|
  {
    if r == [] { assert x + r == x; } else {
      assert (x + r)[..|x + r| - 1] == x + r[..|r| - 1];
      TrimEndOf(x, r[..|r| - 1]);
    }
  }

  /** Trimming takes the white space off both ends and nothing else. */
  lemma TrimTakesTheEnds(l: Str, x: Str, r: Str)
    requires Blank(l) && Blank(r)
    ensures Firm(x) ==> Trim(l + x + r) == x
    ensures x == [] ==> Trim(l + x + r) == []
  {
    if Firm(x) {
      assert l + x + r == l + (x + r);
      TrimStartOf(l, x + r);
      TrimEndOf(x, r);
    } else if x == [] {
      TrimStartOf(l + x + r, []);
      assert l + x + r + [] == l + x + r;
    }
  }

  // ------------------------------------------------------- what the answer depends on

  /** The trimmed text of the query is looked for. */
  lemma NeedleIsTheImage(t: Tables, query: Str, sensitive: bool)
    ensures Needle(t, query, sensitive) == Trim(TextOf(t, sensitive, CodePoints(query)))
  {
    TextIsTheImage(t, sensitive, [TextItem(query, false)]);
    PageCodePointsOne(TextItem(query, false));
    assert query + [] == query;
  }

  /** Two lists of code points that the tables do not tell apart. */
  ghost predicate Alike(t: Tables, sensitive: bool, x: seq<Str>, y: seq<Str>) {
    && |x| == |y|
    && forall k :: 0 <= k < |x| ==> AlikeAt(t, sensitive, x[k], y[k])
  }

  predicate AlikeAt(t: Tables, sensitive: bool, c: Str, d: Str) {
    if c == [SOFT_HYPHEN] || d == [SOFT_HYPHEN] then c == d
    else if sensitive then t.nfkc(c) == t.nfkc(d)
    else t.lower(t.nfkc(c)) == t.lower(t.nfkc(d))
  }

  lemma {:induction false} AlikeImages(t: Tables, sensitive: bool, x: seq<Str>, y: seq<Str>)
    requires Alike(t, sensitive, x, y)
    ensures Images(t, sensitive, x) == Images(t, sensitive, y)
    decreases |x|
  {
    if x != [] {
      assert AlikeAt(t, sensitive, x[0], y[0]);
      AlikeRest(t, sensitive, x, y);
      AlikeImages(t, sensitive, x[1..], y[1..]);
    }
  }

  lemma AlikeRest(t: Tables, sensitive: bool, x: seq<Str>, y: seq<Str>)
    requires Alike(t, sensitive, x, y) && x != []
    ensures Alike(t, sensitive, x[1..], y[1..])
  {
    forall k | 0 <= k < |x| - 1 ensures AlikeAt(t, sensitive, x[1..][k], y[1..][k]) {
      assert AlikeAt(t, sensitive, x[k + 1], y[k + 1]);
    }
  }

  /** Pages and queries that the tables do not tell apart give the same text and the same number of matches. */
  lemma AlikePagesAnswerAlike(t: Tables, sensitive: bool, items: seq<TextItem>, items': seq<TextItem>,
                              query: Str, query': Str)
    requires Alike(t, sensitive, PageCodePoints(items), PageCodePoints(items'))
    requires Alike(t, sensitive, CodePoints(query), CodePoints(query'))
    ensures Units(Normalized(t, sensitive, items)) == Units(Normalized(t, sensitive, items'))
    ensures |AllMatches(t, items, query, sensitive)| == |AllMatches(t, items', query', sensitive)|
  {
    AlikeImages(t, sensitive, PageCodePoints(items), PageCodePoints(items'));
    AlikeImages(t, sensitive, CodePoints(query), CodePoints(query'));
    TextIsTheImage(t, sensitive, items);
    TextIsTheImage(t, sensitive, items');
    NeedleIsTheImage(t, query, sensitive);
    NeedleIsTheImage(t, query', sensitive);
  }

  /** A case-sensitive search never consults the case table. */
  lemma SensitiveIgnoresCases(nfkc: Str -> Str, lower: Str -> Str, lower': Str -> Str, items: seq<TextItem>, query: Str)
    ensures Normalized(Tables(nfkc, lower), true, items) == Normalized(Tables(nfkc, lower'), true, items)
    ensures AllMatches(Tables(nfkc, lower), items, query, true) == AllMatches(Tables(nfkc, lower'), items, query, true)
  {
    SensitiveRun(Tables(nfkc, lower), Tables(nfkc, lower'), [], Cells(items, 0));
    SensitiveRun(Tables(nfkc, lower), Tables(nfkc, lower'), [], Cells([TextItem(query, false)], 0));
  }

  lemma {:induction false} SensitiveRun(t: Tables, t': Tables, acc: seq<Glyph>, cells: seq<Cell>)
    requires t.nfkc == t'.nfkc
    ensures Run(t, true, acc, cells) == Run(t', true, acc, cells)
    decreases |cells|
  {
    if cells != [] { SensitiveRun(t, t', Absorb(t, true, acc, cells[0]), cells[1..]); }
  }

  lemma {:induction false} TrimStartParts(s: Str) returns (l: Str)
    ensures s == l + TrimStart(s) && Blank(l) && (TrimStart(s) == [] || !IsSpace(TrimStart(s)[0]))
    decreases |s|
  {
    l := [];
    if s != [] && IsSpace(s[0]) {
      l := TrimStartParts(s[1..]);
      l := [s[0]] + l;
    }
  }

  lemma {:induction false} TrimEndParts(s: Str) returns (r: Str)
    ensures s == TrimEnd(s) + r && Blank(r)
    decreases |s|
  {
    r := [];
    if s != [] && IsSpace(s[|s| - 1]) {
      r := TrimEndParts(s[..|s| - 1]);
      r := r + [s[|s| - 1]];
    }
  }

  lemma TrimParts(s: Str) returns (l: Str, r: Str)
    ensures s == l + Trim(s) + r && Blank(l) && Blank(r) && (Trim(s) == [] || Firm(Trim(s)))
  {
    l := TrimStartParts(s);
    r := TrimEndParts(TrimStart(s));
  }

  /** What is looked for is the text of the query without the white space at its ends. */
  lemma NeedleIsTheMiddle(t: Tables, query: Str, sensitive: bool) returns (l: Str, r: Str)
    ensures TextOf(t, sensitive, CodePoints(query)) == l + Needle(t, query, sensitive) + r
    ensures Blank(l) && Blank(r) && (Needle(t, query, sensitive) == [] || Firm(Needle(t, query, sensitive)))
  {
    NeedleIsTheImage(t, query, sensitive);
    l, r := TrimParts(TextOf(t, sensitive, CodePoints(query)));
  }

  // --------------------------------------------------------------- what a match is

  lemma UptoIsTheImage(t: Tables, sensitive: bool, cells: seq<Cell>, a: nat)
    requires a <= |cells|
    ensures Units(Upto(t, sensitive, cells, a)) == TextOf(t, sensitive, Cps(cells)[..a])
  {
    RunSqueezes(t, sensitive, [], [], cells[..a]);
    assert Cps(cells[..a]) == Cps(cells)[..a];
    assert [] + Images(t, sensitive, Cps(cells)[..a]) == Images(t, sensitive, Cps(cells)[..a]);
  }

  /** Code point `a` is the one whose image has unit `p` of the text. */
  predicate Yields(t: Tables, sensitive: bool, cps: seq<Str>, a: nat, p: nat) {
    a < |cps| && |TextOf(t, sensitive, cps[..a])| <= p < |TextOf(t, sensitive, cps[..a + 1])|
  }

  /**
   The source between the two places of `m` holds the code points from the one that yields
   unit `p` of the text to the one that yields the last unit of the needle there.
   */
  ghost predicate IsExact(t: Tables, sensitive: bool, items: seq<TextItem>, needle: Str, m: Match,
                          p: nat, a: nat, b: nat)
  {
    && needle != [] && OccursAt(TextOf(t, sensitive, PageCodePoints(items)), needle, p)
    && a <= b && Yields(t, sensitive, PageCodePoints(items), a, p)
    && Yields(t, sensitive, PageCodePoints(items), b, p + |needle| - 1)
    && HoldsExactly(items, m, PageCodePoints(items)[a..b + 1])
  }

  /** The source between the two places of `m` holds exactly `cps`. */
  ghost predicate HoldsExactly(items: seq<TextItem>, m: Match, cps: seq<Str>) {
    && m.startItem <= m.endItem < |items|
    && m.startOffset <= |items[m.startItem].str| && m.endOffset <= |items[m.endItem].str|
    && (m.startItem == m.endItem ==> m.startOffset <= m.endOffset)
    && PageCodePoints(SourceSlice(items, m.startItem, m.startOffset, m.endItem, m.endOffset)) == cps
  }

  lemma CellsHoldExactly(items: seq<TextItem>, m: Match, c: Cell, d: Cell, cps: seq<Str>)
    requires SliceHolds(items, c, d, cps)
    requires m.startItem == c.item && m.startOffset == c.start && m.endItem == d.item && m.endOffset == d.end
    ensures HoldsExactly(items, m, cps)
  {
  }

  lemma CpsOfPage(items: seq<TextItem>)
    ensures Cps(Cells(items, 0)) == PageCodePoints(items)
  {
    CpsOfCells(items, 0);
    assert items[0..] == items;
  }

  /** Every match is exact: no more of the source, and no less. */
  lemma EveryMatchIsExact(t: Tables, items: seq<TextItem>, query: Str, sensitive: bool, k: nat)
    returns (p: nat, a: nat, b: nat)
    requires t.KeepNewline() && k < |AllMatches(t, items, query, sensitive)|
    ensures IsExact(t, sensitive, items, Needle(t, query, sensitive),
                    AllMatches(t, items, query, sensitive)[k], p, a, b)
  {
    var needle, g := Needle(t, query, sensitive), Normalized(t, sensitive, items);
    PositionsOccur(Units(g), needle, 0, k);
    p := Positions(Units(g), needle, 0)[k];
    a, b := PlaceIsExact(t, items, needle, sensitive, p);
  }

  lemma PlaceIsExact(t: Tables, items: seq<TextItem>, needle: Str, sensitive: bool, p: nat) returns (a: nat, b: nat)
    requires t.KeepNewline() && needle != [] && !IsSpace(needle[|needle| - 1])
    requires OccursAt(Units(Normalized(t, sensitive, items)), needle, p)
    ensures IsExact(t, sensitive, items, needle, MatchAt(Normalized(t, sensitive, items), needle, p), p, a, b)
  {
    a, b := MatchCells(t, sensitive, items, needle, p);
    var last := p + |needle| - 1;
    FromCells(t, items, needle, sensitive, p, last, a, b);
  }

  lemma FromCells(t: Tables, items: seq<TextItem>, needle: Str, sensitive: bool, p: nat, last: nat, a: nat, b: nat)
    requires needle != [] && OccursAt(Units(Normalized(t, sensitive, items)), needle, p) && a <= b
    requires last == p + |needle| - 1
    requires ComesFrom(t, sensitive, Cells(items, 0), p, a)
    requires ComesFrom(t, sensitive, Cells(items, 0), last, b) && Cells(items, 0)[b].cp != [NEWLINE]
    ensures IsExact(t, sensitive, items, needle, MatchAt(Normalized(t, sensitive, items), needle, p), p, a, b)
  {
    PlaceHoldsExactly(t, items, needle, sensitive, p, a, b);
    OccursOnPage(t, items, needle, sensitive, p);
    PageYields(t, sensitive, items, p, a);
    PageYields(t, sensitive, items, last, b);
  }

  lemma OccursOnPage(t: Tables, items: seq<TextItem>, needle: Str, sensitive: bool, p: nat)
    requires OccursAt(Units(Normalized(t, sensitive, items)), needle, p)
    ensures OccursAt(TextOf(t, sensitive, PageCodePoints(items)), needle, p)
  {
    TextIsTheImage(t, sensitive, items);
  }

  lemma PageYields(t: Tables, sensitive: bool, items: seq<TextItem>, p: nat, a: nat)
    requires ComesFrom(t, sensitive, Cells(items, 0), p, a)
    ensures Yields(t, sensitive, PageCodePoints(items), a, p)
  {
    CpsOfPage(items);
    CellYields(t, sensitive, Cells(items, 0), p, a);
  }

  lemma PlaceHoldsExactly(t: Tables, items: seq<TextItem>, needle: Str, sensitive: bool, p: nat, a: nat, b: nat)
    requires needle != [] && p + |needle| <= |Normalized(t, sensitive, items)| && a <= b
    requires ComesFrom(t, sensitive, Cells(items, 0), p, a)
    requires ComesFrom(t, sensitive, Cells(items, 0), p + |needle| - 1, b) && Cells(items, 0)[b].cp != [NEWLINE]
    ensures b < |PageCodePoints(items)|
    ensures HoldsExactly(items, MatchAt(Normalized(t, sensitive, items), needle, p), PageCodePoints(items)[a..b + 1])
  {
    CpsOfPage(items);
    SliceCodePoints(items, 0, a, b);
    MatchEnds(t, sensitive, items, needle, p, a, b);
    CellsHoldExactly(items, MatchAt(Normalized(t, sensitive, items), needle, p),
                     Cells(items, 0)[a], Cells(items, 0)[b], Cps(Cells(items, 0))[a..b + 1]);
  }

  lemma CellYields(t: Tables, sensitive: bool, cells: seq<Cell>, p: nat, a: nat)
    requires ComesFrom(t, sensitive, cells, p, a)
    ensures Yields(t, sensitive, Cps(cells), a, p)
  {
    UptoIsTheImage(t, sensitive, cells, a);
    UptoIsTheImage(t, sensitive, cells, a + 1);
  }

  /** `m` shows what stands at `p` with the 45 units before it and the 70 behind it, as far as there are any. */
  predicate ShowsContext(m: Match, text: Str, p: nat) {
    && p + |m.text| <= |text| && |m.before| == Min(45, p) && |m.after| == Min(70, |text| - p - |m.text|)
    && m.before + m.text + m.after == text[p - |m.before|..p + |m.text| + |m.after|]
  }

  lemma EveryMatchShowsContext(t: Tables, items: seq<TextItem>, query: Str, sensitive: bool, k: nat) returns (p: nat)
    requires k < |AllMatches(t, items, query, sensitive)|
    ensures ShowsContext(AllMatches(t, items, query, sensitive)[k], TextOf(t, sensitive, PageCodePoints(items)), p)
  {
    var needle, g := Needle(t, query, sensitive), Normalized(t, sensitive, items);
    PositionsOccur(Units(g), needle, 0, k);
    p := Positions(Units(g), needle, 0)[k];
    TextIsTheImage(t, sensitive, items);
    PlaceShowsContext(g, needle, p);
  }

  lemma PlaceShowsContext(g: seq<Glyph>, needle: Str, p: nat)
    requires needle != [] && OccursAt(Units(g), needle, p)
    ensures ShowsContext(MatchAt(g, needle, p), Units(g), p)
  {
    InContext(Units(g), needle, p);
  }

  lemma InContext(text: Str, needle: Str, p: nat)
    requires OccursAt(text, needle, p)
    ensures var n := |needle|;
            text[Max(0, p - 45)..p] + needle + text[p + n..Min(p + n + 70, |text|)]
            == text[Max(0, p - 45)..Min(p + n + 70, |text|)]
  {
    assert needle == text[p..p + |needle|];
  }

  /** Consecutive pages of results join up, and the first page of the full size is everything. */
  lemma WindowsJoin<T>(all: seq<T>, skip: nat, size: nat, size': nat)
    ensures Window(all, skip, size) + Window(all, skip + size, size') == Window(all, skip, size + size')
    ensures Window(all, 0, |all|) == all && |Window(all, skip, size)| <= size
  {
  }
}
