/**
 What `normalizeItems` and `findMatches` promise: the text depends only on the
 code points, the offset arrays are ordered and in range, every match maps back to
 source text that contains the needle, and the scan finds as many disjoint
 occurrences as there can be.
 */
module ReadingSearchTheorems {
  import opened Common
  import opened ReadingSearch

  // ------------------------------------------------------ independence of splits

  function Cps(cells: seq<Cell>): (cps: seq<Str>)
    ensures |cps| == |cells|
  {
    seq(|cells|, k requires 0 <= k < |cells| => cells[k].cp)
  }

  /** All code points of the page, end-of-line feeds included. */
  function PageCodePoints(items: seq<TextItem>): seq<Str> {
    if items == [] then [] else CodePoints(Source(items[0])) + PageCodePoints(items[1..])
  }

  lemma {:induction false} CpsOfCellsFrom(cps: seq<Str>, index: nat, at: nat, limit: nat)
    ensures Cps(CellsFrom(cps, index, at, limit)) == cps
  {
    if cps != [] { CpsOfCellsFrom(cps[1..], index, at + |cps[0]|, limit); }
  }

  lemma {:induction false} CpsOfCells(items: seq<TextItem>, k: nat)
    requires k <= |items|
    ensures Cps(Cells(items, k)) == PageCodePoints(items[k..])
    decreases |items| - k
  {
    if k < |items| {
      CpsOfCells(items, k + 1);
      CpsOfCellsFrom(CodePoints(Source(items[k])), k, 0, |items[k].str|);
      assert items[k..][1..] == items[k + 1..];
    }
  }

  lemma EmitUnits(acc: seq<Glyph>, part: Str, c: Cell)
    ensures Units(Emit(acc, part, c))
         == if part == [SPACE] && acc != [] && Units(acc)[|acc| - 1] == SPACE then Units(acc) else Units(acc) + part
  {
    assert Units(acc + Stamp(part, c)) == Units(acc) + part;
  }

  lemma {:induction false} SameTextChars(acc1: seq<Glyph>, acc2: seq<Glyph>, chars: seq<Str>, c1: Cell, c2: Cell)
    requires Units(acc1) == Units(acc2)
    ensures Units(EmitAll(acc1, chars, c1)) == Units(EmitAll(acc2, chars, c2))
    decreases |chars|
  {
    if chars != [] {
      var p := Part(chars[0]);
      EmitUnits(acc1, p, c1);
      EmitUnits(acc2, p, c2);
      assert |acc1| == |Units(acc1)| == |Units(acc2)| == |acc2|;
      SameTextChars(Emit(acc1, p, c1), Emit(acc2, p, c2), chars[1..], c1, c2);
    }
  }

  lemma {:induction false} SameText(t: Tables, sensitive: bool,
                                    acc1: seq<Glyph>, acc2: seq<Glyph>, cells1: seq<Cell>, cells2: seq<Cell>)
    requires Units(acc1) == Units(acc2) && Cps(cells1) == Cps(cells2)
    ensures Units(Run(t, sensitive, acc1, cells1)) == Units(Run(t, sensitive, acc2, cells2))
    decreases |cells1|
  {
    assert |cells1| == |Cps(cells1)| == |cells2|;
    if cells1 != [] {
      var c1, c2 := cells1[0], cells2[0];
      assert c1.cp == Cps(cells1)[0] == Cps(cells2)[0] == c2.cp;
      if c1.cp != [SOFT_HYPHEN] {
        SameTextChars(acc1, acc2, CodePoints(Folded(t, sensitive, c1.cp)), c1, c2);
      }
      assert Cps(cells1[1..]) == Cps(cells1)[1..] == Cps(cells2)[1..] == Cps(cells2[1..]);
      SameText(t, sensitive, Absorb(t, sensitive, acc1, c1), Absorb(t, sensitive, acc2, c2), cells1[1..], cells2[1..]);
    }
  }

  /** However the same code points are split into items, the normalised text is the same. */
  lemma SplitIndependence(t: Tables, sensitive: bool, items1: seq<TextItem>, items2: seq<TextItem>)
    requires PageCodePoints(items1) == PageCodePoints(items2)
    ensures Units(Normalized(t, sensitive, items1)) == Units(Normalized(t, sensitive, items2))
  {
    CpsOfCells(items1, 0);
    CpsOfCells(items2, 0);
    assert items1[0..] == items1 && items2[0..] == items2;
    SameText(t, sensitive, [], [], Cells(items1, 0), Cells(items2, 0));
  }

  // ----------------------------------------------------- where a glyph comes from

  /** The glyph carries the place of the cell. */
  predicate StampedBy(g: Glyph, c: Cell) {
    g.item == c.item && g.start == c.start && g.end == c.end
  }

  ghost predicate AllStamped(g: seq<Glyph>, from: nat, c: Cell) {
    forall k :: from <= k < |g| ==> StampedBy(g[k], c)
  }

  lemma {:induction false} EmitAllExtends(acc: seq<Glyph>, chars: seq<Str>, c: Cell)
    ensures acc <= EmitAll(acc, chars, c)
    ensures AllStamped(EmitAll(acc, chars, c), |acc|, c)
    decreases |chars|
  {
    if chars != [] {
      EmitAllExtends(Emit(acc, Part(chars[0]), c), chars[1..], c);
    }
  }

  /** The glyphs produced by the first `a` cells. */
  function Upto(t: Tables, sensitive: bool, cells: seq<Cell>, a: nat): seq<Glyph>
    requires a <= |cells|
  {
    Run(t, sensitive, [], cells[..a])
  }

  lemma UptoNext(t: Tables, sensitive: bool, cells: seq<Cell>, a: nat)
    requires a < |cells|
    ensures Upto(t, sensitive, cells, a + 1) == Absorb(t, sensitive, Upto(t, sensitive, cells, a), cells[a])
    ensures Upto(t, sensitive, cells, a) <= Upto(t, sensitive, cells, a + 1)
    ensures AllStamped(Upto(t, sensitive, cells, a + 1), |Upto(t, sensitive, cells, a)|, cells[a])
  {
    var acc := Upto(t, sensitive, cells, a);
    assert cells[..a + 1] == cells[..a] + [cells[a]];
    RunAppend(t, sensitive, [], cells[..a], [cells[a]]);
    assert [cells[a]][1..] == [];
    assert Run(t, sensitive, acc, [cells[a]]) == Run(t, sensitive, Absorb(t, sensitive, acc, cells[a]), []);
    EmitAllExtends(acc, CodePoints(Folded(t, sensitive, cells[a].cp)), cells[a]);
  }

  lemma {:induction false} UptoMonotone(t: Tables, sensitive: bool, cells: seq<Cell>, a: nat, b: nat)
    requires a <= b <= |cells|
    ensures Upto(t, sensitive, cells, a) <= Upto(t, sensitive, cells, b)
    decreases b - a
  {
    if a < b {
      UptoNext(t, sensitive, cells, b - 1);
      UptoMonotone(t, sensitive, cells, a, b - 1);
    }
  }

  /** Cell `a` of the page produced glyph `p`. */
  ghost predicate ComesFrom(t: Tables, sensitive: bool, cells: seq<Cell>, p: nat, a: nat) {
    && a < |cells|
    && |Upto(t, sensitive, cells, a)| <= p < |Upto(t, sensitive, cells, a + 1)| <= |Upto(t, sensitive, cells, |cells|)|
    && StampedBy(Upto(t, sensitive, cells, |cells|)[p], cells[a])
  }

  lemma {:induction false} Origin(t: Tables, sensitive: bool, cells: seq<Cell>, p: nat, n: nat) returns (a: nat)
    requires n <= |cells| && p < |Upto(t, sensitive, cells, n)|
    ensures a < n && ComesFrom(t, sensitive, cells, p, a)
    decreases n
  {
    UptoNext(t, sensitive, cells, n - 1);
    if p < |Upto(t, sensitive, cells, n - 1)| {
      a := Origin(t, sensitive, cells, p, n - 1);
    } else {
      a := n - 1;
      UptoMonotone(t, sensitive, cells, n, |cells|);
    }
  }

  lemma OriginsOrdered(t: Tables, sensitive: bool, cells: seq<Cell>, p: nat, q: nat, a: nat, b: nat)
    requires p <= q && ComesFrom(t, sensitive, cells, p, a) && ComesFrom(t, sensitive, cells, q, b)
    ensures a <= b
  {
    if b < a {
      UptoMonotone(t, sensitive, cells, b + 1, a);
    }
  }

  // ------------------------------------------------------------- offset arrays

  ghost predicate LexLe(i: nat, x: nat, j: nat, y: nat) {
    i < j || (i == j && x <= y)
  }

  /** The length of the first `j` code points. */
  function LengthOf(cps: seq<Str>, j: nat): nat
    requires j <= |cps|
  {
    if j == 0 then 0 else |cps[0]| + LengthOf(cps[1..], j - 1)
  }

  lemma {:induction false} OffsetIsLength(s: Str, j: nat)
    requires j <= |CodePoints(s)|
    ensures Offset(s, j) == LengthOf(CodePoints(s), j)
  {
    if j > 0 {
      FrontCodePoint(s, j);
      OffsetIsLength(s[FirstLength(s)..], j - 1);
    }
  }

  lemma {:induction false} CellsFromAt(cps: seq<Str>, index: nat, at: nat, limit: nat, j: nat)
    requires j < |cps|
    ensures CellsFrom(cps, index, at, limit)[j]
         == Cell(cps[j], index, Min(at + LengthOf(cps, j), limit), Min(at + LengthOf(cps, j + 1), limit))
    decreases j
  {
    assert LengthOf(cps, j + 1) == |cps[0]| + LengthOf(cps[1..], j);
    if j > 0 {
      CellsFromAt(cps[1..], index, at + |cps[0]|, limit, j - 1);
    }
  }

  lemma ItemCellOffsets(s: Str, index: nat, limit: nat, j: nat)
    requires j < |CodePoints(s)|
    ensures CellsFrom(CodePoints(s), index, 0, limit)[j]
         == Cell(CodePoints(s)[j], index, Min(Offset(s, j), limit), Min(Offset(s, j + 1), limit))
    ensures Offset(s, j) < Offset(s, j + 1) <= |s|
  {
    CellsFromAt(CodePoints(s), index, 0, limit, j);
    OffsetIsLength(s, j);
    OffsetIsLength(s, j + 1);
    OffsetNext(s, j);
  }

  lemma {:induction false} OffsetsIncrease(s: Str, i: nat, j: nat)
    requires i <= j <= |CodePoints(s)|
    ensures Offset(s, i) <= Offset(s, j)
    decreases j - i
  {
    if i < j {
      OffsetNext(s, j - 1);
      OffsetsIncrease(s, i, j - 1);
    }
  }

  lemma CellAt(items: seq<TextItem>, k: nat, a: nat)
    requires k < |items| && a < |Cells(items, k)|
    ensures var n := |ItemCells(items[k], k)|;
            && |Cells(items, k)| == n + |Cells(items, k + 1)|
            && Cells(items, k)[a] == if a < n then ItemCells(items[k], k)[a] else Cells(items, k + 1)[a - n]
  {
  }

  lemma {:induction false} CellInRange(items: seq<TextItem>, k: nat, a: nat)
    requires k <= |items| && a < |Cells(items, k)|
    ensures var c := Cells(items, k)[a];
            k <= c.item < |items| && c.start <= c.end <= |items[c.item].str|
    decreases |items| - k
  {
    var own := ItemCells(items[k], k);
    if a < |own| {
      ItemCellOffsets(Source(items[k]), k, |items[k].str|, a);
    } else {
      CellInRange(items, k + 1, a - |own|);
    }
  }

  ghost predicate CellLe(c: Cell, d: Cell) {
    LexLe(c.item, c.start, d.item, d.start) && LexLe(c.item, c.end, d.item, d.end)
  }

  /** A cell between two offsets of its item, clipped to the text before a line end. */
  predicate Spans(c: Cell, k: nat, x: nat, y: nat, limit: nat) {
    c.item == k && c.start == Min(x, limit) && c.end == Min(y, limit)
  }

  lemma SpansOrdered(c: Cell, d: Cell, k: nat, x: nat, x': nat, y: nat, y': nat, limit: nat)
    requires Spans(c, k, x, x', limit) && Spans(d, k, y, y', limit) && x <= y && x' <= y'
    ensures CellLe(c, d)
  {
  }

  lemma OwnCellSpans(v: TextItem, k: nat, a: nat)
    requires a < |CodePoints(Source(v))| == |ItemCells(v, k)|
    ensures Spans(ItemCells(v, k)[a], k, Offset(Source(v), a), Offset(Source(v), a + 1), |v.str|)
  {
    ItemCellOffsets(Source(v), k, |v.str|, a);
  }

  lemma OwnCellsOrdered(v: TextItem, k: nat, a: nat, b: nat)
    requires a <= b < |CodePoints(Source(v))| == |ItemCells(v, k)|
    ensures CellLe(ItemCells(v, k)[a], ItemCells(v, k)[b])
  {
    var s := Source(v);
    OwnCellSpans(v, k, a);
    OwnCellSpans(v, k, b);
    OffsetsIncrease(s, a, b);
    OffsetsIncrease(s, a + 1, b + 1);
    SpansOrdered(ItemCells(v, k)[a], ItemCells(v, k)[b], k, Offset(s, a), Offset(s, a + 1),
                 Offset(s, b), Offset(s, b + 1), |v.str|);
  }

  lemma {:induction false} CellsOrdered(items: seq<TextItem>, k: nat, a: nat, b: nat)
    requires k <= |items| && a <= b < |Cells(items, k)|
    ensures CellLe(Cells(items, k)[a], Cells(items, k)[b])
    decreases |items| - k
  {
    var n := |ItemCells(items[k], k)|;
    CellAt(items, k, a);
    CellAt(items, k, b);
    if a >= n {
      CellsOrdered(items, k + 1, a - n, b - n);
    } else if b < n {
      OwnCellsOrdered(items[k], k, a, b);
    } else {
      ItemCellOffsets(Source(items[k]), k, |items[k].str|, a);
      CellInRange(items, k + 1, b - n);
    }
  }

  /** The arrays stay inside their items and never step back. */
  lemma OffsetArraysOrdered(t: Tables, sensitive: bool, items: seq<TextItem>, p: nat, q: nat)
    requires p <= q < |Normalized(t, sensitive, items)|
    ensures var g, h := Normalized(t, sensitive, items)[p], Normalized(t, sensitive, items)[q];
            && g.item < |items| && g.start <= g.end <= |items[g.item].str|
            && LexLe(g.item, g.start, h.item, h.start)
            && LexLe(g.item, g.end, h.item, h.end)
  {
    var cells := Cells(items, 0);
    assert cells[..|cells|] == cells;
    var a := Origin(t, sensitive, cells, p, |cells|);
    var b := Origin(t, sensitive, cells, q, |cells|);
    OriginsOrdered(t, sensitive, cells, p, q, a, b);
    CellInRange(items, 0, a);
    CellsOrdered(items, 0, a, b);
  }

  // ------------------------------------------------- a match maps back to its text

  /** The source text between two mapped places, as items of its own. */
  function SourceSlice(items: seq<TextItem>, si: nat, so: nat, ei: nat, eo: nat): seq<TextItem>
    requires si <= ei < |items| && so <= |items[si].str| && eo <= |items[ei].str|
    requires si == ei ==> so <= eo
  {
    if si == ei then [TextItem(items[si].str[so..eo], false)]
    else [TextItem(items[si].str[so..], items[si].hasEOL)] + items[si + 1..ei]
         + [TextItem(items[ei].str[..eo], false)]
  }

  /** A cell that is not a line feed ends inside the string of its item. */
  lemma CellEndsInside(v: TextItem, j: nat)
    requires j < |CodePoints(Source(v))| && CodePoints(Source(v))[j] != [NEWLINE]
    ensures Offset(Source(v), j) < Offset(Source(v), j + 1) <= |v.str|
  {
    var s := Source(v);
    OffsetNext(s, j);
    CodePointShape(s, j);
  }

  lemma TailCodePoints(v: TextItem, a: nat)
    requires a < |CodePoints(Source(v))|
    ensures Offset(Source(v), a) <= |v.str|
    ensures CodePoints(Source(TextItem(v.str[Offset(Source(v), a)..], v.hasEOL))) == CodePoints(Source(v))[a..]
  {
    var s := Source(v);
    OffsetNext(s, a);
    DropCodePoints(s, a);
    assert Source(TextItem(v.str[Offset(s, a)..], v.hasEOL)) == s[Offset(s, a)..];
  }

  lemma HeadCodePoints(v: TextItem, b: nat)
    requires b < |CodePoints(Source(v))| && CodePoints(Source(v))[b] != [NEWLINE]
    ensures Offset(Source(v), b + 1) <= |v.str|
    ensures CodePoints(v.str[..Offset(Source(v), b + 1)]) == CodePoints(Source(v))[..b + 1]
  {
    var s := Source(v);
    CellEndsInside(v, b);
    TakeCodePoints(s, b + 1);
    assert v.str[..Offset(s, b + 1)] == s[..Offset(s, b + 1)];
  }

  lemma {:induction false} OffsetOfPrefix(s: Str, a: nat, b: nat)
    requires a <= b <= |CodePoints(s)|
    ensures |CodePoints(s[..Offset(s, b)])| == b && Offset(s[..Offset(s, b)], a) == Offset(s, a)
    decreases a
  {
    TakeCodePoints(s, b);
    if a > 0 {
      PrefixRest(s, b);
      OffsetOfPrefix(s[FirstLength(s)..], a - 1, b - 1);
      FrontCodePoint(s, a);
      FrontCodePoint(s[..Offset(s, b)], a);
    }
  }

  lemma InnerCodePoints(v: TextItem, a: nat, b: nat)
    requires a <= b < |CodePoints(Source(v))| && CodePoints(Source(v))[b] != [NEWLINE]
    ensures Offset(Source(v), a) < Offset(Source(v), b + 1) <= |v.str|
    ensures CodePoints(v.str[Offset(Source(v), a)..Offset(Source(v), b + 1)]) == CodePoints(Source(v))[a..b + 1]
  {
    var s := Source(v);
    CellEndsInside(v, b);
    OffsetsIncrease(s, a, b);
    OffsetOfPrefix(s, a, b + 1);
    TakeCodePoints(s, b + 1);
    var p := s[..Offset(s, b + 1)];
    DropCodePoints(p, a);
    assert v.str[Offset(s, a)..Offset(s, b + 1)] == p[Offset(s, a)..];
  }

  lemma {:induction false} PageCodePointsAppend(a: seq<TextItem>, b: seq<TextItem>)
    ensures PageCodePoints(a + b) == PageCodePoints(a) + PageCodePoints(b)
    decreases |a|
  {
    if a == [] {
      assert a + b == b;
    } else {
      assert (a + b)[1..] == a[1..] + b;
      PageCodePointsAppend(a[1..], b);
    }
  }

  lemma PageCodePointsOne(v: TextItem)
    ensures PageCodePoints([v]) == CodePoints(Source(v))
  {
    assert [v][1..] == [];
  }

  /** Where a slice of `x + y` lies. */
  lemma CpsSplit(items: seq<TextItem>, k: nat)
    requires k < |items|
    ensures Cps(Cells(items, k)) == CodePoints(Source(items[k])) + Cps(Cells(items, k + 1))
    ensures |ItemCells(items[k], k)| == |CodePoints(Source(items[k]))|
  {
    CpsOfCellsFrom(CodePoints(Source(items[k])), k, 0, |items[k].str|);
    CpsAppend(ItemCells(items[k], k), Cells(items, k + 1));
  }

  lemma CpsAppend(a: seq<Cell>, b: seq<Cell>)
    ensures Cps(a + b) == Cps(a) + Cps(b)
  {
  }

  lemma PageCodePointsCut(v: TextItem)
    requires !v.hasEOL
    ensures PageCodePoints([v]) == CodePoints(v.str)
  {
    PageCodePointsOne(v);
    assert Source(v) == v.str;
  }

  /** Items `k..ei`, the last one cut after `eo` units. */
  function Cut(items: seq<TextItem>, k: nat, ei: nat, eo: nat): seq<TextItem>
    requires k <= ei < |items| && eo <= |items[ei].str|
  {
    items[k..ei] + [TextItem(items[ei].str[..eo], false)]
  }

  lemma CutFirst(items: seq<TextItem>, k: nat, b: nat)
    requires k < |items| && b < |ItemCells(items[k], k)| && ItemCells(items[k], k)[b].cp != [NEWLINE]
    ensures var d := ItemCells(items[k], k)[b];
            && |ItemCells(items[k], k)| == |CodePoints(Source(items[k]))| && d.item == k && d.end <= |items[k].str|
            && PageCodePoints(Cut(items, k, k, d.end)) == CodePoints(Source(items[k]))[..b + 1]
  {
    var d := ItemCells(items[k], k)[b];
    CpsSplit(items, k);
    ItemCellOffsets(Source(items[k]), k, |items[k].str|, b);
    HeadCodePoints(items[k], b);
    var cut := TextItem(items[k].str[..d.end], false);
    assert Cut(items, k, k, d.end) == [cut];
    PageCodePointsCut(cut);
  }

  lemma CutRest(items: seq<TextItem>, k: nat, ei: nat, eo: nat)
    requires k < ei < |items| && eo <= |items[ei].str|
    ensures PageCodePoints(Cut(items, k, ei, eo))
         == CodePoints(Source(items[k])) + PageCodePoints(Cut(items, k + 1, ei, eo))
  {
    assert Cut(items, k, ei, eo) == [items[k]] + Cut(items, k + 1, ei, eo);
    PageCodePointsAppend([items[k]], Cut(items, k + 1, ei, eo));
    PageCodePointsOne(items[k]);
  }

  lemma {:induction false} PrefixSlice(items: seq<TextItem>, k: nat, b: nat)
    requires k <= |items| && b < |Cells(items, k)| && Cells(items, k)[b].cp != [NEWLINE]
    ensures PrefixHolds(items, k, Cells(items, k)[b], Cps(Cells(items, k))[..b + 1])
    decreases |items| - k
  {
    var n, x, y := |ItemCells(items[k], k)|, CodePoints(Source(items[k])), Cps(Cells(items, k + 1));
    CpsSplit(items, k);
    CellAt(items, k, b);
    TakeConcat(x, y, b + 1);
    if b < n {
      CutFirst(items, k, b);
    } else {
      PrefixSlice(items, k + 1, b - n);
      PrefixGrows(items, k, Cells(items, k)[b], y[..b - n + 1]);
    }
  }

  lemma TakeConcat<T>(x: seq<T>, y: seq<T>, n: nat)
    requires n <= |x| + |y|
    ensures (x + y)[..n] == if n <= |x| then x[..n] else x + y[..n - |x|]
  {
  }

  lemma PrefixGrows(items: seq<TextItem>, k: nat, d: Cell, cps: seq<Str>)
    requires k < |items| && PrefixHolds(items, k + 1, d, cps)
    ensures PrefixHolds(items, k, d, CodePoints(Source(items[k])) + cps)
  {
    CutRest(items, k, d.item, d.end);
  }

  /** The items from `k` up to the end of cell `d` hold exactly the code points `cps`. */
  predicate PrefixHolds(items: seq<TextItem>, k: nat, d: Cell, cps: seq<Str>) {
    && k <= d.item < |items| && d.end <= |items[d.item].str|
    && PageCodePoints(Cut(items, k, d.item, d.end)) == cps
  }

  /** The cell of the `a`-th code point of an item. */
  lemma OwnCell(items: seq<TextItem>, k: nat, a: nat)
    requires k < |items| && a < |ItemCells(items[k], k)|
    ensures var v, s := items[k], Source(items[k]);
            && |ItemCells(v, k)| == |CodePoints(s)| && Offset(s, a) < Offset(s, a + 1) <= |s|
            && ItemCells(v, k)[a]
               == Cell(CodePoints(s)[a], k, Min(Offset(s, a), |v.str|), Min(Offset(s, a + 1), |v.str|))
  {
    CpsSplit(items, k);
    ItemCellOffsets(Source(items[k]), k, |items[k].str|, a);
  }

  lemma InnerSlice(items: seq<TextItem>, k: nat, a: nat, b: nat, so: nat, eo: nat)
    requires k < |items| && a <= b < |CodePoints(Source(items[k]))|
    requires CodePoints(Source(items[k]))[b] != [NEWLINE]
    requires so == Offset(Source(items[k]), a) && eo == Offset(Source(items[k]), b + 1)
    ensures so <= eo <= |items[k].str|
    ensures PageCodePoints(SourceSlice(items, k, so, k, eo)) == CodePoints(Source(items[k]))[a..b + 1]
  {
    InnerCodePoints(items[k], a, b);
    PageCodePointsCut(TextItem(items[k].str[so..eo], false));
  }

  lemma SliceWithinItem(items: seq<TextItem>, k: nat, a: nat, b: nat)
    requires k < |items| && a <= b < |ItemCells(items[k], k)| && ItemCells(items[k], k)[b].cp != [NEWLINE]
    ensures |ItemCells(items[k], k)| == |CodePoints(Source(items[k]))|
    ensures SliceHolds(items, ItemCells(items[k], k)[a], ItemCells(items[k], k)[b],
                       CodePoints(Source(items[k]))[a..b + 1])
  {
    var s := Source(items[k]);
    OwnCell(items, k, a);
    OwnCell(items, k, b);
    InnerSlice(items, k, a, b, Offset(s, a), Offset(s, b + 1));
  }

  lemma OuterSlice(items: seq<TextItem>, k: nat, a: nat, so: nat, ei: nat, eo: nat)
    requires k < ei < |items| && a < |CodePoints(Source(items[k]))|
    requires so == Offset(Source(items[k]), a) && eo <= |items[ei].str|
    ensures so <= |items[k].str|
    ensures PageCodePoints(SourceSlice(items, k, so, ei, eo))
         == CodePoints(Source(items[k]))[a..] + PageCodePoints(Cut(items, k + 1, ei, eo))
  {
    TailCodePoints(items[k], a);
    var head := TextItem(items[k].str[so..], items[k].hasEOL);
    var tail := Cut(items, k + 1, ei, eo);
    assert SourceSlice(items, k, so, ei, eo) == [head] + tail;
    PageCodePointsAppend([head], tail);
    PageCodePointsOne(head);
  }

  lemma SliceAcrossItems(items: seq<TextItem>, k: nat, a: nat, b: nat)
    requires k < |items| && a < |ItemCells(items[k], k)|
    requires b < |Cells(items, k + 1)| && Cells(items, k + 1)[b].cp != [NEWLINE]
    ensures |ItemCells(items[k], k)| == |CodePoints(Source(items[k]))|
    ensures SliceHolds(items, ItemCells(items[k], k)[a], Cells(items, k + 1)[b],
                       CodePoints(Source(items[k]))[a..] + Cps(Cells(items, k + 1))[..b + 1])
  {
    var d := Cells(items, k + 1)[b];
    OwnCell(items, k, a);
    PrefixSlice(items, k + 1, b);
    OuterSlice(items, k, a, Offset(Source(items[k]), a), d.item, d.end);
  }

  /** The slice between two cells is in range and holds exactly the code points `cps`. */
  predicate SliceHolds(items: seq<TextItem>, c: Cell, d: Cell, cps: seq<Str>) {
    && c.item <= d.item < |items| && c.start <= |items[c.item].str| && d.end <= |items[d.item].str|
    && (c.item == d.item ==> c.start <= d.end)
    && PageCodePoints(SourceSlice(items, c.item, c.start, d.item, d.end)) == cps
  }

  lemma SliceRight<T>(x: seq<T>, y: seq<T>, i: nat, j: nat)
    requires i <= j <= |y|
    ensures (x + y)[|x| + i..|x| + j] == y[i..j]
  {
  }

  lemma SliceLeft<T>(x: seq<T>, y: seq<T>, i: nat, j: nat)
    requires i <= j <= |x|
    ensures (x + y)[i..j] == x[i..j]
  {
  }

  lemma SliceBoth<T>(x: seq<T>, y: seq<T>, i: nat, j: nat)
    requires i <= |x| && j <= |y|
    ensures (x + y)[i..|x| + j] == x[i..] + y[..j]
  {
  }

  /** Whatever holds of two cells of `rest` and the code points between them holds of them behind `own`. */
  lemma SameBehind(own: seq<Cell>, rest: seq<Cell>, i: nat, j: nat, holds: (Cell, Cell, seq<Str>) -> bool)
    requires i <= j < |rest| && holds(rest[i], rest[j], Cps(rest)[i..j + 1])
    ensures var n, cells := |own|, own + rest;
            holds(cells[n + i], cells[n + j], Cps(cells)[n + i..n + j + 1])
  {
    CpsAppend(own, rest);
    SliceRight(Cps(own), Cps(rest), i, j + 1);
  }

  lemma SameBefore(own: seq<Cell>, rest: seq<Cell>, i: nat, j: nat, holds: (Cell, Cell, seq<Str>) -> bool)
    requires i <= j < |own| && holds(own[i], own[j], Cps(own)[i..j + 1])
    ensures holds((own + rest)[i], (own + rest)[j], Cps(own + rest)[i..j + 1])
  {
    CpsAppend(own, rest);
    SliceLeft(Cps(own), Cps(rest), i, j + 1);
  }

  lemma SameAcross(own: seq<Cell>, rest: seq<Cell>, i: nat, j: nat, holds: (Cell, Cell, seq<Str>) -> bool)
    requires i < |own| && j < |rest| && holds(own[i], rest[j], Cps(own)[i..] + Cps(rest)[..j + 1])
    ensures var n, cells := |own|, own + rest;
            holds(cells[i], cells[n + j], Cps(cells)[i..n + j + 1])
  {
    CpsAppend(own, rest);
    SliceBoth(Cps(own), Cps(rest), i, j + 1);
  }

  lemma OwnCps(items: seq<TextItem>, k: nat)
    requires k < |items|
    ensures Cps(ItemCells(items[k], k)) == CodePoints(Source(items[k]))
    ensures Cells(items, k) == ItemCells(items[k], k) + Cells(items, k + 1)
  {
    CpsOfCellsFrom(CodePoints(Source(items[k])), k, 0, |items[k].str|);
  }

  /** `holds` of two cells of item `k` and the code points from the one to the other. */
  predicate HoldsWithin(items: seq<TextItem>, k: nat, a: nat, b: nat, holds: (Cell, Cell, seq<Str>) -> bool) {
    k < |items| && a <= b < |ItemCells(items[k], k)| && ItemCells(items[k], k)[b].cp != [NEWLINE] ==>
      var own := ItemCells(items[k], k);
      holds(own[a], own[b], Cps(own)[a..b + 1])
  }

  /** `holds` of a cell of item `k` and one behind the item, with the code points from the one to the other. */
  predicate HoldsAcross(items: seq<TextItem>, k: nat, a: nat, b: nat, holds: (Cell, Cell, seq<Str>) -> bool) {
    k < |items| && a < |ItemCells(items[k], k)| && b < |Cells(items, k + 1)|
    && Cells(items, k + 1)[b].cp != [NEWLINE] ==>
      var own, rest := ItemCells(items[k], k), Cells(items, k + 1);
      holds(own[a], rest[b], Cps(own)[a..] + Cps(rest)[..b + 1])
  }

  ghost predicate HoldsLocally(items: seq<TextItem>, holds: (Cell, Cell, seq<Str>) -> bool) {
    && (forall k: nat, a: nat, b: nat :: HoldsWithin(items, k, a, b, holds))
    && (forall k: nat, a: nat, b: nat :: HoldsAcross(items, k, a, b, holds))
  }

  lemma HoldsHere(items: seq<TextItem>, k: nat, own: seq<Cell>, rest: seq<Cell>, a: nat, b: nat,
                  holds: (Cell, Cell, seq<Str>) -> bool)
    requires HoldsLocally(items, holds) && k < |items| && own == ItemCells(items[k], k) && rest == Cells(items, k + 1)
    requires a < |own| && a <= b < |own| + |rest| && (own + rest)[b].cp != [NEWLINE]
    ensures holds((own + rest)[a], (own + rest)[b], Cps(own + rest)[a..b + 1])
  {
    if b < |own| {
      assert HoldsWithin(items, k, a, b, holds);
      SameBefore(own, rest, a, b, holds);
    } else {
      assert HoldsAcross(items, k, a, b - |own|, holds);
      SameAcross(own, rest, a, b - |own|, holds);
    }
  }

  lemma HoldsLater(own: seq<Cell>, rest: seq<Cell>, a: nat, b: nat, holds: (Cell, Cell, seq<Str>) -> bool)
    requires |own| <= a <= b < |own| + |rest|
    requires var n := |own|; holds(rest[a - n], rest[b - n], Cps(rest)[a - n..b - n + 1])
    ensures holds((own + rest)[a], (own + rest)[b], Cps(own + rest)[a..b + 1])
  {
    SameBehind(own, rest, a - |own|, b - |own|, holds);
  }

  /** What holds locally holds of every two cells of the page. */
  lemma {:induction false} HoldsThroughout(items: seq<TextItem>, k: nat, a: nat, b: nat,
                                           holds: (Cell, Cell, seq<Str>) -> bool)
    requires HoldsLocally(items, holds)
    requires k <= |items| && a <= b < |Cells(items, k)| && Cells(items, k)[b].cp != [NEWLINE]
    ensures holds(Cells(items, k)[a], Cells(items, k)[b], Cps(Cells(items, k))[a..b + 1])
    decreases |items| - k
  {
    var own, rest := ItemCells(items[k], k), Cells(items, k + 1);
    OwnCps(items, k);
    if a >= |own| {
      HoldsThroughout(items, k + 1, a - |own|, b - |own|, holds);
      HoldsLater(own, rest, a, b, holds);
    } else {
      HoldsHere(items, k, own, rest, a, b, holds);
    }
  }

  lemma SlicesWithin(items: seq<TextItem>, k: nat, a: nat, b: nat)
    ensures HoldsWithin(items, k, a, b, (c, d, cps) => SliceHolds(items, c, d, cps))
  {
    if k < |items| && a <= b < |ItemCells(items[k], k)| && ItemCells(items[k], k)[b].cp != [NEWLINE] {
      OwnCps(items, k);
      SliceWithinItem(items, k, a, b);
    }
  }

  lemma SlicesAcross(items: seq<TextItem>, k: nat, a: nat, b: nat)
    ensures HoldsAcross(items, k, a, b, (c, d, cps) => SliceHolds(items, c, d, cps))
  {
    if k < |items| && a < |ItemCells(items[k], k)| && b < |Cells(items, k + 1)|
       && Cells(items, k + 1)[b].cp != [NEWLINE] {
      OwnCps(items, k);
      SliceAcrossItems(items, k, a, b);
    }
  }

  /** The slice between cell `a` and cell `b` holds exactly the code points of cells `a..b`. */
  lemma SliceCodePoints(items: seq<TextItem>, k: nat, a: nat, b: nat)
    requires k <= |items| && a <= b < |Cells(items, k)| && Cells(items, k)[b].cp != [NEWLINE]
    ensures SliceHolds(items, Cells(items, k)[a], Cells(items, k)[b], Cps(Cells(items, k))[a..b + 1])
  {
    var holds := (c, d, cps) => SliceHolds(items, c, d, cps);
    forall k: nat, a: nat, b: nat ensures HoldsWithin(items, k, a, b, holds) {
      SlicesWithin(items, k, a, b);
    }
    forall k: nat, a: nat, b: nat ensures HoldsAcross(items, k, a, b, holds) {
      SlicesAcross(items, k, a, b);
    }
    HoldsThroughout(items, k, a, b, holds);
  }

  // -- normalising a slice on its own

  /** The glyphs a run adds to `acc`, as text. */
  function Added(acc: seq<Glyph>, all: seq<Glyph>): Str
    requires acc <= all
  {
    Units(all[|acc|..])
  }

  predicate IsSuffix(x: Str, y: Str) {
    |x| <= |y| && x == y[|y| - |x|..]
  }

  /**
   `alone` was started on an empty text where `acc` continues `base`: what was added
   to `base` is a suffix of `alone`, and both agree about a trailing space unless
   nothing has been emitted yet.
   */
  ghost predicate Tracks(base: seq<Glyph>, acc: seq<Glyph>, alone: seq<Glyph>) {
    && base <= acc
    && IsSuffix(Added(base, acc), Units(alone))
    && (EndsWithSpace(alone) ==> EndsWithSpace(acc))
    && (EndsWithSpace(acc) && !EndsWithSpace(alone) ==> alone == [] && acc == base)
  }

  lemma SuffixAppend(x: Str, y: Str, part: Str)
    requires IsSuffix(x, y)
    ensures IsSuffix(x + part, y + part)
  {
    assert y + part == y[..|y| - |x|] + (x + part);
  }

  lemma AddedAppend(base: seq<Glyph>, acc: seq<Glyph>, part: Str, c: Cell)
    requires base <= acc
    ensures base <= acc + Stamp(part, c)
    ensures Added(base, acc + Stamp(part, c)) == Added(base, acc) + part
    ensures part != [] ==> EndsWithSpace(acc + Stamp(part, c)) == (part[|part| - 1] == SPACE)
  {
    assert (acc + Stamp(part, c))[|base|..] == acc[|base|..] + Stamp(part, c);
  }

  lemma TracksEmit(base: seq<Glyph>, acc: seq<Glyph>, alone: seq<Glyph>, part: Str, c: Cell, c': Cell)
    requires Tracks(base, acc, alone)
    requires part == [SPACE] || (part != [] && part[|part| - 1] != SPACE)
    ensures Tracks(base, Emit(acc, part, c), Emit(alone, part, c'))
  {
    AddedAppend(base, acc, part, c);
    AddedAppend([], alone, part, c');
    assert Added([], alone) == Units(alone) && Added([], alone + Stamp(part, c')) == Units(alone + Stamp(part, c'));
    if part == [SPACE] && EndsWithSpace(acc) {
      if !EndsWithSpace(alone) {
        assert Added(base, acc) == [];
      }
    } else {
      SuffixAppend(Added(base, acc), Units(alone), part);
    }
  }

  lemma {:induction false} TracksChars(base: seq<Glyph>, acc: seq<Glyph>, alone: seq<Glyph>, s: Str, c: Cell, c': Cell)
    requires Tracks(base, acc, alone)
    ensures Tracks(base, EmitAll(acc, CodePoints(s), c), EmitAll(alone, CodePoints(s), c'))
    decreases |s|
  {
    if s != [] {
      var p := Part(s[..FirstLength(s)]);
      CodePointShape(s, 0);
      TracksEmit(base, acc, alone, p, c, c');
      TracksChars(base, Emit(acc, p, c), Emit(alone, p, c'), s[FirstLength(s)..], c, c');
    }
  }

  lemma {:induction false} TracksRun(t: Tables, sensitive: bool, base: seq<Glyph>, acc: seq<Glyph>, alone: seq<Glyph>,
                                     cells: seq<Cell>, cells': seq<Cell>)
    requires Tracks(base, acc, alone) && Cps(cells) == Cps(cells')
    ensures Tracks(base, Run(t, sensitive, acc, cells), Run(t, sensitive, alone, cells'))
    decreases |cells|
  {
    assert |cells| == |Cps(cells)| == |cells'|;
    if cells != [] {
      var c, c' := cells[0], cells'[0];
      assert c.cp == Cps(cells)[0] == Cps(cells')[0] == c'.cp;
      TracksChars(base, acc, alone, Folded(t, sensitive, c.cp), c, c');
      assert Cps(cells[1..]) == Cps(cells)[1..] == Cps(cells')[1..] == Cps(cells'[1..]);
      TracksRun(t, sensitive, base, Absorb(t, sensitive, acc, c), Absorb(t, sensitive, alone, c'),
                cells[1..], cells'[1..]);
    }
  }

  /** The text of cells `a..b` in place is a suffix of their text on its own. */
  lemma SliceText(t: Tables, sensitive: bool, cells: seq<Cell>, a: nat, b: nat, slice: seq<TextItem>)
    requires a <= b < |cells| && PageCodePoints(slice) == Cps(cells)[a..b + 1]
    ensures Upto(t, sensitive, cells, a) <= Upto(t, sensitive, cells, b + 1)
    ensures IsSuffix(Added(Upto(t, sensitive, cells, a), Upto(t, sensitive, cells, b + 1)),
                     Units(Normalized(t, sensitive, slice)))
  {
    var base := Upto(t, sensitive, cells, a);
    CpsOfCells(slice, 0);
    assert slice[0..] == slice;
    assert Cps(cells[a..b + 1]) == Cps(cells)[a..b + 1];
    assert cells[..b + 1] == cells[..a] + cells[a..b + 1];
    RunAppend(t, sensitive, [], cells[..a], cells[a..b + 1]);
    assert Added(base, base) == [];
    TracksRun(t, sensitive, base, base, [], cells[a..b + 1], Cells(slice, 0));
  }

  // -- white space

  /** White space is always a plain space, and never two in a row. */
  ghost predicate Collapsed(g: seq<Glyph>) {
    && (forall k :: 0 <= k < |g| && IsSpace(g[k].unit) ==> g[k].unit == SPACE)
    && (forall k :: 0 < k < |g| && g[k].unit == SPACE ==> g[k - 1].unit != SPACE)
  }

  lemma EmitKeepsCollapsed(acc: seq<Glyph>, ch: Str, c: Cell)
    requires Collapsed(acc) && 1 <= |ch| <= 2 && (|ch| == 2 ==> IsHigh(ch[0]) && IsLow(ch[1]))
    ensures Collapsed(Emit(acc, Part(ch), c))
  {
    var all := Emit(acc, Part(ch), c);
    forall k | 0 < k < |all| && all[k].unit == SPACE ensures all[k - 1].unit != SPACE {
      if k < |acc| { assert all[k] == acc[k] && all[k - 1] == acc[k - 1]; }
    }
  }

  lemma {:induction false} EmitAllKeepsCollapsed(acc: seq<Glyph>, s: Str, c: Cell)
    requires Collapsed(acc)
    ensures Collapsed(EmitAll(acc, CodePoints(s), c))
    decreases |s|
  {
    if s != [] {
      CodePointShape(s, 0);
      EmitKeepsCollapsed(acc, s[..FirstLength(s)], c);
      EmitNext(acc, s, c);
      EmitAllKeepsCollapsed(Emit(acc, Part(s[..FirstLength(s)]), c), s[FirstLength(s)..], c);
    }
  }

  lemma {:induction false} RunKeepsCollapsed(t: Tables, sensitive: bool, acc: seq<Glyph>, cells: seq<Cell>)
    requires Collapsed(acc)
    ensures Collapsed(Run(t, sensitive, acc, cells))
    decreases |cells|
  {
    if cells != [] {
      EmitAllKeepsCollapsed(acc, Folded(t, sensitive, cells[0].cp), cells[0]);
      RunKeepsCollapsed(t, sensitive, Absorb(t, sensitive, acc, cells[0]), cells[1..]);
    }
  }

  /** The normalised text of every page: white space is collapsed, within and across items. */
  lemma WhitespaceIsCollapsed(t: Tables, sensitive: bool, items: seq<TextItem>)
    ensures Collapsed(Normalized(t, sensitive, items))
  {
    RunKeepsCollapsed(t, sensitive, [], Cells(items, 0));
  }

  // -- the match itself

  lemma NewlineGivesSpace(t: Tables, sensitive: bool, acc: seq<Glyph>, c: Cell)
    requires t.KeepNewline() && c.cp == [NEWLINE]
    ensures var all := Absorb(t, sensitive, acc, c);
            acc <= all && forall k :: |acc| <= k < |all| ==> all[k].unit == SPACE
  {
    var f := Folded(t, sensitive, c.cp);
    assert f == [NEWLINE];
    assert CodePoints(f) == [[NEWLINE]] by { assert f[..1] == f && f[1..] == []; }
    var chars := CodePoints(f);
    assert chars[1..] == [];
    assert EmitAll(acc, chars, c) == EmitAll(Emit(acc, [SPACE], c), chars[1..], c);
  }

  ghost predicate Contains(text: Str, needle: Str) {
    exists p :: OccursAt(text, needle, p)
  }

  lemma OccursInSuffix(x: Str, y: Str, needle: Str, p: nat)
    requires IsSuffix(x, y) && OccursAt(x, needle, p)
    ensures Contains(y, needle)
  {
    var q := |y| - |x| + p;
    assert y[q..q + |needle|] == y[|y| - |x|..][p..p + |needle|];
    assert OccursAt(y, needle, q);
  }

  /** An occurrence between the glyphs of `from` and of `upto` is one in the text added between them. */
  lemma OccursInAdded(from: seq<Glyph>, upto: seq<Glyph>, all: seq<Glyph>, needle: Str, p: nat)
    requires from <= upto <= all && |from| <= p && p + |needle| <= |upto|
    requires OccursAt(Units(all), needle, p)
    ensures OccursAt(Added(from, upto), needle, p - |from|)
  {
    var x := Added(from, upto);
    assert x[p - |from|..p - |from| + |needle|] == Units(all)[p..p + |needle|];
  }

  /** The cells that the two ends of an occurrence come from. */
  lemma MatchCells(t: Tables, sensitive: bool, items: seq<TextItem>, needle: Str, p: nat) returns (a: nat, b: nat)
    requires t.KeepNewline()
    requires needle != [] && !IsSpace(needle[|needle| - 1])
    requires OccursAt(Units(Normalized(t, sensitive, items)), needle, p)
    ensures var cells := Cells(items, 0);
            && a <= b && ComesFrom(t, sensitive, cells, p, a) && ComesFrom(t, sensitive, cells, p + |needle| - 1, b)
            && cells[b].cp != [NEWLINE]
  {
    var cells, last := Cells(items, 0), p + |needle| - 1;
    assert cells[..|cells|] == cells;
    a := Origin(t, sensitive, cells, p, |cells|);
    b := Origin(t, sensitive, cells, last, |cells|);
    OriginsOrdered(t, sensitive, cells, p, last, a, b);
    LastCellIsText(t, sensitive, items, needle, p, b);
  }

  /** A slice with the code points of cells `a..b` has every occurrence those cells produced. */
  lemma SliceContains(t: Tables, sensitive: bool, items: seq<TextItem>, needle: Str, p: nat, a: nat, b: nat,
                      slice: seq<TextItem>)
    requires needle != [] && OccursAt(Units(Normalized(t, sensitive, items)), needle, p) && a <= b
    requires ComesFrom(t, sensitive, Cells(items, 0), p, a)
    requires ComesFrom(t, sensitive, Cells(items, 0), p + |needle| - 1, b)
    requires PageCodePoints(slice) == Cps(Cells(items, 0))[a..b + 1]
    ensures Contains(Units(Normalized(t, sensitive, slice)), needle)
  {
    var cells := Cells(items, 0);
    assert cells[..|cells|] == cells;
    CellsContain(t, sensitive, cells, needle, p, a, b, slice);
  }

  lemma CellsContain(t: Tables, sensitive: bool, cells: seq<Cell>, needle: Str, p: nat, a: nat, b: nat,
                     slice: seq<TextItem>)
    requires needle != [] && OccursAt(Units(Upto(t, sensitive, cells, |cells|)), needle, p) && a <= b
    requires ComesFrom(t, sensitive, cells, p, a) && ComesFrom(t, sensitive, cells, p + |needle| - 1, b)
    requires PageCodePoints(slice) == Cps(cells)[a..b + 1]
    ensures Contains(Units(Normalized(t, sensitive, slice)), needle)
  {
    SliceText(t, sensitive, cells, a, b, slice);
    UptoMonotone(t, sensitive, cells, b + 1, |cells|);
    OccursBetween(Upto(t, sensitive, cells, a), Upto(t, sensitive, cells, b + 1), Upto(t, sensitive, cells, |cells|),
                  Units(Normalized(t, sensitive, slice)), needle, p);
  }

  lemma OccursBetween(from: seq<Glyph>, upto: seq<Glyph>, all: seq<Glyph>, alone: Str, needle: Str, p: nat)
    requires from <= upto <= all && |from| <= p && p + |needle| <= |upto|
    requires OccursAt(Units(all), needle, p) && IsSuffix(Added(from, upto), alone)
    ensures Contains(alone, needle)
  {
    OccursInAdded(from, upto, all, needle, p);
    OccursInSuffix(Added(from, upto), alone, needle, p - |from|);
  }

  /** The source text a match points at normalises on its own to a string with the needle. */
  lemma MatchMapsBack(t: Tables, sensitive: bool, items: seq<TextItem>, needle: Str, p: nat)
    requires t.KeepNewline()
    requires needle != [] && !IsSpace(needle[|needle| - 1])
    requires OccursAt(Units(Normalized(t, sensitive, items)), needle, p)
    ensures MapsBack(t, sensitive, items, needle, MatchAt(Normalized(t, sensitive, items), needle, p))
  {
    var a, b := MatchCells(t, sensitive, items, needle, p);
    var c, d := Cells(items, 0)[a], Cells(items, 0)[b];
    SliceCodePoints(items, 0, a, b);
    SliceContains(t, sensitive, items, needle, p, a, b, SourceSlice(items, c.item, c.start, d.item, d.end));
    MatchEnds(t, sensitive, items, needle, p, a, b);
  }

  lemma MatchEnds(t: Tables, sensitive: bool, items: seq<TextItem>, needle: Str, p: nat, a: nat, b: nat)
    requires needle != [] && p + |needle| <= |Normalized(t, sensitive, items)|
    requires ComesFrom(t, sensitive, Cells(items, 0), p, a)
    requires ComesFrom(t, sensitive, Cells(items, 0), p + |needle| - 1, b)
    ensures var m, c, d := MatchAt(Normalized(t, sensitive, items), needle, p), Cells(items, 0)[a], Cells(items, 0)[b];
            m.startItem == c.item && m.startOffset == c.start && m.endItem == d.item && m.endOffset == d.end
  {
    var cells := Cells(items, 0);
    assert cells[..|cells|] == cells;
    UptoMonotone(t, sensitive, cells, a + 1, |cells|);
    UptoMonotone(t, sensitive, cells, b + 1, |cells|);
  }

  /** The offsets of `m` are places of the page, and the text between them contains the needle. */
  ghost predicate MapsBack(t: Tables, sensitive: bool, items: seq<TextItem>, needle: Str, m: Match) {
    && m.startItem <= m.endItem < |items|
    && m.startOffset <= |items[m.startItem].str| && m.endOffset <= |items[m.endItem].str|
    && (m.startItem == m.endItem ==> m.startOffset <= m.endOffset)
    && Contains(Units(Normalized(t, sensitive,
                  SourceSlice(items, m.startItem, m.startOffset, m.endItem, m.endOffset))), needle)
  }

  lemma LastCellIsText(t: Tables, sensitive: bool, items: seq<TextItem>, needle: Str, p: nat, b: nat)
    requires t.KeepNewline()
    requires needle != [] && !IsSpace(needle[|needle| - 1])
    requires OccursAt(Units(Normalized(t, sensitive, items)), needle, p)
    requires ComesFrom(t, sensitive, Cells(items, 0), p + |needle| - 1, b)
    ensures Cells(items, 0)[b].cp != [NEWLINE]
  {
    var cells, g, last := Cells(items, 0), Normalized(t, sensitive, items), p + |needle| - 1;
    assert cells[..|cells|] == cells;
    assert Units(g)[p..p + |needle|][|needle| - 1] == g[last].unit;
    UptoNext(t, sensitive, cells, b);
    UptoMonotone(t, sensitive, cells, b + 1, |cells|);
    if cells[b].cp == [NEWLINE] {
      NewlineGivesSpace(t, sensitive, Upto(t, sensitive, cells, b), cells[b]);
    }
  }

  /** Every match that `findMatches` can return maps back to source text with the needle. */
  lemma EveryMatchMapsBack(t: Tables, items: seq<TextItem>, query: Str, sensitive: bool, k: nat)
    requires t.KeepNewline() && k < |AllMatches(t, items, query, sensitive)|
    ensures MapsBack(t, sensitive, items, Needle(t, query, sensitive), AllMatches(t, items, query, sensitive)[k])
    ensures AllMatches(t, items, query, sensitive)[k].text == Needle(t, query, sensitive)
  {
    var needle, g := Needle(t, query, sensitive), Normalized(t, sensitive, items);
    PositionsOccur(Units(g), needle, 0, k);
    MatchMapsBack(t, sensitive, items, needle, Positions(Units(g), needle, 0)[k]);
  }

  // ------------------------------------------------------------ the greedy count

  /** Every counted position is an occurrence. */
  lemma {:induction false} PositionsOccur(text: Str, needle: Str, from: nat, k: nat)
    requires needle != [] && k < |Positions(text, needle, from)|
    ensures OccursAt(text, needle, Positions(text, needle, from)[k])
    decreases k
  {
    PositionsStep(text, needle, from);
    if k > 0 { PositionsOccur(text, needle, IndexOf(text, needle, from).value + |needle|, k - 1); }
  }

  /** The members of `s` are occurrences of the needle, no two of which share a unit. */
  ghost predicate DisjointOccurrences(text: Str, needle: Str, s: set<int>) {
    && (forall p :: p in s ==> OccursAt(text, needle, p))
    && (forall p, q :: p in s && q in s && p < q ==> p + |needle| <= q)
  }

  ghost function Elements(ps: seq<int>): set<int> {
    set p | p in ps
  }

  /** The scan stops at the first occurrence and goes on behind it. */
  lemma FirstPosition(text: Str, needle: Str, from: nat) returns (first: nat)
    requires needle != [] && Positions(text, needle, from) != []
    ensures from <= first && OccursAt(text, needle, first)
    ensures Positions(text, needle, from) == [first] + Positions(text, needle, first + |needle|)
    ensures forall q :: from <= q < first ==> !OccursAt(text, needle, q)
  {
    IndexOfIsFirst(text, needle, from);
    first := IndexOf(text, needle, from).value;
  }

  lemma NoPosition(text: Str, needle: Str, from: nat)
    requires needle != [] && Positions(text, needle, from) == []
    ensures forall q :: from <= q ==> !OccursAt(text, needle, q)
  {
    IndexOfIsFirst(text, needle, from);
  }

  lemma PrependElement(p: int, tail: seq<int>)
    ensures Elements([p] + tail) == {p} + Elements(tail)
  {
    forall q ensures q in Elements([p] + tail) <==> q in {p} + Elements(tail) {
      assert q in [p] + tail <==> q == p || q in tail;
    }
  }

  lemma AddDisjoint(text: Str, needle: Str, first: int, rest: set<int>)
    requires OccursAt(text, needle, first) && DisjointOccurrences(text, needle, rest)
    requires forall p :: p in rest ==> first + |needle| <= p
    ensures DisjointOccurrences(text, needle, {first} + rest)
  {
  }

  /** The scan itself yields disjoint occurrences, one per counted match. */
  lemma {:induction false} PositionsAreDisjoint(text: Str, needle: Str, from: nat)
    requires needle != []
    ensures DisjointOccurrences(text, needle, Elements(Positions(text, needle, from)))
    ensures |Elements(Positions(text, needle, from))| == |Positions(text, needle, from)|
    ensures forall p :: p in Elements(Positions(text, needle, from)) ==> from <= p
    decreases |Positions(text, needle, from)|
  {
    var ps := Positions(text, needle, from);
    if ps != [] {
      var first := FirstPosition(text, needle, from);
      var tail := Positions(text, needle, first + |needle|);
      PositionsAreDisjoint(text, needle, first + |needle|);
      PrependElement(first, tail);
      AddDisjoint(text, needle, first, Elements(tail));
    }
  }

  /** Disjoint occurrences at or after `first` that start inside its span: at most one. */
  lemma NearIsSmall(text: Str, needle: Str, s: set<int>, first: nat, near: set<int>)
    requires DisjointOccurrences(text, needle, s) && near <= s
    requires forall p :: p in near ==> first <= p < first + |needle|
    ensures |near| <= 1
  {
    if near != {} {
      var p := Pick(near);
      forall q | q in near ensures q == p {
      }
      assert near == {p};
    }
  }

  lemma WithoutNear(text: Str, needle: Str, s: set<int>, first: nat) returns (far: set<int>)
    requires DisjointOccurrences(text, needle, s) && forall p :: p in s ==> first <= p
    ensures DisjointOccurrences(text, needle, far) && |s| <= 1 + |far|
    ensures forall p :: p in far ==> first + |needle| <= p
  {
    var near := set p | p in s && p < first + |needle|;
    far := s - near;
    NearIsSmall(text, needle, s, first, near);
    assert |s| == |near| + |far|;
  }

  /** No set of disjoint occurrences is larger than the number of matches counted. */
  lemma {:induction false} CountIsMaximal(text: Str, needle: Str, from: nat, s: set<int>)
    requires needle != [] && DisjointOccurrences(text, needle, s)
    requires forall p :: p in s ==> from <= p
    ensures |s| <= |Positions(text, needle, from)|
    decreases |Positions(text, needle, from)|
  {
    if Positions(text, needle, from) == [] {
      NoPosition(text, needle, from);
      if s != {} {
        var p := Pick(s);
        assert false;
      }
    } else {
      var first := FirstPosition(text, needle, from);
      forall p | p in s ensures first <= p {
        assert OccursAt(text, needle, p);
      }
      var far := WithoutNear(text, needle, s, first);
      CountIsMaximal(text, needle, first + |needle|, far);
    }
  }

  /** `count` is the size of a largest set of disjoint occurrences, and that size is reached. */
  lemma CountIsMaximum(t: Tables, items: seq<TextItem>, query: Str, sensitive: bool)
    requires Needle(t, query, sensitive) != []
    ensures var text, needle := Units(Normalized(t, sensitive, items)), Needle(t, query, sensitive);
            var count := |AllMatches(t, items, query, sensitive)|;
            && (forall s :: DisjointOccurrences(text, needle, s) ==> |s| <= count)
            && exists s :: DisjointOccurrences(text, needle, s) && |s| == count
  {
    var text, needle := Units(Normalized(t, sensitive, items)), Needle(t, query, sensitive);
    forall s | DisjointOccurrences(text, needle, s) ensures |s| <= |AllMatches(t, items, query, sensitive)| {
      CountIsMaximal(text, needle, 0, s);
    }
    PositionsAreDisjoint(text, needle, 0);
    assert DisjointOccurrences(text, needle, Elements(Positions(text, needle, 0)));
  }
}
