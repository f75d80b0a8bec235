/**
 What the dropping of soft hyphens in `normalizeItems` amounts to
 (frontend/src/readingSearch.ts): the page reads as if they had never been there, unless
 one of them stood inside a surrogate pair.
 */
module ReadingSearchHyphens {
  import opened ReadingSearch
  import opened ReadingSearchTheorems

  /** A string, and a page, without its soft hyphens. */
  function Dehyphen(s: Str): Str {
    if s == [] then [] else (if s[0] == SOFT_HYPHEN then [] else [s[0]]) + Dehyphen(s[1..])
  }

  function DehyphenItems(items: seq<TextItem>): seq<TextItem> {
    if items == [] then []
    else [TextItem(Dehyphen(items[0].str), items[0].hasEOL)] + DehyphenItems(items[1..])
  }

  predicate StartsLow(s: Str) {
    s != [] && IsLow(s[0])
  }

  /** Soft hyphens stand between a high surrogate and a low one. */
  predicate SplitsPair(s: Str) {
    s != [] &&
    ((IsHigh(s[0]) && |s| > 1 && s[1] == SOFT_HYPHEN && StartsLow(Dehyphen(s[1..]))) || SplitsPair(s[1..]))
  }

  predicate SomePairSplit(items: seq<TextItem>) {
    items != [] && (SplitsPair(Source(items[0])) || SomePairSplit(items[1..]))
  }

  /** The code points that are not soft hyphens. */
  function Visible(cps: seq<Str>): seq<Str> {
    if cps == [] then [] else (if cps[0] == [SOFT_HYPHEN] then [] else [cps[0]]) + Visible(cps[1..])
  }

  function VisibleCells(cells: seq<Cell>): seq<Cell> {
    if cells == [] then [] else (if cells[0].cp == [SOFT_HYPHEN] then [] else [cells[0]]) + VisibleCells(cells[1..])
  }

  // ------------------------------------------------------------------ code points

  lemma {:induction false} DehyphenAppend(a: Str, b: Str)
    ensures Dehyphen(a + b) == Dehyphen(a) + Dehyphen(b)
    decreases |a|
  {
    if a == [] {
      assert a + b == b;
    } else {
      assert (a + b)[1..] == a[1..] + b;
      DehyphenAppend(a[1..], b);
    }
  }

  lemma {:induction false} VisibleAppend(a: seq<Str>, b: seq<Str>)
    ensures Visible(a + b) == Visible(a) + Visible(b)
    decreases |a|
  {
    if a == [] {
      assert a + b == b;
    } else {
      assert (a + b)[1..] == a[1..] + b;
      VisibleAppend(a[1..], b);
    }
  }

  /** A code point that is not a soft hyphen has none inside. */
  lemma FirstStays(s: Str)
    requires s != [] && s[0] != SOFT_HYPHEN
    ensures var n := FirstLength(s);
            Dehyphen(s) == s[..n] + Dehyphen(s[n..]) && (n == 2 ==> SplitsPair(s) == SplitsPair(s[2..]))
  {
    if FirstLength(s) == 2 {
      assert s[1..][1..] == s[2..];
    }
  }

  lemma CodePointsOfPair(s: Str, rest: Str)
    requires |s| == 2 && IsHigh(s[0]) && IsLow(s[1])
    ensures CodePoints(s + rest) == [s] + CodePoints(rest)
  {
    assert (s + rest)[..2] == s && (s + rest)[2..] == rest;
  }

  lemma CodePointsOfSingle(u: Unit, rest: Str)
    requires !(IsHigh(u) && StartsLow(rest))
    ensures CodePoints([u] + rest) == [[u]] + CodePoints(rest)
  {
    assert ([u] + rest)[..1] == [u] && ([u] + rest)[1..] == rest;
  }

  /** Where the rest of a lone unit starts low, a soft hyphen has just gone. */
  lemma LoneThenLow(s: Str)
    requires s != [] && FirstLength(s) == 1 && IsHigh(s[0]) && StartsLow(Dehyphen(s[1..]))
    ensures SplitsPair(s)
  {
    assert s[1..] != [] && s[1..][0] == s[1];
  }

  /**
   Dropping the soft hyphens leaves the other code points exactly when no pair is split;
   otherwise two of them become one.
   */
  lemma {:induction false} DehyphenedIff(s: Str)
    ensures if SplitsPair(s) then |CodePoints(Dehyphen(s))| < |Visible(CodePoints(s))|
            else CodePoints(Dehyphen(s)) == Visible(CodePoints(s))
    decreases |s|
  {
    if s != [] {
      var n := FirstLength(s);
      DehyphenedIff(s[n..]);
      assert CodePoints(s) == [s[..n]] + CodePoints(s[n..]);
      if s[0] == SOFT_HYPHEN {
        assert n == 1 && s[..1] == [SOFT_HYPHEN] && Dehyphen(s) == Dehyphen(s[1..]);
        assert Visible(CodePoints(s)) == Visible(CodePoints(s[1..]));
      } else {
        FirstStays(s);
        VisibleFirst(s[..n], CodePoints(s[n..]));
        if n == 2 {
          CodePointsOfPair(s[..2], Dehyphen(s[2..]));
        } else {
          SingleStep(s);
        }
      }
    }
  }

  lemma VisibleFirst(cp: Str, rest: seq<Str>)
    requires cp != [SOFT_HYPHEN]
    ensures Visible([cp] + rest) == [cp] + Visible(rest)
  {
    assert ([cp] + rest)[1..] == rest;
  }

  /** `DehyphenedIff` for one string. */
  ghost predicate Closes(s: Str) {
    if SplitsPair(s) then |CodePoints(Dehyphen(s))| < |Visible(CodePoints(s))|
    else CodePoints(Dehyphen(s)) == Visible(CodePoints(s))
  }

  lemma SingleStep(s: Str)
    requires s != [] && s[0] != SOFT_HYPHEN && FirstLength(s) == 1
    requires Dehyphen(s) == [s[0]] + Dehyphen(s[1..])
    requires Visible(CodePoints(s)) == [s[..1]] + Visible(CodePoints(s[1..]))
    requires Closes(s[1..])
    ensures Closes(s)
  {
    var rest := Dehyphen(s[1..]);
    if IsHigh(s[0]) && StartsLow(rest) {
      LoneThenLow(s);
      MergedPair(s[0], rest);
      assert |CodePoints(rest)| <= |Visible(CodePoints(s[1..]))|;
    } else {
      CodePointsOfSingle(s[0], rest);
      assert s[..1] == [s[0]];
    }
  }

  /** A pair that closes up takes one code point less. */
  lemma MergedPair(high: Unit, rest: Str)
    requires IsHigh(high) && StartsLow(rest)
    ensures |CodePoints([high] + rest)| == |CodePoints(rest)|
  {
    assert rest == [rest[0]] + rest[1..];
    assert [high] + rest == [high, rest[0]] + rest[1..];
    CodePointsOfPair([high, rest[0]], rest[1..]);
    CodePointsOfSingle(rest[0], rest[1..]);
  }

  // ------------------------------------------------------------------ whole pages

  lemma SourceDehyphened(v: TextItem)
    ensures Source(TextItem(Dehyphen(v.str), v.hasEOL)) == Dehyphen(Source(v))
  {
    if v.hasEOL {
      DehyphenAppend(v.str, [NEWLINE]);
      assert Dehyphen([NEWLINE]) == [NEWLINE] by { assert [NEWLINE][1..] == []; }
    } else {
      assert Source(v) == v.str && Source(TextItem(Dehyphen(v.str), false)) == Dehyphen(v.str);
    }
  }

  /** A page without its soft hyphens has just the visible code points, if and only if no pair was split. */
  lemma {:induction false} PageDehyphenedIff(items: seq<TextItem>)
    ensures if SomePairSplit(items)
            then |PageCodePoints(DehyphenItems(items))| < |Visible(PageCodePoints(items))|
            else PageCodePoints(DehyphenItems(items)) == Visible(PageCodePoints(items))
    decreases |items|
  {
    if items != [] {
      PageDehyphenedIff(items[1..]);
      SourceDehyphened(items[0]);
      DehyphenedIff(Source(items[0]));
      VisibleAppend(CodePoints(Source(items[0])), PageCodePoints(items[1..]));
      assert DehyphenItems(items)[1..] == DehyphenItems(items[1..]);
    }
  }

  lemma {:induction false} VisibleCps(cells: seq<Cell>)
    ensures Cps(VisibleCells(cells)) == Visible(Cps(cells))
    decreases |cells|
  {
    if cells != [] {
      VisibleCps(cells[1..]);
      assert Cps(cells)[1..] == Cps(cells[1..]);
    }
  }

  lemma {:induction false} RunOnVisible(t: Tables, sensitive: bool, acc: seq<Glyph>, cells: seq<Cell>)
    ensures Run(t, sensitive, acc, cells) == Run(t, sensitive, acc, VisibleCells(cells))
    decreases |cells|
  {
    if cells != [] {
      RunOnVisible(t, sensitive, Absorb(t, sensitive, acc, cells[0]), cells[1..]);
      var rest := VisibleCells(cells[1..]);
      if cells[0].cp == [SOFT_HYPHEN] {
        assert VisibleCells(cells) == rest;
      } else {
        assert VisibleCells(cells) == [cells[0]] + rest && ([cells[0]] + rest)[1..] == rest;
      }
    }
  }

  /** Soft hyphens leave no trace: a page without split pairs normalises like the page without them. */
  lemma SoftHyphensVanish(t: Tables, sensitive: bool, items: seq<TextItem>)
    requires !SomePairSplit(items)
    ensures Units(Normalized(t, sensitive, items)) == Units(Normalized(t, sensitive, DehyphenItems(items)))
  {
    var cells, bare := Cells(items, 0), Cells(DehyphenItems(items), 0);
    CpsOfCells(items, 0);
    CpsOfCells(DehyphenItems(items), 0);
    assert items[0..] == items && DehyphenItems(items)[0..] == DehyphenItems(items);
    PageDehyphenedIff(items);
    VisibleCps(cells);
    RunOnVisible(t, sensitive, [], cells);
    SameText(t, sensitive, [], [], VisibleCells(cells), bare);
  }

  // --------------------------------------------------------- a pair that was split

  const HIGH: Unit := 0xD801
  const LOW: Unit := 0xDC00
  const LOWER: Unit := 0xDC28

  function Same(s: Str): Str { s }

  /** The Deseret capital U+10400, a pair in UTF-16, and its lower case U+10428. */
  function LowerPair(s: Str): Str {
    if s == [HIGH, LOW] then [HIGH, LOWER] else s
  }

  /** A cell that folds to one code point other than white space adds exactly its units. */
  lemma AbsorbOne(t: Tables, acc: seq<Glyph>, c: Cell, cp: Str)
    requires c.cp != [SOFT_HYPHEN] && Folded(t, false, c.cp) == cp && CodePoints(cp) == [cp]
    requires |cp| != 1 || !IsSpace(cp[0])
    ensures Units(Absorb(t, false, acc, c)) == Units(acc) + cp
  {
    EmitUnits(acc, cp, c);
    assert [cp][1..] == [] && Part(cp) == cp;
    assert EmitAll(acc, [cp], c) == EmitAll(Emit(acc, cp, c), [], c);
  }

  lemma OneUnit(u: Unit)
    ensures CodePoints([u]) == [[u]]
  {
    CodePointsOfSingle(u, []);
    assert [u] + [] == [u] && CodePoints([]) == [];
  }

  lemma OnePair(s: Str)
    requires |s| == 2 && IsHigh(s[0]) && IsLow(s[1])
    ensures CodePoints(s) == [s]
  {
    CodePointsOfPair(s, []);
    assert s + [] == s && CodePoints([]) == [];
  }

  lemma RunTwo(t: Tables, cells: seq<Cell>, u: Unit, v: Unit)
    requires |cells| == 2 && cells[0].cp != [SOFT_HYPHEN] && cells[1].cp != [SOFT_HYPHEN]
    requires Folded(t, false, cells[0].cp) == [u] && Folded(t, false, cells[1].cp) == [v]
    requires !IsSpace(u) && !IsSpace(v)
    ensures Units(Run(t, false, [], cells)) == [u, v]
  {
    var one := Absorb(t, false, [], cells[0]);
    OneUnit(u);
    OneUnit(v);
    AbsorbOne(t, [], cells[0], [u]);
    AbsorbOne(t, one, cells[1], [v]);
    assert cells[1..][0] == cells[1] && cells[1..][1..] == [];
    assert Run(t, false, [], cells) == Run(t, false, one, cells[1..]);
    assert Run(t, false, one, cells[1..]) == Absorb(t, false, one, cells[1]);
  }

  lemma RunSingle(t: Tables, cells: seq<Cell>, cp: Str)
    requires |cells| == 1 && cells[0].cp != [SOFT_HYPHEN] && Folded(t, false, cells[0].cp) == cp
    requires CodePoints(cp) == [cp] && (|cp| != 1 || !IsSpace(cp[0]))
    ensures Units(Run(t, false, [], cells)) == cp
  {
    AbsorbOne(t, [], cells[0], cp);
    assert cells[1..] == [] && Run(t, false, [], cells) == Run(t, false, Absorb(t, false, [], cells[0]), []);
  }

  lemma CpsOfOneItem(s: Str)
    ensures Cps(Cells([TextItem(s, false)], 0)) == CodePoints(s)
  {
    var items := [TextItem(s, false)];
    CpsOfCells(items, 0);
    PageCodePointsOne(items[0]);
    assert items[0..] == items && Source(items[0]) == s;
  }

  lemma SplitText(t: Tables)
    requires t == Tables(Same, LowerPair)
    ensures Units(Normalized(t, false, [TextItem([HIGH, SOFT_HYPHEN, LOW], false)])) == [HIGH, LOW]
  {
    var cells := Cells([TextItem([HIGH, SOFT_HYPHEN, LOW], false)], 0);
    CpsOfOneItem([HIGH, SOFT_HYPHEN, LOW]);
    ThreeCodePoints();
    VisibleCps(cells);
    VisibleOfThree();
    RunOnVisible(t, false, [], cells);
    var seen := VisibleCells(cells);
    assert |seen| == |Cps(seen)| == 2 && seen[0].cp == Cps(seen)[0] && seen[1].cp == Cps(seen)[1];
    RunTwo(t, seen, HIGH, LOW);
  }

  lemma ClosedText(t: Tables)
    requires t == Tables(Same, LowerPair)
    ensures Units(Normalized(t, false, [TextItem([HIGH, LOW], false)])) == [HIGH, LOWER]
  {
    var cells := Cells([TextItem([HIGH, LOW], false)], 0);
    CpsOfOneItem([HIGH, LOW]);
    OnePair([HIGH, LOW]);
    OnePair([HIGH, LOWER]);
    assert |cells| == |Cps(cells)| == 1 && cells[0].cp == Cps(cells)[0];
    RunSingle(t, cells, [HIGH, LOWER]);
  }

  lemma DehyphenThree()
    ensures Dehyphen([HIGH, SOFT_HYPHEN, LOW]) == [HIGH, LOW] && SplitsPair([HIGH, SOFT_HYPHEN, LOW])
  {
    var s := [HIGH, SOFT_HYPHEN, LOW];
    assert s[1..] == [SOFT_HYPHEN, LOW] && s[1..][1..] == [LOW] && [LOW][1..] == [];
    assert Dehyphen([LOW]) == [LOW] && Dehyphen(s[1..]) == [LOW];
  }

  /** The condition is needed: a soft hyphen inside a pair changes what the pair folds to. */
  lemma SplitPairChangesText()
    ensures var t, items := Tables(Same, LowerPair), [TextItem([HIGH, SOFT_HYPHEN, LOW], false)];
            && t.KeepNewline() && SomePairSplit(items)
            && Units(Normalized(t, false, items)) == [HIGH, LOW]
            && Units(Normalized(t, false, DehyphenItems(items))) == [HIGH, LOWER]
  {
    var items := [TextItem([HIGH, SOFT_HYPHEN, LOW], false)];
    SplitText(Tables(Same, LowerPair));
    ClosedText(Tables(Same, LowerPair));
    DehyphenThree();
    assert items[1..] == [] && Source(items[0]) == items[0].str;
    assert DehyphenItems(items) == [TextItem([HIGH, LOW], false)];
  }

  lemma ThreeCodePoints()
    ensures CodePoints([HIGH, SOFT_HYPHEN, LOW]) == [[HIGH], [SOFT_HYPHEN], [LOW]]
  {
    assert [HIGH, SOFT_HYPHEN, LOW] == [HIGH] + [SOFT_HYPHEN, LOW] && [SOFT_HYPHEN, LOW] == [SOFT_HYPHEN] + [LOW];
    CodePointsOfSingle(HIGH, [SOFT_HYPHEN, LOW]);
    CodePointsOfSingle(SOFT_HYPHEN, [LOW]);
    OneUnit(LOW);
  }

  lemma VisibleOfThree()
    ensures Visible([[HIGH], [SOFT_HYPHEN], [LOW]]) == [[HIGH], [LOW]]
  {
    assert [[HIGH], [SOFT_HYPHEN], [LOW]] == [[HIGH]] + [[SOFT_HYPHEN], [LOW]];
    VisibleFirst([HIGH], [[SOFT_HYPHEN], [LOW]]);
    assert [[SOFT_HYPHEN], [LOW]][1..] == [[LOW]] + [];
    VisibleFirst([LOW], []);
    assert Visible([[SOFT_HYPHEN], [LOW]]) == Visible([[LOW]]);
  }
}
