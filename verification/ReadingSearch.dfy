/**
 Normalised text search over the text items of one PDF page
 (frontend/src/readingSearch.ts).

 A JavaScript string is a sequence of UTF-16 code units; iterating it yields code
 points of one or two units. NFKC and lower-casing are parameters (`Tables`).
 */
module ReadingSearch {
  import opened Common

  /** A UTF-16 code unit; nothing below depends on the upper bound 0xFFFF. */
  type Unit = int
  type Str = seq<Unit>

  const SPACE: Unit := 0x20
  const NEWLINE: Unit := 0x0A
  const SOFT_HYPHEN: Unit := 0xAD

  datatype TextItem = TextItem(str: Str, hasEOL: bool)

  /** The two Unicode operations that are not interpreted here. */
  datatype Tables = Tables(nfkc: Str -> Str, lower: Str -> Str) {
    /** The one fact used about them: a line feed is left alone. */
    predicate KeepNewline() {
      nfkc([NEWLINE]) == [NEWLINE] && lower([NEWLINE]) == [NEWLINE]
    }
  }

  // ---------------------------------------------------------------- code points

  predicate IsHigh(u: Unit) { 0xD800 <= u < 0xDC00 }

  predicate IsLow(u: Unit) { 0xDC00 <= u < 0xE000 }

  /** White space as the regular expression class `\s` and `trim` see it. */
  predicate IsSpace(u: Unit) {
    0x09 <= u <= 0x0D || u == 0x20 || u == 0xA0 || u == 0x1680 || 0x2000 <= u <= 0x200A
    || u == 0x2028 || u == 0x2029 || u == 0x202F || u == 0x205F || u == 0x3000 || u == 0xFEFF
  }

  function FirstLength(s: Str): nat
    requires s != []
  {
    if |s| >= 2 && IsHigh(s[0]) && IsLow(s[1]) then 2 else 1
  }

  function CodePoints(s: Str): seq<Str> {
    if s == [] then [] else [s[..FirstLength(s)]] + CodePoints(s[FirstLength(s)..])
  }

  lemma {:induction false} CodePointShape(s: Str, j: nat)
    requires j < |CodePoints(s)|
    ensures 1 <= |CodePoints(s)[j]| <= 2
    ensures |CodePoints(s)[j]| == 2 ==> IsHigh(CodePoints(s)[j][0]) && IsLow(CodePoints(s)[j][1])
  {
    if j > 0 { CodePointShape(s[FirstLength(s)..], j - 1); }
  }

  /** Offset in `s` of its `j`-th code point. */
  function Offset(s: Str, j: nat): (at: nat)
    requires j <= |CodePoints(s)|
    ensures at <= |s|
  {
    if j == 0 then 0 else FirstLength(s) + Offset(s[FirstLength(s)..], j - 1)
  }

  /** One code point off the front. */
  lemma FrontCodePoint(s: Str, j: nat)
    requires 0 < j <= |CodePoints(s)|
    ensures s != [] && j - 1 <= |CodePoints(s[FirstLength(s)..])|
    ensures CodePoints(s) == [s[..FirstLength(s)]] + CodePoints(s[FirstLength(s)..])
    ensures Offset(s, j) == FirstLength(s) + Offset(s[FirstLength(s)..], j - 1)
  {
  }

  lemma DropStep(s: Str, rest: Str, j: nat, at: nat, from: nat)
    requires s != [] && rest == s[FirstLength(s)..] && 0 < j <= 1 + |CodePoints(rest)| && at <= |rest|
    requires from == FirstLength(s) + at && CodePoints(rest[at..]) == CodePoints(rest)[j - 1..]
    ensures j <= |CodePoints(s)| && CodePoints(s[from..]) == CodePoints(s)[j..]
  {
    assert s[from..] == rest[at..];
    assert CodePoints(s) == [s[..FirstLength(s)]] + CodePoints(rest);
  }

  /** Decoding commutes with cutting at a code point boundary. */
  lemma {:induction false} DropCodePoints(s: Str, j: nat)
    requires j <= |CodePoints(s)|
    ensures CodePoints(s[Offset(s, j)..]) == CodePoints(s)[j..]
  {
    if j == 0 {
      assert s[0..] == s;
    } else {
      FrontCodePoint(s, j);
      var rest := s[FirstLength(s)..];
      DropCodePoints(rest, j - 1);
      DropStep(s, rest, j, Offset(rest, j - 1), Offset(s, j));
    }
  }

  /** Cutting behind a later code point leaves the first one alone. */
  lemma PrefixRest(s: Str, j: nat)
    requires 0 < j <= |CodePoints(s)|
    ensures var n, p := FirstLength(s), s[..Offset(s, j)];
            && j - 1 <= |CodePoints(s[n..])|
            && p != [] && FirstLength(p) == n && p[..n] == s[..n] && p[n..] == s[n..][..Offset(s[n..], j - 1)]
  {
    FrontCodePoint(s, j);
  }

  lemma {:induction false} TakeCodePoints(s: Str, j: nat)
    requires j <= |CodePoints(s)|
    ensures CodePoints(s[..Offset(s, j)]) == CodePoints(s)[..j]
  {
    if j > 0 {
      var n := FirstLength(s);
      PrefixRest(s, j);
      FrontCodePoint(s, j);
      TakeCodePoints(s[n..], j - 1);
      TakeBehindFirst(s[..n], CodePoints(s[n..]), j);
    }
  }

  lemma TakeBehindFirst<T>(x: T, rest: seq<T>, j: nat)
    requires 0 < j <= 1 + |rest|
    ensures ([x] + rest)[..j] == [x] + rest[..j - 1]
  {
  }

  lemma SliceShift<T>(s: seq<T>, n: nat, a: nat, b: nat)
    requires a <= b && n + b <= |s|
    ensures s[n..][a..b] == s[n + a..n + b]
  {
  }

  /** Offsets advance by the length of the code point passed over. */
  lemma {:induction false} OffsetNext(s: Str, j: nat)
    requires j < |CodePoints(s)|
    ensures Offset(s, j) < Offset(s, j + 1) <= |s|
    ensures CodePoints(s)[j] == s[Offset(s, j)..Offset(s, j + 1)]
  {
    FrontCodePoint(s, j + 1);
    var n, rest := FirstLength(s), s[FirstLength(s)..];
    if j > 0 {
      FrontCodePoint(s, j);
      OffsetNext(rest, j - 1);
      SliceShift(s, n, Offset(rest, j - 1), Offset(rest, j));
    }
  }

  // -------------------------------------------------------------- normalisation

  /** A code point of the page with the place it is mapped back to. */
  datatype Cell = Cell(cp: Str, item: nat, start: nat, end: nat)

  /** One unit of normalised text with its entry in the three offset arrays. */
  datatype Glyph = Glyph(unit: Unit, item: nat, start: nat, end: nat)

  function Source(v: TextItem): Str {
    v.str + if v.hasEOL then [NEWLINE] else []
  }

  function CellsFrom(cps: seq<Str>, index: nat, at: nat, limit: nat): (cells: seq<Cell>)
    ensures |cells| == |cps|
  {
    if cps == [] then []
    else
      [Cell(cps[0], index, Min(at, limit), Min(at + |cps[0]|, limit))]
      + CellsFrom(cps[1..], index, at + |cps[0]|, limit)
  }

  function ItemCells(v: TextItem, index: nat): (cells: seq<Cell>) {
    CellsFrom(CodePoints(Source(v)), index, 0, |v.str|)
  }

  function Cells(items: seq<TextItem>, k: nat): seq<Cell>
    requires k <= |items|
    decreases |items| - k
  {
    if k == |items| then [] else ItemCells(items[k], k) + Cells(items, k + 1)
  }

  function Folded(t: Tables, sensitive: bool, cp: Str): Str {
    if sensitive then t.nfkc(cp) else t.lower(t.nfkc(cp))
  }

  function Part(ch: Str): Str {
    if |ch| == 1 && IsSpace(ch[0]) then [SPACE] else ch
  }

  function Units(g: seq<Glyph>): (s: Str)
    ensures |s| == |g|
  {
    seq(|g|, k requires 0 <= k < |g| => g[k].unit)
  }

  function Stamp(part: Str, c: Cell): (g: seq<Glyph>)
    ensures |g| == |part|
  {
    seq(|part|, k requires 0 <= k < |part| => Glyph(part[k], c.item, c.start, c.end))
  }

  predicate EndsWithSpace(g: seq<Glyph>) {
    g != [] && g[|g| - 1].unit == SPACE
  }

  function Emit(acc: seq<Glyph>, part: Str, c: Cell): seq<Glyph> {
    if part == [SPACE] && EndsWithSpace(acc) then acc else acc + Stamp(part, c)
  }

  function EmitAll(acc: seq<Glyph>, chars: seq<Str>, c: Cell): seq<Glyph>
    decreases |chars|
  {
    if chars == [] then acc else EmitAll(Emit(acc, Part(chars[0]), c), chars[1..], c)
  }

  function Absorb(t: Tables, sensitive: bool, acc: seq<Glyph>, c: Cell): seq<Glyph> {
    if c.cp == [SOFT_HYPHEN] then acc
    else EmitAll(acc, CodePoints(Folded(t, sensitive, c.cp)), c)
  }

  function Run(t: Tables, sensitive: bool, acc: seq<Glyph>, cells: seq<Cell>): seq<Glyph>
    decreases |cells|
  {
    if cells == [] then acc
    else Run(t, sensitive, Absorb(t, sensitive, acc, cells[0]), cells[1..])
  }

  function Normalized(t: Tables, sensitive: bool, items: seq<TextItem>): seq<Glyph> {
    Run(t, sensitive, [], Cells(items, 0))
  }

  /** The four parallel results stand for the sequence of glyphs `g`. */
  ghost predicate Mirrors(g: seq<Glyph>, text: Str, item: seq<nat>, start: seq<nat>, end: seq<nat>) {
    && |text| == |item| == |start| == |end| == |g|
    && forall k :: 0 <= k < |g| ==> g[k] == Glyph(text[k], item[k], start[k], end[k])
  }

  lemma {:induction false} RunAppend(t: Tables, sensitive: bool, acc: seq<Glyph>, a: seq<Cell>, b: seq<Cell>)
    ensures Run(t, sensitive, acc, a + b) == Run(t, sensitive, Run(t, sensitive, acc, a), b)
    decreases |a|
  {
    if a == [] {
      assert a + b == b;
    } else {
      assert (a + b)[1..] == a[1..] + b;
      RunAppend(t, sensitive, Absorb(t, sensitive, acc, a[0]), a[1..], b);
    }
  }

  function Repeat(x: nat, n: nat): (s: seq<nat>)
    ensures |s| == n && forall k :: 0 <= k < n ==> s[k] == x
  {
    seq(n, _ => x)
  }

  /** What emitting one part does to the four parallel results. */
  lemma MirrorsEmit(g: seq<Glyph>, text: Str, item: seq<nat>, start: seq<nat>, end: seq<nat>, part: Str, c: Cell)
    requires Mirrors(g, text, item, start, end)
    ensures if part == [SPACE] && text != [] && text[|text| - 1] == SPACE then Emit(g, part, c) == g
            else Mirrors(Emit(g, part, c), text + part, item + Repeat(c.item, |part|),
                         start + Repeat(c.start, |part|), end + Repeat(c.end, |part|))
  {
  }

  lemma EmitNext(g: seq<Glyph>, left: Str, c: Cell)
    requires left != []
    ensures var n := FirstLength(left);
            EmitAll(g, CodePoints(left), c) == EmitAll(Emit(g, Part(left[..n]), c), CodePoints(left[n..]), c)
  {
  }

  /** The cell of the first code point of `left`. */
  function FirstCell(left: Str, index: nat, at: nat, limit: nat): Cell
    requires left != []
  {
    Cell(left[..FirstLength(left)], index, Min(at, limit), Min(at + FirstLength(left), limit))
  }

  lemma CellsNext(t: Tables, sensitive: bool, g: seq<Glyph>, left: Str, index: nat, at: nat, limit: nat)
    requires left != []
    ensures var n, c := FirstLength(left), FirstCell(left, index, at, limit);
            Run(t, sensitive, g, CellsFrom(CodePoints(left), index, at, limit))
            == Run(t, sensitive, Absorb(t, sensitive, g, c), CellsFrom(CodePoints(left[n..]), index, at + n, limit))
  {
    var n, c := FirstLength(left), FirstCell(left, index, at, limit);
    var rest := CellsFrom(CodePoints(left[n..]), index, at + n, limit);
    assert CellsFrom(CodePoints(left), index, at, limit) == [c] + rest;
    assert ([c] + rest)[1..] == rest;
  }

  /** `normalizeItems`: four growing results over the items. */
  method NormalizeItems(t: Tables, items: seq<TextItem>, sensitive: bool)
    returns (text: Str, item: seq<nat>, start: seq<nat>, end: seq<nat>)
    ensures Mirrors(Normalized(t, sensitive, items), text, item, start, end)
  {
    text, item, start, end := [], [], [], [];
    ghost var g: seq<Glyph> := [];
    for index := 0 to |items|
      invariant Mirrors(g, text, item, start, end)
      invariant Run(t, sensitive, g, Cells(items, index)) == Normalized(t, sensitive, items)
    {
      RunAppend(t, sensitive, g, ItemCells(items[index], index), Cells(items, index + 1));
      text, item, start, end := AppendItem(t, sensitive, text, item, start, end, g, items[index], index);
      g := Run(t, sensitive, g, ItemCells(items[index], index));
    }
  }

  /** The loop over the code points of one item. */
  method AppendItem(t: Tables, sensitive: bool, text0: Str, item0: seq<nat>, start0: seq<nat>, end0: seq<nat>,
                    ghost g0: seq<Glyph>, value: TextItem, index: nat)
    returns (text: Str, item: seq<nat>, start: seq<nat>, end: seq<nat>)
    requires Mirrors(g0, text0, item0, start0, end0)
    ensures Mirrors(Run(t, sensitive, g0, ItemCells(value, index)), text, item, start, end)
  {
    text, item, start, end := text0, item0, start0, end0;
    ghost var g := g0;
    ghost var goal := Run(t, sensitive, g0, ItemCells(value, index));
    var left := Source(value);
    var offset: nat := 0;
    while left != []
      invariant Mirrors(g, text, item, start, end)
      invariant Run(t, sensitive, g, CellsFrom(CodePoints(left), index, offset, |value.str|)) == goal
      decreases |left|
    {
      CellsNext(t, sensitive, g, left, index, offset, |value.str|);
      var n, c := FirstLength(left), FirstCell(left, index, offset, |value.str|);
      left, offset := left[n..], offset + n;
      text, item, start, end := AppendCell(t, sensitive, text, item, start, end, g, c);
      g := Absorb(t, sensitive, g, c);
    }
  }

  /** The body of that loop: soft hyphens are dropped, anything else is folded. */
  method AppendCell(t: Tables, sensitive: bool, text0: Str, item0: seq<nat>, start0: seq<nat>, end0: seq<nat>,
                    ghost g0: seq<Glyph>, c: Cell)
    returns (text: Str, item: seq<nat>, start: seq<nat>, end: seq<nat>)
    requires Mirrors(g0, text0, item0, start0, end0)
    ensures Mirrors(Absorb(t, sensitive, g0, c), text, item, start, end)
  {
    text, item, start, end := text0, item0, start0, end0;
    if c.cp != [SOFT_HYPHEN] {
      text, item, start, end := AppendFolded(text, item, start, end, g0, Folded(t, sensitive, c.cp), c);
    }
  }

  /** The loop over the characters of one folded code point. */
  method AppendFolded(text0: Str, item0: seq<nat>, start0: seq<nat>, end0: seq<nat>, ghost g0: seq<Glyph>,
                      folded: Str, c: Cell)
    returns (text: Str, item: seq<nat>, start: seq<nat>, end: seq<nat>)
    requires Mirrors(g0, text0, item0, start0, end0)
    ensures Mirrors(EmitAll(g0, CodePoints(folded), c), text, item, start, end)
  {
    text, item, start, end := text0, item0, start0, end0;
    ghost var g := g0;
    ghost var goal := EmitAll(g0, CodePoints(folded), c);
    var left := folded;
    while left != []
      invariant Mirrors(g, text, item, start, end)
      invariant EmitAll(g, CodePoints(left), c) == goal
      decreases |left|
    {
      var part := Part(left[..FirstLength(left)]);
      EmitNext(g, left, c);
      MirrorsEmit(g, text, item, start, end, part, c);
      left, g := left[FirstLength(left)..], Emit(g, part, c);
      if part == [SPACE] && text != [] && text[|text| - 1] == SPACE {
        continue;
      }
      text := text + part;
      item, start, end := AppendOffsets(item, start, end, |part|, c);
    }
  }

  /** The innermost loop: one entry in each offset array for every unit of the part. */
  method AppendOffsets(item0: seq<nat>, start0: seq<nat>, end0: seq<nat>, length: nat, c: Cell)
    returns (item: seq<nat>, start: seq<nat>, end: seq<nat>)
    ensures item == item0 + Repeat(c.item, length)
    ensures start == start0 + Repeat(c.start, length)
    ensures end == end0 + Repeat(c.end, length)
  {
    item, start, end := item0, start0, end0;
    for n := 0 to length
      invariant item == item0 + Repeat(c.item, n)
      invariant start == start0 + Repeat(c.start, n)
      invariant end == end0 + Repeat(c.end, n)
    {
      item, start, end := item + [c.item], start + [c.start], end + [c.end];
    }
  }

  // ------------------------------------------------------------------- matching

  function TrimStart(s: Str): (r: Str) {
    if s != [] && IsSpace(s[0]) then TrimStart(s[1..]) else s
  }

  function TrimEnd(s: Str): (r: Str)
    ensures r == [] || !IsSpace(r[|r| - 1])
    ensures r <= s
  {
    if s != [] && IsSpace(s[|s| - 1]) then TrimEnd(s[..|s| - 1]) else s
  }

  function Trim(s: Str): Str {
    TrimEnd(TrimStart(s))
  }

  function Needle(t: Tables, query: Str, sensitive: bool): Str {
    Trim(Units(Normalized(t, sensitive, [TextItem(query, false)])))
  }

  predicate OccursAt(text: Str, needle: Str, p: int) {
    0 <= p && p + |needle| <= |text| && text[p..p + |needle|] == needle
  }

  /** `text.indexOf(needle, from)`. */
  function IndexOf(text: Str, needle: Str, from: nat): (r: Option<nat>)
    ensures r.Some? ==> from <= r.value && OccursAt(text, needle, r.value)
    decreases |text| - from
  {
    if from + |needle| > |text| then None
    else if OccursAt(text, needle, from) then Some(from)
    else if from == |text| then None
    else IndexOf(text, needle, from + 1)
  }

  lemma {:induction false} IndexOfIsFirst(text: Str, needle: Str, from: nat)
    ensures match IndexOf(text, needle, from)
            case Some(p) => forall q :: from <= q < p ==> !OccursAt(text, needle, q)
            case None => forall q :: from <= q ==> !OccursAt(text, needle, q)
    decreases |text| - from
  {
    if from + |needle| <= |text| && !OccursAt(text, needle, from) && from < |text| {
      IndexOfIsFirst(text, needle, from + 1);
    }
  }

  /** Every position leaves room for `width` of `n` units. */
  ghost predicate AllFit(n: nat, width: nat, ps: seq<int>) {
    forall k :: 0 <= k < |ps| ==> 0 <= ps[k] <= n - width
  }

  /** Every position the scan stops at, from `from` on. */
  ghost function Positions(text: Str, needle: Str, from: nat): (ps: seq<int>)
    requires needle != []
    ensures AllFit(|text|, |needle|, ps)
    decreases |text| - from
  {
    match IndexOf(text, needle, from)
    case None => []
    case Some(p) => [p] + Positions(text, needle, p + |needle|)
  }

  datatype Match = Match(startItem: nat, startOffset: nat, endItem: nat, endOffset: nat,
                         before: Str, text: Str, after: Str)

  ghost function MatchAt(g: seq<Glyph>, needle: Str, p: int): Match
    requires needle != [] && 0 <= p && p + |needle| <= |g|
  {
    var text, last := Units(g), p + |needle| - 1;
    Match(g[p].item, g[p].start, g[last].item, g[last].end,
          text[Max(0, p - 45)..p], needle, text[last + 1..Min(last + 71, |text|)])
  }

  ghost function MatchesOf(g: seq<Glyph>, needle: Str, ps: seq<int>): (ms: seq<Match>)
    requires needle != [] && AllFit(|g|, |needle|, ps)
    ensures |ms| == |ps|
  {
    seq(|ps|, k requires 0 <= k < |ps| => MatchAt(g, needle, ps[k]))
  }

  /** All matches of the page, in order. */
  ghost function AllMatches(t: Tables, items: seq<TextItem>, query: Str, sensitive: bool): seq<Match> {
    var needle, g := Needle(t, query, sensitive), Normalized(t, sensitive, items);
    if needle == [] then [] else MatchesOf(g, needle, Positions(Units(g), needle, 0))
  }

  /** The page of results that `skip` and `limit` select. */
  function Window<T>(all: seq<T>, skip: int, limit: int): seq<T> {
    var lo := Clamp(skip, 0, |all|);
    all[lo..Clamp(lo + limit, lo, |all|)]
  }

  lemma WindowGrow<T>(done: seq<T>, x: T, skip: int, limit: int)
    ensures Window(done + [x], skip, limit)
         == if |done| >= skip && |Window(done, skip, limit)| < limit
            then Window(done, skip, limit) + [x] else Window(done, skip, limit)
  {
    var lo := Clamp(skip, 0, |done|);
    if |done| < skip {
      assert Window(done, skip, limit) == [];
    } else {
      assert Clamp(skip, 0, |done| + 1) == lo;
      assert (done + [x])[lo..] == done[lo..] + [x];
    }
  }

  /** The match record built from the offset arrays. */
  function RecordAt(text: Str, item: seq<nat>, start: seq<nat>, end: seq<nat>, p: nat, n: nat): Match
    requires 0 < n && p + n <= |text| == |item| == |start| == |end|
  {
    var last := p + n - 1;
    Match(item[p], start[p], item[last], end[last],
          text[Max(0, p - 45)..p], text[p..last + 1], text[last + 1..Min(last + 71, |text|)])
  }

  /** `findMatches`: the count is over the whole page, the list is one window of it. */
  method FindMatches(t: Tables, items: seq<TextItem>, query: Str, sensitive: bool, skip: int, limit: int)
    returns (count: nat, matches: seq<Match>, characters: nat)
    ensures count == |AllMatches(t, items, query, sensitive)|
    ensures matches == Window(AllMatches(t, items, query, sensitive), skip, limit)
    ensures characters == |Trim(Units(Normalized(t, sensitive, items)))|
  {
    var text, item, start, end := NormalizeItems(t, items, sensitive);
    ghost var g := Normalized(t, sensitive, items);
    assert text == Units(g);
    var needle, _, _, _ := NormalizeItems(t, [TextItem(query, false)], sensitive);
    assert needle == Units(Normalized(t, sensitive, [TextItem(query, false)]));
    needle := Trim(needle);
    count, matches := 0, [];
    if needle != [] {
      MirrorsRecords(g, text, item, start, end, needle);
      count, matches := Collect(g, text, item, start, end, needle, skip, limit);
    }
    characters := |Trim(text)|;
  }

  /** The scan stops at the next position and goes on behind the needle. */
  lemma PositionsStep(text: Str, needle: Str, from: nat)
    requires needle != []
    ensures match IndexOf(text, needle, from)
            case None => Positions(text, needle, from) == []
            case Some(p) => Positions(text, needle, from) == [p] + Positions(text, needle, p + |needle|)
  {
  }

  lemma MoveOver<T>(seen: seq<T>, x: T, rest: seq<T>)
    ensures seen + ([x] + rest) == (seen + [x]) + rest
  {
  }

  lemma OneMoreMatch(g: seq<Glyph>, needle: Str, seen: seq<int>, p: int)
    requires needle != [] && AllFit(|g|, |needle|, seen) && 0 <= p <= |g| - |needle|
    ensures AllFit(|g|, |needle|, seen + [p])
    ensures MatchesOf(g, needle, seen + [p]) == MatchesOf(g, needle, seen) + [MatchAt(g, needle, p)]
  {
  }

  /** The records built from the arrays are the matches of the glyphs. */
  ghost predicate Records(g: seq<Glyph>, text: Str, item: seq<nat>, start: seq<nat>, end: seq<nat>, needle: Str)
    requires needle != [] && |text| == |item| == |start| == |end| == |g|
  {
    forall p :: 0 <= p <= |g| - |needle| && OccursAt(text, needle, p) ==>
      RecordAt(text, item, start, end, p, |needle|) == MatchAt(g, needle, p)
  }

  lemma MirrorsRecords(g: seq<Glyph>, text: Str, item: seq<nat>, start: seq<nat>, end: seq<nat>, needle: Str)
    requires Mirrors(g, text, item, start, end) && text == Units(g) && needle != []
    ensures Records(g, text, item, start, end, needle)
  {
  }

  ghost function Rest(g: seq<Glyph>, needle: Str, position: nat): seq<int>
    requires needle != []
  {
    Positions(Units(g), needle, position)
  }

  /** The scan has found `seen` of `all` before `position` and kept the wanted ones in `matches`. */
  ghost predicate Scanned(g: seq<Glyph>, needle: Str, position: nat, seen: seq<int>, all: seq<int>,
                          matches: seq<Match>, skip: int, limit: int)
  {
    && needle != [] && position <= |g| && AllFit(|g|, |needle|, seen)
    && matches == Window(MatchesOf(g, needle, seen), skip, limit)
    && seen + Rest(g, needle, position) == all
  }

  /** A found match is added once `skip` are passed, until there are `limit`. */
  function Keep(matches: seq<Match>, count: nat, m: Match, skip: int, limit: int): seq<Match> {
    if count >= skip && |matches| < limit then matches + [m] else matches
  }

  lemma RestStep(g: seq<Glyph>, needle: Str, position: nat, p: nat)
    requires needle != [] && IndexOf(Units(g), needle, position) == Some(p)
    ensures Rest(g, needle, position) == [p] + Rest(g, needle, p + |needle|)
  {
  }

  lemma ScanKept(g: seq<Glyph>, needle: Str, seen: seq<int>, matches: seq<Match>, skip: int, limit: int, p: nat,
                 seen': seq<int>, matches': seq<Match>)
    requires needle != [] && AllFit(|g|, |needle|, seen) && p <= |g| - |needle|
    requires matches == Window(MatchesOf(g, needle, seen), skip, limit)
    requires seen' == seen + [p] && matches' == Keep(matches, |seen|, MatchAt(g, needle, p), skip, limit)
    ensures AllFit(|g|, |needle|, seen')
    ensures matches' == Window(MatchesOf(g, needle, seen'), skip, limit)
  {
    OneMoreMatch(g, needle, seen, p);
    WindowGrow(MatchesOf(g, needle, seen), MatchAt(g, needle, p), skip, limit);
  }

  lemma RestMoves(g: seq<Glyph>, needle: Str, position: nat, p: nat, seen: seq<int>, all: seq<int>)
    requires needle != [] && IndexOf(Units(g), needle, position) == Some(p)
    requires seen + Rest(g, needle, position) == all
    ensures (seen + [p]) + Rest(g, needle, p + |needle|) == all
  {
    RestStep(g, needle, position, p);
    MoveOver(seen, p, Rest(g, needle, p + |needle|));
  }

  /** One round of the scan. */
  lemma ScanRound(g: seq<Glyph>, needle: Str, position: nat, seen: seq<int>, all: seq<int>, matches: seq<Match>,
                  skip: int, limit: int, p: nat, position': nat, seen': seq<int>, matches': seq<Match>)
    requires Scanned(g, needle, position, seen, all, matches, skip, limit)
    requires IndexOf(Units(g), needle, position) == Some(p)
    requires position' == p + |needle| && seen' == seen + [p]
    requires matches' == Keep(matches, |seen|, MatchAt(g, needle, p), skip, limit)
    ensures Scanned(g, needle, position', seen', all, matches', skip, limit)
  {
    RestMoves(g, needle, position, p, seen, all);
    ScanKept(g, needle, seen, matches, skip, limit, p, seen', matches');
  }

  lemma ScanEnd(g: seq<Glyph>, needle: Str, position: nat, seen: seq<int>, all: seq<int>, matches: seq<Match>,
                skip: int, limit: int)
    requires Scanned(g, needle, position, seen, all, matches, skip, limit)
    requires IndexOf(Units(g), needle, position).None?
    ensures seen == all && matches == Window(MatchesOf(g, needle, all), skip, limit)
  {
    PositionsStep(Units(g), needle, position);
  }

  lemma ScanStart(g: seq<Glyph>, needle: Str, skip: int, limit: int)
    requires needle != []
    ensures Scanned(g, needle, 0, [], Positions(Units(g), needle, 0), [], skip, limit)
  {
  }

  /** The scanning loop of `findMatches`. */
  method Collect(ghost g: seq<Glyph>, text: Str, item: seq<nat>, start: seq<nat>, end: seq<nat>,
                 needle: Str, skip: int, limit: int)
    returns (count: nat, matches: seq<Match>)
    requires |text| == |item| == |start| == |end| && text == Units(g) && needle != []
    requires Records(g, text, item, start, end, needle)
    ensures count == |Positions(text, needle, 0)|
    ensures matches == Window(MatchesOf(g, needle, Positions(text, needle, 0)), skip, limit)
  {
    count, matches := 0, [];
    var position := 0;
    ghost var seen: seq<int>, all := [], Positions(text, needle, 0);
    ScanStart(g, needle, skip, limit);
    while true
      invariant count == |seen| && Scanned(g, needle, position, seen, all, matches, skip, limit)
      decreases |text| - position
    {
      var found := IndexOf(text, needle, position);
      if found.None? {
        ScanEnd(g, needle, position, seen, all, matches, skip, limit);
        return;
      }
      var m := RecordAt(text, item, start, end, found.value, |needle|);
      ghost var before, seenBefore, matchesBefore := position, seen, matches;
      if count >= skip && |matches| < limit {
        matches := matches + [m];
      }
      seen := seen + [found.value];
      count, position := count + 1, found.value + |needle|;
      ScanRound(g, needle, before, seenBefore, all, matchesBefore, skip, limit, found.value, position, seen, matches);
    }
  }
}
