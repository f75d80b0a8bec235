/**
 The language of the parser of ipaper/arxiv_identity.py: exactly which values it accepts,
 as which base and version, and for which it keeps a newline in the base.
 */
module ArxivGrammar {
  import opened Common
  import opened ArxivIdentity
  import opened ArxivSoundness

  // ------------------------------------------------------------------ the grammar

  /** Text that `strip("/")` or `strip()` removes altogether. */
  predicate AllDrop(slash: bool, s: string) {
    forall k :: 0 <= k < |s| ==> Drops(slash, s[k])
  }

  predicate OnlyDigits(s: string) {
    forall k :: 0 <= k < |s| ==> '0' <= s[k] <= '9'
  }

  predicate OnlyCategory(s: string) {
    forall k :: 0 <= k < |s| ==> 'a' <= s[k] <= 'z' || 'A' <= s[k] <= 'Z' || s[k] == '.' || s[k] == '-'
  }

  /** Four digits, a dot and four or five digits. */
  predicate Modern(b: string, a: string, d: string) {
    OnlyDigits(a) && OnlyDigits(d) && |a| == 4 && (|d| == 4 || |d| == 5) && b == a + "." + d
  }

  /** A category that starts with a letter, a slash and seven digits. */
  predicate Legacy(b: string, c: char, cat: string, d: string) {
    && ('a' <= c <= 'z' || 'A' <= c <= 'Z') && OnlyCategory(cat) && OnlyDigits(d) && |d| == 7
    && b == [c] + cat + "/" + d
  }

  /** The two kinds of ids, from their pieces. */
  ghost predicate IsId(b: string) {
    (exists a, d :: Modern(b, a, d)) || (exists c, cat, d :: Legacy(b, c, cat, d))
  }

  /** `v` or `V` with one to four digits. */
  predicate IsMark(m: string) {
    2 <= |m| <= 5 && (m[0] == 'v' || m[0] == 'V') && OnlyDigits(m[1..])
  }

  /** What can follow the base: nothing or a version, after which `$` allows one newline. */
  predicate IsTail(tail: string) {
    tail == [] || IsMark(Body(tail))
  }

  /** The text between the decorations: slashes, a base, maybe a newline, a tail, slashes. */
  datatype Kept = Kept(before: string, id: string, newline: bool, tail: string, after: string) {
    ghost predicate Valid() {
      && AllDrop(true, before) && AllDrop(true, after) && IsId(id) && IsTail(tail)
      && (EndsWithNewline(Core()) ==> after != [])
    }

    /** What the parser returns as the base. */
    function Base(): string { id + if newline then "\n" else "" }

    function Version(): Option<nat> {
      if Body(tail) == [] then None else Some(ToNat(Body(tail)[1..]))
    }

    function Core(): string { Base() + tail }

    function Text(): string { before + Core() + after }
  }

  /** The decorations: white space, a prefix, white space; white space, the suffix, white space. */
  datatype Frame = Frame(space1: string, prefix: string, space2: string,
                         space3: string, suffix: string, space4: string) {
    predicate Valid() {
      && AllDrop(false, space1) && AllDrop(false, space2) && AllDrop(false, space3) && AllDrop(false, space4)
      && (if prefix == [] then space2 == [] else IsPrefix(Lower(prefix)))
      && (if suffix == [] then space3 == [] else Lower(suffix) == ".pdf")
    }

    function Inner(x: string): string {
      prefix + space2 + x + space3 + suffix
    }

    function Around(x: string): string {
      space1 + Inner(x) + space4
    }
  }

  /** The value is of the form `n` in the frame `f`. */
  ghost predicate IsForm(value: string, f: Frame, n: Kept) {
    f.Valid() && n.Valid() && value == f.Around(n.Text())
  }

  // ---------------------------------------------------------------- ids from pieces

  lemma ModernParts(b: string)
    requires IsModern(b)
    ensures Modern(b, b[..4], b[5..])
  {
    assert b == b[..4] + [b[4]] + b[5..];
    assert forall k :: 0 <= k < 4 ==> IsDigit(b[..4][k]);
    assert forall k :: 0 <= k < |b| - 5 ==> IsDigit(b[5..][k]);
  }

  lemma LegacyParts(b: string)
    requires IsLegacy(b)
    ensures Legacy(b, b[0], b[1..|b| - 8], b[|b| - 7..])
  {
    var cat, d := b[1..|b| - 8], b[|b| - 7..];
    assert b == [b[0]] + cat + [b[|b| - 8]] + d;
    assert forall k :: 0 <= k < |cat| ==> cat[k] == b[k + 1];
    assert forall k :: 0 <= k < 7 ==> IsDigit(d[k]);
  }

  lemma ModernIsPlain(b: string, a: string, d: string)
    requires Modern(b, a, d)
    ensures IsModern(b)
  {
    assert b[..4] == a && b[4] == '.' && b[5..] == d;
  }

  lemma LegacyIsPlain(b: string, c: char, cat: string, d: string)
    requires Legacy(b, c, cat, d)
    ensures IsLegacy(b)
  {
    assert b[|b| - 7..] == d && b[|b| - 8] == '/' && b[0] == c;
    forall k | 1 <= k < |b| - 8 ensures IsCategoryChar(b[k]) {
      assert b[k] == cat[k - 1];
    }
  }

  lemma IdIff(b: string)
    ensures IsId(b) <==> IsPlainBase(b)
  {
    if IsModern(b) {
      ModernParts(b);
    } else if IsLegacy(b) {
      LegacyParts(b);
    } else {
      forall a, d ensures !Modern(b, a, d) {
        if Modern(b, a, d) { ModernIsPlain(b, a, d); }
      }
      forall c, cat, d ensures !Legacy(b, c, cat, d) {
        if Legacy(b, c, cat, d) { LegacyIsPlain(b, c, cat, d); }
      }
    }
  }

  // -------------------------------------------------------- taking the value apart

  /** Text that neither starts nor ends with what `Strip` removes. */
  predicate Firm(x: string, slash: bool) {
    x != [] && !Drops(slash, x[0]) && !Drops(slash, x[|x| - 1])
  }

  lemma {:induction false} StripLeftParts(s: string, slash: bool) returns (l: string)
    ensures s == l + StripLeft(s, slash) && AllDrop(slash, l)
    decreases |s|
  {
    l := [];
    if s != [] && Drops(slash, s[0]) {
      l := StripLeftParts(s[1..], slash);
      l := [s[0]] + l;
    }
  }

  lemma {:induction false} StripRightParts(s: string, slash: bool) returns (r: string)
    ensures s == StripRight(s, slash) + r && AllDrop(slash, r)
    decreases |s|
  {
    r := [];
    if s != [] && Drops(slash, s[|s| - 1]) {
      r := StripRightParts(s[..|s| - 1], slash);
      r := r + [s[|s| - 1]];
    }
  }

  lemma StripParts(s: string, slash: bool) returns (l: string, r: string)
    ensures s == l + Strip(s, slash) + r && AllDrop(slash, l) && AllDrop(slash, r)
    ensures Strip(s, slash) == [] || Firm(Strip(s, slash), slash)
  {
    var t := StripLeft(s, slash);
    l := StripLeftParts(s, slash);
    r := StripRightParts(t, slash);
    assert s == l + StripRight(t, slash) + r;
    StripLeftFirm(s, slash);
    StripRightInside(t, slash);
  }

  lemma {:induction false} StripLeftFirm(s: string, slash: bool)
    ensures StripLeft(s, slash) == [] || !Drops(slash, StripLeft(s, slash)[0])
    decreases |s|
  {
    if s != [] && Drops(slash, s[0]) { StripLeftFirm(s[1..], slash); }
  }

  /** Text that starts or ends without a space has none to lose there. */
  lemma NoSpaceToLose(s: string, l: string, x: string, r: string)
    requires s == l + x + r && AllDrop(false, l) && AllDrop(false, r)
    ensures s == [] || !IsSpace(s[0]) ==> l == []
    ensures s == [] || !IsSpace(s[|s| - 1]) ==> r == []
  {
    if l != [] { assert s[0] == l[0]; }
    if r != [] { assert s[|s| - 1] == r[|r| - 1]; }
  }

  lemma PrefixParts(s: string) returns (prefix: string)
    ensures s == prefix + DropPrefix(s) && (prefix == [] || IsPrefix(Lower(prefix)))
  {
    prefix := s[..PrefixLength(s)];
    if PrefixLength(s) > 0 { var p := PrefixIs(s); }
  }

  lemma SuffixParts(s: string) returns (suffix: string)
    requires s == [] || !IsSpace(s[|s| - 1])
    ensures s == DropPdf(s) + suffix && (suffix == [] || Lower(suffix) == ".pdf")
  {
    suffix := s[|DropPdf(s)|..];
  }

  lemma SuffixEnd(s: string, t: string)
    requires s == [] || !IsSpace(s[|s| - 1])
    requires |t| <= |s| && t == s[|s| - |t|..]
    ensures t == [] || !IsSpace(t[|t| - 1])
  {
  }

  lemma OuterParts(value: string) returns (space1: string, prefix: string, space4: string)
    ensures var t := DropPrefix(Strip(value, false));
            && value == space1 + (prefix + t) + space4 && AllDrop(false, space1) && AllDrop(false, space4)
            && (prefix == [] || IsPrefix(Lower(prefix)))
            && (t == [] || !IsSpace(t[|t| - 1])) && (prefix == [] && t != [] ==> !IsSpace(t[0]))
  {
    space1, space4 := StripParts(value, false);
    var s := Strip(value, false);
    prefix := PrefixParts(s);
    SuffixEnd(s, DropPrefix(s));
  }

  lemma InnerParts(t: string) returns (space2: string, space3: string, suffix: string)
    requires t == [] || !IsSpace(t[|t| - 1])
    ensures t == (space2 + Strip(DropPdf(t), false) + space3) + suffix
    ensures AllDrop(false, space2) && AllDrop(false, space3)
    ensures t == [] || !IsSpace(t[0]) ==> space2 == []
    ensures if suffix == [] then space3 == [] else Lower(suffix) == ".pdf"
  {
    suffix := SuffixParts(t);
    var u := DropPdf(t);
    space2, space3 := StripParts(u, false);
    NoSpaceToLose(u, space2, Strip(u, false), space3);
    assert u != [] ==> u[0] == t[0];
    assert suffix == [] ==> u == t;
  }

  /** Every value is its kept text in a frame of decorations and slashes. */
  lemma ValueParts(value: string) returns (f: Frame, before: string, after: string)
    ensures f.Valid() && AllDrop(true, before) && AllDrop(true, after)
    ensures value == f.Around(before + Core(value) + after)
    ensures var x := before + Core(value) + after; x == [] || !IsSpace(x[|x| - 1])
  {
    var t := DropPrefix(Strip(value, false));
    var x := Strip(DropPdf(t), false);
    var space1, prefix, space4 := OuterParts(value);
    var space2, space3, suffix := InnerParts(t);
    f := Frame(space1, prefix, space2, space3, suffix, space4);
    Reassemble(f, t, x);
    var _, _ := StripParts(DropPdf(t), false);
    before, after := StripParts(x, true);
  }

  lemma Reassemble(f: Frame, t: string, x: string)
    requires t == (f.space2 + x + f.space3) + f.suffix
    ensures f.space1 + (f.prefix + t) + f.space4 == f.Around(x)
  {
    assert f.prefix + t == f.Inner(x);
  }

  /** The pieces of a kept text that is accepted. */
  lemma CoreParts(c: string) returns (n: Kept)
    requires IsPlainBase(Body(SplitVersion(c).0))
    ensures c == n.Core() && IsId(n.id) && IsTail(n.tail) && SplitVersion(c) == (n.Base(), n.Version())
  {
    var text := SplitVersion(c).0;
    var id, newline := Body(text), EndsWithNewline(text);
    IdIff(id);
    BodyParts(text);
    if SplitVersion(c).1.None? {
      n := Kept([], id, newline, [], []);
      assert n.Core() == text == c;
    } else {
      var mark, rest := MarkParts(c);
      MarkThenNewline(mark, rest);
      n := Kept([], id, newline, mark + rest, []);
    }
  }

  lemma BodyParts(text: string)
    ensures text == Body(text) + if EndsWithNewline(text) then "\n" else ""
  {
    if EndsWithNewline(text) { assert text == text[..|text| - 1] + [text[|text| - 1]]; }
  }

  lemma MarkParts(c: string) returns (mark: string, rest: string)
    requires SplitVersion(c).1.Some?
    ensures IsMark(mark) && (rest == [] || rest == "\n") && c == SplitVersion(c).0 + (mark + rest)
    ensures SplitVersion(c).1 == Some(ToNat(mark[1..]))
  {
    var b := Body(c);
    var k := TrailingDigits(b);
    TrailingAreDigits(b);
    BodyParts(c);
    mark, rest := b[|b| - k - 1..], c[|b|..];
    assert mark[1..] == b[|b| - k..];
    assert b == b[..|b| - k - 1] + mark;
    LowerV(mark[0]);
  }

  lemma LowerV(c: char)
    ensures LowerChar(c) == 'v' <==> c == 'v' || c == 'V'
  {
  }

  lemma MarkThenNewline(mark: string, rest: string)
    requires IsMark(mark) && (rest == [] || rest == "\n")
    ensures Body(mark + rest) == mark && IsTail(mark + rest) && mark + rest != []
  {
    assert IsDigit(mark[1..][|mark| - 2]);
    if rest == [] { assert mark + rest == mark; } else { assert (mark + rest)[..|mark|] == mark; }
  }

  lemma AcceptedIsOfTheForm(value: string) returns (f: Frame, n: Kept)
    requires Parse(value).Some?
    ensures IsForm(value, f, n) && Parse(value) == Some(Identity(n.Base(), n.Version()))
  {
    var before, after;
    f, before, after := ValueParts(value);
    var m := CoreParts(Core(value));
    n := Kept(before, m.id, m.newline, m.tail, after);
    SameForm(m, n, value, f);
  }

  lemma SameForm(m: Kept, n: Kept, value: string, f: Frame)
    requires n.id == m.id && n.newline == m.newline && n.tail == m.tail && IsId(m.id) && IsTail(m.tail)
    requires AllDrop(true, n.before) && AllDrop(true, n.after) && f.Valid()
    requires var x := n.before + m.Core() + n.after; value == f.Around(x) && (x == [] || !IsSpace(x[|x| - 1]))
    ensures IsForm(value, f, n) && n.Base() == m.Base() && n.Version() == m.Version()
  {
    assert n.Text() == n.before + m.Core() + n.after;
    SomethingFollows(n);
  }

  /** Behind white space at the end of the kept text there is a slash. */
  lemma SomethingFollows(n: Kept)
    requires AllDrop(true, n.before) && AllDrop(true, n.after) && IsId(n.id) && IsTail(n.tail)
    requires var x := n.Text(); x == [] || !IsSpace(x[|x| - 1])
    ensures n.Valid()
  {
    var c, x := n.Core(), n.Text();
    assert n.after == [] && c != [] ==> x[|x| - 1] == c[|c| - 1];
  }

  // ---------------------------------------------------- putting a value together

  lemma {:induction false} StripLeftOf(l: string, x: string, slash: bool)
    requires AllDrop(slash, l) && (x == [] || !Drops(slash, x[0]))
    ensures StripLeft(l + x, slash) == x
    decreases |l|
  {
    if l == [] {
      assert l + x == x;
    } else {
      assert (l + x)[1..] == l[1..] + x;
      StripLeftOf(l[1..], x, slash);
    }
  }

  lemma {:induction false} StripRightOf(x: string, r: string, slash: bool)
    requires AllDrop(slash, r) && (x == [] || !Drops(slash, x[|x| - 1]))
    ensures StripRight(x + r, slash) == x
    decreases |r|
  {
    if r == [] {
      assert x + r == x;
    } else {
      assert (x + r)[..|x + r| - 1] == x + r[..|r| - 1];
      StripRightOf(x, r[..|r| - 1], slash);
    }
  }

  lemma StripOf(l: string, x: string, r: string, slash: bool)
    requires AllDrop(slash, l) && AllDrop(slash, r) && Firm(x, slash)
    ensures Strip(l + x + r, slash) == x
  {
    assert l + x + r == l + (x + r);
    StripLeftOf(l, x + r, slash);
    StripRightOf(x, r, slash);
  }

  lemma PrefixLengthOf(prefix: string, rest: string)
    requires IsPrefix(Lower(prefix))
    ensures PrefixLength(prefix + rest) == |prefix|
  {
    var s, p := prefix + rest, Lower(prefix);
    assert s[..|prefix|] == prefix;
    assert StartsWith(s, p);
    if p != "arxiv:" {
      StartsDifferently(s, p, "arxiv:", 0);
      if p == "https://arxiv.org/abs/" || p == "https://arxiv.org/pdf/" {
        StartsDifferently(s, p, "http://arxiv.org/abs/", 4);
        StartsDifferently(s, p, "http://arxiv.org/pdf/", 4);
      }
    }
  }

  lemma StartsDifferently(s: string, p: string, q: string, k: nat)
    requires StartsWith(s, p) && k < |p| && k < |q| && p[k] != q[k]
    ensures !StartsWith(s, q)
  {
    assert Lower(s[..|p|])[k] == LowerChar(s[k]);
    if |q| <= |s| { assert Lower(s[..|q|])[k] == LowerChar(s[k]); }
  }

  predicate NoColon(s: string) {
    forall k :: 0 <= k < |s| ==> s[k] != ':'
  }

  /** The text that is kept is firm, has no colon, and does not end like the suffix. */
  lemma KeptText(n: Kept)
    requires n.Valid()
    ensures Firm(n.Core(), true) && Firm(n.Text(), false) && NoColon(n.Text())
    ensures n.Text()[|n.Text()| - 1] == '/' || IsDigit(n.Text()[|n.Text()| - 1])
  {
    CoreShape(n);
    CoreInText(n.before, n.Core(), n.after);
    FirmText(n.Core(), n.Text(), n.before, n.after);
  }

  lemma FirmText(c: string, x: string, before: string, after: string)
    requires c != [] && x != [] && (IsDigit(c[0]) || IsLetter(c[0])) && (c[|c| - 1] == '\n' || IsDigit(c[|c| - 1]))
    requires x[0] == if before == [] then c[0] else '/'
    requires x[|x| - 1] == if after == [] then c[|c| - 1] else '/'
    requires EndsWithNewline(c) ==> after != []
    ensures Firm(c, true) && Firm(x, false) && (x[|x| - 1] == '/' || IsDigit(x[|x| - 1]))
  {
  }

  lemma CoreShape(n: Kept)
    requires IsId(n.id) && IsTail(n.tail)
    ensures var c := n.Core();
            && c != [] && NoColon(c) && (IsDigit(c[0]) || IsLetter(c[0]))
            && (c[|c| - 1] == '\n' || IsDigit(c[|c| - 1]))
  {
    IdIff(n.id);
    PlainBaseShape(n.id);
    TailShape(n.tail);
    NoColonIn(n);
    assert n.Core()[0] == n.id[0];
    assert n.tail != [] ==> n.Core()[|n.Core()| - 1] == n.tail[|n.tail| - 1];
  }

  lemma NoColonIn(n: Kept)
    requires NoColon(n.id) && NoColon(n.tail)
    ensures NoColon(n.Core())
  {
    var base := n.Base();
    assert forall k :: 0 <= k < |base| ==> base[k] != ':';
    forall k | 0 <= k < |n.Core()| ensures n.Core()[k] != ':' {
      if k < |base| { assert n.Core()[k] == base[k]; } else { assert n.Core()[k] == n.tail[k - |base|]; }
    }
  }

  lemma CoreInText(before: string, c: string, after: string)
    requires AllDrop(true, before) && AllDrop(true, after) && c != []
    ensures var x := before + c + after;
            && x[0] == (if before == [] then c[0] else '/')
            && x[|x| - 1] == (if after == [] then c[|c| - 1] else '/')
            && (NoColon(c) ==> NoColon(x))
  {
    var x := before + c + after;
    forall k | 0 <= k < |x| && NoColon(c) ensures x[k] != ':' {
      if |before| <= k < |before| + |c| { assert x[k] == c[k - |before|]; }
    }
    if before == [] { assert x[0] == c[0]; } else { assert x[0] == before[0]; }
    if after == [] { assert x[|x| - 1] == c[|c| - 1]; } else { assert x[|x| - 1] == after[|after| - 1]; }
  }

  lemma TailShape(tail: string)
    requires IsTail(tail)
    ensures NoColon(tail) && (tail == [] || tail[|tail| - 1] == '\n' || IsDigit(tail[|tail| - 1]))
  {
    if tail != [] {
      var m := Body(tail);
      forall k | 0 <= k < |tail| ensures tail[k] != ':' {
        if 0 < k < |m| { assert m[1..][k - 1] == m[k] == tail[k]; }
      }
      assert m[1..][|m| - 2] == m[|m| - 1];
    }
  }

  lemma MarkVersion(text: string, m: string, tail: string)
    requires IsMark(m) && (tail == m || tail == m + "\n")
    ensures SplitVersion(text + tail) == (text, Some(ToNat(m[1..])))
  {
    BodyOfMarked(text, m, tail);
    DigitsOfMark(text, m);
    SplitAtMark(text + tail, text, m);
  }

  lemma BodyOfMarked(text: string, m: string, tail: string)
    requires IsMark(m) && (tail == m || tail == m + "\n")
    ensures Body(text + tail) == text + m
  {
    assert IsDigit(m[1..][|m| - 2]);
    if tail != m { assert (text + tail)[..|text + tail| - 1] == text + m; }
  }

  lemma DigitsOfMark(text: string, m: string)
    requires IsMark(m)
    ensures TrailingDigits(text + m) == |m| - 1
  {
    TrailingDigitsOf(text + [m[0]], m[1..]);
    assert text + m == (text + [m[0]]) + m[1..];
  }

  lemma SplitAtMark(c: string, text: string, m: string)
    requires IsMark(m) && Body(c) == text + m && TrailingDigits(text + m) == |m| - 1
    ensures SplitVersion(c) == (text, Some(ToNat(m[1..])))
  {
    var b := text + m;
    assert b[|text|] == m[0] && b[..|text|] == text && b[|text| + 1..] == m[1..];
  }

  lemma KeptVersion(n: Kept)
    requires n.Valid()
    ensures SplitVersion(n.Core()) == (n.Base(), n.Version()) && Body(n.Base()) == n.id && IsPlainBase(n.id)
  {
    IdIff(n.id);
    PlainBaseShape(n.id);
    if n.tail == [] {
      PlainBaseHasNoVersion(n.id);
      assert n.Core() == n.Base();
      assert !n.newline ==> n.Base() == n.id;
    } else {
      BodyParts(n.tail);
      MarkVersion(n.Base(), Body(n.tail), n.tail);
    }
    BodyOfBase(n.id, n.newline);
  }

  lemma BodyOfBase(id: string, newline: bool)
    requires !EndsWithNewline(id)
    ensures Body(id + if newline then "\n" else "") == id
  {
    if newline { assert (id + "\n")[..|id|] == id; } else { assert id + "" == id; }
  }

  /** White space, prefix and suffix come off. */
  lemma FrameComesOff(f: Frame, x: string)
    requires f.Valid() && Firm(x, false) && NoColon(x) && (x[|x| - 1] == '/' || IsDigit(x[|x| - 1]))
    ensures Strip(DropPdf(DropPrefix(Strip(f.Around(x), false))), false) == x
  {
    FirmInside(f.prefix, f.space2, x, f.space3, f.suffix);
    StripOf(f.space1, f.Inner(x), f.space4, false);
    PrefixComesOff(f.prefix, f.space2, x, f.space3, f.suffix);
    SuffixComesOff(f.space2, x, f.space3, f.suffix);
    StripOf(f.space2, x, f.space3, false);
  }

  lemma FirmInside(prefix: string, space2: string, x: string, space3: string, suffix: string)
    requires (prefix == [] || IsPrefix(Lower(prefix))) && (prefix == [] ==> space2 == [])
    requires (suffix == [] || Lower(suffix) == ".pdf") && (suffix == [] ==> space3 == [])
    requires Firm(x, false)
    ensures Firm(prefix + space2 + x + space3 + suffix, false)
  {
    var s := prefix + space2 + x + space3 + suffix;
    if prefix == [] { assert s[0] == x[0]; } else { assert s[0] == prefix[0] && LowerChar(s[0]) == Lower(prefix)[0]; }
    if suffix == [] {
      assert s[|s| - 1] == x[|x| - 1];
    } else {
      assert s[|s| - 1] == suffix[3] && LowerChar(s[|s| - 1]) == Lower(suffix)[3];
    }
  }

  lemma PrefixComesOff(prefix: string, space2: string, x: string, space3: string, suffix: string)
    requires prefix == [] || IsPrefix(Lower(prefix))
    requires prefix == [] ==> space2 == []
    requires AllDrop(false, space3) && NoColon(x) && (suffix == [] || Lower(suffix) == ".pdf")
    ensures DropPrefix(prefix + space2 + x + space3 + suffix) == space2 + x + space3 + suffix
  {
    var rest := space2 + x + space3 + suffix;
    assert prefix + space2 + x + space3 + suffix == prefix + rest;
    if prefix == [] {
      forall k | 0 <= k < |rest| ensures rest[k] != ':' {
        if k >= |x| + |space3| {
          assert rest[k] == suffix[k - |x| - |space3|] && Lower(suffix)[k - |x| - |space3|] == LowerChar(rest[k]);
        } else if k >= |x| {
          assert rest[k] == space3[k - |x|];
        }
      }
      NoPrefix(rest);
      assert prefix + rest == rest;
    } else {
      PrefixLengthOf(prefix, rest);
    }
  }

  lemma SuffixComesOff(space2: string, x: string, space3: string, suffix: string)
    requires x != [] && (x[|x| - 1] == '/' || IsDigit(x[|x| - 1]))
    requires suffix == [] || Lower(suffix) == ".pdf"
    requires suffix == [] ==> space3 == []
    ensures DropPdf(space2 + x + space3 + suffix) == space2 + x + space3
  {
    var s := space2 + x + space3 + suffix;
    if suffix == [] {
      assert s == space2 + x && s[|s| - 1] == x[|x| - 1];
      if |s| >= 4 { assert Lower(s[|s| - 4..])[3] == LowerChar(s[|s| - 1]); }
      assert s == space2 + x + space3;
    } else {
      assert s[|s| - 4..] == suffix;
      assert s[..|s| - 4] == space2 + x + space3;
    }
  }

  lemma TheCoreIsKept(f: Frame, n: Kept)
    requires f.Valid() && n.Valid()
    ensures Core(f.Around(n.Text())) == n.Core()
  {
    KeptText(n);
    FrameComesOff(f, n.Text());
    StripOf(n.before, n.Core(), n.after, true);
  }

  // ------------------------------------------------------------------ theorems

  /** A value of the form is accepted with the base and the version it shows. */
  lemma TheFormIsAccepted(value: string, f: Frame, n: Kept)
    requires IsForm(value, f, n)
    ensures Parse(value) == Some(Identity(n.Base(), n.Version()))
  {
    TheCoreIsKept(f, n);
    KeptVersion(n);
  }

  /** The parser accepts exactly the values of this form, and returns exactly what they show. */
  lemma ParseIff(value: string, id: Identity)
    ensures Parse(value) == Some(id)
       <==> exists f: Frame, n: Kept :: IsForm(value, f, n) && id == Identity(n.Base(), n.Version())
  {
    if Parse(value) == Some(id) {
      var f, n := AcceptedIsOfTheForm(value);
    }
    if f: Frame, n: Kept :| IsForm(value, f, n) && id == Identity(n.Base(), n.Version()) {
      TheFormIsAccepted(value, f, n);
    }
  }

  /** Text without a newline at its end is parsed to itself exactly when it is a base. */
  lemma BareIff(b: string)
    requires !EndsWithNewline(b)
    ensures Parse(b) == Some(Identity(b, None)) <==> IsPlainBase(b)
  {
    if IsPlainBase(b) { ParsePlain(b); } else if Parse(b).Some? { ParsedIsPlain(b); }
  }

  lemma ParsedIsPlain(value: string)
    requires Parse(value).Some?
    ensures IsPlainBase(Body(Parse(value).value.base))
  {
  }

  lemma EndsInDigit(s: string, d: string)
    requires OnlyDigits(d) && !EndsWithNewline(s)
    ensures !EndsWithNewline(s + d)
  {
    if d != [] { assert (s + d)[|s + d| - 1] == d[|d| - 1]; } else { assert s + d == s; }
  }

  lemma ModernLength(b: string, a: string, d: string)
    requires OnlyDigits(a) && OnlyDigits(d) && |a| == 4 && b == a + "." + d
    ensures IsPlainBase(b) <==> |d| == 4 || |d| == 5
  {
    assert b[0] == a[0];
    if |d| == 4 || |d| == 5 { ModernIsPlain(b, a, d); }
  }

  /** Four digits and a dot before digits are an id exactly when these are four or five. */
  lemma ModernIdIff(a: string, d: string)
    requires OnlyDigits(a) && OnlyDigits(d) && |a| == 4
    ensures Parse(a + "." + d) == Some(Identity(a + "." + d, None)) <==> |d| == 4 || |d| == 5
  {
    EndsInDigit(a + ".", d);
    ModernLength(a + "." + d, a, d);
    BareIff(a + "." + d);
  }

  /** A category and a slash before digits are an id exactly when these are seven. */
  lemma LegacyIdIff(c: char, cat: string, d: string)
    requires ('a' <= c <= 'z' || 'A' <= c <= 'Z') && OnlyCategory(cat) && OnlyDigits(d)
    ensures Parse([c] + cat + "/" + d) == Some(Identity([c] + cat + "/" + d, None)) <==> |d| == 7
  {
    var b := [c] + cat + "/" + d;
    EndsInDigit([c] + cat + "/", d);
    BareIff(b);
    if |d| == 7 { LegacyIsPlain(b, c, cat, d); } else { OneSlash(b, c, cat, d); }
  }

  lemma OneSlash(b: string, c: char, cat: string, d: string)
    requires ('a' <= c <= 'z' || 'A' <= c <= 'Z') && OnlyCategory(cat) && OnlyDigits(d) && |d| != 7
    requires b == [c] + cat + "/" + d
    ensures !IsPlainBase(b)
  {
    assert b[0] == c;
    assert IsModern(b) ==> IsDigit(b[..4][0]);
    forall k | 0 <= k < |b| && k != |cat| + 1 ensures b[k] != '/' {
      if k > |cat| + 1 { assert b[k] == d[k - |cat| - 2]; } else if k > 0 { assert b[k] == cat[k - 1]; }
    }
  }

  /** The values for which the parser keeps a newline. */
  ghost predicate IsKeptNewline(value: string) {
    exists f: Frame, n: Kept :: IsForm(value, f, n) && n.newline
  }

  lemma NewlineIsKeptIff(value: string)
    ensures Parse(value).Some? && EndsWithNewline(Parse(value).value.base) <==> IsKeptNewline(value)
  {
    if Parse(value).Some? {
      var f, n := AcceptedIsOfTheForm(value);
      BaseEnds(n);
    }
    if f: Frame, n: Kept :| IsForm(value, f, n) && n.newline {
      TheFormIsAccepted(value, f, n);
      BaseEnds(n);
    }
  }

  lemma BaseEnds(n: Kept)
    requires n.Valid()
    ensures EndsWithNewline(n.Base()) <==> n.newline
  {
    IdIff(n.id);
    PlainBaseShape(n.id);
  }

  /** So the predicate never reaches a different paper exactly when the value is not of this form. */
  lemma ExactForTheValueIff(value: string)
    requires Parse(value).Some?
    ensures SelectsOnlyThePaper(value) <==> !IsKeptNewline(value)
  {
    NeverADifferentPaperIff(value);
    NewlineIsKeptIff(value);
  }
}
