/**
 Which papers the SQL predicate of ipaper/arxiv_identity.py reaches: exactly when it stays
 with the queried paper, and the stored forms it always finds.
 */
module ArxivSoundness {
  import opened ArxivIdentity
  import opened ArxivPredicate

  // ------------------------------------------- where the parser's text comes from

  /** What can stand just before the text the parser keeps. */
  predicate Boundary(c: char) { c == '/' || c == ':' || IsSpace(c) }

  predicate NoDigit(s: string) {
    forall k :: 0 <= k < |s| ==> !IsDigit(s[k])
  }

  /** `c` stands at `lo` in `v`, with no digit outside and a boundary before it. */
  predicate Inside(v: string, c: string, lo: nat) {
    StandsAt(v, c, lo) && NoDigitOutside(v, lo, lo + |c|) && (lo > 0 ==> Boundary(v[lo - 1]))
  }

  predicate StandsAt(v: string, c: string, lo: nat) {
    lo + |c| <= |v| && forall k :: 0 <= k < |c| ==> c[k] == v[lo + k]
  }

  predicate NoDigitOutside(v: string, lo: int, hi: int) {
    forall k :: 0 <= k < |v| && IsDigit(v[k]) ==> lo <= k < hi
  }

  lemma InsideInside(v: string, c: string, d: string, a: nat, b: nat)
    requires Inside(v, c, a) && Inside(c, d, b)
    ensures Inside(v, d, a + b)
  {
    forall k | 0 <= k < |d| ensures d[k] == v[a + b + k] {
      assert d[k] == c[b + k];
    }
    forall k | 0 <= k < |v| && IsDigit(v[k]) ensures a + b <= k < a + b + |d| {
      assert c[k - a] == v[k];
    }
    if b > 0 { assert c[b - 1] == v[a + b - 1]; }
  }

  lemma {:induction false} StripLeftInside(s: string, slash: bool) returns (lo: nat)
    ensures Inside(s, StripLeft(s, slash), lo)
    decreases |s|
  {
    if s != [] && Drops(slash, s[0]) {
      lo := StripLeftInside(s[1..], slash);
      InsideInside(s, s[1..], StripLeft(s, slash), 1, lo);
      lo := 1 + lo;
    } else {
      lo := 0;
    }
  }

  lemma {:induction false} StripRightInside(s: string, slash: bool)
    ensures Inside(s, StripRight(s, slash), 0)
    ensures StripRight(s, slash) == [] || !Drops(slash, StripRight(s, slash)[|StripRight(s, slash)| - 1])
    decreases |s|
  {
    if s != [] && Drops(slash, s[|s| - 1]) {
      StripRightInside(s[..|s| - 1], slash);
      InsideInside(s, s[..|s| - 1], StripRight(s, slash), 0, 0);
    }
  }

  lemma StripInside(s: string, slash: bool) returns (lo: nat)
    ensures Inside(s, Strip(s, slash), lo)
    ensures Strip(s, slash) == [] || !Drops(slash, Strip(s, slash)[|Strip(s, slash)| - 1])
  {
    lo := StripLeftInside(s, slash);
    StripRightInside(StripLeft(s, slash), slash);
    InsideInside(s, StripLeft(s, slash), Strip(s, slash), lo, 0);
  }

  predicate IsPrefix(p: string) {
    p == "arxiv:" || p == "http://arxiv.org/abs/" || p == "http://arxiv.org/pdf/"
    || p == "https://arxiv.org/abs/" || p == "https://arxiv.org/pdf/"
  }

  lemma PrefixText(p: string)
    requires IsPrefix(p)
    ensures NoDigit(p) && p != [] && Boundary(p[|p| - 1])
  {
  }

  lemma PrefixIs(s: string) returns (p: string)
    requires PrefixLength(s) > 0
    ensures IsPrefix(p) && |p| == PrefixLength(s) && StartsWith(s, p)
  {
    if StartsWith(s, "arxiv:") { p := "arxiv:"; }
    else if StartsWith(s, "http://arxiv.org/abs/") { p := "http://arxiv.org/abs/"; }
    else if StartsWith(s, "http://arxiv.org/pdf/") { p := "http://arxiv.org/pdf/"; }
    else if StartsWith(s, "https://arxiv.org/abs/") { p := "https://arxiv.org/abs/"; }
    else { p := "https://arxiv.org/pdf/"; }
  }

  lemma DropPrefixInside(s: string)
    ensures Inside(s, DropPrefix(s), PrefixLength(s))
  {
    if PrefixLength(s) > 0 {
      var p := PrefixIs(s);
      PrefixText(p);
      forall k | 0 <= k < |p| ensures !IsDigit(s[k]) && (Boundary(p[k]) ==> Boundary(s[k])) {
        assert Lower(s[..|p|])[k] == LowerChar(s[k]) == p[k];
      }
    }
  }

  lemma DropPdfInside(s: string)
    requires s == [] || !IsSpace(s[|s| - 1])
    ensures Inside(s, DropPdf(s), 0)
  {
    var n := |s|;
    if n >= 4 && Lower(s[n - 4..]) == ".pdf" {
      forall k | n - 4 <= k < n ensures !IsDigit(s[k]) {
        assert Lower(s[n - 4..])[k - (n - 4)] == LowerChar(s[k]) == ".pdf"[k - (n - 4)];
      }
    }
  }

  lemma HeadInside(value: string) returns (lo: nat)
    ensures var s := DropPrefix(Strip(value, false));
            Inside(value, s, lo) && (s == [] || !IsSpace(s[|s| - 1]))
  {
    var s := Strip(value, false);
    lo := StripInside(value, false);
    DropPrefixInside(s);
    InsideInside(value, s, DropPrefix(s), lo, PrefixLength(s));
    lo := lo + PrefixLength(s);
  }

  lemma InsideTwice(v: string, c: string, d: string, e: string, a: nat, b: nat)
    requires Inside(v, c, 0) && Inside(c, d, a) && Inside(d, e, b)
    ensures Inside(v, e, a + b)
  {
    InsideInside(v, c, d, 0, a);
    InsideInside(v, d, e, a, b);
  }

  lemma TailInside(s: string) returns (lo: nat)
    requires s == [] || !IsSpace(s[|s| - 1])
    ensures Inside(s, Strip(Strip(DropPdf(s), false), true), lo)
  {
    var t := DropPdf(s);
    var u := Strip(t, false);
    DropPdfInside(s);
    var a := StripInside(t, false);
    var b := StripInside(u, true);
    InsideTwice(s, t, u, Strip(u, true), a, b);
    lo := a + b;
  }

  /** The kept text is a stretch of the value, with every digit in it. */
  lemma CoreInside(value: string) returns (lo: nat)
    ensures Inside(value, Core(value), lo)
  {
    lo := HeadInside(value);
    var s := DropPrefix(Strip(value, false));
    var m := TailInside(s);
    InsideInside(value, s, Core(value), lo, m);
    lo := lo + m;
  }

  // -------------------------------------------------------- aligning two bases

  /** `c` is a plain base followed by nothing, a newline or a version mark. */
  predicate Shape(c: string, base: string) {
    IsPlainBase(base) && StandsAt(c, base, 0)
    && (|c| == |base| || c[|base|] == '\n' || LowerChar(c[|base|]) == 'v')
    && forall k :: |base| <= k < |c| ==> c[k] != '/' && c[k] != '.'
  }

  lemma {:induction false} TrailingAreDigits(s: string)
    ensures AllDigits(s[|s| - TrailingDigits(s)..])
    decreases |s|
  {
    if s != [] && IsDigit(s[|s| - 1]) {
      var front := s[..|s| - 1];
      TrailingAreDigits(front);
      DigitsGrow(s, TrailingDigits(front));
    }
  }

  lemma DigitsGrow(s: string, k: nat)
    requires k < |s| && IsDigit(s[|s| - 1]) && AllDigits(s[..|s| - 1][|s| - 1 - k..])
    ensures AllDigits(s[|s| - 1 - k..])
  {
    assert s[|s| - 1 - k..] == s[..|s| - 1][|s| - 1 - k..] + [s[|s| - 1]];
  }

  /** `text` starts `c`, and what follows it is empty or a version mark and free of slashes and dots. */
  predicate Heads(c: string, text: string) {
    StandsAt(c, text, 0) && (|text| == |c| || LowerChar(c[|text|]) == 'v') && NoSeparator(c, |text|)
  }

  predicate NoSeparator(c: string, from: int) {
    forall k :: 0 <= k < |c| && from <= k ==> c[k] != '/' && c[k] != '.'
  }

  /** `Body` cuts at most a newline off the end. */
  lemma BodyHeads(c: string)
    ensures StandsAt(c, Body(c), 0) && |c| <= |Body(c)| + 1 && NoSeparator(c, |Body(c)|)
  {
  }

  lemma SplitShape(c: string)
    ensures Heads(c, SplitVersion(c).0)
  {
    var b, text := Body(c), SplitVersion(c).0;
    BodyHeads(c);
    if text != c {
      TrailingAreDigits(b);
      MarkHeads(c, b, TrailingDigits(b));
    }
  }

  /** What stands before the version mark of `b` heads `c`. */
  lemma MarkHeads(c: string, b: string, k: nat)
    requires StandsAt(c, b, 0) && NoSeparator(c, |b|)
    requires k < |b| && LowerChar(b[|b| - k - 1]) == 'v' && AllDigits(b[|b| - k..])
    ensures Heads(c, b[..|b| - k - 1])
  {
    var n := |b| - k - 1;
    assert c[n] == b[n];
    forall j | n <= j < |c| ensures c[j] != '/' && c[j] != '.' {
      if n < j < |b| { assert b[|b| - k..][j - |b| + k] == b[j] == c[j]; }
    }
  }

  lemma PlainShape(c: string, text: string)
    requires Heads(c, text) && IsPlainBase(text)
    ensures Shape(c, text)
  {
  }

  lemma NewlineShape(c: string, text: string)
    requires Heads(c, text) && EndsWithNewline(text) && IsPlainBase(text[..|text| - 1])
    ensures Shape(c, text[..|text| - 1]) && c[|text| - 1] == '\n'
  {
    var base := text[..|text| - 1];
    assert forall k :: 0 <= k < |base| ==> base[k] == text[k];
    assert c[|base|] == text[|base|];
  }

  lemma ParsedShape(value: string)
    requires Parse(value).Some?
    ensures var base := Body(Parse(value).value.base);
            Shape(Core(value), base)
            && (Parse(value).value.base != base ==> |base| < |Core(value)| && Core(value)[|base|] == '\n')
  {
    var c := Core(value);
    var text := SplitVersion(c).0;
    SplitShape(c);
    if EndsWithNewline(text) { NewlineShape(c, text); } else { PlainShape(c, text); }
  }

  /** `b` is a key whose base keeps no newline. */
  predicate PlainKey(b: string) { IsPlainBase(b) && Lowered(b) }

  /** `b` is anchored at `i` in `v`, whose kept text `c` starts at `lo`. */
  predicate Meet(v: string, c: string, lo: nat, base: string, b: string, i: nat) {
    Inside(v, c, lo) && Shape(c, base) && PlainKey(b) && i + |b| <= |v|
    && (forall k :: 0 <= k < |b| ==> b[k] == LowerChar(v[i + k]))
    && (i == 0 || v[i - 1] == '/') && (i + |b| == |v| || LowerChar(v[i + |b|]) == 'v')
  }

  lemma ModernIndices(s: string)
    requires IsModern(s)
    ensures s[4] == '.' && forall k :: 0 <= k < |s| ==> k == 4 || IsDigit(s[k])
  {
    assert forall k :: 0 <= k < 4 ==> s[k] == s[..4][k];
    assert forall k :: 5 <= k < |s| ==> s[k] == s[5..][k - 5];
  }

  lemma LegacyIndices(s: string)
    requires IsLegacy(s)
    ensures s[|s| - 8] == '/' && forall k :: |s| - 8 < k < |s| ==> IsDigit(s[k])
    ensures forall k :: 0 <= k < |s| - 8 ==> IsCategoryChar(s[k])
  {
    assert forall k :: |s| - 7 <= k < |s| ==> s[k] == s[|s| - 7..][k - (|s| - 7)];
  }

  /** A digit of `b` lies in the kept text. */
  lemma DigitIsKept(v: string, c: string, lo: nat, base: string, b: string, i: nat, k: nat)
    requires Meet(v, c, lo, base, b, i) && k < |b| && IsDigit(b[k])
    ensures lo <= i + k < lo + |c| && c[i + k - lo] == b[k]
  {
    assert IsDigit(v[i + k]);
  }

  lemma AlignModern(v: string, c: string, lo: nat, base: string, b: string, i: nat)
    requires Meet(v, c, lo, base, b, i) && IsModern(b)
    ensures i == lo && |base| == |b|
  {
    ModernIndices(b);
    DigitIsKept(v, c, lo, base, b, i, 3);
    DigitIsKept(v, c, lo, base, b, i, 5);
    var m := i + 4 - lo;
    assert b[4] == LowerChar(v[i + 4]);
    assert c[m] == v[i + 4] == '.';
    assert m + 1 < |base| && base[m] == c[m] && base[m + 1] == c[m + 1];
    if IsLegacy(base) {
      LegacyIndices(base);
      assert false;
    }
    ModernIndices(base);
    if |base| > 9 { assert base[9] == c[9] == v[i + 9]; }
    if |base| > |b| {
      assert false;
    }
    if |base| < |b| {
      DigitIsKept(v, c, lo, base, b, i, 9);
      assert false;
    }
  }

  lemma AlignLegacy(v: string, c: string, lo: nat, base: string, b: string, i: nat)
    requires Meet(v, c, lo, base, b, i) && IsLegacy(b)
    ensures i == lo && |base| == |b|
  {
    LegacyIndices(b);
    var n := |b| - 8;
    SlashIsKept(v, c, lo, base, b, i);
    var m := i + n - lo;
    assert m == |base| - 8;
    LegacyIndices(base);
    forall k | lo <= k < lo + m ensures IsCategoryChar(v[k]) {
      assert base[k - lo] == c[k - lo] == v[k];
    }
    forall k | i <= k < i + n ensures IsCategoryChar(v[k]) {
      assert b[k - i] == LowerChar(v[k]);
    }
    if i > lo {
      assert false;
    }
    if i < lo {
      assert false;
    }
  }

  lemma SlashIsKept(v: string, c: string, lo: nat, base: string, b: string, i: nat)
    requires Meet(v, c, lo, base, b, i) && IsLegacy(b)
    ensures IsLegacy(base) && i + |b| == lo + |base|
  {
    LegacyIndices(b);
    var j := i + |b| - 8;
    assert b[|b| - 8] == LowerChar(v[j]);
    assert v[j] == '/';
    DigitIsKept(v, c, lo, base, b, i, |b| - 7);
    if j < lo {
      // the kept text starts with the seven digits
      assert j + 1 == lo;
      DigitIsKept(v, c, lo, base, b, i, |b| - 3);
      if IsModern(base) { ModernIndices(base); } else { LegacyIndices(base); }
      assert false;
    }
    assert c[j - lo] == '/';
    assert base[j - lo] == c[j - lo];
    if IsModern(base) {
      ModernIndices(base);
      assert false;
    }
    LegacyIndices(base);
  }

  /** Two plain bases that meet are the same one. */
  lemma MeetIsSame(v: string, c: string, lo: nat, base: string, b: string, i: nat)
    requires Meet(v, c, lo, base, b, i)
    ensures i == lo && Lower(base) == b && (|c| > |base| ==> c[|base|] != '\n')
  {
    if IsModern(b) { AlignModern(v, c, lo, base, b, i); } else { AlignLegacy(v, c, lo, base, b, i); }
    forall k | 0 <= k < |b| ensures Lower(base)[k] == b[k] {
      assert base[k] == c[k] == v[lo + k];
    }
  }

  // ------------------------------------------------------------------ theorems

  lemma PlainIsLiteral(b: string)
    requires IsPlainBase(Body(b)) && Lowered(b)
    ensures Literal(b)
  {
    var s := Body(b);
    if IsModern(s) { ModernIndices(s); } else { LegacyIndices(s); }
    assert b == s || b == s + "\n";
  }

  lemma LowerPlain(s: string)
    requires IsPlainBase(s)
    ensures PlainKey(Lower(s))
  {
    var t := Lower(s);
    if IsModern(s) {
      ModernIndices(s);
    } else {
      LegacyIndices(s);
    }
  }

  lemma AnchorMeets(stored: string, c: string, lo: nat, base: string, b: string, i: int)
    requires Inside(stored, c, lo) && Shape(c, base) && PlainKey(b) && AnchoredAt(Lower(stored), b, i)
    ensures i >= 0 && Meet(stored, c, lo, base, b, i)
  {
    var low := Lower(stored);
    forall k | 0 <= k < |b| ensures b[k] == LowerChar(stored[i + k]) {
      assert low[i..i + |b|][k] == low[i + k];
    }
  }

  lemma SelectedBase(stored: string, c: string, lo: nat, base: string, b: string)
    requires Inside(stored, c, lo) && Shape(c, base) && PlainKey(b) && Satisfies(stored, b)
    ensures Lower(base) == b && (|c| > |base| ==> c[|base|] != '\n')
  {
    PlainIsLiteral(b);
    SatisfiesIff(stored, b);
    var i :| AnchoredAt(Lower(stored), b, i);
    AnchorMeets(stored, c, lo, base, b, i);
    MeetIsSame(stored, c, lo, base, b, i);
  }

  /** A stored string that the parser accepts and the predicate selects is the queried paper. */
  lemma SelectedIsSame(stored: string, b: string)
    requires PlainKey(b) && Parse(stored).Some? && Satisfies(stored, b)
    ensures Key(Parse(stored).value) == b
  {
    var lo := CoreInside(stored);
    ParsedShape(stored);
    SelectedBase(stored, Core(stored), lo, Body(Parse(stored).value.base), b);
  }

  /** Every stored arXiv id that the predicate selects for `value` denotes the same paper. */
  ghost predicate SelectsOnlyThePaper(value: string)
    requires Parse(value).Some?
  {
    forall stored: string ::
      Parse(stored).Some? && Satisfies(stored, Key(Parse(value).value)) ==> SamePaper(stored, value)
  }

  lemma LowerKeepsBody(s: string)
    ensures Lowered(Lower(s)) && Body(Lower(s)) == Lower(Body(s)) && EndsWithNewline(Lower(s)) == EndsWithNewline(s)
  {
  }

  /**
   The predicate never reaches a different paper exactly when the queried base keeps no
   newline: a kept newline is selected in the stored column but stripped when it is parsed.
   */
  lemma NeverADifferentPaperIff(value: string)
    requires Parse(value).Some?
    ensures SelectsOnlyThePaper(value) <==> !EndsWithNewline(Parse(value).value.base)
  {
    var base := Parse(value).value.base;
    var b := Lower(base);
    LowerKeepsBody(base);
    LowerPlain(Body(base));
    if EndsWithNewline(base) {
      ParsePlain(b);
      assert Lower(b) == b;
      assert Satisfies(b, b) && !SamePaper(b, value);
    } else {
      forall stored: string | Parse(stored).Some? && Satisfies(stored, b) ensures SamePaper(stored, value) {
        SelectedIsSame(stored, b);
      }
    }
  }

  /** A stored form of the paper: anything up to a slash, the base in any case, any version. */
  predicate IsStoredForm(stored: string, before: string, base: string, after: string, b: string) {
    stored == before + base + after && Lower(base) == b
    && (before == [] || before[|before| - 1] == '/') && (after == [] || LowerChar(after[0]) == 'v')
  }

  lemma FormAt(stored: string, b: string, i: int)
    requires AnchoredAt(Lower(stored), b, i)
    ensures IsStoredForm(stored, stored[..i], stored[i..i + |b|], stored[i + |b|..], b)
  {
    assert Lower(stored[i..i + |b|]) == Lower(stored)[i..i + |b|];
  }

  lemma AnchorAt(stored: string, p: string, m: string, q: string, b: string)
    requires IsStoredForm(stored, p, m, q, b)
    ensures AnchoredAt(Lower(stored), b, |p|)
  {
    var low := Lower(stored);
    assert stored[|p|..|p| + |m|] == m;
    assert low[|p|..|p| + |b|] == Lower(m);
    if q != [] { assert stored[|p| + |m|] == q[0]; }
  }

  lemma FormsIff(stored: string, b: string)
    requires Literal(b)
    ensures Satisfies(stored, b) <==> HasStoredForm(stored, b)
  {
    SatisfiesIff(stored, b);
    var low := Lower(stored);
    if i :| AnchoredAt(low, b, i) {
      FormAt(stored, b, i);
    }
    if HasStoredForm(stored, b) {
      var p, m, q :| IsStoredForm(stored, p, m, q, b);
      AnchorAt(stored, p, m, q, b);
    }
  }

  ghost predicate HasStoredForm(stored: string, b: string) {
    exists p, m, q :: IsStoredForm(stored, p, m, q, b)
  }

  /** The predicate selects exactly the stored forms of the queried paper. */
  lemma SelectsTheStoredForms(value: string, stored: string)
    requires Parse(value).Some?
    ensures var b := Key(Parse(value).value); Satisfies(stored, b) <==> HasStoredForm(stored, b)
  {
    var base := Parse(value).value.base;
    LowerKeepsBody(base);
    LowerPlain(Body(base));
    PlainIsLiteral(Lower(base));
    FormsIff(stored, Lower(base));
  }
}
