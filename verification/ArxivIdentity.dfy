/**
 arXiv identities (ipaper/arxiv_identity.py): the strict parser with its regular
 expressions, and the four-way LIKE predicate used to find stored forms.

 Digits, letters and lower-casing are those of ASCII. `$` matches at the end of a string
 and also before one trailing newline, as in Python.
 */
module ArxivIdentity {
  import opened Common

  // ------------------------------------------------------------------ characters

  predicate IsDigit(c: char) { '0' <= c <= '9' }

  predicate IsLetter(c: char) { 'a' <= c <= 'z' || 'A' <= c <= 'Z' }

  /** White space as `str.strip` sees it. */
  predicate IsSpace(c: char) {
    '\t' <= c <= '\r' || '\U{1C}' <= c <= ' ' || c == '\U{85}' || c == '\U{A0}' || c == '\U{1680}'
    || '\U{2000}' <= c <= '\U{200A}' || c == '\U{2028}' || c == '\U{2029}' || c == '\U{202F}'
    || c == '\U{205F}' || c == '\U{3000}'
  }

  function LowerChar(c: char): char {
    if 'A' <= c <= 'Z' then ((c as int) + 32) as char else c
  }

  function Lower(s: string): (r: string)
    ensures |r| == |s|
  {
    seq(|s|, k requires 0 <= k < |s| => LowerChar(s[k]))
  }

  predicate AllDigits(s: string) {
    forall k :: 0 <= k < |s| ==> IsDigit(s[k])
  }

  /** What `strip("/")` and `strip()` remove. */
  predicate Drops(slash: bool, c: char) {
    if slash then c == '/' else IsSpace(c)
  }

  function StripLeft(s: string, slash: bool): string {
    if s != [] && Drops(slash, s[0]) then StripLeft(s[1..], slash) else s
  }

  function StripRight(s: string, slash: bool): string {
    if s != [] && Drops(slash, s[|s| - 1]) then StripRight(s[..|s| - 1], slash) else s
  }

  function Strip(s: string, slash: bool): string {
    StripRight(StripLeft(s, slash), slash)
  }

  // ------------------------------------------------------------------- the parser

  /** `version` is kept apart; `base` is what the regular expressions accepted. */
  datatype Identity = Identity(base: string, version: Option<nat>)

  function Key(id: Identity): string { Lower(id.base) }

  function StartsWith(s: string, p: string): bool {
    |p| <= |s| && Lower(s[..|p|]) == p
  }

  /** The length of what `_PREFIX` matches. */
  function PrefixLength(s: string): (n: nat)
    ensures n <= |s|
  {
    if StartsWith(s, "arxiv:") then 6
    else if StartsWith(s, "http://arxiv.org/abs/") || StartsWith(s, "http://arxiv.org/pdf/") then 21
    else if StartsWith(s, "https://arxiv.org/abs/") || StartsWith(s, "https://arxiv.org/pdf/") then 22
    else 0
  }

  function DropPrefix(s: string): string {
    s[PrefixLength(s)..]
  }

  function DropPdf(s: string): string {
    var n := |s|;
    if n >= 4 && Lower(s[n - 4..]) == ".pdf" then s[..n - 4]
    else if n >= 5 && s[n - 1] == '\n' && Lower(s[n - 5..n - 1]) == ".pdf" then s[..n - 5] + "\n"
    else s
  }

  predicate EndsWithNewline(s: string) {
    s != [] && s[|s| - 1] == '\n'
  }

  /** The string up to where `$` may match. */
  function Body(s: string): string {
    if EndsWithNewline(s) then s[..|s| - 1] else s
  }

  function TrailingDigits(s: string): (k: nat)
    ensures k <= |s|
  {
    if s != [] && IsDigit(s[|s| - 1]) then 1 + TrailingDigits(s[..|s| - 1]) else 0
  }

  function ToNat(s: string): nat {
    if s == [] then 0
    else ToNat(s[..|s| - 1]) * 10 + if IsDigit(s[|s| - 1]) then s[|s| - 1] as int - '0' as int else 0
  }

  /** `_VERSION_SUFFIX`: the text before it and the version. */
  function SplitVersion(s: string): (string, Option<nat>) {
    var b := Body(s);
    var k := TrailingDigits(b);
    if 1 <= k <= 4 && k < |b| && LowerChar(b[|b| - k - 1]) == 'v'
    then (b[..|b| - k - 1], Some(ToNat(b[|b| - k..])))
    else (s, None)
  }

  predicate IsModern(s: string) {
    (|s| == 9 || |s| == 10) && AllDigits(s[..4]) && s[4] == '.' && AllDigits(s[5..])
  }

  predicate IsLegacy(s: string) {
    |s| >= 9 && IsLetter(s[0]) && s[|s| - 8] == '/' && AllDigits(s[|s| - 7..])
    && forall k :: 1 <= k < |s| - 8 ==> IsCategoryChar(s[k])
  }

  predicate IsCategoryChar(c: char) { IsLetter(c) || c == '.' || c == '-' }

  predicate IsPlainBase(s: string) { IsModern(s) || IsLegacy(s) }

  /** The text between the decorations. */
  function Core(value: string): string {
    Strip(Strip(DropPdf(DropPrefix(Strip(value, false))), false), true)
  }

  /** `parse_arxiv_identity`. */
  function Parse(value: string): Option<Identity> {
    var (text, version) := SplitVersion(Core(value));
    if IsPlainBase(Body(text)) then Some(Identity(text, version)) else None
  }

  function SamePaper(left: string, right: string): bool {
    Parse(left).Some? && Parse(right).Some? && Key(Parse(left).value) == Key(Parse(right).value)
  }

  // ------------------------------------------------------------------- printing

  function Digits(n: nat): (s: string)
    ensures AllDigits(s) && |s| >= 1
  {
    var last := [('0' as int + n % 10) as char];
    if n < 10 then last else Digits(n / 10) + last
  }

  /** `versioned`: version 0 counts as no version. */
  function Versioned(id: Identity): string {
    if id.version.Some? && id.version.value != 0 then id.base + "v" + Digits(id.version.value) else id.base
  }

  lemma {:induction false} DigitsRoundTrip(n: nat)
    ensures ToNat(Digits(n)) == n
    ensures n <= 9 <==> |Digits(n)| == 1
    ensures n <= 99 <==> |Digits(n)| <= 2
    ensures n <= 999 <==> |Digits(n)| <= 3
    ensures n <= 9999 <==> |Digits(n)| <= 4
  {
    var last := [('0' as int + n % 10) as char];
    if n < 10 {
      assert last[..0] == [];
    } else {
      DigitsRoundTrip(n / 10);
      assert (Digits(n / 10) + last)[..|Digits(n / 10)|] == Digits(n / 10);
    }
  }

  lemma {:induction false} TrailingDigitsOf(a: string, d: string)
    requires AllDigits(d) && (a == [] || !IsDigit(a[|a| - 1]))
    ensures TrailingDigits(a + d) == |d|
    decreases |d|
  {
    if d == [] {
      assert a + d == a;
    } else {
      assert (a + d)[..|a + d| - 1] == a + d[..|d| - 1];
      TrailingDigitsOf(a, d[..|d| - 1]);
    }
  }

  lemma StripNothing(s: string, slash: bool)
    requires s == [] || (!Drops(slash, s[0]) && !Drops(slash, s[|s| - 1]))
    ensures Strip(s, slash) == s
  {
  }

  /** A plain base starts with a digit or a letter, ends with a digit and has no colon. */
  lemma PlainBaseShape(s: string)
    requires IsPlainBase(s)
    ensures |s| >= 9 && IsDigit(s[|s| - 1]) && (IsDigit(s[0]) || IsLetter(s[0]))
    ensures forall k :: 0 <= k < |s| ==> s[k] != ':' && s[k] != '\n'
  {
    if IsModern(s) {
      assert forall k :: 0 <= k < 4 ==> IsDigit(s[..4][k]);
      assert forall k :: 5 <= k < |s| ==> s[k] == s[5..][k - 5];
    } else {
      assert forall k :: |s| - 7 <= k < |s| ==> s[k] == s[|s| - 7..][k - (|s| - 7)];
    }
  }

  /** Text without a colon that ends with a digit has no decoration to remove. */
  lemma NothingToStrip(t: string)
    requires t != [] && IsDigit(t[|t| - 1]) && (IsDigit(t[0]) || IsLetter(t[0]))
    requires forall k :: 0 <= k < |t| ==> t[k] != ':'
    ensures Core(t) == t
  {
    StripNothing(t, false);
    NoPrefix(t);
    NoPdf(t);
    StripNothing(t, true);
  }

  lemma NoPdf(t: string)
    requires t != [] && IsDigit(t[|t| - 1])
    ensures DropPdf(t) == t
  {
    if |t| >= 4 { assert Lower(t[|t| - 4..])[3] == LowerChar(t[|t| - 1]); }
  }

  lemma NoPrefix(t: string)
    requires forall k :: 0 <= k < |t| ==> t[k] != ':'
    ensures PrefixLength(t) == 0
  {
    if |t| >= 6 {
      assert Lower(t[..6])[5] == LowerChar(t[5]);
    }
    if |t| >= 21 {
      assert Lower(t[..21])[4] == LowerChar(t[4]);
    }
    if |t| >= 22 {
      assert Lower(t[..22])[5] == LowerChar(t[5]);
    }
  }

  // ----------------------------------------------------------------- round trips

  /** The digits at the end of a plain base are not a version. */
  lemma PlainBaseHasNoVersion(b: string)
    requires IsPlainBase(b)
    ensures SplitVersion(b) == (b, None) && SplitVersion(b + "\n") == (b + "\n", None)
  {
    PlainBaseShape(b);
    var n := if IsModern(b) then |b| - 5 else 7;
    var head, tail := b[..|b| - n], b[|b| - n..];
    assert b == head + tail;
    TrailingDigitsOf(head, tail);
    assert head[|head| - 1] == b[|b| - n - 1];
    assert (b + "\n")[..|b + "\n"| - 1] == b;
  }

  /** A plain base with a newline after it loses the newline and nothing else. */
  lemma NewlineIsStripped(b: string)
    requires IsPlainBase(b)
    ensures Strip(b + "\n", false) == b
  {
    var t := b + "\n";
    PlainBaseShape(b);
    assert StripLeft(t, false) == t;
    assert t[..|t| - 1] == b;
    assert StripRight(t, false) == StripRight(b, false);
  }

  lemma CoreOfStripped(x: string, y: string)
    requires Strip(x, false) == Strip(y, false)
    ensures Core(x) == Core(y)
  {
  }

  lemma PlainIsCore(b: string)
    requires IsPlainBase(b)
    ensures Core(b) == b && Strip(b, false) == b
  {
    PlainBaseShape(b);
    NothingToStrip(b);
    StripNothing(b, false);
  }

  lemma CoreOfPlain(base: string)
    requires IsPlainBase(Body(base))
    ensures Core(base) == Body(base)
  {
    if EndsWithNewline(base) {
      assert base == base[..|base| - 1] + "\n";
      CoreOfNewline(base, base[..|base| - 1]);
      PlainIsCore(base[..|base| - 1]);
    } else {
      PlainIsCore(base);
    }
  }

  lemma CoreOfNewline(base: string, b: string)
    requires IsPlainBase(b) && base == b + "\n"
    ensures Core(base) == Core(b)
  {
    PlainIsCore(b);
    NewlineIsStripped(b);
    CoreOfStripped(base, b);
  }

  lemma ParsePlain(base: string)
    requires IsPlainBase(Body(base))
    ensures Parse(base) == Some(Identity(Body(base), None))
  {
    var b := Body(base);
    CoreOfPlain(base);
    PlainBaseHasNoVersion(b);
    PlainBaseShape(b);
  }

  lemma Pieces(base: string, d: string)
    ensures var t := base + "v" + d;
            && |t| == |base| + 1 + |d| && t[|base|] == 'v' && t[..|base|] == base && t[|base| + 1..] == d
            && t == (base + "v") + d
  {
  }

  /** `SplitVersion` of text that ends in the digits `d` after a `v`. */
  lemma SplitKnown(t: string, n: nat)
    requires n + 1 < |t| && TrailingDigits(t) == |t| - n - 1 && !EndsWithNewline(t) && t[n] == 'v'
    ensures SplitVersion(t) == if |t| - n - 1 <= 4 then (t[..n], Some(ToNat(t[n + 1..]))) else (t, None)
  {
    assert Body(t) == t;
  }

  lemma SplitOfVersioned(base: string, d: string)
    requires AllDigits(d) && d != []
    ensures SplitVersion(base + "v" + d) == if |d| <= 4 then (base, Some(ToNat(d))) else (base + "v" + d, None)
  {
    EndsInDigits(base + "v", d);
    Pieces(base, d);
    SplitKnown(base + "v" + d, |base|);
  }

  lemma EndsInDigits(a: string, d: string)
    requires AllDigits(d) && d != [] && a != [] && !IsDigit(a[|a| - 1])
    ensures TrailingDigits(a + d) == |d| && !EndsWithNewline(a + d)
  {
    TrailingDigitsOf(a, d);
    assert (a + d)[|a + d| - 1] == d[|d| - 1];
  }

  lemma VersionedIsCore(base: string, d: string)
    requires IsPlainBase(Body(base)) && AllDigits(d) && d != []
    ensures Core(base + "v" + d) == base + "v" + d
  {
    var b, t := Body(base), base + "v" + d;
    PlainBaseShape(b);
    assert base == b || base == b + "\n";
    assert t[|t| - 1] == d[|d| - 1] && t[0] == b[0];
    forall k | 0 <= k < |t| ensures t[k] != ':' {
      if k > |base| { assert t[k] == d[k - |base| - 1]; }
    }
    NothingToStrip(t);
  }

  lemma ParseVersioned(base: string, n: nat)
    requires IsPlainBase(Body(base))
    ensures Parse(base + "v" + Digits(n)) == if n <= 9999 then Some(Identity(base, Some(n))) else None
  {
    DigitsRoundTrip(n);
    VersionedIsCore(base, Digits(n));
    SplitOfVersioned(base, Digits(n));
    if n > 9999 {
      PlainBaseShape(Body(base));
      LongVersionIsNoBase(base, Digits(n));
      var t := base + "v" + Digits(n);
      assert t[|t| - 1] == Digits(n)[|Digits(n)| - 1];
      assert Body(t) == t;
    }
  }

  lemma LongVersionIsNoBase(base: string, d: string)
    requires |base| >= 9 && |d| >= 5 && AllDigits(d)
    ensures !IsPlainBase(base + "v" + d)
  {
    var t := base + "v" + d;
    assert t[|base|] == 'v';
    assert forall k :: 0 <= k < |d| ==> t[|base| + 1 + k] == d[k];
  }

  /**
   Printing and parsing undo each other for an accepted base exactly with versions
   1..9999, or without a version when the base does not keep a trailing newline.
   */
  lemma PrintThenParseIff(id: Identity)
    requires IsPlainBase(Body(id.base))
    ensures Parse(Versioned(id)) == Some(id)
       <==> if id.version.Some? then 1 <= id.version.value <= 9999 else !EndsWithNewline(id.base)
  {
    ParsePlain(id.base);
    if id.version.Some? {
      ParseVersioned(id.base, id.version.value);
    }
  }

  lemma {:induction false} SmallNumber(d: string)
    requires |d| <= 4
    ensures ToNat(d) <= 9999
  {
    if |d| > 0 { assert ToNat(d[..|d| - 1]) <= 999 by { Below(d[..|d| - 1]); } }
  }

  lemma {:induction false} Below(d: string)
    requires |d| <= 3
    ensures ToNat(d) <= 999 && (|d| <= 2 ==> ToNat(d) <= 99)
    ensures (|d| <= 1 ==> ToNat(d) <= 9) && (|d| == 0 ==> ToNat(d) == 0)
  {
    if |d| > 0 { Below(d[..|d| - 1]); }
  }

  lemma ParsedVersionIsSmall(c: string)
    ensures SplitVersion(c).1.Some? ==> SplitVersion(c).1.value <= 9999
  {
    var b := Body(c);
    SmallNumber(b[|b| - Min(4, TrailingDigits(b))..]);
  }

  /** For what the parser itself returns, only version 0 and a kept newline break the round trip. */
  lemma ReparseIff(value: string)
    requires Parse(value).Some?
    ensures var id := Parse(value).value;
            Parse(Versioned(id)) == Some(id)
            <==> id.version != Some(0) && (id.version.None? ==> !EndsWithNewline(id.base))
  {
    var id := Parse(value).value;
    assert id.version.Some? ==> id.version.value <= 9999 by { ParsedVersionIsSmall(Core(value)); }
    assert IsPlainBase(Body(id.base));
    PrintThenParseIff(id);
  }

  /** A base that keeps its newline does come out of the parser. */
  lemma NewlineBaseArises(b: string)
    requires IsPlainBase(b)
    ensures Parse(b + "\n/") == Some(Identity(b + "\n", None))
  {
    SlashKeepsNewline(b, b + "\n", b + "\n/");
    PlainBaseHasNoVersion(b);
  }

  lemma SlashKeepsNewline(b: string, u: string, t: string)
    requires IsPlainBase(b) && u == b + "\n" && t == u + "/"
    ensures Core(t) == u
  {
    PlainBaseShape(b);
    StripNothing(t, false);
    NoPrefix(t);
    assert DropPdf(t) == t by {
      assert Lower(t[|t| - 4..])[3] == LowerChar(t[|t| - 1]);
    }
    assert t[..|t| - 1] == u && StripLeft(t, true) == t;
    assert StripRight(t, true) == StripRight(u, true) == u;
  }
}
