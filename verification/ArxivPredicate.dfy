/**
 The SQL predicate of `identity_sql` (ipaper/arxiv_identity.py) against the parser: which
 stored strings the four LIKE patterns select for a queried paper.
 */
module ArxivPredicate {
  import opened ArxivIdentity

  // -------------------------------------------------------------- SQLite's LIKE

  /** `s LIKE p`: `%` is any text, `_` any character, letters match in either case. */
  predicate Like(s: string, p: string)
    decreases |s| + |p|
  {
    if p == [] then s == []
    else if p[0] == '%' then Like(s, p[1..]) || (s != [] && Like(s[1..], p))
    else s != [] && (p[0] == '_' || LowerChar(s[0]) == LowerChar(p[0])) && Like(s[1..], p[1..])
  }

  /** `identity_sql` for a stored column value and the four equal parameters. */
  predicate Satisfies(stored: string, b: string) {
    var low := Lower(stored);
    low == b || Like(low, b + "v%") || Like(low, "%/" + b) || Like(low, "%/" + b + "v%")
  }

  /** Lower-case text without wildcards. */
  predicate Literal(w: string) {
    forall k :: 0 <= k < |w| ==> w[k] != '%' && w[k] != '_' && LowerChar(w[k]) == w[k]
  }

  predicate Lowered(s: string) {
    forall k :: 0 <= k < |s| ==> LowerChar(s[k]) == s[k]
  }

  lemma {:induction false} LikeLiteral(s: string, w: string, p: string)
    requires Lowered(s) && Literal(w)
    ensures Like(s, w + p) <==> |w| <= |s| && s[..|w|] == w && Like(s[|w|..], p)
    decreases |w|
  {
    if w == [] {
      assert w + p == p;
    } else {
      assert (w + p)[1..] == w[1..] + p;
      if s != [] && s[0] == w[0] {
        LikeLiteral(s[1..], w[1..], p);
        assert s == [s[0]] + s[1..] && w == [w[0]] + w[1..];
        if |w| <= |s| {
          assert s[1..][|w| - 1..] == s[|w|..];
          assert s[..|w|] == [s[0]] + s[1..][..|w| - 1];
        }
      }
    }
  }

  lemma {:induction false} LikeAnywhere(s: string, p: string)
    ensures Like(s, "%" + p) <==> exists i :: 0 <= i <= |s| && LikeFrom(s, i, p)
    decreases |s|
  {
    assert ("%" + p)[1..] == p;
    if Like(s, p) {
      assert s[0..] == s;
      assert LikeFrom(s, 0, p);
    }
    if s == [] {
      assert LikeFrom(s, 0, p) == Like(s, p);
    } else {
      LikeAnywhere(s[1..], p);
      forall i | 0 <= i < |s| ensures LikeFrom(s[1..], i, p) == LikeFrom(s, i + 1, p) {
        assert s[1..][i..] == s[i + 1..];
      }
      if i :| 0 <= i <= |s| && LikeFrom(s, i, p) {
        if i == 0 {
          assert s[0..] == s;
        } else {
          assert LikeFrom(s[1..], i - 1, p);
        }
      }
    }
  }

  predicate LikeFrom(s: string, i: int, p: string) {
    0 <= i <= |s| && Like(s[i..], p)
  }

  lemma {:induction false} LikeRest(s: string)
    ensures Like(s, "%")
    decreases |s|
  {
    assert "%"[1..] == [];
    if s != [] { LikeRest(s[1..]); }
  }

  // --------------------------------------------------------- what it selects

  /** `b` stands at `i`, after nothing or a slash, before the end or a `v`. */
  predicate AnchoredAt(low: string, b: string, i: int) {
    0 <= i <= |low| - |b| && low[i..i + |b|] == b
    && (i == 0 || low[i - 1] == '/') && (i + |b| == |low| || low[i + |b|] == 'v')
  }

  lemma PrefixThen(low: string, b: string, c: char)
    requires |b| < |low|
    ensures low[..|b| + 1] == b + [c] <==> low[..|b|] == b && low[|b|] == c
  {
    assert low[..|b| + 1] == low[..|b|] + [low[|b|]];
    if low[..|b| + 1] == b + [c] {
      assert low[|b|] == low[..|b| + 1][|b|] == (b + [c])[|b|] == c;
      assert low[..|b|] == low[..|b| + 1][..|b|] == (b + [c])[..|b|] == b;
    }
  }

  lemma LikeAtStart(low: string, b: string)
    requires Lowered(low) && Literal(b)
    ensures Like(low, b + "v%") <==> |b| < |low| && low[..|b|] == b && low[|b|] == 'v'
  {
    LikePrefix(low, b + "v");
    assert b + "v%" == (b + "v") + "%";
    if |b| < |low| { PrefixThen(low, b, 'v'); }
  }

  lemma LikePrefix(low: string, w: string)
    requires Lowered(low) && Literal(w)
    ensures Like(low, w + "%") <==> |w| <= |low| && low[..|w|] == w
  {
    LikeLiteral(low, w, "%");
    if |w| <= |low| { LikeRest(low[|w|..]); }
  }

  lemma AfterSlash(low: string, b: string, i: nat)
    requires i + 1 + |b| <= |low|
    ensures low[i..][..1 + |b|] == "/" + b <==> low[i] == '/' && low[i + 1..i + 1 + |b|] == b
  {
    assert low[i..][..1 + |b|] == [low[i]] + low[i + 1..i + 1 + |b|];
    if low[i..][..1 + |b|] == "/" + b {
      assert low[i] == ("/" + b)[0];
      assert low[i + 1..i + 1 + |b|] == ([low[i]] + low[i + 1..i + 1 + |b|])[1..] == ("/" + b)[1..] == b;
    }
  }

  lemma LikeLaterEnd(low: string, b: string, i: nat)
    requires Lowered(low) && Literal(b) && i <= |low|
    ensures Like(low[i..], "/" + b) <==> i + 1 + |b| == |low| && AnchoredAt(low, b, i + 1)
  {
    LikeLiteral(low[i..], "/" + b, []);
    assert ("/" + b) + [] == "/" + b;
    if i + 1 + |b| <= |low| { AfterSlash(low, b, i); }
  }

  lemma LikeLaterVersion(low: string, b: string, i: nat)
    requires Lowered(low) && Literal(b) && i <= |low|
    ensures Like(low[i..], "/" + b + "v%")
       <==> i + 1 + |b| < |low| && AnchoredAt(low, b, i + 1) && low[i + 1 + |b|] == 'v'
  {
    LikeAtStart(low[i..], "/" + b);
    if i + 1 + |b| <= |low| { AfterSlash(low, b, i); }
  }

  /** The four patterns together: the base, anchored on both sides, somewhere in the text. */
  lemma SatisfiesIff(stored: string, b: string)
    requires Literal(b)
    ensures Satisfies(stored, b) <==> exists i :: AnchoredAt(Lower(stored), b, i)
  {
    var low := Lower(stored);
    LikeAtStart(low, b);
    LikeAnywhere(low, "/" + b);
    LikeAnywhere(low, "/" + b + "v%");
    assert "%/" + b == "%" + ("/" + b) && "%/" + b + "v%" == "%" + ("/" + b + "v%");
    forall i: nat | i <= |low|
      ensures LikeFrom(low, i, "/" + b) <==> i + 1 + |b| == |low| && AnchoredAt(low, b, i + 1)
      ensures LikeFrom(low, i, "/" + b + "v%")
         <==> i + 1 + |b| < |low| && AnchoredAt(low, b, i + 1) && low[i + 1 + |b|] == 'v'
    {
      LikeLaterEnd(low, b, i);
      LikeLaterVersion(low, b, i);
    }
    if low == b || Like(low, b + "v%") {
      assert AnchoredAt(low, b, 0);
    }
    if i :| AnchoredAt(low, b, i) {
      if i > 0 {
        assert LikeFrom(low, i - 1, "/" + b) || LikeFrom(low, i - 1, "/" + b + "v%");
      }
    }
  }
}
