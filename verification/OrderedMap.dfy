/**
 A JavaScript `Map`: pairs in insertion order with different keys. Both browser caches
 use it as a queue, oldest pair first, next to a counter of the sizes of its values.
 */
module OrderedMap {
  import opened Common

  datatype Pair<K, V> = Pair(key: K, value: V)

  type Map<K, V> = seq<Pair<K, V>>

  function Find<K(==), V>(c: Map<K, V>, key: K): Option<V> {
    if c == [] then None else if c[0].key == key then Some(c[0].value) else Find(c[1..], key)
  }

  function Delete<K(==), V>(c: Map<K, V>, key: K): Map<K, V> {
    if c == [] then [] else if c[0].key == key then c[1..] else [c[0]] + Delete(c[1..], key)
  }

  /** `map.set`: an existing key keeps its place. */
  function Put<K(==), V>(c: Map<K, V>, key: K, value: V): Map<K, V> {
    if c == [] then [Pair(key, value)]
    else if c[0].key == key then [Pair(key, value)] + c[1..] else [c[0]] + Put(c[1..], key, value)
  }

  /** Deleting and setting again moves a pair to the end. */
  function Refresh<K(==), V>(c: Map<K, V>, key: K, value: V): Map<K, V> {
    Put(Delete(c, key), key, value)
  }

  function Sum<K, V>(size: V -> nat, c: Map<K, V>): nat {
    if c == [] then 0 else size(c[0].value) + Sum(size, c[1..])
  }

  ghost predicate Has<K, V>(c: Map<K, V>, key: K) {
    exists k :: 0 <= k < |c| && c[k].key == key
  }

  ghost predicate Distinct<K, V>(c: Map<K, V>) {
    forall i, j :: 0 <= i < j < |c| ==> c[i].key != c[j].key
  }

  /** The map without the pair at `k`. */
  function Without<K, V>(c: Map<K, V>, k: nat): Map<K, V>
    requires k < |c|
  {
    c[..k] + c[k + 1..]
  }

  ghost predicate FirstAt<K, V>(c: Map<K, V>, key: K, k: nat) {
    k < |c| && c[k].key == key && forall j :: 0 <= j < k ==> c[j].key != key
  }

  lemma FirstAtRest<K, V>(c: Map<K, V>, key: K, k: nat)
    requires FirstAt(c, key, k) && k > 0
    ensures c != [] && c[0].key != key && FirstAt(c[1..], key, k - 1)
  {
    forall j | 0 <= j < k - 1 ensures c[1..][j].key != key {
      assert c[j + 1].key != key;
    }
  }

  lemma {:induction false} FindFirst<K, V>(c: Map<K, V>, key: K, k: nat)
    requires FirstAt(c, key, k)
    ensures Find(c, key) == Some(c[k].value)
  {
    if k > 0 {
      FirstAtRest(c, key, k);
      FindFirst(c[1..], key, k - 1);
    }
  }

  lemma {:induction false} DeleteFirst<K, V>(c: Map<K, V>, key: K, k: nat)
    requires FirstAt(c, key, k)
    ensures Delete(c, key) == Without(c, k)
    decreases k
  {
    if k > 0 {
      FirstAtRest(c, key, k);
      DeleteFirst(c[1..], key, k - 1);
      assert c[..k] + c[k + 1..] == [c[0]] + (c[1..][..k - 1] + c[1..][k..]);
    }
  }

  lemma {:induction false} FindAbsent<K, V>(c: Map<K, V>, key: K)
    requires !Has(c, key)
    ensures Find(c, key).None? && Delete(c, key) == c
  {
    if c != [] {
      assert c[0].key != key;
      forall k | 0 <= k < |c[1..]| ensures c[1..][k].key != key {
        assert c[k + 1].key != key;
      }
      FindAbsent(c[1..], key);
    }
  }

  /** A key is found where it stands, and deleting removes exactly that pair. */
  lemma FindAt<K, V>(c: Map<K, V>, key: K) returns (k: nat)
    requires Distinct(c) && Has(c, key)
    ensures k < |c| && c[k].key == key && Find(c, key) == Some(c[k].value) && Delete(c, key) == Without(c, k)
  {
    k :| k < |c| && c[k].key == key;
    FindFirst(c, key, k);
    DeleteFirst(c, key, k);
  }

  lemma FindFacts<K, V>(c: Map<K, V>, key: K)
    requires Distinct(c)
    ensures Find(c, key).Some? <==> Has(c, key)
  {
    if Has(c, key) {
      var k := FindAt(c, key);
    } else {
      FindAbsent(c, key);
    }
  }

  lemma WithoutFacts<K, V>(c: Map<K, V>, k: nat)
    requires Distinct(c) && k < |c|
    ensures Distinct(Without(c, k)) && !Has(Without(c, k), c[k].key)
    ensures forall key :: Has(Without(c, k), key) ==> Has(c, key)
    ensures forall i :: 0 <= i < |Without(c, k)| ==> Without(c, k)[i] == c[if i < k then i else i + 1]
  {
    var rest := Without(c, k);
    forall i | 0 <= i < |rest| ensures rest[i] == c[if i < k then i else i + 1] {
    }
    forall key | Has(rest, key) ensures Has(c, key) {
      var i :| 0 <= i < |rest| && rest[i].key == key;
      assert c[if i < k then i else i + 1].key == key;
    }
  }

  lemma SuffixFacts<K, V>(c: Map<K, V>, k: nat)
    requires Distinct(c) && k <= |c|
    ensures Distinct(c[k..])
    ensures forall key :: Has(c[k..], key) ==> Has(c, key)
  {
    forall i | 0 <= i < |c[k..]| ensures c[k..][i] == c[k + i] {
    }
    forall key | Has(c[k..], key) ensures Has(c, key) {
      var i :| 0 <= i < |c[k..]| && c[k..][i].key == key;
      assert c[k + i].key == key;
    }
  }

  lemma {:induction false} PutFresh<K, V>(c: Map<K, V>, key: K, value: V)
    requires !Has(c, key)
    ensures Put(c, key, value) == c + [Pair(key, value)]
  {
    if c != [] {
      assert c[0].key != key;
      forall k | 0 <= k < |c[1..]| ensures c[1..][k].key != key {
        assert c[k + 1].key != key;
      }
      PutFresh(c[1..], key, value);
    }
  }

  lemma {:induction false} PutInPlace<K, V>(c: Map<K, V>, key: K, value: V, k: nat)
    requires Distinct(c) && k < |c| && c[k].key == key
    ensures Put(c, key, value) == c[k := Pair(key, value)]
    decreases k
  {
    if k > 0 {
      SuffixFacts(c, 1);
      PutInPlace(c[1..], key, value, k - 1);
      assert c[k := Pair(key, value)] == [c[0]] + c[1..][k - 1 := Pair(key, value)];
    }
  }

  lemma UpdateFacts<K, V>(c: Map<K, V>, k: nat, value: V)
    requires Distinct(c) && k < |c|
    ensures Distinct(c[k := Pair(c[k].key, value)])
    ensures forall key :: Has(c[k := Pair(c[k].key, value)], key) ==> Has(c, key)
  {
    var d := c[k := Pair(c[k].key, value)];
    forall key | Has(d, key) ensures Has(c, key) {
      var i :| 0 <= i < |d| && d[i].key == key;
      assert c[i].key == key;
    }
  }

  lemma AppendFacts<K, V>(c: Map<K, V>, key: K, value: V)
    requires Distinct(c) && !Has(c, key)
    ensures Distinct(c + [Pair(key, value)])
    ensures forall other :: Has(c + [Pair(key, value)], other) ==> other == key || Has(c, other)
  {
    var all := c + [Pair(key, value)];
    forall other | Has(all, other) ensures other == key || Has(c, other) {
      var i :| 0 <= i < |all| && all[i].key == other;
      if i < |c| { assert c[i].key == other; }
    }
  }

  /** Deleted and set again, the pair at `k` stands at the end. */
  lemma RefreshMoves<K, V>(c: Map<K, V>, k: nat, value: V)
    requires Distinct(c) && k < |c|
    ensures Find(c, c[k].key) == Some(c[k].value)
    ensures Refresh(c, c[k].key, value) == c[..k] + c[k + 1..] + [Pair(c[k].key, value)]
  {
    var i := FindAt(c, c[k].key);
    WithoutFacts(c, k);
    PutFresh(Without(c, k), c[k].key, value);
  }

  // ---------------------------------------------------------------- the counter

  lemma {:induction false} SumSplit<K, V>(size: V -> nat, c: Map<K, V>, k: nat)
    requires k <= |c|
    ensures Sum(size, c) == Sum(size, c[..k]) + Sum(size, c[k..])
  {
    if k > 0 {
      SumSplit(size, c[1..], k - 1);
      assert c[..k][1..] == c[1..][..k - 1];
      assert c[k..] == c[1..][k - 1..];
    } else {
      assert c[0..] == c;
    }
  }

  lemma SumAppend<K, V>(size: V -> nat, c: Map<K, V>, key: K, value: V)
    ensures Sum(size, c + [Pair(key, value)]) == Sum(size, c) + size(value)
  {
    var all := c + [Pair(key, value)];
    SumSplit(size, all, |c|);
    assert all[..|c|] == c && all[|c|..] == [Pair(key, value)] && [Pair(key, value)][1..] == [];
  }

  lemma SumWithout<K, V>(size: V -> nat, c: Map<K, V>, k: nat)
    requires k < |c|
    ensures Sum(size, c) == Sum(size, Without(c, k)) + size(c[k].value)
  {
    var rest := Without(c, k);
    SumSplit(size, c, k);
    SumSplit(size, rest, k);
    assert rest[..k] == c[..k] && rest[k..] == c[k + 1..] && c[k..][1..] == c[k + 1..];
  }

  /** Overwriting a value moves the sum by the difference of the sizes. */
  lemma {:induction false} SumPut<K, V>(size: V -> nat, c: Map<K, V>, key: K, value: V)
    ensures Sum(size, Put(c, key, value)) + (if Find(c, key).Some? then size(Find(c, key).value) else 0)
         == Sum(size, c) + size(value)
  {
    if c == [] {
      assert [Pair(key, value)][1..] == [];
    } else if c[0].key == key {
      assert Put(c, key, value)[1..] == c[1..];
    } else {
      assert Put(c, key, value)[1..] == Put(c[1..], key, value);
      SumPut(size, c[1..], key, value);
    }
  }
}
