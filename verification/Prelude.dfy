/** Types and facts shared by every part of the model. */
module Prelude {

  type Name = string

  datatype Option<+T> = None | Some(value: T)

  /** What `hash_value` returns for an object it can make nothing of. */
  const UNHASHABLE := "<unhashable>"

  /** What one call of a node's callable does: it returns a value or it raises. */
  datatype Outcome<+V> = Returned(value: V) | Raised(error: string)

  /** A Python dict, in insertion order; its keys are distinct. */
  type Dict<+K, +V> = seq<(K, V)>

  predicate DistinctKeys<K(==), V>(d: Dict<K, V>) {
    forall i, j :: 0 <= i < j < |d| ==> d[i].0 != d[j].0
  }

  /** The mapping a dict stands for, insertion order forgotten. */
  function MapOf<K(==), V>(d: Dict<K, V>): (m: map<K, V>)
  {
    if d == [] then map[] else MapOf(d[..|d| - 1])[d[|d| - 1].0 := d[|d| - 1].1]
  }

  predicate HasKey<K(==), V>(d: Dict<K, V>, k: K) {
    exists i :: 0 <= i < |d| && d[i].0 == k
  }

  lemma MapOfKeys<K, V>(d: Dict<K, V>)
    ensures forall k :: k in MapOf(d) <==> HasKey(d, k)
  {
    if d != [] {
      var n := |d| - 1;
      MapOfKeys(d[..n]);
      forall k
        ensures HasKey(d, k) <==> k == d[n].0 || HasKey(d[..n], k)
      {
        if HasKey(d, k) && k != d[n].0 {
          var i :| 0 <= i < |d| && d[i].0 == k;
          assert d[..n][i].0 == k;
        }
        if HasKey(d[..n], k) {
          var i :| 0 <= i < |d[..n]| && d[..n][i].0 == k;
          assert d[i].0 == k;
        }
      }
    }
  }

  lemma MapOfAt<K, V>(d: Dict<K, V>, i: nat)
    requires DistinctKeys(d) && i < |d|
    ensures d[i].0 in MapOf(d) && MapOf(d)[d[i].0] == d[i].1
  {
    var n := |d| - 1;
    if i < n {
      MapOfAt(d[..n], i);
    }
  }

  lemma MapOfAll<K, V>(d: Dict<K, V>)
    requires DistinctKeys(d)
    ensures forall i :: 0 <= i < |d| ==> d[i].0 in MapOf(d) && MapOf(d)[d[i].0] == d[i].1
    ensures forall k :: k in MapOf(d) <==> HasKey(d, k)
  {
    forall i | 0 <= i < |d| ensures d[i].0 in MapOf(d) && MapOf(d)[d[i].0] == d[i].1 {
      MapOfAt(d, i);
    }
    MapOfKeys(d);
  }

  /** Two dicts with the same keys in the same order: what a key maps to stands at one index of both. */
  lemma SameKeysAt<K, V, W>(a: Dict<K, V>, b: Dict<K, W>, k: K) returns (i: nat)
    requires |a| == |b| && DistinctKeys(b) && forall i :: 0 <= i < |a| ==> a[i].0 == b[i].0
    requires k in MapOf(a) || k in MapOf(b)
    ensures k in MapOf(a) && k in MapOf(b)
    ensures i < |a| && a[i] == (k, MapOf(a)[k]) && b[i] == (k, MapOf(b)[k])
  {
    assert DistinctKeys(a);
    MapOfKeys(a);
    MapOfKeys(b);
    hide MapOf;
    i :| 0 <= i < |a| && a[i].0 == k;
    MapOfAt(a, i);
    MapOfAt(b, i);
  }

  /** Where a key occurs more than once, the last occurrence counts. */
  lemma {:induction false} LastWins<K, V>(d: Dict<K, V>, i: nat)
    requires i < |d| && forall j :: i < j < |d| ==> d[j].0 != d[i].0
    ensures d[i].0 in MapOf(d) && MapOf(d)[d[i].0] == d[i].1
  {
    if i < |d| - 1 {
      LastWins(d[..|d| - 1], i);
    }
  }

  lemma {:induction false} MapOfEntry<K, V>(d: Dict<K, V>, k: K) returns (i: nat)
    requires k in MapOf(d)
    ensures i < |d| && d[i] == (k, MapOf(d)[k])
  {
    var n := |d| - 1;
    if d[n].0 == k {
      i := n;
    } else {
      i := MapOfEntry(d[..n], k);
    }
  }

  // ---------------------------------------------------------------- building a dict

  /** `d[k] = v`: in place, or at the end. */
  function Put<K(==), V>(d: Dict<K, V>, k: K, v: V): Dict<K, V> {
    if d == [] then [(k, v)]
    else if d[0].0 == k then [(k, v)] + d[1..]
    else [d[0]] + Put(d[1..], k, v)
  }

  /** A dict display or comprehension: later entries win. */
  function DictOf<K(==), V>(pairs: seq<(K, V)>): Dict<K, V> {
    if pairs == [] then []
    else Put(DictOf(pairs[..|pairs| - 1]), pairs[|pairs| - 1].0, pairs[|pairs| - 1].1)
  }

  lemma {:induction false} PutNew<K, V>(d: Dict<K, V>, k: K, v: V)
    requires !HasKey(d, k)
    ensures Put(d, k, v) == d + [(k, v)]
  {
    if d != [] {
      forall i | 0 <= i < |d[1..]| ensures d[1..][i].0 != k {
        assert d[i + 1].0 != k;
      }
      PutNew(d[1..], k, v);
    }
  }

  lemma {:induction false} PutOver<K, V>(d: Dict<K, V>, k: K, v: V, i: nat)
    requires DistinctKeys(d) && i < |d| && d[i].0 == k
    ensures Put(d, k, v) == d[i := (k, v)]
  {
    if i > 0 {
      assert d[0].0 != k;
      PutOver(d[1..], k, v, i - 1);
    }
  }

  lemma PutMaps<K, V>(d: Dict<K, V>, k: K, v: V)
    requires DistinctKeys(d)
    ensures DistinctKeys(Put(d, k, v)) && MapOf(Put(d, k, v)) == MapOf(d)[k := v]
  {
    if HasKey(d, k) {
      var i :| 0 <= i < |d| && d[i].0 == k;
      PutOver(d, k, v, i);
      UpdateMaps(d, i, v);
    } else {
      PutNew(d, k, v);
      assert (d + [(k, v)])[..|d|] == d;
    }
  }

  lemma {:induction false} UpdateMaps<K, V>(d: Dict<K, V>, i: nat, v: V)
    requires DistinctKeys(d) && i < |d|
    ensures DistinctKeys(d[i := (d[i].0, v)]) && MapOf(d[i := (d[i].0, v)]) == MapOf(d)[d[i].0 := v]
  {
    var n := |d| - 1;
    var e := d[i := (d[i].0, v)];
    if i < n {
      assert d[n].0 != d[i].0;
      UpdateMaps(d[..n], i, v);
      assert e[..n] == d[..n][i := (d[i].0, v)];
    } else {
      assert e[..n] == d[..n];
    }
  }

  /** What is built from pairs is a dict, and stands for the same mapping. */
  lemma {:induction false} DictOfMaps<K, V>(pairs: seq<(K, V)>)
    ensures DistinctKeys(DictOf(pairs)) && MapOf(DictOf(pairs)) == MapOf(pairs)
  {
    if pairs != [] {
      var n := |pairs| - 1;
      DictOfMaps(pairs[..n]);
      PutMaps(DictOf(pairs[..n]), pairs[n].0, pairs[n].1);
    }
  }

  /** Distinct entries make a dict as they are. */
  lemma {:induction false} DictOfDistinct<K, V>(pairs: seq<(K, V)>)
    requires DistinctKeys(pairs)
    ensures DictOf(pairs) == pairs
  {
    if pairs != [] {
      var n := |pairs| - 1;
      DictOfDistinct(pairs[..n]);
      PutNew(pairs[..n], pairs[n].0, pairs[n].1);
    }
  }

  /** Every entry of a dict is one of the pairs it was made from. */
  lemma {:induction false} DictOfEntries<K, V>(pairs: seq<(K, V)>, i: nat)
    requires i < |DictOf(pairs)|
    ensures DictOf(pairs)[i] in pairs
  {
    var n := |pairs| - 1;
    var before := DictOf(pairs[..n]);
    PutEntries(before, pairs[n].0, pairs[n].1, i);
    if DictOf(pairs)[i] != pairs[n] {
      var j :| 0 <= j < |before| && before[j] == DictOf(pairs)[i];
      DictOfEntries(pairs[..n], j);
    }
  }

  lemma {:induction false} PutEntries<K, V>(d: Dict<K, V>, k: K, v: V, i: nat)
    requires i < |Put(d, k, v)|
    ensures Put(d, k, v)[i] == (k, v) || Put(d, k, v)[i] in d
  {
    if d != [] && d[0].0 != k && i > 0 {
      PutEntries(d[1..], k, v, i - 1);
    }
  }

  /** For a dict, how often a pair occurs is decided by the mapping. */
  lemma {:induction false} PairCount<K, V>(d: Dict<K, V>, x: (K, V))
    requires DistinctKeys(d)
    ensures multiset(d)[x] == if x.0 in MapOf(d) && MapOf(d)[x.0] == x.1 then 1 else 0
  {
    if d != [] {
      var n := |d| - 1;
      PairCount(d[..n], x);
      assert d == d[..n] + [d[n]];
      MapOfAll(d);
      MapOfAll(d[..n]);
      assert !HasKey(d[..n], d[n].0);
    }
  }

  lemma SameMapSameItems<K, V>(d: Dict<K, V>, e: Dict<K, V>)
    requires DistinctKeys(d) && DistinctKeys(e)
    ensures MapOf(d) == MapOf(e) <==> multiset(d) == multiset(e)
  {
    forall x: (K, V)
      ensures multiset(d)[x] == if x.0 in MapOf(d) && MapOf(d)[x.0] == x.1 then 1 else 0
      ensures multiset(e)[x] == if x.0 in MapOf(e) && MapOf(e)[x.0] == x.1 then 1 else 0
    {
      PairCount(d, x);
      PairCount(e, x);
    }
    if multiset(d) == multiset(e) {
      forall k | k in MapOf(d) ensures k in MapOf(e) && MapOf(e)[k] == MapOf(d)[k] {
        PairCount(d, (k, MapOf(d)[k]));
        PairCount(e, (k, MapOf(d)[k]));
      }
      forall k | k in MapOf(e) ensures k in MapOf(d) {
        PairCount(d, (k, MapOf(e)[k]));
        PairCount(e, (k, MapOf(e)[k]));
      }
    }
  }

  // ---------------------------------------------------------------- sequences

  predicate Distinct(names: seq<Name>) {
    forall i, j :: 0 <= i < j < |names| ==> names[i] != names[j]
  }

  function MapSeq<A, B>(f: A -> B, xs: seq<A>): (ys: seq<B>)
    ensures |ys| == |xs| && forall i :: 0 <= i < |xs| ==> ys[i] == f(xs[i])
  {
    if xs == [] then [] else [f(xs[0])] + MapSeq(f, xs[1..])
  }

  /** The items of pairs one after another. */
  function Interleave<T>(pairs: seq<(T, T)>): (items: seq<T>)
    ensures |items| == 2 * |pairs|
  {
    if pairs == [] then [] else [pairs[0].0, pairs[0].1] + Interleave(pairs[1..])
  }

  lemma {:induction false} InterleaveSnoc<T>(pairs: seq<(T, T)>)
    requires pairs != []
    ensures Interleave(pairs) == Interleave(pairs[..|pairs| - 1]) + [pairs[|pairs| - 1].0, pairs[|pairs| - 1].1]
  {
    if |pairs| > 1 {
      var n := |pairs| - 1;
      InterleaveSnoc(pairs[1..]);
      assert pairs[1..][..n - 1] == pairs[1..n] == pairs[..n][1..];
      assert pairs[1..][n - 1] == pairs[n] && pairs[..n][0] == pairs[0];
    }
  }

  /** The items two by two; an odd one at the front is left over. */
  function Pairs<T>(items: seq<T>): (pairs: seq<(T, T)>)
    ensures |pairs| == |items| / 2
  {
    if |items| < 2 then []
    else Pairs(items[..|items| - 2]) + [(items[|items| - 2], items[|items| - 1])]
  }

  lemma {:induction false} PairsInterleave<T>(pairs: seq<(T, T)>)
    ensures Pairs(Interleave(pairs)) == pairs
  {
    if pairs != [] {
      var n := |pairs| - 1;
      PairsInterleave(pairs[..n]);
      InterleaveSnoc(pairs);
      assert Interleave(pairs)[..2 * n] == Interleave(pairs[..n]);
      assert pairs == pairs[..n] + [pairs[n]];
    }
  }
}
