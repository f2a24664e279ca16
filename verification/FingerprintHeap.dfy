/**
 * `hash_value` on a heap of objects, shared and cyclic structure included: when it terminates, what
 * it does not depend on, and exactly which objects it tells apart.
 */
module FingerprintHeap {
  import opened Prelude
  import opened Sorting
  import opened Fingerprints

  type Ref = nat

  type Plain = v: Value | IsPrimitive(v) witness PyStr("")

  /**
   * An object by the implementation its type dispatches to. `Instance` is the default case with a
   * non-empty `__dict__`, `Builtin` the default case hashed by its repr, `Foreign` the default case
   * with neither.
   */
  datatype Obj =
    | NoneObj
    | Primitive(value: Plain)
    | Sequence(items: seq<Ref>)
    | Set(elements: seq<Ref>)
    | Mapping(entries: seq<(Ref, Ref)>)
    | Instance(dict: Ref)
    | Builtin(repr: Bytes)
    | Foreign

  type Heap = map<Ref, Obj>

  predicate IsContainer(o: Obj) {
    o.Sequence? || o.Set? || o.Mapping?
  }

  predicate IsDefaultCase(o: Obj) {
    o.Instance? || o.Builtin? || o.Foreign?
  }

  /** The objects a hash of o recurses into, in order. */
  function Children(o: Obj): seq<Ref> {
    match o
    case Sequence(items) => items
    case Set(elements) => elements
    case Mapping(entries) => Interleave(entries)
    case Instance(dict) => [dict]
    case _ => []
  }

  predicate Closed(heap: Heap) {
    forall r :: r in heap ==> forall i :: 0 <= i < |Children(heap[r])| ==> Children(heap[r])[i] in heap
  }

  // ---------------------------------------------------------------- unordered mappings

  function JoinPairs(pairs: seq<(string, string)>): string {
    if pairs == [] then "" else pairs[0].0 + pairs[0].1 + JoinPairs(pairs[1..])
  }

  function MappingHash(h: Hasher, hashes: seq<string>): string {
    h.digest(JoinPairs(Sort(PairLeq, DictOf(Pairs(hashes)))))
  }

  /** The loop of `hash_unordered_mapping`, given the fingerprints of keys and values in turn. */
  method HashUnorderedMapping(h: Hasher, hashes: seq<string>) returns (r: string)
    requires |hashes| % 2 == 0
    ensures r == MappingHash(h, hashes)
  {
    var hashed: Dict<string, string> := [];
    var i := 0;
    while i < |hashes|
      invariant 0 <= i <= |hashes| && i % 2 == 0
      invariant hashed == DictOf(Pairs(hashes[..i]))
    {
      assert hashes[..i + 2][..i] == hashes[..i];
      var pairs := Pairs(hashes[..i]) + [(hashes[i], hashes[i + 1])];
      assert pairs[..|pairs| - 1] == Pairs(hashes[..i]);
      assert Pairs(hashes[..i + 2]) == pairs;
      hashed := Put(hashed, hashes[i], hashes[i + 1]);
      i := i + 2;
    }
    assert hashes[..i] == hashes;
    r := h.digest(JoinPairs(Sort(PairLeq, hashed)));
  }

  lemma {:induction false} JoinPairsConcat(pairs: seq<(string, string)>)
    ensures JoinPairs(pairs) == Concat(Interleave(pairs))
  {
    if pairs != [] {
      JoinPairsConcat(pairs[1..]);
      var items := Interleave(pairs);
      assert items[1..][1..] == Interleave(pairs[1..]);
      assert Concat(items) == items[0] + (items[1] + Concat(items[1..][1..]));
    }
  }

  predicate PairsOfParts(pairs: seq<(string, string)>) {
    forall i :: 0 <= i < |pairs| ==> IsPart(pairs[i].0) && IsPart(pairs[i].1)
  }

  lemma {:induction false} PairsAreParts(hashes: seq<string>)
    requires AllParts(hashes)
    ensures PairsOfParts(Pairs(hashes))
  {
    hide IsPart;
    if |hashes| >= 2 {
      PairsAreParts(hashes[..|hashes| - 2]);
    }
  }

  lemma {:induction false} InterleavedParts(pairs: seq<(string, string)>)
    requires PairsOfParts(pairs)
    ensures AllParts(Interleave(pairs))
  {
    hide IsPart;
    if pairs != [] {
      InterleavedParts(pairs[1..]);
    }
  }

  /** What is written out for a mapping: fingerprints, each key once. */
  lemma WrittenOut(hashes: seq<string>)
    requires AllParts(hashes)
    ensures AllParts(Interleave(Sort(PairLeq, DictOf(Pairs(hashes)))))
  {
    hide IsPart, Interleave, Pairs, Sort, DictOf;
    var pairs := Pairs(hashes);
    PairsAreParts(hashes);
    var d := DictOf(pairs);
    SortMultiset(PairLeq, d);
    var sorted := Sort(PairLeq, d);
    forall i | 0 <= i < |sorted| ensures IsPart(sorted[i].0) && IsPart(sorted[i].1) {
      assert sorted[i] in multiset(d);
      var j :| 0 <= j < |d| && d[j] == sorted[i];
      DictOfEntries(pairs, j);
    }
    InterleavedParts(sorted);
  }

  /**
   * The fingerprint of a mapping says exactly, per key fingerprint, which value fingerprint came last:
   * neither the order of the entries nor a value written over counts.
   */
  lemma {:induction false} MappingHashExact(h: Hasher, a: seq<string>, b: seq<string>)
    requires h.Valid() && AllParts(a) && AllParts(b)
    ensures MappingHash(h, a) == MappingHash(h, b) <==> MapOf(Pairs(a)) == MapOf(Pairs(b))
  {
    var d, e := DictOf(Pairs(a)), DictOf(Pairs(b));
    DictOfMaps(Pairs(a));
    DictOfMaps(Pairs(b));
    hide IsPart, DictOf, Interleave, Pairs, Sort, MapOf, Concat, JoinPairs;
    SameMapSameItems(d, e);
    PairOrder();
    if multiset(d) == multiset(e) {
      SortCanonical(PairLeq, d, e);
    }
    if MappingHash(h, a) == MappingHash(h, b) {
      var x, y := Sort(PairLeq, d), Sort(PairLeq, e);
      JoinPairsConcat(x);
      JoinPairsConcat(y);
      WrittenOut(a);
      WrittenOut(b);
      ConcatInjective(Interleave(x), Interleave(y));
      PairsInterleave(x);
      PairsInterleave(y);
      SortMultiset(PairLeq, d);
      SortMultiset(PairLeq, e);
    }
  }

  lemma PairsOfOne(k: string, v: string)
    ensures Pairs([k, v]) == [(k, v)] && Sort(PairLeq, DictOf(Pairs([k, v]))) == [(k, v)]
  {
    assert Pairs([k, v][..0]) == [];
    DictOfDistinct([(k, v)]);
    assert Sort(PairLeq, [(k, v)][1..]) == [];
  }

  lemma PairsOfTwo(k: string, v: string, k': string, v': string)
    requires k != k'
    ensures DictOf(Pairs([k, v, k', v'])) == [(k, v), (k', v')]
  {
    PairsOfOne(k, v);
    assert [k, v, k', v'][..2] == [k, v];
    assert Pairs([k, v, k', v']) == [(k, v), (k', v')];
    DictOfDistinct([(k, v), (k', v')]);
  }

  lemma TwoInOrder(k: string, v: string, k': string, v': string)
    requires StringLeq(k, k') && k != k'
    ensures Sort(PairLeq, [(k, v), (k', v')]) == [(k, v), (k', v')] == Sort(PairLeq, [(k', v'), (k, v)])
  {
    var d, e := [(k, v), (k', v')], [(k', v'), (k, v)];
    assert Sort(PairLeq, d) == d by {
      assert d[1..] == [(k', v')] && d[1..][1..] == [];
      assert Sort(PairLeq, d[1..][1..]) == [];
      assert Sort(PairLeq, d[1..]) == d[1..];
    }
    PairOrder();
    assert multiset(d) == multiset(e);
    SortCanonical(PairLeq, d, e);
  }

  lemma JoinedPairs(k: string, v: string, k': string, v': string)
    ensures JoinPairs([(k, v)]) == k + v && JoinPairs([(k, v), (k', v')]) == k + v + (k' + v')
  {
    var d := [(k, v), (k', v')];
    assert [(k, v)][1..] == [] && d[1..] == [(k', v')] && d[1..][1..] == [];
    assert JoinPairs(d[1..]) == k' + v' + JoinPairs([]);
  }

  /** What is digested for two entries: keys before their values, the smaller key first. */
  lemma MappingText(h: Hasher, k: string, v: string, k': string, v': string)
    requires StringLeq(k, k') && k != k'
    ensures MappingHash(h, [k, v]) == h.digest(k + v)
    ensures MappingHash(h, [k', v', k, v]) == MappingHash(h, [k, v, k', v']) == h.digest(k + v + (k' + v'))
  {
    hide Pairs, DictOf, Sort, JoinPairs, StringLeq;
    PairsOfOne(k, v);
    PairsOfTwo(k, v, k', v');
    PairsOfTwo(k', v', k, v);
    TwoInOrder(k, v, k', v');
    JoinedPairs(k, v, k', v');
  }

  // ---------------------------------------------------------------- the hash

  /** The fingerprint of o from those of its children. */
  function Combine(h: Hasher, o: Obj, hashes: seq<string>): string {
    match o
    case NoneObj => NONE_HASH
    case Primitive(value) => h.digest(Tagged(value))
    case Sequence(_) => h.digest(Concat(hashes))
    case Set(_) => h.digest(Concat(Sort(StringLeq, hashes)))
    case Mapping(_) => MappingHash(h, hashes)
    case Instance(_) => if hashes == [] then UNHASHABLE else hashes[0]
    case Builtin(repr) => h.digest("str:" + repr)
    case Foreign => UNHASHABLE
  }

  predicate TooDeep(o: Obj, maxDepth: int, depth: int) {
    IsDefaultCase(o) && depth > maxDepth
  }

  /** Containers nest finitely when no default-case object comes between. */
  ghost predicate Ranks(heap: Heap, rank: Ref -> nat) {
    forall r :: r in heap && IsContainer(heap[r]) ==>
      forall i :: 0 <= i < |Children(heap[r])| ==>
        var c := Children(heap[r])[i];
        c in heap && IsContainer(heap[c]) ==> rank(c) < rank(r)
  }

  ghost function Weight(heap: Heap, rank: Ref -> nat, r: Ref): nat
    requires r in heap
  {
    if IsContainer(heap[r]) then rank(r) + 1 else 0
  }

  ghost function Remaining(maxDepth: int, depth: int): nat {
    if depth <= maxDepth then maxDepth + 1 - depth else 0
  }

  /**
   * `hash_value` at a given depth. It terminates because the remaining depth shrinks until default-case
   * objects are cut off, and from there on the nesting of containers does.
   */
  function Hash(h: Hasher, heap: Heap, ghost rank: Ref -> nat, maxDepth: int, r: Ref, depth: int): string
    requires Closed(heap) && Ranks(heap, rank) && r in heap
    decreases Remaining(maxDepth, depth), Weight(heap, rank, r), 1, 0
  {
    if TooDeep(heap[r], maxDepth, depth) then UNHASHABLE
    else Combine(h, heap[r], HashChildren(h, heap, rank, maxDepth, r, depth, |Children(heap[r])|))
  }

  /** The fingerprints of the first k children, one level deeper. */
  function HashChildren(h: Hasher, heap: Heap, ghost rank: Ref -> nat, maxDepth: int, r: Ref, depth: int,
                        k: nat): (hs: seq<string>)
    requires Closed(heap) && Ranks(heap, rank) && r in heap
    requires k <= |Children(heap[r])| && !TooDeep(heap[r], maxDepth, depth)
    ensures |hs| == k
    decreases Remaining(maxDepth, depth), Weight(heap, rank, r), 0, k
  {
    if k == 0 then []
    else
      HashChildren(h, heap, rank, maxDepth, r, depth, k - 1)
      + [Hash(h, heap, rank, maxDepth, Children(heap[r])[k - 1], depth + 1)]
  }

  // ---------------------------------------------------------------- exactly when it terminates

  /** The recursion with at most `fuel` nested calls; None is a call stack that ran out. */
  function Bounded(h: Hasher, heap: Heap, maxDepth: int, r: Ref, depth: int, fuel: nat): Option<string>
    requires Closed(heap) && r in heap
    decreases fuel, 1, 0
  {
    if fuel == 0 then None
    else if TooDeep(heap[r], maxDepth, depth) then Some(UNHASHABLE)
    else
      match BoundedChildren(h, heap, maxDepth, r, depth, |Children(heap[r])|, fuel - 1)
      case None => None
      case Some(hs) => Some(Combine(h, heap[r], hs))
  }

  function BoundedChildren(h: Hasher, heap: Heap, maxDepth: int, r: Ref, depth: int, k: nat,
                           fuel: nat): Option<seq<string>>
    requires Closed(heap) && r in heap && k <= |Children(heap[r])|
    decreases fuel, 2, k
  {
    if k == 0 then Some([])
    else
      match BoundedChildren(h, heap, maxDepth, r, depth, k - 1, fuel)
      case None => None
      case Some(hs) =>
        match Bounded(h, heap, maxDepth, Children(heap[r])[k - 1], depth + 1, fuel)
        case None => None
        case Some(s) => Some(hs + [s])
  }

  ghost predicate Terminates(h: Hasher, heap: Heap, maxDepth: int, r: Ref, depth: int)
    requires Closed(heap) && r in heap
  {
    exists fuel :: Bounded(h, heap, maxDepth, r, depth, fuel).Some?
  }

  /** More fuel does not change an answer. */
  lemma {:induction false} MoreFuel(h: Hasher, heap: Heap, maxDepth: int, r: Ref, depth: int, fuel: nat, more: nat)
    requires Closed(heap) && r in heap && fuel <= more
    requires Bounded(h, heap, maxDepth, r, depth, fuel).Some?
    ensures Bounded(h, heap, maxDepth, r, depth, more) == Bounded(h, heap, maxDepth, r, depth, fuel)
    decreases fuel, 1, 0
  {
    if !TooDeep(heap[r], maxDepth, depth) {
      MoreFuelChildren(h, heap, maxDepth, r, depth, |Children(heap[r])|, fuel - 1, more - 1);
    }
  }

  lemma {:induction false} MoreFuelChildren(h: Hasher, heap: Heap, maxDepth: int, r: Ref, depth: int, k: nat,
                                            fuel: nat, more: nat)
    requires Closed(heap) && r in heap && k <= |Children(heap[r])| && fuel <= more
    requires BoundedChildren(h, heap, maxDepth, r, depth, k, fuel).Some?
    ensures BoundedChildren(h, heap, maxDepth, r, depth, k, more)
        == BoundedChildren(h, heap, maxDepth, r, depth, k, fuel)
    decreases fuel, 2, k
  {
    if k > 0 {
      MoreFuelChildren(h, heap, maxDepth, r, depth, k - 1, fuel, more);
      MoreFuel(h, heap, maxDepth, Children(heap[r])[k - 1], depth + 1, fuel, more);
    }
  }

  /** With container ranks, some fuel suffices, and the answer is `Hash`. */
  lemma {:induction false} EnoughFuel(h: Hasher, heap: Heap, rank: Ref -> nat, maxDepth: int, r: Ref, depth: int)
    returns (fuel: nat)
    requires Closed(heap) && Ranks(heap, rank) && r in heap
    ensures Bounded(h, heap, maxDepth, r, depth, fuel) == Some(Hash(h, heap, rank, maxDepth, r, depth))
    decreases Remaining(maxDepth, depth), Weight(heap, rank, r), 1, 0
  {
    if TooDeep(heap[r], maxDepth, depth) {
      fuel := 1;
    } else {
      fuel := EnoughForChildren(h, heap, rank, maxDepth, r, depth, |Children(heap[r])|);
      fuel := fuel + 1;
    }
  }

  lemma {:induction false} EnoughForChildren(h: Hasher, heap: Heap, rank: Ref -> nat, maxDepth: int, r: Ref,
                                             depth: int, k: nat)
    returns (fuel: nat)
    requires Closed(heap) && Ranks(heap, rank) && r in heap
    requires k <= |Children(heap[r])| && !TooDeep(heap[r], maxDepth, depth)
    ensures BoundedChildren(h, heap, maxDepth, r, depth, k, fuel)
        == Some(HashChildren(h, heap, rank, maxDepth, r, depth, k))
    decreases Remaining(maxDepth, depth), Weight(heap, rank, r), 0, k
  {
    fuel := 0;
    if k > 0 {
      var before := EnoughForChildren(h, heap, rank, maxDepth, r, depth, k - 1);
      var c := Children(heap[r])[k - 1];
      var child := EnoughFuel(h, heap, rank, maxDepth, c, depth + 1);
      fuel := if before < child then child else before;
      MoreFuelChildren(h, heap, maxDepth, r, depth, k - 1, before, fuel);
      MoreFuel(h, heap, maxDepth, c, depth + 1, child, fuel);
    }
  }

  /** Beyond the maximal depth the depth no longer matters. */
  lemma {:induction false} DeepIsDeep(h: Hasher, heap: Heap, maxDepth: int, r: Ref, a: int, b: int, fuel: nat)
    requires Closed(heap) && r in heap && a > maxDepth && b > maxDepth
    ensures Bounded(h, heap, maxDepth, r, a, fuel) == Bounded(h, heap, maxDepth, r, b, fuel)
    decreases fuel, 1, 0
  {
    if fuel > 0 && !IsDefaultCase(heap[r]) {
      DeepChildren(h, heap, maxDepth, r, a, b, |Children(heap[r])|, fuel - 1);
    }
  }

  lemma {:induction false} DeepChildren(h: Hasher, heap: Heap, maxDepth: int, r: Ref, a: int, b: int, k: nat, fuel: nat)
    requires Closed(heap) && r in heap && a > maxDepth && b > maxDepth && k <= |Children(heap[r])|
    ensures BoundedChildren(h, heap, maxDepth, r, a, k, fuel) == BoundedChildren(h, heap, maxDepth, r, b, k, fuel)
    decreases fuel, 2, k
  {
    if k > 0 {
      DeepChildren(h, heap, maxDepth, r, a, b, k - 1, fuel);
      DeepIsDeep(h, heap, maxDepth, Children(heap[r])[k - 1], a + 1, b + 1, fuel);
    }
  }

  lemma {:induction false} ChildTerminates(h: Hasher, heap: Heap, maxDepth: int, r: Ref, depth: int, k: nat, i: nat,
                                           fuel: nat)
    requires Closed(heap) && r in heap && i < k <= |Children(heap[r])|
    requires BoundedChildren(h, heap, maxDepth, r, depth, k, fuel).Some?
    ensures Bounded(h, heap, maxDepth, Children(heap[r])[i], depth + 1, fuel).Some?
  {
    if i < k - 1 {
      ChildTerminates(h, heap, maxDepth, r, depth, k - 1, i, fuel);
    }
  }

  ghost predicate AllTerminate(h: Hasher, heap: Heap, maxDepth: int)
    requires Closed(heap)
  {
    forall r, depth {:trigger Terminates(h, heap, maxDepth, r, depth)} :: r in heap ==>
        Terminates(h, heap, maxDepth, r, depth)
  }

  /** At the cut-off this much fuel is not enough. */
  ghost predicate RunsOut(h: Hasher, heap: Heap, maxDepth: int, r: Ref, fuel: nat)
    requires Closed(heap) && r in heap
  {
    Bounded(h, heap, maxDepth, r, maxDepth + 1, fuel).None?
  }

  /** The least fuel r needs once default-case objects are cut off. */
  ghost function LeastFuel(h: Hasher, heap: Heap, maxDepth: int, r: Ref, from: nat, enough: nat): (fuel: nat)
    requires Closed(heap) && r in heap && from <= enough
    requires Bounded(h, heap, maxDepth, r, maxDepth + 1, enough).Some?
    requires forall f: nat :: f < from ==> RunsOut(h, heap, maxDepth, r, f)
    ensures Bounded(h, heap, maxDepth, r, maxDepth + 1, fuel).Some?
    ensures forall f: nat :: f < fuel ==> RunsOut(h, heap, maxDepth, r, f)
    decreases enough - from
  {
    if Bounded(h, heap, maxDepth, r, maxDepth + 1, from).Some? then from
    else LeastFuel(h, heap, maxDepth, r, from + 1, enough)
  }

  ghost function FuelRank(h: Hasher, heap: Heap, maxDepth: int, r: Ref): nat
    requires Closed(heap)
  {
    if r in heap && Terminates(h, heap, maxDepth, r, maxDepth + 1) then
      var enough :| Bounded(h, heap, maxDepth, r, maxDepth + 1, enough).Some?;
      LeastFuel(h, heap, maxDepth, r, 0, enough)
    else 0
  }

  lemma TerminatesIffRanked(h: Hasher, heap: Heap, maxDepth: int)
    requires Closed(heap)
    ensures AllTerminate(h, heap, maxDepth) <==> exists rank :: Ranks(heap, rank)
  {
    if rank :| Ranks(heap, rank) {
      forall r, depth | r in heap ensures Terminates(h, heap, maxDepth, r, depth) {
        var fuel := EnoughFuel(h, heap, rank, maxDepth, r, depth);
      }
    }
    if AllTerminate(h, heap, maxDepth) {
      var rank: Ref -> nat := r => FuelRank(h, heap, maxDepth, r);
      forall r, i | r in heap && IsContainer(heap[r]) && 0 <= i < |Children(heap[r])|
                    && IsContainer(heap[Children(heap[r])[i]])
        ensures rank(Children(heap[r])[i]) < rank(r)
      {
        ChildRankSmaller(h, heap, maxDepth, r, i);
      }
      assert Ranks(heap, rank);
    }
  }

  lemma ChildRankSmaller(h: Hasher, heap: Heap, maxDepth: int, r: Ref, i: nat)
    requires Closed(heap) && AllTerminate(h, heap, maxDepth)
    requires r in heap && IsContainer(heap[r]) && i < |Children(heap[r])|
    ensures FuelRank(h, heap, maxDepth, Children(heap[r])[i]) < FuelRank(h, heap, maxDepth, r)
  {
    var c := Children(heap[r])[i];
    assert Terminates(h, heap, maxDepth, r, maxDepth + 1) && Terminates(h, heap, maxDepth, c, maxDepth + 1);
    var fuel := FuelRank(h, heap, maxDepth, r);
    assert Bounded(h, heap, maxDepth, r, maxDepth + 1, fuel).Some?;
    ChildTerminates(h, heap, maxDepth, r, maxDepth + 1, |Children(heap[r])|, i, fuel - 1);
    DeepIsDeep(h, heap, maxDepth, c, maxDepth + 1, maxDepth + 2, fuel - 1);
    assert !RunsOut(h, heap, maxDepth, c, fuel - 1);
  }

  /** Each object is found among what the hash of the one before recurses into. */
  ghost predicate Path(heap: Heap, p: seq<Ref>) {
    && (forall i :: 0 <= i < |p| ==> p[i] in heap)
    && (forall i :: 0 < i < |p| ==> p[i] in Children(heap[p[i - 1]]))
  }

  ghost predicate Cycle(heap: Heap, p: seq<Ref>) {
    |p| >= 2 && p[0] == p[|p| - 1] && Path(heap, p)
  }

  ghost predicate MeetsDefaultCase(heap: Heap, p: seq<Ref>)
    requires Path(heap, p)
  {
    exists i :: 0 <= i < |p| && IsDefaultCase(heap[p[i]])
  }

  ghost predicate CyclesMeetDefaultCase(heap: Heap) {
    forall p :: Cycle(heap, p) ==> MeetsDefaultCase(heap, p)
  }

  ghost predicate ContainerPath(heap: Heap, p: seq<Ref>) {
    Path(heap, p) && forall i :: 0 <= i < |p| ==> IsContainer(heap[p[i]])
  }

  lemma {:induction false} RankFalls(heap: Heap, rank: Ref -> nat, p: seq<Ref>)
    requires Ranks(heap, rank) && ContainerPath(heap, p) && |p| >= 2
    ensures rank(p[|p| - 1]) < rank(p[0])
  {
    assert p[1] in Children(heap[p[0]]);
    if |p| > 2 {
      RankFalls(heap, rank, p[1..]);
    }
  }

  ghost predicate Reaches(heap: Heap, r: Ref, c: Ref) {
    exists p :: ContainerPath(heap, p) && |p| >= 2 && p[0] == r && p[|p| - 1] == c
  }

  /** How many objects r reaches through containers alone. */
  ghost function Reached(heap: Heap, r: Ref): nat {
    |set c | c in heap && Reaches(heap, r, c)|
  }

  lemma SelfReachIsCycle(heap: Heap, c: Ref)
    requires Reaches(heap, c, c)
    ensures !CyclesMeetDefaultCase(heap)
  {
    var p :| ContainerPath(heap, p) && |p| >= 2 && p[0] == c && p[|p| - 1] == c;
    assert Cycle(heap, p) && !MeetsDefaultCase(heap, p);
  }

  lemma ChildReachesLess(heap: Heap, r: Ref, c: Ref)
    requires !Reaches(heap, c, c)
    requires r in heap && IsContainer(heap[r]) && c in Children(heap[r]) && c in heap && IsContainer(heap[c])
    ensures Reached(heap, c) < Reached(heap, r)
  {
    var fromR := set x | x in heap && Reaches(heap, r, x);
    var fromC := set x | x in heap && Reaches(heap, c, x);
    forall x | x in fromC ensures x in fromR {
      var p :| ContainerPath(heap, p) && |p| >= 2 && p[0] == c && p[|p| - 1] == x;
      assert ContainerPath(heap, [r] + p);
      assert ([r] + p)[|p|] == x;
    }
    assert ContainerPath(heap, [r, c]) && [r, c][1] == c;
    assert c in fromR;
    assert fromC < fromR;
    Smaller(fromC, fromR);
  }

  lemma Smaller<T>(a: set<T>, b: set<T>)
    requires a < b
    ensures |a| < |b|
  {
    assert b == a + (b - a);
  }

  lemma CyclesAndRanks(heap: Heap)
    requires Closed(heap)
    ensures CyclesMeetDefaultCase(heap) <==> exists rank :: Ranks(heap, rank)
  {
    if CyclesMeetDefaultCase(heap) {
      var rank: Ref -> nat := r => Reached(heap, r);
      forall r, i | r in heap && IsContainer(heap[r]) && 0 <= i < |Children(heap[r])|
                    && IsContainer(heap[Children(heap[r])[i]])
        ensures rank(Children(heap[r])[i]) < rank(r)
      {
        if Reaches(heap, Children(heap[r])[i], Children(heap[r])[i]) {
          SelfReachIsCycle(heap, Children(heap[r])[i]);
        }
        ChildReachesLess(heap, r, Children(heap[r])[i]);
      }
      assert Ranks(heap, rank);
    }
    if rank :| Ranks(heap, rank) {
      forall p | Cycle(heap, p) ensures MeetsDefaultCase(heap, p) {
        if !MeetsDefaultCase(heap, p) {
          forall i | 0 <= i < |p| ensures IsContainer(heap[p[i]]) {
            var j := if i + 1 < |p| then i else 0;
            assert p[i] == p[j] && p[j + 1] in Children(heap[p[j]]);
          }
          RankFalls(heap, rank, p);
        }
      }
    }
  }

  /**
   * `hash_value` terminates on every object of a heap, at every depth, exactly when every cycle of its
   * object graph passes through a default-case object: only those look at the depth.
   */
  lemma TerminatesIffCyclesMeetDefaultCase(h: Hasher, heap: Heap, maxDepth: int)
    requires Closed(heap)
    ensures AllTerminate(h, heap, maxDepth) <==> CyclesMeetDefaultCase(heap)
  {
    TerminatesIffRanked(h, heap, maxDepth);
    CyclesAndRanks(heap);
  }

  // ---------------------------------------------------------------- one object

  /** A path of calls from this depth on: every object but perhaps the last is recursed into. */
  ghost predicate LivePath(heap: Heap, maxDepth: int, p: seq<Ref>, depth: int) {
    Path(heap, p) && forall i :: 0 <= i < |p| - 1 ==> !TooDeep(heap[p[i]], maxDepth, depth + i)
  }

  /** Before the cut-off the recursion on r gets to a cycle of containers alone. */
  ghost predicate MeetsContainerCycle(heap: Heap, maxDepth: int, r: Ref, depth: int) {
    exists p :: LivePath(heap, maxDepth, p, depth) && p != [] && p[0] == r && Reaches(heap, p[|p| - 1], p[|p| - 1])
  }

  lemma NextOnCycle(heap: Heap, c: Ref) returns (x: Ref)
    requires Reaches(heap, c, c)
    ensures c in heap && IsContainer(heap[c]) && x in Children(heap[c]) && Reaches(heap, x, x)
  {
    var p :| ContainerPath(heap, p) && |p| >= 2 && p[0] == c && p[|p| - 1] == c;
    x := p[1];
    var q := p[1..] + [x];
    assert p[1] in Children(heap[p[0]]);
    forall i | 0 < i < |q| ensures q[i] in Children(heap[q[i - 1]]) {
      if i < |q| - 1 {
        assert q[i] == p[i + 1] && q[i - 1] == p[i];
      } else {
        assert q[i - 1] == p[|p| - 1] == c;
      }
    }
    assert ContainerPath(heap, q) && q[0] == x && q[|q| - 1] == x;
  }

  /** A child that runs out of fuel makes its parent do so. */
  lemma ChildRunsOut(h: Hasher, heap: Heap, maxDepth: int, r: Ref, depth: int, c: Ref, fuel: nat)
    requires Closed(heap) && r in heap && c in Children(heap[r]) && c in heap && !TooDeep(heap[r], maxDepth, depth)
    requires fuel > 0 ==> Bounded(h, heap, maxDepth, c, depth + 1, fuel - 1).None?
    ensures Bounded(h, heap, maxDepth, r, depth, fuel).None?
  {
    if fuel > 0 && BoundedChildren(h, heap, maxDepth, r, depth, |Children(heap[r])|, fuel - 1).Some? {
      var i :| 0 <= i < |Children(heap[r])| && Children(heap[r])[i] == c;
      ChildTerminates(h, heap, maxDepth, r, depth, |Children(heap[r])|, i, fuel - 1);
    }
  }

  lemma {:induction false} CycleRunsOut(h: Hasher, heap: Heap, maxDepth: int, c: Ref, depth: int, fuel: nat)
    requires Closed(heap) && c in heap && Reaches(heap, c, c)
    ensures Bounded(h, heap, maxDepth, c, depth, fuel).None?
    decreases fuel
  {
    var x := NextOnCycle(heap, c);
    var i :| 0 <= i < |Children(heap[c])| && Children(heap[c])[i] == x;
    if fuel > 0 {
      CycleRunsOut(h, heap, maxDepth, x, depth + 1, fuel - 1);
    }
    ChildRunsOut(h, heap, maxDepth, c, depth, x, fuel);
  }

  lemma {:induction false} LivePathRunsOut(h: Hasher, heap: Heap, maxDepth: int, p: seq<Ref>, depth: int, fuel: nat)
    requires Closed(heap) && LivePath(heap, maxDepth, p, depth) && p != []
    requires Reaches(heap, p[|p| - 1], p[|p| - 1])
    ensures Bounded(h, heap, maxDepth, p[0], depth, fuel).None?
    decreases |p|
  {
    if |p| == 1 {
      CycleRunsOut(h, heap, maxDepth, p[0], depth, fuel);
    } else {
      assert p[1] in Children(heap[p[0]]) && !TooDeep(heap[p[0]], maxDepth, depth + 0);
      LiveTail(heap, maxDepth, p, depth);
      if fuel > 0 {
        LivePathRunsOut(h, heap, maxDepth, p[1..], depth + 1, fuel - 1);
      }
      ChildRunsOut(h, heap, maxDepth, p[0], depth, p[1], fuel);
    }
  }

  lemma LiveTail(heap: Heap, maxDepth: int, p: seq<Ref>, depth: int)
    requires LivePath(heap, maxDepth, p, depth) && |p| > 1
    ensures LivePath(heap, maxDepth, p[1..], depth + 1)
  {
    forall i | 0 <= i < |p| - 2 ensures !TooDeep(heap[p[1..][i]], maxDepth, depth + 1 + i) {
      assert !TooDeep(heap[p[i + 1]], maxDepth, depth + (i + 1));
    }
  }

  lemma ChildMeetsLess(heap: Heap, maxDepth: int, r: Ref, depth: int, c: Ref)
    requires r in heap && c in Children(heap[r]) && c in heap && !TooDeep(heap[r], maxDepth, depth)
    requires !MeetsContainerCycle(heap, maxDepth, r, depth)
    ensures !MeetsContainerCycle(heap, maxDepth, c, depth + 1) && !Reaches(heap, c, c)
  {
    forall p | LivePath(heap, maxDepth, p, depth + 1) && p != [] && p[0] == c
      ensures !Reaches(heap, p[|p| - 1], p[|p| - 1])
    {
      var q := [r] + p;
      forall i | 0 <= i < |q| - 1 ensures !TooDeep(heap[q[i]], maxDepth, depth + i) {
        if i > 0 {
          assert q[i] == p[i - 1] && !TooDeep(heap[p[i - 1]], maxDepth, depth + 1 + (i - 1));
        }
      }
      assert LivePath(heap, maxDepth, q, depth);
      assert q[|q| - 1] == p[|p| - 1];
    }
    assert LivePath(heap, maxDepth, [c], depth + 1);
  }

  ghost function ContainerWeight(heap: Heap, r: Ref): nat
    requires r in heap
  {
    if IsContainer(heap[r]) then Reached(heap, r) + 1 else 0
  }

  /** Without such a cycle some fuel suffices. */
  lemma {:induction false} EnoughFuelFrom(h: Hasher, heap: Heap, maxDepth: int, r: Ref, depth: int) returns (fuel: nat)
    requires Closed(heap) && r in heap && !MeetsContainerCycle(heap, maxDepth, r, depth)
    ensures Bounded(h, heap, maxDepth, r, depth, fuel).Some?
    decreases Remaining(maxDepth, depth), ContainerWeight(heap, r), 1, 0
  {
    if TooDeep(heap[r], maxDepth, depth) {
      fuel := 1;
    } else {
      fuel := EnoughForChildrenFrom(h, heap, maxDepth, r, depth, |Children(heap[r])|);
      fuel := fuel + 1;
    }
  }

  lemma {:induction false} EnoughForChildrenFrom(h: Hasher, heap: Heap, maxDepth: int, r: Ref, depth: int, k: nat)
    returns (fuel: nat)
    requires Closed(heap) && r in heap && !MeetsContainerCycle(heap, maxDepth, r, depth)
    requires k <= |Children(heap[r])| && !TooDeep(heap[r], maxDepth, depth)
    ensures BoundedChildren(h, heap, maxDepth, r, depth, k, fuel).Some?
    decreases Remaining(maxDepth, depth), ContainerWeight(heap, r), 0, k
  {
    fuel := 0;
    if k > 0 {
      var before := EnoughForChildrenFrom(h, heap, maxDepth, r, depth, k - 1);
      var c := Children(heap[r])[k - 1];
      ChildMeetsLess(heap, maxDepth, r, depth, c);
      if IsContainer(heap[r]) && IsContainer(heap[c]) {
        ChildReachesLess(heap, r, c);
      }
      var child := EnoughFuelFrom(h, heap, maxDepth, c, depth + 1);
      fuel := if before < child then child else before;
      MoreFuelChildren(h, heap, maxDepth, r, depth, k - 1, before, fuel);
      MoreFuel(h, heap, maxDepth, c, depth + 1, child, fuel);
    }
  }

  /**
   * `hash_value` terminates on one object, from one depth, exactly when its recursion gets to no cycle of
   * containers alone before default-case objects are cut off.
   */
  lemma TerminatesIffNoContainerCycle(h: Hasher, heap: Heap, maxDepth: int, r: Ref, depth: int)
    requires Closed(heap) && r in heap
    ensures Terminates(h, heap, maxDepth, r, depth) <==> !MeetsContainerCycle(heap, maxDepth, r, depth)
  {
    hide Reaches, LivePath, Closed, Bounded;
    if MeetsContainerCycle(heap, maxDepth, r, depth) {
      var p :| LivePath(heap, maxDepth, p, depth) && p != [] && p[0] == r && Reaches(heap, p[|p| - 1], p[|p| - 1]);
      forall fuel: nat ensures Bounded(h, heap, maxDepth, r, depth, fuel).None? {
        LivePathRunsOut(h, heap, maxDepth, p, depth, fuel);
      }
    } else {
      var fuel := EnoughFuelFrom(h, heap, maxDepth, r, depth);
    }
  }

  // ---------------------------------------------------------------- what it does not depend on

  lemma {:induction false} ChildHash(h: Hasher, heap: Heap, rank: Ref -> nat, maxDepth: int, r: Ref, depth: int,
                                     k: nat, i: nat)
    requires Closed(heap) && Ranks(heap, rank) && r in heap
    requires i < k <= |Children(heap[r])| && !TooDeep(heap[r], maxDepth, depth)
    ensures HashChildren(h, heap, rank, maxDepth, r, depth, k)[i]
        == Hash(h, heap, rank, maxDepth, Children(heap[r])[i], depth + 1)
  {
    if i < k - 1 {
      ChildHash(h, heap, rank, maxDepth, r, depth, k - 1, i);
    }
  }

  // ---------------------------------------------------------------- case by case

  /** The fingerprints of these objects, all reached at one depth. */
  ghost function Prints(h: Hasher, heap: Heap, rank: Ref -> nat, maxDepth: int, refs: seq<Ref>, depth: int)
    : (prints: seq<string>)
    requires Closed(heap) && Ranks(heap, rank)
    ensures |prints| == |refs|
    ensures forall i :: 0 <= i < |refs| && refs[i] in heap ==>
              prints[i] == Hash(h, heap, rank, maxDepth, refs[i], depth)
  {
    seq(|refs|, i requires 0 <= i < |refs| =>
      if refs[i] in heap then Hash(h, heap, rank, maxDepth, refs[i], depth) else "")
  }

  lemma ChildrenPrinted(h: Hasher, heap: Heap, rank: Ref -> nat, maxDepth: int, r: Ref, depth: int)
    requires Closed(heap) && Ranks(heap, rank) && r in heap && !TooDeep(heap[r], maxDepth, depth)
    ensures HashChildren(h, heap, rank, maxDepth, r, depth, |Children(heap[r])|)
         == Prints(h, heap, rank, maxDepth, Children(heap[r]), depth + 1)
  {
    var n := |Children(heap[r])|;
    forall i | 0 <= i < n
      ensures HashChildren(h, heap, rank, maxDepth, r, depth, n)[i]
           == Hash(h, heap, rank, maxDepth, Children(heap[r])[i], depth + 1)
    {
      ChildHash(h, heap, rank, maxDepth, r, depth, n, i);
    }
  }

  /** The default case: an object stands for its `__dict__` one level deeper, and only beyond the maximal depth not. */
  lemma DefaultCaseHash(h: Hasher, heap: Heap, rank: Ref -> nat, maxDepth: int, r: Ref, depth: int)
    requires Closed(heap) && Ranks(heap, rank) && r in heap
    ensures match heap[r]
            case Instance(dict) =>
              && dict in heap
              && Hash(h, heap, rank, maxDepth, r, depth) ==
                 if depth > maxDepth then "<unhashable>" else Hash(h, heap, rank, maxDepth, dict, depth + 1)
            case Builtin(repr) =>
              Hash(h, heap, rank, maxDepth, r, depth) ==
              if depth > maxDepth then "<unhashable>" else h.digest(Tagged(PyStr(repr)))
            case Foreign => Hash(h, heap, rank, maxDepth, r, depth) == "<unhashable>"
            case _ => true
  {
    if heap[r].Instance? {
      assert Children(heap[r])[0] == heap[r].dict;
      if depth <= maxDepth {
        ChildrenPrinted(h, heap, rank, maxDepth, r, depth);
      }
    }
  }

  /** Everything else is hashed at any depth: leaves by type and text, containers from their parts one level deeper. */
  lemma BuiltInHash(h: Hasher, heap: Heap, rank: Ref -> nat, maxDepth: int, r: Ref, depth: int)
    requires Closed(heap) && Ranks(heap, rank) && r in heap
    ensures forall i :: 0 <= i < |Children(heap[r])| ==> Children(heap[r])[i] in heap
    ensures match heap[r]
            case NoneObj => Hash(h, heap, rank, maxDepth, r, depth) == "<none>"
            case Primitive(value) => Hash(h, heap, rank, maxDepth, r, depth) == h.digest(Tagged(value))
            case Sequence(items) =>
              Hash(h, heap, rank, maxDepth, r, depth) ==
              h.digest(Concat(Prints(h, heap, rank, maxDepth, items, depth + 1)))
            case Set(elements) =>
              Hash(h, heap, rank, maxDepth, r, depth) ==
              h.digest(Concat(Sort(StringLeq, Prints(h, heap, rank, maxDepth, elements, depth + 1))))
            case Mapping(entries) =>
              Hash(h, heap, rank, maxDepth, r, depth) ==
              MappingHash(h, Prints(h, heap, rank, maxDepth, Interleave(entries), depth + 1))
            case _ => true
  {
    hide Interleave, Concat, Sort, MappingHash;
    if !IsDefaultCase(heap[r]) {
      ChildrenPrinted(h, heap, rank, maxDepth, r, depth);
    }
  }

  /** The bare word for unhashable comes out exactly for what is given up on, directly or as a `__dict__`. */
  lemma UnhashableExactly(h: Hasher, heap: Heap, rank: Ref -> nat, maxDepth: int, r: Ref, depth: int)
    requires h.Valid() && Closed(heap) && Ranks(heap, rank) && r in heap
    ensures heap[r].Instance? ==> heap[r].dict in heap
    ensures Hash(h, heap, rank, maxDepth, r, depth) == UNHASHABLE <==>
            || heap[r].Foreign?
            || ((heap[r].Instance? || heap[r].Builtin?) && depth > maxDepth)
            || (heap[r].Instance? && Hash(h, heap, rank, maxDepth, heap[r].dict, depth + 1) == UNHASHABLE)
  {
    hide Hash, Interleave, Concat, Sort, JoinPairs, DictOf, Pairs, Tagged;
    DefaultCaseHash(h, heap, rank, maxDepth, r, depth);
    BuiltInHash(h, heap, rank, maxDepth, r, depth);
    forall b: Bytes ensures h.digest(b) != UNHASHABLE {
      assert IsDigest(h.digest(b));
    }
  }

  /** At this depth `hash_value` gives up on o. */
  predicate GivesUp(o: Obj, maxDepth: int, depth: int) {
    o.Foreign? || TooDeep(o, maxDepth, depth)
  }

  /**
   * The object at r is this tree when it is reached at this depth, wherever its parts are shared. A leaf
   * without fingerprint is identified by its place in the heap.
   */
  ghost predicate Represents(heap: Heap, maxDepth: int, r: Ref, depth: int, v: Value)
    decreases v
  {
    && r in heap
    && if GivesUp(heap[r], maxDepth, depth) then v == PyOpaque(r)
       else
         match v
         case PyOpaque(_) => false
         case PyNone => heap[r] == NoneObj
         case PySeq(values) =>
           && heap[r].Sequence? && |heap[r].items| == |values|
           && forall i :: 0 <= i < |values| ==> Represents(heap, maxDepth, heap[r].items[i], depth + 1, values[i])
         case _ => heap[r] == Primitive(v)
  }

  /** The hash of a represented tree is the tree's, the objects beyond the maximal depth included. */
  lemma {:induction false} RepresentedHash(h: Hasher, heap: Heap, rank: Ref -> nat, maxDepth: int, r: Ref, depth: int,
                                           v: Value)
    requires Closed(heap) && Ranks(heap, rank) && Represents(heap, maxDepth, r, depth, v)
    ensures Hash(h, heap, rank, maxDepth, r, depth) == HashValue(h, v)
    decreases v
  {
    if v.PySeq? {
      var hs := HashChildren(h, heap, rank, maxDepth, r, depth, |Children(heap[r])|);
      forall i | 0 <= i < |hs| ensures hs[i] == HashValue(h, v.items[i]) {
        ChildHash(h, heap, rank, maxDepth, r, depth, |Children(heap[r])|, i);
        RepresentedHash(h, heap, rank, maxDepth, heap[r].items[i], depth + 1, v.items[i]);
      }
      HashItemsAt(h, v.items);
      assert hs == HashItems(h, v.items);
    }
  }

  lemma HashItemsAt(h: Hasher, items: seq<Value>)
    ensures |HashItems(h, items)| == |items|
    ensures forall i :: 0 <= i < |items| ==> HashItems(h, items)[i] == HashValue(h, items[i])
  {}

  lemma {:induction false} RepresentedElsewhere(heap: Heap, maxDepth: int, r: Ref, depth: int, v: Value, m: int, d: int)
    requires Represents(heap, maxDepth, r, depth, v) && Transparent(v)
    ensures Represents(heap, m, r, d, v)
    decreases v
  {
    if v.PySeq? {
      forall i | 0 <= i < |v.items| ensures Represents(heap, m, heap[r].items[i], d + 1, v.items[i]) {
        RepresentedElsewhere(heap, maxDepth, heap[r].items[i], depth + 1, v.items[i], m, d + 1);
      }
    }
  }

  /** On trees in which nothing is given up on, neither depth, nor maximal depth, nor sharing matters. */
  lemma DepthIrrelevant(h: Hasher, heap: Heap, rank: Ref -> nat, maxDepth: int, r: Ref, depth: int, v: Value, m: int,
                        d: int)
    requires Closed(heap) && Ranks(heap, rank) && Represents(heap, maxDepth, r, depth, v) && Transparent(v)
    ensures Hash(h, heap, rank, m, r, d) == HashValue(h, v)
  {
    RepresentedElsewhere(heap, maxDepth, r, depth, v, m, d);
    RepresentedHash(h, heap, rank, m, r, d, v);
  }

  lemma MapAround<A, B>(f: A -> B, a: seq<A>, x: A, b: seq<A>)
    ensures MapSeq(f, a + [x] + b) == MapSeq(f, a) + [f(x)] + MapSeq(f, b)
    ensures MapSeq(f, a + b) == MapSeq(f, a) + MapSeq(f, b)
  {}

  lemma MultisetAround<A>(a: seq<A>, x: A, b: seq<A>)
    ensures multiset(a + [x] + b) == multiset(a + b) + multiset{x}
  {}

  lemma MapMultisetAround<A, B>(f: A -> B, a: seq<A>, x: A, b: seq<A>)
    ensures multiset(MapSeq(f, a + [x] + b)) == multiset(MapSeq(f, a + b)) + multiset{f(x)}
  {
    MapAround(f, a, x, b);
    MultisetAround(MapSeq(f, a), f(x), MapSeq(f, b));
  }

  lemma TakeOut<A>(ys: seq<A>, x: A) returns (a: seq<A>, b: seq<A>)
    requires x in ys
    ensures ys == a + [x] + b && multiset(ys) == multiset(a + b) + multiset{x}
  {
    var i :| 0 <= i < |ys| && ys[i] == x;
    a, b := ys[..i], ys[i + 1..];
    assert ys == a + [x] + b;
  }

  lemma Cancel<A>(p: multiset<A>, q: multiset<A>, x: A)
    requires p + multiset{x} == q + multiset{x}
    ensures p == q
  {
    assert p == (p + multiset{x}) - multiset{x} && q == (q + multiset{x}) - multiset{x};
  }

  /** Images of permutations are permutations. */
  lemma {:induction false} MapPermutes<A, B>(f: A -> B, xs: seq<A>, ys: seq<A>)
    requires multiset(xs) == multiset(ys)
    ensures multiset(MapSeq(f, xs)) == multiset(MapSeq(f, ys))
  {
    hide MapSeq;
    if xs == [] {
      assert |multiset(ys)| == 0;
    } else {
      var x, rest := xs[0], xs[1..];
      MultisetAround([], x, rest);
      assert xs == [] + [x] + rest && [] + rest == rest;
      assert x in multiset(ys);
      var a, b := TakeOut(ys, x);
      Cancel(multiset(rest), multiset(a + b), x);
      MapPermutes(f, rest, a + b);
      MapMultisetAround(f, a, x, b);
      MapMultisetAround(f, [], x, rest);
    }
  }

  lemma ChildrenMapped(h: Hasher, heap: Heap, rank: Ref -> nat, maxDepth: int, r: Ref, depth: int, f: Ref -> string)
    requires Closed(heap) && Ranks(heap, rank) && r in heap && !TooDeep(heap[r], maxDepth, depth)
    requires forall c :: c in heap ==> f(c) == Hash(h, heap, rank, maxDepth, c, depth + 1)
    ensures HashChildren(h, heap, rank, maxDepth, r, depth, |Children(heap[r])|) == MapSeq(f, Children(heap[r]))
  {
    var hs := HashChildren(h, heap, rank, maxDepth, r, depth, |Children(heap[r])|);
    forall i | 0 <= i < |hs| ensures hs[i] == f(Children(heap[r])[i]) {
      ChildHash(h, heap, rank, maxDepth, r, depth, |Children(heap[r])|, i);
    }
  }

  /** The same children in another order have the same fingerprints in another order. */
  lemma ChildrenPermute(h: Hasher, heap: Heap, rank: Ref -> nat, maxDepth: int, r: Ref, r': Ref, depth: int)
    requires Closed(heap) && Ranks(heap, rank) && r in heap && r' in heap
    requires !TooDeep(heap[r], maxDepth, depth) && !TooDeep(heap[r'], maxDepth, depth)
    requires multiset(Children(heap[r])) == multiset(Children(heap[r']))
    ensures multiset(HashChildren(h, heap, rank, maxDepth, r, depth, |Children(heap[r])|))
         == multiset(HashChildren(h, heap, rank, maxDepth, r', depth, |Children(heap[r'])|))
  {
    hide Closed, Ranks, Children, Hash, HashChildren, MapSeq;
    var f: Ref -> string := c => if c in heap then Hash(h, heap, rank, maxDepth, c, depth + 1) else "";
    MapPermutes(f, Children(heap[r]), Children(heap[r']));
    ChildrenMapped(h, heap, rank, maxDepth, r, depth, f);
    ChildrenMapped(h, heap, rank, maxDepth, r', depth, f);
  }

  /** Sets with the same elements, in whatever order they iterate, have the same fingerprint. */
  lemma SetOrderIrrelevant(h: Hasher, heap: Heap, rank: Ref -> nat, maxDepth: int, r: Ref, r': Ref, depth: int)
    requires Closed(heap) && Ranks(heap, rank) && r in heap && r' in heap
    requires heap[r].Set? && heap[r'].Set? && multiset(heap[r].elements) == multiset(heap[r'].elements)
    ensures Hash(h, heap, rank, maxDepth, r, depth) == Hash(h, heap, rank, maxDepth, r', depth)
  {
    hide Closed, Ranks, HashChildren, Sort;
    ChildrenPermute(h, heap, rank, maxDepth, r, r', depth);
    StringOrder();
    SortCanonical(StringLeq, HashChildren(h, heap, rank, maxDepth, r, depth, |Children(heap[r])|),
                  HashChildren(h, heap, rank, maxDepth, r', depth, |Children(heap[r'])|));
  }

  lemma {:induction false} PairsMapped(entries: seq<(Ref, Ref)>, f: Ref -> string, g: ((Ref, Ref)) -> (string, string))
    requires forall e: (Ref, Ref) :: g(e) == (f(e.0), f(e.1))
    ensures MapSeq(f, Interleave(entries)) == Interleave(MapSeq(g, entries))
  {
    if entries != [] {
      PairsMapped(entries[1..], f, g);
      var items := Interleave(entries);
      assert items[1..][1..] == Interleave(entries[1..]);
      assert MapSeq(f, items) == [f(items[0]), f(items[1])] + MapSeq(f, items[1..][1..]);
    }
  }

  /** Mappings with the same entries in any insertion order have the same fingerprint, if no two keys share one. */
  lemma MappingOrderIrrelevant(h: Hasher, heap: Heap, rank: Ref -> nat, maxDepth: int, r: Ref, r': Ref, depth: int)
    requires Closed(heap) && Ranks(heap, rank) && r in heap && r' in heap
    requires heap[r].Mapping? && heap[r'].Mapping? && multiset(heap[r].entries) == multiset(heap[r'].entries)
    requires DistinctKeyPrints(h, heap, rank, maxDepth, heap[r].entries, depth)
    requires DistinctKeyPrints(h, heap, rank, maxDepth, heap[r'].entries, depth)
    ensures Hash(h, heap, rank, maxDepth, r, depth) == Hash(h, heap, rank, maxDepth, r', depth)
  {
    var f: Ref -> string := c => if c in heap then Hash(h, heap, rank, maxDepth, c, depth + 1) else "";
    var g: ((Ref, Ref)) -> (string, string) := (e: (Ref, Ref)) => (f(e.0), f(e.1));
    var a, b := heap[r].entries, heap[r'].entries;
    MapPermutes(g, a, b);
    MappingHashOf(h, heap, rank, maxDepth, r, depth, f, g);
    MappingHashOf(h, heap, rank, maxDepth, r', depth, f, g);
    PairOrder();
    SortCanonical(PairLeq, MapSeq(g, a), MapSeq(g, b));
  }

  lemma MappingHashOf(h: Hasher, heap: Heap, rank: Ref -> nat, maxDepth: int, r: Ref, depth: int,
                      f: Ref -> string, g: ((Ref, Ref)) -> (string, string))
    requires Closed(heap) && Ranks(heap, rank) && r in heap && heap[r].Mapping?
    requires DistinctKeyPrints(h, heap, rank, maxDepth, heap[r].entries, depth)
    requires forall c :: c in heap ==> f(c) == Hash(h, heap, rank, maxDepth, c, depth + 1)
    requires forall e: (Ref, Ref) :: g(e) == (f(e.0), f(e.1))
    ensures Hash(h, heap, rank, maxDepth, r, depth) == h.digest(JoinPairs(Sort(PairLeq, MapSeq(g, heap[r].entries))))
  {
    hide Ranks, Sort, JoinPairs, HashChildren, DictOf, Pairs, Interleave, MapSeq;
    ChildrenMapped(h, heap, rank, maxDepth, r, depth, f);
    PairsMapped(heap[r].entries, f, g);
    EntriesInHeap(heap, r);
    PairsInterleave(MapSeq(g, heap[r].entries));
    DictOfDistinct(MapSeq(g, heap[r].entries));
  }

  ghost predicate DistinctKeyPrints(h: Hasher, heap: Heap, rank: Ref -> nat, maxDepth: int, entries: seq<(Ref, Ref)>,
                                    depth: int)
    requires Closed(heap) && Ranks(heap, rank)
  {
    forall i, j :: 0 <= i < j < |entries| && entries[i].0 in heap && entries[j].0 in heap ==>
      Hash(h, heap, rank, maxDepth, entries[i].0, depth + 1) != Hash(h, heap, rank, maxDepth, entries[j].0, depth + 1)
  }

  lemma EntriesInHeap(heap: Heap, r: Ref)
    requires Closed(heap) && r in heap && heap[r].Mapping?
    ensures forall i :: 0 <= i < |heap[r].entries| ==> heap[r].entries[i].0 in heap && heap[r].entries[i].1 in heap
  {
    forall i | 0 <= i < |heap[r].entries| ensures heap[r].entries[i].0 in heap && heap[r].entries[i].1 in heap {
      InterleaveAt(heap[r].entries, i);
      assert Children(heap[r])[2 * i] in heap && Children(heap[r])[2 * i + 1] in heap;
    }
  }

  lemma {:induction false} InterleaveAt(entries: seq<(Ref, Ref)>, i: nat)
    requires i < |entries|
    ensures Interleave(entries)[2 * i] == entries[i].0 && Interleave(entries)[2 * i + 1] == entries[i].1
  {
    if i > 0 {
      InterleaveAt(entries[1..], i - 1);
    }
  }

}
