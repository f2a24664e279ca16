/**
 * Exactly which objects `hash_value` tells apart: every object of a heap has, at the depth it is reached,
 * a normal form among trees, and two fingerprints are equal exactly when the normal forms are.
 */
module FingerprintNormal {
  import opened Prelude
  import opened Sorting
  import opened Fingerprints
  import opened FingerprintHeap

  // ---------------------------------------------------------------- normal forms

  function Printer(h: Hasher): Value -> string {
    v => HashValue(h, v)
  }

  function PairPrinter(h: Hasher): ((Value, Value)) -> (string, string) {
    (p: (Value, Value)) => (HashValue(h, p.0), HashValue(h, p.1))
  }

  /** Values in the order of their fingerprints. */
  function PrintLeq(h: Hasher): (Value, Value) -> bool {
    (a, b) => StringLeq(HashValue(h, a), HashValue(h, b))
  }

  function PrintPairLeq(h: Hasher): ((Value, Value), (Value, Value)) -> bool {
    (a: (Value, Value), b: (Value, Value)) => PairLeq(PairPrinter(h)(a), PairPrinter(h)(b))
  }

  /**
   * The normal form of o from those of its children: a set is the sequence of its elements by fingerprint,
   * a mapping the sequence of its keys and last values by fingerprint, an instance its dict, an object
   * hashed by its repr that text, and an object without fingerprint any other such.
   */
  function Shape(h: Hasher, o: Obj, parts: seq<Value>): Value {
    match o
    case NoneObj => PyNone
    case Primitive(value) => value
    case Sequence(_) => PySeq(parts)
    case Set(_) => PySeq(Sort(PrintLeq(h), parts))
    case Mapping(_) => PySeq(Interleave(Sort(PrintPairLeq(h), DictOf(Pairs(parts)))))
    case Instance(_) => if parts == [] then PyOpaque(0) else parts[0]
    case Builtin(repr) => PyStr(repr)
    case Foreign => PyOpaque(0)
  }

  function Normal(h: Hasher, heap: Heap, ghost rank: Ref -> nat, maxDepth: int, r: Ref, depth: int): Value
    requires Closed(heap) && Ranks(heap, rank) && r in heap
    decreases Remaining(maxDepth, depth), Weight(heap, rank, r), 1, 0
  {
    if TooDeep(heap[r], maxDepth, depth) then PyOpaque(0)
    else Shape(h, heap[r], NormalChildren(h, heap, rank, maxDepth, r, depth, |Children(heap[r])|))
  }

  function NormalChildren(h: Hasher, heap: Heap, ghost rank: Ref -> nat, maxDepth: int, r: Ref, depth: int, k: nat)
    : (parts: seq<Value>)
    requires Closed(heap) && Ranks(heap, rank) && r in heap
    requires k <= |Children(heap[r])| && !TooDeep(heap[r], maxDepth, depth)
    ensures |parts| == k
    decreases Remaining(maxDepth, depth), Weight(heap, rank, r), 0, k
  {
    if k == 0 then []
    else
      NormalChildren(h, heap, rank, maxDepth, r, depth, k - 1)
      + [Normal(h, heap, rank, maxDepth, Children(heap[r])[k - 1], depth + 1)]
  }

  // ---------------------------------------------------------------- mapping over sorted and built lists

  lemma {:induction false} InsertMapped<A, B>(leq: (B, B) -> bool, pulled: (A, A) -> bool, f: A -> B, x: A, xs: seq<A>)
    requires forall a, b :: pulled(a, b) == leq(f(a), f(b))
    ensures MapSeq(f, Insert(pulled, x, xs)) == Insert(leq, f(x), MapSeq(f, xs))
  {
    if xs != [] && !pulled(x, xs[0]) {
      InsertMapped(leq, pulled, f, x, xs[1..]);
    }
  }

  lemma {:induction false} SortMapped<A, B>(leq: (B, B) -> bool, pulled: (A, A) -> bool, f: A -> B, xs: seq<A>)
    requires forall a, b :: pulled(a, b) == leq(f(a), f(b))
    ensures MapSeq(f, Sort(pulled, xs)) == Sort(leq, MapSeq(f, xs))
  {
    if xs != [] {
      SortMapped(leq, pulled, f, xs[1..]);
      InsertMapped(leq, pulled, f, xs[0], Sort(pulled, xs[1..]));
    }
  }

  /** No two different values among these have one fingerprint. */
  ghost predicate KeysTellApart(h: Hasher, pairs: seq<(Value, Value)>) {
    forall i, j :: 0 <= i < |pairs| && 0 <= j < |pairs| && HashValue(h, pairs[i].0) == HashValue(h, pairs[j].0) ==>
      pairs[i].0 == pairs[j].0
  }

  lemma {:induction false} PutMapped(h: Hasher, d: Dict<Value, Value>, k: Value, v: Value)
    requires forall i :: 0 <= i < |d| && HashValue(h, d[i].0) == HashValue(h, k) ==> d[i].0 == k
    ensures MapSeq(PairPrinter(h), Put(d, k, v)) == Put(MapSeq(PairPrinter(h), d), HashValue(h, k), HashValue(h, v))
  {
    hide HashValue;
    if d != [] && d[0].0 != k {
      PutMapped(h, d[1..], k, v);
    }
  }

  lemma {:induction false} DictOfMapped(h: Hasher, pairs: seq<(Value, Value)>)
    requires KeysTellApart(h, pairs)
    ensures MapSeq(PairPrinter(h), DictOf(pairs)) == DictOf(MapSeq(PairPrinter(h), pairs))
  {
    hide HashValue;
    if pairs != [] {
      var n := |pairs| - 1;
      var d := DictOf(pairs[..n]);
      DictOfMapped(h, pairs[..n]);
      forall i | 0 <= i < |d| && HashValue(h, d[i].0) == HashValue(h, pairs[n].0) ensures d[i].0 == pairs[n].0 {
        DictOfEntries(pairs[..n], i);
        var j :| 0 <= j < n && pairs[..n][j] == d[i];
        assert pairs[j] == d[i];
      }
      PutMapped(h, d, pairs[n].0, pairs[n].1);
      assert MapSeq(PairPrinter(h), pairs)[..n] == MapSeq(PairPrinter(h), pairs[..n]);
    }
  }

  lemma {:induction false} PairsMappedTo(h: Hasher, parts: seq<Value>)
    ensures MapSeq(PairPrinter(h), Pairs(parts)) == Pairs(MapSeq(Printer(h), parts))
  {
    hide HashValue;
    if |parts| >= 2 {
      var n := |parts| - 2;
      PairsMappedTo(h, parts[..n]);
      hide MapSeq;
      assert MapSeq(Printer(h), parts)[..n] == MapSeq(Printer(h), parts[..n]);
      var last := (parts[n], parts[n + 1]);
      assert MapSeq(PairPrinter(h), Pairs(parts[..n]) + [last])
          == MapSeq(PairPrinter(h), Pairs(parts[..n])) + [PairPrinter(h)(last)];
    }
  }

  lemma MapTwo<A, B>(f: A -> B, x: A, y: A, rest: seq<A>)
    ensures MapSeq(f, [x, y] + rest) == [f(x), f(y)] + MapSeq(f, rest)
  {
    var all := [x, y] + rest;
    forall i | 0 <= i < |all| ensures MapSeq(f, all)[i] == ([f(x), f(y)] + MapSeq(f, rest))[i] {}
  }

  lemma {:induction false} InterleaveMapped(h: Hasher, pairs: seq<(Value, Value)>)
    ensures MapSeq(Printer(h), Interleave(pairs)) == Interleave(MapSeq(PairPrinter(h), pairs))
  {
    hide HashValue;
    if pairs != [] {
      InterleaveMapped(h, pairs[1..]);
      var printed := MapSeq(PairPrinter(h), pairs);
      assert printed[1..] == MapSeq(PairPrinter(h), pairs[1..]);
      hide MapSeq;
      MapTwo(Printer(h), pairs[0].0, pairs[0].1, Interleave(pairs[1..]));
    }
  }

  lemma HashItemsMapped(h: Hasher, items: seq<Value>)
    ensures HashItems(h, items) == MapSeq(Printer(h), items)
  {
    HashItemsAt(h, items);
  }

  // ---------------------------------------------------------------- the fingerprint is the normal form's

  predicate AllErased(parts: seq<Value>) {
    forall i :: 0 <= i < |parts| ==> Erase(parts[i]) == parts[i]
  }

  predicate PairsErased(pairs: seq<(Value, Value)>) {
    forall i :: 0 <= i < |pairs| ==> Erase(pairs[i].0) == pairs[i].0 && Erase(pairs[i].1) == pairs[i].1
  }

  lemma {:induction false} ErasedPairs(parts: seq<Value>)
    requires AllErased(parts)
    ensures PairsErased(Pairs(parts))
  {
    hide Erase;
    if |parts| >= 2 {
      ErasedPairs(parts[..|parts| - 2]);
    }
  }

  lemma {:induction false} ErasedInterleaved(pairs: seq<(Value, Value)>)
    requires PairsErased(pairs)
    ensures AllErased(Interleave(pairs))
  {
    hide Erase;
    if pairs != [] {
      ErasedInterleaved(pairs[1..]);
    }
  }

  lemma {:induction false} SortedMember<T>(leq: (T, T) -> bool, xs: seq<T>, i: nat) returns (j: nat)
    requires i < |Sort(leq, xs)|
    ensures j < |xs| && xs[j] == Sort(leq, xs)[i]
  {
    SortMultiset(leq, xs);
    assert Sort(leq, xs)[i] in multiset(xs);
    j :| 0 <= j < |xs| && xs[j] == Sort(leq, xs)[i];
  }

  lemma SetShape(h: Hasher, parts: seq<Value>)
    requires AllErased(parts)
    ensures HashItems(h, Sort(PrintLeq(h), parts)) == Sort(StringLeq, HashItems(h, parts))
    ensures AllErased(Sort(PrintLeq(h), parts))
  {
    hide HashValue, HashItems, Erase;
    HashItemsMapped(h, parts);
    HashItemsMapped(h, Sort(PrintLeq(h), parts));
    SortMapped(StringLeq, PrintLeq(h), Printer(h), parts);
    forall i | 0 <= i < |Sort(PrintLeq(h), parts)|
      ensures Erase(Sort(PrintLeq(h), parts)[i]) == Sort(PrintLeq(h), parts)[i]
    {
      var j := SortedMember(PrintLeq(h), parts, i);
    }
  }

  lemma ErasedTellApart(h: Hasher, pairs: seq<(Value, Value)>)
    requires h.Valid() && PairsErased(pairs)
    ensures KeysTellApart(h, pairs)
  {
    hide HashValue, Erase;
    forall i, j | 0 <= i < |pairs| && 0 <= j < |pairs| && HashValue(h, pairs[i].0) == HashValue(h, pairs[j].0)
      ensures pairs[i].0 == pairs[j].0
    {
      FingerprintExact(h, pairs[i].0, pairs[j].0);
    }
  }

  function MappingParts(h: Hasher, parts: seq<Value>): seq<Value> {
    Interleave(Sort(PrintPairLeq(h), DictOf(Pairs(parts))))
  }

  lemma MappingErased(h: Hasher, parts: seq<Value>)
    requires AllErased(parts)
    ensures AllErased(MappingParts(h, parts))
  {
    hide HashValue, Erase, Sort, DictOf, Pairs, Interleave;
    ErasedPairs(parts);
    var d := DictOf(Pairs(parts));
    var sorted := Sort(PrintPairLeq(h), d);
    forall i | 0 <= i < |sorted| ensures Erase(sorted[i].0) == sorted[i].0 && Erase(sorted[i].1) == sorted[i].1 {
      var j := SortedMember(PrintPairLeq(h), d, i);
      DictOfEntries(Pairs(parts), j);
    }
    ErasedInterleaved(sorted);
  }

  lemma MappingShape(h: Hasher, parts: seq<Value>)
    requires h.Valid() && AllErased(parts)
    ensures h.digest(Concat(HashItems(h, MappingParts(h, parts)))) == MappingHash(h, HashItems(h, parts))
  {
    hide HashValue, HashItems, Erase, Sort, DictOf, Pairs, Interleave, JoinPairs, Concat;
    var pairs := Pairs(parts);
    ErasedPairs(parts);
    ErasedTellApart(h, pairs);
    HashItemsMapped(h, parts);
    PairsMappedTo(h, parts);
    DictOfMapped(h, pairs);
    SortMapped(PairLeq, PrintPairLeq(h), PairPrinter(h), DictOf(pairs));
    InterleaveMapped(h, Sort(PrintPairLeq(h), DictOf(pairs)));
    HashItemsMapped(h, MappingParts(h, parts));
    JoinPairsConcat(Sort(PairLeq, DictOf(Pairs(HashItems(h, parts)))));
  }

  lemma ShapeHash(h: Hasher, o: Obj, parts: seq<Value>)
    requires h.Valid() && AllErased(parts)
    ensures HashValue(h, Shape(h, o, parts)) == Combine(h, o, HashItems(h, parts))
    ensures Erase(Shape(h, o, parts)) == Shape(h, o, parts)
  {
    match o {
      case Sequence(_) => assert EraseItems(parts) == parts;
      case Set(_) =>
        SetShape(h, parts);
        assert EraseItems(Sort(PrintLeq(h), parts)) == Sort(PrintLeq(h), parts);
      case Mapping(_) =>
        hide Interleave, Sort, DictOf, Pairs, HashItems, Concat;
        MappingShape(h, parts);
        MappingErased(h, parts);
        assert EraseItems(MappingParts(h, parts)) == MappingParts(h, parts);
      case Instance(_) =>
      case _ =>
    }
  }

  lemma {:induction false} HashIsNormal(h: Hasher, heap: Heap, rank: Ref -> nat, maxDepth: int, r: Ref, depth: int)
    requires h.Valid() && Closed(heap) && Ranks(heap, rank) && r in heap
    ensures Hash(h, heap, rank, maxDepth, r, depth) == HashValue(h, Normal(h, heap, rank, maxDepth, r, depth))
    ensures Erase(Normal(h, heap, rank, maxDepth, r, depth)) == Normal(h, heap, rank, maxDepth, r, depth)
    decreases Remaining(maxDepth, depth), Weight(heap, rank, r), 1, 0
  {
    if !TooDeep(heap[r], maxDepth, depth) {
      var k := |Children(heap[r])|;
      ChildrenAreNormal(h, heap, rank, maxDepth, r, depth, k);
      hide Combine, Shape, HashItems, HashValue, Erase;
      ShapeHash(h, heap[r], NormalChildren(h, heap, rank, maxDepth, r, depth, k));
    }
  }

  lemma {:induction false} ChildrenAreNormal(h: Hasher, heap: Heap, rank: Ref -> nat, maxDepth: int, r: Ref, depth: int,
                                             k: nat)
    requires h.Valid() && Closed(heap) && Ranks(heap, rank) && r in heap
    requires k <= |Children(heap[r])| && !TooDeep(heap[r], maxDepth, depth)
    ensures HashChildren(h, heap, rank, maxDepth, r, depth, k)
         == HashItems(h, NormalChildren(h, heap, rank, maxDepth, r, depth, k))
    ensures AllErased(NormalChildren(h, heap, rank, maxDepth, r, depth, k))
    decreases Remaining(maxDepth, depth), Weight(heap, rank, r), 0, k
  {
    if k > 0 {
      ChildrenAreNormal(h, heap, rank, maxDepth, r, depth, k - 1);
      HashIsNormal(h, heap, rank, maxDepth, Children(heap[r])[k - 1], depth + 1);
      hide HashValue, Erase, Normal, Hash;
      var before := NormalChildren(h, heap, rank, maxDepth, r, depth, k - 1);
      HashItemsAt(h, before);
      HashItemsAt(h, NormalChildren(h, heap, rank, maxDepth, r, depth, k));
    }
  }

  // ---------------------------------------------------------------- exactly which objects collide

  /** An object of some heap where a call of `hash_value` reaches it. */
  datatype Place = Place(heap: Heap, rank: Ref -> nat, maxDepth: int, ref: Ref, depth: int) {
    ghost predicate Valid() {
      Closed(heap) && Ranks(heap, rank) && ref in heap
    }

    ghost function Obj(): Obj
      requires Valid()
    {
      heap[ref]
    }

    ghost predicate Reads()
      requires Valid()
    {
      !TooDeep(Obj(), maxDepth, depth)
    }

    ghost function Print(h: Hasher): string
      requires Valid()
    {
      Hash(h, heap, rank, maxDepth, ref, depth)
    }

    ghost function NormalForm(h: Hasher): Value
      requires Valid()
    {
      Normal(h, heap, rank, maxDepth, ref, depth)
    }

    /** The fingerprints of the children, in order. */
    ghost function Parts(h: Hasher): seq<string>
      requires Valid() && Reads()
    {
      HashChildren(h, heap, rank, maxDepth, ref, depth, |Children(Obj())|)
    }
  }

  /**
   * Any two objects, of whatever heaps and reached at whatever depths, have the same fingerprint exactly
   * when they have the same normal form.
   */
  lemma HashExact(h: Hasher, a: Place, b: Place)
    requires h.Valid() && a.Valid() && b.Valid()
    ensures a.Print(h) == b.Print(h) <==> a.NormalForm(h) == b.NormalForm(h)
  {
    hide Hasher.Valid, Closed, Ranks, Hash, Normal, HashValue, Erase;
    HashIsNormal(h, a.heap, a.rank, a.maxDepth, a.ref, a.depth);
    HashIsNormal(h, b.heap, b.rank, b.maxDepth, b.ref, b.depth);
    FingerprintExact(h, a.NormalForm(h), b.NormalForm(h));
  }

  lemma PartsAreParts(h: Hasher, a: Place)
    requires h.Valid() && a.Valid() && a.Reads()
    ensures AllParts(a.Parts(h))
  {
    var k := |Children(a.Obj())|;
    ChildrenAreNormal(h, a.heap, a.rank, a.maxDepth, a.ref, a.depth, k);
    HashItemsParts(h, NormalChildren(h, a.heap, a.rank, a.maxDepth, a.ref, a.depth, k));
  }

  /** The entries of a mapping, each key and value by its fingerprint. */
  ghost function EntryPrints(h: Hasher, a: Place): (prints: seq<(string, string)>)
    requires a.Valid() && a.Obj().Mapping?
    ensures |prints| == |a.Obj().entries|
  {
    Pairs(a.Parts(h))
  }

  /** Where the hash of a reaches this child of a. */
  function Child(a: Place, c: Ref): Place {
    a.(ref := c, depth := a.depth + 1)
  }

  ghost predicate AreEntryPrints(h: Hasher, a: Place, prints: seq<(string, string)>)
    requires a.Valid() && a.Obj().Mapping?
  {
    var entries := a.Obj().entries;
    && |prints| == |entries|
    && forall i :: 0 <= i < |prints| ==>
         && Child(a, entries[i].0).Valid() && Child(a, entries[i].1).Valid()
         && prints[i] == (Child(a, entries[i].0).Print(h), Child(a, entries[i].1).Print(h))
  }

  lemma EntryPrintsAt(h: Hasher, a: Place, i: nat)
    requires a.Valid() && a.Obj().Mapping? && i < |a.Obj().entries|
    ensures var (key, value) := a.Obj().entries[i];
            && Child(a, key).Valid() && Child(a, value).Valid()
            && EntryPrints(h, a)[i] == (Child(a, key).Print(h), Child(a, value).Print(h))
  {
    var entries := a.Obj().entries;
    EntriesInHeap(a.heap, a.ref);
    InterleaveAt(entries, i);
    ChildHash(h, a.heap, a.rank, a.maxDepth, a.ref, a.depth, |Children(a.Obj())|, 2 * i);
    ChildHash(h, a.heap, a.rank, a.maxDepth, a.ref, a.depth, |Children(a.Obj())|, 2 * i + 1);
    PairsAt(a.Parts(h), i);
  }

  lemma EntriesPrinted(h: Hasher, a: Place)
    requires a.Valid() && a.Obj().Mapping?
    ensures AreEntryPrints(h, a, EntryPrints(h, a))
  {
    var entries := a.Obj().entries;
    forall i | 0 <= i < |entries|
      ensures Child(a, entries[i].0).Valid() && Child(a, entries[i].1).Valid()
      ensures EntryPrints(h, a)[i] == (Child(a, entries[i].0).Print(h), Child(a, entries[i].1).Print(h))
    {
      EntryPrintsAt(h, a, i);
    }
    hide Place.Print, Place.Valid;
  }

  lemma {:induction false} PairsAt<T>(items: seq<T>, i: nat)
    requires |items| % 2 == 0 && 2 * i + 1 < |items|
    ensures Pairs(items)[i] == (items[2 * i], items[2 * i + 1])
  {
    if 2 * i + 2 < |items| {
      PairsAt(items[..|items| - 2], i);
    }
  }

  /**
   * Two mappings have the same fingerprint exactly when they give each key fingerprint the same last value
   * fingerprint. This is all that is left of the order of entries.
   */
  lemma MappingsExact(h: Hasher, a: Place, b: Place)
    requires h.Valid() && a.Valid() && b.Valid() && a.Obj().Mapping? && b.Obj().Mapping?
    ensures AreEntryPrints(h, a, EntryPrints(h, a)) && AreEntryPrints(h, b, EntryPrints(h, b))
    ensures a.Print(h) == b.Print(h) <==> MapOf(EntryPrints(h, a)) == MapOf(EntryPrints(h, b))
  {
    hide MapOf, Pairs, AreEntryPrints;
    EntriesPrinted(h, a);
    EntriesPrinted(h, b);
    PartsAreParts(h, a);
    PartsAreParts(h, b);
    MappingHashExact(h, a.Parts(h), b.Parts(h));
  }

  /** Two represented trees have the same fingerprint exactly when they differ in no more than what was given up on. */
  lemma HeapExact(h: Hasher, a: Place, b: Place, v: Value, u: Value)
    requires h.Valid() && a.Valid() && b.Valid()
    requires Represents(a.heap, a.maxDepth, a.ref, a.depth, v) && Represents(b.heap, b.maxDepth, b.ref, b.depth, u)
    ensures a.Print(h) == b.Print(h) <==> Erase(v) == Erase(u)
    ensures Transparent(v) ==> (a.Print(h) == b.Print(h) <==> v == u)
  {
    hide Hasher.Valid, Closed, Ranks, Hash, HashValue, Erase, Transparent, Represents;
    RepresentedHash(h, a.heap, a.rank, a.maxDepth, a.ref, a.depth, v);
    RepresentedHash(h, b.heap, b.rank, b.maxDepth, b.ref, b.depth, u);
    FingerprintExact(h, v, u);
    if Transparent(v) && HashValue(h, u) == HashValue(h, v) {
      FingerprintInjective(h, u, v);
    }
  }

  /** All items are given up on at the depth they are reached. */
  ghost predicate ItemsGivenUp(a: Place)
    requires a.Valid() && a.Obj().Sequence?
  {
    forall i :: 0 <= i < |a.Obj().items| ==> GivesUp(a.heap[Children(a.Obj())[i]], a.maxDepth, a.depth + 1)
  }

  /**
   * A sequence of objects without fingerprint, or of default-case objects beyond the maximal depth, has a
   * fingerprint all the same, and it only tells how many there are: different sequences collide and neither
   * is recognised as unhashable.
   */
  lemma NestedUnhashablesCollide(h: Hasher, a: Place, b: Place)
    requires h.Valid() && a.Valid() && b.Valid() && a.Obj().Sequence? && b.Obj().Sequence?
    requires |a.Obj().items| == |b.Obj().items| && ItemsGivenUp(a) && ItemsGivenUp(b)
    ensures a.Print(h) == b.Print(h) != UNHASHABLE
  {
    var n := |a.Obj().items|;
    forall i | 0 <= i < n ensures a.Parts(h)[i] == b.Parts(h)[i] {
      ChildHash(h, a.heap, a.rank, a.maxDepth, a.ref, a.depth, n, i);
      ChildHash(h, b.heap, b.rank, b.maxDepth, b.ref, b.depth, n, i);
    }
    assert a.Parts(h) == b.Parts(h);
    assert !IsBase64(UNHASHABLE[0]);
  }

  /**
   * The kind of container does not count: a sequence has the fingerprint of a set with the same elements
   * exactly when it lists them in the order of their fingerprints.
   */
  lemma SequenceLikeSet(h: Hasher, a: Place, b: Place)
    requires h.Valid() && a.Valid() && b.Valid() && a.Obj().Sequence? && b.Obj().Set?
    requires a.heap == b.heap && a.rank == b.rank && a.maxDepth == b.maxDepth && a.depth == b.depth
    requires multiset(a.Obj().items) == multiset(b.Obj().elements)
    ensures a.Print(h) == b.Print(h) <==> Sorted(StringLeq, a.Parts(h))
  {
    SamePartsInSomeOrder(h, a, b);
    PartsAreParts(h, a);
    PartsAreParts(h, b);
    SortedAlready(h, a.Parts(h), b.Parts(h));
  }

  lemma SamePartsInSomeOrder(h: Hasher, a: Place, b: Place)
    requires a.Valid() && b.Valid() && a.Obj().Sequence? && b.Obj().Set?
    requires a.heap == b.heap && a.rank == b.rank && a.maxDepth == b.maxDepth && a.depth == b.depth
    requires multiset(a.Obj().items) == multiset(b.Obj().elements)
    ensures multiset(a.Parts(h)) == multiset(b.Parts(h))
  {
    ChildrenPermute(h, a.heap, a.rank, a.maxDepth, a.ref, b.ref, a.depth);
  }

  lemma {:induction false} SortedAlready(h: Hasher, a: seq<string>, b: seq<string>)
    requires h.Valid() && AllParts(a) && AllParts(b) && multiset(a) == multiset(b)
    ensures h.digest(Concat(a)) == h.digest(Concat(Sort(StringLeq, b))) <==> Sorted(StringLeq, a)
  {
    hide IsPart, Concat, Sort;
    StringOrder();
    SortCorrect(StringLeq, b);
    SortedParts(b);
    if Sorted(StringLeq, a) {
      SortedUnique(StringLeq, a, Sort(StringLeq, b));
    }
    if Concat(a) == Concat(Sort(StringLeq, b)) {
      ConcatInjective(a, Sort(StringLeq, b));
    }
  }

  lemma SortedParts(parts: seq<string>)
    requires AllParts(parts)
    ensures AllParts(Sort(StringLeq, parts))
  {
    hide IsPart;
    forall i | 0 <= i < |Sort(StringLeq, parts)| ensures IsPart(Sort(StringLeq, parts)[i]) {
      var j := SortedMember(StringLeq, parts, i);
    }
  }

  /** An object hashed by its repr has the fingerprint of that text. */
  lemma BuiltinLikeText(h: Hasher, a: Place, b: Place)
    requires h.Valid() && a.Valid() && b.Valid() && a.Obj().Builtin? && a.Reads()
    requires b.Obj().Primitive?
    ensures a.Print(h) == b.Print(h) <==> b.Obj().value == PyStr(a.Obj().repr)
  {
    HashExact(h, a, b);
  }
}
