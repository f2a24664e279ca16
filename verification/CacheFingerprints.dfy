/** The cache on the fingerprints the library computes: exactly when its assumption on versions is met. */
module CacheFingerprints {
  import opened Prelude
  import opened CacheKeys
  import opened Dataflow
  import F = Fingerprints
  import opened CacheProtocol
  import opened CacheSoundness
  import opened CacheHistory

  type Value = F.Value

  /** A world whose versions are these fingerprints, of the trees its values are. */
  ghost predicate UsesFingerprints<V(!new)>(h: F.Hasher, w: World<V>, tree: V -> Value) {
    && h.Valid() && w.platform.Valid()
    && (forall v :: w.hash(v) == F.HashValue(h, tree(v)))
    && (forall i, j :: w.uuid(i) == w.uuid(j) ==> i == j)
    && (forall i :: CommaFree(w.uuid(i)))
  }

  /** No two of the values differ only in objects without fingerprint they hold. */
  ghost predicate ToldApart<V(!new)>(tree: V -> Value) {
    forall a, b :: F.Erase(tree(a)) == F.Erase(tree(b)) && !tree(a).PyOpaque? ==> a == b
  }

  lemma PartIsClean(s: string)
    requires F.IsPart(s) && s != UNHASHABLE
    ensures CommaFree(s) && !Reserved(s)
  {
    F.PartFirst(s);
    assert UNHASHABLE_PREFIX[0] == '<' && UNHASHABLE_PREFIX[1] == 'u';
    assert DISABLE_PREFIX[0] == '<' && DISABLE_PREFIX[1] == 'd';
    assert F.NONE_HASH[1] == 'n' && IGNORED[0] == '<' && IGNORED[1] == 'i';
  }

  lemma SamePrint<V(!new)>(h: F.Hasher, w: World<V>, tree: V -> Value, a: V, b: V)
    requires UsesFingerprints(h, w, tree)
    ensures w.hash(a) == w.hash(b) <==> F.Erase(tree(a)) == F.Erase(tree(b))
    ensures w.hash(a) == UNHASHABLE <==> tree(a).PyOpaque?
    ensures w.hash(a) != UNHASHABLE ==> CommaFree(w.hash(a)) && !Reserved(w.hash(a))
  {
    hide F.Hasher.Valid, F.HashValue, F.Erase, F.IsPart;
    F.FingerprintExact(h, tree(a), tree(b));
    F.HashIsPart(h, tree(a));
    if w.hash(a) != UNHASHABLE {
      PartIsClean(w.hash(a));
    }
  }

  /** Fingerprints meet what the cache assumes of versions exactly when they tell the values in play apart. */
  lemma FingerprintsFitTheCache<V(!new)>(h: F.Hasher, w: World<V>, tree: V -> Value)
    requires UsesFingerprints(h, w, tree)
    ensures WorldValid(w) <==> ToldApart(tree)
  {
    forall a, b
      ensures w.hash(a) == w.hash(b) <==> F.Erase(tree(a)) == F.Erase(tree(b))
      ensures w.hash(a) == UNHASHABLE <==> tree(a).PyOpaque?
      ensures w.hash(a) != UNHASHABLE ==> CommaFree(w.hash(a)) && !Reserved(w.hash(a))
    {
      SamePrint(h, w, tree, a, b);
    }
  }

  /** Then no further assumption is needed for the cache to be right. */
  lemma {:induction false} FingerprintedCacheAgrees<V(!new)>(h: F.Hasher, w: World<V>, tree: V -> Value,
                                                             history: seq<Event<V>>, run: RunId, n: Name)
    requires UsesFingerprints(h, w, tree) && ToldApart(tree) && Legal(w, history)
    requires run in After(w, history).execs && n in After(w, history).execs[run].values
    requires DefaultsDeterministic(w, After(w, history).execs[run])
    requires NoIgnoreAbove(After(w, history).execs[run], n)
    ensures EvaluatesTo(After(w, history).execs[run], n, After(w, history).execs[run].values[n])
  {
    hide WorldValid, UsesFingerprints, ToldApart;
    FingerprintsFitTheCache(h, w, tree);
    CacheAgreesWithEvaluation(w, history, run, n);
  }

  // ---------------------------------------------------------------- which values these are

  /** An object without fingerprint itself, or nothing such inside. */
  predicate Cacheable(v: Value) {
    v.PyOpaque? || F.Transparent(v)
  }

  type CacheValue = v: Value | Cacheable(v) witness F.PyNone

  /** A value can be versioned safely, whatever else is around, exactly when it is one of these. */
  lemma CacheableExactly(h: F.Hasher, v: Value)
    requires h.Valid()
    ensures Cacheable(v)
       <==> F.HashValue(h, v) == UNHASHABLE || forall u :: F.HashValue(h, u) == F.HashValue(h, v) ==> u == v
  {
    F.HashIsPart(h, v);
    F.FingerprintDetermines(h, v);
  }

  function AsTree(v: CacheValue): Value {
    v
  }

  lemma CacheablesToldApart()
    ensures ToldApart(AsTree)
  {
    hide F.Erase, F.Transparent;
    forall a: CacheValue, b: CacheValue | F.Erase(AsTree(a)) == F.Erase(AsTree(b)) && !AsTree(a).PyOpaque?
      ensures a == b
    {
      F.EraseOnce(a);
      F.EraseOnce(b);
      OpaqueErased(b);
      F.TransparentIsErased(a);
      F.TransparentIsErased(b);
    }
  }

  lemma OpaqueErased(v: Value)
    ensures v.PyOpaque? ==> !F.Transparent(v)
  {}

  /** Over all values the assumption fails. */
  lemma NotAllToldApart(tree: Value -> Value)
    requires forall v :: tree(v) == v
    ensures !ToldApart(tree)
  {
    var a, b := F.PySeq([F.PyOpaque(0)]), F.PySeq([F.PyOpaque(1)]);
    assert F.EraseItems([F.PyOpaque(0)]) == [F.PyOpaque(0)] == F.EraseItems([F.PyOpaque(1)]);
    assert F.Erase(tree(a)) == F.Erase(tree(b)) && tree(a) != tree(b);
  }
}
