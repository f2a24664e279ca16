/**
 * hamilton/caching/adapter.py as a state machine: what each hook makes of the adapter's
 * in-memory records and of the two stores that outlive a run.
 */
module CacheProtocol {
  import opened Prelude
  import opened CacheKeys
  import opened Dataflow

  type Version = string
  type RunId = string

  datatype Behavior = Default | Recompute | Disable | Ignore

  const UNHASHABLE_PREFIX := "<unhashable>_"
  const DISABLE_PREFIX := "<disable>_"
  const IGNORED := "<ignore>"

  /**
   * What the adapter is handed from outside: fingerprints, uuids in the order they are drawn, what
   * code may return (by stripped node name and code version), and whether the metadata store's
   * `set` replaces an entry (in memory) or keeps the first one (SQLite).
   */
  datatype World<!V> = World(
    platform: Platform,
    hash: V -> Version,
    uuid: nat -> string,
    can: (string, string, map<Name, V>, V) -> bool,
    overwrites: bool)

  /** Fingerprints are collision-free where they exist, uuids never repeat, and neither looks like the other. */
  ghost predicate WorldValid<V(!new)>(w: World<V>) {
    && w.platform.Valid()
    && (forall a, b :: w.hash(a) == w.hash(b) && w.hash(a) != UNHASHABLE ==> a == b)
    && (forall a :: w.hash(a) != UNHASHABLE ==> CommaFree(w.hash(a)) && !Reserved(w.hash(a)))
    && (forall i, j :: w.uuid(i) == w.uuid(j) ==> i == j)
    && (forall i :: CommaFree(w.uuid(i)))
  }

  /** The shapes of version the adapter makes up itself. */
  predicate Reserved(v: Version) {
    UNHASHABLE_PREFIX <= v || DISABLE_PREFIX <= v || v == IGNORED
  }

  // ---------------------------------------------------------------- state

  datatype Stores<+V> = Stores(metadata: map<Option<string>, Version>, results: map<Version, V>)

  datatype RunRecord = RunRecord(
    behaviors: map<Name, Behavior>,
    codeVersions: map<Name, string>,
    dataVersions: map<Name, Version>,
    cacheKeys: map<Name, string>)

  datatype Adapter<+V> = Adapter(stores: Stores<V>, runs: map<RunId, RunRecord>, uuids: nat)

  // ---------------------------------------------------------------- versioning

  /** `_version_data`: the fingerprint, or a token never used before. */
  function VersionData<V>(w: World<V>, v: V, uuids: nat): (Version, nat) {
    if w.hash(v) == UNHASHABLE then (UNHASHABLE_PREFIX + w.uuid(uuids), uuids + 1)
    else (w.hash(v), uuids)
  }

  /** The loops over inputs and overrides in `pre_graph_execute`. */
  function VersionAll<V>(w: World<V>, versions: map<Name, Version>, values: Dict<Name, V>, uuids: nat)
    : (map<Name, Version>, nat)
    decreases |values|
  {
    if values == [] then (versions, uuids)
    else
      var (version, k) := VersionData(w, values[0].1, uuids);
      VersionAll(w, versions[values[0].0 := version], values[1..], k)
  }

  function InputCodeVersions<V>(codes: map<Name, string>, inputs: Dict<Name, V>): map<Name, string>
    decreases |inputs|
  {
    if inputs == [] then codes
    else InputCodeVersions(codes[inputs[0].0 := "input__" + inputs[0].0], inputs[1..])
  }

  /** The version of one argument, as it goes into the cache key. */
  function ArgumentVersion<V>(w: World<V>, r: RunRecord, name: Name, value: V, uuids: nat): (Version, nat)
    requires name in r.behaviors
  {
    if r.behaviors[name] == Ignore then (IGNORED, uuids)
    else if r.behaviors[name] == Disable then (DISABLE_PREFIX + w.uuid(uuids), uuids + 1)
    else if name in r.dataVersions then (r.dataVersions[name], uuids)
    else VersionData(w, value, uuids)
  }

  /** The loop over `node_kwargs` in `pre_node_execute`. */
  function ArgumentVersions<V>(w: World<V>, r: RunRecord, args: Dict<Name, V>, uuids: nat)
    : (Dict<Name, Version>, nat)
    requires forall i :: 0 <= i < |args| ==> args[i].0 in r.behaviors
  {
    if args == [] then ([], uuids)
    else
      var (version, k) := ArgumentVersion(w, r, args[0].0, args[0].1, uuids);
      var (rest, k') := ArgumentVersions(w, r, args[1..], k);
      ([(args[0].0, version)] + rest, k')
  }

  // ---------------------------------------------------------------- hooks

  function PreGraphExecute<V>(w: World<V>, a: Adapter<V>, run: RunId, behaviors: map<Name, Behavior>,
                              codes: map<Name, string>, inputs: Dict<Name, V>, overrides: Dict<Name, V>): Adapter<V>
  {
    var (fromInputs, k) := VersionAll(w, map[], inputs, a.uuids);
    var (versions, k') := VersionAll(w, fromInputs, overrides, k);
    a.(runs := a.runs[run := RunRecord(behaviors, InputCodeVersions(codes, inputs), versions, map[])], uuids := k')
  }

  function PreNodeExecute<V>(w: World<V>, a: Adapter<V>, run: RunId, name: Name, args: Dict<Name, V>): Adapter<V>
    requires run in a.runs && name in a.runs[run].behaviors && name in a.runs[run].codeVersions
    requires forall i :: 0 <= i < |args| ==> args[i].0 in a.runs[run].behaviors
  {
    var r := a.runs[run];
    if r.behaviors[name] == Ignore || r.behaviors[name] == Disable then a
    else
      var (deps, k) := ArgumentVersions(w, r, args, a.uuids);
      var key := CreateCacheKey(w.platform, name, r.codeVersions[name], deps);
      a.(runs := a.runs[run := r.(cacheKeys := r.cacheKeys[name := key])], uuids := k)
  }

  function GetCacheKey(r: RunRecord, name: Name): Option<string> {
    if name in r.cacheKeys then Some(r.cacheKeys[name]) else None
  }

  /** `get_data_version`: memory first, then the metadata store if there is a key. */
  function GetDataVersion<V>(a: Adapter<V>, r: RunRecord, name: Name, key: Option<string>): Option<Version> {
    if name in r.dataVersions then Some(r.dataVersions[name])
    else if key.Some? && key in a.stores.metadata then Some(a.stores.metadata[key])
    else None
  }

  /** What the metadata store's `set` leaves behind. */
  function MetadataSet<V>(w: World<V>, metadata: map<Option<string>, Version>, key: Option<string>, v: Version)
    : map<Option<string>, Version>
  {
    if !w.overwrites && key in metadata then metadata else metadata[key := v]
  }

  function SetMemoryVersion<V>(a: Adapter<V>, run: RunId, name: Name, v: Version): Adapter<V>
    requires run in a.runs
  {
    a.(runs := a.runs[run := a.runs[run].(dataVersions := a.runs[run].dataVersions[name := v])])
  }

  /** Version a freshly computed result and record it in memory and in the metadata store. */
  function RecordResult<V>(w: World<V>, a: Adapter<V>, run: RunId, name: Name, key: Option<string>,
                           value: V): Adapter<V>
    requires run in a.runs
  {
    var (version, k) := VersionData(w, value, a.uuids);
    var a' := SetMemoryVersion(a, run, name, version);
    a'.(stores := a'.stores.(metadata := MetadataSet(w, a'.stores.metadata, key, version)), uuids := k)
  }

  /** The adapter after `do_node_execute`, what the hook did, and whether it called the function. */
  datatype DoResult<+V> = DoResult(adapter: Adapter<V>, outcome: Outcome<V>, executed: bool)

  /** The result store can hand out this version. */
  predicate Retrievable<V>(a: Adapter<V>, version: Option<Version>) {
    version.Some? && version.value in a.stores.results
  }

  /** Call the function and record what it returned. */
  function Compute<V>(w: World<V>, a: Adapter<V>, run: RunId, name: Name, key: Option<string>,
                      call: Outcome<V>): DoResult<V>
    requires run in a.runs
  {
    match call
    case Raised(_) => DoResult(a, call, true)
    case Returned(v) => DoResult(RecordResult(w, a, run, name, key, v), call, true)
  }

  /** The entries the ResultRetrievalError branch deletes. */
  function Forget<V>(a: Adapter<V>, key: Option<string>, version: Version): Adapter<V> {
    a.(stores := Stores(a.stores.metadata - {key}, a.stores.results - {version}))
  }

  /**
   * `do_node_execute`. `call` is what the function would do if called now, `retrievalFails` whether
   * the result store raises ResultRetrievalError.
   */
  function DoNodeExecute<V>(w: World<V>, a: Adapter<V>, run: RunId, name: Name, call: Outcome<V>, retrievalFails: bool)
    : DoResult<V>
    requires run in a.runs && name in a.runs[run].behaviors
  {
    var r := a.runs[run];
    var key := GetCacheKey(r, name);
    match r.behaviors[name]
    case Disable => DoResult(a, call, true)
    case Recompute => Compute(w, a, run, name, key, call)
    case Ignore => Compute(w, a, run, name, key, call)
    case Default =>
      var version := GetDataVersion(a, r, name, key);
      if !Retrievable(a, version) then Compute(w, a, run, name, key, call)
      else if retrievalFails then Compute(w, Forget(a, key, version.value), run, name, key, call)
      else
        DoResult(SetMemoryVersion(a, run, name, version.value), Returned(a.stores.results[version.value]), false)
  }

  /** `post_node_execute`; with `success` there must be a data version, as its assertion says. */
  function PostNodeExecute<V>(a: Adapter<V>, run: RunId, name: Name, result: V, success: bool): Adapter<V>
    requires run in a.runs && name in a.runs[run].behaviors
    requires success && a.runs[run].behaviors[name] != Disable ==>
               GetDataVersion(a, a.runs[run], name, GetCacheKey(a.runs[run], name)).Some?
  {
    var r := a.runs[run];
    if !success || r.behaviors[name] == Disable then a
    else
      var version := GetDataVersion(a, r, name, GetCacheKey(r, name)).value;
      if version in a.stores.results then a
      else a.(stores := a.stores.(results := a.stores.results[version := result]))
  }

  // ---------------------------------------------------------------- what a version stands for

  /** Tokens handed out so far and the values they were made up for. */
  type Tokens<V> = map<Version, V>

  ghost predicate Denotes<V(!new)>(w: World<V>, tokens: Tokens<V>, version: Version, v: V) {
    || (version != UNHASHABLE && w.hash(v) == version)
    || (version in tokens && tokens[version] == v)
  }

  ghost predicate TokenDrawn<V(!new)>(w: World<V>, t: Version, uuids: nat) {
    exists k: nat :: k < uuids && (t == UNHASHABLE_PREFIX + w.uuid(k) || t == DISABLE_PREFIX + w.uuid(k))
  }

  /** Every token was made from a uuid already drawn, and unhashable tokens stand for unhashable values. */
  ghost predicate TokensDrawn<V(!new)>(w: World<V>, tokens: Tokens<V>, uuids: nat) {
    && (forall t :: t in tokens ==> TokenDrawn(w, t, uuids))
    && (forall t :: t in tokens && UNHASHABLE_PREFIX <= t ==> w.hash(tokens[t]) == UNHASHABLE)
  }

  ghost predicate Extends<V(!new)>(tokens: Tokens<V>, tokens': Tokens<V>) {
    forall t :: t in tokens ==> t in tokens' && tokens'[t] == tokens[t]
  }

  lemma DrawnIsReserved<V(!new)>(w: World<V>, t: Version, uuids: nat)
    requires WorldValid(w) && TokenDrawn(w, t, uuids)
    ensures t != IGNORED && t != UNHASHABLE && Reserved(t) && CommaFree(t)
  {
    var k: nat :| k < uuids && (t == UNHASHABLE_PREFIX + w.uuid(k) || t == DISABLE_PREFIX + w.uuid(k));
    assert UNHASHABLE_PREFIX[1] == 'u' && DISABLE_PREFIX[1] == 'd' && IGNORED[1] == 'i';
    assert t[1] == 'u' || t[1] == 'd';
    assert |UNHASHABLE_PREFIX| == |UNHASHABLE| + 1;
    assert t[1] == 'd' || |t| > |UNHASHABLE|;
    assert UNHASHABLE[1] == 'u';
    assert CommaFree(UNHASHABLE_PREFIX) && CommaFree(DISABLE_PREFIX);
  }

  /** "Every stored version still denotes one value". */
  lemma DenotesUnique<V(!new)>(w: World<V>, tokens: Tokens<V>, uuids: nat, version: Version, v: V, v': V)
    requires WorldValid(w) && TokensDrawn(w, tokens, uuids)
    requires Denotes(w, tokens, version, v) && Denotes(w, tokens, version, v')
    ensures v == v'
  {
    if version in tokens {
      DrawnIsReserved(w, version, uuids);
    }
  }

  lemma TokenOfUuid<V(!new)>(w: World<V>, a: nat, b: nat)
    requires WorldValid(w)
    ensures UNHASHABLE_PREFIX + w.uuid(a) != DISABLE_PREFIX + w.uuid(b)
    ensures UNHASHABLE_PREFIX + w.uuid(a) == UNHASHABLE_PREFIX + w.uuid(b) ==> a == b
    ensures DISABLE_PREFIX + w.uuid(a) == DISABLE_PREFIX + w.uuid(b) ==> a == b
  {
    assert (UNHASHABLE_PREFIX + w.uuid(a))[1] == 'u' && (DISABLE_PREFIX + w.uuid(b))[1] == 'd';
    SuffixEqual(UNHASHABLE_PREFIX, w.uuid(a), w.uuid(b));
    SuffixEqual(DISABLE_PREFIX, w.uuid(a), w.uuid(b));
  }

  lemma SuffixEqual(p: string, s: string, t: string)
    ensures p + s == p + t ==> s == t
  {
    assert (p + s)[|p|..] == s && (p + t)[|p|..] == t;
  }

  /** Making up a token for v, from the next uuid. */
  lemma DrawToken<V(!new)>(w: World<V>, tokens: Tokens<V>, uuids: nat, t: Version, v: V)
    requires WorldValid(w) && TokensDrawn(w, tokens, uuids)
    requires || t == DISABLE_PREFIX + w.uuid(uuids)
             || (t == UNHASHABLE_PREFIX + w.uuid(uuids) && w.hash(v) == UNHASHABLE)
    ensures t !in tokens
    ensures TokensDrawn(w, tokens[t := v], uuids + 1) && Extends(tokens, tokens[t := v])
    ensures Denotes(w, tokens[t := v], t, v) && CommaFree(t) && t != IGNORED
  {
    if t in tokens {
      var k: nat :| k < uuids && (t == UNHASHABLE_PREFIX + w.uuid(k) || t == DISABLE_PREFIX + w.uuid(k));
      TokenOfUuid(w, k, uuids);
      TokenOfUuid(w, uuids, k);
      assert false;
    }
    forall s | s in tokens ensures TokenDrawn(w, s, uuids + 1) {
      if s != t {
        var k: nat :| k < uuids && (s == UNHASHABLE_PREFIX + w.uuid(k) || s == DISABLE_PREFIX + w.uuid(k));
      }
    }
    DrawnIsReserved(w, t, uuids + 1);
    if t == DISABLE_PREFIX + w.uuid(uuids) {
      assert t[1] == 'd' && UNHASHABLE_PREFIX[1] == 'u';
    }
  }

  /** The tokens after `_version_data`. */
  ghost function Versioned<V(!new)>(w: World<V>, tokens: Tokens<V>, v: V, uuids: nat): Tokens<V> {
    if w.hash(v) == UNHASHABLE then tokens[UNHASHABLE_PREFIX + w.uuid(uuids) := v] else tokens
  }

  lemma {:induction false} VersionDataDenotes<V(!new)>(w: World<V>, tokens: Tokens<V>, v: V, uuids: nat)
    requires WorldValid(w) && TokensDrawn(w, tokens, uuids)
    ensures var (version, k) := VersionData(w, v, uuids);
            var tokens' := Versioned(w, tokens, v, uuids);
            && k >= uuids && TokensDrawn(w, tokens', k) && Extends(tokens, tokens')
            && Denotes(w, tokens', version, v) && CommaFree(version)
            && version != IGNORED && version != UNHASHABLE
  {
    if w.hash(v) == UNHASHABLE {
      DrawToken(w, tokens, uuids, UNHASHABLE_PREFIX + w.uuid(uuids), v);
      assert |UNHASHABLE_PREFIX + w.uuid(uuids)| > |UNHASHABLE|;
    }
  }
}
