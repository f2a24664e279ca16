/** `HamiltonCacheAdapter`: the hooks as methods on fields, each tied to the state machine. */
module CacheAdapter {
  import opened Prelude
  import opened CacheKeys
  import opened Dataflow
  import opened Traversal
  import opened Slicing
  import opened CacheProtocol
  import opened CacheSoundness

  /** Requests outside the graph add nothing to what is upstream. */
  lemma SliceOfKnown<V>(g: Dag<V>, q: Query, finals: seq<Name>, nodes: set<Name>)
    requires g.Valid()
    requires forall n :: n in nodes <==>
        n in g.nodes && ReachableFromAny(Upstream(g, q), KnownStarts(g.nodes.Keys, finals), n)
    ensures nodes == Slice(g, q, finals)
  {
    var known, next := KnownStarts(g.nodes.Keys, finals), Upstream(g, q);
    forall n | n in g.nodes
      ensures ReachableFromAny(next, known, n) <==> ReachableFromAny(next, finals, n)
    {
      if ReachableFromAny(next, known, n) {
        var k :| 0 <= k < |known| && Reachable(next, known[k], n);
        KnownMembers(g.nodes.Keys, finals, k);
      }
      if ReachableFromAny(next, finals, n) {
        var i :| 0 <= i < |finals| && Reachable(next, finals[i], n);
        if finals[i] in g.nodes {
          KnownHas(g.nodes.Keys, finals, i);
          var k :| 0 <= k < |known| && known[k] == finals[i];
        } else {
          DeadEnd(next, finals[i], n);
        }
      }
    }
  }

  lemma DeadEnd(next: Next, a: Name, n: Name)
    requires next(a) == [] && Reachable(next, a, n)
    ensures n == a
  {
    var p :| Connects(next, p, a, n);
    ClosedContainsPath(next, {a}, p);
  }

  lemma {:induction false} KnownHas(graph: set<Name>, finals: seq<Name>, i: nat)
    requires i < |finals| && finals[i] in graph
    ensures finals[i] in KnownStarts(graph, finals)
  {
    var n := |finals| - 1;
    if i < n {
      KnownHas(graph, finals[..n], i);
    }
  }

  /** The four per-run dicts, read run by run. */
  ghost function Records(b: map<RunId, map<Name, Behavior>>, c: map<RunId, map<Name, string>>,
                         d: map<RunId, map<Name, Version>>, k: map<RunId, map<Name, string>>): map<RunId, RunRecord>
    requires b.Keys <= c.Keys && b.Keys <= d.Keys && b.Keys <= k.Keys
  {
    map run | run in b :: RunRecord(b[run], c[run], d[run], k[run])
  }

  lemma RecordsUpdate(b: map<RunId, map<Name, Behavior>>, c: map<RunId, map<Name, string>>,
                      d: map<RunId, map<Name, Version>>, k: map<RunId, map<Name, string>>, run: RunId, r: RunRecord)
    requires b.Keys <= c.Keys && b.Keys <= d.Keys && b.Keys <= k.Keys
    ensures var (b', c', d', k') := (b[run := r.behaviors], c[run := r.codeVersions], d[run := r.dataVersions],
        k[run := r.cacheKeys]);
            && b'.Keys <= c'.Keys && b'.Keys <= d'.Keys && b'.Keys <= k'.Keys
            && Records(b', c', d', k') == Records(b, c, d, k)[run := r]
  {}

  lemma AppendNext<T>(done: seq<T>, x: T, rest: seq<T>)
    ensures done + ([x] + rest) == done + [x] + rest
  {}

  class HamiltonCacheAdapter<V> {
    const w: World<V>

    var metadataStore: map<Option<string>, Version>
    var resultStore: map<Version, V>
    var runIds: seq<RunId>
    var behaviors: map<RunId, map<Name, Behavior>>
    var codeVersions: map<RunId, map<Name, string>>
    var dataVersions: map<RunId, map<Name, Version>>
    var cacheKeys: map<RunId, map<Name, string>>
    var uuidsDrawn: nat

    ghost predicate Valid()
      reads this
    {
      behaviors.Keys <= codeVersions.Keys && behaviors.Keys <= dataVersions.Keys && behaviors.Keys <= cacheKeys.Keys
    }

    ghost function Record(run: RunId): RunRecord
      reads this
      requires Valid() && run in behaviors
    {
      RunRecord(behaviors[run], codeVersions[run], dataVersions[run], cacheKeys[run])
    }

    /** The adapter as the state machine sees it. */
    ghost function State(): Adapter<V>
      reads this
      requires Valid()
    {
      Adapter(Stores(metadataStore, resultStore), Records(behaviors, codeVersions, dataVersions, cacheKeys), uuidsDrawn)
    }

    /** Writing back what a dict already holds changes nothing. */
    lemma SameRecord(run: RunId)
      requires Valid() && run in behaviors
      ensures behaviors[run := behaviors[run]] == behaviors && codeVersions[run := codeVersions[run]] == codeVersions
      ensures dataVersions[run := dataVersions[run]] == dataVersions && cacheKeys[run := cacheKeys[run]] == cacheKeys
    {}

    constructor (w: World<V>)
      ensures Valid() && this.w == w && State() == Adapter(Stores(map[], map[]), map[], 0)
    {
      this.w := w;
      metadataStore, resultStore, runIds, uuidsDrawn := map[], map[], [], 0;
      behaviors, codeVersions, dataVersions, cacheKeys := map[], map[], map[], map[];
    }

    /** `_version_data`. */
    method VersionData(value: V) returns (version: Version)
      modifies this`uuidsDrawn
      ensures (version, uuidsDrawn) == CacheProtocol.VersionData(w, value, old(uuidsDrawn))
    {
      version := w.hash(value);
      if version == UNHASHABLE {
        version := UNHASHABLE_PREFIX + w.uuid(uuidsDrawn);
        uuidsDrawn := uuidsDrawn + 1;
      }
    }

    /** `resolve_code_versions`; false stands for the ValueError or KeyError on an unknown final variable. */
    method ResolveCodeVersions(g: Dag<V>, config: map<Name, V>, finals: seq<Name>, inputs: Dict<Name, V>,
                               overrides: Dict<Name, V>)
      returns (ok: bool, codes: map<Name, string>)
      requires g.Valid()
      ensures ok <==> finals == [] || !BadRequest(g.nodes.Keys, config.Keys, MapOf(inputs).Keys, finals)
      ensures ok ==> codes == CodesOf(g, finals, SliceOf(g, config, inputs, overrides, finals))
      ensures ok ==> forall n :: n in codes <==>
                        n in g.nodes &&
                        (finals != [] ==>
                           var q := Query(Some(MapOf(inputs).Keys), config.Keys, MapOf(overrides).Keys);
                           n in Slice(g, q, finals) && !g.nodes[n].external)
      ensures ok ==> forall n :: n in codes ==> codes[n] == g.nodes[n].code
    {
      hide Slice, ReachableFromAny;
      if finals == [] {
        return true, map n | n in g.nodes :: g.nodes[n].code;
      }
      var q := Query(Some(MapOf(inputs).Keys), config.Keys, MapOf(overrides).Keys);
      var graph := g.nodes.Keys;
      var external := set n | n in g.nodes && g.nodes[n].external;
      var next := Upstream(g, q);
      UpstreamStays(g, q);
      var found := DirectionalDfsTraverse(graph, external, config.Keys, next, finals, MapOf(inputs).Keys);
      if !found.Found? {
        return false, map[];
      }
      SliceOfKnown(g, q, finals, found.nodes);
      codes := map n | n in found.nodes && n in g.nodes && !g.nodes[n].external :: g.nodes[n].code;
      ok := true;
    }

    /** `pre_graph_execute`; it raises, the run never set up, when a final variable is unknown. */
    method PreGraphExecute(run: RunId, g: Dag<V>, config: map<Name, V>, runBehaviors: map<Name, Behavior>,
                           finals: seq<Name>, inputs: Dict<Name, V>, overrides: Dict<Name, V>) returns (ok: bool)
      requires Valid() && g.Valid() && run !in behaviors
      modifies this
      ensures Valid() && runIds == old(runIds) + [run]
      ensures ok <==> finals == [] || !BadRequest(g.nodes.Keys, config.Keys, MapOf(inputs).Keys, finals)
      ensures ok ==> State() == CacheProtocol.PreGraphExecute(w, old(State()), run, runBehaviors,
                                  CodesOf(g, finals, SliceOf(g, config, inputs, overrides, finals)), inputs, overrides)
      ensures !ok ==> State() == old(State())
    {
      hide SliceOf, CodesOf, BadRequest, CacheProtocol.PreGraphExecute, Dag<V>.NodeValid;
      runIds := runIds + [run];
      dataVersions := dataVersions[run := map[]];
      cacheKeys := cacheKeys[run := map[]];
      assert State().runs == old(State().runs);
      var codes: map<Name, string>;
      ok, codes := ResolveCodeVersions(g, config, finals, inputs, overrides);
      if ok {
        assert State() == old(State());
        SetUpRun(run, runBehaviors, codes, inputs, overrides);
      }
    }

    /** The rest of `pre_graph_execute`, once code versions are resolved. */
    method SetUpRun(run: RunId, runBehaviors: map<Name, Behavior>, codes: map<Name, string>,
                    inputs: Dict<Name, V>, overrides: Dict<Name, V>)
      requires Valid() && run !in behaviors && run in dataVersions && run in cacheKeys
      requires dataVersions[run] == map[] && cacheKeys[run] == map[]
      modifies this`behaviors, this`codeVersions, this`dataVersions, this`uuidsDrawn
      ensures Valid()
      ensures State() == CacheProtocol.PreGraphExecute(w, old(State()), run, runBehaviors, codes, inputs, overrides)
    {
      hide VersionAll, InputCodeVersions, Records;
      ProcessAll(run, runBehaviors, codes, inputs, overrides);
      ghost var (fromInputs, k) := VersionAll(w, map[], inputs, old(uuidsDrawn));
      ghost var versions := VersionAll(w, fromInputs, overrides, k).0;
      ghost var r := RunRecord(runBehaviors, InputCodeVersions(codes, inputs), versions, map[]);
      assert cacheKeys == old(cacheKeys)[run := r.cacheKeys];
      RecordsUpdate(old(behaviors), old(codeVersions), old(dataVersions), old(cacheKeys), run, r);
    }

    method ProcessAll(run: RunId, runBehaviors: map<Name, Behavior>, codes: map<Name, string>,
                      inputs: Dict<Name, V>, overrides: Dict<Name, V>)
      requires run in dataVersions && dataVersions[run] == map[]
      modifies this`behaviors, this`codeVersions, this`dataVersions, this`uuidsDrawn
      ensures behaviors == old(behaviors)[run := runBehaviors]
      ensures codeVersions == old(codeVersions)[run := InputCodeVersions(codes, inputs)]
      ensures var (fromInputs, k) := VersionAll(w, map[], inputs, old(uuidsDrawn));
              var (versions, k') := VersionAll(w, fromInputs, overrides, k);
              dataVersions == old(dataVersions)[run := versions] && uuidsDrawn == k'
    {
      hide VersionAll, InputCodeVersions;
      codeVersions := codeVersions[run := codes];
      behaviors := behaviors[run := runBehaviors];
      ProcessInputs(run, inputs);
      ProcessOverrides(run, overrides);
    }

    /** The loop over runtime inputs in `pre_graph_execute`. */
    method ProcessInputs(run: RunId, inputs: Dict<Name, V>)
      requires run in codeVersions && run in dataVersions
      modifies this`codeVersions, this`dataVersions, this`uuidsDrawn
      ensures var (versions, k) := VersionAll(w, old(dataVersions)[run], inputs, old(uuidsDrawn));
              uuidsDrawn == k && dataVersions == old(dataVersions)[run := versions]
      ensures codeVersions == old(codeVersions)[run := InputCodeVersions(old(codeVersions)[run], inputs)]
    {
      var i := 0;
      while i < |inputs|
        invariant 0 <= i <= |inputs| && run in codeVersions && run in dataVersions
        invariant VersionAll(w, dataVersions[run], inputs[i..], uuidsDrawn)
               == VersionAll(w, old(dataVersions)[run], inputs, old(uuidsDrawn))
        invariant InputCodeVersions(codeVersions[run], inputs[i..]) == InputCodeVersions(old(codeVersions)[run], inputs)
        invariant codeVersions == old(codeVersions)[run := codeVersions[run]]
        invariant dataVersions == old(dataVersions)[run := dataVersions[run]]
      {
        ProcessInput(run, inputs[i].0, inputs[i].1);
        assert inputs[i..][1..] == inputs[i + 1..];
        i := i + 1;
      }
    }

    /** The loop over overrides in `pre_graph_execute`. */
    method ProcessOverrides(run: RunId, overrides: Dict<Name, V>)
      requires run in dataVersions
      modifies this`dataVersions, this`uuidsDrawn
      ensures var (versions, k) := VersionAll(w, old(dataVersions)[run], overrides, old(uuidsDrawn));
              uuidsDrawn == k && dataVersions == old(dataVersions)[run := versions]
    {
      var i := 0;
      while i < |overrides|
        invariant 0 <= i <= |overrides| && run in dataVersions
        invariant VersionAll(w, dataVersions[run], overrides[i..], uuidsDrawn)
               == VersionAll(w, old(dataVersions)[run], overrides, old(uuidsDrawn))
        invariant dataVersions == old(dataVersions)[run := dataVersions[run]]
      {
        ProcessOverride(run, overrides[i].0, overrides[i].1);
        assert overrides[i..][1..] == overrides[i + 1..];
        i := i + 1;
      }
    }

    /** `_process_input`. */
    method ProcessInput(run: RunId, name: Name, value: V)
      requires run in codeVersions && run in dataVersions
      modifies this`codeVersions, this`dataVersions, this`uuidsDrawn
      ensures var (version, k) := CacheProtocol.VersionData(w, value, old(uuidsDrawn));
              && uuidsDrawn == k
              && dataVersions == old(dataVersions)[run := old(dataVersions)[run][name := version]]
      ensures codeVersions == old(codeVersions)[run := old(codeVersions)[run][name := "input__" + name]]
    {
      var version := VersionData(value);
      codeVersions := codeVersions[run := codeVersions[run][name := "input__" + name]];
      dataVersions := dataVersions[run := dataVersions[run][name := version]];
    }

    /** `_process_override`. */
    method ProcessOverride(run: RunId, name: Name, value: V)
      requires run in dataVersions
      modifies this`dataVersions, this`uuidsDrawn
      ensures var (version, k) := CacheProtocol.VersionData(w, value, old(uuidsDrawn));
              && uuidsDrawn == k
              && dataVersions == old(dataVersions)[run := old(dataVersions)[run][name := version]]
    {
      var version := VersionData(value);
      dataVersions := dataVersions[run := dataVersions[run][name := version]];
    }

    /** `pre_node_execute`, on keyword arguments with their defaults resolved. */
    method PreNodeExecute(run: RunId, name: Name, args: Dict<Name, V>)
      requires Valid() && run in behaviors && name in behaviors[run] && name in codeVersions[run]
      requires forall i :: 0 <= i < |args| ==> args[i].0 in behaviors[run]
      modifies this`cacheKeys, this`uuidsDrawn
      ensures Valid() && State() == CacheProtocol.PreNodeExecute(w, old(State()), run, name, args)
    {
      if behaviors[run][name] == Ignore || behaviors[run][name] == Disable {
        return;
      }
      var deps := DependencyVersions(run, args);
      var key := CreateCacheKey(w.platform, name, codeVersions[run][name], deps);
      cacheKeys := cacheKeys[run := cacheKeys[run][name := key]];
      ghost var r := old(Record(run)).(cacheKeys := cacheKeys[run]);
      SameRecord(run);
      RecordsUpdate(old(behaviors), old(codeVersions), old(dataVersions), old(cacheKeys), run, r);
    }

    /** The loop over `node_kwargs` in `pre_node_execute`. */
    method DependencyVersions(run: RunId, args: Dict<Name, V>) returns (deps: Dict<Name, Version>)
      requires Valid() && run in behaviors
      requires forall i :: 0 <= i < |args| ==> args[i].0 in behaviors[run]
      modifies this`uuidsDrawn
      ensures (deps, uuidsDrawn) == ArgumentVersions(w, Record(run), args, old(uuidsDrawn))
    {
      deps := [];
      ghost var r := Record(run);
      ghost var all := ArgumentVersions(w, r, args, uuidsDrawn).0;
      var i := 0;
      assert args[i..] == args && deps + all == all;
      while i < |args|
        invariant 0 <= i <= |args|
        invariant forall j :: 0 <= j < |args[i..]| ==> args[i..][j].0 in behaviors[run]
        invariant var (rest, k) := ArgumentVersions(w, r, args[i..], uuidsDrawn);
                  (deps + rest, k) == ArgumentVersions(w, r, args, old(uuidsDrawn))
      {
        var (dep, value) := args[i];
        assert args[i..][0] == args[i] && args[i..][1..] == args[i + 1..];
        ghost var before, done := uuidsDrawn, deps;
        var version: Version;
        if behaviors[run][dep] == Ignore {
          version := IGNORED;
        } else if behaviors[run][dep] == Disable {
          version := DISABLE_PREFIX + w.uuid(uuidsDrawn);
          uuidsDrawn := uuidsDrawn + 1;
        } else if dep in dataVersions[run] {
          version := dataVersions[run][dep];
        } else {
          version := VersionData(value);
        }
        assert (version, uuidsDrawn) == ArgumentVersion(w, r, dep, value, before);
        deps := deps + [(dep, version)];
        ghost var rest := ArgumentVersions(w, r, args[i + 1..], uuidsDrawn).0;
        AppendNext(done, (dep, version), rest);
        i := i + 1;
      }
      assert args[i..] == [] && deps + [] == deps;
    }

    /** `get_cache_key`. */
    method GetCacheKey(run: RunId, name: Name) returns (key: Option<string>)
      requires Valid() && run in behaviors
      ensures key == CacheProtocol.GetCacheKey(Record(run), name)
    {
      key := if name in cacheKeys[run] then Some(cacheKeys[run][name]) else None;
    }

    /** `get_data_version`. */
    method GetDataVersion(run: RunId, name: Name, key: Option<string>) returns (version: Option<Version>)
      requires Valid() && run in behaviors
      ensures version == CacheProtocol.GetDataVersion(State(), Record(run), name, key)
    {
      if name in dataVersions[run] {
        return Some(dataVersions[run][name]);
      }
      if key.Some? && key in metadataStore {
        return Some(metadataStore[key]);
      }
      return None;
    }

    /** `_set_memory_metadata`. */
    method SetMemoryMetadata(run: RunId, name: Name, version: Version)
      requires Valid() && run in behaviors
      modifies this`dataVersions
      ensures Valid() && State() == SetMemoryVersion(old(State()), run, name, version)
    {
      dataVersions := dataVersions[run := dataVersions[run][name := version]];
      ghost var r := old(Record(run)).(dataVersions := dataVersions[run]);
      SameRecord(run);
      RecordsUpdate(old(behaviors), old(codeVersions), old(dataVersions), old(cacheKeys), run, r);
    }

    /** Versioning and recording a fresh result, in memory and in the metadata store. */
    method RecordFresh(run: RunId, name: Name, key: Option<string>, value: V)
      requires Valid() && run in behaviors
      modifies this`dataVersions, this`metadataStore, this`uuidsDrawn
      ensures Valid() && State() == RecordResult(w, old(State()), run, name, key, value)
    {
      var version := VersionData(value);
      assert State() == old(State()).(uuids := uuidsDrawn);
      SetMemoryMetadata(run, name, version);
      assert State() == SetMemoryVersion(old(State()), run, name, version).(uuids := uuidsDrawn);
      if w.overwrites || key !in metadataStore {
        metadataStore := metadataStore[key := version];
      }
      assert State().runs == SetMemoryVersion(old(State()), run, name, version).runs;
    }

    /**
     * `do_node_execute`. `call` is what the node's function would do if called now; `retrievalFails`
     * says whether the result store raises ResultRetrievalError.
     */
    method DoNodeExecute(run: RunId, name: Name, call: Outcome<V>, retrievalFails: bool)
      returns (outcome: Outcome<V>, executed: bool)
      requires Valid() && run in behaviors && name in behaviors[run]
      modifies this
      ensures Valid()
      ensures DoResult(State(), outcome, executed)
          == CacheProtocol.DoNodeExecute(w, old(State()), run, name, call, retrievalFails)
      ensures unchanged(`runIds)
    {
      hide CacheProtocol.Compute, RecordResult, Forget, SetMemoryVersion;
      var key := GetCacheKey(run, name);
      if behaviors[run][name] == Disable {
        return call, true;
      }
      if behaviors[run][name] != Default {
        executed := Compute(run, name, key, call);
        return call, executed;
      }
      var version := GetDataVersion(run, name, key);
      if version.Some? && version.value in resultStore {
        if !retrievalFails {
          SetMemoryMetadata(run, name, version.value);
          return Returned(resultStore[version.value]), false;
        }
        DeleteEntries(key, version.value);
      }
      executed := Compute(run, name, key, call);
      return call, executed;
    }

    /** Executing the node, versioning and recording its result unless it raised. */
    method Compute(run: RunId, name: Name, key: Option<string>, call: Outcome<V>) returns (executed: bool)
      requires Valid() && run in behaviors
      modifies this`dataVersions, this`metadataStore, this`uuidsDrawn
      ensures Valid()
      ensures DoResult(State(), call, executed) == CacheProtocol.Compute(w, old(State()), run, name, key, call)
    {
      hide RecordResult, Records;
      if call.Returned? {
        RecordFresh(run, name, key, call.value);
      }
      executed := true;
    }

    /** What the ResultRetrievalError handler deletes. */
    method DeleteEntries(key: Option<string>, version: Version)
      requires Valid()
      modifies this`metadataStore, this`resultStore
      ensures Valid() && State() == Forget(old(State()), key, version)
    {
      metadataStore := metadataStore - {key};
      resultStore := resultStore - {version};
    }

    /** `post_node_execute`. */
    method PostNodeExecute(run: RunId, name: Name, result: V, success: bool)
      requires Valid() && run in behaviors && name in behaviors[run]
      requires success && behaviors[run][name] != Disable ==>
                 CacheProtocol.GetDataVersion(State(), Record(run), name,
                   CacheProtocol.GetCacheKey(Record(run), name)).Some?
      modifies this`resultStore
      ensures Valid() && State() == CacheProtocol.PostNodeExecute(old(State()), run, name, result, success)
    {
      if !success || behaviors[run][name] == Disable {
        return;
      }
      var key := GetCacheKey(run, name);
      var version := GetDataVersion(run, name, key);
      if version.value !in resultStore {
        resultStore := resultStore[version.value := result];
      }
    }
  }
}
