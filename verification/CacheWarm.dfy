/** A run over stores a like run has filled calls no function. */
module CacheWarm {
  import opened Prelude
  import opened CacheKeys
  import opened Dataflow
  import opened CacheProtocol
  import opened CacheSoundness
  import opened CacheHistory

  /** Argument versions when every dependency is DEFAULT and whatever is not yet versioned is hashable. */
  function PlainVersions<V>(w: World<V>, versions: map<Name, Version>, args: Dict<Name, V>): Dict<Name, Version> {
    if args == [] then []
    else
      [(args[0].0, if args[0].0 in versions then versions[args[0].0] else w.hash(args[0].1))]
      + PlainVersions(w, versions, args[1..])
  }

  /** The key of n in a run whose data versions are these. */
  function PlainKey<V>(w: World<V>, e: Exec<V>, versions: map<Name, Version>, n: Name): string
    requires n in e.g.nodes
  {
    CreateCacheKey(w.platform, n, e.g.nodes[n].code, PlainVersions(w, versions, e.Args(n)))
  }

  ghost predicate AllDefault<V>(e: Exec<V>) {
    forall n :: n in e.behaviors ==> e.behaviors[n] == Default
  }

  /** Inputs, config, overrides and default parameter values have fingerprints. */
  ghost predicate GivenHashable<V(!new)>(w: World<V>, e: Exec<V>) {
    && (forall n :: n in e.ctx.inputs ==> w.hash(e.ctx.inputs[n]) != UNHASHABLE)
    && (forall n :: n in e.ctx.overrides ==> w.hash(e.ctx.overrides[n]) != UNHASHABLE)
    && (forall n :: n in e.g.nodes ==> forall i :: 0 <= i < |e.g.nodes[n].defaults| ==>
          w.hash(e.g.nodes[n].defaults[i].1) != UNHASHABLE)
  }

  /** n's result can be had without calling it: key, version and value are all in the stores. */
  ghost predicate Stocked<V(!new)>(w: World<V>, stores: Stores<V>, e: Exec<V>, versions: map<Name, Version>, n: Name) {
    && n in e.g.nodes && n in e.values && n in versions
    && Some(PlainKey(w, e, versions, n)) in stores.metadata
    && stores.metadata[Some(PlainKey(w, e, versions, n))] == versions[n]
    && versions[n] in stores.results && stores.results[versions[n]] == e.values[n]
  }

  /**
   * An entry the metadata store will not replace, for a version the adapter made up and whose result
   * is gone.
   */
  predicate Stale<V>(w: World<V>, stores: Stores<V>, key: string) {
    && !w.overwrites && Some(key) in stores.metadata
    && Reserved(stores.metadata[Some(key)]) && stores.metadata[Some(key)] !in stores.results
  }

  /** The metadata store keeps another version under this key, and will go on doing so. */
  predicate KeepsOther<V>(w: World<V>, stores: Stores<V>, key: string, version: Version) {
    !w.overwrites && Some(key) in stores.metadata && stores.metadata[Some(key)] != version
  }

  /** n's result can be had from the stores, or its entry is for another version. */
  ghost predicate Accounted<V(!new)>(w: World<V>, stores: Stores<V>, e: Exec<V>, versions: map<Name, Version>, n: Name)
  {
    && n in e.g.nodes && n in e.values && n in versions
    && (Stocked(w, stores, e, versions, n) || KeepsOther(w, stores, PlainKey(w, e, versions, n), versions[n]))
  }

  ghost predicate AllAccounted<V(!new)>(w: World<V>, stores: Stores<V>, e: Exec<V>, versions: map<Name, Version>) {
    forall n :: n in e.values ==> Accounted(w, stores, e, versions, n)
  }

  /** Which names a run's record has versions for: what was given to the run, and what it computed. */
  ghost predicate VersionedNames<V>(r: RunRecord, e: Exec<V>, given: set<Name>) {
    && r.dataVersions.Keys == given + e.values.Keys
    && e.ctx.overrides.Keys <= given
    && r.behaviors == e.behaviors
  }

  lemma {:induction false} PlainArgumentVersions<V>(w: World<V>, r: RunRecord, args: Dict<Name, V>, uuids: nat)
    requires forall i :: 0 <= i < |args| ==> args[i].0 in r.behaviors && r.behaviors[args[i].0] == Default
    requires forall i :: 0 <= i < |args| && args[i].0 !in r.dataVersions ==> w.hash(args[i].1) != UNHASHABLE
    ensures ArgumentVersions(w, r, args, uuids) == (PlainVersions(w, r.dataVersions, args), uuids)
    decreases |args|
  {
    if args != [] {
      PlainArgumentVersions(w, r, args[1..], uuids);
    }
  }

  lemma {:induction false} PlainVersionsStable<V>(w: World<V>, a: map<Name, Version>, b: map<Name, Version>,
                                                  args: Dict<Name, V>)
    requires forall i :: 0 <= i < |args| ==>
               (args[i].0 in a <==> args[i].0 in b) && (args[i].0 in a ==> a[args[i].0] == b[args[i].0])
    ensures PlainVersions(w, a, args) == PlainVersions(w, b, args)
    decreases |args|
  {
    if args != [] {
      PlainVersionsStable(w, a, b, args[1..]);
    }
  }

  /** Where each argument comes from. */
  lemma ArgSources<V>(e: Exec<V>, n: Name, i: nat)
    requires e.Valid() && n in e.g.nodes && i < |e.Args(n)|
    ensures var (d, v) := e.Args(n)[i];
            d in e.g.nodes && (e.Known(d) == Some(v) || (e.Known(d).None? && (d, v) in e.g.nodes[n].defaults))
  {
    ArgsKeys(e, n);
    var node := e.g.nodes[n];
    var kwargs := e.Kwargs(n, |node.deps|);
    KwargsKeys(e, n, |node.deps|);
    ResolvedKeys(node.defaults, kwargs);
    if i < |kwargs| {
      assert e.Args(n)[..|kwargs|][i] == kwargs[i];
    } else {
      assert e.Args(n)[i] in node.defaults;
    }
  }

  /** Arguments without a data version are config values or defaults, so hashable. */
  lemma UnversionedIsHashable<V(!new)>(w: World<V>, r: RunRecord, e: Exec<V>, given: set<Name>, n: Name)
    requires e.Valid() && n in e.g.nodes && VersionedNames(r, e, given) && GivenHashable(w, e)
    ensures forall i :: 0 <= i < |e.Args(n)| && e.Args(n)[i].0 !in r.dataVersions ==>
        w.hash(e.Args(n)[i].1) != UNHASHABLE
    ensures forall i :: 0 <= i < |e.Args(n)| ==> e.Args(n)[i].0 in r.behaviors
  {
    forall i | 0 <= i < |e.Args(n)|
      ensures e.Args(n)[i].0 !in r.dataVersions ==> w.hash(e.Args(n)[i].1) != UNHASHABLE
      ensures e.Args(n)[i].0 in r.behaviors
    {
      ArgSources(e, n, i);
      var (d, v) := e.Args(n)[i];
      if e.Known(d).None? {
        var j :| 0 <= j < |e.g.nodes[n].defaults| && e.g.nodes[n].defaults[j] == (d, v);
      }
    }
  }

  // ---------------------------------------------------------------- the second run

  /**
   * The second run so far: same graph and context as the first run e, every value and version it has
   * is the first run's, every key it has prepared is the first run's key, and the stores are stocked.
   */
  ghost predicate WarmRun<V(!new)>(w: World<V>, s: System<V>, run: RunId, e: Exec<V>, versions: map<Name, Version>,
                                   given: set<Name>)
  {
    && run in s.execs && run in s.adapter.runs
    && e.Valid()
    && AllAccounted(w, s.adapter.stores, e, versions)
    && (forall n :: n in s.execs[run].values ==> Stocked(w, s.adapter.stores, e, versions, n))
    && WarmExec(s.execs[run], e)
    && WarmRecord(w, s.adapter.runs[run], s.execs[run], e, versions, given)
  }

  /** The event executes a node whose key is stale. */
  ghost predicate MeetsStale<V(!new)>(w: World<V>, stores: Stores<V>, e: Exec<V>, versions: map<Name, Version>,
                                      ev: Event<V>)
  {
    ev.Do? && ev.node in e.g.nodes && ev.node in e.values && Stale(w, stores, PlainKey(w, e, versions, ev.node))
  }

  /** The event executes a node whose entry is for another version. */
  ghost predicate MeetsOther<V(!new)>(w: World<V>, stores: Stores<V>, e: Exec<V>, versions: map<Name, Version>,
                                      ev: Event<V>)
  {
    && ev.Do? && ev.node in e.g.nodes && ev.node in e.values && ev.node in versions
    && KeepsOther(w, stores, PlainKey(w, e, versions, ev.node), versions[ev.node])
  }

  /** Whatever entry is for another version is stale. */
  ghost predicate OtherIsStale<V(!new)>(w: World<V>, stores: Stores<V>, e: Exec<V>, versions: map<Name, Version>) {
    forall n :: n in e.values && n in e.g.nodes && n in versions
                && KeepsOther(w, stores, PlainKey(w, e, versions, n), versions[n]) ==>
      Stale(w, stores, PlainKey(w, e, versions, n))
  }

  ghost predicate WarmExec<V>(e2: Exec<V>, e: Exec<V>) {
    && e2.g == e.g && e2.ctx == e.ctx && e2.slice == e.slice && e2.behaviors == e.behaviors
    && (forall n :: n in e.slice && e.IsFunction(n) ==> n in e.values)
    && (forall n :: n in e.values ==> e.IsFunction(n))
    && (forall n :: n in e2.values ==> n in e.values && e2.values[n] == e.values[n])
    && (forall n :: n in e2.values ==> n in e2.phases)
  }

  ghost predicate WarmVersions<V>(r2: RunRecord, e2: Exec<V>, e: Exec<V>, versions: map<Name, Version>,
                                  given: set<Name>)
  {
    && VersionedNames(r2, e2, given)
    && versions.Keys == given + e.values.Keys
    && (forall n :: n in given ==> n !in e.values)
    && (forall n :: n in r2.dataVersions ==> n in versions && r2.dataVersions[n] == versions[n])
    && (forall n :: n in e2.slice && n in e2.g.nodes && !e2.g.nodes[n].external ==>
          n in r2.codeVersions && r2.codeVersions[n] == e2.g.nodes[n].code)
  }

  ghost predicate WarmPhases<V(!new)>(w: World<V>, r2: RunRecord, e2: Exec<V>, e: Exec<V>, versions: map<Name, Version>)
  {
    && (forall n :: n in e2.phases ==> n in e.values && n in e2.slice && n in e2.g.nodes && !e2.g.nodes[n].external)
    && (forall n :: n in e2.phases && e2.phases[n].Prepared? ==>
          n in e.g.nodes && n !in e2.values && GetCacheKey(r2, n) == Some(PlainKey(w, e, versions, n)))
  }

  ghost predicate WarmRecord<V(!new)>(w: World<V>, r2: RunRecord, e2: Exec<V>, e: Exec<V>,
                                      versions: map<Name, Version>, given: set<Name>)
  {
    WarmVersions(r2, e2, e, versions, given) && WarmPhases(w, r2, e2, e, versions)
  }

  /** One event of the run itself, with nothing failing to be retrieved. */
  predicate OwnEvent<V>(run: RunId, ev: Event<V>) {
    match ev
    case Prepare(r, _) => r == run
    case Do(r, _, _, fails) => r == run && !fails
    case Post(r, _) => r == run
    case _ => false
  }

  lemma ValidCopy<V>(e2: Exec<V>, e: Exec<V>)
    requires e.Valid() && e2.g == e.g && e2.slice == e.slice && e2.behaviors == e.behaviors
    ensures e2.Valid()
  {
    assert forall n :: n in e.g.nodes ==> e.NodeReadable(n) ==> e2.NodeReadable(n);
  }

  /** Preparing a node rebuilds the first run's key. */
  lemma SameKey<V(!new)>(w: World<V>, s: System<V>, run: RunId, e: Exec<V>, versions: map<Name, Version>,
                         given: set<Name>, n: Name)
    requires WarmRun(w, s, run, e, versions, given) && AllDefault(e) && GivenHashable(w, e)
    requires n in e.g.nodes && e.IsFunction(n) && s.execs[run].ArgumentsReady(n)
    ensures var r2, e2 := s.adapter.runs[run], s.execs[run];
            && e2.Args(n) == e.Args(n)
            && (forall i :: 0 <= i < |e2.Args(n)| ==> e2.Args(n)[i].0 in r2.behaviors)
            && ArgumentVersions(w, r2, e2.Args(n), s.adapter.uuids)
                 == (PlainVersions(w, versions, e.Args(n)), s.adapter.uuids)
  {
    hide AllAccounted, Exec<V>.Args;
    var r2, e2 := s.adapter.runs[run], s.execs[run];
    ValidCopy(e2, e);
    ArgsStable(e2, e, n);
    UnversionedIsHashable(w, r2, e2, given, n);
    PlainArgumentVersions(w, r2, e2.Args(n), s.adapter.uuids);
    forall i | 0 <= i < |e.Args(n)|
      ensures e.Args(n)[i].0 in r2.dataVersions <==> e.Args(n)[i].0 in versions
    {
      var d := e.Args(n)[i].0;
      ArgSources(e2, n, i);
      ArgSources(e, n, i);
      if d in e.values && d !in e2.values {
        FunctionArgumentKnown(e2, n, i);
      }
    }
    PlainVersionsStable(w, r2.dataVersions, versions, e.Args(n));
  }

  /** A function node among a ready node's arguments has its value. */
  lemma FunctionArgumentKnown<V>(e: Exec<V>, n: Name, i: nat)
    requires e.Valid() && n in e.g.nodes && e.ArgumentsReady(n) && i < |e.Args(n)|
    ensures e.IsFunction(e.Args(n)[i].0) ==> e.Args(n)[i].0 in e.values
  {
    ArgsAreDeps(e, n);
    var d := e.Args(n)[i].0;
    assert e.g.Uses(n, d);
    var k :| 0 <= k < |e.g.nodes[n].deps| && e.g.nodes[n].deps[k].name == d;
  }

  /** An event of a warm run that meets no other version calls nothing, changes no store and follows the first run. */
  lemma {:induction false} WarmStep<V(!new)>(w: World<V>, s: System<V>, run: RunId, e: Exec<V>,
                                             versions: map<Name, Version>, given: set<Name>, ev: Event<V>)
    requires WarmRun(w, s, run, e, versions, given) && AllDefault(e) && GivenHashable(w, e)
    requires OwnEvent(run, ev) && Enabled(w, s, ev) && !MeetsOther(w, s.adapter.stores, e, versions, ev)
    ensures ev.Do? ==> Hookable(s, ev) && !DoNodeExecute(w, s.adapter, run, ev.node, ev.call, false).executed
    ensures ev.Do? ==> Recalls(Apply(w, s, ev), run, ev.node, versions)
    ensures Apply(w, s, ev).adapter.stores == s.adapter.stores
    ensures WarmRun(w, Apply(w, s, ev), run, e, versions, given)
  {
    match ev {
      case Prepare(_, n) => WarmPrepare(w, s, run, e, versions, given, n);
      case Do(_, n, call, _) => WarmDo(w, s, run, e, versions, given, n, call);
      case Post(_, n) => WarmPost(w, s, run, e, versions, given, n);
    }
  }

  /** In this run n has the version on record. */
  ghost predicate Recalls<V>(s: System<V>, run: RunId, n: Name, versions: map<Name, Version>) {
    && run in s.adapter.runs && n in s.adapter.runs[run].dataVersions && n in versions
    && s.adapter.runs[run].dataVersions[n] == versions[n]
  }

  lemma {:induction false} WarmPrepare<V(!new)>(w: World<V>, s: System<V>, run: RunId, e: Exec<V>,
                                                versions: map<Name, Version>, given: set<Name>, n: Name)
    requires WarmRun(w, s, run, e, versions, given) && AllDefault(e) && GivenHashable(w, e)
    requires Enabled(w, s, Prepare(run, n))
    ensures Apply(w, s, Prepare(run, n)).adapter.stores == s.adapter.stores
    ensures WarmRun(w, Apply(w, s, Prepare(run, n)), run, e, versions, given)
  {
    hide AllAccounted, Exec<V>.Args, Exec<V>.ArgumentsReady, ArgumentVersions, CreateCacheKey, WarmRecord;
    hide Exec<V>.Valid, VersionedNames;
    var r2, e2 := s.adapter.runs[run], s.execs[run];
    PreparedHooks(w, r2, e2, e, versions, given, n);
    SameKey(w, s, run, e, versions, given, n);
    PreparedRecord(w, r2, e2, e, versions, given, n, DepsOf(w, s, run, n));
  }

  lemma PreparedHooks<V(!new)>(w: World<V>, r2: RunRecord, e2: Exec<V>, e: Exec<V>, versions: map<Name, Version>,
                               given: set<Name>, n: Name)
    requires e.Valid() && WarmExec(e2, e) && WarmRecord(w, r2, e2, e, versions, given)
    requires e2.IsFunction(n) && n in e2.slice
    ensures n in e.g.nodes && n in r2.behaviors && r2.behaviors == e.behaviors
    ensures n in r2.codeVersions && r2.codeVersions[n] == e.g.nodes[n].code
  {}

  lemma PreparedVersions<V>(r2: RunRecord, r2': RunRecord, e2: Exec<V>, e2': Exec<V>, e: Exec<V>,
                            versions: map<Name, Version>, given: set<Name>)
    requires WarmVersions(r2, e2, e, versions, given)
    requires r2' == r2.(cacheKeys := r2'.cacheKeys) && e2' == e2.(phases := e2'.phases)
    ensures WarmVersions(r2', e2', e, versions, given)
  {}

  lemma PreparedPhases<V(!new)>(w: World<V>, r2: RunRecord, e2: Exec<V>, e: Exec<V>, versions: map<Name, Version>,
                                n: Name, deps: Dict<Name, Version>)
    requires WarmPhases(w, r2, e2, e, versions) && n in e.values && n in e.g.nodes && n !in e2.values
    requires n in e2.slice && n in e2.g.nodes && !e2.g.nodes[n].external
    ensures WarmPhases(w, r2.(cacheKeys := r2.cacheKeys[n := PlainKey(w, e, versions, n)]),
                       e2.(phases := e2.phases[n := Prepared(deps)]), e, versions)
  {
    hide PlainKey;
  }

  lemma {:induction false} PreparedRecord<V(!new)>(w: World<V>, r2: RunRecord, e2: Exec<V>, e: Exec<V>,
                                                   versions: map<Name, Version>, given: set<Name>, n: Name,
                                                   deps: Dict<Name, Version>)
    requires e.Valid() && WarmExec(e2, e) && WarmRecord(w, r2, e2, e, versions, given)
    requires e2.IsFunction(n) && n in e2.slice && n !in e2.phases && n in e.g.nodes
    ensures var e2' := e2.(phases := e2.phases[n := Prepared(deps)]);
            && WarmExec(e2', e)
            && WarmRecord(w, r2.(cacheKeys := r2.cacheKeys[n := PlainKey(w, e, versions, n)]), e2', e, versions, given)
  {
    hide PlainKey, Exec<V>.Valid, WarmVersions, WarmPhases;
    var e2' := e2.(phases := e2.phases[n := Prepared(deps)]);
    var r2' := r2.(cacheKeys := r2.cacheKeys[n := PlainKey(w, e, versions, n)]);
    assert e.IsFunction(n) && n in e.values;
    assert WarmVersions(r2', e2', e, versions, given) by { PreparedVersions(r2, r2', e2, e2', e, versions, given); }
    assert n !in e2.values;
    PreparedPhases(w, r2, e2, e, versions, n, deps);
  }

  lemma {:induction false} WarmDo<V(!new)>(w: World<V>, s: System<V>, run: RunId, e: Exec<V>,
                                           versions: map<Name, Version>, given: set<Name>, n: Name, call: Outcome<V>)
    requires WarmRun(w, s, run, e, versions, given) && AllDefault(e)
    requires Enabled(w, s, Do(run, n, call, false))
    requires !MeetsOther(w, s.adapter.stores, e, versions, Event.Do(run, n, call, false))
    ensures Hookable(s, Event.Do(run, n, call, false)) && !DoNodeExecute(w, s.adapter, run, n, call, false).executed
    ensures Recalls(Apply(w, s, Do(run, n, call, false)), run, n, versions)
    ensures Apply(w, s, Do(run, n, call, false)).adapter.stores == s.adapter.stores
    ensures WarmRun(w, Apply(w, s, Do(run, n, call, false)), run, e, versions, given)
  {
    hide Exec<V>.Args, Exec<V>.ArgumentsReady, CreateCacheKey, CanReturn, PlainKey, AllAccounted, Compute;
    hide Forget, Exec<V>.Valid;
    var r2, e2 := s.adapter.runs[run], s.execs[run];
    DoneHooks(w, s, run, e, versions, given, n);
    HitRecord(w, r2, e2, e, versions, given, n);
  }

  lemma {:induction false} DoneHooks<V(!new)>(w: World<V>, s: System<V>, run: RunId, e: Exec<V>,
                                              versions: map<Name, Version>, given: set<Name>, n: Name)
    requires WarmRun(w, s, run, e, versions, given) && AllDefault(e)
    requires n in s.execs[run].phases && s.execs[run].phases[n].Prepared?
    requires !MeetsOther(w, s.adapter.stores, e, versions, Event.Do(run, n, Raised(""), false))
    ensures Stocked(w, s.adapter.stores, e, versions, n)
    ensures var r2 := s.adapter.runs[run];
            && n in r2.behaviors && r2.behaviors[n] == Default && n in r2.codeVersions
            && n in e.values && n in versions && n !in r2.dataVersions
            && GetDataVersion(s.adapter, r2, n, GetCacheKey(r2, n)) == Some(versions[n])
            && versions[n] in s.adapter.stores.results && s.adapter.stores.results[versions[n]] == e.values[n]
  {
    hide Exec<V>.Args, Exec<V>.ArgumentsReady, PlainKey;
    assert Accounted(w, s.adapter.stores, e, versions, n);
  }

  lemma MoreVersionedNames<V>(r: RunRecord, e: Exec<V>, given: set<Name>, n: Name, version: Version, v: V)
    requires VersionedNames(r, e, given)
    ensures VersionedNames(r.(dataVersions := r.dataVersions[n := version]), AfterDo(e, n, Returned(v)), given)
  {
    var keys := e.values[n := v].Keys;
    assert keys == e.values.Keys + {n};
    assert r.dataVersions[n := version].Keys == r.dataVersions.Keys + {n};
  }

  lemma HitVersions<V>(r2: RunRecord, e2: Exec<V>, e: Exec<V>, versions: map<Name, Version>, given: set<Name>, n: Name)
    requires WarmVersions(r2, e2, e, versions, given) && n in e.values && n in versions
    ensures WarmVersions(r2.(dataVersions := r2.dataVersions[n := versions[n]]), AfterDo(e2, n, Returned(e.values[n])),
        e, versions, given)
  {
    hide VersionedNames;
    MoreVersionedNames(r2, e2, given, n, versions[n], e.values[n]);
  }

  lemma {:induction false} HitRecord<V(!new)>(w: World<V>, r2: RunRecord, e2: Exec<V>, e: Exec<V>,
                                              versions: map<Name, Version>, given: set<Name>, n: Name)
    requires e.Valid() && WarmExec(e2, e) && WarmRecord(w, r2, e2, e, versions, given)
    requires n in e2.phases && e2.phases[n].Prepared? && n in e.values && n in versions
    ensures var e2' := AfterDo(e2, n, Returned(e.values[n]));
            && WarmExec(e2', e)
            && WarmRecord(w, r2.(dataVersions := r2.dataVersions[n := versions[n]]), e2', e, versions, given)
  {
    hide PlainKey, Exec<V>.Valid, Exec<V>.IsFunction, WarmVersions;
    HitVersions(r2, e2, e, versions, given, n);
  }

  lemma {:induction false} WarmPost<V(!new)>(w: World<V>, s: System<V>, run: RunId, e: Exec<V>,
                                             versions: map<Name, Version>, given: set<Name>, n: Name)
    requires WarmRun(w, s, run, e, versions, given) && AllDefault(e)
    requires Enabled(w, s, Post(run, n))
    ensures Apply(w, s, Post(run, n)) == s
  {
    hide Exec<V>.Args, CreateCacheKey, PlainKey, Stocked, Exec<V>.IsFunction, Exec<V>.Valid;
    if n in s.execs[run].values {
      assert Stocked(w, s.adapter.stores, e, versions, n);
      StockedResult(w, s.adapter.stores, e, versions, n);
    }
  }

  lemma StockedResult<V(!new)>(w: World<V>, stores: Stores<V>, e: Exec<V>, versions: map<Name, Version>, n: Name)
    requires Stocked(w, stores, e, versions, n)
    ensures n in e.values && n in versions && versions[n] in stores.results
    ensures stores.results[versions[n]] == e.values[n]
  {}

  ghost function ApplyAll<V(!new)>(w: World<V>, s: System<V>, events: seq<Event<V>>): System<V> {
    if events == [] then s
    else Apply(w, ApplyAll(w, s, events[..|events| - 1]), events[|events| - 1])
  }

  /** The events are the run's own and each is possible when it happens. */
  ghost predicate RunsOn<V(!new)>(w: World<V>, s: System<V>, run: RunId, events: seq<Event<V>>) {
    forall i :: 0 <= i < |events| ==> OwnEvent(run, events[i]) && Enabled(w, ApplyAll(w, s, events[..i]), events[i])
  }

  /** Event i calls a node's function. */
  ghost predicate CallsFunction<V(!new)>(w: World<V>, s: System<V>, run: RunId, events: seq<Event<V>>, i: nat)
    requires i < |events|
  {
    var before := ApplyAll(w, s, events[..i]);
    events[i].Do? && Hookable(before, events[i]) && events[i].run == run
    && DoNodeExecute(w, before.adapter, run, events[i].node, events[i].call, events[i].retrievalFails).executed
  }

  /** A warm run that executes a node whose entry is for another version calls it or gets that version. */
  lemma {:induction false} OtherIsNotRecalled<V(!new)>(w: World<V>, s: System<V>, run: RunId, e: Exec<V>,
                                                       versions: map<Name, Version>, given: set<Name>, ev: Event<V>)
    requires WarmRun(w, s, run, e, versions, given) && AllDefault(e)
    requires OwnEvent(run, ev) && Enabled(w, s, ev) && MeetsOther(w, s.adapter.stores, e, versions, ev)
    ensures ev.Do? && ev.run == run && Hookable(s, ev)
    ensures DoNodeExecute(w, s.adapter, run, ev.node, ev.call, ev.retrievalFails).executed
            || !Recalls(Apply(w, s, ev), run, ev.node, versions)
  {
    hide Exec<V>.Args, Exec<V>.ArgumentsReady, PlainKey, AllAccounted, CanReturn, RecordResult, Dag<V>.Valid;
    hide Exec<V>.NodeReadable;
    var a, r2, n := s.adapter, s.adapter.runs[run], ev.node;
    var key := GetCacheKey(r2, n);
    assert n !in r2.dataVersions && key == Some(PlainKey(w, e, versions, n));
    var kept := a.stores.metadata[key];
    assert GetDataVersion(a, r2, n, key) == Some(kept) && kept != versions[n];
    if kept in a.stores.results {
      assert DoNodeExecute(w, a, run, n, ev.call, false).adapter == SetMemoryVersion(a, run, n, kept);
    }
  }

  /** Every event leaves its node with the version on record, and none calls a function. */
  ghost predicate Repeats<V(!new)>(w: World<V>, s: System<V>, run: RunId, versions: map<Name, Version>,
                                   events: seq<Event<V>>)
  {
    forall i :: 0 <= i < |events| ==> RepeatsAt(w, s, run, versions, events, i)
  }

  ghost predicate RepeatsAt<V(!new)>(w: World<V>, s: System<V>, run: RunId, versions: map<Name, Version>,
                                     events: seq<Event<V>>, i: nat)
    requires i < |events|
  {
    && !CallsFunction(w, s, run, events, i)
    && (events[i].Do? ==> Recalls(Apply(w, ApplyAll(w, s, events[..i]), events[i]), run, events[i].node, versions))
  }

  ghost predicate MeetsNothingOther<V(!new)>(w: World<V>, stores: Stores<V>, e: Exec<V>, versions: map<Name, Version>,
                                             events: seq<Event<V>>)
  {
    forall i :: 0 <= i < |events| ==> !MeetsOther(w, stores, e, versions, events[i])
  }

  /**
   * A warm run, in whatever order its hooks come, repeats the first run without a call exactly if it executes no
   * node whose entry is for another version; until it does it writes nothing.
   */
  lemma {:induction false} WarmRunRepeats<V(!new)>(w: World<V>, s: System<V>, run: RunId, e: Exec<V>,
                                                   versions: map<Name, Version>, given: set<Name>,
                                                   events: seq<Event<V>>)
    requires WarmRun(w, s, run, e, versions, given) && AllDefault(e) && GivenHashable(w, e)
    requires RunsOn(w, s, run, events)
    ensures Repeats(w, s, run, versions, events) <==> MeetsNothingOther(w, s.adapter.stores, e, versions, events)
    ensures Repeats(w, s, run, versions, events) ==>
              && WarmRun(w, ApplyAll(w, s, events), run, e, versions, given)
              && ApplyAll(w, s, events).adapter.stores == s.adapter.stores
  {
    hide WarmRun, Enabled, DoNodeExecute, Apply, AllDefault, GivenHashable, Hookable, MeetsOther, RunsOn, Recalls;
    if events != [] {
      var n := |events| - 1;
      var before := events[..n];
      RunsOnBefore(w, s, run, events);
      WarmRunRepeats(w, s, run, e, versions, given, before);
      RepeatsBefore(w, s, run, versions, events);
      if Repeats(w, s, run, versions, before) {
        if MeetsOther(w, s.adapter.stores, e, versions, events[n]) {
          OtherIsNotRecalled(w, ApplyAll(w, s, before), run, e, versions, given, events[n]);
          assert !RepeatsAt(w, s, run, versions, events, n);
        } else {
          WarmStep(w, ApplyAll(w, s, before), run, e, versions, given, events[n]);
          assert RepeatsAt(w, s, run, versions, events, n);
        }
      }
    }
  }

  lemma RepeatsBefore<V(!new)>(w: World<V>, s: System<V>, run: RunId, versions: map<Name, Version>,
                               events: seq<Event<V>>)
    requires events != []
    ensures var n := |events| - 1;
            Repeats(w, s, run, versions, events) <==>
              Repeats(w, s, run, versions, events[..n]) && RepeatsAt(w, s, run, versions, events, n)
  {
    hide ApplyAll, Hookable, DoNodeExecute, Apply, Recalls;
    var n := |events| - 1;
    forall i | 0 <= i < n
      ensures RepeatsAt(w, s, run, versions, events[..n], i) <==> RepeatsAt(w, s, run, versions, events, i)
    {
      assert events[..n][..i] == events[..i];
    }
  }

  /** A warm run that executes a node with a stale key calls its function. */
  lemma {:induction false} StaleIsCalled<V(!new)>(w: World<V>, s: System<V>, run: RunId, e: Exec<V>,
                                                  versions: map<Name, Version>, given: set<Name>, ev: Event<V>)
    requires WarmRun(w, s, run, e, versions, given) && AllDefault(e)
    requires OwnEvent(run, ev) && Enabled(w, s, ev) && MeetsStale(w, s.adapter.stores, e, versions, ev)
    ensures ev.Do? && ev.run == run && Hookable(s, ev)
    ensures DoNodeExecute(w, s.adapter, run, ev.node, ev.call, ev.retrievalFails).executed
  {
    hide Exec<V>.Args, Exec<V>.ArgumentsReady, PlainKey, AllAccounted, CanReturn, RecordResult, Dag<V>.Valid;
    hide Exec<V>.NodeReadable;
  }

  ghost predicate CallsNothing<V(!new)>(w: World<V>, s: System<V>, run: RunId, events: seq<Event<V>>) {
    forall i :: 0 <= i < |events| ==> !CallsFunction(w, s, run, events, i)
  }

  ghost predicate MeetsNothingStale<V(!new)>(w: World<V>, stores: Stores<V>, e: Exec<V>, versions: map<Name, Version>,
                                             events: seq<Event<V>>) {
    forall i :: 0 <= i < |events| ==> !MeetsStale(w, stores, e, versions, events[i])
  }

  /**
   * Where only stale entries are for another version, a warm run, in whatever order its hooks come, calls a function
   * exactly if it executes a node whose key is stale; until then it writes nothing.
   */
  lemma {:induction false} WarmRunCallsOnlyStale<V(!new)>(w: World<V>, s: System<V>, run: RunId, e: Exec<V>,
                                                         versions: map<Name, Version>, given: set<Name>,
                                                         events: seq<Event<V>>)
    requires WarmRun(w, s, run, e, versions, given) && AllDefault(e) && GivenHashable(w, e)
    requires OtherIsStale(w, s.adapter.stores, e, versions)
    requires RunsOn(w, s, run, events)
    ensures CallsNothing(w, s, run, events) <==> MeetsNothingStale(w, s.adapter.stores, e, versions, events)
    ensures CallsNothing(w, s, run, events) ==>
              && WarmRun(w, ApplyAll(w, s, events), run, e, versions, given)
              && ApplyAll(w, s, events).adapter.stores == s.adapter.stores
  {
    hide WarmRun, Enabled, DoNodeExecute, Apply, AllDefault, GivenHashable, Hookable, MeetsStale, RunsOn;
    hide MeetsOther, OtherIsStale;
    if events != [] {
      var n := |events| - 1;
      var before := events[..n];
      RunsOnBefore(w, s, run, events);
      WarmRunCallsOnlyStale(w, s, run, e, versions, given, before);
      CallsBefore(w, s, run, events);
      if CallsNothing(w, s, run, before) {
        if MeetsStale(w, s.adapter.stores, e, versions, events[n]) {
          StaleIsCalled(w, ApplyAll(w, s, before), run, e, versions, given, events[n]);
          assert CallsFunction(w, s, run, events, n);
        } else {
          OtherMeetsStale(w, s.adapter.stores, e, versions, events[n]);
          WarmStep(w, ApplyAll(w, s, before), run, e, versions, given, events[n]);
        }
      }
    }
  }

  lemma OtherMeetsStale<V(!new)>(w: World<V>, stores: Stores<V>, e: Exec<V>, versions: map<Name, Version>, ev: Event<V>)
    requires OtherIsStale(w, stores, e, versions)
    ensures MeetsOther(w, stores, e, versions, ev) ==> MeetsStale(w, stores, e, versions, ev)
  {
    hide PlainKey, Stale;
  }

  lemma {:induction false} RunsOnBefore<V(!new)>(w: World<V>, s: System<V>, run: RunId, events: seq<Event<V>>)
    requires RunsOn(w, s, run, events) && events != []
    ensures var n := |events| - 1;
            && RunsOn(w, s, run, events[..n]) && OwnEvent(run, events[n]) &&
                 Enabled(w, ApplyAll(w, s, events[..n]), events[n])
  {
    hide Enabled;
    var before := events[..|events| - 1];
    forall i | 0 <= i < |before|
      ensures OwnEvent(run, before[i]) && Enabled(w, ApplyAll(w, s, before[..i]), before[i])
    {
      assert before[..i] == events[..i];
    }
  }

  /** Nothing is called by the events exactly if nothing is by all but the last, nor by the last. */
  lemma CallsBefore<V(!new)>(w: World<V>, s: System<V>, run: RunId, events: seq<Event<V>>)
    requires events != []
    ensures var n := |events| - 1;
            CallsNothing(w, s, run, events) <==>
              CallsNothing(w, s, run, events[..n]) && !CallsFunction(w, s, run, events, n)
  {
    hide ApplyAll, Hookable, DoNodeExecute;
    var n := |events| - 1;
    forall i | 0 <= i < n ensures CallsFunction(w, s, run, events[..n], i) <==> CallsFunction(w, s, run, events, i) {
      assert events[..n][..i] == events[..i];
    }
  }

  // ---------------------------------------------------------------- the first run

  /** Every fingerprint in the metadata store has its result. */
  ghost predicate NoLostPrint<V>(stores: Stores<V>) {
    forall key :: Some(key) in stores.metadata && !Reserved(stores.metadata[Some(key)]) ==>
      stores.metadata[Some(key)] in stores.results
  }

  /** Computing a node again restores the result its entry lost, unless the key is stale. */
  ghost predicate Restores<V(!new)>(w: World<V>, stores: Stores<V>, e: Exec<V>) {
    w.overwrites || DefaultsDeterministic(w, e) || NoLostPrint(stores)
  }

  /** The same keys are stale. */
  ghost predicate SameStale<V>(w: World<V>, stores: Stores<V>, stores': Stores<V>) {
    forall key :: Stale(w, stores', key) <==> Stale(w, stores, key)
  }

  /** A run that stocks the stores as it goes. */
  ghost predicate Stocking<V(!new)>(w: World<V>, s: System<V>, run: RunId, base: map<Name, Version>) {
    && run in s.execs && run in s.adapter.runs
    && VersionedNames(s.adapter.runs[run], s.execs[run], base.Keys)
    && (forall n :: n in base ==>
          n in s.adapter.runs[run].dataVersions && s.adapter.runs[run].dataVersions[n] == base[n])
    && AllAccounted(w, s.adapter.stores, s.execs[run], s.adapter.runs[run].dataVersions)
  }

  /** Computing again restores lost results, and so far only stale entries are for another version. */
  ghost predicate Restoring<V(!new)>(w: World<V>, s: System<V>, run: RunId) {
    && run in s.execs && run in s.adapter.runs
    && Restores(w, s.adapter.stores, s.execs[run])
    && OtherIsStale(w, s.adapter.stores, s.execs[run], s.adapter.runs[run].dataVersions)
  }

  /** A new result does not change the keys of nodes that do not read it. */
  lemma PlainKeyStable<V(!new)>(w: World<V>, e: Exec<V>, n: Name, v: V, versions: map<Name, Version>, version: Version,
                                m: Name)
    requires e.Valid() && m in e.g.nodes && e.ArgumentsReady(m) && e.IsFunction(n) && n !in e.values
    ensures PlainKey(w, AfterDo(e, n, Returned(v)), versions[n := version], m) == PlainKey(w, e, versions, m)
  {
    hide Exec<V>.Args, CreateCacheKey;
    var e' := AfterDo(e, n, Returned(v));
    ArgsStable(e, e', m);
    forall i | 0 <= i < |e.Args(m)| ensures e.Args(m)[i].0 != n {
      FunctionArgumentKnown(e, m, i);
    }
    PlainVersionsStable(w, versions, versions[n := version], e.Args(m));
  }

  /** Earlier results stay accounted for, and the new one is, once its entry is there, with its value or for another. */
  lemma StockOne<V(!new)>(w: World<V>, stores: Stores<V>, stores': Stores<V>, e: Exec<V>, n: Name, v: V,
                          versions: map<Name, Version>, version: Version)
    requires e.Valid() && AllAccounted(w, stores, e, versions) && e.IsFunction(n) && n !in e.values
    requires e.ArgumentsReady(n) && (forall m :: m in e.values ==> m in e.g.nodes && e.ArgumentsReady(m))
    requires StoresGrow(w, stores, stores')
    requires HasEntry(stores', PlainKey(w, e, versions, n), version, v)
             || KeepsOther(w, stores', PlainKey(w, e, versions, n), version)
    ensures AllAccounted(w, stores', AfterDo(e, n, Returned(v)), versions[n := version])
  {
    hide PlainKey, Exec<V>.ArgumentsReady, Exec<V>.Valid, Exec<V>.IsFunction, Stale;
    var e' := AfterDo(e, n, Returned(v));
    NodeOfFunction(e, n);
    PlainKeyStable(w, e, n, v, versions, version, n);
    forall m | m in e'.values ensures Accounted(w, stores', e', versions[n := version], m) {
      if m != n {
        assert Accounted(w, stores, e, versions, m);
        PlainKeyStable(w, e, n, v, versions, version, m);
      }
    }
  }

  /** And only stale entries are for another version, if the new one is. */
  lemma StockedOneStale<V(!new)>(w: World<V>, stores: Stores<V>, stores': Stores<V>, e: Exec<V>, n: Name, v: V,
                                 versions: map<Name, Version>, version: Version)
    requires e.Valid() && AllAccounted(w, stores, e, versions) && e.IsFunction(n) && n !in e.values
    requires e.ArgumentsReady(n) && (forall m :: m in e.values ==> m in e.g.nodes && e.ArgumentsReady(m))
    requires StoresGrow(w, stores, stores') && OtherIsStale(w, stores, e, versions)
    requires KeepsOther(w, stores', PlainKey(w, e, versions, n), version) ==>
        Stale(w, stores', PlainKey(w, e, versions, n))
    ensures OtherIsStale(w, stores', AfterDo(e, n, Returned(v)), versions[n := version])
  {
    hide PlainKey, Exec<V>.ArgumentsReady, Exec<V>.Valid, Exec<V>.IsFunction, Stale;
    var e', versions' := AfterDo(e, n, Returned(v)), versions[n := version];
    NodeOfFunction(e, n);
    PlainKeyStable(w, e, n, v, versions, version, n);
    forall m | m in e'.values && m in e'.g.nodes && m in versions'
               && KeepsOther(w, stores', PlainKey(w, e', versions', m), versions'[m])
      ensures Stale(w, stores', PlainKey(w, e', versions', m))
    {
      if m != n {
        assert Accounted(w, stores, e, versions, m);
        PlainKeyStable(w, e, n, v, versions, version, m);
      }
    }
  }

  /** The key leads to this version and on to this value. */
  ghost predicate HasEntry<V>(stores: Stores<V>, key: string, version: Version, v: V) {
    && Some(key) in stores.metadata && stores.metadata[Some(key)] == version
    && version in stores.results && stores.results[version] == v
  }

  /** Nothing that could be retrieved is lost, and the same keys are stale. */
  ghost predicate StoresGrow<V>(w: World<V>, stores: Stores<V>, stores': Stores<V>) {
    && (forall k :: k in stores.results ==> k in stores'.results && stores'.results[k] == stores.results[k])
    && (forall k :: Some(k) in stores.metadata && stores.metadata[Some(k)] in stores.results ==>
          Some(k) in stores'.metadata && stores'.metadata[Some(k)] == stores.metadata[Some(k)])
    && (forall k :: !w.overwrites && Some(k) in stores.metadata ==>
          Some(k) in stores'.metadata && stores'.metadata[Some(k)] == stores.metadata[Some(k)])
    && SameStale(w, stores, stores')
  }

  lemma NodeOfFunction<V>(e: Exec<V>, n: Name)
    requires e.IsFunction(n)
    ensures n in e.g.nodes
  {}

  /** The three hooks of one node, back to back. */
  ghost function RunNode<V(!new)>(w: World<V>, s: System<V>, run: RunId, n: Name, call: Outcome<V>): System<V> {
    Apply(w, Apply(w, Apply(w, s, Prepare(run, n)), Do(run, n, call, false)), Post(run, n))
  }

  /** The node can run now and its function returns something it can return. */
  ghost predicate NodeRuns<V(!new)>(w: World<V>, s: System<V>, run: RunId, n: Name, call: Outcome<V>) {
    && Enabled(w, s, Prepare(run, n)) && call.Returned?
    && Enabled(w, Apply(w, s, Prepare(run, n)), Do(run, n, call, false))
  }

  lemma {:induction false} StockedSamePhases<V(!new)>(w: World<V>, stores: Stores<V>, e: Exec<V>,
                                                      phases: map<Name, Phase>, versions: map<Name, Version>)
    requires e.g.Valid() && AllAccounted(w, stores, e, versions)
    requires forall m :: m in e.values ==> m in e.g.nodes && e.ArgumentsReady(m)
    ensures AllAccounted(w, stores, e.(phases := phases), versions)
    ensures OtherIsStale(w, stores, e, versions) ==> OtherIsStale(w, stores, e.(phases := phases), versions)
  {
    hide Exec<V>.Args, CreateCacheKey;
    var e' := e.(phases := phases);
    forall m | m in e'.values
      ensures Accounted(w, stores, e', versions, m) && PlainKey(w, e', versions, m) == PlainKey(w, e, versions, m)
    {
      assert Accounted(w, stores, e, versions, m);
      ArgsStable(e, e', m);
    }
    hide PlainKey, Stale;
  }

  /** What `pre_node_execute` does in a run with hashable inputs. */
  lemma {:induction false} ColdPrepare<V(!new)>(w: World<V>, s: System<V>, run: RunId, base: map<Name, Version>,
                                                n: Name, tokens: Tokens<V>, origins: Origins<V>)
    requires Inv(w, s, tokens, origins) && Stocking(w, s, run, base) && Enabled(w, s, Prepare(run, n))
    requires AllDefault(s.execs[run]) && GivenHashable(w, s.execs[run])
    ensures var r, e, s1 := s.adapter.runs[run], s.execs[run], Apply(w, s, Prepare(run, n));
            && n in e.g.nodes
            && run in s1.execs && run in s1.adapter.runs
            && s1.adapter.stores == s.adapter.stores && s1.adapter.uuids == s.adapter.uuids
            && s1.adapter.runs[run] == r.(cacheKeys := r.cacheKeys[n := PlainKey(w, e, r.dataVersions, n)])
            && s1.execs[run] == e.(phases := s1.execs[run].phases)
            && n in s1.execs[run].phases && s1.execs[run].phases[n].Prepared?
  {
    hide AllAccounted, ArgumentVersions, CreateCacheKey, Denotes, MetadataOk, ResultsOk, TokensDrawn;
    hide WorldValid, RunOk, Exec<V>.Args;
    var r, e := s.adapter.runs[run], s.execs[run];
    PrepareHookable(w, s, Prepare(run, n), tokens, origins);
    ValidRun(w, tokens, r, e);
    RunCodes(w, tokens, r, e, n);
    UnversionedIsHashable(w, r, e, base.Keys, n);
    PlainArgumentVersions(w, r, e.Args(n), s.adapter.uuids);
  }

  lemma RunCodes<V(!new)>(w: World<V>, tokens: Tokens<V>, r: RunRecord, e: Exec<V>, n: Name)
    requires RunOk(w, tokens, r, e) && e.IsFunction(n) && n in e.slice
    ensures n in r.codeVersions && r.codeVersions[n] == e.g.nodes[n].code
  {}

  /** Running one node stocks it and keeps what was stocked. */
  lemma {:induction false} ColdNode<V(!new)>(w: World<V>, s: System<V>, run: RunId, base: map<Name, Version>, n: Name,
                                             call: Outcome<V>, tokens: Tokens<V>, origins: Origins<V>)
    returns (tokens': Tokens<V>, origins': Origins<V>)
    requires Inv(w, s, tokens, origins) && Stocking(w, s, run, base) && NodeRuns(w, s, run, n, call)
    requires AllDefault(s.execs[run]) && GivenHashable(w, s.execs[run])
    ensures Inv(w, RunNode(w, s, run, n, call), tokens', origins')
    ensures Stocking(w, RunNode(w, s, run, n, call), run, base)
    ensures SameStale(w, s.adapter.stores, RunNode(w, s, run, n, call).adapter.stores)
    ensures Restoring(w, s, run) ==> Restoring(w, RunNode(w, s, run, n, call), run)
    ensures var e, e' := s.execs[run], RunNode(w, s, run, n, call).execs[run];
            e'.g == e.g && e'.ctx == e.ctx && e'.slice == e.slice && e'.behaviors == e.behaviors &&
              e'.values.Keys == e.values.Keys + {n}
  {
    hide Stocking, AllDefault, GivenHashable, Inv, Apply, Enabled, SameStale, Restoring;
    var s1 := Apply(w, s, Prepare(run, n));
    tokens', origins' := StepOk(w, s, Prepare(run, n), tokens, origins);
    var tokens1, origins1 := tokens', origins';
    ColdPrepared(w, s, run, base, n, tokens, origins);
    tokens', origins' := StepOk(w, s1, Event.Do(run, n, call, false), tokens1, origins1);
    ColdDone(w, s, s1, run, base, n, call, tokens1, origins1, tokens', origins');
    var s2 := Apply(w, s1, Event.Do(run, n, call, false));
    PostEnabled(w, s1, run, n, call);
    tokens', origins' := StepOk(w, s2, Post(run, n), tokens', origins');
  }

  lemma PostEnabled<V(!new)>(w: World<V>, s1: System<V>, run: RunId, n: Name, call: Outcome<V>)
    requires Enabled(w, s1, Do(run, n, call, false)) && Hookable(s1, Event.Do(run, n, call, false))
    ensures Enabled(w, Apply(w, s1, Event.Do(run, n, call, false)), Post(run, n))
  {
    hide DoNodeExecute;
  }

  /** The state between `pre_node_execute` and `do_node_execute`. */
  ghost predicate ColdReady<V(!new)>(w: World<V>, s: System<V>, run: RunId, base: map<Name, Version>, n: Name) {
    && Stocking(w, s, run, base) && AllDefault(s.execs[run])
    && n in s.execs[run].g.nodes && n in s.execs[run].phases && s.execs[run].phases[n].Prepared?
    && GetCacheKey(s.adapter.runs[run], n) == Some(PlainKey(w, s.execs[run], s.adapter.runs[run].dataVersions, n))
  }

  lemma {:induction false} PreparedRestores<V(!new)>(w: World<V>, s: System<V>, s1: System<V>, run: RunId)
    requires run in s.execs && run in s.adapter.runs && run in s1.execs && run in s1.adapter.runs
    requires s1.adapter.stores == s.adapter.stores
    requires s1.execs[run] == s.execs[run].(phases := s1.execs[run].phases)
    requires s1.adapter.runs[run].dataVersions == s.adapter.runs[run].dataVersions
    requires s.execs[run].g.Valid() && AllAccounted(w, s.adapter.stores, s.execs[run], s.adapter.runs[run].dataVersions)
    requires forall m :: m in s.execs[run].values ==> m in s.execs[run].g.nodes && s.execs[run].ArgumentsReady(m)
    ensures Restoring(w, s, run) ==> Restoring(w, s1, run)
  {
    StockedSamePhases(w, s.adapter.stores, s.execs[run], s1.execs[run].phases, s.adapter.runs[run].dataVersions);
    hide OtherIsStale, AllAccounted, Exec<V>.ArgumentsReady, Dag<V>.Valid;
  }

  lemma {:induction false} ColdPrepared<V(!new)>(w: World<V>, s: System<V>, run: RunId, base: map<Name, Version>,
                                                 n: Name, tokens: Tokens<V>, origins: Origins<V>)
    requires Inv(w, s, tokens, origins) && Stocking(w, s, run, base) && Enabled(w, s, Prepare(run, n))
    requires AllDefault(s.execs[run]) && GivenHashable(w, s.execs[run])
    ensures ColdReady(w, Apply(w, s, Prepare(run, n)), run, base, n)
    ensures Apply(w, s, Prepare(run, n)).adapter.stores == s.adapter.stores
    ensures Restoring(w, s, run) ==> Restoring(w, Apply(w, s, Prepare(run, n)), run)
    ensures var e, e1 := s.execs[run], Apply(w, s, Prepare(run, n)).execs[run]; e1 == e.(phases := e1.phases)
  {
    hide AllAccounted, Apply, CreateCacheKey, Denotes, MetadataOk, ResultsOk, TokensDrawn, WorldValid, RunOk;
    hide Exec<V>.Args, Exec<V>.Kwargs, Exec<V>.ArgumentsReady, Restoring, OtherIsStale;
    var r, e := s.adapter.runs[run], s.execs[run];
    ColdPrepare(w, s, run, base, n, tokens, origins);
    ValidRun(w, tokens, r, e);
    RanReady(w, tokens, r, e);
    var s1 := Apply(w, s, Prepare(run, n));
    StockedSamePhases(w, s.adapter.stores, e, s1.execs[run].phases, r.dataVersions);
    PreparedRestores(w, s, s1, run);
    StockedSamePhases(w, s.adapter.stores, e, s1.execs[run].phases, r.dataVersions);
    assert e.ArgumentsReady(n);
    ArgsStable(e, s1.execs[run], n);
  }

  lemma RanReady<V(!new)>(w: World<V>, tokens: Tokens<V>, r: RunRecord, e: Exec<V>)
    requires RunOk(w, tokens, r, e)
    ensures forall m :: m in e.values ==> m in e.g.nodes && e.ArgumentsReady(m)
  {
    hide Denotes, DepsOk, Sound, CreateCacheKey, Exec<V>.ArgumentsReady;
    forall m | m in e.values ensures m in e.g.nodes && e.ArgumentsReady(m) {
      assert NodeOk(w, tokens, r, e, m);
    }
  }

  /** The run is where it was, with a value for n and everything still in the stores. */
  ghost predicate OneMore<V(!new)>(w: World<V>, s: System<V>, s': System<V>, run: RunId, base: map<Name, Version>,
                                   n: Name)
  {
    && Stocking(w, s', run, base) && run in s.execs && SameStale(w, s.adapter.stores, s'.adapter.stores)
    && (Restoring(w, s, run) ==> Restoring(w, s', run))
    && var e, e' := s.execs[run], s'.execs[run];
       e'.g == e.g && e'.ctx == e.ctx && e'.slice == e.slice && e'.behaviors == e.behaviors &&
         e'.values.Keys == e.values.Keys + {n}
  }

  lemma {:induction false} ColdDone<V(!new)>(w: World<V>, s: System<V>, s1: System<V>, run: RunId,
                                             base: map<Name, Version>, n: Name, call: Outcome<V>, tokens: Tokens<V>,
                                             origins: Origins<V>, tokens': Tokens<V>, origins': Origins<V>)
    requires Inv(w, s1, tokens, origins) && ColdReady(w, s1, run, base, n) && call.Returned?
    requires Enabled(w, s1, Do(run, n, call, false))
    requires Inv(w, Apply(w, s1, Event.Do(run, n, call, false)), tokens', origins')
    ensures OneMore(w, s1, Apply(w, Apply(w, s1, Event.Do(run, n, call, false)), Post(run, n)), run, base, n)
  {
    hide *;
    ColdFacts(w, s1, run, base, n, tokens, origins);
    var a, r, e := s1.adapter, s1.adapter.runs[run], s1.execs[run];
    var version := GetDataVersion(a, r, n, GetCacheKey(r, n));
    if Retrievable(a, version) {
      ColdHit(w, s1, run, base, n, call, tokens, origins);
    } else {
      ColdMiss(w, s1, run, base, n, call, tokens, origins, tokens', origins');
    }
  }

  lemma {:induction false} ColdFacts<V(!new)>(w: World<V>, s1: System<V>, run: RunId, base: map<Name, Version>, n: Name,
                                              tokens: Tokens<V>, origins: Origins<V>)
    requires Inv(w, s1, tokens, origins) && ColdReady(w, s1, run, base, n)
    ensures run in s1.adapter.runs && run in s1.execs
    ensures n in s1.adapter.runs[run].behaviors && s1.adapter.runs[run].behaviors[n] == Default
    ensures n in s1.adapter.runs[run].codeVersions
    ensures n !in s1.adapter.runs[run].dataVersions && n !in s1.execs[run].values
    ensures s1.execs[run].Valid() && s1.execs[run].IsFunction(n) && s1.execs[run].ArgumentsReady(n)
    ensures forall m :: m in s1.execs[run].values ==> m in s1.execs[run].g.nodes && s1.execs[run].ArgumentsReady(m)
  {
    hide AllAccounted, Denotes, MetadataOk, ResultsOk, TokensDrawn, WorldValid, RunOk, PlainKey;
    var r, e := s1.adapter.runs[run], s1.execs[run];
    ValidRun(w, tokens, r, e);
    NotInMemory(w, tokens, r, e, n);
    NodeReady(w, tokens, r, e, n);
    RanReady(w, tokens, r, e);
  }

  lemma {:induction false} ColdHit<V(!new)>(w: World<V>, s1: System<V>, run: RunId, base: map<Name, Version>, n: Name,
                                            call: Outcome<V>, tokens: Tokens<V>, origins: Origins<V>)
    requires Inv(w, s1, tokens, origins) && ColdReady(w, s1, run, base, n)
    requires var r := s1.adapter.runs[run]; Retrievable(s1.adapter, GetDataVersion(s1.adapter, r, n, GetCacheKey(r, n)))
    ensures OneMore(w, s1, Apply(w, Apply(w, s1, Event.Do(run, n, call, false)), Post(run, n)), run, base, n)
  {
    hide AllAccounted, Inv, PlainKey, Compute, Exec<V>.Valid, Exec<V>.ArgumentsReady, Exec<V>.IsFunction;
    hide VersionedNames;
    var a, r, e := s1.adapter, s1.adapter.runs[run], s1.execs[run];
    ColdFacts(w, s1, run, base, n, tokens, origins);
    var version := GetDataVersion(a, r, n, GetCacheKey(r, n)).value;
    var v := a.stores.results[version];
    assert HasEntry(a.stores, PlainKey(w, e, r.dataVersions, n), version, v);
    StockOne(w, a.stores, a.stores, e, n, v, r.dataVersions, version);
    MoreVersionedNames(r, e, base.Keys, n, version, v);
    var s2 := Apply(w, s1, Event.Do(run, n, call, false));
    assert s2 == WithExec(s1, SetMemoryVersion(a, run, n, version), run, AfterDo(e, n, Returned(v)));
    assert Apply(w, s2, Post(run, n)) == s2;
    assert e.values[n := v].Keys == e.values.Keys + {n};
    if Restoring(w, s1, run) {
      SameRestores(w, a.stores, e, n, v);
      StockedOneStale(w, a.stores, a.stores, e, n, v, r.dataVersions, version);
    }
  }

  lemma SameRestores<V(!new)>(w: World<V>, stores: Stores<V>, e: Exec<V>, n: Name, v: V)
    requires Restores(w, stores, e)
    ensures Restores(w, stores, AfterDo(e, n, Returned(v)))
  {
    hide Reserved, SafeName;
  }

  lemma {:induction false} ColdMiss<V(!new)>(w: World<V>, s1: System<V>, run: RunId, base: map<Name, Version>, n: Name,
                                             call: Outcome<V>, tokens: Tokens<V>, origins: Origins<V>,
                                             tokens': Tokens<V>, origins': Origins<V>)
    requires Inv(w, s1, tokens, origins) && ColdReady(w, s1, run, base, n) && call.Returned?
    requires Enabled(w, s1, Do(run, n, call, false))
    requires var r := s1.adapter.runs[run];
        !Retrievable(s1.adapter, GetDataVersion(s1.adapter, r, n, GetCacheKey(r, n)))
    requires Inv(w, Apply(w, s1, Event.Do(run, n, call, false)), tokens', origins')
    ensures OneMore(w, s1, Apply(w, Apply(w, s1, Event.Do(run, n, call, false)), Post(run, n)), run, base, n)
  {
    hide *;
    ColdFacts(w, s1, run, base, n, tokens, origins);
    ColdMissState(w, s1, run, base, n, call);
    var s2, version := Apply(w, s1, Event.Do(run, n, call, false)), VersionData(w, call.value, s1.adapter.uuids).0;
    MissedAgrees(w, s1, s2, run, n, call.value, version, tokens', origins');
    MissedEntry(w, s1, run, base, n, call, tokens, origins);
    MissStocks(w, s1, s2, run, base, n, call.value, version);
  }

  /** A stale entry is for another version than the new one; where results are restored no other old entry is. */
  lemma {:induction false} MissedEntry<V(!new)>(w: World<V>, s1: System<V>, run: RunId, base: map<Name, Version>,
                                                n: Name, call: Outcome<V>, tokens: Tokens<V>, origins: Origins<V>)
    requires Inv(w, s1, tokens, origins) && ColdReady(w, s1, run, base, n) && call.Returned?
    requires Enabled(w, s1, Do(run, n, call, false))
    ensures var a, version := s1.adapter, VersionData(w, call.value, s1.adapter.uuids).0;
            var key := PlainKey(w, s1.execs[run], a.runs[run].dataVersions, n);
            && (forall k :: Stale(w, a.stores, k) ==> a.stores.metadata[Some(k)] != version)
            && (Restores(w, a.stores, s1.execs[run]) && Some(key) in a.stores.metadata ==>
                  a.stores.metadata[Some(key)] in a.stores.results || w.overwrites || Stale(w, a.stores, key)
                  || a.stores.metadata[Some(key)] == version)
  {
    hide Denotes, RunOk, TokensDrawn, WorldValid, ResultsOk, PlainKey, AllAccounted, VersionData;
    hide Exec<V>.Valid, DepsOk, OriginOk, CanReturn;
    hide DefaultsDeterministic, CreateCacheKey, VersionedNames;
    var a, r, e, v := s1.adapter, s1.adapter.runs[run], s1.execs[run], call.value;
    var key := PlainKey(w, e, r.dataVersions, n);
    forall k | Stale(w, a.stores, k) ensures a.stores.metadata[Some(k)] != VersionData(w, v, a.uuids).0 {
      assert OriginOk(w, tokens, k, a.stores.metadata[Some(k)], origins[k]);
      MadeUpIsOld(w, tokens, a.uuids, k, a.stores.metadata[Some(k)], origins[k], v);
    }
    if Some(key) in a.stores.metadata && !Reserved(a.stores.metadata[Some(key)])
       && a.stores.metadata[Some(key)] !in a.stores.results && !w.overwrites && Restores(w, a.stores, e) {
      assert OriginOk(w, tokens, key, a.stores.metadata[Some(key)], origins[key]);
      ValidRun(w, tokens, r, e);
      NodeReady(w, tokens, r, e, n);
      assert DefaultsDeterministic(w, e);
      SamePrint(w, tokens, a.uuids, e, n, e.phases[n].deps, a.stores.metadata[Some(key)], v, origins[key]);
    }
  }

  /** A made-up version on record is not the one made up next. */
  lemma MadeUpIsOld<V(!new)>(w: World<V>, tokens: Tokens<V>, uuids: nat, key: string, kept: Version, o: Origin<V>, v: V)
    requires WorldValid(w) && TokensDrawn(w, tokens, uuids) && OriginOk(w, tokens, key, kept, o) && Reserved(kept)
    ensures TokenDrawn(w, kept, uuids) && VersionData(w, v, uuids).0 != kept
  {
    DrawnIsNotNext(w, kept, uuids, v);
  }

  lemma DrawnIsNotNext<V(!new)>(w: World<V>, kept: Version, uuids: nat, v: V)
    requires WorldValid(w) && Reserved(kept)
    ensures TokenDrawn(w, kept, uuids) ==> VersionData(w, v, uuids).0 != kept
  {
    if TokenDrawn(w, kept, uuids) {
      var k: nat :| k < uuids && (kept == UNHASHABLE_PREFIX + w.uuid(k) || kept == DISABLE_PREFIX + w.uuid(k));
      TokenOfUuid(w, k, uuids);
      TokenOfUuid(w, uuids, k);
    }
  }

  /** Where functions are deterministic, the fingerprint on record under n's key is that of n's result. */
  lemma SamePrint<V(!new)>(w: World<V>, tokens: Tokens<V>, uuids: nat, e: Exec<V>, n: Name, deps: Dict<Name, Version>,
                           kept: Version, v: V, o: Origin<V>)
    requires WorldValid(w) && TokensDrawn(w, tokens, uuids)
    requires e.Valid() && AllDefault(e) && DefaultsDeterministic(w, e)
    requires n in e.g.nodes && n in e.behaviors && DepsOk(w, tokens, e, n, deps) && CanReturn(w, e, n, v)
    requires OriginOk(w, tokens, CreateCacheKey(w.platform, n, e.g.nodes[n].code, deps), kept, o) && !Reserved(kept)
    ensures VersionData(w, v, uuids).0 == kept
  {
    RetrievedIsSound(w, tokens, uuids, e, n, deps, kept, o.value, o);
    DeterministicResult(w, e, n, o.value, v);
    hide Exec<V>.Valid, DepsOk, DefaultsDeterministic, Sound, CanReturn, Matches, CreateCacheKey;
    if kept in tokens {
      DrawnIsReserved(w, kept, uuids);
    }
  }

  /** Two values a deterministic DEFAULT node's code can return on its arguments are one. */
  lemma DeterministicResult<V(!new)>(w: World<V>, e: Exec<V>, n: Name, a: V, b: V)
    requires AllDefault(e) && DefaultsDeterministic(w, e) && n in e.g.nodes && n in e.behaviors
    requires Sound(w, e, n, a) && CanReturn(w, e, n, b)
    ensures a == b
  {
    hide Exec<V>.Args, SafeName, MapOf;
    var args :| SoundWith(w, e, n, a, args);
    assert args == MapOf(e.Args(n));
  }

  /** n has run, and its version is on record; its result is not stored yet. */
  ghost predicate Missed<V>(w: World<V>, s1: System<V>, s2: System<V>, run: RunId, n: Name, v: V, version: Version)
    requires run in s1.execs && run in s1.adapter.runs
  {
    var a, r, e := s1.adapter, s1.adapter.runs[run], s1.execs[run];
    && run in s2.execs && run in s2.adapter.runs
    && n in r.behaviors && r.behaviors[n] == Default
    && (GetCacheKey(r, n) in a.stores.metadata ==> a.stores.metadata[GetCacheKey(r, n)] !in a.stores.results)
    && s2.execs[run] == AfterDo(e, n, Returned(v))
    && s2.adapter.runs[run] == r.(dataVersions := r.dataVersions[n := version])
    && s2.adapter.stores == Stores(MetadataSet(w, a.stores.metadata, GetCacheKey(r, n), version), a.stores.results)
  }

  lemma ColdMissState<V(!new)>(w: World<V>, s1: System<V>, run: RunId, base: map<Name, Version>, n: Name,
                               call: Outcome<V>)
    requires run in s1.execs && run in s1.adapter.runs && n in s1.adapter.runs[run].behaviors
    requires n in s1.adapter.runs[run].codeVersions
    requires ColdReady(w, s1, run, base, n) && call.Returned?
    requires s1.adapter.runs[run].behaviors[n] == Default && n !in s1.adapter.runs[run].dataVersions
    requires n !in s1.execs[run].values
    requires var r := s1.adapter.runs[run];
        !Retrievable(s1.adapter, GetDataVersion(s1.adapter, r, n, GetCacheKey(r, n)))
    ensures Missed(w, s1, Apply(w, s1, Event.Do(run, n, call, false)), run, n, call.value,
        VersionData(w, call.value, s1.adapter.uuids).0)
    ensures Hookable(Apply(w, s1, Event.Do(run, n, call, false)), Post(run, n))
  {
    hide AllAccounted, PlainKey, VersionData, VersionedNames, AllDefault, Restores;
    var a, r, e := s1.adapter, s1.adapter.runs[run], s1.execs[run];
    var key := GetCacheKey(r, n);
    var s2 := Apply(w, s1, Event.Do(run, n, call, false));
    assert s2 == WithExec(s1, RecordResult(w, a, run, n, key, call.value), run, AfterDo(e, n, call));
  }

  lemma {:induction false} MissStocks<V(!new)>(w: World<V>, s1: System<V>, s2: System<V>, run: RunId,
                                               base: map<Name, Version>, n: Name, v: V, version: Version)
    requires run in s1.execs && run in s1.adapter.runs && Missed(w, s1, s2, run, n, v, version)
    requires ColdReady(w, s1, run, base, n)
    requires s1.execs[run].Valid() && s1.execs[run].IsFunction(n) && s1.execs[run].ArgumentsReady(n)
    requires n !in s1.adapter.runs[run].dataVersions && n !in s1.execs[run].values
    requires forall m :: m in s1.execs[run].values ==> m in s1.execs[run].g.nodes && s1.execs[run].ArgumentsReady(m)
    requires Hookable(s2, Post(run, n))
    requires version in s2.adapter.stores.results ==> s2.adapter.stores.results[version] == v
    requires forall k :: Stale(w, s1.adapter.stores, k) ==> s1.adapter.stores.metadata[Some(k)] != version
    requires var key := PlainKey(w, s1.execs[run], s1.adapter.runs[run].dataVersions, n);
             Restores(w, s1.adapter.stores, s1.execs[run]) && Some(key) in s1.adapter.stores.metadata ==>
               s1.adapter.stores.metadata[Some(key)] in s1.adapter.stores.results || w.overwrites
               || Stale(w, s1.adapter.stores, key) || s1.adapter.stores.metadata[Some(key)] == version
    ensures OneMore(w, s1, Apply(w, s2, Post(run, n)), run, base, n)
  {
    hide AllAccounted, PlainKey, Exec<V>.Valid, Exec<V>.ArgumentsReady, Exec<V>.IsFunction, VersionedNames;
    hide StoresGrow, Stale, OtherIsStale, KeepsOther;
    hide Restores, HasEntry, SameStale, MetadataSet;
    var a, r, e := s1.adapter, s1.adapter.runs[run], s1.execs[run];
    var key := PlainKey(w, e, r.dataVersions, n);
    var s3 := Apply(w, s2, Post(run, n));
    assert s3.adapter.stores == Stores(MetadataSet(w, a.stores.metadata, Some(key), version),
             if version in a.stores.results then a.stores.results else a.stores.results[version := v]);
    MissedStores(w, a.stores, s3.adapter.stores, key, version, v);
    GrownIsSame(w, a.stores, s3.adapter.stores);
    StockOne(w, a.stores, s3.adapter.stores, e, n, v, r.dataVersions, version);
    MoreVersionedNames(r, e, base.Keys, n, version, v);
    assert e.values[n := v].Keys == e.values.Keys + {n};
    if Restoring(w, s1, run) {
      MissRestores(w, a.stores, s3.adapter.stores, e, n, v, r.dataVersions, version);
    }
  }

  lemma {:induction false} MissRestores<V(!new)>(w: World<V>, stores: Stores<V>, stores': Stores<V>, e: Exec<V>,
                                                 n: Name, v: V, versions: map<Name, Version>, version: Version)
    requires e.Valid() && AllAccounted(w, stores, e, versions) && e.IsFunction(n) && n !in e.values
    requires e.ArgumentsReady(n) && (forall m :: m in e.values ==> m in e.g.nodes && e.ArgumentsReady(m))
    requires Restores(w, stores, e) && OtherIsStale(w, stores, e, versions) && StoresGrow(w, stores, stores')
    requires var key := PlainKey(w, e, versions, n);
             && stores' == Stores(MetadataSet(w, stores.metadata, Some(key), version),
                  if version in stores.results then stores.results else stores.results[version := v])
             && (KeepsOther(w, stores', key, version) ==> KeepsOther(w, stores, key, version))
             && (Some(key) in stores.metadata ==>
                   && stores.metadata[Some(key)] !in stores.results
                   && (stores.metadata[Some(key)] in stores.results || w.overwrites || Stale(w, stores, key)
                       || stores.metadata[Some(key)] == version))
    ensures Restores(w, stores', AfterDo(e, n, Returned(v)))
    ensures OtherIsStale(w, stores', AfterDo(e, n, Returned(v)), versions[n := version])
  {
    hide PlainKey, Exec<V>.ArgumentsReady, Exec<V>.Valid, Exec<V>.IsFunction, Stale, Restores, AllAccounted;
    hide OtherIsStale, MetadataSet;
    NodeOfFunction(e, n);
    var key := PlainKey(w, e, versions, n);
    StillRestores(w, stores, stores', e, n, v, key, version);
    StockedOneStale(w, stores, stores', e, n, v, versions, version);
  }

  lemma GrownIsSame<V>(w: World<V>, stores: Stores<V>, stores': Stores<V>)
    requires StoresGrow(w, stores, stores')
    ensures SameStale(w, stores, stores')
  {}

  lemma MissedStores<V>(w: World<V>, stores: Stores<V>, stores': Stores<V>, key: string, version: Version, v: V)
    requires stores' == Stores(MetadataSet(w, stores.metadata, Some(key), version),
               if version in stores.results then stores.results else stores.results[version := v])
    requires version in stores.results ==> stores.results[version] == v
    requires Some(key) in stores.metadata ==> stores.metadata[Some(key)] !in stores.results
    requires forall k :: Stale(w, stores, k) ==> stores.metadata[Some(k)] != version
    ensures StoresGrow(w, stores, stores')
    ensures HasEntry(stores', key, version, v) || KeepsOther(w, stores', key, version)
    ensures KeepsOther(w, stores', key, version) ==> KeepsOther(w, stores, key, version)
  {
    hide Reserved;
  }

  lemma StillRestores<V(!new)>(w: World<V>, stores: Stores<V>, stores': Stores<V>, e: Exec<V>, n: Name, v: V,
                               key: string, version: Version)
    requires Restores(w, stores, e)
    requires stores' == Stores(MetadataSet(w, stores.metadata, Some(key), version),
               if version in stores.results then stores.results else stores.results[version := v])
    ensures Restores(w, stores', AfterDo(e, n, Returned(v)))
  {
    hide Reserved, SafeName;
  }

  lemma {:induction false} MissedAgrees<V(!new)>(w: World<V>, s1: System<V>, s2: System<V>, run: RunId, n: Name, v: V,
                                                 version: Version, tokens: Tokens<V>, origins: Origins<V>)
    requires run in s1.execs && run in s1.adapter.runs && Missed(w, s1, s2, run, n, v, version)
    requires Inv(w, s2, tokens, origins)
    ensures version in s2.adapter.stores.results ==> s2.adapter.stores.results[version] == v
  {
    hide Inv, MetadataSet;
    ResultAgrees(w, s2, run, n, version, v, tokens, origins);
  }

  /** A result already stored under the new version is the new result. */
  lemma {:induction false} ResultAgrees<V(!new)>(w: World<V>, s2: System<V>, run: RunId, n: Name, version: Version,
                                                 v: V, tokens: Tokens<V>, origins: Origins<V>)
    requires Inv(w, s2, tokens, origins) && run in s2.execs && run in s2.adapter.runs
    requires n in s2.execs[run].phases && n in s2.execs[run].values && s2.execs[run].values[n] == v
    requires n in s2.adapter.runs[run].dataVersions && s2.adapter.runs[run].dataVersions[n] == version
    ensures version in s2.adapter.stores.results ==> s2.adapter.stores.results[version] == v
  {
    hide Denotes, RunOk, TokensDrawn, WorldValid, MetadataOk;
    RanHasVersion(w, tokens, s2.adapter.runs[run], s2.execs[run], n);
    if version in s2.adapter.stores.results {
      DenotesUnique(w, tokens, s2.adapter.uuids, version, v, s2.adapter.stores.results[version]);
    }
  }

  // ---------------------------------------------------------------- the two runs together

  ghost function RunNodes<V(!new)>(w: World<V>, s: System<V>, run: RunId, steps: seq<(Name, Outcome<V>)>): System<V> {
    if steps == [] then s
    else
      var n := |steps| - 1;
      RunNode(w, RunNodes(w, s, run, steps[..n]), run, steps[n].0, steps[n].1)
  }

  /** The steps run one node after another, each returning a value. */
  ghost predicate AllRun<V(!new)>(w: World<V>, s: System<V>, run: RunId, steps: seq<(Name, Outcome<V>)>) {
    steps == [] ||
    var n := |steps| - 1;
    AllRun(w, s, run, steps[..n]) && NodeRuns(w, RunNodes(w, s, run, steps[..n]), run, steps[n].0, steps[n].1)
  }

  lemma {:induction false} ColdRun<V(!new)>(w: World<V>, s: System<V>, run: RunId, base: map<Name, Version>,
                                            steps: seq<(Name, Outcome<V>)>, tokens: Tokens<V>, origins: Origins<V>)
    returns (tokens': Tokens<V>, origins': Origins<V>)
    requires Inv(w, s, tokens, origins) && Stocking(w, s, run, base) && AllRun(w, s, run, steps)
    requires AllDefault(s.execs[run]) && GivenHashable(w, s.execs[run])
    ensures Inv(w, RunNodes(w, s, run, steps), tokens', origins')
    ensures Stocking(w, RunNodes(w, s, run, steps), run, base)
    ensures Restoring(w, s, run) ==> Restoring(w, RunNodes(w, s, run, steps), run)
    ensures SameStale(w, s.adapter.stores, RunNodes(w, s, run, steps).adapter.stores)
    ensures var e, e' := s.execs[run], RunNodes(w, s, run, steps).execs[run];
            e'.g == e.g && e'.ctx == e.ctx && e'.slice == e.slice && e'.behaviors == e.behaviors
  {
    hide Inv, AllAccounted, VersionedNames, RunNode, NodeRuns, Restoring, Stale;
    tokens', origins' := tokens, origins;
    if steps != [] {
      var n := |steps| - 1;
      tokens', origins' := ColdRun(w, s, run, base, steps[..n], tokens, origins);
      var before := RunNodes(w, s, run, steps[..n]);
      tokens', origins' := ColdNode(w, before, run, base, steps[n].0, steps[n].1, tokens', origins');
    }
  }

  /** Hashable values get the same versions whatever uuids were drawn before. */
  lemma {:induction false} HashableVersions<V>(w: World<V>, versions: map<Name, Version>, values: Dict<Name, V>,
                                               uuids: nat)
    requires forall i :: 0 <= i < |values| ==> w.hash(values[i].1) != UNHASHABLE
    ensures VersionAll(w, versions, values, uuids) == (VersionAll(w, versions, values, 0).0, uuids)
    decreases |values|
  {
    if values != [] {
      HashableVersions(w, versions[values[0].0 := w.hash(values[0].1)], values[1..], uuids);
      HashableVersions(w, versions[values[0].0 := w.hash(values[0].1)], values[1..], 0);
    }
  }

  lemma {:induction false} VersionAllKeys<V>(w: World<V>, versions: map<Name, Version>, values: Dict<Name, V>,
                                             uuids: nat)
    ensures forall n :: n in VersionAll(w, versions, values, uuids).0 <==> n in versions || HasKey(values, n)
    decreases |values|
  {
    if values != [] {
      var (version, k) := VersionData(w, values[0].1, uuids);
      VersionAllKeys(w, versions[values[0].0 := version], values[1..], k);
      HasKeyCons(values);
    }
  }

  /** The versions a run starts with when everything given to it is hashable. */
  function BaseVersions<V>(w: World<V>, inputs: Dict<Name, V>, overrides: Dict<Name, V>): map<Name, Version> {
    VersionAll(w, VersionAll(w, map[], inputs, 0).0, overrides, 0).0
  }

  lemma GivenAreHashable<V(!new)>(w: World<V>, ev: Event<V>)
    requires ev.Start? && ev.g.Valid() && DistinctKeys(ev.inputs) && DistinctKeys(ev.overrides)
    requires GivenHashable(w, NewExec(ev.g, ev.config, ev.inputs, ev.overrides, ev.behaviors, ev.finals))
    ensures forall i :: 0 <= i < |ev.inputs| ==> w.hash(ev.inputs[i].1) != UNHASHABLE
    ensures forall i :: 0 <= i < |ev.overrides| ==> w.hash(ev.overrides[i].1) != UNHASHABLE
  {
    hide SliceOf, MapOf;
    var e := NewExec(ev.g, ev.config, ev.inputs, ev.overrides, ev.behaviors, ev.finals);
    MapOfAll(ev.inputs);
    MapOfAll(ev.overrides);
    forall i | 0 <= i < |ev.inputs| ensures w.hash(ev.inputs[i].1) != UNHASHABLE {
      assert e.ctx.inputs[ev.inputs[i].0] == ev.inputs[i].1;
    }
    forall i | 0 <= i < |ev.overrides| ensures w.hash(ev.overrides[i].1) != UNHASHABLE {
      assert e.ctx.overrides[ev.overrides[i].0] == ev.overrides[i].1;
    }
  }

  lemma StartBase<V(!new)>(w: World<V>, s: System<V>, ev: Event<V>)
    requires ev.Start? && Enabled(w, s, ev)
    requires GivenHashable(w, NewExec(ev.g, ev.config, ev.inputs, ev.overrides, ev.behaviors, ev.finals))
    ensures var s', e := Apply(w, s, ev), NewExec(ev.g, ev.config, ev.inputs, ev.overrides, ev.behaviors, ev.finals);
            var base := BaseVersions(w, ev.inputs, ev.overrides);
            && s'.adapter.stores == s.adapter.stores
            && ev.run in s'.execs && s'.execs[ev.run] == e && ev.run in s'.adapter.runs
            && s'.adapter.runs[ev.run].dataVersions == base
            && VersionedNames(s'.adapter.runs[ev.run], e, base.Keys)
            && (forall n :: n in base ==> !e.IsFunction(n))
  {
    hide SliceOf, MapOf;
    var e := NewExec(ev.g, ev.config, ev.inputs, ev.overrides, ev.behaviors, ev.finals);
    MapOfKeys(ev.inputs);
    MapOfKeys(ev.overrides);
    GivenAreHashable(w, ev);
    HashableVersions(w, map[], ev.inputs, s.adapter.uuids);
    var fromInputs := VersionAll(w, map[], ev.inputs, 0).0;
    HashableVersions(w, fromInputs, ev.overrides, s.adapter.uuids);
    VersionAllKeys(w, map[], ev.inputs, 0);
    VersionAllKeys(w, fromInputs, ev.overrides, 0);
    var base := BaseVersions(w, ev.inputs, ev.overrides);
    forall n | n in base ensures !e.IsFunction(n) {
      if HasKey(ev.overrides, n) {
        assert n in e.ctx.overrides;
      } else {
        var i :| 0 <= i < |ev.inputs| && ev.inputs[i].0 == n;
      }
    }
    forall n | n in e.ctx.overrides ensures n in base {
      assert HasKey(ev.overrides, n);
    }
  }

  ghost function ExecOf<V>(ev: Event<V>): Exec<V>
    requires ev.Start? && ev.g.Valid()
  {
    NewExec(ev.g, ev.config, ev.inputs, ev.overrides, ev.behaviors, ev.finals)
  }

  /** Every function node of the slice has a value. */
  ghost predicate Complete<V>(e: Exec<V>) {
    forall n :: n in e.slice && e.IsFunction(n) ==> n in e.values
  }

  /** A first run completes node by node, and a second run is given the same things. */
  ghost predicate SameRunTwice<V(!new)>(w: World<V>, s0: System<V>, first: Event<V>, steps: seq<(Name, Outcome<V>)>,
                                        second: Event<V>)
  {
    && first.Start? && second.Start?
    && second == Start(second.run, first.g, first.config, first.inputs, first.overrides, first.behaviors, first.finals)
    && Enabled(w, s0, first)
    && AllDefault(ExecOf(first)) && GivenHashable(w, ExecOf(first))
    && var s1 := Apply(w, s0, first);
       var done := RunNodes(w, s1, first.run, steps);
       && AllRun(w, s1, first.run, steps)
       && first.run in done.execs && first.run in done.adapter.runs && Complete(done.execs[first.run])
       && Enabled(w, done, second)
  }

  /** After the first run, n's entry is for another version than the run recorded. */
  ghost predicate OtherAtEnd<V(!new)>(w: World<V>, done: System<V>, first: RunId, n: Name)
    requires first in done.execs && first in done.adapter.runs
  {
    var e, versions := done.execs[first], done.adapter.runs[first].dataVersions;
    && n in e.g.nodes && n in e.values && n in versions
    && KeepsOther(w, done.adapter.stores, PlainKey(w, e, versions, n), versions[n])
  }

  /**
   * The second of two like runs, in whatever order its hooks come, calls nothing and gets the first run's versions
   * exactly if it executes no node whose entry is for another version than the first run recorded. It then writes
   * nothing, and its values are the first run's too. Nothing is assumed of the functions or the stores.
   */
  lemma {:induction false} SecondRunRepeats<V(!new)>(w: World<V>, s0: System<V>, tokens: Tokens<V>, origins: Origins<V>,
                                                     first: Event<V>, steps: seq<(Name, Outcome<V>)>, second: Event<V>,
                                                     events: seq<Event<V>>)
    requires Inv(w, s0, tokens, origins) && SameRunTwice(w, s0, first, steps, second)
    requires RunsOn(w, Apply(w, RunNodes(w, Apply(w, s0, first), first.run, steps), second), second.run, events)
    ensures var done := RunNodes(w, Apply(w, s0, first), first.run, steps);
            var s2 := Apply(w, done, second);
            && first.run in done.execs && first.run in done.adapter.runs
            && (Repeats(w, s2, second.run, done.adapter.runs[first.run].dataVersions, events) <==>
                  forall i :: 0 <= i < |events| && events[i].Do? ==> !OtherAtEnd(w, done, first.run, events[i].node))
            && (Repeats(w, s2, second.run, done.adapter.runs[first.run].dataVersions, events) ==>
                  && ApplyAll(w, s2, events).adapter.stores == done.adapter.stores
                  && SameAnswers(done, first.run, ApplyAll(w, s2, events), second.run))
  {
    assert first.Start? && second.Start?;
    hide *;
    var done := RunNodes(w, Apply(w, s0, first), first.run, steps);
    var s2 := Apply(w, done, second);
    var base, versions := FirstRunStocks(w, s0, tokens, origins, first, steps, second);
    WarmRunRepeats(w, s2, second.run, done.execs[first.run], versions, base.Keys, events);
    OtherSinceEnd(w, done, first.run, s2.adapter.stores, events);
    if Repeats(w, s2, second.run, versions, events) {
      WarmAnswers(w, done, first.run, ApplyAll(w, s2, events), second.run, versions, base.Keys);
    }
  }

  lemma OtherSinceEnd<V(!new)>(w: World<V>, done: System<V>, first: RunId, stores: Stores<V>, events: seq<Event<V>>)
    requires first in done.execs && first in done.adapter.runs && stores == done.adapter.stores
    ensures var e, versions := done.execs[first], done.adapter.runs[first].dataVersions;
            MeetsNothingOther(w, stores, e, versions, events) <==>
            forall i :: 0 <= i < |events| && events[i].Do? ==> !OtherAtEnd(w, done, first, events[i].node)
  {
    hide KeepsOther, PlainKey;
  }

  /** The key of n in the first run was stale when that run began. */
  ghost predicate StaleAtStart<V(!new)>(w: World<V>, s0: System<V>, done: System<V>, first: RunId, n: Name)
    requires first in done.execs && first in done.adapter.runs
  {
    var e := done.execs[first];
    n in e.g.nodes && n in e.values &&
      Stale(w, s0.adapter.stores, PlainKey(w, e, done.adapter.runs[first].dataVersions, n))
  }

  /**
   * If the metadata store overwrites, or functions are deterministic, or no fingerprint on record had lost its result,
   * the second of two like runs, in whatever order its hooks come, calls a function exactly if it executes a node
   * whose key was stale before the first run. If it calls none it writes nothing and repeats the first run's values
   * and data versions.
   */
  lemma {:induction false} SecondRunCallsOnlyStale<V(!new)>(w: World<V>, s0: System<V>, tokens: Tokens<V>,
                                                            origins: Origins<V>, first: Event<V>,
                                                            steps: seq<(Name, Outcome<V>)>, second: Event<V>,
                                                            events: seq<Event<V>>)
    requires Inv(w, s0, tokens, origins) && SameRunTwice(w, s0, first, steps, second)
    requires Restores(w, s0.adapter.stores, ExecOf(first))
    requires RunsOn(w, Apply(w, RunNodes(w, Apply(w, s0, first), first.run, steps), second), second.run, events)
    ensures var done := RunNodes(w, Apply(w, s0, first), first.run, steps);
            var s2 := Apply(w, done, second);
            var end := ApplyAll(w, s2, events);
            && first.run in done.execs && first.run in done.adapter.runs
            && (CallsNothing(w, s2, second.run, events) <==>
                  forall i :: 0 <= i < |events| && events[i].Do? ==>
                      !StaleAtStart(w, s0, done, first.run, events[i].node))
            && (CallsNothing(w, s2, second.run, events) ==>
                  end.adapter.stores == done.adapter.stores && SameAnswers(done, first.run, end, second.run))
  {
    assert first.Start? && second.Start?;
    hide *;
    var s1 := Apply(w, s0, first);
    var done := RunNodes(w, s1, first.run, steps);
    var s2 := Apply(w, done, second);
    var base, versions := FirstRunStocks(w, s0, tokens, origins, first, steps, second);
    WarmRunCallsOnlyStale(w, s2, second.run, done.execs[first.run], versions, base.Keys, events);
    StaleSinceStart(w, s0, done, first.run, s2.adapter.stores, events);
    if CallsNothing(w, s2, second.run, events) {
      WarmAnswers(w, done, first.run, ApplyAll(w, s2, events), second.run, versions, base.Keys);
    }
  }

  lemma StaleSinceStart<V(!new)>(w: World<V>, s0: System<V>, done: System<V>, first: RunId, stores: Stores<V>,
                                 events: seq<Event<V>>)
    requires first in done.execs && first in done.adapter.runs && SameStale(w, s0.adapter.stores, stores)
    ensures var e, versions := done.execs[first], done.adapter.runs[first].dataVersions;
            MeetsNothingStale(w, stores, e, versions, events) <==>
            forall i :: 0 <= i < |events| && events[i].Do? ==> !StaleAtStart(w, s0, done, first, events[i].node)
  {
    hide Stale, PlainKey;
  }

  /** Every function node of the slice is executed. */
  ghost predicate DoesAll<V>(e: Exec<V>, events: seq<Event<V>>) {
    forall n :: n in e.slice && e.IsFunction(n) ==>
        exists i :: 0 <= i < |events| && events[i].Do? && events[i].node == n
  }

  /** No function node of the slice had a stale key before the first run. */
  ghost predicate NothingStale<V(!new)>(w: World<V>, s0: System<V>, done: System<V>, first: RunId)
    requires first in done.execs && first in done.adapter.runs
  {
    forall n :: n in done.execs[first].slice && done.execs[first].IsFunction(n) ==> !StaleAtStart(w, s0, done, first, n)
  }

  /**
   * So a second run that goes through its whole slice calls nothing exactly if no key of the slice was
   * stale before the first run; and if none was, no part of a second run calls anything.
   */
  lemma {:induction false} SecondRunCallsNothing<V(!new)>(w: World<V>, s0: System<V>, tokens: Tokens<V>,
                                                          origins: Origins<V>, first: Event<V>,
                                                          steps: seq<(Name, Outcome<V>)>, second: Event<V>,
                                                          events: seq<Event<V>>)
    requires Inv(w, s0, tokens, origins) && SameRunTwice(w, s0, first, steps, second)
    requires Restores(w, s0.adapter.stores, ExecOf(first))
    requires RunsOn(w, Apply(w, RunNodes(w, Apply(w, s0, first), first.run, steps), second), second.run, events)
    ensures var done := RunNodes(w, Apply(w, s0, first), first.run, steps);
            var s2 := Apply(w, done, second);
            && first.run in done.execs && first.run in done.adapter.runs
            && (NothingStale(w, s0, done, first.run) ==>
                  && CallsNothing(w, s2, second.run, events)
                  && ApplyAll(w, s2, events).adapter.stores == done.adapter.stores
                  && SameAnswers(done, first.run, ApplyAll(w, s2, events), second.run))
            && (DoesAll(done.execs[first.run], events) ==>
                  (CallsNothing(w, s2, second.run, events) <==> NothingStale(w, s0, done, first.run)))
  {
    assert first.Start? && second.Start?;
    hide *;
    SecondRunCallsOnlyStale(w, s0, tokens, origins, first, steps, second, events);
    var done := RunNodes(w, Apply(w, s0, first), first.run, steps);
    var base, versions := FirstRunStocks(w, s0, tokens, origins, first, steps, second);
    SliceDecides(w, s0, done, first.run, events);
  }

  /** Only nodes of the slice could have had stale keys, and going through the slice meets them all. */
  lemma SliceDecides<V(!new)>(w: World<V>, s0: System<V>, done: System<V>, first: RunId, events: seq<Event<V>>)
    requires first in done.execs && first in done.adapter.runs
    requires forall n :: n in done.execs[first].values ==>
        n in done.execs[first].slice && done.execs[first].IsFunction(n)
    ensures NothingStale(w, s0, done, first) ==>
              forall i :: 0 <= i < |events| && events[i].Do? ==> !StaleAtStart(w, s0, done, first, events[i].node)
    ensures DoesAll(done.execs[first], events) ==>
              ((forall i :: 0 <= i < |events| && events[i].Do? ==>
                !StaleAtStart(w, s0, done, first, events[i].node)) <==>
               NothingStale(w, s0, done, first))
  {
    hide Stale, PlainKey;
    if DoesAll(done.execs[first], events)
       && forall i :: 0 <= i < |events| && events[i].Do? ==> !StaleAtStart(w, s0, done, first, events[i].node) {
      forall n | n in done.execs[first].slice && done.execs[first].IsFunction(n)
        ensures !StaleAtStart(w, s0, done, first, n)
      {
        var i :| 0 <= i < |events| && events[i].Do? && events[i].node == n;
      }
    }
  }

  /** Values and data versions of one run are those of another. */
  ghost predicate SameAnswers<V>(done: System<V>, first: RunId, end: System<V>, second: RunId) {
    && first in done.execs && first in done.adapter.runs && second in end.execs && second in end.adapter.runs
    && (forall n :: n in end.execs[second].values ==>
          && n in done.execs[first].values && end.execs[second].values[n] == done.execs[first].values[n])
    && (forall n :: n in end.adapter.runs[second].dataVersions ==>
          && n in done.adapter.runs[first].dataVersions
          && end.adapter.runs[second].dataVersions[n] == done.adapter.runs[first].dataVersions[n])
  }

  lemma WarmAnswers<V(!new)>(w: World<V>, done: System<V>, first: RunId, end: System<V>, second: RunId,
                             versions: map<Name, Version>, given: set<Name>)
    requires first in done.execs && first in done.adapter.runs && versions == done.adapter.runs[first].dataVersions
    requires WarmRun(w, end, second, done.execs[first], versions, given)
    ensures SameAnswers(done, first, end, second)
  {}

  /** Where the first run leaves things, the second is warm. */
  lemma {:induction false} FirstRunStocks<V(!new)>(w: World<V>, s0: System<V>, tokens: Tokens<V>, origins: Origins<V>,
                                                   first: Event<V>, steps: seq<(Name, Outcome<V>)>, second: Event<V>)
    returns (base: map<Name, Version>, versions: map<Name, Version>)
    requires Inv(w, s0, tokens, origins) && SameRunTwice(w, s0, first, steps, second)
    ensures var done := RunNodes(w, Apply(w, s0, first), first.run, steps);
            && first.run in done.execs && first.run in done.adapter.runs
            && versions == done.adapter.runs[first.run].dataVersions
            && AllDefault(done.execs[first.run]) && GivenHashable(w, done.execs[first.run])
            && WarmRun(w, Apply(w, done, second), second.run, done.execs[first.run], versions, base.Keys)
            && Apply(w, done, second).adapter.stores == done.adapter.stores
            && SameStale(w, s0.adapter.stores, done.adapter.stores)
            && (Restores(w, s0.adapter.stores, ExecOf(first)) ==>
                  OtherIsStale(w, done.adapter.stores, done.execs[first.run], versions))
            && (forall n :: n in done.execs[first.run].values ==>
                 n in done.execs[first.run].slice && done.execs[first.run].IsFunction(n))
  {
    assert first.Start? && second.Start? && ExecOf(second) == ExecOf(first);
    hide Inv, RunNodes, AllRun, Apply, Enabled, Stocking, ExecOf, AllDefault, GivenHashable, Restores;
    hide BaseVersions, WarmRun, SameStale, OtherIsStale;
    var done := RunNodes(w, Apply(w, s0, first), first.run, steps);
    base := BaseVersions(w, first.inputs, first.overrides);
    versions := done.adapter.runs[first.run].dataVersions;
    var tokens', origins' := ColdStart(w, s0, tokens, origins, first, steps);
    SameGiven(w, ExecOf(first), done.execs[first.run]);
    FinishedRun(w, done, first.run, tokens', origins');
    WarmStart(w, done, tokens', origins', first.run, second);
  }

  lemma SameGiven<V(!new)>(w: World<V>, e: Exec<V>, e': Exec<V>)
    requires e'.g == e.g && e'.ctx == e.ctx && e'.slice == e.slice && e'.behaviors == e.behaviors
    ensures AllDefault(e) ==> AllDefault(e')
    ensures GivenHashable(w, e) ==> GivenHashable(w, e')
  {}

  /** The first run leaves what it computed in the stores. */
  lemma {:induction false} ColdStart<V(!new)>(w: World<V>, s0: System<V>, tokens: Tokens<V>, origins: Origins<V>,
                           first: Event<V>, steps: seq<(Name, Outcome<V>)>)
    returns (tokens': Tokens<V>, origins': Origins<V>)
    requires Inv(w, s0, tokens, origins) && first.Start? && Enabled(w, s0, first)
    requires first.g.Valid() && AllDefault(ExecOf(first)) && GivenHashable(w, ExecOf(first))
    requires AllRun(w, Apply(w, s0, first), first.run, steps)
    ensures var done := RunNodes(w, Apply(w, s0, first), first.run, steps);
            && Inv(w, done, tokens', origins')
            && Stocking(w, done, first.run, BaseVersions(w, first.inputs, first.overrides))
            && SameStale(w, s0.adapter.stores, done.adapter.stores)
            && (Restores(w, s0.adapter.stores, ExecOf(first)) ==> Restoring(w, done, first.run))
            && first.run in done.execs
            && var e, e' := ExecOf(first), done.execs[first.run];
               e'.g == e.g && e'.ctx == e.ctx && e'.slice == e.slice && e'.behaviors == e.behaviors
  {
    hide Inv, SliceOf, Stocked, RunNodes, AllRun, VersionedNames, Apply, Enabled, BaseVersions, Restores;
    hide AllDefault, GivenHashable, SameStale;
    var s1 := Apply(w, s0, first);
    StartBase(w, s0, first);
    assert AllAccounted(w, s1.adapter.stores, s1.execs[first.run], s1.adapter.runs[first.run].dataVersions);
    assert Stocking(w, s1, first.run, BaseVersions(w, first.inputs, first.overrides));
    assert Restores(w, s0.adapter.stores, ExecOf(first)) ==> Restoring(w, s1, first.run);
    hide AllAccounted, Restoring;
    var tokens1 := StartOk(w, s0, first, tokens, origins);
    tokens', origins' := ColdRun(w, s1, first.run, BaseVersions(w, first.inputs, first.overrides), steps, tokens1,
      origins);
  }

  /** A run given the same things as a completed one starts warm. */
  lemma {:induction false} WarmStart<V(!new)>(w: World<V>, done: System<V>, tokens: Tokens<V>, origins: Origins<V>,
                                              first: RunId, second: Event<V>)
    requires Inv(w, done, tokens, origins) && second.Start? && Enabled(w, done, second)
    requires second.g.Valid() && GivenHashable(w, ExecOf(second))
    requires Stocking(w, done, first, BaseVersions(w, second.inputs, second.overrides))
    requires first in done.execs && Complete(done.execs[first])
    requires var e, e2 := done.execs[first], ExecOf(second);
             e.g == e2.g && e.ctx == e2.ctx && e.slice == e2.slice && e.behaviors == e2.behaviors
    ensures first in done.adapter.runs
    ensures WarmRun(w, Apply(w, done, second), second.run, done.execs[first], done.adapter.runs[first].dataVersions,
                    BaseVersions(w, second.inputs, second.overrides).Keys)
    ensures Apply(w, done, second).adapter.stores == done.adapter.stores
  {
    hide Inv, SliceOf, AllAccounted, VersionedNames, Apply, Enabled, BaseVersions, Restores, GivenHashable;
    hide Exec<V>.Valid;
    StartBase(w, done, second);
    FinishedRun(w, done, first, tokens, origins);
    StartedCodes(w, done, second);
    var e, s2 := done.execs[first], Apply(w, done, second);
    assert WarmExec(s2.execs[second.run], e);
    StartedVersions(done.adapter.runs[first], s2.adapter.runs[second.run], e, s2.execs[second.run],
                    BaseVersions(w, second.inputs, second.overrides));
  }

  lemma FinishedRun<V(!new)>(w: World<V>, s: System<V>, run: RunId, tokens: Tokens<V>, origins: Origins<V>)
    requires Inv(w, s, tokens, origins) && run in s.execs
    ensures s.execs[run].Valid()
    ensures forall n :: n in s.execs[run].values ==> s.execs[run].IsFunction(n) && n in s.execs[run].slice
  {
    hide Denotes, RunOk, TokensDrawn, WorldValid, MetadataOk, ResultsOk, Exec<V>.Valid, Exec<V>.IsFunction;
    var r, e := s.adapter.runs[run], s.execs[run];
    ValidRun(w, tokens, r, e);
    forall n | n in e.values ensures e.IsFunction(n) && n in e.slice {
      ValuesHavePhases(w, tokens, r, e, n);
      NodeReady(w, tokens, r, e, n);
    }
  }

  lemma ValuesHavePhases<V(!new)>(w: World<V>, tokens: Tokens<V>, r: RunRecord, e: Exec<V>, n: Name)
    requires RunOk(w, tokens, r, e) && n in e.values
    ensures n in e.phases
  {}

  lemma StartedCodes<V(!new)>(w: World<V>, s: System<V>, ev: Event<V>)
    requires ev.Start? && Enabled(w, s, ev)
    ensures var s', e := Apply(w, s, ev), ExecOf(ev);
            && ev.run in s'.adapter.runs
            && (forall n :: n in e.slice && n in e.g.nodes && !e.g.nodes[n].external ==>
                  n in s'.adapter.runs[ev.run].codeVersions &&
                    s'.adapter.runs[ev.run].codeVersions[n] == e.g.nodes[n].code)
  {
    hide SliceOf, VersionAll, InputCodeVersions;
    var e := ExecOf(ev);
    InputCodesKeys(CodesOf(ev.g, ev.finals, e.slice), ev.inputs);
    forall n | n in e.slice && n in e.g.nodes && !e.g.nodes[n].external ensures !HasKey(ev.inputs, n) {}
  }

  lemma StartedVersions<V>(r: RunRecord, r2: RunRecord, e: Exec<V>, e2: Exec<V>, base: map<Name, Version>)
    requires VersionedNames(r, e, base.Keys) && VersionedNames(r2, e2, base.Keys)
    requires forall n :: n in base ==> n in r.dataVersions && r.dataVersions[n] == base[n]
    requires r2.dataVersions == base && e2.values == map[] && e2.phases == map[]
    requires forall n :: n in base ==> !e.IsFunction(n)
    requires forall n :: n in e.values ==> e.IsFunction(n)
    requires forall n :: n in e2.slice && n in e2.g.nodes && !e2.g.nodes[n].external ==>
               n in r2.codeVersions && r2.codeVersions[n] == e2.g.nodes[n].code
    ensures WarmVersions(r2, e2, e, r.dataVersions, base.Keys)
  {}
}
