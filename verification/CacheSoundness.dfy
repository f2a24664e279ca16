/**
 * Runs of the cached executor, over one adapter and its stores, in any order, interrupted
 * anywhere: what every reachable state keeps.
 */
module CacheSoundness {
  import opened Prelude
  import opened CacheKeys
  import opened Dataflow
  import opened Slicing
  import opened CacheProtocol

  // ---------------------------------------------------------------- runs

  /** Where a node stands in a run: prepared with these argument versions, run, or failed. */
  datatype Phase = Prepared(deps: Dict<Name, Version>) | Ran | Failed

  /** One call of `Driver.execute`: what it was given and what it has computed so far. */
  datatype Exec<!V> = Exec(
    g: Dag<V>,
    ctx: Context<V>,
    slice: set<Name>,
    behaviors: map<Name, Behavior>,
    values: map<Name, V>,
    phases: map<Name, Phase>)
  {
    /** What passes for a run: parameters of nodes are nodes, names and code versions are clean. */
    ghost predicate Valid() {
      && g.Valid()
      && slice <= g.nodes.Keys
      && behaviors.Keys == g.nodes.Keys
      && (forall n :: n in g.nodes ==> CommaFree(n))
      && (forall n :: n in g.nodes ==> NodeReadable(n))
    }

    ghost predicate NodeReadable(n: Name)
      requires n in g.nodes
    {
      && DASH !in g.nodes[n].code
      && (forall i :: 0 <= i < |g.nodes[n].defaults| ==> g.Uses(n, g.nodes[n].defaults[i].0))
    }

    predicate IsFunction(n: Name) {
      n in g.nodes && !g.nodes[n].external && n !in ctx.overrides
    }

    /** The value a consumer of n receives now, if there is one. */
    function Known(n: Name): Option<V> {
      if n in ctx.overrides then Some(ctx.overrides[n])
      else if n in g.nodes && !g.nodes[n].external then (if n in values then Some(values[n]) else None)
      else if n in ctx.inputs then Some(ctx.inputs[n])
      else None
    }

    /** All of n's dependencies have a value, or are external, optional and absent. */
    ghost predicate ArgumentsReady(n: Name)
      requires n in g.nodes && g.Valid()
    {
      forall i :: 0 <= i < |g.nodes[n].deps| ==>
        || Known(g.nodes[n].deps[i].name).Some?
        || (g.nodes[g.nodes[n].deps[i].name].external && !g.nodes[n].deps[i].required)
    }

    /** The keyword arguments built from the first k dependencies. */
    function Kwargs(n: Name, k: nat): Dict<Name, V>
      requires n in g.nodes && k <= |g.nodes[n].deps|
    {
      if k == 0 then []
      else
        var dep := g.nodes[n].deps[k - 1].name;
        Kwargs(n, k - 1) + if Known(dep).Some? then [(dep, Known(dep).value)] else []
    }

    /** What the node's function receives, defaults filled in. */
    function Args(n: Name): Dict<Name, V>
      requires n in g.nodes
    {
      ResolveDefaults(g.nodes[n].defaults, Kwargs(n, |g.nodes[n].deps|))
    }
  }

  datatype System<!V> = System(adapter: Adapter<V>, execs: map<RunId, Exec<V>>)

  // ---------------------------------------------------------------- soundness of one value

  /** The two argument mappings agree except on dependencies whose behavior is IGNORE. */
  predicate AgreeOutsideIgnored<V(==)>(behaviors: map<Name, Behavior>, a: map<Name, V>, b: map<Name, V>) {
    && a.Keys == b.Keys
    && (forall d :: d in a && !(d in behaviors && behaviors[d] == Ignore) ==> a[d] == b[d])
  }

  ghost predicate SoundWith<V(!new)>(w: World<V>, e: Exec<V>, n: Name, v: V, args: map<Name, V>)
    requires n in e.g.nodes
  {
    && w.can(SafeName(w.platform, n), e.g.nodes[n].code, args, v)
    && AgreeOutsideIgnored(e.behaviors, args, MapOf(e.Args(n)))
  }

  /** v is what n's code can return on n's arguments, up to arguments declared irrelevant. */
  ghost predicate Sound<V(!new)>(w: World<V>, e: Exec<V>, n: Name, v: V)
    requires n in e.g.nodes
  {
    exists args :: SoundWith(w, e, n, v, args)
  }

  // ---------------------------------------------------------------- the invariant

  /** How a metadata entry came about. */
  datatype Origin<+V> = Origin(name: Name, code: string, deps: Dict<Name, Version>, args: map<Name, V>, value: V)

  /** These versions stand for these arguments; "<ignore>" stands for any. */
  ghost predicate Matches<V(!new)>(w: World<V>, tokens: Tokens<V>, deps: Dict<Name, Version>, args: map<Name, V>) {
    && DistinctKeys(deps) && CleanDependencies(deps)
    && MapOf(deps).Keys == args.Keys
    && (forall d :: d in args ==> MapOf(deps)[d] == IGNORED || Denotes(w, tokens, MapOf(deps)[d], args[d]))
  }

  /** The entry maps its key to the version of a value that the key's code returns on the key's arguments. */
  ghost predicate OriginOk<V(!new)>(w: World<V>, tokens: Tokens<V>, key: string, version: Version, o: Origin<V>) {
    && key == CreateCacheKey(w.platform, o.name, o.code, o.deps)
    && DASH !in o.code
    && Matches(w, tokens, o.deps, o.args)
    && w.can(SafeName(w.platform, o.name), o.code, o.args, o.value)
    && Denotes(w, tokens, version, o.value)
  }

  type Origins<V> = map<string, Origin<V>>

  ghost predicate MetadataOk<V(!new)>(w: World<V>, tokens: Tokens<V>, origins: Origins<V>,
                                      metadata: map<Option<string>, Version>)
  {
    forall key :: Some(key) in metadata ==>
      key in origins && OriginOk(w, tokens, key, metadata[Some(key)], origins[key])
  }

  ghost predicate ResultsOk<V(!new)>(w: World<V>, tokens: Tokens<V>, results: map<Version, V>) {
    forall version :: version in results ==> Denotes(w, tokens, version, results[version])
  }

  ghost predicate VersionsOk<V(!new)>(w: World<V>, tokens: Tokens<V>, r: RunRecord, e: Exec<V>) {
    forall n :: n in r.dataVersions ==>
      && CommaFree(r.dataVersions[n]) && r.dataVersions[n] != IGNORED
      && e.Known(n).Some? && Denotes(w, tokens, r.dataVersions[n], e.Known(n).value)
  }

  /** The versions put in a key match the arguments, and only IGNORE dependencies are wild. */
  ghost predicate DepsOk<V(!new)>(w: World<V>, tokens: Tokens<V>, e: Exec<V>, n: Name, deps: Dict<Name, Version>)
    requires n in e.g.nodes
  {
    && Matches(w, tokens, deps, MapOf(e.Args(n)))
    && (forall d :: d in MapOf(deps) && MapOf(deps)[d] == IGNORED ==> d in e.behaviors && e.behaviors[d] == Ignore)
  }

  ghost predicate NodeOk<V(!new)>(w: World<V>, tokens: Tokens<V>, r: RunRecord, e: Exec<V>, n: Name)
    requires e.g.Valid() && n in e.phases && e.behaviors.Keys == e.g.nodes.Keys
  {
    && e.IsFunction(n) && n in e.slice && e.ArgumentsReady(n)
    && (n in e.values <==> e.phases[n].Ran?)
    && (e.phases[n].Prepared? && (e.behaviors[n] == Default || e.behaviors[n] == Recompute) ==>
          && GetCacheKey(r, n) == Some(CreateCacheKey(w.platform, n, e.g.nodes[n].code, e.phases[n].deps))
          && DepsOk(w, tokens, e, n, e.phases[n].deps))
    && (e.phases[n].Prepared? && e.behaviors[n] == Ignore ==> GetCacheKey(r, n) == None)
    && (e.phases[n].Ran? ==> Sound(w, e, n, e.values[n]))
    && (e.phases[n].Ran? && e.behaviors[n] != Disable ==> n in r.dataVersions)
  }

  ghost predicate RunOk<V(!new)>(w: World<V>, tokens: Tokens<V>, r: RunRecord, e: Exec<V>) {
    && e.Valid()
    && r.behaviors == e.behaviors
    && (forall n :: n in e.slice && !e.g.nodes[n].external ==>
         n in r.codeVersions && r.codeVersions[n] == e.g.nodes[n].code)
    && VersionsOk(w, tokens, r, e)
    && (forall n :: n in e.values ==> n in e.phases)
    && (forall n :: n in r.cacheKeys ==> n in e.phases)
    && (forall n :: n in e.phases ==> NodeOk(w, tokens, r, e, n))
  }

  ghost predicate Inv<V(!new)>(w: World<V>, s: System<V>, tokens: Tokens<V>, origins: Origins<V>) {
    && WorldValid(w)
    && TokensDrawn(w, tokens, s.adapter.uuids)
    && MetadataOk(w, tokens, origins, s.adapter.stores.metadata)
    && ResultsOk(w, tokens, s.adapter.stores.results)
    && s.adapter.runs.Keys == s.execs.Keys
    && (forall run :: run in s.execs ==> RunOk(w, tokens, s.adapter.runs[run], s.execs[run]))
  }

  // ---------------------------------------------------------------- events

  /** What can happen next. Hooks of one run may interleave with those of others, or never come. */
  datatype Event<!V> =
    | Start(run: RunId, g: Dag<V>, config: map<Name, V>, inputs: Dict<Name, V>, overrides: Dict<Name, V>,
            behaviors: map<Name, Behavior>, finals: seq<Name>)
    | Prepare(run: RunId, node: Name)
    | Do(run: RunId, node: Name, call: Outcome<V>, retrievalFails: bool)
    | Post(run: RunId, node: Name)
    | LoseResult(version: Version)
    | LoseMetadata(key: Option<string>)
    | Restart

  ghost function SliceOf<V>(g: Dag<V>, config: map<Name, V>, inputs: Dict<Name, V>, overrides: Dict<Name, V>,
                            finals: seq<Name>): set<Name>
    requires g.Valid()
  {
    if finals == [] then g.nodes.Keys
    else Slice(g, Query(Some(MapOf(inputs).Keys), config.Keys, MapOf(overrides).Keys), finals)
  }

  /** `resolve_code_versions`: the functions of the slice, or every node if nothing in particular is requested. */
  ghost function CodesOf<V>(g: Dag<V>, finals: seq<Name>, slice: set<Name>): map<Name, string> {
    map n | n in slice && n in g.nodes && (finals == [] || !g.nodes[n].external) :: g.nodes[n].code
  }

  ghost function NewExec<V>(g: Dag<V>, config: map<Name, V>, inputs: Dict<Name, V>, overrides: Dict<Name, V>,
                            behaviors: map<Name, Behavior>, finals: seq<Name>): Exec<V>
    requires g.Valid()
  {
    Exec(g, Context(config + MapOf(inputs), MapOf(overrides)), SliceOf(g, config, inputs, overrides, finals),
         behaviors, map[], map[])
  }

  /**
   * When an event can happen: the executor runs a node of the slice once its arguments are known,
   * and a function returns only what its code can return.
   */
  ghost predicate Enabled<V(!new)>(w: World<V>, s: System<V>, ev: Event<V>) {
    match ev
    case Start(run, g, config, inputs, overrides, behaviors, finals) =>
      && run !in s.execs && run !in s.adapter.runs
      && DistinctKeys(inputs) && DistinctKeys(overrides)
      && config.Keys !! MapOf(inputs).Keys
      && g.Valid() && NewExec(g, config, inputs, overrides, behaviors, finals).Valid()
      && InputsAreExternal(g, inputs)
    case Prepare(run, n) =>
      && run in s.execs && s.execs[run].Valid()
      && s.execs[run].IsFunction(n) && n in s.execs[run].slice && n !in s.execs[run].phases
      && s.execs[run].ArgumentsReady(n)
    case Do(run, n, call, _) =>
      && run in s.execs && n in s.execs[run].phases && s.execs[run].phases[n].Prepared?
      && n in s.execs[run].g.nodes
      && (call.Returned? ==> CanReturn(w, s.execs[run], n, call.value))
    case Post(run, n) =>
      run in s.execs && n in s.execs[run].phases && !s.execs[run].phases[n].Prepared?
    case LoseResult(_) => true
    case LoseMetadata(_) => true
    case Restart => true
  }

  /** Runtime inputs name only external nodes. */
  predicate InputsAreExternal<V>(g: Dag<V>, inputs: Dict<Name, V>) {
    forall i :: 0 <= i < |inputs| ==> inputs[i].0 !in g.nodes || g.nodes[inputs[i].0].external
  }

  ghost predicate CanReturn<V(!new)>(w: World<V>, e: Exec<V>, n: Name, v: V)
    requires n in e.g.nodes
  {
    w.can(SafeName(w.platform, n), e.g.nodes[n].code, MapOf(e.Args(n)), v)
  }

  // ---------------------------------------------------------------- monotonicity in the tokens

  lemma DenotesExtends<V(!new)>(w: World<V>, tokens: Tokens<V>, tokens': Tokens<V>, version: Version, v: V)
    requires Extends(tokens, tokens') && Denotes(w, tokens, version, v)
    ensures Denotes(w, tokens', version, v)
  {}

  lemma MatchesExtends<V(!new)>(w: World<V>, tokens: Tokens<V>, tokens': Tokens<V>, deps: Dict<Name, Version>,
                                args: map<Name, V>)
    requires Extends(tokens, tokens') && Matches(w, tokens, deps, args)
    ensures Matches(w, tokens', deps, args)
  {
    hide Denotes, MapOf;
    forall d | d in args && MapOf(deps)[d] != IGNORED ensures Denotes(w, tokens', MapOf(deps)[d], args[d]) {
      DenotesExtends(w, tokens, tokens', MapOf(deps)[d], args[d]);
    }
  }

  lemma OriginExtends<V(!new)>(w: World<V>, tokens: Tokens<V>, tokens': Tokens<V>, key: string, version: Version,
                               o: Origin<V>)
    requires Extends(tokens, tokens') && OriginOk(w, tokens, key, version, o)
    ensures OriginOk(w, tokens', key, version, o)
  {
    hide Denotes, Matches;
    MatchesExtends(w, tokens, tokens', o.deps, o.args);
    DenotesExtends(w, tokens, tokens', version, o.value);
  }

  lemma StoresExtend<V(!new)>(w: World<V>, tokens: Tokens<V>, tokens': Tokens<V>, origins: Origins<V>,
                              stores: Stores<V>)
    requires Extends(tokens, tokens')
    requires MetadataOk(w, tokens, origins, stores.metadata) && ResultsOk(w, tokens, stores.results)
    ensures MetadataOk(w, tokens', origins, stores.metadata) && ResultsOk(w, tokens', stores.results)
  {
    hide Denotes, OriginOk;
    forall key | Some(key) in stores.metadata
      ensures key in origins && OriginOk(w, tokens', key, stores.metadata[Some(key)], origins[key])
    {
      OriginExtends(w, tokens, tokens', key, stores.metadata[Some(key)], origins[key]);
    }
    forall version | version in stores.results ensures Denotes(w, tokens', version, stores.results[version]) {
      DenotesExtends(w, tokens, tokens', version, stores.results[version]);
    }
  }

  lemma NodeExtends<V(!new)>(w: World<V>, tokens: Tokens<V>, tokens': Tokens<V>, r: RunRecord, e: Exec<V>, n: Name)
    requires e.g.Valid() && n in e.phases && e.behaviors.Keys == e.g.nodes.Keys
    requires Extends(tokens, tokens') && NodeOk(w, tokens, r, e, n)
    ensures NodeOk(w, tokens', r, e, n)
  {
    hide Denotes, Matches, Sound, CreateCacheKey, MapOf;
    if e.phases[n].Prepared? && (e.behaviors[n] == Default || e.behaviors[n] == Recompute) {
      MatchesExtends(w, tokens, tokens', e.phases[n].deps, MapOf(e.Args(n)));
    }
  }

  lemma {:induction false} RunExtends<V(!new)>(w: World<V>, tokens: Tokens<V>, tokens': Tokens<V>, r: RunRecord,
                                               e: Exec<V>)
    requires Extends(tokens, tokens') && RunOk(w, tokens, r, e)
    ensures RunOk(w, tokens', r, e)
  {
    hide Denotes, NodeOk;
    forall n | n in e.phases ensures NodeOk(w, tokens', r, e, n) {
      NodeExtends(w, tokens, tokens', r, e, n);
    }
    forall n | n in r.dataVersions ensures Denotes(w, tokens', r.dataVersions[n], e.Known(n).value) {
      DenotesExtends(w, tokens, tokens', r.dataVersions[n], e.Known(n).value);
    }
  }

  // ---------------------------------------------------------------- versioning keeps meaning

  /** Each version stands for the value of its name. */
  ghost predicate StandFor<V(!new)>(w: World<V>, tokens: Tokens<V>, versions: map<Name, Version>, meaning: map<Name, V>)
  {
    forall n :: n in versions ==>
      n in meaning && CommaFree(versions[n]) && versions[n] != IGNORED && Denotes(w, tokens, versions[n], meaning[n])
  }

  lemma StandForExtends<V(!new)>(w: World<V>, tokens: Tokens<V>, tokens': Tokens<V>, versions: map<Name, Version>,
                                 meaning: map<Name, V>)
    requires Extends(tokens, tokens') && StandFor(w, tokens, versions, meaning)
    ensures StandFor(w, tokens', versions, meaning)
  {}

  /** Versioning a dict of values gives every one a version that stands for it. */
  lemma {:induction false} VersionAllOk<V(!new)>(w: World<V>, tokens: Tokens<V>, versions: map<Name, Version>,
                                                values: Dict<Name, V>, meaning: map<Name, V>, uuids: nat)
    returns (tokens': Tokens<V>)
    requires WorldValid(w) && TokensDrawn(w, tokens, uuids) && StandFor(w, tokens, versions, meaning)
    requires forall i :: 0 <= i < |values| ==> values[i].0 in meaning && meaning[values[i].0] == values[i].1
    ensures Extends(tokens, tokens')
    ensures var (versions', k) := VersionAll(w, versions, values, uuids);
            && k >= uuids && TokensDrawn(w, tokens', k)
            && StandFor(w, tokens', versions', meaning)
            && (forall n :: n in versions' <==> n in versions || HasKey(values, n))
    decreases |values|
  {
    hide Denotes, TokensDrawn, VersionData, Versioned;
    if values == [] {
      tokens' := tokens;
    } else {
      var (n0, v0) := values[0];
      var (version, k) := VersionData(w, v0, uuids);
      VersionDataDenotes(w, tokens, v0, uuids);
      var middle := Versioned(w, tokens, v0, uuids);
      StandForExtends(w, tokens, middle, versions, meaning);
      tokens' := VersionAllOk(w, middle, versions[n0 := version], values[1..], meaning, k);
      HasKeyCons(values);
    }
  }

  lemma {:induction false} VersionAllMerge<V>(w: World<V>, versions: map<Name, Version>, start: map<Name, Version>,
                                             values: Dict<Name, V>, uuids: nat)
    ensures var (all, k) := VersionAll(w, versions + start, values, uuids);
            var (own, k') := VersionAll(w, start, values, uuids);
            all == versions + own && k == k'
    decreases |values|
  {
    if values != [] {
      var (version, k) := VersionData(w, values[0].1, uuids);
      assert (versions + start)[values[0].0 := version] == versions + start[values[0].0 := version];
      VersionAllMerge(w, versions, start[values[0].0 := version], values[1..], k);
    }
  }

  lemma HasKeyCons<K, V>(d: Dict<K, V>)
    requires d != []
    ensures forall k :: HasKey(d, k) <==> HasKey(d[1..], k) || k == d[0].0
  {
    forall k
      ensures HasKey(d, k) <==> HasKey(d[1..], k) || k == d[0].0
    {
      if HasKey(d, k) && k != d[0].0 {
        var i :| 0 <= i < |d| && d[i].0 == k;
        assert d[1..][i - 1].0 == k;
      }
      if HasKey(d[1..], k) {
        var i :| 0 <= i < |d[1..]| && d[1..][i].0 == k;
        assert d[i + 1].0 == k;
      }
    }
  }

  /** The version given to one argument stands for it, or is "<ignore>" for an IGNORE dependency. */
  ghost predicate ArgumentOk<V(!new)>(w: World<V>, tokens: Tokens<V>, e: Exec<V>, dep: (Name, Version), arg: (Name, V))
  {
    && dep.0 == arg.0 && CommaFree(dep.1)
    && (dep.1 == IGNORED ==> dep.0 in e.behaviors && e.behaviors[dep.0] == Ignore)
    && (dep.1 == IGNORED || Denotes(w, tokens, dep.1, arg.1))
  }

  lemma ArgumentVersionOk<V(!new)>(w: World<V>, tokens: Tokens<V>, r: RunRecord, e: Exec<V>, name: Name, value: V,
                                   uuids: nat)
    returns (tokens': Tokens<V>)
    requires WorldValid(w) && TokensDrawn(w, tokens, uuids)
    requires name in r.behaviors && r.behaviors == e.behaviors && VersionsOk(w, tokens, r, e)
    requires name in r.dataVersions ==> e.Known(name) == Some(value)
    ensures Extends(tokens, tokens')
    ensures var (version, k) := ArgumentVersion(w, r, name, value, uuids);
            k >= uuids && TokensDrawn(w, tokens', k) && ArgumentOk(w, tokens', e, (name, version), (name, value))
  {
    tokens' := tokens;
    if r.behaviors[name] == Ignore {
      assert CommaFree(IGNORED);
    } else if r.behaviors[name] == Disable {
      var t := DISABLE_PREFIX + w.uuid(uuids);
      DrawToken(w, tokens, uuids, t, value);
      tokens' := tokens[t := value];
    } else if name !in r.dataVersions {
      VersionDataDenotes(w, tokens, value, uuids);
      tokens' := Versioned(w, tokens, value, uuids);
    }
  }

  lemma VersionsExtend<V(!new)>(w: World<V>, tokens: Tokens<V>, tokens': Tokens<V>, r: RunRecord, e: Exec<V>)
    requires Extends(tokens, tokens') && VersionsOk(w, tokens, r, e)
    ensures VersionsOk(w, tokens', r, e)
  {}

  lemma {:induction false} ArgumentVersionsOk<V(!new)>(w: World<V>, tokens: Tokens<V>, r: RunRecord, e: Exec<V>,
                                                       args: Dict<Name, V>, uuids: nat)
    returns (tokens': Tokens<V>)
    requires WorldValid(w) && TokensDrawn(w, tokens, uuids)
    requires r.behaviors == e.behaviors && VersionsOk(w, tokens, r, e)
    requires forall i :: 0 <= i < |args| ==> args[i].0 in r.behaviors
    requires forall i :: 0 <= i < |args| && args[i].0 in r.dataVersions ==> e.Known(args[i].0) == Some(args[i].1)
    ensures Extends(tokens, tokens')
    ensures var (deps, k) := ArgumentVersions(w, r, args, uuids);
            && k >= uuids && TokensDrawn(w, tokens', k) && |deps| == |args|
            && (forall i :: 0 <= i < |args| ==> ArgumentOk(w, tokens', e, deps[i], args[i]))
    decreases |args|
  {
    hide Denotes, TokensDrawn, ArgumentVersion, VersionsOk;
    if args == [] {
      tokens' := tokens;
    } else {
      var (version, k) := ArgumentVersion(w, r, args[0].0, args[0].1, uuids);
      var middle := ArgumentVersionOk(w, tokens, r, e, args[0].0, args[0].1, uuids);
      VersionsExtend(w, tokens, middle, r, e);
      var (rest, k') := ArgumentVersions(w, r, args[1..], k);
      tokens' := ArgumentVersionsOk(w, middle, r, e, args[1..], k);
      var deps := ArgumentVersions(w, r, args, uuids).0;
      assert deps == [(args[0].0, version)] + rest;
      forall i | 0 <= i < |args| ensures ArgumentOk(w, tokens', e, deps[i], args[i]) {
        if i == 0 {
          if version != IGNORED { DenotesExtends(w, middle, tokens', version, args[0].1); }
        } else {
          assert ArgumentOk(w, tokens', e, rest[i - 1], args[1..][i - 1]);
        }
      }
    }
  }

  lemma ArgumentFacts<V(!new)>(w: World<V>, tokens: Tokens<V>, e: Exec<V>, dep: (Name, Version), arg: (Name, V))
    requires ArgumentOk(w, tokens, e, dep, arg)
    ensures CommaFree(dep.1) && (dep.1 == IGNORED ==> dep.0 in e.behaviors && e.behaviors[dep.0] == Ignore)
    ensures dep.1 == IGNORED || Denotes(w, tokens, dep.1, arg.1)
  {
    hide Denotes;
  }

  /** Argument by argument, then as mappings. */
  lemma ArgumentsMatch<V(!new)>(w: World<V>, tokens: Tokens<V>, e: Exec<V>, n: Name, deps: Dict<Name, Version>)
    requires n in e.g.nodes && DistinctKeys(e.Args(n)) && |deps| == |e.Args(n)|
    requires forall i :: 0 <= i < |deps| ==> ArgumentOk(w, tokens, e, deps[i], e.Args(n)[i])
    requires forall i :: 0 <= i < |deps| ==> CommaFree(deps[i].0)
    ensures DepsOk(w, tokens, e, n, deps)
  {
    hide Denotes, MapOf;
    var args := e.Args(n);
    assert forall i :: 0 <= i < |deps| ==> ArgumentOk(w, tokens, e, deps[i], args[i]) ==> deps[i].0 == args[i].0;
    hide ArgumentOk, Exec<V>.Args;
    forall d ensures d in MapOf(deps) <==> d in MapOf(args) {
      if d in MapOf(deps) || d in MapOf(args) {
        var i := SameKeysAt(deps, args, d);
      }
    }
    forall d | d in MapOf(deps)
      ensures MapOf(deps)[d] == IGNORED || Denotes(w, tokens, MapOf(deps)[d], MapOf(args)[d])
      ensures MapOf(deps)[d] == IGNORED ==> d in e.behaviors && e.behaviors[d] == Ignore
    {
      var i := SameKeysAt(deps, args, d);
      ArgumentFacts(w, tokens, e, deps[i], args[i]);
    }
    assert CleanDependencies(deps) by {
      forall i | 0 <= i < |deps| ensures CommaFree(deps[i].1) {
        ArgumentFacts(w, tokens, e, deps[i], args[i]);
      }
    }
  }

  // ---------------------------------------------------------------- arguments of a ready node

  lemma {:induction false} KwargsKeys<V>(e: Exec<V>, n: Name, k: nat)
    requires e.g.Valid() && n in e.g.nodes && k <= |e.g.nodes[n].deps|
    ensures DistinctKeys(e.Kwargs(n, k))
    ensures forall i :: 0 <= i < |e.Kwargs(n, k)| ==>
              && e.Known(e.Kwargs(n, k)[i].0) == Some(e.Kwargs(n, k)[i].1)
              && exists j :: 0 <= j < k && e.g.nodes[n].deps[j].name == e.Kwargs(n, k)[i].0
  {
    if k > 0 {
      KwargsKeys(e, n, k - 1);
      var before := e.Kwargs(n, k - 1);
      var dep := e.g.nodes[n].deps[k - 1].name;
      forall i | 0 <= i < |before| ensures before[i].0 != dep {
        var j :| 0 <= j < k - 1 && e.g.nodes[n].deps[j].name == before[i].0;
      }
    }
  }

  lemma {:induction false} KwargsComplete<V>(e: Exec<V>, n: Name, k: nat, j: nat)
    requires e.g.Valid() && n in e.g.nodes && j < k <= |e.g.nodes[n].deps|
    requires e.Known(e.g.nodes[n].deps[j].name).Some?
    ensures HasKey(e.Kwargs(n, k), e.g.nodes[n].deps[j].name)
  {
    var d := e.g.nodes[n].deps[j].name;
    if j < k - 1 {
      KwargsComplete(e, n, k - 1, j);
      var i :| 0 <= i < |e.Kwargs(n, k - 1)| && e.Kwargs(n, k - 1)[i].0 == d;
      assert e.Kwargs(n, k)[i].0 == d;
    } else {
      assert e.Kwargs(n, k)[|e.Kwargs(n, k)| - 1].0 == d;
    }
  }

  /** The arguments of a node are distinct nodes; those with a known value carry it. */
  lemma ArgsKeys<V>(e: Exec<V>, n: Name)
    requires e.Valid() && n in e.g.nodes
    ensures DistinctKeys(e.Args(n))
    ensures forall i :: 0 <= i < |e.Args(n)| ==> e.Args(n)[i].0 in e.g.nodes
    ensures forall i :: 0 <= i < |e.Args(n)| && e.Known(e.Args(n)[i].0).Some? ==>
              e.Known(e.Args(n)[i].0) == Some(e.Args(n)[i].1)
  {
    var node := e.g.nodes[n];
    var kwargs := e.Kwargs(n, |node.deps|);
    KwargsKeys(e, n, |node.deps|);
    ResolvedKeys(node.defaults, kwargs);
    var args := e.Args(n);
    forall i | 0 <= i < |args|
      ensures args[i].0 in e.g.nodes
      ensures e.Known(args[i].0).Some? ==> e.Known(args[i].0) == Some(args[i].1)
    {
      if i < |kwargs| {
        assert args[..|kwargs|][i] == kwargs[i];
      } else {
        assert args[i] in node.defaults;
        var d :| 0 <= d < |node.defaults| && node.defaults[d] == args[i];
        assert e.g.Uses(n, args[i].0);
        var j :| 0 <= j < |node.deps| && node.deps[j].name == args[i].0;
        if e.Known(args[i].0).Some? {
          KwargsComplete(e, n, |node.deps|, j);
        }
      }
    }
  }

  /** Every argument, passed or defaulted, is a declared dependency. */
  lemma ArgsAreDeps<V>(e: Exec<V>, n: Name)
    requires e.Valid() && n in e.g.nodes
    ensures forall i :: 0 <= i < |e.Args(n)| ==> e.g.Uses(n, e.Args(n)[i].0)
  {
    var node := e.g.nodes[n];
    var kwargs := e.Kwargs(n, |node.deps|);
    KwargsKeys(e, n, |node.deps|);
    ResolvedKeys(node.defaults, kwargs);
    var args := e.Args(n);
    assert e.NodeReadable(n);
    forall i | 0 <= i < |args| ensures e.g.Uses(n, args[i].0) {
      if i < |kwargs| {
        assert args[..|kwargs|][i] == kwargs[i];
      } else {
        assert args[i] in node.defaults;
      }
    }
  }

  /** Once a node's arguments are ready, later results do not change them. */
  lemma {:induction false} KwargsStable<V>(e: Exec<V>, e': Exec<V>, n: Name, k: nat)
    requires e.g.Valid() && n in e.g.nodes && k <= |e.g.nodes[n].deps| && e.ArgumentsReady(n)
    requires e'.g == e.g && e'.ctx == e.ctx
    requires forall m :: m in e.values ==> m in e'.values && e'.values[m] == e.values[m]
    requires forall m :: m in e'.values && m !in e.values ==> e.IsFunction(m)
    ensures e'.Kwargs(n, k) == e.Kwargs(n, k)
  {
    if k > 0 {
      KwargsStable(e, e', n, k - 1);
      var dep := e.g.nodes[n].deps[k - 1].name;
      assert e'.Known(dep) == e.Known(dep);
    }
  }

  // ---------------------------------------------------------------- one event

  /** The hook finds what it looks up: no KeyError, no failed assertion. */
  ghost predicate Hookable<V(!new)>(s: System<V>, ev: Event<V>) {
    match ev
    case Prepare(run, n) =>
      && run in s.execs && n in s.execs[run].g.nodes
      && run in s.adapter.runs && n in s.adapter.runs[run].behaviors && n in s.adapter.runs[run].codeVersions
      && (forall i :: 0 <= i < |s.execs[run].Args(n)| ==> s.execs[run].Args(n)[i].0 in s.adapter.runs[run].behaviors)
    case Do(run, n, _, _) =>
      && run in s.execs && run in s.adapter.runs
      && n in s.adapter.runs[run].behaviors && n in s.adapter.runs[run].codeVersions
    case Post(run, n) =>
      && run in s.execs && run in s.adapter.runs && n in s.adapter.runs[run].behaviors
      && (n in s.execs[run].values && s.adapter.runs[run].behaviors[n] != Disable ==>
            GetDataVersion(s.adapter, s.adapter.runs[run], n, GetCacheKey(s.adapter.runs[run], n)).Some?)
    case Start(_, g, _, _, _, _, _) => g.Valid()
    case _ => true
  }

  ghost function WithExec<V>(s: System<V>, adapter: Adapter<V>, run: RunId, e: Exec<V>): System<V> {
    System(adapter, s.execs[run := e])
  }

  ghost function DepsOf<V>(w: World<V>, s: System<V>, run: RunId, n: Name): Dict<Name, Version>
    requires run in s.execs && run in s.adapter.runs && n in s.execs[run].g.nodes
    requires forall i :: 0 <= i < |s.execs[run].Args(n)| ==> s.execs[run].Args(n)[i].0 in s.adapter.runs[run].behaviors
  {
    ArgumentVersions(w, s.adapter.runs[run], s.execs[run].Args(n), s.adapter.uuids).0
  }

  ghost function AfterDo<V>(e: Exec<V>, n: Name, outcome: Outcome<V>): Exec<V> {
    match outcome
    case Returned(v) => e.(values := e.values[n := v], phases := e.phases[n := Ran])
    case Raised(_) => e.(phases := e.phases[n := Failed])
  }

  ghost function Apply<V(!new)>(w: World<V>, s: System<V>, ev: Event<V>): System<V> {
    if !Hookable(s, ev) then s
    else
      match ev
      case Start(run, g, config, inputs, overrides, behaviors, finals) =>
        var e := NewExec(g, config, inputs, overrides, behaviors, finals);
        WithExec(s, PreGraphExecute(w, s.adapter, run, behaviors, CodesOf(g, finals, e.slice), inputs, overrides), run,
          e)
      case Prepare(run, n) =>
        var e := s.execs[run];
        WithExec(s, PreNodeExecute(w, s.adapter, run, n, e.Args(n)), run,
                 e.(phases := e.phases[n := Prepared(DepsOf(w, s, run, n))]))
      case Do(run, n, call, retrievalFails) =>
        var result := DoNodeExecute(w, s.adapter, run, n, call, retrievalFails);
        WithExec(s, result.adapter, run, AfterDo(s.execs[run], n, result.outcome))
      case Post(run, n) =>
        var e := s.execs[run];
        if n in e.values then s.(adapter := PostNodeExecute(s.adapter, run, n, e.values[n], true)) else s
      case LoseResult(version) =>
        s.(adapter := s.adapter.(stores := s.adapter.stores.(results := s.adapter.stores.results - {version})))
      case LoseMetadata(key) =>
        s.(adapter := s.adapter.(stores := s.adapter.stores.(metadata := s.adapter.stores.metadata - {key})))
      case Restart => System(s.adapter.(runs := map[]), map[])
  }

  /** Replacing one run's record and execution leaves the other runs as they were. */
  lemma {:induction false} InvWithRun<V(!new)>(w: World<V>, s: System<V>, s': System<V>, run: RunId, tokens: Tokens<V>,
                                               tokens': Tokens<V>, origins: Origins<V>, origins': Origins<V>)
    requires Inv(w, s, tokens, origins) && Extends(tokens, tokens')
    requires TokensDrawn(w, tokens', s'.adapter.uuids)
    requires MetadataOk(w, tokens', origins', s'.adapter.stores.metadata)
    requires ResultsOk(w, tokens', s'.adapter.stores.results)
    requires run in s'.execs && run in s'.adapter.runs
    requires s'.execs == s.execs[run := s'.execs[run]] && s'.adapter.runs == s.adapter.runs[run := s'.adapter.runs[run]]
    requires RunOk(w, tokens', s'.adapter.runs[run], s'.execs[run])
    ensures Inv(w, s', tokens', origins')
  {
    hide RunOk, MetadataOk, ResultsOk, TokensDrawn, Denotes, WorldValid;
    forall other | other in s'.execs ensures RunOk(w, tokens', s'.adapter.runs[other], s'.execs[other]) {
      if other != run {
        RunExtends(w, tokens, tokens', s.adapter.runs[other], s.execs[other]);
      }
    }
  }

  lemma {:induction false} InputCodesKeys<V>(codes: map<Name, string>, inputs: Dict<Name, V>)
    ensures forall n :: n in codes ==> n in InputCodeVersions(codes, inputs)
    ensures forall n :: n in codes && !HasKey(inputs, n) ==> InputCodeVersions(codes, inputs)[n] == codes[n]
    decreases |inputs|
  {
    if inputs != [] {
      InputCodesKeys(codes[inputs[0].0 := "input__" + inputs[0].0], inputs[1..]);
      HasKeyCons(inputs);
    }
  }

  /** Versions of a run's inputs, then of its overrides, which win. */
  lemma StartVersions<V(!new)>(w: World<V>, tokens: Tokens<V>, inputs: Dict<Name, V>, overrides: Dict<Name, V>,
                               uuids: nat)
    returns (tokens': Tokens<V>)
    requires WorldValid(w) && TokensDrawn(w, tokens, uuids) && DistinctKeys(inputs) && DistinctKeys(overrides)
    ensures Extends(tokens, tokens')
    ensures var (fromInputs, k) := VersionAll(w, map[], inputs, uuids);
            var (versions, k') := VersionAll(w, fromInputs, overrides, k);
            TokensDrawn(w, tokens', k') && StandFor(w, tokens', versions, MapOf(inputs) + MapOf(overrides))
  {
    hide Denotes, TokensDrawn, WorldValid, VersionAll;
    MapOfAll(inputs);
    MapOfAll(overrides);
    var middle := VersionAllOk(w, tokens, map[], inputs, MapOf(inputs), uuids);
    var (fromInputs, k) := VersionAll(w, map[], inputs, uuids);
    tokens' := VersionAllOk(w, middle, map[], overrides, MapOf(overrides), k);
    var (own, k') := VersionAll(w, map[], overrides, k);
    StandForExtends(w, middle, tokens', fromInputs, MapOf(inputs));
    VersionAllMerge(w, fromInputs, map[], overrides, k);
    assert fromInputs + map[] == fromInputs;
    forall n | n in MapOf(overrides) ensures n in own {
      assert HasKey(overrides, n);
    }
  }

  lemma {:induction false} StartOk<V(!new)>(w: World<V>, s: System<V>, ev: Event<V>, tokens: Tokens<V>,
                                            origins: Origins<V>)
    returns (tokens': Tokens<V>)
    requires Inv(w, s, tokens, origins) && ev.Start? && Enabled(w, s, ev)
    ensures Hookable(s, ev)
    ensures Inv(w, Apply(w, s, ev), tokens', origins) && Extends(tokens, tokens')
  {
    hide RunOk, MetadataOk, ResultsOk, TokensDrawn, Denotes, WorldValid, VersionAll, SliceOf;
    tokens' := StartVersions(w, tokens, ev.inputs, ev.overrides, s.adapter.uuids);
    var s' := Apply(w, s, ev);
    StoresExtend(w, tokens, tokens', origins, s.adapter.stores);
    StartRecordOk(w, tokens', ev, s'.adapter.runs[ev.run], s'.execs[ev.run]);
    InvWithRun(w, s, s', ev.run, tokens, tokens', origins, origins);
  }

  lemma StartRecordOk<V(!new)>(w: World<V>, tokens: Tokens<V>, ev: Event<V>, r: RunRecord, e: Exec<V>)
    requires ev.Start? && ev.g.Valid() && e.Valid() && InputsAreExternal(ev.g, ev.inputs)
    requires ev.config.Keys !! MapOf(ev.inputs).Keys
    requires e == NewExec(ev.g, ev.config, ev.inputs, ev.overrides, ev.behaviors, ev.finals)
    requires r == RunRecord(ev.behaviors, InputCodeVersions(CodesOf(ev.g, ev.finals, e.slice), ev.inputs),
        r.dataVersions, map[])
    requires StandFor(w, tokens, r.dataVersions, MapOf(ev.inputs) + MapOf(ev.overrides))
    ensures RunOk(w, tokens, r, e)
  {
    hide Denotes, SliceOf, InputCodeVersions, MapOf, Exec<V>.Valid, Dag<V>.Valid, Exec<V>.Known;
    StartCodes(ev, e);
    forall n | n in r.dataVersions
      ensures e.Known(n) == Some((MapOf(ev.inputs) + MapOf(ev.overrides))[n])
    {
      StartKnown(ev, e, n);
    }
  }

  lemma StartKnown<V>(ev: Event<V>, e: Exec<V>, n: Name)
    requires ev.Start? && ev.g.Valid() && e.Valid() && InputsAreExternal(ev.g, ev.inputs)
    requires e == NewExec(ev.g, ev.config, ev.inputs, ev.overrides, ev.behaviors, ev.finals)
    requires n in MapOf(ev.inputs) + MapOf(ev.overrides)
    ensures e.Known(n) == Some((MapOf(ev.inputs) + MapOf(ev.overrides))[n])
  {
    hide SliceOf;
    MapOfKeys(ev.inputs);
    if n !in MapOf(ev.overrides) {
      assert HasKey(ev.inputs, n);
    }
  }

  lemma StartCodes<V>(ev: Event<V>, e: Exec<V>)
    requires ev.Start? && ev.g.Valid() && e.Valid() && InputsAreExternal(ev.g, ev.inputs)
    requires e == NewExec(ev.g, ev.config, ev.inputs, ev.overrides, ev.behaviors, ev.finals)
    ensures var codes := InputCodeVersions(CodesOf(ev.g, ev.finals, e.slice), ev.inputs);
            forall n :: n in e.slice && !e.g.nodes[n].external ==> n in codes && codes[n] == e.g.nodes[n].code
  {
    hide SliceOf, InputCodeVersions, MapOf;
    InputCodesKeys(CodesOf(ev.g, ev.finals, e.slice), ev.inputs);
    forall n | n in e.slice && !e.g.nodes[n].external
      ensures !HasKey(ev.inputs, n)
    {}
  }

  lemma ArgsStable<V>(e: Exec<V>, e': Exec<V>, n: Name)
    requires e.g.Valid() && n in e.g.nodes && e.ArgumentsReady(n)
    requires e'.g == e.g && e'.ctx == e.ctx
    requires forall m :: m in e.values ==> m in e'.values && e'.values[m] == e.values[m]
    requires forall m :: m in e'.values && m !in e.values ==> e.IsFunction(m)
    ensures e'.Args(n) == e.Args(n)
  {
    KwargsStable(e, e', n, |e.g.nodes[n].deps|);
  }

  /** e' is e with more values and phases, nothing taken back. */
  ghost predicate Continues<V>(e: Exec<V>, e': Exec<V>) {
    && e'.g == e.g && e'.ctx == e.ctx && e'.slice == e.slice && e'.behaviors == e.behaviors
    && (forall m :: m in e.values ==> m in e'.values && e'.values[m] == e.values[m])
    && (forall m :: m in e'.values && m !in e.values ==> e.IsFunction(m))
  }

  /** A node other than the one that moved stays as it was. */
  lemma NodeFrame<V(!new)>(w: World<V>, tokens: Tokens<V>, r: RunRecord, r': RunRecord, e: Exec<V>, e': Exec<V>,
                           m: Name)
    requires e.g.Valid() && m in e.phases && e.behaviors.Keys == e.g.nodes.Keys
    requires NodeOk(w, tokens, r, e, m) && Continues(e, e')
    requires m in e'.phases && e'.phases[m] == e.phases[m] && (m in e'.values ==> m in e.values)
    requires GetCacheKey(r', m) == GetCacheKey(r, m) && (m in r.dataVersions ==> m in r'.dataVersions)
    ensures NodeOk(w, tokens, r', e', m)
  {
    hide Matches, CreateCacheKey, MapOf, AgreeOutsideIgnored, Exec<V>.Args;
    ReadyStable(e, e', m);
    ArgsStable(e, e', m);
    hide Exec<V>.Known, Exec<V>.ArgumentsReady, Dag<V>.Valid, GetCacheKey;
    if e.phases[m].Ran? {
      var args :| SoundWith(w, e, m, e.values[m], args);
      assert SoundWith(w, e', m, e.values[m], args);
    }
  }

  /** Known values stay known. */
  lemma ReadyStable<V>(e: Exec<V>, e': Exec<V>, m: Name)
    requires e.g.Valid() && Continues(e, e') && m in e.g.nodes && e.ArgumentsReady(m)
    ensures e'.ArgumentsReady(m)
  {
    forall i | 0 <= i < |e.g.nodes[m].deps| && e.Known(e.g.nodes[m].deps[i].name).Some?
      ensures e'.Known(e.g.nodes[m].deps[i].name).Some?
    {}
  }

  /** The node's behavior gives it a cache key. */
  ghost predicate Keyed<V>(e: Exec<V>, n: Name)
    requires n in e.behaviors
  {
    e.behaviors[n] == Default || e.behaviors[n] == Recompute
  }

  lemma VersionsFrame<V(!new)>(w: World<V>, tokens: Tokens<V>, r: RunRecord, e: Exec<V>, e': Exec<V>)
    requires VersionsOk(w, tokens, r, e) && Continues(e, e')
    ensures VersionsOk(w, tokens, r, e')
  {
    hide Denotes;
    forall m | m in r.dataVersions ensures e'.Known(m) == e.Known(m) {}
  }

  lemma {:induction false} PreparedRunOk<V(!new)>(w: World<V>, tokens: Tokens<V>, r: RunRecord, r': RunRecord,
                                                  e: Exec<V>, n: Name, deps: Dict<Name, Version>)
    requires RunOk(w, tokens, r, e)
    requires e.IsFunction(n) && n in e.slice && n !in e.phases && e.ArgumentsReady(n)
    requires !Keyed(e, n) ==> r' == r
    requires Keyed(e, n) ==> DepsOk(w, tokens, e, n, deps)
    requires Keyed(e, n) ==>
               r' == r.(cacheKeys := r.cacheKeys[n := CreateCacheKey(w.platform, n, e.g.nodes[n].code, deps)])
    ensures RunOk(w, tokens, r', e.(phases := e.phases[n := Prepared(deps)]))
  {
    hide VersionsOk, DepsOk, CreateCacheKey, NodeOk;
    var e' := e.(phases := e.phases[n := Prepared(deps)]);
    PreparedVersionsOk(w, tokens, r, r', e, n, deps);
    hide Keyed, Exec<V>.Args, Exec<V>.ArgumentsReady, Dag<V>.Valid;
    forall m | m in e'.phases ensures NodeOk(w, tokens, r', e', m) {
      PreparedNode(w, tokens, r, r', e, n, deps, m);
    }
  }

  lemma PreparedVersionsOk<V(!new)>(w: World<V>, tokens: Tokens<V>, r: RunRecord, r': RunRecord, e: Exec<V>, n: Name,
                                    deps: Dict<Name, Version>)
    requires VersionsOk(w, tokens, r, e) && r'.dataVersions == r.dataVersions
    ensures VersionsOk(w, tokens, r', e.(phases := e.phases[n := Prepared(deps)]))
  {
    hide VersionsOk;
    var e' := e.(phases := e.phases[n := Prepared(deps)]);
    VersionsFrame(w, tokens, r, e, e');
    SameVersions(w, tokens, r, r', e');
  }

  /** What the pre hook of n leaves of one node. */
  lemma {:induction false} PreparedNode<V(!new)>(w: World<V>, tokens: Tokens<V>, r: RunRecord, r': RunRecord,
                                                 e: Exec<V>, n: Name, deps: Dict<Name, Version>, m: Name)
    requires RunOk(w, tokens, r, e)
    requires e.IsFunction(n) && n in e.slice && n !in e.phases && e.ArgumentsReady(n)
    requires !Keyed(e, n) ==> r' == r
    requires Keyed(e, n) ==> DepsOk(w, tokens, e, n, deps)
    requires Keyed(e, n) ==>
               r' == r.(cacheKeys := r.cacheKeys[n := CreateCacheKey(w.platform, n, e.g.nodes[n].code, deps)])
    requires m in e.phases || m == n
    ensures NodeOk(w, tokens, r', e.(phases := e.phases[n := Prepared(deps)]), m)
  {
    hide VersionsOk, DepsOk, CreateCacheKey, NodeOk;
    var e' := e.(phases := e.phases[n := Prepared(deps)]);
    if m == n {
      PreparedDepsStable(w, tokens, e, e', n, deps);
      PreparedNodeOk(w, tokens, r', e', n);
    } else {
      NodeFrame(w, tokens, r, r', e, e', m);
    }
  }

  lemma SameVersions<V(!new)>(w: World<V>, tokens: Tokens<V>, r: RunRecord, r': RunRecord, e: Exec<V>)
    requires VersionsOk(w, tokens, r, e) && r'.dataVersions == r.dataVersions
    ensures VersionsOk(w, tokens, r', e)
  {
    hide Denotes;
  }

  lemma PreparedDepsStable<V(!new)>(w: World<V>, tokens: Tokens<V>, e: Exec<V>, e': Exec<V>, n: Name,
                                    deps: Dict<Name, Version>)
    requires e.g.Valid() && n in e.g.nodes && e.ArgumentsReady(n) && Continues(e, e')
    ensures DepsOk(w, tokens, e, n, deps) ==> DepsOk(w, tokens, e', n, deps)
    ensures e'.ArgumentsReady(n)
  {
    hide Matches, MapOf;
    ArgsStable(e, e', n);
    forall i | 0 <= i < |e.g.nodes[n].deps| && e.Known(e.g.nodes[n].deps[i].name).Some?
      ensures e'.Known(e.g.nodes[n].deps[i].name).Some?
    {}
  }

  lemma {:induction false} PreparedNodeOk<V(!new)>(w: World<V>, tokens: Tokens<V>, r: RunRecord, e: Exec<V>, n: Name)
    requires e.g.Valid() && n in e.phases && e.behaviors.Keys == e.g.nodes.Keys
    requires e.IsFunction(n) && n in e.slice && e.ArgumentsReady(n) && e.phases[n].Prepared? && n !in e.values
    requires !Keyed(e, n) ==> n !in r.cacheKeys
    requires Keyed(e, n) ==> DepsOk(w, tokens, e, n, e.phases[n].deps)
    requires Keyed(e, n) ==>
               GetCacheKey(r, n) == Some(CreateCacheKey(w.platform, n, e.g.nodes[n].code, e.phases[n].deps))
    ensures NodeOk(w, tokens, r, e, n)
  {
    hide DepsOk, CreateCacheKey;
  }

  lemma {:induction false} PrepareHookable<V(!new)>(w: World<V>, s: System<V>, ev: Event<V>, tokens: Tokens<V>,
                                                    origins: Origins<V>)
    requires Inv(w, s, tokens, origins) && ev.Prepare? && Enabled(w, s, ev)
    ensures Hookable(s, ev)
  {
    hide MetadataOk, ResultsOk, TokensDrawn, Denotes, WorldValid, NodeOk, VersionsOk;
    assert RunOk(w, tokens, s.adapter.runs[ev.run], s.execs[ev.run]);
    ArgsKeys(s.execs[ev.run], ev.node);
  }

  lemma {:induction false} PrepareOk<V(!new)>(w: World<V>, s: System<V>, ev: Event<V>, tokens: Tokens<V>,
                                              origins: Origins<V>)
    returns (tokens': Tokens<V>)
    requires Inv(w, s, tokens, origins) && ev.Prepare? && Enabled(w, s, ev)
    ensures Hookable(s, ev)
    ensures Inv(w, Apply(w, s, ev), tokens', origins) && Extends(tokens, tokens')
  {
    hide MetadataOk, ResultsOk, TokensDrawn, Denotes, WorldValid, RunOk, ArgumentVersions, CreateCacheKey;
    PrepareHookable(w, s, ev, tokens, origins);
    var e, r, n := s.execs[ev.run], s.adapter.runs[ev.run], ev.node;
    var s' := Apply(w, s, ev);
    tokens' := PreparedRun(w, tokens, r, e, n, s.adapter.uuids);
    StoresExtend(w, tokens, tokens', origins, s.adapter.stores);
    InvWithRun(w, s, s', ev.run, tokens, tokens', origins, origins);
  }

  /** `pre_node_execute` on one run's record. */
  lemma {:induction false} PreparedRun<V(!new)>(w: World<V>, tokens: Tokens<V>, r: RunRecord, e: Exec<V>, n: Name,
                                                uuids: nat)
    returns (tokens': Tokens<V>)
    requires WorldValid(w) && TokensDrawn(w, tokens, uuids) && RunOk(w, tokens, r, e)
    requires e.IsFunction(n) && n in e.slice && n !in e.phases && e.ArgumentsReady(n)
    requires forall i :: 0 <= i < |e.Args(n)| ==> e.Args(n)[i].0 in r.behaviors
    ensures Extends(tokens, tokens')
    ensures n in e.behaviors
    ensures var (deps, k) := ArgumentVersions(w, r, e.Args(n), uuids);
            var e' := e.(phases := e.phases[n := Prepared(deps)]);
            if Keyed(e, n) then
              && TokensDrawn(w, tokens', k)
              && RunOk(w, tokens', r.(cacheKeys := r.cacheKeys[n := CreateCacheKey(w.platform, n, e.g.nodes[n].code,
                   deps)]), e')
            else
              TokensDrawn(w, tokens', uuids) && RunOk(w, tokens', r, e')
    ensures n in r.codeVersions && r.codeVersions[n] == e.g.nodes[n].code && r.behaviors == e.behaviors
  {
    hide Denotes, TokensDrawn, NodeOk, ArgumentVersions, CreateCacheKey, VersionsOk, DepsOk;
    var deps := ArgumentVersions(w, r, e.Args(n), uuids).0;
    if !Keyed(e, n) {
      tokens' := tokens;
      PreparedRunOk(w, tokens', r, r, e, n, deps);
    } else {
      KnownOfVersions(w, tokens, r, e);
      ArgsKeys(e, n);
      tokens' := ArgumentVersionsOk(w, tokens, r, e, e.Args(n), uuids);
      PreparedDepsOk(w, tokens', r, e, n, uuids);
      RunExtends(w, tokens, tokens', r, e);
      PreparedRunOk(w, tokens', r, r.(cacheKeys := r.cacheKeys[n := CreateCacheKey(w.platform, n, e.g.nodes[n].code,
        deps)]), e, n, deps);
    }
  }

  lemma KnownOfVersions<V(!new)>(w: World<V>, tokens: Tokens<V>, r: RunRecord, e: Exec<V>)
    requires VersionsOk(w, tokens, r, e)
    ensures forall n :: n in r.dataVersions ==> e.Known(n).Some?
  {
    hide Denotes;
  }

  lemma {:induction false} PreparedDepsOk<V(!new)>(w: World<V>, tokens: Tokens<V>, r: RunRecord, e: Exec<V>, n: Name,
                                                   uuids: nat)
    requires e.Valid() && n in e.g.nodes && r.behaviors == e.behaviors
    requires forall i :: 0 <= i < |e.Args(n)| ==> e.Args(n)[i].0 in r.behaviors
    requires var deps := ArgumentVersions(w, r, e.Args(n), uuids).0;
             |deps| == |e.Args(n)| && forall i :: 0 <= i < |deps| ==> ArgumentOk(w, tokens, e, deps[i], e.Args(n)[i])
    ensures DepsOk(w, tokens, e, n, ArgumentVersions(w, r, e.Args(n), uuids).0)
  {
    hide Denotes, ArgumentVersions, DepsOk;
    var deps := ArgumentVersions(w, r, e.Args(n), uuids).0;
    ArgsKeys(e, n);
    forall i | 0 <= i < |deps| ensures CommaFree(deps[i].0) {
      assert ArgumentOk(w, tokens, e, deps[i], e.Args(n)[i]);
    }
    ArgumentsMatch(w, tokens, e, n, deps);
  }

  // ---------------------------------------------------------------- do_node_execute

  lemma DenotedIsClean<V(!new)>(w: World<V>, tokens: Tokens<V>, uuids: nat, version: Version, v: V)
    requires WorldValid(w) && TokensDrawn(w, tokens, uuids) && Denotes(w, tokens, version, v)
    ensures CommaFree(version) && version != IGNORED
  {
    if version in tokens {
      DrawnIsReserved(w, version, uuids);
    }
  }

  /** A prepared node has no data version in memory yet. */
  lemma NotInMemory<V(!new)>(w: World<V>, tokens: Tokens<V>, r: RunRecord, e: Exec<V>, n: Name)
    requires RunOk(w, tokens, r, e) && n in e.phases && e.phases[n].Prepared?
    ensures n !in r.dataVersions && n !in e.values && n in e.g.nodes && n in e.behaviors && e.IsFunction(n)
  {
    hide Denotes, DepsOk, Sound, CreateCacheKey;
    assert NodeOk(w, tokens, r, e, n);
  }

  /** A node that got a value, with a version standing for it (or none if caching is disabled for it). */
  lemma RanRunOk<V(!new)>(w: World<V>, tokens: Tokens<V>, r: RunRecord, r': RunRecord, e: Exec<V>, n: Name, v: V)
    requires RunOk(w, tokens, r, e) && n in e.phases && e.phases[n].Prepared? && n in e.g.nodes
    requires Sound(w, e, n, v)
    requires if n in r'.dataVersions
             then && r' == r.(dataVersions := r.dataVersions[n := r'.dataVersions[n]])
                  && CommaFree(r'.dataVersions[n]) && r'.dataVersions[n] != IGNORED &&
                       Denotes(w, tokens, r'.dataVersions[n], v)
             else r' == r && e.behaviors[n] == Disable
    ensures RunOk(w, tokens, r', AfterDo(e, n, Returned(v)))
  {
    hide Denotes, CreateCacheKey, NodeOk, Sound, VersionsOk, DepsOk, Dag<V>.Valid;
    var e' := AfterDo(e, n, Returned(v));
    NotInMemory(w, tokens, r, e, n);
    NodeReady(w, tokens, r, e, n);
    assert Continues(e, e');
    RanVersions(w, tokens, r, r', e, n, v);
    forall m | m in e'.phases ensures NodeOk(w, tokens, r', e', m) {
      if m == n {
        RanNodeOk(w, tokens, r', e, e', n, v);
      } else {
        NodeFrame(w, tokens, r, r', e, e', m);
      }
    }
  }

  lemma RanVersions<V(!new)>(w: World<V>, tokens: Tokens<V>, r: RunRecord, r': RunRecord, e: Exec<V>, n: Name, v: V)
    requires VersionsOk(w, tokens, r, e) && e.IsFunction(n) && n !in e.values
    requires if n in r'.dataVersions
             then && r' == r.(dataVersions := r.dataVersions[n := r'.dataVersions[n]])
                  && CommaFree(r'.dataVersions[n]) && r'.dataVersions[n] != IGNORED &&
                       Denotes(w, tokens, r'.dataVersions[n], v)
             else r' == r
    ensures VersionsOk(w, tokens, r', AfterDo(e, n, Returned(v)))
  {
    hide Denotes;
    var e' := AfterDo(e, n, Returned(v));
    forall m | m in r'.dataVersions && m != n ensures m in r.dataVersions && e'.Known(m) == e.Known(m) {}
  }

  lemma NodeReady<V(!new)>(w: World<V>, tokens: Tokens<V>, r: RunRecord, e: Exec<V>, n: Name)
    requires RunOk(w, tokens, r, e) && n in e.phases
    ensures n in e.g.nodes && e.IsFunction(n) && n in e.slice && e.ArgumentsReady(n) && n in r.codeVersions
    ensures e.phases[n].Prepared? && Keyed(e, n) ==>
              && GetCacheKey(r, n) == Some(CreateCacheKey(w.platform, n, e.g.nodes[n].code, e.phases[n].deps))
              && DepsOk(w, tokens, e, n, e.phases[n].deps)
    ensures e.phases[n].Prepared? && e.behaviors[n] == Ignore ==> GetCacheKey(r, n) == None
    ensures e.phases[n].Ran? ==> n in e.values && Sound(w, e, n, e.values[n])
    ensures e.phases[n].Ran? && e.behaviors[n] != Disable ==> n in r.dataVersions
  {
    hide VersionsOk, DepsOk, Sound, CreateCacheKey;
    assert NodeOk(w, tokens, r, e, n);
  }

  lemma RanNodeOk<V(!new)>(w: World<V>, tokens: Tokens<V>, r: RunRecord, e: Exec<V>, e': Exec<V>, n: Name, v: V)
    requires e.g.Valid() && e.behaviors.Keys == e.g.nodes.Keys && n in e.g.nodes
    requires e.IsFunction(n) && n in e.slice && e.ArgumentsReady(n) && e' == AfterDo(e, n, Returned(v))
    requires n !in e.values
    requires Sound(w, e, n, v) && (e.behaviors[n] != Disable ==> n in r.dataVersions)
    ensures NodeOk(w, tokens, r, e', n)
  {
    hide DepsOk, CreateCacheKey, AgreeOutsideIgnored, MapOf;
    ArgsStable(e, e', n);
    PreparedDepsStable(w, tokens, e, e', n, []);
    var args :| SoundWith(w, e, n, v, args);
    assert SoundWith(w, e', n, v, args);
  }

  /** A call that raised leaves the run's record alone. */
  lemma {:induction false} FailedRunOk<V(!new)>(w: World<V>, tokens: Tokens<V>, r: RunRecord, e: Exec<V>, n: Name,
                                                error: string)
    requires RunOk(w, tokens, r, e) && n in e.phases && e.phases[n].Prepared?
    ensures RunOk(w, tokens, r, AfterDo(e, n, Raised(error)))
  {
    hide Denotes, CreateCacheKey, NodeOk, SoundWith, DepsOk;
    var e' := AfterDo(e, n, Raised(error));
    NotInMemory(w, tokens, r, e, n);
    NodeReady(w, tokens, r, e, n);
    VersionsFrame(w, tokens, r, e, e');
    forall m | m in e'.phases ensures NodeOk(w, tokens, r, e', m) {
      if m == n {
        PreparedDepsStable(w, tokens, e, e', n, []);
        FailedNodeOk(w, tokens, r, e', n);
      } else {
        NodeFrame(w, tokens, r, r, e, e', m);
      }
    }
  }

  lemma FailedNodeOk<V(!new)>(w: World<V>, tokens: Tokens<V>, r: RunRecord, e: Exec<V>, n: Name)
    requires e.g.Valid() && n in e.phases && e.behaviors.Keys == e.g.nodes.Keys
    requires e.IsFunction(n) && n in e.slice && e.ArgumentsReady(n) && e.phases[n].Failed? && n !in e.values
    ensures NodeOk(w, tokens, r, e, n)
  {}

  /** A value the function just returned is sound. */
  lemma ReturnedIsSound<V(!new)>(w: World<V>, e: Exec<V>, n: Name, v: V)
    requires n in e.g.nodes && CanReturn(w, e, n, v)
    ensures Sound(w, e, n, v)
  {
    assert SoundWith(w, e, n, v, MapOf(e.Args(n)));
  }

  /** A value retrieved under the node's own key is sound. */
  lemma RetrievedIsSound<V(!new)>(w: World<V>, tokens: Tokens<V>, uuids: nat, e: Exec<V>, n: Name,
                                  deps: Dict<Name, Version>, version: Version, v: V, o: Origin<V>)
    requires WorldValid(w) && TokensDrawn(w, tokens, uuids)
    requires e.Valid() && n in e.g.nodes && DepsOk(w, tokens, e, n, deps)
    requires OriginOk(w, tokens, CreateCacheKey(w.platform, n, e.g.nodes[n].code, deps), version, o)
    requires Denotes(w, tokens, version, v)
    ensures Sound(w, e, n, v)
  {
    hide Denotes, TokensDrawn, MapOf, CreateCacheKey;
    var args := MapOf(e.Args(n));
    assert e.NodeReadable(n);
    KeyIdentity(w.platform, n, e.g.nodes[n].code, deps, o.name, o.code, o.deps);
    DenotesUnique(w, tokens, uuids, version, v, o.value);
    forall d | d in o.args && !(d in e.behaviors && e.behaviors[d] == Ignore)
      ensures o.args[d] == args[d]
    {
      DenotesUnique(w, tokens, uuids, MapOf(deps)[d], o.args[d], args[d]);
    }
    assert SoundWith(w, e, n, v, o.args);
  }

  /** Recording a fresh result keeps the stores right. */
  lemma {:induction false} RecordedOk<V(!new)>(w: World<V>, tokens: Tokens<V>, origins: Origins<V>,
                                               metadata: map<Option<string>, Version>, e: Exec<V>, n: Name,
                                               deps: Dict<Name, Version>, key: Option<string>, version: Version, v: V)
    returns (origins': Origins<V>)
    requires WorldValid(w) && MetadataOk(w, tokens, origins, metadata)
    requires e.Valid() && n in e.g.nodes && CanReturn(w, e, n, v) && Denotes(w, tokens, version, v)
    requires key.Some? ==>
               key == Some(CreateCacheKey(w.platform, n, e.g.nodes[n].code, deps)) && DepsOk(w, tokens, e, n, deps)
    ensures MetadataOk(w, tokens, origins', MetadataSet(w, metadata, key, version))
  {
    hide Denotes, Matches, CreateCacheKey, WorldValid;
    origins' := origins;
    if key.Some? && (w.overwrites || key !in metadata) {
      var o := Origin(n, e.g.nodes[n].code, deps, MapOf(e.Args(n)), v);
      assert e.NodeReadable(n);
      assert OriginOk(w, tokens, key.value, version, o);
      origins' := origins[key.value := o];
    }
  }

  lemma SmallerStores<V(!new)>(w: World<V>, tokens: Tokens<V>, origins: Origins<V>, stores: Stores<V>,
                               stores': Stores<V>)
    requires MetadataOk(w, tokens, origins, stores.metadata) && ResultsOk(w, tokens, stores.results)
    requires forall k :: k in stores'.metadata ==> k in stores.metadata && stores'.metadata[k] == stores.metadata[k]
    requires forall k :: k in stores'.results ==> k in stores.results && stores'.results[k] == stores.results[k]
    ensures MetadataOk(w, tokens, origins, stores'.metadata) && ResultsOk(w, tokens, stores'.results)
  {
    hide Denotes, OriginOk;
  }

  /** Calling the function and recording what it returned. */
  lemma {:induction false} ComputeOk<V(!new)>(w: World<V>, s: System<V>, a: Adapter<V>, run: RunId, n: Name,
                                              call: Outcome<V>, tokens: Tokens<V>, origins: Origins<V>)
    returns (tokens': Tokens<V>, origins': Origins<V>)
    requires Inv(w, s, tokens, origins)
    requires run in s.execs && n in s.execs[run].phases && s.execs[run].phases[n].Prepared? && n in s.execs[run].g.nodes
    requires n in s.execs[run].behaviors && s.execs[run].behaviors[n] != Disable
    requires call.Returned? ==> CanReturn(w, s.execs[run], n, call.value)
    requires a.runs == s.adapter.runs && a.uuids == s.adapter.uuids
    requires MetadataOk(w, tokens, origins, a.stores.metadata) && ResultsOk(w, tokens, a.stores.results)
    ensures var key := GetCacheKey(s.adapter.runs[run], n);
            var result := Compute(w, a, run, n, key, call);
            Inv(w, WithExec(s, result.adapter, run, AfterDo(s.execs[run], n, result.outcome)), tokens', origins')
    ensures Extends(tokens, tokens')
  {
    hide Denotes, DepsOk, CreateCacheKey, RunOk, MetadataOk, ResultsOk, TokensDrawn, WorldValid, VersionData;
    hide Versioned, Sound, MetadataSet;
    var e, r := s.execs[run], s.adapter.runs[run];
    var key := GetCacheKey(r, n);
    var result := Compute(w, a, run, n, key, call);
    var s' := WithExec(s, result.adapter, run, AfterDo(e, n, result.outcome));
    tokens', origins' := tokens, origins;
    match call {
      case Raised(error) =>
        FailedRunOk(w, tokens, r, e, n, error);
      case Returned(v) =>
        NodeReady(w, tokens, r, e, n);
        tokens' := Versioned(w, tokens, v, a.uuids);
        VersionDataDenotes(w, tokens, v, a.uuids);
        StoresExtend(w, tokens, tokens', origins, a.stores);
        RunExtends(w, tokens, tokens', r, e);
        ValidRun(w, tokens', r, e);
        NodeReady(w, tokens', r, e, n);
        origins' := RecordedOk(w, tokens', origins, a.stores.metadata, e, n, e.phases[n].deps, key,
          VersionData(w, v, a.uuids).0, v);
        ReturnedIsSound(w, e, n, v);
        RanRunOk(w, tokens', r, s'.adapter.runs[run], e, n, v);
    }
    InvWithRun(w, s, s', run, tokens, tokens', origins, origins');
  }

  lemma ValidRun<V(!new)>(w: World<V>, tokens: Tokens<V>, r: RunRecord, e: Exec<V>)
    requires RunOk(w, tokens, r, e)
    ensures e.Valid() && r.behaviors == e.behaviors
  {}

  lemma {:induction false} DoOk<V(!new)>(w: World<V>, s: System<V>, ev: Event<V>, tokens: Tokens<V>,
                                         origins: Origins<V>)
    returns (tokens': Tokens<V>, origins': Origins<V>)
    requires Inv(w, s, tokens, origins) && ev.Do? && Enabled(w, s, ev)
    ensures Hookable(s, ev)
    ensures Inv(w, Apply(w, s, ev), tokens', origins') && Extends(tokens, tokens')
  {
    hide Denotes, DepsOk, CreateCacheKey, RunOk, MetadataOk, ResultsOk, TokensDrawn, WorldValid, Sound;
    hide Compute, CanReturn;
    var e, r, n, a := s.execs[ev.run], s.adapter.runs[ev.run], ev.node, s.adapter;
    ValidRun(w, tokens, r, e);
    NotInMemory(w, tokens, r, e, n);
    NodeReady(w, tokens, r, e, n);
    var key := GetCacheKey(r, n);
    var version := GetDataVersion(a, r, n, key);
    tokens', origins' := tokens, origins;
    if e.behaviors[n] == Disable {
      match ev.call {
        case Raised(error) => FailedRunOk(w, tokens, r, e, n, error);
        case Returned(v) =>
          ReturnedIsSound(w, e, n, v);
          RanRunOk(w, tokens, r, r, e, n, v);
      }
      InvWithRun(w, s, Apply(w, s, ev), ev.run, tokens, tokens', origins, origins');
    } else if e.behaviors[n] != Default || !Retrievable(a, version) {
      tokens', origins' := ComputeOk(w, s, a, ev.run, n, ev.call, tokens, origins);
    } else if ev.retrievalFails {
      var a' := Forget(a, key, version.value);
      SmallerStores(w, tokens, origins, a.stores, a'.stores);
      tokens', origins' := ComputeOk(w, s, a', ev.run, n, ev.call, tokens, origins);
    } else {
      HitOk(w, s, ev.run, n, version.value, tokens, origins);
    }
  }

  /** Retrieving a stored result. */
  lemma {:induction false} HitOk<V(!new)>(w: World<V>, s: System<V>, run: RunId, n: Name, version: Version,
                                          tokens: Tokens<V>, origins: Origins<V>)
    requires Inv(w, s, tokens, origins)
    requires run in s.execs && n in s.execs[run].phases && s.execs[run].phases[n].Prepared?
    requires n in s.execs[run].behaviors && s.execs[run].behaviors[n] == Default
    requires GetDataVersion(s.adapter, s.adapter.runs[run], n, GetCacheKey(s.adapter.runs[run], n)) == Some(version)
    requires version in s.adapter.stores.results
    ensures Inv(w, WithExec(s, SetMemoryVersion(s.adapter, run, n, version), run,
                            AfterDo(s.execs[run], n, Returned(s.adapter.stores.results[version]))), tokens, origins)
  {
    hide Denotes, DepsOk, CreateCacheKey, RunOk, TokensDrawn, WorldValid, Sound, OriginOk;
    var e, r := s.execs[run], s.adapter.runs[run];
    ValidRun(w, tokens, r, e);
    NotInMemory(w, tokens, r, e, n);
    NodeReady(w, tokens, r, e, n);
    var key, v := GetCacheKey(r, n).value, s.adapter.stores.results[version];
    assert key in origins && OriginOk(w, tokens, key, version, origins[key]);
    RetrievedIsSound(w, tokens, s.adapter.uuids, e, n, e.phases[n].deps, version, v, origins[key]);
    DenotedIsClean(w, tokens, s.adapter.uuids, version, v);
    var a' := SetMemoryVersion(s.adapter, run, n, version);
    RanRunOk(w, tokens, r, a'.runs[run], e, n, v);
    InvWithRun(w, s, WithExec(s, a', run, AfterDo(e, n, Returned(v))), run, tokens, tokens, origins, origins);
  }

  lemma {:induction false} PostOk<V(!new)>(w: World<V>, s: System<V>, ev: Event<V>, tokens: Tokens<V>,
                                           origins: Origins<V>)
    requires Inv(w, s, tokens, origins) && ev.Post? && Enabled(w, s, ev)
    ensures Hookable(s, ev)
    ensures Inv(w, Apply(w, s, ev), tokens, origins)
  {
    hide Denotes, DepsOk, CreateCacheKey, RunOk, TokensDrawn, WorldValid, Sound, OriginOk;
    var e, r, n := s.execs[ev.run], s.adapter.runs[ev.run], ev.node;
    ValidRun(w, tokens, r, e);
    NodeReady(w, tokens, r, e, n);
    RanHasVersion(w, tokens, r, e, n);
  }

  lemma RanHasVersion<V(!new)>(w: World<V>, tokens: Tokens<V>, r: RunRecord, e: Exec<V>, n: Name)
    requires RunOk(w, tokens, r, e) && n in e.phases
    ensures n in e.values <==> e.phases[n].Ran?
    ensures n in e.values && n in r.dataVersions ==> Denotes(w, tokens, r.dataVersions[n], e.values[n])
  {
    hide Denotes, DepsOk, CreateCacheKey, Sound;
    assert NodeOk(w, tokens, r, e, n);
  }

  /** Every event keeps the invariant, and no hook fails on its look-ups. */
  lemma {:induction false} StepOk<V(!new)>(w: World<V>, s: System<V>, ev: Event<V>, tokens: Tokens<V>,
                                           origins: Origins<V>)
    returns (tokens': Tokens<V>, origins': Origins<V>)
    requires Inv(w, s, tokens, origins) && Enabled(w, s, ev)
    ensures Hookable(s, ev)
    ensures Inv(w, Apply(w, s, ev), tokens', origins') && Extends(tokens, tokens')
  {
    hide Denotes, RunOk, MetadataOk, ResultsOk, TokensDrawn, WorldValid, Enabled;
    tokens', origins' := tokens, origins;
    match ev {
      case Start(_, _, _, _, _, _, _) => tokens' := StartOk(w, s, ev, tokens, origins);
      case Prepare(_, _) => tokens' := PrepareOk(w, s, ev, tokens, origins);
      case Do(_, _, _, _) => tokens', origins' := DoOk(w, s, ev, tokens, origins);
      case Post(_, _) => PostOk(w, s, ev, tokens, origins);
      case LoseResult(_) => SmallerStores(w, tokens, origins, s.adapter.stores, Apply(w, s, ev).adapter.stores);
      case LoseMetadata(_) => SmallerStores(w, tokens, origins, s.adapter.stores, Apply(w, s, ev).adapter.stores);
      case Restart =>
    }
  }
}
