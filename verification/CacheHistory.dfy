/** What the cache promises after any history of runs. */
module CacheHistory {
  import opened Prelude
  import opened CacheKeys
  import opened Dataflow
  import opened Slicing
  import opened CacheProtocol
  import opened CacheSoundness

  /** Empty stores, no run yet. */
  ghost function Initial<V>(): System<V> {
    System(Adapter(Stores(map[], map[]), map[], 0), map[])
  }

  ghost function After<V(!new)>(w: World<V>, history: seq<Event<V>>): System<V> {
    if history == [] then Initial()
    else Apply(w, After(w, history[..|history| - 1]), history[|history| - 1])
  }

  /** A history in which every event was possible when it happened. */
  ghost predicate Legal<V(!new)>(w: World<V>, history: seq<Event<V>>) {
    history == [] ||
    (Legal(w, history[..|history| - 1]) && Enabled(w, After(w, history[..|history| - 1]), history[|history| - 1]))
  }

  lemma {:induction false} HistoryOk<V(!new)>(w: World<V>, history: seq<Event<V>>)
    returns (tokens: Tokens<V>, origins: Origins<V>)
    requires WorldValid(w) && Legal(w, history)
    ensures Inv(w, After(w, history), tokens, origins)
  {
    hide RunOk, Denotes, WorldValid, Enabled, Apply;
    tokens, origins := map[], map[];
    if history != [] {
      var before := history[..|history| - 1];
      tokens, origins := HistoryOk(w, before);
      tokens, origins := StepOk(w, After(w, before), history[|history| - 1], tokens, origins);
    }
  }

  /**
   * Soundness of every value any run ever got, over all histories: it is one the node's own code can
   * return on the arguments of that run, up to arguments declared irrelevant with IGNORE.
   */
  lemma {:induction false} EveryValueIsSound<V(!new)>(w: World<V>, history: seq<Event<V>>, run: RunId, n: Name)
    requires WorldValid(w) && Legal(w, history)
    requires run in After(w, history).execs && n in After(w, history).execs[run].values
    ensures var e := After(w, history).execs[run]; n in e.g.nodes && Sound(w, e, n, e.values[n])
  {
    hide Denotes, WorldValid, Sound, DepsOk, CreateCacheKey, MetadataOk, ResultsOk, TokensDrawn, Legal, After;
    var tokens, origins := HistoryOk(w, history);
    var s := After(w, history);
    assert n in s.execs[run].phases;
    NodeReady(w, tokens, s.adapter.runs[run], s.execs[run], n);
    RanHasVersion(w, tokens, s.adapter.runs[run], s.execs[run], n);
  }

  /** The metadata and result stores mean what they say. */
  ghost predicate StoresMeanWhatTheySay<V(!new)>(w: World<V>, stores: Stores<V>, tokens: Tokens<V>) {
    && (forall key :: Some(key) in stores.metadata ==>
          exists o: Origin<V> :: OriginOk(w, tokens, key, stores.metadata[Some(key)], o))
    && (forall version :: version in stores.results ==> Denotes(w, tokens, version, stores.results[version]))
    && (forall version, v, v' :: Denotes(w, tokens, version, v) && Denotes(w, tokens, version, v') ==> v == v')
  }

  /** However runs were interrupted and whatever was lost, the stores stay right. */
  lemma {:induction false} StoresStayRight<V(!new)>(w: World<V>, history: seq<Event<V>>)
    requires WorldValid(w) && Legal(w, history)
    ensures exists tokens :: StoresMeanWhatTheySay(w, After(w, history).adapter.stores, tokens)
  {
    hide Denotes, WorldValid, OriginOk, RunOk, TokensDrawn, Legal, After;
    var tokens, origins := HistoryOk(w, history);
    var a := After(w, history).adapter;
    forall version, v, v' | Denotes(w, tokens, version, v) && Denotes(w, tokens, version, v') ensures v == v' {
      DenotesUnique(w, tokens, a.uuids, version, v, v');
    }
    assert StoresMeanWhatTheySay(w, a.stores, tokens);
  }

  /** No hook ever fails to find a behavior, a code version or a data version it looks up. */
  lemma {:induction false} HooksNeverFail<V(!new)>(w: World<V>, history: seq<Event<V>>, ev: Event<V>)
    requires WorldValid(w) && Legal(w, history) && Enabled(w, After(w, history), ev)
    ensures Hookable(After(w, history), ev)
  {
    hide RunOk, Denotes, WorldValid, Enabled, Apply, Hookable;
    var tokens, origins := HistoryOk(w, history);
    tokens, origins := StepOk(w, After(w, history), ev, tokens, origins);
  }

  // ---------------------------------------------------------------- agreement with plain evaluation

  /** The functions of DEFAULT nodes are deterministic: what their code can return is what they return. */
  ghost predicate DefaultsDeterministic<V(!new)>(w: World<V>, e: Exec<V>) {
    forall n, args, v ::
      (n in e.g.nodes && n in e.behaviors && e.behaviors[n] == Default
       && w.can(SafeName(w.platform, n), e.g.nodes[n].code, args, v)) ==>
        e.g.nodes[n].fn(args) == Returned(v)
  }

  /** What the nodes that are never served from the cache produced in this run. */
  function Produced<V>(e: Exec<V>): map<Name, V> {
    map n | n in e.values && n in e.behaviors && e.behaviors[n] != Default :: e.values[n]
  }

  function PlainContext<V>(e: Exec<V>): Context<V> {
    Context(e.ctx.inputs, e.ctx.overrides + Produced(e))
  }

  /** Everything n depends on, as far as overrides let it be computed. */
  ghost function Ancestry<V>(e: Exec<V>, n: Name): set<Name>
    requires e.g.Valid()
  {
    Slice(e.g, Query(None, {}, e.ctx.overrides.Keys), [n])
  }

  ghost predicate ValuesSound<V(!new)>(w: World<V>, e: Exec<V>) {
    && e.Valid()
    && (forall n :: n in e.values ==> e.IsFunction(n) && e.ArgumentsReady(n) && Sound(w, e, n, e.values[n]))
  }

  /** Along a closed set of ancestors without IGNORE, known values are evaluated values. */
  lemma {:induction false} KnownIsEvaluated<V(!new)>(w: World<V>, e: Exec<V>, s: set<Name>, n: Name)
    requires ValuesSound(w, e) && DefaultsDeterministic(w, e)
    requires ClosedUpstream(e.g, Query(None, {}, e.ctx.overrides.Keys), s)
    requires forall m :: m in s ==> e.behaviors[m] != Ignore
    requires n in s && e.Known(n).Some?
    ensures Eval(e.g, PlainContext(e), n) == Value(e.Known(n).value)
    decreases e.g.rank[n], 1, 0
  {
    hide Gather, Sound, MapOf, SafeName;
    if e.IsFunction(n) && e.behaviors[n] == Default {
      GatheredIsKwargs(w, e, s, n, |e.g.nodes[n].deps|);
      DefaultValue(w, e, n);
    }
  }

  lemma {:induction false} GatheredIsKwargs<V(!new)>(w: World<V>, e: Exec<V>, s: set<Name>, n: Name, k: nat)
    requires ValuesSound(w, e) && DefaultsDeterministic(w, e)
    requires ClosedUpstream(e.g, Query(None, {}, e.ctx.overrides.Keys), s)
    requires forall m :: m in s ==> e.behaviors[m] != Ignore
    requires n in s && n in e.values && k <= |e.g.nodes[n].deps|
    ensures Gather(e.g, PlainContext(e), n, k) == Kwargs(e.Kwargs(n, k))
    decreases e.g.rank[n], 0, k
  {
    hide Eval, Extend, Sound, ValuesSound, DefaultsDeterministic, ClosedUpstream, Dag<V>.Valid, Exec<V>.Known;
    ReadyDependencies(w, e, s, n);
    GatherUnfold(e.g, PlainContext(e), n, k);
    hide Gather;
    if k > 0 {
      var dep := e.g.nodes[n].deps[k - 1];
      GatheredIsKwargs(w, e, s, n, k - 1);
      if e.Known(dep.name).Some? {
        KnownIsEvaluated(w, e, s, dep.name);
      }
      ExtendAgrees(e.Kwargs(n, k - 1), dep, Eval(e.g, PlainContext(e), dep.name), e.Known(dep.name));
    }
  }

  lemma ExtendAgrees<V>(kwargs: Dict<Name, V>, dep: Dep, r: EvalResult<V>, known: Option<V>)
    requires if known.Some? then r == Value(known.value) else r == Absent && !dep.required
    ensures Extend(Kwargs(kwargs), dep, r) == Kwargs(kwargs + if known.Some? then [(dep.name, known.value)] else [])
  {
    assert kwargs + [] == kwargs;
  }

  /** What a node that has run awaited: known values from the set, or absent inputs it can do without. */
  lemma {:induction false} ReadyDependencies<V(!new)>(w: World<V>, e: Exec<V>, s: set<Name>, n: Name)
    requires ValuesSound(w, e) && ClosedUpstream(e.g, Query(None, {}, e.ctx.overrides.Keys), s)
    requires n in s && n in e.values
    ensures e.g.Valid() && n in e.g.nodes && n in e.g.rank
    ensures forall i :: 0 <= i < |e.g.nodes[n].deps| ==>
              var dep := e.g.nodes[n].deps[i];
              && dep.name in e.g.nodes && dep.name in e.g.rank && e.g.rank[dep.name] < e.g.rank[n] && dep.name in s
              && (e.Known(dep.name).None? ==> Eval(e.g, PlainContext(e), dep.name) == Absent && !dep.required)
  {
    hide Sound, Eval;
    assert e.IsFunction(n) && e.ArgumentsReady(n);
    forall i | 0 <= i < |e.g.nodes[n].deps| && e.Known(e.g.nodes[n].deps[i].name).None?
      ensures Eval(e.g, PlainContext(e), e.g.nodes[n].deps[i].name) == Absent
    {
      AbsentWhenUnknown(e, e.g.nodes[n].deps[i].name);
    }
  }

  lemma AbsentWhenUnknown<V>(e: Exec<V>, d: Name)
    requires e.g.Valid() && d in e.g.nodes && e.g.nodes[d].external && e.Known(d).None?
    requires forall n :: n in e.values ==> e.IsFunction(n)
    ensures Eval(e.g, PlainContext(e), d) == Absent
  {}

  /** A sound value of a deterministic DEFAULT node without ignored arguments is the function's value. */
  lemma {:induction false} DefaultValue<V(!new)>(w: World<V>, e: Exec<V>, n: Name)
    requires ValuesSound(w, e) && DefaultsDeterministic(w, e)
    requires n in e.values && e.behaviors[n] == Default
    requires forall i :: 0 <= i < |e.g.nodes[n].deps| ==> e.behaviors[e.g.nodes[n].deps[i].name] != Ignore
    ensures e.g.nodes[n].fn(MapOf(e.Args(n))) == Returned(e.values[n])
  {
    hide Exec<V>.Args, Exec<V>.ArgumentsReady, SafeName;
    assert e.Valid() && Sound(w, e, n, e.values[n]);
    var args :| SoundWith(w, e, n, e.values[n], args);
    NothingIgnored(e, n, args);
  }

  lemma NothingIgnored<V>(e: Exec<V>, n: Name, args: map<Name, V>)
    requires e.Valid() && n in e.g.nodes
    requires AgreeOutsideIgnored(e.behaviors, args, MapOf(e.Args(n)))
    requires forall i :: 0 <= i < |e.g.nodes[n].deps| ==> e.behaviors[e.g.nodes[n].deps[i].name] != Ignore
    ensures args == MapOf(e.Args(n))
  {
    hide Exec<V>.Args, Exec<V>.Valid, Exec<V>.Known, Dag<V>.Valid, DistinctKeys, MapOf;
    ArgsKeys(e, n);
    ArgsAreDeps(e, n);
    MapOfAll(e.Args(n));
    forall d | d in args ensures args[d] == MapOf(e.Args(n))[d] {
      assert HasKey(e.Args(n), d);
      var i :| 0 <= i < |e.Args(n)| && e.Args(n)[i].0 == d;
      assert e.g.Uses(n, d);
    }
  }

  ghost predicate NoIgnoreAbove<V>(e: Exec<V>, n: Name) {
    e.g.Valid() ==> forall m :: m in Ancestry(e, n) && m in e.behaviors ==> e.behaviors[m] != Ignore
  }

  /** What plain evaluation makes of n, where the graph is one. */
  ghost predicate EvaluatesTo<V(!new)>(e: Exec<V>, n: Name, v: V) {
    e.g.Valid() && n in e.g.nodes && Eval(e.g, PlainContext(e), n) == Value(v)
  }

  /**
   * The cache agrees with plain evaluation: after any history, a value whose ancestors have no IGNORE
   * node is the one the graph evaluates to, with the values RECOMPUTE and DISABLE nodes produced in
   * that run taken as given.
   */
  lemma {:induction false} CacheAgreesWithEvaluation<V(!new)>(w: World<V>, history: seq<Event<V>>, run: RunId, n: Name)
    requires WorldValid(w) && Legal(w, history)
    requires run in After(w, history).execs && n in After(w, history).execs[run].values
    requires DefaultsDeterministic(w, After(w, history).execs[run])
    requires NoIgnoreAbove(After(w, history).execs[run], n)
    ensures EvaluatesTo(After(w, history).execs[run], n, After(w, history).execs[run].values[n])
  {
    hide *;
    var tokens, origins := HistoryOk(w, history);
    RunOfInv(w, After(w, history), tokens, origins, run);
    ExecAgrees(w, After(w, history).execs[run], n);
  }

  lemma RunOfInv<V(!new)>(w: World<V>, s: System<V>, tokens: Tokens<V>, origins: Origins<V>, run: RunId)
    requires Inv(w, s, tokens, origins) && run in s.execs
    ensures ValuesSound(w, s.execs[run])
  {
    hide RunOk, ValuesSound, MetadataOk, ResultsOk, TokensDrawn, WorldValid;
    RunValuesSound(w, tokens, s.adapter.runs[run], s.execs[run]);
  }

  lemma {:induction false} ExecAgrees<V(!new)>(w: World<V>, e: Exec<V>, n: Name)
    requires ValuesSound(w, e) && DefaultsDeterministic(w, e) && NoIgnoreAbove(e, n) && n in e.values
    ensures EvaluatesTo(e, n, e.values[n])
  {
    hide Slice, Eval, DefaultsDeterministic, Sound, Exec<V>.ArgumentsReady;
    SliceClosed(e.g, Query(None, {}, e.ctx.overrides.Keys), [n]);
    assert [n][0] in Ancestry(e, n);
    KnownIsEvaluated(w, e, Ancestry(e, n), n);
  }

  lemma RunValuesSound<V(!new)>(w: World<V>, tokens: Tokens<V>, r: RunRecord, e: Exec<V>)
    requires RunOk(w, tokens, r, e)
    ensures ValuesSound(w, e)
  {
    hide Denotes, Sound, DepsOk, CreateCacheKey, NodeOk;
    forall n | n in e.values ensures e.IsFunction(n) && e.ArgumentsReady(n) && Sound(w, e, n, e.values[n]) {
      NodeReady(w, tokens, r, e, n);
      RanHasVersion(w, tokens, r, e, n);
    }
  }

  /**
   * Where runtime inputs may name function nodes the promise fails: such an input, once its value is
   * in the result store, is handed out in place of the node's own result, whatever the function would do.
   */
  lemma InputShadowsNode<V(!new)>(w: World<V>, a: Adapter<V>, run: RunId, behaviors: map<Name, Behavior>,
                                  codes: map<Name, string>, n: Name, v: V, call: Outcome<V>)
    requires n in behaviors && behaviors[n] == Default
    requires w.hash(v) != UNHASHABLE && w.hash(v) in a.stores.results && a.stores.results[w.hash(v)] == v
    ensures var started := PreGraphExecute(w, a, run, behaviors, codes, [(n, v)], []);
            var result := DoNodeExecute(w, started, run, n, call, false);
            result.outcome == Returned(v) && !result.executed
  {
    var inputs: Dict<Name, V> := [(n, v)];
    assert inputs[1..] == [];
    var version := VersionData(w, v, a.uuids);
    assert VersionAll(w, map[n := version.0], inputs[1..], version.1) == (map[n := version.0], version.1);
    assert VersionAll(w, map[], inputs, a.uuids) == (map[n := w.hash(v)], a.uuids);
  }

  /**
   * Exactly when the pre hook of a node that is to be cached finds a behavior for every argument: every parameter
   * with a default value is named like a node. `Exec.Valid` asks for more, that it is a dependency.
   */
  lemma DefaultsDecideThePreHook<V(!new)>(s: System<V>, run: RunId, n: Name)
    requires run in s.execs && run in s.adapter.runs
    requires var e, r := s.execs[run], s.adapter.runs[run];
             && e.g.Valid() && n in e.g.nodes && e.behaviors.Keys == e.g.nodes.Keys
             && r.behaviors == e.behaviors && n in r.codeVersions
    ensures var defaults := s.execs[run].g.nodes[n].defaults;
            Hookable(s, Event.Prepare(run, n)) <==>
              forall i :: 0 <= i < |defaults| ==> defaults[i].0 in s.execs[run].g.nodes
  {
    var e := s.execs[run];
    var node, args := e.g.nodes[n], e.Args(n);
    var kwargs := e.Kwargs(n, |node.deps|);
    assert e.g.NodeValid(n);
    KwargsKeys(e, n, |node.deps|);
    ResolvedKeys(node.defaults, kwargs);
    hide ResolveDefaults;
    if Hookable(s, Event.Prepare(run, n)) {
      forall i | 0 <= i < |node.defaults| ensures node.defaults[i].0 in e.g.nodes {
        assert HasKey(node.defaults, node.defaults[i].0);
        var j :| 0 <= j < |args| && args[j].0 == node.defaults[i].0;
      }
    }
    if forall i :: 0 <= i < |node.defaults| ==> node.defaults[i].0 in e.g.nodes {
      forall i | 0 <= i < |args| ensures args[i].0 in e.g.nodes {
        if i < |kwargs| {
          assert args[..|kwargs|][i] == kwargs[i];
        } else {
          assert args[i] in node.defaults;
        }
      }
    }
  }
}
