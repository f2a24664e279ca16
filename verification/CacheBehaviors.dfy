/** What each caching behavior promises: which nodes are called, what counts for a key, what is found again. */
module CacheBehaviors {
  import opened Prelude
  import opened CacheKeys
  import opened Dataflow
  import opened CacheProtocol
  import opened CacheSoundness
  import opened CacheHistory

  // ---------------------------------------------------------------- who is called

  /** The data version on record for n: of this run, or of the stored entry under n's key. */
  ghost predicate OnRecord<V>(a: Adapter<V>, r: RunRecord, n: Name, version: Version) {
    if n in r.dataVersions then version == r.dataVersions[n]
    else n in r.cacheKeys && Some(r.cacheKeys[n]) in a.stores.metadata &&
           version == a.stores.metadata[Some(r.cacheKeys[n])]
  }

  ghost predicate StoredOnRecord<V>(a: Adapter<V>, r: RunRecord, n: Name) {
    exists version :: OnRecord(a, r, n, version) && version in a.stores.results
  }

  lemma ComputeCalls<V>(w: World<V>, a: Adapter<V>, run: RunId, n: Name, key: Option<string>, call: Outcome<V>)
    requires run in a.runs
    ensures Compute(w, a, run, n, key, call).executed && Compute(w, a, run, n, key, call).outcome == call
  {}

  /**
   * Exactly who is served: a DEFAULT node whose result is stored under the version on record, unless retrieving it
   * fails. It gets that result; any other node is called and hands on what the call returned or raised.
   */
  lemma OnlyDefaultIsServed<V>(w: World<V>, a: Adapter<V>, run: RunId, n: Name, call: Outcome<V>, retrievalFails: bool)
    requires run in a.runs && n in a.runs[run].behaviors
    ensures var r, result := a.runs[run], DoNodeExecute(w, a, run, n, call, retrievalFails);
            && (result.executed <==>
                  || r.behaviors[n] != Default || retrievalFails
                  || forall version :: OnRecord(a, r, n, version) ==> version !in a.stores.results)
            && (result.executed ==> result.outcome == call)
            && (!result.executed ==>
                  exists version :: OnRecord(a, r, n, version) && version in a.stores.results &&
                                    result.outcome == Returned(a.stores.results[version]))
  {
    var r := a.runs[run];
    var key := GetCacheKey(r, n);
    var version := GetDataVersion(a, r, n, key);
    assert version.Some? ==> OnRecord(a, r, n, version.value);
    ComputeCalls(w, a, run, n, key, call);
    if version.Some? {
      ComputeCalls(w, Forget(a, key, version.value), run, n, key, call);
    }
    hide Compute;
  }

  /** The i-th event is the last execution of n in this run, and the run is still on. */
  ghost predicate LastExecution<V>(history: seq<Event<V>>, run: RunId, n: Name, i: nat) {
    && i < |history| && history[i].Do? && history[i].run == run && history[i].node == n
    && forall j :: i < j < |history| ==>
         !history[j].Restart? && !(history[j].Do? && history[j].run == run && history[j].node == n)
  }

  /** The node holds what this call returned, and nothing if it raised. */
  ghost predicate HoldsResult<V>(e: Exec<V>, n: Name, call: Outcome<V>) {
    match call
    case Returned(v) => n in e.values && e.values[n] == v
    case Raised(_) => n !in e.values
  }

  ghost predicate CalledInThisRun<V(!new)>(w: World<V>, history: seq<Event<V>>, run: RunId, n: Name) {
    && run in After(w, history).execs
    && exists i: nat :: LastExecution(history, run, n, i) &&
         HoldsResult(After(w, history).execs[run], n, history[i].call)
  }

  /** The node is not DEFAULT and this run is through with it. */
  ghost predicate ExecutedUncached<V>(s: System<V>, run: RunId, n: Name) {
    && run in s.execs && n in s.execs[run].phases && !s.execs[run].phases[n].Prepared?
    && n in s.execs[run].behaviors && s.execs[run].behaviors[n] != Default
  }

  /**
   * After any history a RECOMPUTE, DISABLE or IGNORE node holds what its own function returned in this run, however
   * full the stores are, and no value if the function raised.
   */
  lemma {:induction false} UncachedIsCalled<V(!new)>(w: World<V>, history: seq<Event<V>>, run: RunId, n: Name)
    requires WorldValid(w) && Legal(w, history) && ExecutedUncached(After(w, history), run, n)
    ensures CalledInThisRun(w, history, run, n)
  {
    hide WorldValid, Enabled, Apply, Denotes;
    if history != [] {
      var k := |history| - 1;
      var before, ev := history[..k], history[k];
      if ev.Do? && ev.run == run && ev.node == n {
        var tokens, origins := HistoryOk(w, before);
        ExecutionHolds(w, After(w, before), ev, tokens, origins);
        assert LastExecution(history, run, n, k);
      } else {
        OthersKeepNode(w, After(w, before), ev, run, n);
        UncachedIsCalled(w, before, run, n);
        StillCalled(w, before, ev, run, n);
        assert before + [ev] == history;
      }
    }
  }

  lemma StillCalled<V(!new)>(w: World<V>, before: seq<Event<V>>, ev: Event<V>, run: RunId, n: Name)
    requires CalledInThisRun(w, before, run, n) && !(ev.Do? && ev.run == run && ev.node == n) && !ev.Restart?
    requires run in After(w, before + [ev]).execs
    requires var e, e' := After(w, before).execs[run], After(w, before + [ev]).execs[run];
             (n in e'.values <==> n in e.values) && (n in e.values ==> e'.values[n] == e.values[n])
    ensures CalledInThisRun(w, before + [ev], run, n)
  {
    hide After;
    var history := before + [ev];
    var i: nat :| LastExecution(before, run, n, i) && HoldsResult(After(w, before).execs[run], n, before[i].call);
    assert history[i] == before[i];
    assert LastExecution(history, run, n, i);
  }

  lemma ReadyToExecute<V(!new)>(w: World<V>, s: System<V>, ev: Event<V>, tokens: Tokens<V>, origins: Origins<V>)
    requires Inv(w, s, tokens, origins) && ev.Do? && Enabled(w, s, ev)
    ensures Hookable(s, ev) && ev.run in s.execs && ev.run in s.adapter.runs && ev.node in s.execs[ev.run].behaviors
    ensures s.adapter.runs[ev.run].behaviors == s.execs[ev.run].behaviors && ev.node !in s.execs[ev.run].values
  {
    hide MetadataOk, ResultsOk, TokensDrawn, WorldValid, CanReturn, RunOk;
    var e, r := s.execs[ev.run], s.adapter.runs[ev.run];
    NotInMemory(w, tokens, r, e, ev.node);
    NodeReady(w, tokens, r, e, ev.node);
    ValidRun(w, tokens, r, e);
  }

  lemma ExecutionHolds<V(!new)>(w: World<V>, s: System<V>, ev: Event<V>, tokens: Tokens<V>, origins: Origins<V>)
    requires Inv(w, s, tokens, origins) && ev.Do? && Enabled(w, s, ev)
    ensures ev.run in s.execs && ev.run in Apply(w, s, ev).execs && ev.node in s.execs[ev.run].behaviors
    ensures Apply(w, s, ev).execs[ev.run].behaviors == s.execs[ev.run].behaviors
    ensures s.execs[ev.run].behaviors[ev.node] != Default ==>
              HoldsResult(Apply(w, s, ev).execs[ev.run], ev.node, ev.call)
  {
    hide Inv, Enabled, DoNodeExecute;
    ReadyToExecute(w, s, ev, tokens, origins);
    OnlyDefaultIsServed(w, s.adapter, ev.run, ev.node, ev.call, ev.retrievalFails);
    hide OnRecord;
  }

  /** No other event touches a node its run is through with. */
  lemma OthersKeepNode<V(!new)>(w: World<V>, s: System<V>, ev: Event<V>, run: RunId, n: Name)
    requires Enabled(w, s, ev) && !(ev.Do? && ev.run == run && ev.node == n)
    requires ExecutedUncached(Apply(w, s, ev), run, n)
    ensures ExecutedUncached(s, run, n) && !ev.Restart?
    ensures var e, e' := s.execs[run], Apply(w, s, ev).execs[run];
            (n in e'.values <==> n in e.values) && (n in e.values ==> e'.values[n] == e.values[n])
  {
    hide DoNodeExecute, PreNodeExecute, PreGraphExecute, PostNodeExecute, SliceOf, CodesOf, CanReturn, DepsOf;
    hide Exec<V>.Valid, Exec<V>.Args, Exec<V>.ArgumentsReady, Dag<V>.Valid, InputsAreExternal;
  }

  /**
   * A call that raises records nothing: the adapter is as it was, but for the two entries that go where a stored result
   * could not be retrieved.
   */
  lemma RaisedRecordsNothing<V>(w: World<V>, a: Adapter<V>, run: RunId, n: Name, error: string, retrievalFails: bool)
    requires run in a.runs && n in a.runs[run].behaviors
    ensures var r, result := a.runs[run], DoNodeExecute(w, a, run, n, Raised(error), retrievalFails);
            result.executed ==>
              if r.behaviors[n] == Default && StoredOnRecord(a, r, n) then
                exists version ::
                  && OnRecord(a, r, n, version)
                  && result.adapter == a.(stores := Stores(a.stores.metadata - {GetCacheKey(r, n)},
                                                           a.stores.results - {version}))
              else result.adapter == a
  {
    var r := a.runs[run];
    var version := GetDataVersion(a, r, n, GetCacheKey(r, n));
    assert version.Some? ==> OnRecord(a, r, n, version.value);
    assert forall other :: OnRecord(a, r, n, other) ==> version == Some(other);
  }

  /** A stored result that could not be retrieved is gone, so the post hook stores the new one in its place. */
  lemma UnretrievableIsReplaced<V>(w: World<V>, a: Adapter<V>, run: RunId, n: Name, version: Version, v: V)
    requires run in a.runs && n in a.runs[run].behaviors && a.runs[run].behaviors[n] == Default
    requires OnRecord(a, a.runs[run], n, version) && version in a.stores.results
    ensures var a' := DoNodeExecute(w, a, run, n, Returned(v), true).adapter;
            && version !in a'.stores.results
            && run in a'.runs && n in a'.runs[run].behaviors && n in a'.runs[run].dataVersions
            && var stores := PostNodeExecute(a', run, n, v, true).stores;
               a'.runs[run].dataVersions[n] == version ==> version in stores.results && stores.results[version] == v
  {}

  /** Told that the node failed, the post hook does nothing. */
  lemma FailureIsNotStored<V>(a: Adapter<V>, run: RunId, n: Name, result: V)
    requires run in a.runs && n in a.runs[run].behaviors
    ensures PostNodeExecute(a, run, n, result, false) == a
  {}

  // ---------------------------------------------------------------- what leaves no trace

  /** The hooks of a DISABLE node leave the adapter and its stores as they are. */
  lemma DisabledLeavesNoTrace<V>(w: World<V>, a: Adapter<V>, run: RunId, n: Name, args: Dict<Name, V>,
                                 call: Outcome<V>, retrievalFails: bool, result: V, success: bool)
    requires run in a.runs && n in a.runs[run].behaviors && n in a.runs[run].codeVersions
    requires forall i :: 0 <= i < |args| ==> args[i].0 in a.runs[run].behaviors
    requires a.runs[run].behaviors[n] == Disable
    ensures PreNodeExecute(w, a, run, n, args) == a
    ensures DoNodeExecute(w, a, run, n, call, retrievalFails).adapter == a
    ensures PostNodeExecute(a, run, n, result, success) == a
  {}

  /** The arguments have the same names in the same order and differ at most where the behavior is IGNORE. */
  ghost predicate SameUpToIgnored<V>(r: RunRecord, args: Dict<Name, V>, args': Dict<Name, V>) {
    && |args'| == |args|
    && forall i :: 0 <= i < |args| ==>
         && args'[i].0 == args[i].0 && args[i].0 in r.behaviors
         && (r.behaviors[args[i].0] != Ignore ==> args'[i].1 == args[i].1)
  }

  /** The value of an IGNORE dependency counts for no key: what differs in such values alone is versioned alike. */
  lemma {:induction false} IgnoredDoNotCount<V>(w: World<V>, r: RunRecord, args: Dict<Name, V>, args': Dict<Name, V>,
                                                uuids: nat)
    requires SameUpToIgnored(r, args, args')
    ensures ArgumentVersions(w, r, args', uuids) == ArgumentVersions(w, r, args, uuids)
    decreases |args|
  {
    if args != [] {
      var k := ArgumentVersion(w, r, args[0].0, args[0].1, uuids).1;
      IgnoredDoNotCount(w, r, args[1..], args'[1..], k);
    }
  }

  /** So the pre hook leaves the same key, and everything else, alike. */
  lemma {:induction false} IgnoredLeaveTheKey<V>(w: World<V>, a: Adapter<V>, run: RunId, n: Name, args: Dict<Name, V>,
                                                 args': Dict<Name, V>)
    requires run in a.runs && n in a.runs[run].behaviors && n in a.runs[run].codeVersions
    requires SameUpToIgnored(a.runs[run], args, args')
    ensures PreNodeExecute(w, a, run, n, args') == PreNodeExecute(w, a, run, n, args)
  {
    IgnoredDoNotCount(w, a.runs[run], args, args', a.uuids);
    hide ArgumentVersions;
  }

  // ---------------------------------------------------------------- which versions are given

  /** A version for this value: its fingerprint, or a token made from a uuid not drawn before. */
  ghost predicate FreshVersion<V>(w: World<V>, version: Version, v: V, uuids: nat) {
    if w.hash(v) != UNHASHABLE then version == w.hash(v)
    else exists k: nat :: k >= uuids && version == UNHASHABLE_PREFIX + w.uuid(k)
  }

  lemma FreshLater<V>(w: World<V>, version: Version, v: V, uuids: nat, later: nat)
    requires FreshVersion(w, version, v, later) && uuids <= later
    ensures FreshVersion(w, version, v, uuids)
  {}

  lemma VersionDataIsFresh<V>(w: World<V>, v: V, uuids: nat)
    ensures FreshVersion(w, VersionData(w, v, uuids).0, v, uuids) && VersionData(w, v, uuids).1 >= uuids
  {}

  /** What the pre hook writes into the key for this argument, by the behavior of the dependency. */
  ghost predicate VersionedAs<V>(w: World<V>, r: RunRecord, arg: (Name, V), version: Version, uuids: nat)
    requires arg.0 in r.behaviors
  {
    match r.behaviors[arg.0]
    case Ignore => version == "<ignore>"
    case Disable => exists k: nat :: k >= uuids && version == "<disable>_" + w.uuid(k)
    case _ =>
      if arg.0 in r.dataVersions then version == r.dataVersions[arg.0] else FreshVersion(w, version, arg.1, uuids)
  }

  /** The versions in a key, argument by argument: only what this run has no version for is versioned anew. */
  lemma {:induction false} ArgumentsVersioned<V>(w: World<V>, r: RunRecord, args: Dict<Name, V>, uuids: nat, i: nat)
    requires (forall j :: 0 <= j < |args| ==> args[j].0 in r.behaviors) && i < |args|
    ensures var deps := ArgumentVersions(w, r, args, uuids).0;
            && |deps| == |args| && deps[i].0 == args[i].0 && VersionedAs(w, r, args[i], deps[i].1, uuids)
    decreases |args|
  {
    var (version, k) := ArgumentVersion(w, r, args[0].0, args[0].1, uuids);
    if i > 0 {
      ArgumentsVersioned(w, r, args[1..], k, i - 1);
      var later := ArgumentVersions(w, r, args, uuids).0[i].1;
      if r.behaviors[args[i].0] == Disable {
        var j: nat :| j >= k && later == DISABLE_PREFIX + w.uuid(j);
      } else if r.behaviors[args[i].0] != Ignore && args[i].0 !in r.dataVersions {
        FreshLater(w, later, args[i].1, uuids, k);
      }
    } else {
      VersionDataIsFresh(w, args[0].1, uuids);
      ArgumentCount(w, r, args, uuids);
    }
  }

  lemma {:induction false} ArgumentCount<V>(w: World<V>, r: RunRecord, args: Dict<Name, V>, uuids: nat)
    requires forall j :: 0 <= j < |args| ==> args[j].0 in r.behaviors
    ensures |ArgumentVersions(w, r, args, uuids).0| == |args|
    decreases |args|
  {
    if args != [] {
      ArgumentCount(w, r, args[1..], ArgumentVersion(w, r, args[0].0, args[0].1, uuids).1);
    }
  }

  /**
   * The pre hook gives DEFAULT and RECOMPUTE nodes a key made of their name, their code version and the versions of
   * their arguments, and changes nothing else; it does nothing for IGNORE and DISABLE nodes.
   */
  lemma PreHookKey<V>(w: World<V>, a: Adapter<V>, run: RunId, n: Name, args: Dict<Name, V>)
    requires run in a.runs && n in a.runs[run].behaviors && n in a.runs[run].codeVersions
    requires forall i :: 0 <= i < |args| ==> args[i].0 in a.runs[run].behaviors
    ensures var r, a' := a.runs[run], PreNodeExecute(w, a, run, n, args);
            match r.behaviors[n]
            case Ignore => a' == a
            case Disable => a' == a
            case _ =>
              var key := CreateCacheKey(w.platform, n, r.codeVersions[n], ArgumentVersions(w, r, args, a.uuids).0);
              && a'.stores == a.stores && a'.uuids >= a.uuids
              && a'.runs == a.runs[run := r.(cacheKeys := r.cacheKeys[n := key])]
  {
    UuidsGrow(w, a.runs[run], args, a.uuids);
    hide ArgumentVersions, CreateCacheKey;
  }

  lemma {:induction false} UuidsGrow<V>(w: World<V>, r: RunRecord, args: Dict<Name, V>, uuids: nat)
    requires forall i :: 0 <= i < |args| ==> args[i].0 in r.behaviors
    ensures ArgumentVersions(w, r, args, uuids).1 >= uuids
    decreases |args|
  {
    if args != [] {
      UuidsGrow(w, r, args[1..], ArgumentVersion(w, r, args[0].0, args[0].1, uuids).1);
    }
  }

  /** The version of every name comes from the values, the last if it occurs twice, or was there before. */
  lemma {:induction false} AllVersioned<V>(w: World<V>, versions: map<Name, Version>, values: Dict<Name, V>, uuids: nat,
                                           n: Name)
    ensures var (all, k) := VersionAll(w, versions, values, uuids);
            && k >= uuids
            && (n in all <==> n in versions || n in MapOf(values))
            && (n in all && n in MapOf(values) ==> FreshVersion(w, all[n], MapOf(values)[n], uuids))
            && (n in all && n !in MapOf(values) ==> all[n] == versions[n])
    decreases |values|
  {
    if values != [] {
      var (version, k) := VersionData(w, values[0].1, uuids);
      AllVersioned(w, versions[values[0].0 := version], values[1..], k, n);
      MapOfCons(values);
      VersionDataIsFresh(w, values[0].1, uuids);
      if n in MapOf(values[1..]) {
        FreshLater(w, VersionAll(w, versions, values, uuids).0[n], MapOf(values)[n], uuids, k);
      }
    }
  }

  lemma {:induction false} MapOfCons<K, V>(d: Dict<K, V>)
    requires d != []
    ensures MapOf(d) == map[d[0].0 := d[0].1] + MapOf(d[1..])
  {
    var n := |d| - 1;
    if n > 0 {
      MapOfCons(d[..n]);
      assert d[..n][1..] == d[1..][..n - 1] && d[1..][n - 1] == d[n];
    } else {
      assert d[..n] == [] && d[1..] == [];
    }
  }

  lemma {:induction false} InputCodes<V>(codes: map<Name, string>, inputs: Dict<Name, V>, n: Name)
    ensures n in InputCodeVersions(codes, inputs) <==> n in codes || n in MapOf(inputs)
    ensures n in MapOf(inputs) ==> InputCodeVersions(codes, inputs)[n] == "input__" + n
    ensures n in codes && n !in MapOf(inputs) ==> InputCodeVersions(codes, inputs)[n] == codes[n]
    decreases |inputs|
  {
    if inputs != [] {
      InputCodes(codes[inputs[0].0 := "input__" + inputs[0].0], inputs[1..], n);
      MapOfCons(inputs);
      if n == inputs[0].0 && n !in MapOf(inputs[1..]) {
        assert n in codes[inputs[0].0 := "input__" + inputs[0].0];
      }
    }
  }

  /**
   * What a run starts with: every input and every override has a version, an override's where a name is both; an input
   * has its name for a code version, every other node the one resolved. No key, no other run and no store is touched.
   */
  lemma {:induction false} StartedWith<V>(w: World<V>, a: Adapter<V>, run: RunId, behaviors: map<Name, Behavior>,
                                          codes: map<Name, string>, inputs: Dict<Name, V>, overrides: Dict<Name, V>,
                                          n: Name)
    ensures var a', ins, overs := PreGraphExecute(w, a, run, behaviors, codes, inputs, overrides), MapOf(inputs),
              MapOf(overrides);
            && run in a'.runs && a'.stores == a.stores && a'.runs == a.runs[run := a'.runs[run]]
            && a'.runs[run].behaviors == behaviors && a'.runs[run].cacheKeys == map[]
            && (n in a'.runs[run].dataVersions <==> n in ins || n in overs)
            && (n in overs ==> FreshVersion(w, a'.runs[run].dataVersions[n], overs[n], a.uuids))
            && (n in ins && n !in overs ==> FreshVersion(w, a'.runs[run].dataVersions[n], ins[n], a.uuids))
            && (n in a'.runs[run].codeVersions <==> n in codes || n in ins)
            && (n in ins ==> a'.runs[run].codeVersions[n] == "input__" + n)
            && (n in codes && n !in ins ==> a'.runs[run].codeVersions[n] == codes[n])
  {
    hide MapOf, VersionAll, InputCodeVersions;
    var (fromInputs, k) := VersionAll(w, map[], inputs, a.uuids);
    AllVersioned(w, map[], inputs, a.uuids, n);
    AllVersioned(w, fromInputs, overrides, k, n);
    InputCodes(codes, inputs, n);
    var versions := VersionAll(w, fromInputs, overrides, k).0;
    if n in MapOf(overrides) {
      FreshLater(w, versions[n], MapOf(overrides)[n], a.uuids, k);
    }
  }

  // ---------------------------------------------------------------- what is never found

  /** The argument gets a version made up for this one key: a DISABLE dependency, or a value without fingerprint. */
  ghost predicate VersionedAnew<V>(w: World<V>, r: RunRecord, arg: (Name, V)) {
    && arg.0 in r.behaviors && r.behaviors[arg.0] != Ignore
    && (r.behaviors[arg.0] == Disable || (arg.0 !in r.dataVersions && w.hash(arg.1) == UNHASHABLE))
  }

  /** A version made from a uuid not drawn before. */
  ghost predicate MadeUp<V>(w: World<V>, version: Version, uuids: nat) {
    exists k: nat :: k >= uuids && (version == DISABLE_PREFIX + w.uuid(k) || version == UNHASHABLE_PREFIX + w.uuid(k))
  }

  lemma AnewIsMadeUp<V>(w: World<V>, r: RunRecord, args: Dict<Name, V>, uuids: nat, i: nat)
    requires (forall j :: 0 <= j < |args| ==> args[j].0 in r.behaviors) && i < |args| && VersionedAnew(w, r, args[i])
    ensures var deps := ArgumentVersions(w, r, args, uuids).0;
            i < |deps| && deps[i].0 == args[i].0 && MadeUp(w, deps[i].1, uuids)
  {
    ArgumentsVersioned(w, r, args, uuids, i);
  }

  /** No version handed out before is made from a later uuid. */
  lemma MadeUpDenotesNothing<V(!new)>(w: World<V>, tokens: Tokens<V>, version: Version, uuids: nat, v: V)
    requires WorldValid(w) && TokensDrawn(w, tokens, uuids) && MadeUp(w, version, uuids)
    ensures version != IGNORED && !Denotes(w, tokens, version, v)
  {
    var k: nat :| k >= uuids && (version == DISABLE_PREFIX + w.uuid(k) || version == UNHASHABLE_PREFIX + w.uuid(k));
    assert TokenDrawn(w, version, k + 1);
    DrawnIsReserved(w, version, k + 1);
    if version in tokens {
      var j: nat :| j < uuids && (version == UNHASHABLE_PREFIX + w.uuid(j) || version == DISABLE_PREFIX + w.uuid(j));
      TokenOfUuid(w, j, k);
      TokenOfUuid(w, k, j);
      assert false;
    }
  }

  /** No entry has a key in which a made-up version takes part. */
  lemma MadeUpKeyIsNew<V(!new)>(w: World<V>, tokens: Tokens<V>, origins: Origins<V>, uuids: nat,
                                metadata: map<Option<string>, Version>, n: Name, code: string,
                                deps: Dict<Name, Version>, i: nat)
    requires WorldValid(w) && TokensDrawn(w, tokens, uuids) && MetadataOk(w, tokens, origins, metadata)
    requires DASH !in code && DistinctKeys(deps) && CleanDependencies(deps)
    requires i < |deps| && MadeUp(w, deps[i].1, uuids)
    ensures Some(CreateCacheKey(w.platform, n, code, deps)) !in metadata
  {
    hide Denotes, TokensDrawn, CreateCacheKey, MadeUp;
    var key := CreateCacheKey(w.platform, n, code, deps);
    if Some(key) in metadata {
      var o := origins[key];
      assert OriginOk(w, tokens, key, metadata[Some(key)], o);
      KeyIdentity(w.platform, n, code, deps, o.name, o.code, o.deps);
      MapOfAt(deps, i);
      MadeUpDenotesNothing(w, tokens, deps[i].1, uuids, o.args[deps[i].0]);
      assert false;
    }
  }

  /**
   * A DEFAULT node that depends on a DISABLE node, or is handed a value that has no fingerprint and no version yet, is
   * called: whatever happened before, its pre hook leaves a key under which nothing was ever stored.
   */
  lemma {:induction false} MadeUpForcesCall<V(!new)>(w: World<V>, history: seq<Event<V>>, run: RunId, n: Name, i: nat,
                                                     call: Outcome<V>, retrievalFails: bool)
    requires WorldValid(w) && Legal(w, history) && Enabled(w, After(w, history), Event.Prepare(run, n))
    requires var s := After(w, history);
             && n in s.execs[run].behaviors && s.execs[run].behaviors[n] == Default && run in s.adapter.runs
             && i < |s.execs[run].Args(n)| && VersionedAnew(w, s.adapter.runs[run], s.execs[run].Args(n)[i])
    ensures var a := Apply(w, After(w, history), Event.Prepare(run, n)).adapter;
            && run in a.runs && n in a.runs[run].behaviors
            && DoNodeExecute(w, a, run, n, call, retrievalFails).executed
  {
    hide *;
    var s, ev := After(w, history), Event.Prepare(run, n);
    var tokens, origins := HistoryOk(w, history);
    var tokens' := PrepareOk(w, s, ev, tokens, origins);
    PreparedUnderNewKey(w, s, run, n, i, tokens, tokens', origins);
    OnlyDefaultIsServed(w, Apply(w, s, ev).adapter, run, n, call, retrievalFails);
    NothingOnRecord(Apply(w, s, ev).adapter, run, n);
  }

  lemma NothingOnRecord<V>(a: Adapter<V>, run: RunId, n: Name)
    requires run in a.runs && n !in a.runs[run].dataVersions && n in a.runs[run].cacheKeys
    requires Some(a.runs[run].cacheKeys[n]) !in a.stores.metadata
    ensures forall version :: !OnRecord(a, a.runs[run], n, version)
  {}

  lemma PreparedUnderNewKey<V(!new)>(w: World<V>, s: System<V>, run: RunId, n: Name, i: nat, tokens: Tokens<V>,
                                     tokens': Tokens<V>, origins: Origins<V>)
    requires Inv(w, s, tokens, origins) && Enabled(w, s, Event.Prepare(run, n)) && Hookable(s, Event.Prepare(run, n))
    requires Inv(w, Apply(w, s, Event.Prepare(run, n)), tokens', origins)
    requires n in s.execs[run].behaviors && s.execs[run].behaviors[n] == Default && run in s.adapter.runs
    requires i < |s.execs[run].Args(n)| && VersionedAnew(w, s.adapter.runs[run], s.execs[run].Args(n)[i])
    ensures var a := Apply(w, s, Event.Prepare(run, n)).adapter;
            && run in a.runs && n in a.runs[run].behaviors && a.runs[run].behaviors[n] == Default
            && n !in a.runs[run].dataVersions && n in a.runs[run].cacheKeys
            && Some(a.runs[run].cacheKeys[n]) !in a.stores.metadata
  {
    hide Denotes, TokensDrawn, CreateCacheKey, MadeUp, RunOk, MetadataOk, ResultsOk, WorldValid, VersionedAnew;
    hide ArgumentVersions, Exec<V>.Args, Exec<V>.ArgumentsReady, Dag<V>.Valid, OriginOk;
    var s' := Apply(w, s, Event.Prepare(run, n));
    var e', r' := s'.execs[run], s'.adapter.runs[run];
    NotInMemory(w, tokens', r', e', n);
    NodeReady(w, tokens', r', e', n);
    ValidRun(w, tokens', r', e');
    var deps := e'.phases[n].deps;
    AnewIsMadeUp(w, s.adapter.runs[run], s.execs[run].Args(n), s.adapter.uuids, i);
    assert DistinctKeys(deps) && CleanDependencies(deps);
    assert e'.NodeReadable(n);
    MadeUpKeyIsNew(w, tokens, origins, s.adapter.uuids, s.adapter.stores.metadata, n, e'.g.nodes[n].code, deps, i);
  }

  // ---------------------------------------------------------------- what is found again

  /**
   * The metadata store takes a new entry under n's key: it overwrites, or there is none, or the one there was just
   * deleted because its result could not be retrieved.
   */
  ghost predicate TakesEntry<V>(w: World<V>, a: Adapter<V>, run: RunId, n: Name, retrievalFails: bool)
    requires run in a.runs && n in a.runs[run].cacheKeys && n in a.runs[run].behaviors
  {
    var r, key := a.runs[run], Some(a.runs[run].cacheKeys[n]);
    || w.overwrites || key !in a.stores.metadata
    || (retrievalFails && r.behaviors[n] == Default && a.stores.metadata[key] in a.stores.results)
  }

  /** Whoever asks under this key is handed v. */
  predicate Serves<V(==)>(stores: Stores<V>, key: string, v: V) {
    && Some(key) in stores.metadata && stores.metadata[Some(key)] in stores.results
    && stores.results[stores.metadata[Some(key)]] == v
  }

  /** A call of a node with a key versions the result, and enters the version under the key if the store takes it. */
  lemma CallIsRecorded<V>(w: World<V>, a: Adapter<V>, run: RunId, n: Name, v: V, retrievalFails: bool)
    requires run in a.runs && n in a.runs[run].cacheKeys && n in a.runs[run].behaviors && n !in a.runs[run].dataVersions
    requires a.runs[run].behaviors[n] == Default || a.runs[run].behaviors[n] == Recompute
    requires DoNodeExecute(w, a, run, n, Returned(v), retrievalFails).executed
    ensures var a', key := DoNodeExecute(w, a, run, n, Returned(v), retrievalFails).adapter, a.runs[run].cacheKeys[n];
            && run in a'.runs && n in a'.runs[run].dataVersions && a'.runs[run].cacheKeys == a.runs[run].cacheKeys
            && a'.runs[run].behaviors == a.runs[run].behaviors
            && Some(key) in a'.stores.metadata
            && (if TakesEntry(w, a, run, n, retrievalFails) then
                  a'.stores.metadata[Some(key)] == a'.runs[run].dataVersions[n]
                else
                  Some(key) in a.stores.metadata && a'.stores.metadata[Some(key)] == a.stores.metadata[Some(key)])
  {
    hide VersionData;
  }

  /** Whatever is called and returns is versioned anew in this run, unless caching is disabled for it. */
  lemma CallIsVersioned<V>(w: World<V>, a: Adapter<V>, run: RunId, n: Name, v: V, retrievalFails: bool)
    requires run in a.runs && n in a.runs[run].behaviors && a.runs[run].behaviors[n] != Disable
    requires DoNodeExecute(w, a, run, n, Returned(v), retrievalFails).executed
    ensures var a' := DoNodeExecute(w, a, run, n, Returned(v), retrievalFails).adapter;
            && run in a'.runs && n in a'.runs[run].dataVersions
            && FreshVersion(w, a'.runs[run].dataVersions[n], v, a.uuids)
            && a'.runs == a.runs[run := a.runs[run].(dataVersions :=
                 a.runs[run].dataVersions[n := a'.runs[run].dataVersions[n]])]
  {
    VersionDataIsFresh(w, v, a.uuids);
    hide VersionData, FreshVersion;
  }

  /** The post hook stores the result under its version unless something is stored there. */
  lemma ResultIsStored<V>(a: Adapter<V>, run: RunId, n: Name, v: V)
    requires run in a.runs && n in a.runs[run].behaviors && n in a.runs[run].dataVersions
    requires a.runs[run].behaviors[n] != Disable
    ensures var version, a' := a.runs[run].dataVersions[n], PostNodeExecute(a, run, n, v, true);
            && a'.runs == a.runs && a'.stores.metadata == a.stores.metadata && version in a'.stores.results
            && (version !in a.stores.results ==> a'.stores.results[version] == v)
            && (version in a.stores.results ==> a'.stores.results == a.stores.results)
  {}

  /** A DEFAULT node is handed what its key serves. */
  lemma ServedUnderKey<V>(w: World<V>, a: Adapter<V>, run: RunId, n: Name, v: V, call: Outcome<V>)
    requires run in a.runs && n in a.runs[run].behaviors && a.runs[run].behaviors[n] == Default
    requires n !in a.runs[run].dataVersions && n in a.runs[run].cacheKeys
    requires Serves(a.stores, a.runs[run].cacheKeys[n], v)
    ensures var result := DoNodeExecute(w, a, run, n, call, false); !result.executed && result.outcome == Returned(v)
  {
    OnlyDefaultIsServed(w, a, run, n, call, false);
    hide DoNodeExecute;
  }

  /** The execution of a node with a cache key, which calls its function, and the function returns. */
  ghost predicate CallsWithKey<V(!new)>(w: World<V>, s: System<V>, ev: Event<V>) {
    && ev.Do? && ev.call.Returned? && Enabled(w, s, ev) && ev.run in s.adapter.runs
    && var r := s.adapter.runs[ev.run];
       && ev.node in r.behaviors && (r.behaviors[ev.node] == Default || r.behaviors[ev.node] == Recompute)
       && ev.node in r.cacheKeys
       && DoNodeExecute(w, s.adapter, ev.run, ev.node, ev.call, ev.retrievalFails).executed
  }

  /**
   * What a DEFAULT or RECOMPUTE node was called for is there for later runs: after any history, once its do and post
   * hooks are through, its key serves what the call returned, if the metadata store takes the entry.
   */
  lemma {:induction false} CalledIsServed<V(!new)>(w: World<V>, history: seq<Event<V>>, ev: Event<V>)
    requires WorldValid(w) && Legal(w, history) && CallsWithKey(w, After(w, history), ev)
    requires TakesEntry(w, After(w, history).adapter, ev.run, ev.node, ev.retrievalFails)
    ensures var s := After(w, history);
            var stores := Apply(w, Apply(w, s, ev), Event.Post(ev.run, ev.node)).adapter.stores;
            Serves(stores, s.adapter.runs[ev.run].cacheKeys[ev.node], ev.call.value)
  {
    hide *;
    var s := After(w, history);
    var tokens, origins := HistoryOk(w, history);
    EnabledCall(w, s, ev);
    var tokens', origins' := DoOk(w, s, ev, tokens, origins);
    CallServes(w, s, ev, tokens, origins, tokens', origins');
  }

  lemma EnabledCall<V(!new)>(w: World<V>, s: System<V>, ev: Event<V>)
    requires CallsWithKey(w, s, ev)
    ensures ev.Do? && ev.call.Returned? && Enabled(w, s, ev)
  {}

  lemma CallServes<V(!new)>(w: World<V>, s: System<V>, ev: Event<V>, tokens: Tokens<V>, origins: Origins<V>,
                            tokens': Tokens<V>, origins': Origins<V>)
    requires Inv(w, s, tokens, origins) && CallsWithKey(w, s, ev)
    requires Inv(w, Apply(w, s, ev), tokens', origins')
    requires TakesEntry(w, s.adapter, ev.run, ev.node, ev.retrievalFails)
    ensures var stores := Apply(w, Apply(w, s, ev), Event.Post(ev.run, ev.node)).adapter.stores;
            Serves(stores, s.adapter.runs[ev.run].cacheKeys[ev.node], ev.call.value)
  {
    hide DoNodeExecute, Enabled, Inv, PostNodeExecute, Apply, TakesEntry;
    var s' := Apply(w, s, ev);
    AfterCall(w, s, ev, tokens, origins);
    var run, n := ev.run, ev.node;
    ResultIsStored(s'.adapter, run, n, ev.call.value);
    if s'.adapter.runs[run].dataVersions[n] in s'.adapter.stores.results {
      StoredIsValue(w, s', run, n, tokens', origins');
    }
    PostApplies(w, s', run, n);
  }

  lemma PostApplies<V(!new)>(w: World<V>, s: System<V>, run: RunId, n: Name)
    requires run in s.execs && run in s.adapter.runs && n in s.execs[run].values
    requires n in s.adapter.runs[run].dataVersions
    requires n in s.adapter.runs[run].behaviors
    ensures Apply(w, s, Event.Post(run, n)).adapter == PostNodeExecute(s.adapter, run, n, s.execs[run].values[n], true)
  {
    hide PostNodeExecute;
  }

  /** Where a call leaves its run and the entry under its key. */
  lemma AfterCall<V(!new)>(w: World<V>, s: System<V>, ev: Event<V>, tokens: Tokens<V>, origins: Origins<V>)
    requires Inv(w, s, tokens, origins) && CallsWithKey(w, s, ev)
    requires TakesEntry(w, s.adapter, ev.run, ev.node, ev.retrievalFails)
    ensures var s', n, key := Apply(w, s, ev), ev.node, s.adapter.runs[ev.run].cacheKeys[ev.node];
            && ev.run in s'.execs && n in s'.execs[ev.run].values && s'.execs[ev.run].values[n] == ev.call.value
            && ev.run in s'.adapter.runs && n in s'.adapter.runs[ev.run].dataVersions
            && n in s'.adapter.runs[ev.run].behaviors && s'.adapter.runs[ev.run].behaviors[n] != Disable
            && Some(key) in s'.adapter.stores.metadata
            && s'.adapter.stores.metadata[Some(key)] == s'.adapter.runs[ev.run].dataVersions[n]
  {
    hide Enabled, Inv, DoNodeExecute, OnRecord, TakesEntry;
    ReadyToExecute(w, s, ev, tokens, origins);
    UnversionedYet(w, s, ev, tokens, origins);
    CallIsRecorded(w, s.adapter, ev.run, ev.node, ev.call.value, ev.retrievalFails);
    OnlyDefaultIsServed(w, s.adapter, ev.run, ev.node, ev.call, ev.retrievalFails);
  }

  lemma UnversionedYet<V(!new)>(w: World<V>, s: System<V>, ev: Event<V>, tokens: Tokens<V>, origins: Origins<V>)
    requires Inv(w, s, tokens, origins) && ev.Do? && Enabled(w, s, ev)
    ensures ev.run in s.adapter.runs && ev.node !in s.adapter.runs[ev.run].dataVersions
  {
    hide MetadataOk, ResultsOk, TokensDrawn, WorldValid, CanReturn, RunOk;
    NotInMemory(w, tokens, s.adapter.runs[ev.run], s.execs[ev.run], ev.node);
  }

  /** What is stored under the version of a node's value is that value. */
  lemma StoredIsValue<V(!new)>(w: World<V>, s: System<V>, run: RunId, n: Name, tokens: Tokens<V>, origins: Origins<V>)
    requires Inv(w, s, tokens, origins) && run in s.execs && run in s.adapter.runs && n in s.execs[run].values
    requires n in s.adapter.runs[run].dataVersions && s.adapter.runs[run].dataVersions[n] in s.adapter.stores.results
    ensures s.adapter.stores.results[s.adapter.runs[run].dataVersions[n]] == s.execs[run].values[n]
  {
    hide MetadataOk, TokensDrawn, WorldValid, Denotes, RunOk;
    var e, r := s.execs[run], s.adapter.runs[run];
    assert RunOk(w, tokens, r, e);
    ValuesHavePhases(w, tokens, r, e);
    RanHasVersion(w, tokens, r, e, n);
    DenotesUnique(w, tokens, s.adapter.uuids, r.dataVersions[n], s.adapter.stores.results[r.dataVersions[n]],
      e.values[n]);
  }

  lemma ValuesHavePhases<V(!new)>(w: World<V>, tokens: Tokens<V>, r: RunRecord, e: Exec<V>)
    requires RunOk(w, tokens, r, e)
    ensures forall n :: n in e.values ==> n in e.phases
  {
    hide NodeOk, VersionsOk;
  }
}
