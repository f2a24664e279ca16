/**
 * With a metadata store that keeps the first entry for a key (SQLite's INSERT OR IGNORE), an entry whose
 * version was made up and whose result is gone: how it comes about, when it is repaired, what it costs.
 */
module CacheStale {
  import opened Prelude
  import opened CacheKeys
  import opened Dataflow
  import opened CacheProtocol
  import opened CacheSoundness
  import opened CacheWarm

  /** Events that are possible one after another. */
  ghost predicate LegalFrom<V(!new)>(w: World<V>, s: System<V>, events: seq<Event<V>>) {
    forall i :: 0 <= i < |events| ==> Enabled(w, ApplyAll(w, s, events[..i]), events[i])
  }

  /** The key is stale at this version, and no run still holds the version in memory. */
  ghost predicate StaleFor<V>(w: World<V>, a: Adapter<V>, key: string, version: Version) {
    && Stale(w, a.stores, key) && a.stores.metadata[Some(key)] == version
    && forall run :: run in a.runs ==> NotHeld(a.runs[run].dataVersions, version)
  }

  predicate NotHeld(versions: map<Name, Version>, version: Version) {
    forall n :: n in versions ==> versions[n] != version
  }

  /** A lost result and a restart leave any entry for a made-up version stale. */
  lemma LossMakesStale<V(!new)>(w: World<V>, s: System<V>, key: string, version: Version)
    requires !w.overwrites && Some(key) in s.adapter.stores.metadata && s.adapter.stores.metadata[Some(key)] == version
    requires Reserved(version)
    ensures StaleFor(w, ApplyAll(w, s, [LoseResult(version), Restart]).adapter, key, version)
  {
    var events: seq<Event<V>> := [LoseResult(version), Restart];
    assert events[..1] == [LoseResult(version)] && events[..1][..0] == [];
    assert ApplyAll(w, s, events[..1]) == Apply(w, s, LoseResult(version));
  }

  /** The event executes a DEFAULT node under this key. */
  ghost predicate Executes<V(!new)>(s: System<V>, ev: Event<V>, key: string) {
    && ev.Do? && ev.run in s.adapter.runs
    && ev.node in s.adapter.runs[ev.run].behaviors && s.adapter.runs[ev.run].behaviors[ev.node] == Default
    && GetCacheKey(s.adapter.runs[ev.run], ev.node) == Some(key)
  }

  lemma {:induction false} VersionAllAvoids<V(!new)>(w: World<V>, versions: map<Name, Version>, values: Dict<Name, V>,
                                                    uuids: nat, drawn: nat, version: Version)
    requires WorldValid(w) && Reserved(version) && TokenDrawn(w, version, drawn) && drawn <= uuids
    requires NotHeld(versions, version)
    ensures NotHeld(VersionAll(w, versions, values, uuids).0, version)
    ensures VersionAll(w, versions, values, uuids).1 >= uuids
    decreases |values|
  {
    hide WorldValid, TokenDrawn, Reserved, VersionData;
    if values != [] {
      NextIsAnother(w, version, drawn, uuids, values[0].1);
      var (next, k) := VersionData(w, values[0].1, uuids);
      VersionAllAvoids(w, versions[values[0].0 := next], values[1..], k, drawn, version);
    }
  }

  /** A version made up earlier is not given to a value now. */
  lemma NextIsAnother<V(!new)>(w: World<V>, version: Version, drawn: nat, uuids: nat, v: V)
    requires WorldValid(w) && Reserved(version) && TokenDrawn(w, version, drawn) && drawn <= uuids
    ensures VersionData(w, v, uuids).0 != version && VersionData(w, v, uuids).1 >= uuids
  {
    assert TokenDrawn(w, version, uuids);
    DrawnIsNotNext(w, version, uuids, v);
  }

  /** The version of a stale entry was made up. */
  lemma StaleIsDrawn<V(!new)>(w: World<V>, s: System<V>, tokens: Tokens<V>, origins: Origins<V>, key: string,
                              version: Version)
    requires Inv(w, s, tokens, origins) && StaleFor(w, s.adapter, key, version)
    ensures TokenDrawn(w, version, s.adapter.uuids) && Reserved(version) && WorldValid(w)
  {
    hide RunOk, ResultsOk, Reserved;
    assert OriginOk(w, tokens, key, version, origins[key]);
  }

  /** No event but the deletion of the entry ends its being stale, and executing a node under the key calls it. */
  lemma StaleStep<V(!new)>(w: World<V>, s: System<V>, tokens: Tokens<V>, origins: Origins<V>, key: string,
                           version: Version, ev: Event<V>)
    requires Inv(w, s, tokens, origins) && StaleFor(w, s.adapter, key, version)
    requires Enabled(w, s, ev) && ev != LoseMetadata(Some(key))
    ensures StaleFor(w, Apply(w, s, ev).adapter, key, version)
    ensures Executes(s, ev, key) ==>
              Hookable(s, ev) && DoNodeExecute(w, s.adapter, ev.run, ev.node, ev.call, ev.retrievalFails).executed
  {
    hide Inv, StaleFor, Enabled, Apply, Hookable, DoNodeExecute;
    StaleIsDrawn(w, s, tokens, origins, key, version);
    match ev {
      case Start(_, _, _, _, _, _, _) => StaleStart(w, s, key, version, ev);
      case Do(_, _, _, _) => StaleDo(w, s, tokens, origins, key, version, ev);
      case Post(_, _) => StalePost(w, s, tokens, origins, key, version, ev);
      case _ => StaleRest(w, s, key, version, ev);
    }
  }

  lemma StaleRest<V(!new)>(w: World<V>, s: System<V>, key: string, version: Version, ev: Event<V>)
    requires StaleFor(w, s.adapter, key, version) && !ev.Start? && !ev.Do? && !ev.Post? && ev != LoseMetadata(Some(key))
    ensures StaleFor(w, Apply(w, s, ev).adapter, key, version)
  {
    hide Reserved, ArgumentVersions, CreateCacheKey, Exec<V>.Args;
  }

  lemma StaleStart<V(!new)>(w: World<V>, s: System<V>, key: string, version: Version, ev: Event<V>)
    requires WorldValid(w) && StaleFor(w, s.adapter, key, version) && TokenDrawn(w, version, s.adapter.uuids)
    requires ev.Start?
    ensures StaleFor(w, Apply(w, s, ev).adapter, key, version)
  {
    hide WorldValid, TokenDrawn, Reserved, VersionAll, SliceOf, CodesOf, InputCodeVersions;
    var (fromInputs, k) := VersionAll(w, map[], ev.inputs, s.adapter.uuids);
    VersionAllAvoids(w, map[], ev.inputs, s.adapter.uuids, s.adapter.uuids, version);
    VersionAllAvoids(w, fromInputs, ev.overrides, k, s.adapter.uuids, version);
  }

  lemma StaleDo<V(!new)>(w: World<V>, s: System<V>, tokens: Tokens<V>, origins: Origins<V>, key: string,
                         version: Version, ev: Event<V>)
    requires Inv(w, s, tokens, origins) && StaleFor(w, s.adapter, key, version) && ev.Do? && Enabled(w, s, ev)
    requires WorldValid(w) && Reserved(version) && TokenDrawn(w, version, s.adapter.uuids)
    ensures StaleFor(w, Apply(w, s, ev).adapter, key, version)
    ensures Executes(s, ev, key) ==>
              Hookable(s, ev) && DoNodeExecute(w, s.adapter, ev.run, ev.node, ev.call, ev.retrievalFails).executed
  {
    hide RunOk, WorldValid, TokensDrawn, MetadataOk, ResultsOk, Reserved, TokenDrawn, StaleFor, DoNodeExecute;
    hide CanReturn;
    var run, n := ev.run, ev.node;
    ValidRun(w, tokens, s.adapter.runs[run], s.execs[run]);
    NotInMemory(w, tokens, s.adapter.runs[run], s.execs[run], n);
    var tokens', origins' := DoOk(w, s, ev, tokens, origins);
    ExecuteKeepsStale(w, s.adapter, key, version, run, n, ev.call, ev.retrievalFails);
  }

  /** `do_node_execute` for a node without a version in memory. */
  lemma ExecuteKeepsStale<V(!new)>(w: World<V>, a: Adapter<V>, key: string, version: Version, run: RunId, n: Name,
                                   call: Outcome<V>, fails: bool)
    requires WorldValid(w) && Reserved(version) && TokenDrawn(w, version, a.uuids) && StaleFor(w, a, key, version)
    requires run in a.runs && n in a.runs[run].behaviors && n !in a.runs[run].dataVersions
    ensures StaleFor(w, DoNodeExecute(w, a, run, n, call, fails).adapter, key, version)
    ensures a.runs[run].behaviors[n] == Default && GetCacheKey(a.runs[run], n) == Some(key) ==>
              DoNodeExecute(w, a, run, n, call, fails).executed
  {
    hide WorldValid, TokenDrawn, Reserved, StaleFor, Compute, Forget, SetMemoryVersion;
    var k := GetCacheKey(a.runs[run], n);
    ComputeKeepsStale(w, a, key, version, run, n, k, call);
    var found := GetDataVersion(a, a.runs[run], n, k);
    StaleIsLost(w, a, key, version);
    if Retrievable(a, found) {
      ForgetKeepsStale(w, a, key, version, k, found.value);
      ComputeKeepsStale(w, Forget(a, k, found.value), key, version, run, n, k, call);
      HitKeepsStale(w, a, key, version, run, n, found.value);
    } else {
      assert Compute(w, a, run, n, k, call).executed by { ComputeExecutes(w, a, run, n, k, call); }
    }
  }

  lemma ComputeExecutes<V>(w: World<V>, a: Adapter<V>, run: RunId, n: Name, k: Option<string>, call: Outcome<V>)
    requires run in a.runs
    ensures Compute(w, a, run, n, k, call).executed
  {}

  lemma StaleIsLost<V>(w: World<V>, a: Adapter<V>, key: string, version: Version)
    requires StaleFor(w, a, key, version)
    ensures Some(key) in a.stores.metadata && a.stores.metadata[Some(key)] == version && version !in a.stores.results
  {}

  lemma ComputeKeepsStale<V(!new)>(w: World<V>, a: Adapter<V>, key: string, version: Version, run: RunId, n: Name,
                                   k: Option<string>, call: Outcome<V>)
    requires WorldValid(w) && Reserved(version) && TokenDrawn(w, version, a.uuids) && StaleFor(w, a, key, version)
    requires run in a.runs
    ensures StaleFor(w, Compute(w, a, run, n, k, call).adapter, key, version)
  {
    if call.Returned? {
      NextIsAnother(w, version, a.uuids, a.uuids, call.value);
    }
    hide WorldValid, TokenDrawn, Reserved, VersionData;
  }

  lemma ForgetKeepsStale<V>(w: World<V>, a: Adapter<V>, key: string, version: Version, k: Option<string>,
                            found: Version)
    requires StaleFor(w, a, key, version) && k != Some(key)
    ensures StaleFor(w, Forget(a, k, found), key, version)
    ensures Forget(a, k, found).runs == a.runs && Forget(a, k, found).uuids == a.uuids
  {
    hide Reserved;
  }

  lemma HitKeepsStale<V>(w: World<V>, a: Adapter<V>, key: string, version: Version, run: RunId, n: Name, found: Version)
    requires StaleFor(w, a, key, version) && run in a.runs && found in a.stores.results
    ensures StaleFor(w, SetMemoryVersion(a, run, n, found), key, version)
  {
    hide Reserved;
  }

  lemma StalePost<V(!new)>(w: World<V>, s: System<V>, tokens: Tokens<V>, origins: Origins<V>, key: string,
                           version: Version, ev: Event<V>)
    requires Inv(w, s, tokens, origins) && StaleFor(w, s.adapter, key, version) && ev.Post? && Enabled(w, s, ev)
    ensures StaleFor(w, Apply(w, s, ev).adapter, key, version)
  {
    hide RunOk, WorldValid, TokensDrawn, MetadataOk, ResultsOk, Reserved, Sound, DepsOk, CreateCacheKey;
    hide Exec<V>.Valid, Exec<V>.ArgumentsReady;
    ValidRun(w, tokens, s.adapter.runs[ev.run], s.execs[ev.run]);
    NodeReady(w, tokens, s.adapter.runs[ev.run], s.execs[ev.run], ev.node);
    RanHasVersion(w, tokens, s.adapter.runs[ev.run], s.execs[ev.run], ev.node);
  }

  /**
   * Whatever runs come later, interrupted or not, a stale entry stays stale until it is deleted, and every
   * run that executes a DEFAULT node under its key calls the node's function.
   */
  lemma {:induction false} StaleStaysStale<V(!new)>(w: World<V>, s: System<V>, tokens: Tokens<V>, origins: Origins<V>,
                                                   key: string, version: Version, events: seq<Event<V>>)
    returns (tokens': Tokens<V>, origins': Origins<V>)
    requires Inv(w, s, tokens, origins) && StaleFor(w, s.adapter, key, version) && LegalFrom(w, s, events)
    requires forall i :: 0 <= i < |events| ==> events[i] != LoseMetadata(Some(key))
    ensures Inv(w, ApplyAll(w, s, events), tokens', origins')
    ensures StaleFor(w, ApplyAll(w, s, events).adapter, key, version)
    ensures forall i :: 0 <= i < |events| && events[i].Do? && Executes(ApplyAll(w, s, events[..i]), events[i], key) ==>
              CallsFunction(w, s, events[i].run, events, i)
  {
    hide Inv, StaleFor, Enabled, Apply, Executes, CallsFunction;
    tokens', origins' := tokens, origins;
    if events != [] {
      var n := |events| - 1;
      var before := events[..n];
      forall i | 0 <= i < n ensures Enabled(w, ApplyAll(w, s, before[..i]), before[i]) {
        assert before[..i] == events[..i];
      }
      tokens', origins' := StaleStaysStale(w, s, tokens, origins, key, version, before);
      LastCalls(w, s, tokens', origins', key, version, events);
      StaleStep(w, ApplyAll(w, s, before), tokens', origins', key, version, events[n]);
      tokens', origins' := StepOk(w, ApplyAll(w, s, before), events[n], tokens', origins');
      forall i | 0 <= i < |events| && events[i].Do? && Executes(ApplyAll(w, s, events[..i]), events[i], key)
        ensures CallsFunction(w, s, events[i].run, events, i)
      {
        if i < n {
          SamePrefix(w, s, events, i);
        }
      }
    }
  }

  lemma LastCalls<V(!new)>(w: World<V>, s: System<V>, tokens: Tokens<V>, origins: Origins<V>, key: string,
                           version: Version, events: seq<Event<V>>)
    requires events != []
    requires var before := ApplyAll(w, s, events[..|events| - 1]);
             && Inv(w, before, tokens, origins) && StaleFor(w, before.adapter, key, version)
             && Enabled(w, before, events[|events| - 1]) && events[|events| - 1] != LoseMetadata(Some(key))
    ensures var n := |events| - 1;
            events[n].Do? && Executes(ApplyAll(w, s, events[..n]), events[n], key) ==>
              CallsFunction(w, s, events[n].run, events, n)
  {
    hide Inv, StaleFor, Enabled, Apply, DoNodeExecute, Hookable;
    StaleStep(w, ApplyAll(w, s, events[..|events| - 1]), tokens, origins, key, version, events[|events| - 1]);
  }

  lemma SamePrefix<V(!new)>(w: World<V>, s: System<V>, events: seq<Event<V>>, i: nat)
    requires i < |events| - 1
    ensures events[..|events| - 1][..i] == events[..i] && events[..|events| - 1][i] == events[i]
    ensures events[i].Do? ==>
              (CallsFunction(w, s, events[i].run, events[..|events| - 1], i) <==>
                CallsFunction(w, s, events[i].run, events, i))
  {
    hide ApplyAll, DoNodeExecute, Hookable;
    assert events[..|events| - 1][..i] == events[..i];
  }

  /**
   * Executing a node whose entry lost its result repairs the entry exactly if the version computed now is
   * the one on record: a fingerprint again, never a made-up version.
   */
  lemma RepairedIffSameVersion<V(!new)>(w: World<V>, a: Adapter<V>, run: RunId, n: Name, key: string, v: V)
    requires !w.overwrites && run in a.runs && n in a.runs[run].behaviors && a.runs[run].behaviors[n] == Default
    requires n !in a.runs[run].dataVersions && GetCacheKey(a.runs[run], n) == Some(key)
    requires Some(key) in a.stores.metadata && a.stores.metadata[Some(key)] !in a.stores.results
    ensures var did := DoNodeExecute(w, a, run, n, Returned(v), false);
            && did.executed
            && var after := PostNodeExecute(did.adapter, run, n, v, true).stores;
               && Some(key) in after.metadata && after.metadata[Some(key)] == a.stores.metadata[Some(key)]
               && (after.metadata[Some(key)] in after.results <==>
                    VersionData(w, v, a.uuids).0 == a.stores.metadata[Some(key)])
  {
    hide VersionData;
    var version := VersionData(w, v, a.uuids).0;
    var did := DoNodeExecute(w, a, run, n, Returned(v), false);
    assert did.adapter.runs[run].dataVersions[n] == version && did.adapter.stores == a.stores;
  }
}
