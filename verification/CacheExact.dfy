/** The cache agrees with plain evaluation exactly if its fingerprints tell the values in play apart. */
module CacheExact {
  import opened Prelude
  import opened CacheKeys
  import opened Dataflow
  import F = Fingerprints
  import opened CacheProtocol
  import opened CacheSoundness
  import opened CacheHistory
  import opened CacheFingerprints

  // ---------------------------------------------------------------- a world, a graph, two runs

  /** A world whose code hands back the argument called "x". */
  ghost function EchoWorld<V(!new)>(h: F.Hasher, tree: V -> Value, overwrites: bool): World<V> {
    World(PlainPlatform(), v => F.HashValue(h, tree(v)), i => F.IntText(i),
          (name, code, args: map<Name, V>, v) => "x" in args && args["x"] == v, overwrites)
  }

  /** Fingerprints, uuids and a platform as assumed do exist. */
  lemma EchoWorldUsesFingerprints<V(!new)>(h: F.Hasher, tree: V -> Value, overwrites: bool)
    requires h.Valid()
    ensures UsesFingerprints(h, EchoWorld(h, tree, overwrites), tree)
  {
    var w := EchoWorld(h, tree, overwrites);
    SomePlatformIsValid();
    hide F.Hasher.Valid, F.HashValue;
    forall i: nat, j: nat | w.uuid(i) == w.uuid(j) ensures i == j {
      F.IntTextInjective(i, j);
    }
    forall i: nat ensures CommaFree(w.uuid(i)) {
      F.DecimalParses(i);
    }
  }

  /** All assumptions on the world can be met at once. */
  lemma SomeWorldIsValid()
    ensures WorldValid(EchoWorld(F.SpellingHasher(), AsTree, false))
  {
    hide ToldApart;
    F.SomeHasherIsValid();
    EchoWorldUsesFingerprints(F.SpellingHasher(), AsTree, false);
    CacheablesToldApart();
    FingerprintsFitTheCache(F.SpellingHasher(), EchoWorld(F.SpellingHasher(), AsTree, false), AsTree);
  }

  function EchoNode<V>(external: bool, deps: seq<Dep>): NodeDef<V> {
    NodeDef(external, deps, [], "echo", (args: map<Name, V>) => if "x" in args then Returned(args["x"]) else Raised(""))
  }

  /** An input "x" and a function "f" that returns it. */
  function EchoGraph<V>(): Dag<V> {
    Dag(map["x" := EchoNode(true, []), "f" := EchoNode(false, [Dep("x", true)])],
        map["x" := ["f"], "f" := []], map["x" := 0, "f" := 1])
  }

  lemma EchoGraphValid<V>()
    ensures EchoGraph<V>().Valid()
  {
    var g := EchoGraph<V>();
    assert g.nodes["f"].deps[0].name == "x";
  }

  function Cached(): map<Name, Behavior> {
    map["x" := Default, "f" := Default]
  }

  function StartWith<V>(run: RunId, x: V): Event<V> {
    Start(run, EchoGraph(), map[], [("x", x)], [], Cached(), [])
  }

  function EchoExec<V>(x: V, values: map<Name, V>, phases: map<Name, Phase>): Exec<V> {
    Exec(EchoGraph(), Context(map["x" := x], map[]), {"x", "f"}, Cached(), values, phases)
  }

  function EchoKey<V>(w: World<V>, version: Version): string {
    CreateCacheKey(w.platform, "f", "echo", [("x", version)])
  }

  function EchoRecord<V>(w: World<V>, version: Version, versions: map<Name, Version>,
                         keys: map<Name, string>): RunRecord
  {
    RunRecord(Cached(), map["x" := "input__x", "f" := "echo"], map["x" := version] + versions, keys)
  }

  lemma EchoArgs<V>(x: V, values: map<Name, V>, phases: map<Name, Phase>)
    ensures EchoExec(x, values, phases).Args("f") == [("x", x)]
  {
    var e := EchoExec(x, values, phases);
    assert e.g.nodes["f"].deps[0].name == "x" && e.Known("x") == Some(x);
    assert e.Kwargs("f", 1) == e.Kwargs("f", 0) + [("x", x)];
  }

  lemma EchoReady<V>(x: V, values: map<Name, V>, phases: map<Name, Phase>)
    requires EchoGraph<V>().Valid()
    ensures EchoExec(x, values, phases).ArgumentsReady("f")
  {
    assert EchoExec(x, values, phases).Known("x") == Some(x);
    assert EchoGraph<V>().nodes["f"].deps == [Dep("x", true)];
  }

  lemma {:induction false} EchoExecValid<V>(x: V, values: map<Name, V>, phases: map<Name, Phase>)
    ensures EchoGraph<V>().Valid() && EchoExec(x, values, phases).Valid()
    ensures EchoExec(x, values, phases).ArgumentsReady("f")
  {
    hide Dag<V>.Valid, Exec<V>.NodeReadable, Exec<V>.ArgumentsReady, EchoNode;
    EchoGraphValid<V>();
    EchoReady(x, values, phases);
    var e := EchoExec(x, values, phases);
    assert e.g.nodes.Keys == {"x", "f"} == e.behaviors.Keys;
    EchoReadable(x, values, phases);
  }

  lemma EchoReadable<V>(x: V, values: map<Name, V>, phases: map<Name, Phase>)
    requires EchoGraph<V>().Valid()
    ensures EchoExec(x, values, phases).NodeReadable("x") && EchoExec(x, values, phases).NodeReadable("f")
  {
    assert DASH !in "echo";
    hide Dag<V>.Valid;
  }

  lemma OneInput<V>(x: V)
    ensures MapOf([("x", x)]) == map["x" := x]
  {
    assert [("x", x)][..0] == [];
  }

  lemma EchoStartsAs<V>(x: V)
    requires EchoGraph<V>().Valid()
    ensures NewExec(EchoGraph<V>(), map[], [("x", x)], [], Cached(), []) == EchoExec(x, map[], map[])
  {
    OneInput(x);
  }

  lemma StartAdapter<V>(w: World<V>, a: Adapter<V>, run: RunId, x: V)
    requires w.hash(x) != UNHASHABLE
    ensures PreGraphExecute(w, a, run, Cached(), CodesOf(EchoGraph<V>(), [], {"x", "f"}), [("x", x)], [])
         == a.(runs := a.runs[run := EchoRecord(w, w.hash(x), map[], map[])])
  {
    hide CodesOf, InputCodeVersions;
    StartVersions(w, a.uuids, x);
    StartCodes<V>(x);
    var none: Dict<Name, V> := [];
    assert VersionAll(w, map["x" := w.hash(x)], none, a.uuids) == (map["x" := w.hash(x)], a.uuids);
    assert map["x" := w.hash(x)] + map[] == map["x" := w.hash(x)];
  }

  lemma StartVersions<V>(w: World<V>, uuids: nat, x: V)
    requires w.hash(x) != UNHASHABLE
    ensures VersionAll(w, map[], [("x", x)], uuids) == (map["x" := w.hash(x)], uuids)
  {
    var inputs := [("x", x)];
    assert inputs[1..] == [];
    assert VersionAll(w, map["x" := w.hash(x)], inputs[1..], uuids) == (map["x" := w.hash(x)], uuids);
  }

  lemma StartCodes<V>(x: V)
    ensures InputCodeVersions(CodesOf(EchoGraph<V>(), [], {"x", "f"}), [("x", x)])
         == map["x" := "input__x", "f" := "echo"]
  {
    var inputs := [("x", x)];
    assert inputs[1..] == [];
    var codes := CodesOf(EchoGraph<V>(), [], {"x", "f"});
    assert InputCodeVersions(codes["x" := "input__x"], inputs[1..]) == codes["x" := "input__x"];
    assert "input__" + "x" == "input__x";
  }

  /** A run starts. */
  lemma {:induction false} Starts<V(!new)>(w: World<V>, s: System<V>, run: RunId, x: V)
    requires run !in s.execs && run !in s.adapter.runs && w.hash(x) != UNHASHABLE
    ensures Enabled(w, s, StartWith(run, x))
    ensures Apply(w, s, StartWith(run, x)) ==
            WithExec(s, s.adapter.(runs := s.adapter.runs[run := EchoRecord(w, w.hash(x), map[], map[])]), run,
                     EchoExec(x, map[], map[]))
  {
    hide PreGraphExecute, CodesOf, NewExec, EchoRecord, Exec<V>.Valid, Dag<V>.Valid, MapOf;
    OneInput(x);
    EchoExecValid(x, map[], map[]);
    EchoStartsAs(x);
    StartAdapter(w, s.adapter, run, x);
  }

  /** The pre hook of "f" sets its key from the version of "x". */
  lemma {:induction false} Prepares<V(!new)>(w: World<V>, s: System<V>, run: RunId, x: V, version: Version)
    requires run in s.execs && s.execs[run] == EchoExec(x, map[], map[])
    requires run in s.adapter.runs && s.adapter.runs[run] == EchoRecord(w, version, map[], map[])
    ensures Enabled(w, s, Event.Prepare(run, "f"))
    ensures Apply(w, s, Event.Prepare(run, "f")) ==
            WithExec(s, s.adapter.(runs := s.adapter.runs[run := EchoRecord(w, version, map[],
              map["f" := EchoKey(w, version)])]),
                     run, EchoExec(x, map[], map["f" := Prepared([("x", version)])]))
  {
    EchoExecValid(x, map[], map[]);
    EchoArgs(x, map[], map[]);
    hide Exec<V>.Valid, Exec<V>.ArgumentsReady, Exec<V>.Args, Dag<V>.Valid, CreateCacheKey;
    var r := s.adapter.runs[run];
    EchoVersions(w, r, x, version, s.adapter.uuids);
    hide ArgumentVersions;
    assert s.adapter.runs[run].cacheKeys["f" := EchoKey(w, version)] == map["f" := EchoKey(w, version)];
  }

  lemma EchoVersions<V>(w: World<V>, r: RunRecord, x: V, version: Version, uuids: nat)
    requires r == EchoRecord(w, version, map[], map[])
    ensures ArgumentVersions(w, r, [("x", x)], uuids) == ([("x", version)], uuids)
  {
    var args: Dict<Name, V> := [("x", x)];
    assert args[1..] == [];
    assert r.dataVersions["x"] == version && ArgumentVersion(w, r, "x", x, uuids) == (version, uuids);
    var none: Dict<Name, Version> := [];
    assert ArgumentVersions(w, r, args[1..], uuids) == (none, uuids);
    assert [("x", version)] + none == [("x", version)];
  }

  lemma RecordedAs<V>(w: World<V>, a: Adapter<V>, run: RunId, key: Option<string>, x: V, version: Version)
    requires run in a.runs && w.hash(x) == version != UNHASHABLE && a.stores == Stores(map[], map[])
    ensures RecordResult(w, a, run, "f", key, x) ==
            a.(stores := Stores(map[key := version], map[]),
               runs := a.runs[run := a.runs[run].(dataVersions := a.runs[run].dataVersions["f" := version])])
  {
    assert MetadataSet(w, a.stores.metadata, key, version) == map[key := version];
  }

  /** Where nothing is stored under the key, "f" is called and its result recorded. */
  lemma Misses<V(!new)>(w: World<V>, s: System<V>, run: RunId, x: V, version: Version)
    requires run in s.execs && s.execs[run] == EchoExec(x, map[], map["f" := Prepared([("x", version)])])
    requires run in s.adapter.runs
    requires s.adapter.runs[run] == EchoRecord(w, version, map[], map["f" := EchoKey(w, version)])
    requires w.hash(x) == version != UNHASHABLE && s.adapter.stores == Stores(map[], map[])
    requires forall name, code, args, v :: w.can(name, code, args, v) <==> "x" in args && args["x"] == v
    ensures Enabled(w, s, Event.Do(run, "f", Returned(x), false))
    ensures var key := Some(EchoKey(w, version));
            var a := s.adapter.(stores := Stores(map[key := version], map[]),
                                runs := s.adapter.runs[run := EchoRecord(w, version, map["f" := version],
                                  map["f" := EchoKey(w, version)])]);
            Apply(w, s, Event.Do(run, "f", Returned(x), false)) ==
            WithExec(s, a, run, EchoExec(x, map["f" := x], map["f" := Ran]))
  {
    EchoArgs(x, map[], map["f" := Prepared([("x", version)])]);
    OneInput(x);
    hide Exec<V>.Args, CreateCacheKey, MapOf;
    var r := s.adapter.runs[run];
    assert r.dataVersions["f" := version] == map["x" := version] + map["f" := version];
    assert r.(dataVersions := r.dataVersions["f" := version])
        == EchoRecord(w, version, map["f" := version], map["f" := EchoKey(w, version)]);
    var key := Some(EchoKey(w, version));
    assert MetadataSet(w, s.adapter.stores.metadata, key, version) == map[key := version];
    RecordedAs(w, s.adapter, run, key, x, version);
    assert map["f" := Prepared([("x", version)])]["f" := Ran] == map["f" := Ran];
    assert AfterDo(s.execs[run], "f", Returned(x)) == EchoExec(x, map["f" := x], map["f" := Ran]);
    assert DoNodeExecute(w, s.adapter, run, "f", Returned(x), false)
        == Compute(w, s.adapter, run, "f", key, Returned(x));
  }

  /** The post hook stores the result under its version. */
  lemma Keeps<V(!new)>(w: World<V>, s: System<V>, run: RunId, x: V, version: Version)
    requires run in s.execs && s.execs[run] == EchoExec(x, map["f" := x], map["f" := Ran])
    requires run in s.adapter.runs && "f" in s.adapter.runs[run].behaviors
    requires s.adapter.runs[run].behaviors["f"] == Default
    requires "f" in s.adapter.runs[run].dataVersions && s.adapter.runs[run].dataVersions["f"] == version
    requires s.adapter.stores.results == map[]
    ensures Enabled(w, s, Event.Post(run, "f"))
    ensures Apply(w, s, Event.Post(run, "f")) ==
            s.(adapter := s.adapter.(stores := s.adapter.stores.(results := map[version := x])))
  {}

  lemma HandsOut<V>(w: World<V>, a: Adapter<V>, run: RunId, u: V, v: V, version: Version)
    requires run in a.runs && a.runs[run] == EchoRecord(w, version, map[], map["f" := EchoKey(w, version)])
    requires a.stores == Stores(map[Some(EchoKey(w, version)) := version], map[version := u])
    ensures "f" in a.runs[run].behaviors && "f" in a.runs[run].codeVersions
    ensures DoNodeExecute(w, a, run, "f", Returned(v), false).outcome == Returned(u)
  {
    hide EchoKey;
  }

  lemma HitDone<V>(u: V, v: V, version: Version)
    ensures AfterDo(EchoExec(v, map[], map["f" := Prepared([("x", version)])]), "f", Returned(u))
         == EchoExec(v, map["f" := u], map["f" := Ran])
  {
    assert map["f" := Prepared([("x", version)])]["f" := Ran] == map["f" := Ran];
  }

  /** A result found under the key is handed out, whatever "f" would return. */
  lemma Hits<V(!new)>(w: World<V>, s: System<V>, run: RunId, u: V, v: V, version: Version)
    requires run in s.execs && s.execs[run] == EchoExec(v, map[], map["f" := Prepared([("x", version)])])
    requires run in s.adapter.runs
    requires s.adapter.runs[run] == EchoRecord(w, version, map[], map["f" := EchoKey(w, version)])
    requires s.adapter.stores == Stores(map[Some(EchoKey(w, version)) := version], map[version := u])
    requires forall name, code, args, r :: w.can(name, code, args, r) <==> "x" in args && args["x"] == r
    ensures Enabled(w, s, Event.Do(run, "f", Returned(v), false))
    ensures var after := Apply(w, s, Event.Do(run, "f", Returned(v), false));
            run in after.execs && after.execs[run] == EchoExec(v, map["f" := u], map["f" := Ran])
  {
    EchoArgs(v, map[], map["f" := Prepared([("x", version)])]);
    OneInput(v);
    HandsOut(w, s.adapter, run, u, v, version);
    HitDone(u, v, version);
    hide Exec<V>.Args, EchoKey, MapOf, DoNodeExecute, AfterDo, EchoRecord;
  }

  // ---------------------------------------------------------------- the history

  /** One run on u from start to end, and one on v up to its only call. */
  function TwoRuns<V>(u: V, v: V): seq<Event<V>> {
    [StartWith("1", u), Event.Prepare("1", "f"), Event.Do("1", "f", Returned(u), false), Event.Post("1", "f"),
     StartWith("2", v), Event.Prepare("2", "f"), Event.Do("2", "f", Returned(v), false)]
  }

  lemma LegalNext<V(!new)>(w: World<V>, history: seq<Event<V>>, k: nat)
    requires k < |history| && Legal(w, history[..k]) && Enabled(w, After(w, history[..k]), history[k])
    ensures Legal(w, history[..k + 1]) && After(w, history[..k + 1]) == Apply(w, After(w, history[..k]), history[k])
  {
    hide Enabled, Apply;
    assert history[..k + 1][..k] == history[..k];
  }

  /** Two different values with one fingerprint: the second run gets the first run's result. */
  lemma {:induction false} SecondRunIsMisled<V(!new)>(h: F.Hasher, tree: V -> Value, overwrites: bool, u: V, v: V)
    requires h.Valid() && F.Erase(tree(u)) == F.Erase(tree(v)) && !tree(u).PyOpaque? && u != v
    ensures var w, history := EchoWorld(h, tree, overwrites), TwoRuns(u, v);
            && Legal(w, history) && "2" in After(w, history).execs
            && After(w, history).execs["2"] == EchoExec(v, map["f" := u], map["f" := Ran])
  {
    hide Legal, After, EchoExec, EchoKey, TwoRuns, UsesFingerprints, F.Erase, F.HashValue, F.Hasher.Valid;
    var w, history := EchoWorld(h, tree, overwrites), TwoRuns(u, v);
    EchoWorldUsesFingerprints(h, tree, overwrites);
    EchoCan(h, tree, overwrites);
    hide EchoWorld;
    SamePrint(h, w, tree, u, v);
    FirstRun(w, history, u, v, w.hash(u));
    SecondRun(w, history, u, v, w.hash(u));
    SevenEvents(u, v);
    assert history[..7] == history;
  }

  lemma EchoCan<V(!new)>(h: F.Hasher, tree: V -> Value, overwrites: bool)
    ensures forall name, code, args, r ::
              EchoWorld(h, tree, overwrites).can(name, code, args, r) <==> "x" in args && args["x"] == r
  {}

  lemma SevenEvents<V>(u: V, v: V)
    ensures |TwoRuns(u, v)| == 7
  {}

  lemma FirstRun<V(!new)>(w: World<V>, history: seq<Event<V>>, u: V, v: V, version: Version)
    requires history == TwoRuns(u, v) && w.hash(u) == version != UNHASHABLE
    requires forall name, code, args, r :: w.can(name, code, args, r) <==> "x" in args && args["x"] == r
    ensures var s := After(w, history[..4]);
            && Legal(w, history[..4]) && "2" !in s.execs && "2" !in s.adapter.runs
            && s.adapter.stores == Stores(map[Some(EchoKey(w, version)) := version], map[version := u])
  {
    hide Enabled, Apply, EchoExec, EchoRecord, EchoKey, StartWith;
    assert history[..0] == [];
    Starts(w, After(w, history[..0]), "1", u);
    LegalNext(w, history, 0);
    Prepares(w, After(w, history[..1]), "1", u, version);
    LegalNext(w, history, 1);
    Misses(w, After(w, history[..2]), "1", u, version);
    LegalNext(w, history, 2);
    RecordHas(w, version);
    Keeps(w, After(w, history[..3]), "1", u, version);
    LegalNext(w, history, 3);
  }

  lemma RecordHas<V>(w: World<V>, version: Version)
    ensures var r := EchoRecord(w, version, map["f" := version], map["f" := EchoKey(w, version)]);
            && "f" in r.behaviors && r.behaviors["f"] == Default && "f" in r.dataVersions &&
                 r.dataVersions["f"] == version
  {}

  lemma {:induction false} SecondRun<V(!new)>(w: World<V>, history: seq<Event<V>>, u: V, v: V, version: Version)
    requires history == TwoRuns(u, v) && w.hash(v) == version != UNHASHABLE && Legal(w, history[..4])
    requires forall name, code, args, r :: w.can(name, code, args, r) <==> "x" in args && args["x"] == r
    requires var s := After(w, history[..4]);
             && "2" !in s.execs && "2" !in s.adapter.runs
             && s.adapter.stores == Stores(map[Some(EchoKey(w, version)) := version], map[version := u])
    ensures Legal(w, history[..7]) && "2" in After(w, history[..7]).execs
    ensures After(w, history[..7]).execs["2"] == EchoExec(v, map["f" := u], map["f" := Ran])
  {
    hide Enabled, Apply, EchoExec, EchoRecord, EchoKey, StartWith;
    Starts(w, After(w, history[..4]), "2", v);
    LegalNext(w, history, 4);
    Prepares(w, After(w, history[..5]), "2", v, version);
    LegalNext(w, history, 5);
    Hits(w, After(w, history[..6]), "2", u, v, version);
    LegalNext(w, history, 6);
  }

  // ---------------------------------------------------------------- exactly when the cache is right

  /** What the cache owes this node of this run: the value plain evaluation gives. */
  ghost predicate AgreesAt<V(!new)>(w: World<V>, history: seq<Event<V>>, run: RunId, n: Name) {
    var s := After(w, history);
    (run in s.execs && n in s.execs[run].values && DefaultsDeterministic(w, s.execs[run]) &&
      NoIgnoreAbove(s.execs[run], n))
    ==> EvaluatesTo(s.execs[run], n, s.execs[run].values[n])
  }

  /** In every world with these fingerprints every legal history agrees with plain evaluation. */
  ghost predicate AlwaysAgrees<V(!new)>(h: F.Hasher, tree: V -> Value) {
    forall w: World<V>, history, run, n :: UsesFingerprints(h, w, tree) && Legal(w, history) ==>
        AgreesAt(w, history, run, n)
  }

  lemma EchoIsDeterministic<V(!new)>(h: F.Hasher, tree: V -> Value, overwrites: bool, x: V, values: map<Name, V>,
                                     phases: map<Name, Phase>)
    ensures var e := EchoExec(x, values, phases);
            DefaultsDeterministic(EchoWorld(h, tree, overwrites), e) && NoIgnoreAbove(e, "f")
  {}

  lemma EchoFacts<V>(x: V, values: map<Name, V>, phases: map<Name, Phase>)
    requires EchoGraph<V>().Valid()
    ensures PlainContext(EchoExec(x, values, phases)) == Context(map["x" := x], map[])
    ensures "f" in EchoGraph<V>().nodes && EchoGraph<V>().nodes["f"] == EchoNode(false, [Dep("x", true)])
    ensures "x" in EchoGraph<V>().nodes && Eval(EchoGraph<V>(), Context(map["x" := x], map[]), "x") == Value(x)
  {
    hide Dag<V>.Valid;
    assert Produced(EchoExec(x, values, phases)) == map[];
  }

  lemma EchoValue<V>(ctx: Context<V>, x: V)
    requires EchoGraph<V>().Valid() && ctx == Context(map["x" := x], map[])
    requires "f" in EchoGraph<V>().nodes && EchoGraph<V>().nodes["f"] == EchoNode(false, [Dep("x", true)])
    requires "x" in EchoGraph<V>().nodes
    requires Eval(EchoGraph<V>(), ctx, "x") == Value(x)
    ensures Eval(EchoGraph<V>(), ctx, "f") == Value(x)
  {
    var g := EchoGraph<V>();
    hide Dag<V>.Valid, EchoGraph, Gather;
    GatherUnfold(g, ctx, "f", 1);
    GatherUnfold(g, ctx, "f", 0);
    assert Gather(g, ctx, "f", 1) == Kwargs([("x", x)]);
    OneInput(x);
  }

  lemma EchoEvaluates<V(!new)>(x: V, values: map<Name, V>, phases: map<Name, Phase>, v: V)
    requires EvaluatesTo(EchoExec(x, values, phases), "f", v)
    ensures v == x
  {
    hide Eval, Dag<V>.Valid, EchoGraph, PlainContext;
    EchoFacts(x, values, phases);
    EchoValue(Context(map["x" := x], map[]), x);
  }

  /**
   * The cache over these fingerprints agrees with plain evaluation in every world and after every legal history
   * exactly when no two of the values in play differ only in objects without fingerprint they hold.
   */
  lemma {:induction false} CacheRightIffToldApart<V(!new)>(h: F.Hasher, tree: V -> Value)
    requires h.Valid()
    ensures AlwaysAgrees(h, tree) <==> ToldApart(tree)
  {
    hide *;
    if ToldApart(tree) {
      AgreesIfToldApart(h, tree);
    } else {
      DisagreesIfNot(h, tree);
    }
  }

  lemma AgreesIfToldApart<V(!new)>(h: F.Hasher, tree: V -> Value)
    requires h.Valid() && ToldApart(tree)
    ensures AlwaysAgrees(h, tree)
  {
    hide ToldApart, UsesFingerprints, DefaultsDeterministic, NoIgnoreAbove, EvaluatesTo, After, Legal;
    forall w: World<V>, history, run, n | UsesFingerprints(h, w, tree) && Legal(w, history)
      ensures AgreesAt(w, history, run, n)
    {
      var s := After(w, history);
      if run in s.execs && n in s.execs[run].values && DefaultsDeterministic(w, s.execs[run]) &&
        NoIgnoreAbove(s.execs[run], n) {
        FingerprintedCacheAgrees(h, w, tree, history, run, n);
      }
    }
  }

  lemma DisagreesIfNot<V(!new)>(h: F.Hasher, tree: V -> Value)
    requires h.Valid() && !ToldApart(tree)
    ensures !AlwaysAgrees(h, tree)
  {
    hide UsesFingerprints, DefaultsDeterministic, NoIgnoreAbove, EvaluatesTo, After, Legal, EchoExec;
    hide EchoWorld, TwoRuns, F.Erase;
    var u, v :| F.Erase(tree(u)) == F.Erase(tree(v)) && !tree(u).PyOpaque? && u != v;
    var w, history := EchoWorld(h, tree, true), TwoRuns(u, v);
    SecondRunIsMisled(h, tree, true, u, v);
    EchoWorldUsesFingerprints(h, tree, true);
    EchoIsDeterministic(h, tree, true, v, map["f" := u], map["f" := Ran]);
    EchoValues(v, u);
    if AgreesAt(w, history, "2", "f") {
      EchoEvaluates(v, map["f" := u], map["f" := Ran], u);
    }
    assert !AgreesAt(w, history, "2", "f");
  }

  lemma EchoValues<V>(x: V, u: V)
    ensures EchoExec(x, map["f" := u], map["f" := Ran]).values == map["f" := u]
  {}
}
