/** `Driver.validate_inputs` and what a validated run is spared. */
module Validation {
  import opened Prelude
  import opened Dataflow
  import opened Traversal
  import opened Slicing

  datatype InputError = NotProvided(input: Name) | WrongType(input: Name)

  /** Some node of the set has a parameter of this name without default. */
  ghost predicate RequiredBy<V>(g: Dag<V>, nodesSet: set<Name>, d: Name) {
    exists m, i ::
      && m in nodesSet && m in g.nodes && 0 <= i < |g.nodes[m].deps|
      && g.nodes[m].deps[i].name == d && g.nodes[m].deps[i].required
  }

  /** `_, dep_type = downstream_node.input_types[node_.name]`, compared with REQUIRED. */
  predicate RequiresParam(deps: seq<Dep>, d: Name) {
    exists i :: 0 <= i < |deps| && deps[i].name == d && deps[i].required
  }

  /** The back edges hold every node that could require d. */
  lemma ReadersDecide<V>(g: Dag<V>, d: Name, nodesSet: set<Name>)
    requires g.Valid() && g.Linked() && d in g.nodes
    ensures RequiredBy(g, nodesSet, d) <==>
            exists k :: 0 <= k < |g.dependents[d]| && g.dependents[d][k] in nodesSet
                        && RequiresParam(g.nodes[g.dependents[d][k]].deps, d)
  {
    if RequiredBy(g, nodesSet, d) {
      var m, j :| m in nodesSet && m in g.nodes && 0 <= j < |g.nodes[m].deps|
                  && g.nodes[m].deps[j].name == d && g.nodes[m].deps[j].required;
      assert g.Uses(m, d) && m in g.dependents[d];
      var k :| 0 <= k < |g.dependents[d]| && g.dependents[d][k] == m;
      assert RequiresParam(g.nodes[m].deps, d);
    }
  }

  /** `node_is_required_by_anything`. */
  method NodeIsRequiredByAnything<V>(g: Dag<V>, d: Name, nodesSet: set<Name>) returns (required: bool)
    requires g.Valid() && g.Linked() && d in g.nodes
    ensures required <==> RequiredBy(g, nodesSet, d)
  {
    var readers := g.dependents[d];
    ReadersDecide(g, d, nodesSet);
    var i := 0;
    while i < |readers|
      invariant 0 <= i <= |readers|
      invariant forall k :: 0 <= k < i && readers[k] in nodesSet ==> !RequiresParam(g.nodes[readers[k]].deps, d)
    {
      var m := readers[i];
      if m in nodesSet && RequiresParam(g.nodes[m].deps, d) {
        return true;
      }
      i := i + 1;
    }
    return false;
  }

  /** The error validation reports for one user node, if any. */
  ghost predicate ErrorFor<V>(g: Dag<V>, allInputs: map<Name, V>, nodesSet: set<Name>, typeOk: (Name, V) -> bool,
                              d: Name, e: InputError)
  {
    if d in allInputs then e == WrongType(d) && !typeOk(d, allInputs[d])
    else e == NotProvided(d) && RequiredBy(g, nodesSet, d)
  }

  /** e is the finding about one of these user nodes. */
  ghost predicate FoundAmong<V>(g: Dag<V>, allInputs: map<Name, V>, nodesSet: set<Name>, typeOk: (Name, V) -> bool,
                                userNodes: set<Name>, e: InputError)
  {
    exists d :: d in userNodes && ErrorFor(g, allInputs, nodesSet, typeOk, d, e)
  }

  lemma FoundNext<V>(g: Dag<V>, allInputs: map<Name, V>, nodesSet: set<Name>, typeOk: (Name, V) -> bool,
                     userNodes: set<Name>, d: Name, e: InputError)
    ensures FoundAmong(g, allInputs, nodesSet, typeOk, userNodes + {d}, e) <==>
            || FoundAmong(g, allInputs, nodesSet, typeOk, userNodes, e)
            || ErrorFor(g, allInputs, nodesSet, typeOk, d, e)
  {
    hide ErrorFor;
    assert d in userNodes + {d};
  }

  /** `validate_inputs`: None when config and inputs clash, otherwise the errors found. */
  method ValidateInputs<V>(g: Dag<V>, config: map<Name, V>, inputs: map<Name, V>, userNodes: set<Name>,
                           nodesSet: set<Name>, typeOk: (Name, V) -> bool) returns (errors: Option<seq<InputError>>)
    requires g.Valid() && g.Linked() && userNodes <= g.nodes.Keys
    ensures errors.None? <==> config.Keys * inputs.Keys != {}
    ensures errors.Some? ==> forall e ::
              e in errors.value <==> FoundAmong(g, config + inputs, nodesSet, typeOk, userNodes, e)
  {
    if config.Keys * inputs.Keys != {} {
      return None;
    }
    hide RequiredBy, Dag<V>.Valid, Dag<V>.Linked;
    var allInputs := config + inputs;
    var found: seq<InputError> := [];
    var rest := userNodes;
    while rest != {}
      invariant rest <= userNodes
      invariant forall e :: e in found <==> FoundAmong(g, allInputs, nodesSet, typeOk, userNodes - rest, e)
    {
      hide FoundAmong;
      var d :| d in rest;
      forall e { FoundNext(g, allInputs, nodesSet, typeOk, userNodes - rest, d, e); }
      assert userNodes - (rest - {d}) == (userNodes - rest) + {d};
      if d !in allInputs {
        var required := NodeIsRequiredByAnything(g, d, nodesSet);
        if required {
          found := found + [NotProvided(d)];
        }
      } else if !typeOk(d, allInputs[d]) {
        found := found + [WrongType(d)];
      }
      rest := rest - {d};
    }
    assert userNodes - rest == userNodes;
    errors := Some(found);
  }

  /** Validation finds no input missing for this request. */
  ghost predicate NothingMissing<V>(g: Dag<V>, q: Query, ctx: Context<V>, finals: seq<Name>)
    requires g.Valid()
  {
    forall d :: d in Slice(g, q, finals) && g.nodes[d].external && d !in ctx.inputs ==>
        !RequiredBy(g, Slice(g, q, finals), d)
  }

  predicate Stuck<V>(e: EvalResult<V>) {
    e.Error? && e.error.MissingInput?
  }

  /** A validated request never meets a missing required input, at any node of its slice. */
  lemma {:induction false} ValidatedNeverStuck<V>(g: Dag<V>, q: Query, ctx: Context<V>, finals: seq<Name>, n: Name)
    requires g.Valid() && Describes(q, ctx) && RequestsIn(finals, g.nodes.Keys)
    requires NothingMissing(g, q, ctx, finals) && n in Slice(g, q, finals) && n in g.nodes
    ensures !Stuck(Eval(g, ctx, n))
    decreases g.rank[n], 1, 0
  {
    hide Slice, Gather, Call;
    if n !in ctx.overrides && !g.nodes[n].external {
      ValidatedArguments(g, q, ctx, finals, n, |g.nodes[n].deps|);
    }
  }

  lemma {:induction false} ValidatedArguments<V>(g: Dag<V>, q: Query, ctx: Context<V>, finals: seq<Name>, n: Name,
                                                 k: nat)
    requires g.Valid() && Describes(q, ctx) && RequestsIn(finals, g.nodes.Keys)
    requires NothingMissing(g, q, ctx, finals) && n in Slice(g, q, finals) && n in g.nodes
    requires n !in ctx.overrides && k <= |g.nodes[n].deps|
    ensures Gather(g, ctx, n, k).Stopped? ==> !Gather(g, ctx, n, k).error.MissingInput?
    decreases g.rank[n], 0, k
  {
    hide Slice, Eval;
    GatherUnfold(g, ctx, n, k);
    if k > 0 {
      var dep := g.nodes[n].deps[k - 1];
      ValidatedArguments(g, q, ctx, finals, n, k - 1);
      SliceClosed(g, q, finals);
      if Skipped(g, q, dep) {
        NotStuckIfSkipped(g, ctx, dep.name);
      } else {
        ValidatedNeverStuck(g, q, ctx, finals, dep.name);
        AbsentOnlyIfUnsupplied(g, ctx, dep.name);
        assert dep.required ==> RequiredBy(g, Slice(g, q, finals), dep.name);
      }
    }
  }

  lemma AbsentOnlyIfUnsupplied<V>(g: Dag<V>, ctx: Context<V>, d: Name)
    requires g.Valid() && d in g.nodes
    ensures Eval(g, ctx, d).Absent? ==> g.nodes[d].external && d !in ctx.inputs && d !in ctx.overrides
  {
    hide Gather, Call;
  }

  lemma NotStuckIfSkipped<V>(g: Dag<V>, ctx: Context<V>, d: Name)
    requires g.Valid() && d in g.nodes && g.nodes[d].external
    ensures !Eval(g, ctx, d).Error?
  {
    hide Gather;
  }

  // ---------------------------------------------------------------- validation rejects only what would get stuck

  ghost predicate NeverRaises<V(!new)>(g: Dag<V>) {
    forall n, args :: n in g.nodes ==> g.nodes[n].fn(args).Returned?
  }

  /** Functions that never raise can only fail for a missing input. */
  lemma {:induction false} OnlyMissing<V(!new)>(g: Dag<V>, ctx: Context<V>, n: Name)
    requires g.Valid() && n in g.nodes
    requires NeverRaises(g)
    ensures Eval(g, ctx, n).Error? ==> Eval(g, ctx, n).error.MissingInput?
    decreases g.rank[n], 1, 0
  {
    hide Gather;
    if n !in ctx.overrides && !g.nodes[n].external {
      OnlyMissingArguments(g, ctx, n, |g.nodes[n].deps|);
    }
  }

  lemma {:induction false} OnlyMissingArguments<V(!new)>(g: Dag<V>, ctx: Context<V>, n: Name, k: nat)
    requires g.Valid() && n in g.nodes && k <= |g.nodes[n].deps|
    requires NeverRaises(g)
    ensures Gather(g, ctx, n, k).Stopped? ==> Gather(g, ctx, n, k).error.MissingInput?
    decreases g.rank[n], 0, k
  {
    hide Eval;
    GatherUnfold(g, ctx, n, k);
    if k > 0 {
      OnlyMissingArguments(g, ctx, n, k - 1);
      OnlyMissing(g, ctx, g.nodes[n].deps[k - 1].name);
    }
  }

  /** A dependency that fails, or is required and absent, fails its reader. */
  lemma {:induction false} FailurePropagates<V>(g: Dag<V>, ctx: Context<V>, n: Name, i: nat, k: nat)
    requires g.Valid() && n in g.nodes && i < k <= |g.nodes[n].deps|
    requires var dep := g.nodes[n].deps[i];
             var e := Eval(g, ctx, dep.name); e.Error? || (e.Absent? && dep.required)
    ensures Gather(g, ctx, n, k).Stopped?
    ensures k == |g.nodes[n].deps| && n !in ctx.overrides && !g.nodes[n].external ==> Eval(g, ctx, n).Error?
  {
    FailureStopsGather(g, ctx, n, i, k);
    hide Gather;
  }

  lemma {:induction false} FailureStopsGather<V>(g: Dag<V>, ctx: Context<V>, n: Name, i: nat, k: nat)
    requires g.Valid() && n in g.nodes && i < k <= |g.nodes[n].deps|
    requires var dep := g.nodes[n].deps[i];
             var e := Eval(g, ctx, dep.name); e.Error? || (e.Absent? && dep.required)
    ensures Gather(g, ctx, n, k).Stopped?
  {
    hide Eval;
    GatherUnfold(g, ctx, n, k);
    if i < k - 1 {
      FailureStopsGather(g, ctx, n, i, k - 1);
    }
  }

  /** If no request fails, nothing upstream of a request does. */
  lemma NothingUpstreamFails<V>(g: Dag<V>, q: Query, ctx: Context<V>, finals: seq<Name>)
    requires g.Valid() && Describes(q, ctx) && RequestsIn(finals, g.nodes.Keys)
    requires forall i :: 0 <= i < |finals| ==> !Eval(g, ctx, finals[i]).Error?
    ensures forall n :: n in Slice(g, q, finals) ==> n in g.nodes && !Eval(g, ctx, n).Error?
  {
    hide Eval, Gather;
    var s := set n | n in g.nodes && !Eval(g, ctx, n).Error?;
    forall n, i | n in s && n !in q.overrides && 0 <= i < |g.nodes[n].deps|
      ensures Skipped(g, q, g.nodes[n].deps[i]) || g.nodes[n].deps[i].name in s
    {
      assert g.NodeValid(n) && !g.nodes[n].external;
      if Eval(g, ctx, g.nodes[n].deps[i].name).Error? {
        FailurePropagates(g, ctx, n, i, |g.nodes[n].deps|);
      }
    }
    SliceLeast(g, q, finals, s);
  }

  /**
   * Validation asks for an input evaluation would not miss: nobody supplied it, a node of the slice requires it,
   * but it is overridden or only overridden nodes require it.
   */
  ghost predicate AsksForMore<V>(g: Dag<V>, q: Query, ctx: Context<V>, finals: seq<Name>)
    requires g.Valid()
  {
    exists d ::
      && d in Slice(g, q, finals) && g.nodes[d].external && d !in ctx.inputs
      && RequiredBy(g, Slice(g, q, finals), d)
      && (d in ctx.overrides || !RequiredBy(g, Slice(g, q, finals) - ctx.overrides.Keys, d))
  }

  /**
   * Exactly when validation passes, for functions that do not raise, whether or not runtime inputs are given at
   * all: no requested node gets stuck, and validation asks for no more than evaluation does.
   */
  lemma {:induction false} ValidationExact<V(!new)>(g: Dag<V>, q: Query, ctx: Context<V>, finals: seq<Name>)
    requires g.Valid() && Describes(q, ctx) && NeverRaises(g) && RequestsIn(finals, g.nodes.Keys)
    ensures NothingMissing(g, q, ctx, finals) <==>
            && (forall i :: 0 <= i < |finals| ==> !Stuck(Eval(g, ctx, finals[i])))
            && !AsksForMore(g, q, ctx, finals)
  {
    hide Eval, Gather, Slice, RequiredBy, NeverRaises;
    SliceClosed(g, q, finals);
    if NothingMissing(g, q, ctx, finals) {
      forall i | 0 <= i < |finals| ensures !Stuck(Eval(g, ctx, finals[i])) {
        ValidatedNeverStuck(g, q, ctx, finals, finals[i]);
      }
    }
    if (forall i :: 0 <= i < |finals| ==> !Stuck(Eval(g, ctx, finals[i]))) && !AsksForMore(g, q, ctx, finals) {
      forall i | 0 <= i < |finals| ensures !Eval(g, ctx, finals[i]).Error? {
        OnlyMissing(g, ctx, finals[i]);
      }
      NothingUpstreamFails(g, q, ctx, finals);
      forall d | d in Slice(g, q, finals) && g.nodes[d].external && d !in ctx.inputs && d !in ctx.overrides
        ensures !RequiredBy(g, Slice(g, q, finals) - ctx.overrides.Keys, d)
      {
        if RequiredBy(g, Slice(g, q, finals) - ctx.overrides.Keys, d) {
          RequiringFails(g, ctx, Slice(g, q, finals), d);
        }
      }
    }
  }

  /** A node that requires an input nobody supplied or overrode fails, unless it is overridden itself. */
  lemma RequiringFails<V>(g: Dag<V>, ctx: Context<V>, s: set<Name>, d: Name)
    requires g.Valid() && s <= g.nodes.Keys && d in g.nodes && g.nodes[d].external
    requires d !in ctx.inputs && d !in ctx.overrides && RequiredBy(g, s - ctx.overrides.Keys, d)
    ensures exists n :: n in s && Eval(g, ctx, n).Error?
  {
    hide Gather, Eval;
    var n, i :| n in s - ctx.overrides.Keys && n in g.nodes && 0 <= i < |g.nodes[n].deps|
                && g.nodes[n].deps[i].name == d && g.nodes[n].deps[i].required;
    UnsuppliedIsAbsent(g, ctx, d);
    assert g.NodeValid(n) && !g.nodes[n].external;
    FailurePropagates(g, ctx, n, i, |g.nodes[n].deps|);
  }

  lemma UnsuppliedIsAbsent<V>(g: Dag<V>, ctx: Context<V>, d: Name)
    requires g.Valid() && d in g.nodes && g.nodes[d].external && d !in ctx.inputs && d !in ctx.overrides
    ensures Eval(g, ctx, d) == Absent
  {}

  /**
   * Overriding an input does not satisfy validation: the input is still reported as not provided although
   * every node that reads it gets the override's value.
   */
  lemma OverriddenInputIsRejected<V>(g: Dag<V>, q: Query, ctx: Context<V>, finals: seq<Name>, n: Name, i: nat)
    requires g.Valid() && Describes(q, ctx) && RequestsIn(finals, g.nodes.Keys)
    requires n in Slice(g, q, finals) && n !in ctx.overrides && i < |g.nodes[n].deps| && g.nodes[n].deps[i].required
    requires var d := g.nodes[n].deps[i].name; g.nodes[d].external && d !in ctx.inputs && d in ctx.overrides
    ensures Eval(g, ctx, g.nodes[n].deps[i].name).Value?
    ensures !NothingMissing(g, q, ctx, finals)
  {
    SliceClosed(g, q, finals);
    assert RequiredBy(g, Slice(g, q, finals), g.nodes[n].deps[i].name);
  }

  function ConstNode<V>(external: bool, deps: seq<Dep>, v: V): NodeDef<V> {
    NodeDef(external, deps, [], "", (_: map<Name, V>) => Returned(v))
  }

  /** An input "d", a function "m" that requires it, and a function "n" for which it is optional. */
  function OptionalReader<V>(v: V): Dag<V> {
    Dag(map["d" := ConstNode(true, [], v), "m" := ConstNode(false, [Dep("d", true)], v),
      "n" := ConstNode(false, [Dep("d", false)], v)],
        map["d" := ["m", "n"], "m" := [], "n" := []], map["d" := 0, "m" := 1, "n" := 1])
  }

  lemma OptionalReaderValid<V>(v: V)
    ensures OptionalReader(v).Valid()
    ensures OptionalReader(v).nodes["m"].deps == [Dep("d", true)]
    ensures OptionalReader(v).nodes["n"].deps == [Dep("d", false)]
  {}

  lemma OptionalReaderRuns<V>(v: V, ctx: Context<V>)
    requires OptionalReader(v).Valid() && ctx == Context(map[], map["m" := v])
    ensures !Stuck(Eval(OptionalReader(v), ctx, "m")) && !Stuck(Eval(OptionalReader(v), ctx, "n"))
  {
    var g := OptionalReader(v);
    OptionalReaderValid(v);
    hide Dag<V>.Valid;
    assert Eval(g, ctx, "d") == Absent;
    GatherUnfold(g, ctx, "n", 1);
    GatherUnfold(g, ctx, "n", 0);
  }

  lemma OptionalReaderSlice<V>(v: V, q: Query)
    requires OptionalReader(v).Valid() && q == Query(None, {}, {"m"})
    ensures "d" in Slice(OptionalReader(v), q, ["m", "n"]) && "m" in Slice(OptionalReader(v), q, ["m", "n"])
  {
    var g, finals := OptionalReader(v), ["m", "n"];
    OptionalReaderValid(v);
    hide Slice, Dag<V>.Valid;
    assert finals[0] == "m" && finals[1] == "n";
    SliceClosed(g, q, finals);
    assert !Skipped(g, q, g.nodes["n"].deps[0]) && g.nodes["n"].deps[0].name == "d";
  }

  /**
   * Without runtime inputs the slice keeps an absent optional input; then an overridden node that would require it
   * makes validation ask for it, though it is neither overridden nor requested and nothing gets stuck.
   */
  lemma DefaultCallAsksForMore<V>(v: V)
    ensures var g, ctx := OptionalReader(v), Context(map[], map["m" := v]);
            var q := Query(None, {}, {"m"});
            && g.Valid() && Describes(q, ctx)
            && !NothingMissing(g, q, ctx, ["m", "n"])
            && !Stuck(Eval(g, ctx, "m")) && !Stuck(Eval(g, ctx, "n")) && "d" !in ctx.overrides && "d" !in ["m", "n"]
  {
    var g, ctx, q := OptionalReader(v), Context(map[], map["m" := v]), Query(None, {}, {"m"});
    OptionalReaderValid(v);
    hide Slice, Eval, Dag<V>.Valid;
    OptionalReaderRuns(v, ctx);
    OptionalReaderSlice(v, q);
    assert g.nodes["m"].deps[0] == Dep("d", true);
    assert RequiredBy(g, Slice(g, q, ["m", "n"]), "d");
  }

  // ---------------------------------------------------------------- a request from end to end

  datatype Checked =
    | Refused(traversed: Traversed)
    | Clash
    | Errors(errors: seq<InputError>)

  /** The slice as the traversal finds it: names the graph does not hold are looked up elsewhere. */
  lemma TraversedIsSlice<V>(g: Dag<V>, q: Query, finals: seq<Name>, external: set<Name>, nodes: set<Name>,
                            userNodes: set<Name>)
    requires g.Valid()
    requires ExactlyReachable(g.nodes.Keys, external, Upstream(g, q), KnownStarts(g.nodes.Keys, finals), nodes,
        userNodes)
    ensures nodes == Slice(g, q, KnownStarts(g.nodes.Keys, finals))
    ensures RequestsIn(KnownStarts(g.nodes.Keys, finals), g.nodes.Keys)
  {
    var known := KnownStarts(g.nodes.Keys, finals);
    forall i | 0 <= i < |known| ensures known[i] in g.nodes {
      KnownMembers(g.nodes.Keys, finals, i);
    }
  }

  /**
   * What `Driver` does before it executes: the upstream nodes of the request, then `validate_inputs` on them.
   * A request is refused exactly for a name that is no node, unless it is a runtime input and no config key. If
   * validation reports nothing as not provided, no node of the slice can get stuck, and conversely what is
   * reported is required by the slice.
   */
  method CheckRequest<V>(g: Dag<V>, config: map<Name, V>, runtimeInputs: Option<map<Name, V>>, overrides: map<Name, V>,
                         finals: seq<Name>, typeOk: (Name, V) -> bool) returns (r: Checked)
    requires g.Valid() && g.Linked()
    ensures var inputs := if runtimeInputs.Some? then runtimeInputs.value else map[];
            var given := if runtimeInputs.Some? then Some(runtimeInputs.value.Keys) else None;
            var q := Query(given, config.Keys, overrides.Keys);
            var ctx := Context(config + inputs, overrides);
            var known := KnownStarts(g.nodes.Keys, finals);
            && (r.Errors? ==>
                  && ((forall e :: e in r.errors ==> !e.NotProvided?) <==> NothingMissing(g, q, ctx, known))
                  && (NothingMissing(g, q, ctx, known) ==>
                        forall n :: n in Slice(g, q, known) ==> !Stuck(Eval(g, ctx, n)))
                  && (forall d :: WrongType(d) in r.errors <==>
                        d in Slice(g, q, known) && g.nodes[d].external && d in ctx.inputs && !typeOk(d, ctx.inputs[d])))
            && (r.Clash? <==> !r.Refused? && config.Keys * inputs.Keys != {})
            && (r.Refused? <==>
                  exists i ::
                    0 <= i < |finals| && finals[i] !in g.nodes && (finals[i] in config || finals[i] !in inputs))
  {
    hide Slice, Eval, NothingMissing, Stuck, RequiredBy, FoundAmong, MissingVars, KnownStarts;
    hide Dag<V>.Linked, Dag<V>.Valid;
    var inputs := if runtimeInputs.Some? then runtimeInputs.value else map[];
    var q := Query(if runtimeInputs.Some? then Some(runtimeInputs.value.Keys) else None, config.Keys, overrides.Keys);
    ghost var ctx := Context(config + inputs, overrides);
    ghost var known := KnownStarts(g.nodes.Keys, finals);
    var external := set n | n in g.nodes && g.nodes[n].external;
    UpstreamStays(g, q);
    var found := DirectionalDfsTraverse(g.nodes.Keys, external, config.Keys, Upstream(g, q), finals, inputs.Keys);
    if !found.Found? {
      return Refused(found);
    }
    TraversedIsSlice(g, q, finals, external, found.nodes, found.userNodes);
    var errors := ValidateInputs(g, config, inputs, found.userNodes, found.nodes, typeOk);
    if errors.None? {
      return Clash;
    }
    r := Errors(errors.value);
    ReportedIsMissing(g, q, ctx, known, found.userNodes, typeOk, errors.value);
  }

  lemma ReportedIsMissing<V>(g: Dag<V>, q: Query, ctx: Context<V>, known: seq<Name>, userNodes: set<Name>,
                             typeOk: (Name, V) -> bool, errors: seq<InputError>)
    requires g.Valid() && Describes(q, ctx) && RequestsIn(known, g.nodes.Keys)
    requires forall n :: n in userNodes <==> n in Slice(g, q, known) && g.nodes[n].external
    requires forall e :: e in errors <==> FoundAmong(g, ctx.inputs, Slice(g, q, known), typeOk, userNodes, e)
    ensures (forall e :: e in errors ==> !e.NotProvided?) <==> NothingMissing(g, q, ctx, known)
    ensures NothingMissing(g, q, ctx, known) ==> forall n :: n in Slice(g, q, known) ==> !Stuck(Eval(g, ctx, n))
    ensures forall d :: WrongType(d) in errors <==>
              d in Slice(g, q, known) && g.nodes[d].external && d in ctx.inputs && !typeOk(d, ctx.inputs[d])
  {
    hide Slice, RequiredBy, Eval, Dag<V>.Valid, Describes;
    FoundForWhat(g, ctx.inputs, Slice(g, q, known), typeOk, userNodes, errors);
    if NothingMissing(g, q, ctx, known) {
      forall n | n in Slice(g, q, known) ensures !Stuck(Eval(g, ctx, n)) {
        ValidatedNeverStuck(g, q, ctx, known, n);
      }
    }
  }

  lemma FoundForWhat<V>(g: Dag<V>, allInputs: map<Name, V>, nodesSet: set<Name>, typeOk: (Name, V) -> bool,
                        userNodes: set<Name>, errors: seq<InputError>)
    requires forall e :: e in errors <==> FoundAmong(g, allInputs, nodesSet, typeOk, userNodes, e)
    ensures forall d :: NotProvided(d) in errors <==> d in userNodes && d !in allInputs && RequiredBy(g, nodesSet, d)
    ensures forall d :: WrongType(d) in errors <==> d in userNodes && d in allInputs && !typeOk(d, allInputs[d])
  {
    hide RequiredBy;
    forall d | d in userNodes && d !in allInputs && RequiredBy(g, nodesSet, d) ensures NotProvided(d) in errors {
      assert ErrorFor(g, allInputs, nodesSet, typeOk, d, NotProvided(d));
    }
    forall d | d in userNodes && d in allInputs && !typeOk(d, allInputs[d]) ensures WrongType(d) in errors {
      assert ErrorFor(g, allInputs, nodesSet, typeOk, d, WrongType(d));
    }
  }
}
