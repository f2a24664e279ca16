/** `FunctionGraph.get_upstream_nodes`: the slice of the graph a request needs. */
module Slicing {
  import opened Prelude
  import opened Dataflow
  import opened Traversal

  /** What the query knows: runtime inputs (None at compile time), config keys and overrides. */
  datatype Query = Query(runtimeInputs: Option<set<Name>>, config: set<Name>, overrides: set<Name>)

  ghost predicate Describes<V>(q: Query, ctx: Context<V>) {
    && q.overrides == ctx.overrides.Keys
    && ctx.inputs.Keys == q.config + (if q.runtimeInputs.Some? then q.runtimeInputs.value else {})
  }

  /** A dependency the slice leaves out: external, optional, and nobody supplied it. */
  predicate Skipped<V>(g: Dag<V>, q: Query, dep: Dep)
    requires dep.name in g.nodes
  {
    && q.runtimeInputs.Some?
    && g.nodes[dep.name].external
    && dep.name !in q.runtimeInputs.value
    && dep.name !in q.config
    && !dep.required
  }

  function KeptDeps<V>(g: Dag<V>, q: Query, deps: seq<Dep>): (r: seq<Name>)
    requires forall i :: 0 <= i < |deps| ==> deps[i].name in g.nodes
    ensures forall a :: a in r <==> exists i :: 0 <= i < |deps| && deps[i].name == a && !Skipped(g, q, deps[i])
  {
    if deps == [] then []
    else
      var rest := KeptDeps(g, q, deps[1..]);
      assert forall i :: 0 <= i < |deps| ==> i == 0 || deps[i] == deps[1..][i - 1];
      if Skipped(g, q, deps[0]) then rest else [deps[0].name] + rest
  }

  /** `next_nodes_function`: an overridden node needs nothing. */
  function UpstreamNext<V>(g: Dag<V>, q: Query, n: Name): (r: seq<Name>)
    requires n in g.nodes ==> forall i :: 0 <= i < |g.nodes[n].deps| ==> g.nodes[n].deps[i].name in g.nodes
  {
    if n !in g.nodes || n in q.overrides then [] else KeptDeps(g, q, g.nodes[n].deps)
  }

  function Upstream<V>(g: Dag<V>, q: Query): Next
    requires g.Valid()
  {
    n => UpstreamNext(g, q, n)
  }

  lemma UpstreamStays<V>(g: Dag<V>, q: Query)
    requires g.Valid()
    ensures forall n :: n in g.nodes ==> forall i :: 0 <= i < |Upstream(g, q)(n)| ==> Upstream(g, q)(n)[i] in g.nodes
  {
    var next := Upstream(g, q);
    assert forall n :: n in g.nodes ==> forall i :: 0 <= i < |next(n)| ==> next(n)[i] in next(n);
  }

  /** The nodes `get_upstream_nodes` returns. */
  ghost function Slice<V>(g: Dag<V>, q: Query, finals: seq<Name>): (s: set<Name>)
    requires g.Valid()
    ensures s <= g.nodes.Keys
  {
    set n | n in g.nodes && ReachableFromAny(Upstream(g, q), finals, n)
  }

  /** s holds everything the nodes in s need. */
  ghost predicate ClosedUpstream<V>(g: Dag<V>, q: Query, s: set<Name>)
    requires g.Valid()
  {
    && s <= g.nodes.Keys
    && (forall n :: n in s && n !in q.overrides ==>
          forall i :: 0 <= i < |g.nodes[n].deps| ==>
            Skipped(g, q, g.nodes[n].deps[i]) || g.nodes[n].deps[i].name in s)
  }

  ghost predicate RequestsIn(finals: seq<Name>, s: set<Name>) {
    forall i :: 0 <= i < |finals| ==> finals[i] in s
  }

  lemma SliceClosed<V>(g: Dag<V>, q: Query, finals: seq<Name>)
    requires g.Valid() && RequestsIn(finals, g.nodes.Keys)
    ensures ClosedUpstream(g, q, Slice(g, q, finals)) && RequestsIn(finals, Slice(g, q, finals))
  {
    var s, next := Slice(g, q, finals), Upstream(g, q);
    forall n | n in s && n !in q.overrides
      ensures forall i :: 0 <= i < |g.nodes[n].deps| ==>
                Skipped(g, q, g.nodes[n].deps[i]) || g.nodes[n].deps[i].name in s
    {
      var k :| 0 <= k < |finals| && Reachable(next, finals[k], n);
      forall i | 0 <= i < |g.nodes[n].deps| && !Skipped(g, q, g.nodes[n].deps[i])
        ensures g.nodes[n].deps[i].name in s
      {
        assert g.nodes[n].deps[i].name in next(n);
        ReachStep(next, finals[k], n, g.nodes[n].deps[i].name);
      }
    }
    forall i | 0 <= i < |finals| ensures finals[i] in s {
      ReachSelf(next, finals[i]);
    }
  }

  /** The slice is the least closed set holding the requests. */
  lemma SliceLeast<V>(g: Dag<V>, q: Query, finals: seq<Name>, s: set<Name>)
    requires g.Valid() && ClosedUpstream(g, q, s) && RequestsIn(finals, s)
    ensures Slice(g, q, finals) <= s
  {
    var next := Upstream(g, q);
    forall n | n in s ensures forall i :: 0 <= i < |next(n)| ==> next(n)[i] in s {
      forall i | 0 <= i < |next(n)| ensures next(n)[i] in s {
        assert next(n)[i] in next(n);
      }
    }
    forall n | n in Slice(g, q, finals) ensures n in s {
      var k :| 0 <= k < |finals| && Reachable(next, finals[k], n);
      var p :| Connects(next, p, finals[k], n);
      ClosedContainsPath(next, s, p);
    }
  }

  /**
   * g' may redefine, add or remove any node outside s and redefine any node of s behind an override; the
   * dependencies the slice skips stay inputs.
   */
  ghost predicate AgreesOn<V>(g: Dag<V>, g': Dag<V>, q: Query, s: set<Name>)
    requires g.Valid()
  {
    && s <= g.nodes.Keys && s <= g'.nodes.Keys
    && (forall n :: n in s ==> g'.nodes[n].external == g.nodes[n].external)
    && (forall n :: n in s && n !in q.overrides ==> g'.nodes[n] == g.nodes[n] && SkippedStay(g, g', q, n))
  }

  ghost predicate SkippedStay<V>(g: Dag<V>, g': Dag<V>, q: Query, n: Name)
    requires g.Valid() && n in g.nodes
  {
    forall i :: 0 <= i < |g.nodes[n].deps| && Skipped(g, q, g.nodes[n].deps[i]) ==>
      g.nodes[n].deps[i].name in g'.nodes ==> g'.nodes[g.nodes[n].deps[i].name].external
  }

  lemma {:induction false} ClosedPreservesMeaning<V>(g: Dag<V>, g': Dag<V>, q: Query, ctx: Context<V>, s: set<Name>,
                                                     n: Name)
    requires g.Valid() && g'.Valid() && Describes(q, ctx)
    requires ClosedUpstream(g, q, s) && AgreesOn(g, g', q, s) && n in s
    ensures Eval(g', ctx, n) == Eval(g, ctx, n)
    decreases g.rank[n], 1, 0
  {
    if n !in ctx.overrides && !g.nodes[n].external {
      ClosedGather(g, g', q, ctx, s, n, |g.nodes[n].deps|);
    }
  }

  lemma {:induction false} ClosedGather<V>(g: Dag<V>, g': Dag<V>, q: Query, ctx: Context<V>, s: set<Name>, n: Name,
                                           k: nat)
    requires g.Valid() && g'.Valid() && Describes(q, ctx)
    requires ClosedUpstream(g, q, s) && AgreesOn(g, g', q, s) && n in s
    requires n !in q.overrides && k <= |g.nodes[n].deps|
    ensures Gather(g', ctx, n, k) == Gather(g, ctx, n, k)
    decreases g.rank[n], 0, k
  {
    hide *;
    SameNode(g, g', q, s, n);
    GatherUnfold(g, ctx, n, k);
    GatherUnfold(g', ctx, n, k);
    if k > 0 {
      ClosedGather(g, g', q, ctx, s, n, k - 1);
      if Skipped(g, q, g.nodes[n].deps[k - 1]) {
        SkippedIsStable(g, g', q, ctx, g.nodes[n].deps[k - 1]);
      } else {
        ClosedPreservesMeaning(g, g', q, ctx, s, g.nodes[n].deps[k - 1].name);
      }
    }
  }

  /** What two graphs that agree on a closed set share about one of its nodes. */
  lemma SameNode<V>(g: Dag<V>, g': Dag<V>, q: Query, s: set<Name>, n: Name)
    requires g.Valid() && g'.Valid() && ClosedUpstream(g, q, s) && AgreesOn(g, g', q, s) && n in s && n !in q.overrides
    ensures n in g.nodes && n in g'.nodes && n in g.rank && g'.nodes[n] == g.nodes[n]
    ensures forall i :: 0 <= i < |g.nodes[n].deps| ==>
              var d := g.nodes[n].deps[i].name;
              && d in g.nodes && d in g'.nodes && d in g.rank && g.rank[d] < g.rank[n]
              && (Skipped(g, q, g.nodes[n].deps[i]) || d in s)
              && (Skipped(g, q, g.nodes[n].deps[i]) ==> g'.nodes[d].external)
  {
    hide Skipped;
    assert g'.NodeValid(n);
  }

  lemma SkippedIsStable<V>(g: Dag<V>, g': Dag<V>, q: Query, ctx: Context<V>, dep: Dep)
    requires g.Valid() && g'.Valid() && Describes(q, ctx)
    requires dep.name in g.nodes && dep.name in g'.nodes && Skipped(g, q, dep)
    requires g'.nodes[dep.name].external
    ensures Eval(g', ctx, dep.name) == Eval(g, ctx, dep.name)
  {}

  /** The value of everything in the slice depends on the slice alone. */
  lemma {:induction false} SlicePreservesMeaning<V>(g: Dag<V>, g': Dag<V>, q: Query, ctx: Context<V>,
                                                    finals: seq<Name>, f: Name)
    requires g.Valid() && g'.Valid() && Describes(q, ctx)
    requires RequestsIn(finals, g.nodes.Keys) && f in finals
    requires AgreesOn(g, g', q, Slice(g, q, finals))
    ensures f in g'.nodes && Eval(g', ctx, f) == Eval(g, ctx, f)
    ensures Slice(g', q, finals) == Slice(g, q, finals)
  {
    SliceClosed(g, q, finals);
    ClosedPreservesMeaning(g, g', q, ctx, Slice(g, q, finals), f);
    SliceIsStable(g, g', q, finals);
  }

  lemma SliceIsStable<V>(g: Dag<V>, g': Dag<V>, q: Query, finals: seq<Name>)
    requires g.Valid() && g'.Valid() && RequestsIn(finals, g.nodes.Keys)
    requires AgreesOn(g, g', q, Slice(g, q, finals))
    ensures Slice(g', q, finals) == Slice(g, q, finals)
  {
    hide Slice, Skipped;
    var s, s' := Slice(g, q, finals), Slice(g', q, finals);
    SliceClosed(g, q, finals);
    ClosedThere(g, g', q, s);
    SliceLeast(g', q, finals, s);
    SliceClosed(g', q, finals);
    ClosedHere(g, g', q, s, s');
    SliceLeast(g, q, finals, s');
  }

  lemma ClosedThere<V>(g: Dag<V>, g': Dag<V>, q: Query, s: set<Name>)
    requires g.Valid() && g'.Valid() && ClosedUpstream(g, q, s) && AgreesOn(g, g', q, s)
    ensures ClosedUpstream(g', q, s)
  {
    forall n, i | n in s && n !in q.overrides && 0 <= i < |g'.nodes[n].deps|
      ensures Skipped(g', q, g'.nodes[n].deps[i]) || g'.nodes[n].deps[i].name in s
    {
      assert g'.NodeValid(n) && g.nodes[n].deps[i] == g'.nodes[n].deps[i];
    }
  }

  /** What is closed in g' is closed in g, inside a set they agree on. */
  lemma ClosedHere<V>(g: Dag<V>, g': Dag<V>, q: Query, s: set<Name>, s': set<Name>)
    requires g.Valid() && g'.Valid() && ClosedUpstream(g, q, s) && AgreesOn(g, g', q, s)
    requires ClosedUpstream(g', q, s') && s' <= s
    ensures ClosedUpstream(g, q, s')
  {
    forall n, i | n in s' && n !in q.overrides && 0 <= i < |g.nodes[n].deps|
      ensures Skipped(g, q, g.nodes[n].deps[i]) || g.nodes[n].deps[i].name in s'
    {
      assert g'.NodeValid(n) && g'.nodes[n].deps[i] == g.nodes[n].deps[i];
    }
  }

  // ---------------------------------------------------------------- which inputs count

  /** The overrides are the same, and so is every input in s: supplied alike, or by neither. */
  ghost predicate SameInputsIn<V>(g: Dag<V>, s: set<Name>, ctx: Context<V>, ctx': Context<V>)
    requires s <= g.nodes.Keys
  {
    && ctx'.overrides == ctx.overrides
    && (forall d :: d in s && g.nodes[d].external ==> (d in ctx'.inputs <==> d in ctx.inputs))
    && (forall d :: d in s && g.nodes[d].external && d in ctx.inputs ==> ctx'.inputs[d] == ctx.inputs[d])
  }

  /** No input outside a set closed under what its nodes need counts for its nodes. */
  lemma {:induction false} ClosedInputsDecide<V>(g: Dag<V>, q: Query, ctx: Context<V>, ctx': Context<V>, s: set<Name>,
                                                 n: Name)
    requires g.Valid() && Describes(q, ctx) && Describes(q, ctx') && ClosedUpstream(g, q, s)
    requires SameInputsIn(g, s, ctx, ctx') && n in s
    ensures Eval(g, ctx', n) == Eval(g, ctx, n)
    decreases g.rank[n], 1, 0
  {
    if n !in ctx.overrides && !g.nodes[n].external {
      ClosedInputsGathered(g, q, ctx, ctx', s, n, |g.nodes[n].deps|);
    }
  }

  lemma {:induction false} ClosedInputsGathered<V>(g: Dag<V>, q: Query, ctx: Context<V>, ctx': Context<V>, s: set<Name>,
                                                   n: Name, k: nat)
    requires g.Valid() && Describes(q, ctx) && Describes(q, ctx') && ClosedUpstream(g, q, s)
    requires SameInputsIn(g, s, ctx, ctx') && n in s && n !in q.overrides && k <= |g.nodes[n].deps|
    ensures Gather(g, ctx', n, k) == Gather(g, ctx, n, k)
    decreases g.rank[n], 0, k
  {
    hide Eval, Extend;
    GatherUnfold(g, ctx, n, k);
    GatherUnfold(g, ctx', n, k);
    hide Gather;
    if k > 0 {
      var dep := g.nodes[n].deps[k - 1];
      ClosedInputsGathered(g, q, ctx, ctx', s, n, k - 1);
      if Skipped(g, q, dep) {
        SkippedMeansTheSame(g, q, ctx, ctx', dep);
      } else {
        ClosedInputsDecide(g, q, ctx, ctx', s, dep.name);
      }
    }
  }

  /** What is skipped was supplied by nobody: only an override can give it a value. */
  lemma SkippedMeansTheSame<V>(g: Dag<V>, q: Query, ctx: Context<V>, ctx': Context<V>, dep: Dep)
    requires g.Valid() && Describes(q, ctx) && Describes(q, ctx') && ctx'.overrides == ctx.overrides
    requires dep.name in g.nodes && Skipped(g, q, dep)
    ensures Eval(g, ctx', dep.name) == Eval(g, ctx, dep.name)
  {}

  /**
   * The slice holds every input that counts: with the same overrides, and the same values for the inputs in the
   * slice, everything in it evaluates alike. In particular an optional input that was supplied is in it.
   */
  lemma {:induction false} SliceHoldsItsInputs<V>(g: Dag<V>, q: Query, ctx: Context<V>, ctx': Context<V>,
                                                  finals: seq<Name>, f: Name)
    requires g.Valid() && Describes(q, ctx) && Describes(q, ctx') && RequestsIn(finals, g.nodes.Keys) && f in finals
    requires SameInputsIn(g, Slice(g, q, finals), ctx, ctx')
    ensures f in g.nodes && Eval(g, ctx', f) == Eval(g, ctx, f)
    ensures forall n, i :: n in Slice(g, q, finals) && n in g.nodes && n !in ctx.overrides
                           && 0 <= i < |g.nodes[n].deps| && g.nodes[n].deps[i].name in ctx.inputs ==>
              g.nodes[n].deps[i].name in Slice(g, q, finals)
  {
    SliceClosed(g, q, finals);
    ClosedInputsDecide(g, q, ctx, ctx', Slice(g, q, finals), f);
  }
}
