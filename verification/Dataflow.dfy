/**
 * The dataflow graph as a value, and its plain evaluation: what a run means,
 * before any memo, cache, slice or schedule.
 */
module Dataflow {
  import opened Prelude

  /** One parameter of a node: the name of its dependency and whether it has no default. */
  datatype Dep = Dep(name: Name, required: bool)

  /**
   * A node; `external` is `user_defined`, `defaults` its default parameter values, `code` its code version: from
   * the source of its first originating function, which an input takes from its first consumer, or its name.
   */
  datatype NodeDef<!V> = NodeDef(
    external: bool,
    deps: seq<Dep>,
    defaults: Dict<Name, V>,
    code: string,
    fn: map<Name, V> -> Outcome<V>)

  /** The graph with its back edges; `rank` witnesses that it is acyclic. */
  datatype Dag<!V> = Dag(
    nodes: map<Name, NodeDef<V>>,
    dependents: map<Name, seq<Name>>,
    rank: map<Name, nat>)
  {
    ghost predicate Valid() {
      && nodes.Keys == rank.Keys
      && (forall n :: n in nodes ==> NodeValid(n))
    }

    /** The back edges are the inverse of the dependencies. */
    ghost predicate Linked() {
      && dependents.Keys == nodes.Keys
      && (forall a, b :: a in nodes && b in nodes ==> (b in dependents[a] <==> Uses(b, a)))
      && (forall a :: a in nodes ==> forall i :: 0 <= i < |dependents[a]| ==> dependents[a][i] in nodes)
    }

    ghost predicate NodeValid(n: Name)
      requires nodes.Keys == rank.Keys && n in nodes
    {
      && (nodes[n].external ==> nodes[n].deps == [])
      && DistinctKeys(nodes[n].defaults)
      && (forall i :: 0 <= i < |nodes[n].deps| ==>
            nodes[n].deps[i].name in nodes && rank[nodes[n].deps[i].name] < rank[n])
      && (forall i, j :: 0 <= i < j < |nodes[n].deps| ==> nodes[n].deps[i].name != nodes[n].deps[j].name)
    }

    predicate Uses(b: Name, a: Name)
      requires b in nodes
    {
      exists i :: 0 <= i < |nodes[b].deps| && nodes[b].deps[i].name == a
    }
  }

  /** `inputs` is config and runtime inputs combined. */
  datatype Context<+V> = Context(inputs: map<Name, V>, overrides: map<Name, V>)

  datatype EvalError = MissingInput(input: Name) | CallFailed(node: Name, error: string)

  /** Absent: an external node nobody supplied, allowed where the parameter is optional. */
  datatype EvalResult<+V> = Value(value: V) | Absent | Error(error: EvalError)

  datatype Gathered<+V> = Kwargs(kwargs: Dict<Name, V>) | Stopped(error: EvalError)

  /** `{**kwargs}` completed with the default parameter values it lacks. */
  function ResolveDefaults<V>(defaults: Dict<Name, V>, kwargs: Dict<Name, V>): Dict<Name, V> {
    if defaults == [] then kwargs
    else
      var n := |defaults| - 1;
      ResolveDefaults(defaults[..n], kwargs) + if HasKey(kwargs, defaults[n].0) then [] else [defaults[n]]
  }

  /** Defaults fill in what is missing, after what was passed. */
  ghost predicate Completes<V>(defaults: Dict<Name, V>, kwargs: Dict<Name, V>, r: Dict<Name, V>) {
    && DistinctKeys(r)
    && |kwargs| <= |r| && r[..|kwargs|] == kwargs
    && (forall k :: HasKey(r, k) <==> HasKey(kwargs, k) || HasKey(defaults, k))
    && (forall i :: |kwargs| <= i < |r| ==> r[i] in defaults && !HasKey(kwargs, r[i].0))
  }

  lemma {:induction false} ResolvedKeys<V>(defaults: Dict<Name, V>, kwargs: Dict<Name, V>)
    requires DistinctKeys(defaults) && DistinctKeys(kwargs)
    ensures Completes(defaults, kwargs, ResolveDefaults(defaults, kwargs))
  {
    if defaults != [] {
      hide Completes;
      var n := |defaults| - 1;
      ResolvedKeys(defaults[..n], kwargs);
      CompletesMore(defaults, kwargs, ResolveDefaults(defaults[..n], kwargs));
    }
  }

  lemma CompletesMore<V>(defaults: Dict<Name, V>, kwargs: Dict<Name, V>, r: Dict<Name, V>)
    requires defaults != [] && DistinctKeys(defaults) && Completes(defaults[..|defaults| - 1], kwargs, r)
    ensures var last := defaults[|defaults| - 1];
            Completes(defaults, kwargs, r + if HasKey(kwargs, last.0) then [] else [last])
  {
    var n := |defaults| - 1;
    HasKeySnoc(defaults);
    if HasKey(kwargs, defaults[n].0) {
      assert r + [] == r;
      hide HasKey, DistinctKeys;
    } else {
      var r' := r + [defaults[n]];
      assert !HasKey(defaults[..n], defaults[n].0);
      assert !HasKey(r, defaults[n].0);
      HasKeySnoc(r');
      assert r'[..|r|] == r;
      assert DistinctKeys(r') by { DistinctSnoc(r, defaults[n]); }
      hide HasKey, DistinctKeys;
    }
  }

  lemma DistinctSnoc<K, V>(d: Dict<K, V>, p: (K, V))
    requires DistinctKeys(d) && !HasKey(d, p.0)
    ensures DistinctKeys(d + [p])
  {}

  lemma HasKeySnoc<K, V>(d: Dict<K, V>)
    requires d != []
    ensures forall k :: HasKey(d, k) <==> HasKey(d[..|d| - 1], k) || k == d[|d| - 1].0
  {
    var n := |d| - 1;
    forall k
      ensures HasKey(d, k) <==> HasKey(d[..n], k) || k == d[n].0
    {
      if HasKey(d, k) && k != d[n].0 {
        var i :| 0 <= i < |d| && d[i].0 == k;
        assert d[..n][i].0 == k;
      }
      if HasKey(d[..n], k) {
        var i :| 0 <= i < |d[..n]| && d[..n][i].0 == k;
        assert d[i].0 == k;
      }
    }
  }

  /** Calling a node: Python fills in the defaults of the parameters left out. */
  function Call<V>(node: NodeDef<V>, kwargs: Dict<Name, V>): Outcome<V> {
    node.fn(MapOf(ResolveDefaults(node.defaults, kwargs)))
  }

  /** What becomes of a function node once its arguments are gathered. */
  function Finish<V>(node: NodeDef<V>, n: Name, args: Gathered<V>): EvalResult<V> {
    match args
    case Stopped(e) => Error(e)
    case Kwargs(kwargs) =>
      match Call(node, kwargs)
      case Returned(v) => Value(v)
      case Raised(e) => Error(CallFailed(n, e))
  }

  function Supplied<V>(ctx: Context<V>, n: Name): EvalResult<V> {
    if n in ctx.inputs then Value(ctx.inputs[n]) else Absent
  }

  /** Plain evaluation of one node. */
  function Eval<V>(g: Dag<V>, ctx: Context<V>, n: Name): EvalResult<V>
    requires g.Valid() && n in g.nodes
    decreases g.rank[n], 1, 0
  {
    if n in ctx.overrides then Value(ctx.overrides[n])
    else if g.nodes[n].external then Supplied(ctx, n)
    else Finish(g.nodes[n], n, Gather(g, ctx, n, |g.nodes[n].deps|))
  }

  /** The keyword arguments from the first k dependencies, or the first error among them. */
  function Gather<V>(g: Dag<V>, ctx: Context<V>, n: Name, k: nat): Gathered<V>
    requires g.Valid() && n in g.nodes && k <= |g.nodes[n].deps|
    decreases g.rank[n], 0, k
  {
    if k == 0 then Kwargs([])
    else
      var dep := g.nodes[n].deps[k - 1];
      Extend(Gather(g, ctx, n, k - 1), dep, Eval(g, ctx, dep.name))
  }

  /** One more dependency: passed on if it has a value, left out if it may be. */
  function Extend<V>(r: Gathered<V>, dep: Dep, e: EvalResult<V>): Gathered<V> {
    if r.Stopped? then r
    else
      match e
      case Error(error) => Stopped(error)
      case Absent => if dep.required then Stopped(MissingInput(dep.name)) else r
      case Value(v) => Kwargs(r.kwargs + [(dep.name, v)])
  }

  lemma GatherUnfold<V>(g: Dag<V>, ctx: Context<V>, n: Name, k: nat)
    requires g.Valid() && n in g.nodes && k <= |g.nodes[n].deps|
    ensures Gather(g, ctx, n, k) ==
            if k == 0 then Kwargs([])
            else Extend(Gather(g, ctx, n, k - 1), g.nodes[n].deps[k - 1], Eval(g, ctx, g.nodes[n].deps[k - 1].name))
  {
    hide Eval, Extend;
  }
}
