/**
 * Graph construction as a function on values: what `add_dependency` and `update_dependencies` make of
 * node types and edges.
 */
module GraphSpec {
  import opened Prelude
  import opened Types
  import D = Dataflow

  /** A parameter of a function node, as declared. */
  datatype Param = Param(name: Name, typ: Type, required: bool)

  /** When a node's type may feed a parameter: hamilton's check, or a graph adapter's. */
  datatype Matching = Matching(hierarchy: Hierarchy, adapter: (Type, Type) -> bool)
  {
    predicate Fits(param: Type, node: Type) {
      TypesMatch(hierarchy, param, node) || adapter(param, node)
    }

    /** The check before an input's type is tightened; the adapter is asked the same question again. */
    predicate CanTighten(node: Type, param: Type) {
      TypesMatch(hierarchy, node, param) || adapter(param, node)
    }
  }

  /** A node: its type, whether it is an input, and the names on its two edge lists. */
  datatype Vertex = Vertex(typ: Type, external: bool, deps: seq<Name>, readers: seq<Name>)

  /** The `nodes` dict, with the order in which names were inserted. */
  datatype Graph = Graph(order: seq<Name>, nodes: map<Name, Vertex>) {
    ghost predicate Valid() { InOrder(order, nodes.Keys) }
  }

  /** The keys of a dict and the order in which they were inserted. */
  ghost predicate InOrder(order: seq<Name>, keys: set<Name>) {
    (forall k :: k in keys <==> k in order) && Distinct(order)
  }

  lemma InOrderSnoc(order: seq<Name>, keys: set<Name>, d: Name)
    requires InOrder(order, keys) && d !in keys
    ensures InOrder(order + [d], keys + {d})
  {}

  lemma InOrderConcat(a: seq<Name>, keys: set<Name>, b: seq<Name>, keys': set<Name>)
    requires InOrder(a, keys) && InOrder(b, keys') && keys !! keys'
    ensures InOrder(a + b, keys + keys')
  {
    forall i, j | 0 <= i < j < |a + b| ensures (a + b)[i] != (a + b)[j] {
      if i < |a| <= j {
        assert a[i] in keys && b[j - |a|] in keys';
      }
    }
  }

  function WithDep(g: Graph, n: Name, d: Name): Graph
    requires n in g.nodes
  {
    g.(nodes := g.nodes[n := g.nodes[n].(deps := g.nodes[n].deps + [d])])
  }

  function WithReader(g: Graph, d: Name, n: Name): Graph
    requires d in g.nodes
  {
    g.(nodes := g.nodes[d := g.nodes[d].(readers := g.nodes[d].readers + [n])])
  }

  /** An edge is recorded on both of its ends. */
  function WithEdge(g: Graph, n: Name, d: Name): Graph
    requires n in g.nodes && d in g.nodes
  {
    WithReader(WithDep(g, n, d), d, n)
  }

  function WithInput(g: Graph, d: Name, t: Type): Graph {
    Graph(g.order + [d], g.nodes[d := Vertex(t, true, [], [])])
  }

  function WithType(g: Graph, d: Name, t: Type): Graph
    requires d in g.nodes
  {
    g.(nodes := g.nodes[d := g.nodes[d].(typ := t)])
  }

  /** The graph once `add_dependency` has found or made the node; None stands for the ValueError. */
  function Resolve(m: Matching, g: Graph, p: Param): Option<Graph> {
    if p.name !in g.nodes then Some(WithInput(g, p.name, p.typ))
    else if m.Fits(p.typ, g.nodes[p.name].typ) then Some(g)
    else if g.nodes[p.name].external && m.CanTighten(g.nodes[p.name].typ, p.typ) then Some(WithType(g, p.name, p.typ))
    else None
  }

  /** A node asking for one of its parameters. */
  datatype Request = Request(consumer: Name, param: Param)

  /** `add_dependency`. */
  function AddDependency(m: Matching, g: Graph, r: Request): Option<Graph>
    requires r.consumer in g.nodes
  {
    match Resolve(m, g, r.param)
    case None => None
    case Some(g') => Some(WithEdge(g', r.consumer, r.param.name))
  }

  /**
   * Exactly which requests are refused, and the type of the node asked for afterwards: a node that is already there
   * keeps its type where it fits, by hamilton's check or the adapter's; an input that does not fit takes the
   * parameter's type if that would feed the input's.
   */
  lemma RequestIsMet(m: Matching, g: Graph, r: Request)
    requires r.consumer in g.nodes
    ensures var d, t, next := r.param.name, r.param.typ, AddDependency(m, g, r);
            if d !in g.nodes then next.Some? && d in next.value.nodes && next.value.nodes[d].typ == t
            else
              var before := g.nodes[d].typ;
              if TypesMatch(m.hierarchy, t, before) || m.adapter(t, before) then
                next.Some? && d in next.value.nodes && next.value.nodes[d].typ == before
              else if g.nodes[d].external && TypesMatch(m.hierarchy, before, t) then
                next.Some? && d in next.value.nodes && next.value.nodes[d].typ == t
              else next.None?
  {
    hide TypesMatch;
  }

  /** A node of type Any meets every request, a parameter of type Any asks for any node but a type variable's. */
  lemma AnyIsMet(m: Matching, g: Graph, r: Request)
    requires r.consumer in g.nodes && r.param.name in g.nodes
    requires g.nodes[r.param.name].typ.Any? || (r.param.typ.Any? && !g.nodes[r.param.name].typ.TypeVar?)
    ensures AddDependency(m, g, r) == Some(WithEdge(g, r.consumer, r.param.name))
  {
    AnyMatches(m.hierarchy, r.param.typ);
    AnyMatches(m.hierarchy, g.nodes[r.param.name].typ);
    hide TypesMatch;
  }

  /** `add_dependency` for one request after another. */
  function Link(m: Matching, g: Graph, requests: seq<Request>): (r: Option<Graph>)
    requires forall i :: 0 <= i < |requests| ==> requests[i].consumer in g.nodes
    ensures r.Some? ==> forall k :: k in g.nodes ==> k in r.value.nodes
  {
    if requests == [] then Some(g)
    else
      match Link(m, g, requests[..|requests| - 1])
      case None => None
      case Some(g') => AddDependency(m, g', requests[|requests| - 1])
  }

  // ---------------------------------------------------------------- what the loops ask for

  function RequestsOf(n: Name, params: seq<Param>): (r: seq<Request>)
    ensures |r| == |params| && forall i :: 0 <= i < |params| ==> r[i] == Request(n, params[i])
  {
    seq(|params|, i requires 0 <= i < |params| => Request(n, params[i]))
  }

  /** The requests `update_dependencies` makes: node after node, parameter after parameter. */
  function AllRequests(names: seq<Name>, params: map<Name, seq<Param>>): (r: seq<Request>)
    requires forall i :: 0 <= i < |names| ==> names[i] in params
    ensures forall i :: 0 <= i < |r| ==> r[i].consumer in names && r[i].param in params[r[i].consumer]
  {
    if names == [] then []
    else AllRequests(names[..|names| - 1], params) + RequestsOf(names[|names| - 1], params[names[|names| - 1]])
  }

  /** The outer loop of `update_dependencies`: one node's requests after another's. */
  function LinkAll(m: Matching, g: Graph, names: seq<Name>, params: map<Name, seq<Param>>): (r: Option<Graph>)
    requires forall i :: 0 <= i < |names| ==> names[i] in params && names[i] in g.nodes
    ensures r.Some? ==> forall k :: k in g.nodes ==> k in r.value.nodes
  {
    if names == [] then Some(g)
    else
      var n := names[|names| - 1];
      match LinkAll(m, g, names[..|names| - 1], params)
      case None => None
      case Some(g') => Link(m, g', RequestsOf(n, params[n]))
  }

  lemma LinkNext(m: Matching, g: Graph, requests: seq<Request>, i: nat)
    requires i < |requests| && forall i :: 0 <= i < |requests| ==> requests[i].consumer in g.nodes
    ensures Link(m, g, requests[..i + 1]) ==
            match Link(m, g, requests[..i]) case None => None case Some(g') => AddDependency(m, g', requests[i])
  {
    hide AddDependency;
    assert requests[..i + 1][..i] == requests[..i];
  }

  lemma {:induction false} LinkAllNext(m: Matching, g: Graph, names: seq<Name>, params: map<Name, seq<Param>>, i: nat)
    requires i < |names| && forall i :: 0 <= i < |names| ==> names[i] in params && names[i] in g.nodes
    ensures LinkAll(m, g, names[..i + 1], params) ==
            match LinkAll(m, g, names[..i], params)
            case None => None
            case Some(g') => Link(m, g', RequestsOf(names[i], params[names[i]]))
  {
    hide Link;
    assert names[..i + 1][..i] == names[..i];
  }

  lemma {:induction false} LinkStuck(m: Matching, g: Graph, requests: seq<Request>, k: nat)
    requires k <= |requests| && forall i :: 0 <= i < |requests| ==> requests[i].consumer in g.nodes
    ensures Link(m, g, requests[..k]).None? ==> Link(m, g, requests).None?
  {
    if k == |requests| {
      assert requests[..k] == requests;
    } else {
      LinkStuck(m, g, requests[..|requests| - 1], k);
      assert requests[..|requests| - 1][..k] == requests[..k];
    }
  }

  lemma {:induction false} LinkAllStuck(m: Matching, g: Graph, names: seq<Name>, params: map<Name, seq<Param>>, k: nat)
    requires k <= |names| && forall i :: 0 <= i < |names| ==> names[i] in params && names[i] in g.nodes
    ensures LinkAll(m, g, names[..k], params).None? ==> LinkAll(m, g, names, params).None?
  {
    hide Link;
    if k == |names| {
      assert names[..k] == names;
    } else {
      LinkAllStuck(m, g, names[..|names| - 1], params, k);
      assert names[..|names| - 1][..k] == names[..k];
    }
  }

  lemma {:induction false} LinkAppend(m: Matching, g: Graph, a: seq<Request>, b: seq<Request>)
    requires forall i :: 0 <= i < |a| ==> a[i].consumer in g.nodes
    requires forall i :: 0 <= i < |b| ==> b[i].consumer in g.nodes
    ensures Link(m, g, a + b) == match Link(m, g, a) case None => None case Some(g') => Link(m, g', b)
  {
    hide AddDependency;
    if b == [] {
      assert a + b == a;
    } else {
      LinkAppend(m, g, a, b[..|b| - 1]);
      assert (a + b)[..|a + b| - 1] == a + b[..|b| - 1];
    }
  }

  /** The nested loops make all requests, in order, and stop at the first that cannot be met. */
  lemma {:induction false} LoopsAreLink(m: Matching, g: Graph, names: seq<Name>, params: map<Name, seq<Param>>)
    requires forall i :: 0 <= i < |names| ==> names[i] in params && names[i] in g.nodes
    ensures LinkAll(m, g, names, params) == Link(m, g, AllRequests(names, params))
  {
    hide Link;
    if names == [] {
      LinkNothing(m, g);
    } else {
      var n := names[|names| - 1];
      LoopsAreLink(m, g, names[..|names| - 1], params);
      LinkAppend(m, g, AllRequests(names[..|names| - 1], params), RequestsOf(n, params[n]));
    }
  }

  lemma LinkAllNothing(m: Matching, g: Graph, params: map<Name, seq<Param>>)
    ensures LinkAll(m, g, [], params) == Some(g)
  {}

  lemma LinkNothing(m: Matching, g: Graph)
    ensures Link(m, g, []) == Some(g)
  {}

  /** `update_dependencies` on a dict of nodes without edges. */
  function UpdateDependencies(m: Matching, g: Graph, params: map<Name, seq<Param>>): Option<Graph>
    requires g.Valid() && params.Keys == g.nodes.Keys
  {
    LinkAll(m, g, g.order, params)
  }

  lemma UpdateIsLink(m: Matching, g: Graph, params: map<Name, seq<Param>>)
    requires g.Valid() && params.Keys == g.nodes.Keys
    ensures forall i :: 0 <= i < |g.order| ==> g.order[i] in params && g.order[i] in g.nodes
    ensures UpdateDependencies(m, g, params) == Link(m, g, AllRequests(g.order, params))
  {
    OrderIsKeys(g);
    LoopsAreLink(m, g, g.order, params);
  }

  /** All edge lists empty: a graph before `update_dependencies`, or a copy without references. */
  ghost predicate Unlinked(g: Graph) {
    forall k :: k in g.nodes ==> g.nodes[k].deps == [] && g.nodes[k].readers == []
  }

  /** `copy(include_refs=False)` of every node. */
  function WithoutEdges(g: Graph): Graph {
    Graph(g.order, map k | k in g.nodes :: g.nodes[k].(deps := [], readers := []))
  }

  /** `{**a, **b}`, where no name is in both. */
  function Merge(a: Graph, b: Graph): Graph {
    Graph(a.order + b.order, a.nodes + b.nodes)
  }

  /** `with_nodes`: the edges of the merged graph are made anew. */
  function WithNodes(m: Matching, a: Graph, params: map<Name, seq<Param>>, b: Graph,
                     params': map<Name, seq<Param>>): Option<Graph>
    requires a.Valid() && b.Valid() && params.Keys == a.nodes.Keys && params'.Keys == b.nodes.Keys
  {
    if a.nodes.Keys !! b.nodes.Keys then
      InOrderConcat(a.order, a.nodes.Keys, b.order, b.nodes.Keys);
      assert WithoutEdges(Merge(a, b)).nodes.Keys == a.nodes.Keys + b.nodes.Keys;
      UpdateDependencies(m, WithoutEdges(Merge(a, b)), params + params')
    else None
  }

  lemma WithNodesIs(m: Matching, a: Graph, params: map<Name, seq<Param>>, b: Graph, params': map<Name, seq<Param>>)
    requires a.Valid() && b.Valid() && params.Keys == a.nodes.Keys && params'.Keys == b.nodes.Keys
    ensures WithNodes(m, a, params, b, params').Some? ==> a.nodes.Keys !! b.nodes.Keys
    ensures a.nodes.Keys !! b.nodes.Keys ==>
              && WithoutEdges(Merge(a, b)).Valid() && (params + params').Keys == WithoutEdges(Merge(a, b)).nodes.Keys
              && WithNodes(m, a, params, b, params')
                   == UpdateDependencies(m, WithoutEdges(Merge(a, b)), params + params')
  {
    hide UpdateDependencies;
    if a.nodes.Keys !! b.nodes.Keys {
      InOrderConcat(a.order, a.nodes.Keys, b.order, b.nodes.Keys);
      assert WithoutEdges(Merge(a, b)).nodes.Keys == a.nodes.Keys + b.nodes.Keys;
    }
  }

  // ---------------------------------------------------------------- edges

  /** b occurs among a's dependencies as often as a occurs among b's readers. */
  ghost predicate EdgesInverse(g: Graph) {
    forall a, b :: a in g.nodes && b in g.nodes ==> multiset(g.nodes[a].deps)[b] == multiset(g.nodes[b].readers)[a]
  }

  /** Every name on an edge list is a node. */
  ghost predicate Resolved(g: Graph) {
    forall a :: a in g.nodes ==>
      && (forall i :: 0 <= i < |g.nodes[a].deps| ==> g.nodes[a].deps[i] in g.nodes)
      && (forall i :: 0 <= i < |g.nodes[a].readers| ==> g.nodes[a].readers[i] in g.nodes)
  }

  ghost predicate EdgesSound(g: Graph) {
    g.Valid() && EdgesInverse(g) && Resolved(g)
  }

  lemma InputKeepsInverse(g: Graph, d: Name, t: Type)
    requires EdgesInverse(g) && Resolved(g) && d !in g.nodes
    ensures EdgesInverse(WithInput(g, d, t))
  {
    var g' := WithInput(g, d, t);
    forall a, b | a in g'.nodes && b in g'.nodes
      ensures multiset(g'.nodes[a].deps)[b] == multiset(g'.nodes[b].readers)[a]
    {
      if a != d && b == d {
        hide EdgesInverse;
        assert d !in g.nodes[a].deps;
      } else if a == d && b != d {
        hide EdgesInverse;
        assert d !in g.nodes[b].readers;
      } else if a != d && b != d {
        hide Resolved;
      }
    }
  }

  lemma InputKeepsRest(g: Graph, d: Name, t: Type)
    requires g.Valid() && Resolved(g) && d !in g.nodes
    ensures WithInput(g, d, t).Valid() && Resolved(WithInput(g, d, t))
  {
    assert Resolved(WithInput(g, d, t)) by { hide Graph.Valid; }
    hide Resolved;
  }

  lemma {:induction false} TypeKeepsEdges(g: Graph, d: Name, t: Type)
    requires EdgesSound(g) && d in g.nodes
    ensures EdgesSound(WithType(g, d, t))
  {
    assert EdgesInverse(WithType(g, d, t)) by { hide Graph.Valid, Resolved; }
    assert Resolved(WithType(g, d, t)) by { hide Graph.Valid, EdgesInverse; }
    hide EdgesInverse, Resolved;
  }

  lemma EdgeLists(g: Graph, n: Name, d: Name)
    requires n in g.nodes && d in g.nodes
    ensures WithEdge(g, n, d).nodes.Keys == g.nodes.Keys
    ensures forall k :: k in g.nodes ==>
      && WithEdge(g, n, d).nodes[k].deps == (if k == n then g.nodes[k].deps + [d] else g.nodes[k].deps)
      && WithEdge(g, n, d).nodes[k].readers == (if k == d then g.nodes[k].readers + [n] else g.nodes[k].readers)
  {}

  lemma CountSnoc(names: seq<Name>, x: Name, y: Name)
    ensures multiset(names + [x])[y] == multiset(names)[y] + if x == y then 1 else 0
  {}

  lemma EdgeKeepsCount(g: Graph, n: Name, d: Name, a: Name, b: Name)
    requires n in g.nodes && d in g.nodes && a in g.nodes && b in g.nodes
    requires multiset(g.nodes[a].deps)[b] == multiset(g.nodes[b].readers)[a]
    ensures a in WithEdge(g, n, d).nodes && b in WithEdge(g, n, d).nodes
    ensures multiset(WithEdge(g, n, d).nodes[a].deps)[b] == multiset(WithEdge(g, n, d).nodes[b].readers)[a]
  {
    EdgeLists(g, n, d);
    hide WithEdge;
    CountSnoc(g.nodes[a].deps, d, b);
    CountSnoc(g.nodes[b].readers, n, a);
  }

  lemma {:induction false} EdgeKeepsInverse(g: Graph, n: Name, d: Name)
    requires EdgesInverse(g) && n in g.nodes && d in g.nodes
    ensures EdgesInverse(WithEdge(g, n, d))
  {
    hide WithEdge;
    EdgeLists(g, n, d);
    forall a, b | a in WithEdge(g, n, d).nodes && b in WithEdge(g, n, d).nodes
      ensures multiset(WithEdge(g, n, d).nodes[a].deps)[b] == multiset(WithEdge(g, n, d).nodes[b].readers)[a]
    {
      EdgeKeepsCount(g, n, d, a, b);
    }
  }

  lemma EdgeKeepsRest(g: Graph, n: Name, d: Name)
    requires g.Valid() && Resolved(g) && n in g.nodes && d in g.nodes
    ensures WithEdge(g, n, d).Valid() && Resolved(WithEdge(g, n, d))
  {
    assert Resolved(WithEdge(g, n, d)) by { hide Graph.Valid; }
    hide Resolved;
  }

  /** Adding a dependency keeps the edge lists inverse to each other and everything resolved. */
  lemma {:induction false} AddKeepsEdges(m: Matching, g: Graph, r: Request)
    requires EdgesSound(g) && r.consumer in g.nodes
    ensures AddDependency(m, g, r).Some? ==> EdgesSound(AddDependency(m, g, r).value)
  {
    hide EdgesInverse, Resolved, Graph.Valid, Resolve, WithEdge;
    ResolveKeepsEdges(m, g, r.param);
    match Resolve(m, g, r.param) {
      case None =>
      case Some(g') =>
        EdgeKeepsInverse(g', r.consumer, r.param.name);
        EdgeKeepsRest(g', r.consumer, r.param.name);
    }
  }

  lemma {:induction false} ResolveKeepsEdges(m: Matching, g: Graph, p: Param)
    requires EdgesSound(g)
    ensures Resolve(m, g, p).Some? ==>
              && EdgesSound(Resolve(m, g, p).value)
              && p.name in Resolve(m, g, p).value.nodes
              && forall k :: k in g.nodes ==> k in Resolve(m, g, p).value.nodes
  {
    hide EdgesInverse, Resolved, Graph.Valid, Matching.Fits, Matching.CanTighten;
    if p.name !in g.nodes {
      InputKeepsInverse(g, p.name, p.typ);
      InputKeepsRest(g, p.name, p.typ);
    } else {
      TypeKeepsEdges(g, p.name, p.typ);
    }
  }

  lemma {:induction false} LinkKeepsEdges(m: Matching, g: Graph, requests: seq<Request>)
    requires EdgesSound(g) && forall i :: 0 <= i < |requests| ==> requests[i].consumer in g.nodes
    ensures Link(m, g, requests).Some? ==> EdgesSound(Link(m, g, requests).value)
  {
    hide EdgesSound, AddDependency;
    if requests != [] {
      var k := |requests| - 1;
      LinkKeepsEdges(m, g, requests[..k]);
      match Link(m, g, requests[..k]) {
        case None =>
        case Some(g') => AddKeepsEdges(m, g', requests[k]);
      }
    }
  }

  // ---------------------------------------------------------------- which edges there are

  /** The names a node asked for, in order. */
  function Asked(requests: seq<Request>, n: Name): seq<Name> {
    if requests == [] then []
    else
      var last := requests[|requests| - 1];
      Asked(requests[..|requests| - 1], n) + if last.consumer == n then [last.param.name] else []
  }

  /** The nodes that asked for a name, in order. */
  function Askers(requests: seq<Request>, d: Name): seq<Name> {
    if requests == [] then []
    else
      var last := requests[|requests| - 1];
      Askers(requests[..|requests| - 1], d) + if last.param.name == d then [last.consumer] else []
  }

  function DepsIn(g: Graph, k: Name): seq<Name> {
    if k in g.nodes then g.nodes[k].deps else []
  }

  function ReadersIn(g: Graph, k: Name): seq<Name> {
    if k in g.nodes then g.nodes[k].readers else []
  }

  lemma AddEdges(m: Matching, g: Graph, r: Request, k: Name)
    requires r.consumer in g.nodes && AddDependency(m, g, r).Some?
    ensures var g' := AddDependency(m, g, r).value;
            && DepsIn(g', k) == DepsIn(g, k) + (if r.consumer == k then [r.param.name] else [])
            && ReadersIn(g', k) == ReadersIn(g, k) + (if r.param.name == k then [r.consumer] else [])
  {
    hide Matching.Fits, Matching.CanTighten;
  }

  /** Linking adds one edge a request, in order, on both ends, and no other. */
  lemma {:induction false} LinkEdges(m: Matching, g: Graph, requests: seq<Request>, k: Name)
    requires forall i :: 0 <= i < |requests| ==> requests[i].consumer in g.nodes
    requires Link(m, g, requests).Some?
    ensures var r := Link(m, g, requests).value;
            && DepsIn(r, k) == DepsIn(g, k) + Asked(requests, k)
            && ReadersIn(r, k) == ReadersIn(g, k) + Askers(requests, k)
  {
    hide AddDependency, DepsIn, ReadersIn;
    if requests != [] {
      var last := |requests| - 1;
      LinkEdges(m, g, requests[..last], k);
      AddEdges(m, Link(m, g, requests[..last]).value, requests[last], k);
    }
  }

  function ParamNames(params: seq<Param>): seq<Name> {
    MapSeq((p: Param) => p.name, params)
  }

  lemma {:induction false} AskedAppend(a: seq<Request>, b: seq<Request>, n: Name)
    ensures Asked(a + b, n) == Asked(a, n) + Asked(b, n)
  {
    if b == [] {
      assert a + b == a;
    } else {
      var k := |b| - 1;
      AskedAppend(a, b[..k], n);
      assert (a + b)[..|a + b| - 1] == a + b[..k];
    }
  }

  lemma OneParamMore(c: Name, params: seq<Param>)
    requires params != []
    ensures var k := |params| - 1;
            && RequestsOf(c, params) == RequestsOf(c, params[..k]) + [Request(c, params[k])]
            && ParamNames(params) == ParamNames(params[..k]) + [params[k].name]
  {}

  lemma {:induction false} AskedByOne(c: Name, params: seq<Param>, n: Name)
    ensures Asked(RequestsOf(c, params), n) == if c == n then ParamNames(params) else []
  {
    if params == [] {
      assert ParamNames(params) == [];
    } else {
      hide RequestsOf, ParamNames;
      var k := |params| - 1;
      OneParamMore(c, params);
      AskedByOne(c, params[..k], n);
      assert (RequestsOf(c, params[..k]) + [Request(c, params[k])])[..k] == RequestsOf(c, params[..k]);
    }
  }

  /** Each node asks for exactly its parameters, once and in order. */
  lemma {:induction false} AskedIsParams(names: seq<Name>, params: map<Name, seq<Param>>, n: Name)
    requires Distinct(names) && forall i :: 0 <= i < |names| ==> names[i] in params
    ensures Asked(AllRequests(names, params), n) == if n in names then ParamNames(params[n]) else []
  {
    if names != [] {
      var k := |names| - 1;
      var n' := names[k];
      assert n in names <==> n in names[..k] || n == n' by { assert names == names[..k] + [n']; }
      assert n' !in names[..k];
      AskedIsParams(names[..k], params, n);
      assert AllRequests(names, params) == AllRequests(names[..k], params) + RequestsOf(n', params[n']);
      hide AllRequests, Asked, Distinct;
      AskedAppend(AllRequests(names[..k], params), RequestsOf(n', params[n']), n);
      AskedByOne(n', params[n'], n);
    }
  }

  // ---------------------------------------------------------------- which nodes and types there are

  /** The type of an input is one that a consumer declared for it. */
  ghost predicate Declares(requests: seq<Request>, d: Name, t: Type) {
    exists i :: 0 <= i < |requests| && requests[i].param.name == d && requests[i].param.typ == t
  }

  /** What linking may do to the nodes: add inputs that were asked for, and retype inputs. */
  ghost predicate Grown(g: Graph, r: Graph, requests: seq<Request>) {
    && |g.order| <= |r.order| && r.order[..|g.order|] == g.order
    && (forall k :: k in g.nodes ==> k in r.nodes && r.nodes[k].external == g.nodes[k].external)
    && (forall k :: k in r.nodes && k !in g.nodes ==> r.nodes[k].external && Declares(requests, k, r.nodes[k].typ))
    && (forall k :: k in g.nodes && r.nodes[k].typ != g.nodes[k].typ ==>
          g.nodes[k].external && Declares(requests, k, r.nodes[k].typ))
  }

  lemma DeclaresMore(requests: seq<Request>, k: nat, d: Name, t: Type)
    requires k <= |requests| && Declares(requests[..k], d, t)
    ensures Declares(requests, d, t)
  {
    var i :| 0 <= i < k && requests[..k][i].param.name == d && requests[..k][i].param.typ == t;
    assert requests[i].param.name == d;
  }

  lemma AddGrows(m: Matching, g: Graph, r: Request)
    requires r.consumer in g.nodes && AddDependency(m, g, r).Some?
    ensures Grown(g, AddDependency(m, g, r).value, [r])
    ensures r.param.name in AddDependency(m, g, r).value.nodes
  {
    hide Matching.Fits, Matching.CanTighten;
    assert [r][0] == r;
    assert Declares([r], r.param.name, r.param.typ);
    hide Declares;
  }

  lemma {:induction false} LinkGrows(m: Matching, g: Graph, requests: seq<Request>)
    requires forall i :: 0 <= i < |requests| ==> requests[i].consumer in g.nodes
    requires Link(m, g, requests).Some?
    ensures Grown(g, Link(m, g, requests).value, requests)
  {
    hide AddDependency;
    if requests != [] {
      hide Grown;
      var k := |requests| - 1;
      LinkGrows(m, g, requests[..k]);
      var g' := Link(m, g, requests[..k]).value;
      AddGrows(m, g', requests[k]);
      GrownTwice(g, g', Link(m, g, requests).value, requests, k);
    }
  }

  lemma GrownTwice(g: Graph, g': Graph, r: Graph, requests: seq<Request>, k: nat)
    requires k + 1 == |requests| && Grown(g, g', requests[..k]) && Grown(g', r, [requests[k]])
    ensures Grown(g, r, requests)
  {
    forall d, t | Declares(requests[..k], d, t) || Declares([requests[k]], d, t) ensures Declares(requests, d, t) {
      if Declares(requests[..k], d, t) {
        DeclaresMore(requests, k, d, t);
      } else {
        assert requests[k].param.name == d;
      }
    }
    hide Declares;
    assert r.order[..|g.order|] == g'.order[..|g.order|];
  }

  /**
   * A finished graph: every node depends on its parameters in order, the edges agree with each other,
   * everything resolves, and only inputs were added.
   */
  lemma {:induction false} FinishedGraph(m: Matching, g: Graph, params: map<Name, seq<Param>>)
    requires g.Valid() && Unlinked(g) && params.Keys == g.nodes.Keys
    requires UpdateDependencies(m, g, params).Some?
    ensures var r := UpdateDependencies(m, g, params).value;
            && EdgesSound(r)
            && (forall n :: n in r.nodes ==> r.nodes[n].deps == if n in g.nodes then ParamNames(params[n]) else [])
            && Grown(g, r, AllRequests(g.order, params))
  {
    hide UpdateDependencies, EdgesSound, Unlinked, Link, AllRequests, Grown, InOrder;
    UpdateIsLink(m, g, params);
    var requests := AllRequests(g.order, params);
    UnlinkedIsSound(g);
    LinkKeepsEdges(m, g, requests);
    LinkGrows(m, g, requests);
    var r := UpdateDependencies(m, g, params).value;
    forall n | n in r.nodes ensures r.nodes[n].deps == if n in g.nodes then ParamNames(params[n]) else [] {
      FinishedDeps(m, g, params, n);
    }
  }

  lemma UnlinkedIsSound(g: Graph)
    requires g.Valid() && Unlinked(g)
    ensures EdgesSound(g) && forall n :: DepsIn(g, n) == []
  {}

  lemma FinishedDeps(m: Matching, g: Graph, params: map<Name, seq<Param>>, n: Name)
    requires g.Valid() && Unlinked(g) && params.Keys == g.nodes.Keys
    requires UpdateDependencies(m, g, params).Some?
    ensures DepsIn(UpdateDependencies(m, g, params).value, n) == if n in g.nodes then ParamNames(params[n]) else []
  {
    assert n in g.nodes <==> n in g.order;
    assert Distinct(g.order);
    hide UpdateDependencies, Link, AllRequests, EdgesSound, Graph.Valid, Distinct;
    UnlinkedIsSound(g);
    UpdateIsLink(m, g, params);
    LinkEdges(m, g, AllRequests(g.order, params), n);
    AskedIsParams(g.order, params, n);
  }

  // ---------------------------------------------------------------- types

  /** Where an input of type t is tightened to u, what fitted t fits u. */
  ghost predicate Composes(m: Matching, types: set<Type>) {
    forall p, t, u :: p in types && t in types && u in types && m.Fits(p, t) && Tightens(m, t, u) ==> m.Fits(p, u)
  }

  /** The guard of the branch that tightens an input of type t for a consumer declaring u. */
  predicate Tightens(m: Matching, t: Type, u: Type) {
    !m.Fits(u, t) && TypesMatch(m.hierarchy, t, u)
  }

  ghost predicate TypesFrom(g: Graph, types: set<Type>) {
    forall k :: k in g.nodes ==> g.nodes[k].typ in types
  }

  ghost predicate Asks(requests: seq<Request>, types: set<Type>) {
    forall i :: 0 <= i < |requests| ==> requests[i].param.typ in types
  }

  /** Every request is met by a node of a fitting type. */
  ghost predicate Satisfies(m: Matching, g: Graph, requests: seq<Request>) {
    forall i :: 0 <= i < |requests| ==>
      requests[i].param.name in g.nodes && m.Fits(requests[i].param.typ, g.nodes[requests[i].param.name].typ)
  }

  lemma MatchesItself(h: Hierarchy, t: Type)
    ensures TypesMatch(h, t, t)
  {}

  /** The adapter never helps to tighten: where it would, the first check has passed already. */
  lemma TightenOnlyByType(m: Matching, node: Type, param: Type)
    requires !m.Fits(param, node)
    ensures m.CanTighten(node, param) <==> Tightens(m, node, param)
  {}

  /** One added dependency fits, and what fitted before still does. */
  lemma AddKeepsTypes(m: Matching, types: set<Type>, g: Graph, r: Request, p: Param)
    requires r.consumer in g.nodes && Composes(m, types) && TypesFrom(g, types) && r.param.typ in types
    requires p.typ in types
    requires AddDependency(m, g, r).Some?
    ensures TypesFrom(AddDependency(m, g, r).value, types)
    ensures Satisfies(m, AddDependency(m, g, r).value, [r])
    ensures p.name in g.nodes && m.Fits(p.typ, g.nodes[p.name].typ) ==>
              m.Fits(p.typ, AddDependency(m, g, r).value.nodes[p.name].typ)
  {
    MatchesItself(m.hierarchy, r.param.typ);
    if r.param.name in g.nodes && !m.Fits(r.param.typ, g.nodes[r.param.name].typ) {
      TightenOnlyByType(m, g.nodes[r.param.name].typ, r.param.typ);
    }
    assert m.Fits(r.param.typ, r.param.typ);
    hide TypesMatch;
  }

  lemma {:induction false} LinkKeepsTypes(m: Matching, types: set<Type>, g: Graph, requests: seq<Request>)
    requires forall i :: 0 <= i < |requests| ==> requests[i].consumer in g.nodes
    requires Composes(m, types) && TypesFrom(g, types) && Asks(requests, types)
    requires Link(m, g, requests).Some?
    ensures TypesFrom(Link(m, g, requests).value, types)
    ensures Satisfies(m, Link(m, g, requests).value, requests)
  {
    hide AddDependency, Composes, TypesFrom, Matching.Fits;
    if requests != [] {
      var k := |requests| - 1;
      LinkKeepsTypes(m, types, g, requests[..k]);
      var g' := Link(m, g, requests[..k]).value;
      var r := Link(m, g, requests).value;
      AddKeepsTypes(m, types, g', requests[k], requests[k].param);
      assert Satisfies(m, r, [requests[k]]);
      assert [requests[k]][0] == requests[k];
      AddGrows(m, g', requests[k]);
      forall i | 0 <= i < k
        ensures requests[i].param.name in r.nodes && m.Fits(requests[i].param.typ, r.nodes[requests[i].param.name].typ)
      {
        assert requests[..k][i] == requests[i];
        AddKeepsTypes(m, types, g', requests[k], requests[i].param);
      }
    }
  }

  ghost predicate WellTyped(m: Matching, g: Graph, params: map<Name, seq<Param>>) {
    forall n, i :: n in params && 0 <= i < |params[n]| ==>
      params[n][i].name in g.nodes && m.Fits(params[n][i].typ, g.nodes[params[n][i].name].typ)
  }

  ghost predicate ConsumerDeclares(params: map<Name, seq<Param>>, d: Name, t: Type) {
    exists n, i :: n in params && 0 <= i < |params[n]| && params[n][i].name == d && params[n][i].typ == t
  }

  lemma {:induction false} RequestMade(names: seq<Name>, params: map<Name, seq<Param>>, n: Name, i: nat)
    returns (j: nat)
    requires forall i :: 0 <= i < |names| ==> names[i] in params
    requires n in names && i < |params[n]|
    ensures j < |AllRequests(names, params)| && AllRequests(names, params)[j] == Request(n, params[n][i])
  {
    var k := |names| - 1;
    if n == names[k] {
      j := |AllRequests(names[..k], params)| + i;
    } else {
      j := RequestMade(names[..k], params, n, i);
    }
  }

  ghost predicate ParamTypes(params: map<Name, seq<Param>>, types: set<Type>) {
    forall n, i :: n in params && 0 <= i < |params[n]| ==> params[n][i].typ in types
  }

  /**
   * A finished graph is well typed, tightened inputs included, and the type of an input that was added
   * is a minimum of its consumers' types: declared by one of them and fitting them all.
   */
  lemma {:induction false} FinishedIsWellTyped(m: Matching, types: set<Type>, g: Graph, params: map<Name, seq<Param>>)
    requires g.Valid() && params.Keys == g.nodes.Keys
    requires Composes(m, types) && TypesFrom(g, types) && ParamTypes(params, types)
    requires UpdateDependencies(m, g, params).Some?
    ensures var r := UpdateDependencies(m, g, params).value;
            && WellTyped(m, r, params)
            && (forall d :: d in r.nodes && d !in g.nodes ==> ConsumerDeclares(params, d, r.nodes[d].typ))
  {
    hide Composes, TypesFrom, Satisfies, WellTyped, ConsumerDeclares, Declares, Graph.Valid;
    hide UpdateDependencies;
    UpdateIsLink(m, g, params);
    var requests := AllRequests(g.order, params);
    var r := Link(m, g, requests).value;
    RequestTypes(g.order, params, types);
    LinkKeepsTypes(m, types, g, requests);
    LinkGrows(m, g, requests);
    assert WellTyped(m, r, params) by { SatisfiedIsWellTyped(m, g, params, r); }
    forall d | d in r.nodes && d !in g.nodes ensures ConsumerDeclares(params, d, r.nodes[d].typ) {
      RequestersDeclare(g.order, params, d, r.nodes[d].typ);
    }
  }

  lemma OrderIsKeys(g: Graph)
    requires g.Valid()
    ensures forall i :: 0 <= i < |g.order| ==> g.order[i] in g.nodes
  {}

  lemma RequestTypes(names: seq<Name>, params: map<Name, seq<Param>>, types: set<Type>)
    requires (forall i :: 0 <= i < |names| ==> names[i] in params) && ParamTypes(params, types)
    ensures Asks(AllRequests(names, params), types)
  {}

  lemma SatisfiedIsWellTyped(m: Matching, g: Graph, params: map<Name, seq<Param>>, r: Graph)
    requires g.Valid() && params.Keys == g.nodes.Keys && Satisfies(m, r, AllRequests(g.order, params))
    ensures WellTyped(m, r, params)
  {
    hide Matching.Fits;
    forall n, i | n in params && 0 <= i < |params[n]|
      ensures params[n][i].name in r.nodes && m.Fits(params[n][i].typ, r.nodes[params[n][i].name].typ)
    {
      var j := RequestMade(g.order, params, n, i);
    }
  }

  lemma RequestersDeclare(names: seq<Name>, params: map<Name, seq<Param>>, d: Name, t: Type)
    requires (forall i :: 0 <= i < |names| ==> names[i] in params) && Declares(AllRequests(names, params), d, t)
    ensures ConsumerDeclares(params, d, t)
  {
    var requests := AllRequests(names, params);
    var j :| 0 <= j < |requests| && requests[j].param.name == d && requests[j].param.typ == t;
    var n := requests[j].consumer;
    var i :| 0 <= i < |params[n]| && params[n][i] == requests[j].param;
  }

  /** With hamilton's own check, well-behaved types compose. */
  lemma PlainMatchingComposes(m: Matching, types: set<Type>)
    requires WellBehaved(m.hierarchy, types) && forall a, b :: !m.adapter(a, b)
    ensures Composes(m, types)
  {
    forall p, t, u | p in types && t in types && u in types && m.Fits(p, t) && Tightens(m, t, u)
      ensures m.Fits(p, u)
    {
      MatchTransitive(m.hierarchy, types, p, t, u);
    }
  }

  ghost predicate AlwaysWellTyped(m: Matching, types: set<Type>) {
    forall g: Graph, params: map<Name, seq<Param>> ::
      (g.Valid() && params.Keys == g.nodes.Keys && TypesFrom(g, types) && ParamTypes(params, types)
       && UpdateDependencies(m, g, params).Some?) ==> WellTyped(m, UpdateDependencies(m, g, params).value, params)
  }

  /** Exactly when every graph over some types is well typed once finished. */
  lemma WellTypedIffComposes(m: Matching, types: set<Type>)
    ensures AlwaysWellTyped(m, types) <==> Composes(m, types)
  {
    if Composes(m, types) {
      hide Composes, TypesFrom, ParamTypes, WellTyped, UpdateDependencies;
      forall g: Graph, params: map<Name, seq<Param>> |
        g.Valid() && params.Keys == g.nodes.Keys && TypesFrom(g, types) && ParamTypes(params, types)
        && UpdateDependencies(m, g, params).Some?
        ensures WellTyped(m, UpdateDependencies(m, g, params).value, params)
      {
        FinishedIsWellTyped(m, types, g, params);
      }
    } else {
      var p, t, u :| p in types && t in types && u in types && m.Fits(p, t) && Tightens(m, t, u) && !m.Fits(p, u);
      IllTyped(m, types, p, t, u);
    }
  }

  function Consumers(t: Type): Graph {
    var v := Vertex(t, false, [], []);
    Graph(["a", "b", "c"], map["a" := v, "b" := v, "c" := v])
  }

  function Consumed(t: Type, p: Type, u: Type): map<Name, seq<Param>> {
    map["a" := [Param("x", t, true)], "b" := [Param("x", p, true)], "c" := [Param("x", u, true)]]
  }

  /** Three consumers of one input: the third tightens it under the feet of the second. */
  lemma IllTyped(m: Matching, types: set<Type>, p: Type, t: Type, u: Type)
    requires p in types && t in types && u in types && m.Fits(p, t) && Tightens(m, t, u) && !m.Fits(p, u)
    ensures !AlwaysWellTyped(m, types)
  {
    hide Consumers, Consumed, Graph.Valid, TypesFrom, ParamTypes, UpdateDependencies, Matching.Fits, Tightens;
    hide WellTyped;
    ThreeConsumers(m, p, t, u);
    ConsumersAreOver(types, p, t, u);
  }

  lemma ConsumersAreOver(types: set<Type>, p: Type, t: Type, u: Type)
    requires p in types && t in types && u in types
    ensures TypesFrom(Consumers(t), types) && ParamTypes(Consumed(t, p, u), types)
  {}

  lemma ThreeConsumers(m: Matching, p: Type, t: Type, u: Type)
    requires m.Fits(p, t) && Tightens(m, t, u) && !m.Fits(p, u)
    ensures Consumers(t).Valid() && Consumed(t, p, u).Keys == Consumers(t).nodes.Keys
    ensures var r := UpdateDependencies(m, Consumers(t), Consumed(t, p, u));
            r.Some? && !WellTyped(m, r.value, Consumed(t, p, u))
  {
    hide Matching.Fits, TypesMatch, Tightens, UpdateDependencies, Link, AllRequests;
    assert Consumers(t).Valid() && Consumed(t, p, u).Keys == Consumers(t).nodes.Keys;
    hide Graph.Valid, InOrder;
    ThreeRequests(t, p, u);
    var rs := [Request("a", Param("x", t, true)), Request("b", Param("x", p, true)), Request("c", Param("x", u, true))];
    ThreeLinks(m, Consumers(t), rs, "x", t, p, u);
    UpdateIsLink(m, Consumers(t), Consumed(t, p, u));
    assert Consumed(t, p, u)["b"][0] == Param("x", p, true);
  }

  lemma ThreeRequests(t: Type, p: Type, u: Type)
    ensures AllRequests(["a", "b", "c"], Consumed(t, p, u)) ==
            [Request("a", Param("x", t, true)), Request("b", Param("x", p, true)), Request("c", Param("x", u, true))]
  {
    var params := Consumed(t, p, u);
    assert ["a", "b", "c"] == ["a", "b"] + ["c"] && ["a", "b"] == ["a"] + ["b"] && ["a"] == [] + ["a"];
    OneMore(["a", "b"], "c", params);
    OneMore(["a"], "b", params);
    OneMore([], "a", params);
    hide AllRequests;
    assert RequestsOf("a", params["a"]) == [Request("a", Param("x", t, true))];
    assert RequestsOf("b", params["b"]) == [Request("b", Param("x", p, true))];
    assert RequestsOf("c", params["c"]) == [Request("c", Param("x", u, true))];
  }

  lemma OneMore(names: seq<Name>, n: Name, params: map<Name, seq<Param>>)
    requires n in params && forall i :: 0 <= i < |names| ==> names[i] in params
    ensures AllRequests(names + [n], params) == AllRequests(names, params) + RequestsOf(n, params[n])
  {
    assert (names + [n])[..|names|] == names;
  }

  lemma ThreeLinks(m: Matching, g: Graph, rs: seq<Request>, d: Name, t: Type, p: Type, u: Type)
    requires |rs| == 3 && forall i :: 0 <= i < 3 ==> rs[i].consumer in g.nodes && rs[i].param.name == d
    requires d !in g.nodes && rs[0].param.typ == t && rs[1].param.typ == p && rs[2].param.typ == u
    requires m.Fits(p, t) && Tightens(m, t, u)
    ensures Link(m, g, rs).Some? && d in Link(m, g, rs).value.nodes && Link(m, g, rs).value.nodes[d].typ == u
  {
    hide TypesMatch;
    assert rs[..2][..1] == rs[..1] && rs[..1][..0] == [];
    var g1 := AddDependency(m, g, rs[0]).value;
    assert Link(m, g, rs[..1]) == Some(g1);
    assert g1.nodes[d].typ == t && g1.nodes[d].external;
    var g2 := AddDependency(m, g1, rs[1]).value;
    assert Link(m, g, rs[..2]) == Some(g2);
  }

  /**
   * A class that is also the origin of a generic is enough: consumers of a bare sequence, a sequence of
   * integers and a list of strings, in this order, are accepted together.
   */
  lemma BareGenericsEscape(m: Matching, types: set<Type>)
    requires m.hierarchy.Valid() && m.hierarchy.sub("list", "Sequence") && !m.hierarchy.sub("Sequence", "list")
    requires forall a, b :: !m.adapter(a, b)
    requires Class("Sequence") in types && Generic("Sequence", [Class("int")]) in types
    requires Generic("list", [Class("str")]) in types
    ensures !AlwaysWellTyped(m, types)
  {
    hide AlwaysWellTyped;
    BareGenericsAreNotTransitive(m.hierarchy);
    IllTyped(m, types, Generic("Sequence", [Class("int")]), Class("Sequence"), Generic("list", [Class("str")]));
  }

  // ---------------------------------------------------------------- rebuilding

  /** Parameters of a finished graph: inputs that were added have none. */
  function AllParams(g: Graph, params: map<Name, seq<Param>>): map<Name, seq<Param>> {
    map k | k in g.nodes :: if k in params then params[k] else []
  }

  lemma {:induction false} SameRequests(names: seq<Name>, params: map<Name, seq<Param>>, params': map<Name, seq<Param>>)
    requires forall i :: 0 <= i < |names| ==>
        names[i] in params && names[i] in params' && params[names[i]] == params'[names[i]]
    ensures AllRequests(names, params) == AllRequests(names, params')
  {
    if names != [] {
      SameRequests(names[..|names| - 1], params, params');
    }
  }

  lemma {:induction false} NoMoreRequests(names: seq<Name>, k: nat, params: map<Name, seq<Param>>)
    requires k <= |names| && forall i :: 0 <= i < |names| ==> names[i] in params
    requires forall i :: k <= i < |names| ==> params[names[i]] == []
    ensures AllRequests(names, params) == AllRequests(names[..k], params)
  {
    if k < |names| {
      NoMoreRequests(names[..|names| - 1], k, params);
      assert names[..|names| - 1][..k] == names[..k];
    } else {
      assert names[..k] == names;
    }
  }

  /** Same nodes in the same order, of the same kind and type. */
  ghost predicate SameNodes(g: Graph, r: Graph) {
    && g.order == r.order && g.nodes.Keys == r.nodes.Keys
    && forall k :: k in g.nodes ==> r.nodes[k].typ == g.nodes[k].typ && r.nodes[k].external == g.nodes[k].external
  }

  lemma SatisfiedAdd(m: Matching, g: Graph, h: Graph, r: Request)
    requires SameNodes(g, h) && r.consumer in g.nodes && r.param.name in g.nodes
    requires m.Fits(r.param.typ, g.nodes[r.param.name].typ)
    ensures AddDependency(m, h, r).Some? && SameNodes(g, AddDependency(m, h, r).value)
  {
    hide Matching.Fits;
  }

  /** Where every request is met already, linking only adds edges. */
  lemma {:induction false} SatisfiedLinks(m: Matching, g: Graph, requests: seq<Request>)
    requires Satisfies(m, g, requests) && forall i :: 0 <= i < |requests| ==> requests[i].consumer in g.nodes
    ensures Link(m, g, requests).Some? && SameNodes(g, Link(m, g, requests).value)
  {
    hide Matching.Fits, AddDependency;
    if requests != [] {
      var k := |requests| - 1;
      assert forall i :: 0 <= i < k ==> requests[..k][i] == requests[i];
      SatisfiedLinks(m, g, requests[..k]);
      hide SameNodes;
      SatisfiedAdd(m, g, Link(m, g, requests[..k]).value, requests[k]);
    }
  }

  /** Rebuilding a well-typed graph with its edges reset gives the same graph, not doubled edges. */
  lemma {:induction false} RebuildIsIdentity(m: Matching, g: Graph, params: map<Name, seq<Param>>)
    requires g.Valid() && Unlinked(g) && params.Keys == g.nodes.Keys
    requires UpdateDependencies(m, g, params).Some?
    requires WellTyped(m, UpdateDependencies(m, g, params).value, params)
    ensures var r := UpdateDependencies(m, g, params).value;
            && WithoutEdges(r).Valid()
            && UpdateDependencies(m, WithoutEdges(r), AllParams(r, params)) == Some(r)
  {
    hide UpdateDependencies, WellTyped, Unlinked, EdgesInverse, Resolved, AllRequests, Link;
    FinishedGraph(m, g, params);
    var r := UpdateDependencies(m, g, params).value;
    UpdateIsLink(m, g, params);
    UpdateIsLink(m, WithoutEdges(r), AllParams(r, params));
    RebuildRequests(g, r, params);
    RelinkIsIdentity(m, g, params, r);
  }

  lemma {:induction false} RelinkIsIdentity(m: Matching, g: Graph, params: map<Name, seq<Param>>, r: Graph)
    requires g.Valid() && Unlinked(g) && params.Keys == g.nodes.Keys
    requires Link(m, g, AllRequests(g.order, params)) == Some(r) && WellTyped(m, r, params)
    ensures Link(m, WithoutEdges(r), AllRequests(g.order, params)) == Some(r)
  {
    var requests := AllRequests(g.order, params);
    var bare := WithoutEdges(r);
    OrderIsKeys(g);
    WellTypedIsSatisfied(m, g.order, params, r);
    hide WellTyped, Satisfies, Graph.Valid, AllRequests, Link, Unlinked, SameNodes;
    BareKeeps(r);
    SatisfiedLinks(m, bare, requests);
    var r' := Link(m, bare, requests).value;
    forall k ensures DepsIn(r', k) == DepsIn(r, k) && ReadersIn(r', k) == ReadersIn(r, k) {
      LinkEdges(m, g, requests, k);
      LinkEdges(m, bare, requests, k);
      NoEdgesIn(g, k);
      NoEdgesIn(bare, k);
    }
    SameGraph(r, bare, r');
  }

  lemma BareKeeps(g: Graph)
    ensures WithoutEdges(g).nodes.Keys == g.nodes.Keys && Unlinked(WithoutEdges(g)) && SameNodes(g, WithoutEdges(g))
  {}

  lemma NoEdgesIn(g: Graph, k: Name)
    requires Unlinked(g)
    ensures DepsIn(g, k) == [] && ReadersIn(g, k) == []
  {}

  /** A graph is its order, its nodes and their edges. */
  lemma SameGraph(g: Graph, bare: Graph, r: Graph)
    requires SameNodes(g, bare) && SameNodes(bare, r)
    requires forall k :: DepsIn(r, k) == DepsIn(g, k) && ReadersIn(r, k) == ReadersIn(g, k)
    ensures r == g
  {
    forall k | k in g.nodes ensures r.nodes[k] == g.nodes[k] {
      assert DepsIn(r, k) == DepsIn(g, k) && ReadersIn(r, k) == ReadersIn(g, k);
    }
    assert r.nodes == g.nodes;
  }

  lemma RebuildRequests(g: Graph, r: Graph, params: map<Name, seq<Param>>)
    requires g.Valid() && r.Valid() && params.Keys == g.nodes.Keys
    requires |g.order| <= |r.order| && r.order[..|g.order|] == g.order
    ensures AllRequests(r.order, AllParams(r, params)) == AllRequests(g.order, params)
  {
    var params' := AllParams(r, params);
    OrderIsKeys(g);
    OrderIsKeys(r);
    forall i | |g.order| <= i < |r.order| ensures params'[r.order[i]] == [] {
      NotAmongFirst(r.order, |g.order|, i);
    }
    NoMoreRequests(r.order, |g.order|, params');
    forall i | 0 <= i < |g.order| ensures g.order[i] in params' && params'[g.order[i]] == params[g.order[i]] {
      assert r.order[i] == r.order[..|g.order|][i];
    }
    SameRequests(g.order, params, params');
  }

  lemma NotAmongFirst(names: seq<Name>, k: nat, i: nat)
    requires Distinct(names) && k <= i < |names|
    ensures names[i] !in names[..k]
  {}

  lemma WellTypedIsSatisfied(m: Matching, names: seq<Name>, params: map<Name, seq<Param>>, r: Graph)
    requires WellTyped(m, r, params) && forall i :: 0 <= i < |names| ==> names[i] in params
    ensures Satisfies(m, r, AllRequests(names, params))
    ensures Satisfies(m, WithoutEdges(r), AllRequests(names, params))
  {
    hide Matching.Fits;
  }

  /** Without the reset every edge of a finished graph is there twice. */
  lemma RelinkingDoublesEdges(m: Matching, g: Graph, params: map<Name, seq<Param>>, n: Name)
    requires g.Valid() && params.Keys == g.nodes.Keys && n in g.nodes && g.nodes[n].deps == ParamNames(params[n])
    requires UpdateDependencies(m, g, params).Some?
    ensures n in UpdateDependencies(m, g, params).value.nodes
    ensures UpdateDependencies(m, g, params).value.nodes[n].deps == ParamNames(params[n]) + ParamNames(params[n])
  {
    hide UpdateDependencies, Link, AllRequests;
    UpdateIsLink(m, g, params);
    LinkEdges(m, g, AllRequests(g.order, params), n);
    AskedIsParams(g.order, params, n);
  }

  /**
   * Adding nodes to a graph: old and new nodes alike depend on their parameters, once each and in order; the old
   * nodes come first, then the new ones, then the inputs that were added.
   */
  lemma {:induction false} WithNodesKeeps(m: Matching, a: Graph, params: map<Name, seq<Param>>, b: Graph,
                                          params': map<Name, seq<Param>>)
    requires a.Valid() && b.Valid() && params.Keys == a.nodes.Keys && params'.Keys == b.nodes.Keys
    requires WithNodes(m, a, params, b, params').Some?
    ensures var s := WithNodes(m, a, params, b, params').value;
            && EdgesSound(s)
            && (forall n :: n in a.nodes ==> n in s.nodes && s.nodes[n].deps == ParamNames(params[n]))
            && (forall n :: n in b.nodes ==> n in s.nodes && s.nodes[n].deps == ParamNames(params'[n]))
            && |a.order + b.order| <= |s.order| && s.order[..|a.order + b.order|] == a.order + b.order
  {
    hide UpdateDependencies, EdgesSound, Unlinked, Grown, WithNodes, InOrder;
    WithNodesIs(m, a, params, b, params');
    var bare := WithoutEdges(Merge(a, b));
    BareIsUnlinked(Merge(a, b));
    OrderIsKeys(bare);
    FinishedGraph(m, bare, params + params');
    GrownKeeps(bare, WithNodes(m, a, params, b, params').value, AllRequests(bare.order, params + params'));
    assert bare.order == a.order + b.order;
  }

  lemma BareIsUnlinked(g: Graph)
    ensures Unlinked(WithoutEdges(g))
  {}

  lemma GrownKeeps(g: Graph, r: Graph, requests: seq<Request>)
    requires Grown(g, r, requests)
    ensures forall k :: k in g.nodes ==> k in r.nodes
    ensures |g.order| <= |r.order| && r.order[..|g.order|] == g.order
  {}

  /** The edges of a finished graph make the dataflow graph whose back edges are the inverse of its edges. */
  lemma {:induction false} FinishedIsLinked<V>(g: Graph, dag: D.Dag<V>)
    requires EdgesSound(g)
    requires dag.nodes.Keys == g.nodes.Keys && dag.dependents.Keys == g.nodes.Keys
    requires forall n :: n in g.nodes ==>
        DepNames(dag.nodes[n].deps) == g.nodes[n].deps && dag.dependents[n] == g.nodes[n].readers
    ensures dag.Linked()
  {
    hide Graph.Valid, InOrder, EdgesInverse, Resolved, D.Dag<V>.Uses, DepNames;
    ReadersResolve(g, dag.dependents);
    forall a, b | a in dag.nodes && b in dag.nodes ensures b in dag.dependents[a] <==> dag.Uses(b, a) {
      LinkedAt(g, dag, a, b);
    }
  }

  lemma ReadersResolve(g: Graph, dependents: map<Name, seq<Name>>)
    requires Resolved(g) && dependents.Keys == g.nodes.Keys && forall n :: n in g.nodes ==>
        dependents[n] == g.nodes[n].readers
    ensures forall a :: a in g.nodes ==> forall i :: 0 <= i < |dependents[a]| ==> dependents[a][i] in g.nodes
  {}

  lemma LinkedAt<V>(g: Graph, dag: D.Dag<V>, a: Name, b: Name)
    requires EdgesInverse(g) && a in g.nodes && b in g.nodes && b in dag.nodes
    requires DepNames(dag.nodes[b].deps) == g.nodes[b].deps
    ensures b in g.nodes[a].readers <==> dag.Uses(b, a)
  {
    assert multiset(g.nodes[b].deps)[a] == multiset(g.nodes[a].readers)[b];
    assert b in g.nodes[a].readers <==> multiset(g.nodes[a].readers)[b] > 0;
    assert a in g.nodes[b].deps <==> multiset(g.nodes[b].deps)[a] > 0;
    UsesIsIn(dag.nodes[b].deps, a);
  }

  function DepNames(deps: seq<D.Dep>): seq<Name> {
    MapSeq((d: D.Dep) => d.name, deps)
  }

  lemma UsesIsIn(deps: seq<D.Dep>, a: Name)
    ensures a in DepNames(deps) <==> exists i :: 0 <= i < |deps| && deps[i].name == a
  {
    if a in DepNames(deps) {
      var i :| 0 <= i < |deps| && DepNames(deps)[i] == a;
      assert deps[i].name == a;
    }
    if i :| 0 <= i < |deps| && deps[i].name == a {
      assert DepNames(deps)[i] == a;
    }
  }
}
