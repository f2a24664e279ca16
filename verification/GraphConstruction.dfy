/** hamilton/graph.py and node.py: building a graph by changing `Node` objects in place. */
module GraphConstruction {
  import opened Prelude
  import opened Types
  import G = GraphSpec

  function NamesOf(nodes: seq<Node>): seq<Name> {
    MapSeq((n: Node) => n.name, nodes)
  }

  ghost predicate Inside(nodes: map<Name, Node>, ns: seq<Node>) {
    forall i :: 0 <= i < |ns| ==> ns[i].name in nodes && nodes[ns[i].name] == ns[i]
  }

  function ParamsOf(nodes: map<Name, Node>): map<Name, seq<G.Param>> {
    map k | k in nodes :: nodes[k].params
  }

  /** The nodes of a dict are the given objects, each under its own name. */
  ghost predicate Keyed(nodes: map<Name, Node>, objects: set<Node>) {
    && (forall n :: n in objects ==> n.name in nodes && nodes[n.name] == n)
    && (forall k :: k in nodes ==>
         nodes[k] in objects && nodes[k].name == k && (nodes[k].external ==> nodes[k].params == []))
  }

  lemma KeyedInsert(nodes: map<Name, Node>, objects: set<Node>, n: Node)
    requires Keyed(nodes, objects) && n.name !in nodes && n.external && n.params == []
    ensures Keyed(nodes[n.name := n], objects + {n})
  {}

  lemma InsideMore(nodes: map<Name, Node>, d: Name, node: Node, ns: seq<Node>)
    requires d !in nodes && Inside(nodes, ns)
    ensures Inside(nodes[d := node], ns)
  {}

  lemma InsideSnoc(nodes: map<Name, Node>, ns: seq<Node>, n: Node)
    requires Inside(nodes, ns) && n.name in nodes && nodes[n.name] == n
    ensures Inside(nodes, ns + [n])
  {}

  class Node {
    const name: Name
    const external: bool
    const params: seq<G.Param>
    var typ: Type
    var dependencies: seq<Node>
    var dependedOnBy: seq<Node>

    constructor (name: Name, typ: Type, external: bool, params: seq<G.Param>)
      ensures this.name == name && this.typ == typ && this.external == external && this.params == params
      ensures dependencies == [] && dependedOnBy == []
    {
      this.name, this.typ, this.external, this.params := name, typ, external, params;
      dependencies, dependedOnBy := [], [];
    }

    function View(): G.Vertex
      reads this
    {
      G.Vertex(typ, external, NamesOf(dependencies), NamesOf(dependedOnBy))
    }
  }

  ghost function ViewOf(order: seq<Name>, nodes: map<Name, Node>): G.Graph
    reads set k | k in nodes :: nodes[k]
  {
    G.Graph(order, map k | k in nodes :: nodes[k].View())
  }

  ghost predicate AllInside(nodes: map<Name, Node>)
    reads set k | k in nodes :: nodes[k]
  {
    forall k :: k in nodes ==> Inside(nodes, nodes[k].dependencies) && Inside(nodes, nodes[k].dependedOnBy)
  }

  lemma ViewOfMore(order: seq<Name>, nodes: map<Name, Node>, n: Node)
    requires n.name !in nodes && n.external && n.dependencies == [] && n.dependedOnBy == []
    ensures ViewOf(order + [n.name], nodes[n.name := n]) == G.WithInput(ViewOf(order, nodes), n.name, n.typ)
  {
    assert n.View() == G.Vertex(n.typ, true, [], []);
    hide Node.View;
  }

  lemma AllInsideMore(nodes: map<Name, Node>, n: Node)
    requires AllInside(nodes) && n.name !in nodes && n.dependencies == [] && n.dependedOnBy == []
    ensures AllInside(nodes[n.name := n])
  {
    hide Inside;
    var nodes' := nodes[n.name := n];
    NothingInside(nodes');
    forall k | k in nodes ensures Inside(nodes', nodes[k].dependencies) && Inside(nodes', nodes[k].dependedOnBy) {
      InsideMore(nodes, n.name, n, nodes[k].dependencies);
      InsideMore(nodes, n.name, n, nodes[k].dependedOnBy);
    }
  }

  /** A dict of nodes. */
  class FunctionGraph {
    var order: seq<Name>
    var nodes: map<Name, Node>
    ghost var Repr: set<Node>

    ghost predicate Valid()
      reads this
    {
      && G.InOrder(order, nodes.Keys)
      && Keyed(nodes, Repr)
    }

    /** Edges lead to nodes of this very dict, not to copies of them. */
    ghost predicate EdgesInside()
      requires Valid()
      reads this, Repr
    {
      AllInside(nodes)
    }

    ghost function View(): G.Graph
      requires Valid()
      reads this, Repr
    {
      ViewOf(order, nodes)
    }

    ghost function Params(): map<Name, seq<G.Param>>
      reads this
    {
      ParamsOf(nodes)
    }

    constructor (order: seq<Name>, nodes: map<Name, Node>)
      ensures this.order == order && this.nodes == nodes && Repr == set k | k in nodes :: nodes[k]
    {
      this.order, this.nodes := order, nodes;
      Repr := set k | k in nodes :: nodes[k];
    }

    /** The input type of a node gets tighter. */
    method SetType(d: Node, t: Type)
      requires Valid() && d in Repr && d.external && EdgesInside()
      modifies d`typ
      ensures View() == G.WithType(old(View()), d.name, t)
      ensures Valid() && EdgesInside()
    {
      hide NamesOf, Inside, View, ViewOf;
      ghost var before := View();
      ViewParts();
      d.typ := t;
      ViewIs(G.WithType(before, d.name, t));
    }

    lemma ViewIs(g: G.Graph)
      requires Valid() && order == g.order && nodes.Keys == g.nodes.Keys && forall k :: k in nodes ==>
          nodes[k].View() == g.nodes[k]
      ensures View() == g
    {}

    lemma ViewParts()
      requires Valid()
      ensures View().order == order && View().nodes.Keys == nodes.Keys
      ensures forall k :: k in nodes ==> View().nodes[k] == nodes[k].View()
    {}

    method Insert(input: Node)
      requires Valid() && EdgesInside() && input.name !in nodes
      requires input.external && input.params == [] && input.dependencies == [] && input.dependedOnBy == []
      modifies this
      ensures Valid() && EdgesInside() && Repr == old(Repr) + {input}
      ensures View() == G.WithInput(old(View()), input.name, input.typ)
    {
      hide ViewOf, AllInside, G.InOrder, Keyed, G.WithInput;
      G.InOrderSnoc(order, nodes.Keys, input.name);
      assert nodes[input.name := input].Keys == nodes.Keys + {input.name};
      KeyedInsert(nodes, Repr, input);
      ViewOfMore(order, nodes, input);
      AllInsideMore(nodes, input);
      nodes := nodes[input.name := input];
      order := order + [input.name];
      Repr := Repr + {input};
    }

    method AddEdge(n: Node, d: Node)
      requires Valid() && n in Repr && d in Repr && EdgesInside()
      modifies n`dependencies, d`dependedOnBy
      ensures View() == G.WithEdge(old(View()), n.name, d.name)
      ensures Valid() && EdgesInside()
    {
      hide Inside, NamesOf, View, ViewOf;
      ghost var before := View();
      ViewParts();
      NamesSnoc(n.dependencies, d);
      NamesSnoc(d.dependedOnBy, n);
      InsideSnoc(nodes, n.dependencies, d);
      InsideSnoc(nodes, d.dependedOnBy, n);
      n.dependencies := n.dependencies + [d];
      d.dependedOnBy := d.dependedOnBy + [n];
      assert EdgesInside();
      hide EdgesInside;
      ViewIs(G.WithEdge(before, n.name, d.name));
    }

    lemma NamedInDict(n: Node)
      requires Valid() && n in Repr
      ensures n.name in nodes && nodes[n.name] == n
    {}

    /** `add_dependency`: false stands for the ValueError. */
    method AddDependency(m: G.Matching, n: Node, p: G.Param) returns (ok: bool)
      requires Valid() && EdgesInside() && n in Repr
      modifies this, Repr
      ensures Valid() && EdgesInside()
      ensures ok <==> G.AddDependency(m, old(View()), G.Request(n.name, p)).Some?
      ensures ok ==> View() == G.AddDependency(m, old(View()), G.Request(n.name, p)).value
      ensures old(Repr) <= Repr && fresh(Repr - old(Repr))
    {
      hide EdgesInside, View, NamesOf, TypesMatch, G.InOrder;
      ViewParts();
      assert n.name in nodes && nodes[n.name] == n;
      var required: Node;
      if p.name in nodes {
        required := nodes[p.name];
        var typesDoMatch := TypesMatch(m.hierarchy, p.typ, required.typ);
        typesDoMatch := typesDoMatch || m.adapter(p.typ, required.typ);
        if !typesDoMatch && required.external {
          var typesAreCompatible := TypesMatch(m.hierarchy, required.typ, p.typ);
          typesAreCompatible := typesAreCompatible || m.adapter(p.typ, required.typ);
          if !typesAreCompatible {
            return false;
          }
          SetType(required, p.typ);
        } else if !typesDoMatch {
          return false;
        }
      } else {
        required := new Node(p.name, p.typ, true, []);
        Insert(required);
      }
      assert nodes[n.name] == n && nodes[p.name] == required;
      AddEdge(n, required);
      ok := true;
    }

    /** The inner loop of `update_dependencies`: one node's parameters. */
    method LinkNode(m: G.Matching, n: Node) returns (ok: bool)
      requires Valid() && EdgesInside() && n in Repr
      modifies this, Repr
      ensures Valid() && EdgesInside()
      ensures old(Repr) <= Repr && fresh(Repr - old(Repr))
      ensures ok <==> G.Link(m, old(View()), G.RequestsOf(n.name, n.params)).Some?
      ensures ok ==> G.Link(m, old(View()), G.RequestsOf(n.name, n.params)) == Some(View())
    {
      hide EdgesInside, View, Valid, Keyed, Inside, G.InOrder, G.AddDependency, G.Link;
      ViewParts();
      NamedInDict(n);
      ghost var g, asked := View(), G.RequestsOf(n.name, n.params);
      G.LinkNothing(m, g);
      for i := 0 to |n.params|
        invariant Valid() && EdgesInside()
        invariant old(Repr) <= Repr && fresh(Repr - old(Repr))
        invariant G.Link(m, g, asked[..i]) == Some(View())
      {
        G.LinkNext(m, g, asked, i);
        var added := AddDependency(m, n, n.params[i]);
        if !added {
          G.LinkStuck(m, g, asked, i + 1);
          return false;
        }
      }
      assert asked[..|asked|] == asked;
      ok := true;
    }

    /** `update_dependencies` in place; the outer loop runs over the nodes there are at the start. */
    method UpdateDependencies(m: G.Matching) returns (ok: bool)
      requires Valid() && EdgesInside()
      modifies this, Repr
      ensures Valid() && EdgesInside()
      ensures old(Repr) <= Repr && fresh(Repr - old(Repr))
      ensures ok <==> G.UpdateDependencies(m, old(View()), old(Params())).Some?
      ensures ok ==> G.UpdateDependencies(m, old(View()), old(Params())) == Some(View())
    {
      hide Valid, EdgesInside, View, Params, G.InOrder, G.Link, G.LinkAll;
      DictParts();
      ghost var g, params := View(), Params();
      var names := order;
      G.LinkAllNothing(m, g, params);
      for i := 0 to |names|
        invariant Valid() && EdgesInside()
        invariant old(Repr) <= Repr && fresh(Repr - old(Repr))
        invariant G.LinkAll(m, g, names[..i], params) == Some(View())
      {
        NamedInDict(old(nodes)[names[i]]);
        var n := nodes[names[i]];
        G.LinkAllNext(m, g, names, params, i);
        var linked := LinkNode(m, n);
        if !linked {
          G.LinkAllStuck(m, g, names, params, i + 1);
          return false;
        }
      }
      assert names[..|names|] == names;
      ok := true;
    }

    lemma DictParts()
      requires Valid()
      ensures View().Valid() && View().order == order && Params().Keys == View().nodes.Keys
      ensures forall i :: 0 <= i < |order| ==>
                && order[i] in nodes && order[i] in View().nodes && order[i] in Params()
                && nodes[order[i]] in Repr && nodes[order[i]].name == order[i] &&
                     Params()[order[i]] == nodes[order[i]].params
    {
      hide NamesOf, Inside;
    }

    /** Every node copied without its edges. */
    method CopyWithoutRefs() returns (c: FunctionGraph)
      requires Valid()
      ensures fresh(c) && fresh(c.Repr) && c.Valid() && c.EdgesInside()
      ensures c.View() == G.WithoutEdges(View()) && c.Params() == Params()
    {
      hide ViewOf, AllInside, Keyed, ParamsOf, IsBareCopy, G.InOrder, G.WithoutEdges;
      var copies := CopyNodes();
      CopiesView(copies);
      c := new FunctionGraph(order, copies);
    }

    /** The loop of the dict comprehension. */
    method CopyNodes() returns (copies: map<Name, Node>)
      requires Valid()
      ensures copies.Keys == nodes.Keys
      ensures forall k :: k in copies ==> fresh(copies[k]) && IsBareCopy(copies[k], nodes[k])
    {
      hide Keyed;
      KeyedNames(nodes, Repr);
      copies := map[];
      for i := 0 to |order|
        invariant copies.Keys == set n | n in order[..i]
        invariant forall k :: k in copies ==> k in nodes && fresh(copies[k]) && IsBareCopy(copies[k], nodes[k])
      {
        var n := nodes[order[i]];
        var copy := new Node(n.name, n.typ, n.external, n.params);
        copies := copies[n.name := copy];
      }
      assert order[..|order|] == order;
    }

    lemma CopiesView(copies: map<Name, Node>)
      requires Valid() && copies.Keys == nodes.Keys && forall k :: k in copies ==> IsBareCopy(copies[k], nodes[k])
      ensures Keyed(copies, set k | k in copies :: copies[k])
      ensures AllInside(copies) && ParamsOf(copies) == ParamsOf(nodes)
      ensures ViewOf(order, copies) == G.WithoutEdges(ViewOf(order, nodes))
    {
      assert Keyed(copies, set k | k in copies :: copies[k]);
      hide Keyed, G.InOrder, IsBareCopy;
      CopiesInside(copies, nodes);
      CopiesLookAlike(order, copies, nodes);
    }

    /**
     * `with_nodes`: None for duplicate names or incompatible types. The graph it is called on and the nodes
     * it is given stay as they are.
     */
    method WithNodes(m: G.Matching, extra: FunctionGraph) returns (r: Option<FunctionGraph>)
      requires Valid() && EdgesInside() && extra.Valid() && extra.EdgesInside()
      ensures ParamsOfView() && extra.ParamsOfView()
      ensures r.Some? ==> fresh(r.value) && fresh(r.value.Repr) && r.value.Valid() && r.value.EdgesInside()
      ensures r.Some? <==> G.WithNodes(m, View(), Params(), extra.View(), extra.Params()).Some?
      ensures r.Some? ==> G.WithNodes(m, View(), Params(), extra.View(), extra.Params()) == Some(r.value.View())
    {
      hide *;
      MergedUpdates(m, extra);
      if !(nodes.Keys !! extra.nodes.Keys) {
        return None;
      }
      var merged := Merged(extra);
      var c := merged.CopyWithoutRefs();
      var ok := c.UpdateDependencies(m);
      r := if ok then Some(c) else None;
    }

    lemma MergedUpdates(m: G.Matching, extra: FunctionGraph)
      requires Valid() && extra.Valid()
      ensures ParamsOfView() && extra.ParamsOfView()
      ensures View().Valid() && extra.View().Valid()
      ensures Params().Keys == View().nodes.Keys && extra.Params().Keys == extra.View().nodes.Keys
      ensures !(nodes.Keys !! extra.nodes.Keys) ==>
                G.WithNodes(m, View(), Params(), extra.View(), extra.Params()).None?
      ensures nodes.Keys !! extra.nodes.Keys ==>
                var bare := G.WithoutEdges(G.Merge(View(), extra.View()));
                && bare.Valid() && (Params() + extra.Params()).Keys == bare.nodes.Keys
                && G.WithNodes(m, View(), Params(), extra.View(), extra.Params()) ==
                   G.UpdateDependencies(m, bare, Params() + extra.Params())
    {
      ViewParts();
      extra.ViewParts();
      ParamsOfKeys(nodes);
      ParamsOfKeys(extra.nodes);
      assert View().Valid() && extra.View().Valid();
      hide View, ParamsOf, Keyed, G.InOrder, G.WithNodes, G.WithoutEdges, G.Merge, G.UpdateDependencies;
      G.WithNodesIs(m, View(), Params(), extra.View(), extra.Params());
    }

    ghost predicate ParamsOfView()
      requires Valid()
      reads this, Repr
    {
      View().Valid() && Params().Keys == View().nodes.Keys
    }

    /** `{**self.nodes, **nodes}`: a new dict of the same node objects. */
    method Merged(extra: FunctionGraph) returns (merged: FunctionGraph)
      requires Valid() && extra.Valid() && nodes.Keys !! extra.nodes.Keys
      ensures fresh(merged) && merged.Valid()
      ensures merged.View() == G.Merge(View(), extra.View()) && merged.Params() == Params() + extra.Params()
    {
      G.InOrderConcat(order, nodes.Keys, extra.order, extra.nodes.Keys);
      assert (nodes + extra.nodes).Keys == nodes.Keys + extra.nodes.Keys;
      KeyedMerge(nodes, Repr, extra.nodes, extra.Repr);
      ParamsOfMerge(nodes, extra.nodes);
      merged := new FunctionGraph(order + extra.order, nodes + extra.nodes);
      hide G.InOrder, Keyed, ParamsOf;
      ViewParts();
      extra.ViewParts();
      hide View, ViewOf;
      merged.ViewIs(G.Merge(View(), extra.View()));
    }
  }

  lemma ParamsOfKeys(nodes: map<Name, Node>)
    ensures ParamsOf(nodes).Keys == nodes.Keys
  {}

  lemma ParamsOfMerge(a: map<Name, Node>, b: map<Name, Node>)
    ensures ParamsOf(a + b) == ParamsOf(a) + ParamsOf(b)
  {}

  lemma KeyedMerge(a: map<Name, Node>, objects: set<Node>, b: map<Name, Node>, objects': set<Node>)
    requires Keyed(a, objects) && Keyed(b, objects') && a.Keys !! b.Keys
    ensures Keyed(a + b, set k | k in a + b :: (a + b)[k])
  {}

  lemma KeyedNames(nodes: map<Name, Node>, objects: set<Node>)
    requires Keyed(nodes, objects)
    ensures forall k :: k in nodes ==> nodes[k].name == k
  {}

  lemma CopiesInside(copies: map<Name, Node>, nodes: map<Name, Node>)
    requires copies.Keys == nodes.Keys && forall k :: k in copies ==> IsBareCopy(copies[k], nodes[k])
    ensures AllInside(copies) && ParamsOf(copies) == ParamsOf(nodes)
  {
    NothingInside(copies);
    hide Inside;
  }

  lemma CopiesLookAlike(order: seq<Name>, copies: map<Name, Node>, nodes: map<Name, Node>)
    requires copies.Keys == nodes.Keys && forall k :: k in copies ==> IsBareCopy(copies[k], nodes[k])
    ensures ViewOf(order, copies) == G.WithoutEdges(ViewOf(order, nodes))
  {
    forall k | k in copies ensures copies[k].View() == G.WithoutEdges(ViewOf(order, nodes)).nodes[k] {
      assert IsBareCopy(copies[k], nodes[k]);
    }
  }

  /** A copy of a node with no edges. */
  predicate IsBareCopy(copy: Node, n: Node)
    reads copy, n
  {
    && copy.name == n.name && copy.external == n.external && copy.params == n.params
    && copy.typ == n.typ && copy.dependencies == [] && copy.dependedOnBy == []
  }

  lemma NothingInside(nodes: map<Name, Node>)
    ensures Inside(nodes, [])
  {}

  lemma NamesSnoc(ns: seq<Node>, n: Node)
    ensures NamesOf(ns + [n]) == NamesOf(ns) + [n.name]
  {}
}
