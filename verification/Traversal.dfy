/** `FunctionGraph.directional_dfs_traverse` and the queries built on it. */
module Traversal {
  import opened Prelude

  type Next = Name -> seq<Name>

  ghost predicate IsPath(next: Next, p: seq<Name>) {
    p != [] && forall i :: 0 <= i < |p| - 1 ==> p[i + 1] in next(p[i])
  }

  ghost predicate Connects(next: Next, p: seq<Name>, a: Name, b: Name) {
    IsPath(next, p) && p[0] == a && p[|p| - 1] == b
  }

  ghost predicate Reachable(next: Next, a: Name, b: Name) {
    exists p :: Connects(next, p, a, b)
  }

  ghost predicate ReachableFromAny(next: Next, starts: seq<Name>, b: Name) {
    exists i :: 0 <= i < |starts| && Reachable(next, starts[i], b)
  }

  lemma ReachSelf(next: Next, a: Name)
    ensures Reachable(next, a, a)
  {
    assert Connects(next, [a], a, a);
  }

  lemma ReachTransitive(next: Next, a: Name, b: Name, c: Name)
    requires Reachable(next, a, b) && Reachable(next, b, c)
    ensures Reachable(next, a, c)
  {
    var p :| Connects(next, p, a, b);
    var q :| Connects(next, q, b, c);
    ConcatPaths(next, p, q, a, b, c);
  }

  lemma ConcatPaths(next: Next, p: seq<Name>, q: seq<Name>, a: Name, b: Name, c: Name)
    requires Connects(next, p, a, b) && Connects(next, q, b, c)
    ensures Connects(next, p + q[1..], a, c)
  {
    var r := p + q[1..];
    forall i | 0 <= i < |r| - 1 ensures r[i + 1] in next(r[i]) {
      if i >= |p| - 1 {
        assert r[i] == q[i - (|p| - 1)];
        assert r[i + 1] == q[i - (|p| - 1) + 1];
      }
    }
    assert r[|r| - 1] == q[|q| - 1];
  }

  lemma ReachStep(next: Next, a: Name, b: Name, c: Name)
    requires Reachable(next, a, b) && c in next(b)
    ensures Reachable(next, a, c)
  {
    assert Connects(next, [b, c], b, c);
    ReachTransitive(next, a, b, c);
  }

  lemma {:induction false} ClosedContainsPath(next: Next, s: set<Name>, p: seq<Name>)
    requires IsPath(next, p) && p[0] in s
    requires forall n :: n in s ==> forall i :: 0 <= i < |next(n)| ==> next(n)[i] in s
    ensures p[|p| - 1] in s
  {
    if |p| > 1 {
      assert p[1] in next(p[0]);
      ClosedContainsPath(next, s, p[1..]);
    }
  }

  // ---------------------------------------------------------------- the traversal

  datatype Traversed =
    | Found(nodes: set<Name>, userNodes: set<Name>)
    | UnknownNodes(missing: seq<Name>)
    | NoSuchNode(name: Name)

  predicate Unknown(graph: set<Name>, config: set<Name>, v: Name) {
    v !in graph && v !in config
  }

  /** The requested names nothing knows about, in request order. */
  function MissingVars(graph: set<Name>, config: set<Name>, runtimeInputs: set<Name>, starts: seq<Name>): seq<Name> {
    if starts == [] then []
    else
      var n := |starts| - 1;
      MissingVars(graph, config, runtimeInputs, starts[..n]) +
      if Unknown(graph, config, starts[n]) && starts[n] !in runtimeInputs then [starts[n]] else []
  }

  /** The requested names the graph holds, in request order. */
  function KnownStarts(graph: set<Name>, starts: seq<Name>): seq<Name> {
    if starts == [] then []
    else
      var n := |starts| - 1;
      KnownStarts(graph, starts[..n]) + if starts[n] in graph then [starts[n]] else []
  }

  /** Both lists are in request order: names are looked up one after another. */
  lemma {:induction false} InRequestOrder(graph: set<Name>, config: set<Name>, inputs: set<Name>, a: seq<Name>,
                                          b: seq<Name>)
    ensures KnownStarts(graph, a + b) == KnownStarts(graph, a) + KnownStarts(graph, b)
    ensures MissingVars(graph, config, inputs, a + b)
         == MissingVars(graph, config, inputs, a) + MissingVars(graph, config, inputs, b)
    decreases |b|
  {
    if b == [] {
      assert a + b == a;
    } else {
      var n := |b| - 1;
      InRequestOrder(graph, config, inputs, a, b[..n]);
      assert (a + b)[..|a| + n] == a + b[..n] && (a + b)[|a| + n] == b[n];
    }
  }

  /** And one name is known exactly if the graph holds it, missing exactly if nobody does. */
  lemma OneRequest(graph: set<Name>, config: set<Name>, inputs: set<Name>, f: Name)
    ensures KnownStarts(graph, [f]) == if f in graph then [f] else []
    ensures MissingVars(graph, config, inputs, [f]) ==
            if f !in graph && f !in config && f !in inputs then [f] else []
  {
    assert [f][..0] == [];
  }

  /** A traversal result is exact: the nodes reachable from the starts, and the external ones among them. */
  ghost predicate ExactlyReachable(graph: set<Name>, external: set<Name>, next: Next, starts: seq<Name>,
                                   nodes: set<Name>, userNodes: set<Name>) {
    && (forall n :: n in nodes <==> n in graph && ReachableFromAny(next, starts, n))
    && userNodes == nodes * external
  }

  /** Names a request cannot mean: not in the graph, not a runtime input (or configured but not a node). */
  ghost predicate BadRequest(graph: set<Name>, config: set<Name>, inputs: set<Name>, finals: seq<Name>) {
    exists i :: 0 <= i < |finals| && finals[i] !in graph && (finals[i] in config || finals[i] !in inputs)
  }

  lemma {:induction false} MissingMeansUnknown(graph: set<Name>, config: set<Name>, inputs: set<Name>,
                                               finals: seq<Name>)
    ensures MissingVars(graph, config, inputs, finals) != [] <==>
            exists i :: 0 <= i < |finals| && Unknown(graph, config, finals[i]) && finals[i] !in inputs
  {
    if finals != [] {
      var n := |finals| - 1;
      MissingMeansUnknown(graph, config, inputs, finals[..n]);
      if MissingVars(graph, config, inputs, finals[..n]) != [] {
        var i :| 0 <= i < n && Unknown(graph, config, finals[..n][i]) && finals[..n][i] !in inputs;
        assert Unknown(graph, config, finals[i]) && finals[i] !in inputs;
      }
      if i :| 0 <= i < |finals| && Unknown(graph, config, finals[i]) && finals[i] !in inputs {
        if i < n {
          assert Unknown(graph, config, finals[..n][i]) && finals[..n][i] !in inputs;
        }
      }
    }
  }

  method DirectionalDfsTraverse(graph: set<Name>, external: set<Name>, config: set<Name>, next: Next,
                                starts: seq<Name>, runtimeInputs: set<Name>) returns (r: Traversed)
    requires forall n :: n in graph ==> forall i :: 0 <= i < |next(n)| ==> next(n)[i] in graph
    ensures r.NoSuchNode? <==> exists i :: 0 <= i < |starts| && starts[i] in config && starts[i] !in graph
    ensures r.NoSuchNode? ==> r.name in starts && r.name in config && r.name !in graph
    ensures r.UnknownNodes? ==> r.missing == MissingVars(graph, config, runtimeInputs, starts) != []
    ensures r.Found? <==> !BadRequest(graph, config, runtimeInputs, starts)
    ensures r.Found? ==>
              && MissingVars(graph, config, runtimeInputs, starts) == []
              && ExactlyReachable(graph, external, next, KnownStarts(graph, starts), r.nodes, r.userNodes)
  {
    var nodes: set<Name>, userNodes: set<Name> := {}, {};
    var missing: seq<Name> := [];
    var i := 0;
    while i < |starts|
      invariant 0 <= i <= |starts|
      invariant nodes <= graph
      invariant forall n :: n in nodes ==> forall k :: 0 <= k < |next(n)| ==> next(n)[k] in nodes
      invariant forall n :: n in nodes ==> ReachableFromAny(next, KnownStarts(graph, starts[..i]), n)
      invariant forall k :: 0 <= k < i && starts[k] in graph ==> starts[k] in nodes
      invariant forall k :: 0 <= k < i ==> !(starts[k] in config && starts[k] !in graph)
      invariant userNodes == nodes * external
      invariant missing == MissingVars(graph, config, runtimeInputs, starts[..i])
    {
      var v := starts[i];
      assert starts[..i + 1][..i] == starts[..i];
      assert KnownStarts(graph, starts[..i + 1])
          == KnownStarts(graph, starts[..i]) + if v in graph then [v] else [];
      KnownPrefix(next, graph, starts, i);
      if Unknown(graph, config, v) {
        if v !in runtimeInputs {
          missing := missing + [v];
        }
      } else if v !in graph {
        return NoSuchNode(v);
      } else {
        var before := nodes;
        nodes, userNodes := DfsFrom(graph, external, next, v, nodes, userNodes);
        var known := KnownStarts(graph, starts[..i + 1]);
        forall n | n in nodes && n !in before ensures ReachableFromAny(next, known, n) {
          assert known[|known| - 1] == v;
        }
      }
      i := i + 1;
    }
    assert starts[..i] == starts;
    MissingMeansUnknown(graph, config, runtimeInputs, starts);
    if missing != [] {
      return UnknownNodes(missing);
    }
    var known := KnownStarts(graph, starts);
    forall n | ReachableFromAny(next, known, n) ensures n in nodes {
      var k :| 0 <= k < |known| && Reachable(next, known[k], n);
      KnownMembers(graph, starts, k);
      var p :| Connects(next, p, known[k], n);
      ClosedContainsPath(next, nodes, p);
    }
    r := Found(nodes, userNodes);
  }

  /** `dfs_traverse_iterative`, with the node sets it shares across starting nodes. */
  method DfsFrom(graph: set<Name>, external: set<Name>, next: Next, start: Name,
                 nodes0: set<Name>, userNodes0: set<Name>) returns (nodes: set<Name>, userNodes: set<Name>)
    requires start in graph && nodes0 <= graph && userNodes0 == nodes0 * external
    requires forall n :: n in graph ==> forall i :: 0 <= i < |next(n)| ==> next(n)[i] in graph
    requires forall n :: n in nodes0 ==> forall i :: 0 <= i < |next(n)| ==> next(n)[i] in nodes0
    ensures nodes0 + {start} <= nodes <= graph && userNodes == nodes * external
    ensures forall n :: n in nodes ==> forall i :: 0 <= i < |next(n)| ==> next(n)[i] in nodes
    ensures forall n :: n in nodes ==> n in nodes0 || Reachable(next, start, n)
  {
    var stack := [start];
    nodes, userNodes := nodes0 + {start}, userNodes0;
    ReachSelf(next, start);
    ghost var expanded := nodes0 - {start};
    while stack != []
      invariant nodes0 + {start} <= nodes <= graph
      invariant expanded <= nodes
      invariant forall n :: n in nodes <==> n in expanded || n in stack
      invariant forall n :: n in expanded ==> forall i :: 0 <= i < |next(n)| ==> next(n)[i] in nodes
      invariant forall n :: n in nodes ==> n in nodes0 || Reachable(next, start, n)
      invariant forall n :: n in stack ==> Reachable(next, start, n)
      invariant expanded * external <= userNodes <= nodes * external
      decreases graph - nodes, |stack|
    {
      var n := stack[|stack| - 1];
      assert n in stack;
      ghost var stackBefore := stack;
      ghost var nodesBefore := nodes;
      stack := stack[..|stack| - 1];
      assert forall m :: m in stackBefore <==> m in stack || m == n by {
        assert stackBefore == stack + [n];
      }
      if n in external {
        userNodes := userNodes + {n};
      }
      expanded := expanded + {n};
      var j := |next(n)|;
      while j > 0
        invariant 0 <= j <= |next(n)|
        invariant nodesBefore <= nodes <= graph
        invariant forall m :: m in nodes <==> m in expanded || m in stack
        invariant forall k :: j <= k < |next(n)| ==> next(n)[k] in nodes
        invariant forall m :: m in nodes ==> m in nodes0 || Reachable(next, start, m)
        invariant forall m :: m in stack ==> Reachable(next, start, m)
        invariant nodes == nodesBefore ==> |stack| < |stackBefore|
        decreases j
      {
        j := j - 1;
        var m := next(n)[j];
        if m !in nodes {
          ReachStep(next, start, n, m);
          nodes := nodes + {m};
          stack := stack + [m];
        }
      }
    }
  }

  lemma KnownPrefix(next: Next, graph: set<Name>, starts: seq<Name>, i: nat)
    requires i < |starts|
    ensures forall n :: ReachableFromAny(next, KnownStarts(graph, starts[..i]), n)
                    ==> ReachableFromAny(next, KnownStarts(graph, starts[..i + 1]), n)
  {
    assert starts[..i + 1][..i] == starts[..i];
    var a, b := KnownStarts(graph, starts[..i]), KnownStarts(graph, starts[..i + 1]);
    forall n | ReachableFromAny(next, a, n) ensures ReachableFromAny(next, b, n) {
      var k :| 0 <= k < |a| && Reachable(next, a[k], n);
      assert b[k] == a[k];
    }
  }

  lemma {:induction false} KnownMembers(graph: set<Name>, starts: seq<Name>, k: nat)
    requires k < |KnownStarts(graph, starts)|
    ensures KnownStarts(graph, starts)[k] in graph
    ensures exists i :: 0 <= i < |starts| && starts[i] == KnownStarts(graph, starts)[k]
  {
    var n := |starts| - 1;
    if k < |KnownStarts(graph, starts[..n])| {
      KnownMembers(graph, starts[..n], k);
      var i :| 0 <= i < n && starts[..n][i] == KnownStarts(graph, starts[..n])[k];
      assert starts[i] == KnownStarts(graph, starts)[k];
    }
  }

  // ---------------------------------------------------------------- duals and paths between two nodes

  /** Forward and backward edges are each other's inverse. */
  ghost predicate Inverse(graph: set<Name>, next: Next, prev: Next) {
    && (forall a, b :: a in graph && b in graph ==> (b in next(a) <==> a in prev(b)))
    && (forall a :: a in graph ==> forall i :: 0 <= i < |next(a)| ==> next(a)[i] in graph)
    && (forall a :: a in graph ==> forall i :: 0 <= i < |prev(a)| ==> prev(a)[i] in graph)
  }

  function Reversed(p: seq<Name>): (r: seq<Name>)
    ensures |r| == |p| && forall i :: 0 <= i < |p| ==> r[i] == p[|p| - 1 - i]
  {
    if p == [] then [] else Reversed(p[1..]) + [p[0]]
  }

  lemma {:induction false} PathStays(graph: set<Name>, next: Next, p: seq<Name>)
    requires IsPath(next, p) && p[0] in graph
    requires forall a :: a in graph ==> forall i :: 0 <= i < |next(a)| ==> next(a)[i] in graph
    ensures forall i :: 0 <= i < |p| ==> p[i] in graph
  {
    if |p| > 1 {
      assert p[1] in next(p[0]);
      PathStays(graph, next, p[1..]);
      forall i | 0 <= i < |p| ensures p[i] in graph {
        if i > 0 { assert p[1..][i - 1] == p[i]; }
      }
    }
  }

  lemma ReversePath(graph: set<Name>, next: Next, prev: Next, p: seq<Name>, a: Name, b: Name)
    requires Inverse(graph, next, prev) && a in graph && Connects(next, p, a, b)
    ensures b in graph && Connects(prev, Reversed(p), b, a)
  {
    PathStays(graph, next, p);
    var r := Reversed(p);
    forall i | 0 <= i < |r| - 1 ensures r[i + 1] in prev(r[i]) {
      var j := |p| - 2 - i;
      assert p[j + 1] in next(p[j]);
    }
  }

  /** Upstream and downstream queries are duals. */
  lemma Duality(graph: set<Name>, next: Next, prev: Next, a: Name, b: Name)
    requires Inverse(graph, next, prev) && a in graph && b in graph
    ensures Reachable(next, a, b) <==> Reachable(prev, b, a)
  {
    if Reachable(next, a, b) {
      var p :| Connects(next, p, a, b);
      ReversePath(graph, next, prev, p, a, b);
    }
    if Reachable(prev, b, a) {
      var p :| Connects(prev, p, b, a);
      ReversePath(graph, prev, next, p, b, a);
    }
  }

  /** n lies on some path from u to d. */
  ghost predicate OnPath(next: Next, u: Name, d: Name, n: Name) {
    exists p, i :: Connects(next, p, u, d) && 0 <= i < |p| && p[i] == n
  }

  lemma OnPathIffBothWays(next: Next, u: Name, d: Name, n: Name)
    ensures OnPath(next, u, d, n) <==> Reachable(next, u, n) && Reachable(next, n, d)
  {
    if OnPath(next, u, d, n) {
      var p, i :| Connects(next, p, u, d) && 0 <= i < |p| && p[i] == n;
      assert Connects(next, p[..i + 1], u, n);
      assert Connects(next, p[i..], n, d);
    }
    if Reachable(next, u, n) && Reachable(next, n, d) {
      var p :| Connects(next, p, u, n);
      var q :| Connects(next, q, n, d);
      ConcatPaths(next, p, q, u, n, d);
      assert (p + q[1..])[|p| - 1] == n;
    }
  }

  /** `Driver._get_nodes_between`: the nodes on some path between two nodes of the graph. */
  method GetNodesBetween(graph: set<Name>, external: set<Name>, dependedOnBy: Next, dependencies: Next,
                         upstream: Name, downstream: Name) returns (nodes: set<Name>)
    requires Inverse(graph, dependedOnBy, dependencies)
    requires upstream in graph && downstream in graph
    ensures forall n :: n in nodes <==> OnPath(dependedOnBy, upstream, downstream, n)
  {
    var down := DirectionalDfsTraverse(graph, external, {}, dependedOnBy, [upstream], {});
    var up := DirectionalDfsTraverse(graph, external, {}, dependencies, [downstream], {});
    assert KnownStarts(graph, [upstream][..0]) == [] && KnownStarts(graph, [downstream][..0]) == [];
    assert KnownStarts(graph, [upstream]) == [upstream] && KnownStarts(graph, [downstream]) == [downstream];
    assert MissingVars(graph, {}, {}, [upstream][..0]) == [] && MissingVars(graph, {}, {}, [downstream][..0]) == [];
    assert MissingVars(graph, {}, {}, [upstream]) == [] && MissingVars(graph, {}, {}, [downstream]) == [];
    nodes := down.nodes * up.nodes;
    forall n
      ensures n in nodes <==> OnPath(dependedOnBy, upstream, downstream, n)
    {
      OnPathIffBothWays(dependedOnBy, upstream, downstream, n);
      assert ReachableFromAny(dependedOnBy, [upstream], n) <==> Reachable(dependedOnBy, upstream, n) by {
        if Reachable(dependedOnBy, upstream, n) { assert Reachable(dependedOnBy, [upstream][0], n); }
      }
      assert ReachableFromAny(dependencies, [downstream], n) <==> Reachable(dependencies, downstream, n) by {
        if Reachable(dependencies, downstream, n) { assert Reachable(dependencies, [downstream][0], n); }
      }
      if n in graph {
        Duality(graph, dependedOnBy, dependencies, n, downstream);
      } else if Reachable(dependedOnBy, upstream, n) {
        var p :| Connects(dependedOnBy, p, upstream, n);
        PathStays(graph, dependedOnBy, p);
      }
    }
  }
}
