/**
 * hamilton/execution/graph_functions.py `execute_subdag` and the default executor: a recursive
 * walk that memoises, prunes values nobody needs any more, and so must never need them again.
 */
module Execution {
  import opened Prelude
  import opened Dataflow
  import opened Traversal
  import opened Slicing

  /** What asking for a node's value raises, given whether the asking edge is required. */
  function Demand<V>(e: EvalResult<V>, n: Name, required: bool): Option<EvalError> {
    match e
    case Value(_) => None
    case Absent => if required then Some(MissingInput(n)) else None
    case Error(error) => Some(error)
  }

  /** Everything asked for is there, or an input was missed before any call failed. */
  predicate NoCallFailed(r: Option<EvalError>) {
    r.None? || r.value.MissingInput?
  }

  /** The first error among requested nodes; an external node asked for by name is optional. */
  function FirstError<V>(g: Dag<V>, ctx: Context<V>, targets: seq<Name>): Option<EvalError>
    requires g.Valid() && forall i :: 0 <= i < |targets| ==> targets[i] in g.nodes
  {
    if targets == [] then None
    else
      var n := |targets| - 1;
      var before := FirstError(g, ctx, targets[..n]);
      if before.Some? then before
      else Demand(Eval(g, ctx, targets[n]), targets[n], !g.nodes[targets[n]].external)
  }

  /** It is the first error there is: every request before it has a value or is an input nobody supplied. */
  lemma {:induction false} FirstErrorIsFirst<V>(g: Dag<V>, ctx: Context<V>, targets: seq<Name>)
    requires g.Valid() && forall i :: 0 <= i < |targets| ==> targets[i] in g.nodes
    ensures var first := FirstError(g, ctx, targets);
            match first
            case None => forall i :: 0 <= i < |targets| ==> !Eval(g, ctx, targets[i]).Error?
            case Some(e) =>
              exists i ::
                && 0 <= i < |targets| && Eval(g, ctx, targets[i]) == Error(e)
                && forall j :: 0 <= j < i ==> !Eval(g, ctx, targets[j]).Error?
  {
    hide Eval;
    if targets != [] {
      var n := |targets| - 1;
      FirstErrorIsFirst(g, ctx, targets[..n]);
      assert forall i :: 0 <= i < n ==> targets[..n][i] == targets[i];
      if !g.nodes[targets[n]].external {
        NeverAbsent(g, ctx, targets[n]);
      }
      var before := FirstError(g, ctx, targets[..n]);
      if before.Some? {
        var i :| 0 <= i < n && Eval(g, ctx, targets[..n][i]) == Error(before.value)
                 && forall j :: 0 <= j < i ==> !Eval(g, ctx, targets[..n][j]).Error?;
        assert Eval(g, ctx, targets[i]) == Error(before.value);
      }
    }
  }

  lemma {:induction false} FirstErrorPrefix<V>(g: Dag<V>, ctx: Context<V>, targets: seq<Name>, i: nat)
    requires g.Valid() && (forall i :: 0 <= i < |targets| ==> targets[i] in g.nodes)
    requires i <= |targets| && FirstError(g, ctx, targets[..i]).Some?
    ensures FirstError(g, ctx, targets) == FirstError(g, ctx, targets[..i])
  {
    hide Eval;
    var n := |targets| - 1;
    if i < |targets| {
      assert targets[..n][..i] == targets[..i];
      FirstErrorPrefix(g, ctx, targets[..n], i);
    } else {
      assert targets[..i] == targets;
    }
  }

  /**
   * What one execution is given: the graph, overrides, values already computed at the start
   * (both count as overrides for the meaning), and the nodes asked for.
   */
  datatype Plan<!V> = Plan(g: Dag<V>, ctx: Context<V>, overrides: map<Name, V>, given: map<Name, V>,
                           query: Query, targets: seq<Name>)
  {
    ghost predicate Valid() {
      && g.Valid() && g.Linked()
      && Describes(query, ctx)
      && RequestsIn(targets, g.nodes.Keys)
      && ctx.overrides == overrides + given
    }

    /** Evaluating n means calling its function. */
    predicate CallsNode(n: Name)
      requires n in g.nodes
    {
      !g.nodes[n].external && n !in ctx.overrides
    }

    ghost predicate Wanted(n: Name)
      requires g.Valid() && n in g.nodes
    {
      g.nodes[n].external || n in Slice(g, query, targets)
    }
  }

  /** The memo: values held now, calls made so far, and every name that ever had a value. */
  datatype Memo<+V> = Memo(computed: map<Name, V>, calls: seq<Name>, done: set<Name>)

  /** Values held are right. */
  ghost predicate ValuesRight<V>(p: Plan<V>, m: Memo<V>)
    requires p.Valid()
  {
    && m.computed.Keys <= m.done
    && (forall n :: n in m.computed && n in p.g.nodes ==> Eval(p.g, p.ctx, n) == Value(m.computed[n]))
    && (forall n :: n in m.done && n in p.g.nodes ==> Eval(p.g, p.ctx, n).Value?)
    && p.given.Keys <= m.done <= p.given.Keys + p.g.nodes.Keys
  }

  /** A value is only dropped once every node that reads it has been computed. */
  ghost predicate PrunedIsSpent<V>(p: Plan<V>, m: Memo<V>)
    requires p.Valid()
  {
    forall n :: n in m.done && n in p.g.nodes && n !in m.computed ==>
      n !in p.targets && forall i :: 0 <= i < |p.g.dependents[n]| ==> p.g.dependents[n][i] in m.done
  }

  /** Exactly the function nodes among what was computed were called, each once, all in the slice. */
  ghost predicate CallsExact<V>(p: Plan<V>, m: Memo<V>)
    requires p.Valid()
  {
    && Distinct(m.calls)
    && (forall n :: n in m.calls ==>
         n in p.g.nodes && n in m.done && n in Slice(p.g, p.query, p.targets) && p.CallsNode(n))
    && (forall n :: n in m.done && n in p.g.nodes && p.CallsNode(n) ==> n in m.calls)
  }

  /** What was computed had its arguments computed. */
  ghost predicate ArgumentsDone<V>(p: Plan<V>, m: Memo<V>)
    requires p.Valid()
  {
    forall n :: n in m.done && n in p.g.nodes && p.CallsNode(n) ==> ArgsIn(p, m.done, n)
  }

  ghost predicate ArgsIn<V>(p: Plan<V>, done: set<Name>, n: Name)
    requires p.Valid() && n in p.g.nodes
  {
    forall i :: 0 <= i < |p.g.nodes[n].deps| ==>
      Eval(p.g, p.ctx, p.g.nodes[n].deps[i].name).Value? ==> p.g.nodes[n].deps[i].name in done
  }

  ghost predicate Good<V>(p: Plan<V>, m: Memo<V>) {
    p.Valid() && ValuesRight(p, m) && PrunedIsSpent(p, m) && CallsExact(p, m) && ArgumentsDone(p, m)
  }

  lemma GoodStart<V>(p: Plan<V>)
    requires p.Valid()
    ensures Good(p, Memo(p.given, [], p.given.Keys))
  {}

  function Inserted<V>(p: Plan<V>, m: Memo<V>, n: Name, v: V): Memo<V>
    requires n in p.g.nodes
  {
    Memo(m.computed[n := v], if p.CallsNode(n) then m.calls + [n] else m.calls, m.done + {n})
  }

  lemma {:induction false} InsertCalls<V>(p: Plan<V>, m: Memo<V>, n: Name, v: V)
    requires p.Valid() && CallsExact(p, m) && n in p.g.nodes && n !in m.done
    requires p.CallsNode(n) ==> n in Slice(p.g, p.query, p.targets)
    ensures CallsExact(p, Inserted(p, m, n, v))
  {
    hide Slice, Dag<V>.Linked;
    var m' := Inserted(p, m, n, v);
    assert forall a :: a in m'.calls <==> a in m.calls || (p.CallsNode(n) && a == n);
    assert n !in m.calls;
  }

  lemma InsertArguments<V>(p: Plan<V>, m: Memo<V>, n: Name, v: V)
    requires p.Valid() && ArgumentsDone(p, m) && n in p.g.nodes
    requires p.CallsNode(n) ==> ArgsIn(p, m.done, n)
    ensures ArgumentsDone(p, Inserted(p, m, n, v))
  {
    hide Eval, Dag<V>.Linked;
    var m' := Inserted(p, m, n, v);
    forall a | a in m'.done && a in p.g.nodes && p.CallsNode(a) ensures ArgsIn(p, m'.done, a) {
      assert ArgsIn(p, m.done, a);
    }
  }

  /** Adding a value just computed keeps the memo good. */
  lemma {:induction false} GoodInsert<V>(p: Plan<V>, m: Memo<V>, n: Name, v: V)
    requires Good(p, m) && n in p.g.nodes && n !in m.done && Eval(p.g, p.ctx, n) == Value(v)
    requires p.CallsNode(n) ==> n in Slice(p.g, p.query, p.targets) && ArgsIn(p, m.done, n)
    ensures Good(p, Inserted(p, m, n, v))
  {
    hide Eval, Slice, CallsExact, ArgumentsDone, ArgsIn, Dag<V>.Valid, Dag<V>.Linked, Describes;
    InsertCalls(p, m, n, v);
    InsertArguments(p, m, n, v);
  }

  /** Dropping a value all of whose readers have been computed keeps the memo good. */
  lemma GoodDrop<V>(p: Plan<V>, m: Memo<V>, n: Name)
    requires Good(p, m) && n in p.g.nodes && n !in p.targets
    requires forall i :: 0 <= i < |p.g.dependents[n]| ==> p.g.dependents[n][i] in m.computed
    ensures Good(p, m.(computed := m.computed - {n}))
  {
    hide Eval, Slice, ArgsIn, Distinct, Dag<V>.Valid;
  }

  /** A dependency already computed for a node under evaluation cannot have been pruned. */
  lemma StillComputed<V>(p: Plan<V>, m: Memo<V>, n: Name, i: nat)
    requires Good(p, m) && n in p.g.nodes && n !in m.done && i < |p.g.nodes[n].deps|
    ensures p.g.nodes[n].deps[i].name in p.g.nodes
    ensures p.g.rank[p.g.nodes[n].deps[i].name] < p.g.rank[n]
    ensures p.g.nodes[n].deps[i].name in m.done ==> p.g.nodes[n].deps[i].name in m.computed
  {
    hide Eval, Slice, ArgsIn;
    var dep := p.g.nodes[n].deps[i].name;
    assert p.g.Uses(n, dep);
    assert n in p.g.dependents[dep];
  }

  lemma HeldIsRight<V>(p: Plan<V>, m: Memo<V>, n: Name)
    requires Good(p, m) && n in p.g.nodes
    ensures n in m.computed ==> n in m.done && Eval(p.g, p.ctx, n) == Value(m.computed[n])
    ensures n in m.done ==> Eval(p.g, p.ctx, n).Value?
    ensures n in m.calls ==> n in m.done
    ensures n !in m.done && n in p.ctx.overrides ==> n in p.overrides && p.ctx.overrides[n] == p.overrides[n]
    ensures Distinct(m.calls)
  {
    hide Eval, Slice;
  }

  lemma DependencyWanted<V>(p: Plan<V>, n: Name, i: nat)
    requires p.Valid() && n in p.g.nodes && i < |p.g.nodes[n].deps| && p.CallsNode(n) && p.Wanted(n)
    ensures p.g.nodes[n].deps[i].name in p.g.nodes && p.Wanted(p.g.nodes[n].deps[i].name)
  {
    hide Slice;
    SliceClosed(p.g, p.query, p.targets);
  }

  /** The next requested node can be asked for, and decides the first error so far. */
  lemma TargetStep<V>(p: Plan<V>, m: Memo<V>, i: nat)
    requires Good(p, m) && i < |p.targets|
    requires FirstError(p.g, p.ctx, p.targets[..i]).None?
    ensures p.targets[i] in p.g.nodes && p.Wanted(p.targets[i])
    ensures p.targets[i] in m.done ==> p.targets[i] in m.computed
    ensures FirstError(p.g, p.ctx, p.targets[..i + 1]) ==
            Demand(Eval(p.g, p.ctx, p.targets[i]), p.targets[i], !p.g.nodes[p.targets[i]].external)
  {
    hide Eval, Slice, ClosedUpstream, ValuesRight, PrunedIsSpent, CallsExact, ArgumentsDone, Dag<V>.Valid;
    hide Dag<V>.Linked, Describes;
    TargetHeld(p, m, p.targets[i]);
    SliceClosed(p.g, p.query, p.targets);
    assert p.targets[..i + 1][..i] == p.targets[..i];
  }

  /** Once no request failed, every requested value is held. */
  lemma {:induction false} TargetsHeld<V>(p: Plan<V>, m: Memo<V>)
    requires Good(p, m) && FirstError(p.g, p.ctx, p.targets).None?
    requires forall k :: 0 <= k < |p.targets| && Eval(p.g, p.ctx, p.targets[k]).Value? ==> p.targets[k] in m.done
    ensures forall k :: 0 <= k < |p.targets| ==>
      Eval(p.g, p.ctx, p.targets[k]) == if p.targets[k] in m.computed then Value(m.computed[p.targets[k]]) else Absent
  {
    hide Eval, Slice, ValuesRight, PrunedIsSpent, CallsExact, ArgumentsDone;
    forall k | 0 <= k < |p.targets|
      ensures Eval(p.g, p.ctx, p.targets[k]) ==
                if p.targets[k] in m.computed then Value(m.computed[p.targets[k]]) else Absent
    {
      TargetHeld(p, m, p.targets[k]);
      HeldIsRight(p, m, p.targets[k]);
      NoErrorAt(p.g, p.ctx, p.targets, k);
    }
  }

  class SubdagRun<V> {
    const plan: Plan<V>
    var computed: map<Name, V>
    /** Every call of a node's callable, in order. */
    var calls: seq<Name>
    ghost var done: set<Name>

    ghost function Now(): Memo<V>
      reads this
    {
      Memo(computed, calls, done)
    }

    constructor (plan: Plan<V>)
      requires plan.Valid()
      ensures this.plan == plan && computed == plan.given && calls == []
      ensures Good(plan, Now())
    {
      this.plan, computed, calls, done := plan, plan.given, [], plan.given.Keys;
      new;
      GoodStart(plan);
    }

    /** `dfs_traverse`: make sure n is computed, or say why it cannot be. */
    method DfsTraverse(n: Name, required: bool) returns (r: Option<EvalError>)
      requires Good(plan, Now()) && n in plan.g.nodes && plan.Wanted(n)
      requires n in done ==> n in computed
      modifies this
      decreases plan.g.rank[n]
      ensures r == Demand(Eval(plan.g, plan.ctx, n), n, required)
      ensures Distinct(calls)
      ensures NoCallFailed(r) ==> Good(plan, Now())
      ensures r.None? ==> old(done) <= done
      ensures r.None? ==> forall m :: m in done && m !in old(done) ==>
          m in plan.g.nodes && plan.g.rank[m] <= plan.g.rank[n]
      ensures r.None? && Eval(plan.g, plan.ctx, n).Value? ==> n in done
    {
      hide ValuesRight, PrunedIsSpent, CallsExact, ArgumentsDone, Eval, Gather, Slice, Dag<V>.Valid, Dag<V>.Linked;
      HeldIsRight(plan, Now(), n);
      if n in computed {
        return None;
      }
      if n in plan.overrides {
        OverrideEval(n);
        GoodInsert(plan, Now(), n, plan.overrides[n]);
        computed, done := computed[n := plan.overrides[n]], done + {n};
        return None;
      }
      var e := Arguments(n);
      if e.Some? {
        StoppedAt(n, e.value);
        return e;
      }
      if plan.g.nodes[n].external {
        SuppliedEval(n);
        if n !in plan.ctx.inputs {
          return if required then Some(MissingInput(n)) else None;
        }
        GoodInsert(plan, Now(), n, plan.ctx.inputs[n]);
        computed, done := computed[n := plan.ctx.inputs[n]], done + {n};
      } else {
        var e := CallNode(n);
        if e.Some? {
          return e;
        }
      }
      Prune(n);
      return None;
    }

    /** The node's function is called on its arguments, and its value kept. */
    method CallNode(n: Name) returns (r: Option<EvalError>)
      requires Good(plan, Now()) && n in plan.g.nodes && plan.CallsNode(n) && plan.Wanted(n) && n !in done
      requires ArgsIn(plan, done, n) && Gather(plan.g, plan.ctx, n, |plan.g.nodes[n].deps|).Kwargs?
      modifies this
      ensures match Eval(plan.g, plan.ctx, n)
              case Value(_) => r == None
              case Error(e) => r == Some(e)
              case Absent => false
      ensures r.Some? ==> r.value.CallFailed?
      ensures Distinct(calls)
      ensures r.None? ==> Good(plan, Now()) && done == old(done) + {n}
    {
      hide ValuesRight, PrunedIsSpent, CallsExact, ArgumentsDone, Eval, Gather, Slice;
      var kwargs := Kwargs(n);
      HeldIsRight(plan, Now(), n);
      CalledEval(n, kwargs);
      assert Distinct(calls + [n]);
      match Call(plan.g.nodes[n], kwargs) {
        case Raised(e) =>
          calls := calls + [n];
          return Some(CallFailed(n, e));
        case Returned(v) =>
          GoodInsert(plan, Now(), n, v);
          calls := calls + [n];
          computed, done := computed[n := v], done + {n};
          return None;
      }
    }

    /** The first loop of `dfs_traverse`: compute what n depends on. */
    method Arguments(n: Name) returns (r: Option<EvalError>)
      requires Good(plan, Now()) && n in plan.g.nodes && plan.Wanted(n) && n !in done && n !in plan.ctx.overrides
      modifies this
      decreases plan.g.rank[n], 0
      ensures Distinct(calls)
      ensures r.Some? ==> plan.CallsNode(n) && Gather(plan.g, plan.ctx, n, |plan.g.nodes[n].deps|) == Stopped(r.value)
      ensures r.None? ==> Gather(plan.g, plan.ctx, n, |plan.g.nodes[n].deps|).Kwargs?
      ensures NoCallFailed(r) ==> Good(plan, Now())
      ensures r.None? ==> n !in done && ArgsIn(plan, done, n)
      ensures r.None? ==> old(done) <= done
      ensures r.None? ==> forall m :: m in done && m !in old(done) ==>
          m in plan.g.nodes && plan.g.rank[m] < plan.g.rank[n]
    {
      hide ValuesRight, PrunedIsSpent, CallsExact, ArgumentsDone, Eval, Gather, Slice, Dag<V>.Linked;
      var deps := plan.g.nodes[n].deps;
      var i := 0;
      HeldIsRight(plan, Now(), n);
      GatherUnfold(plan.g, plan.ctx, n, 0);
      while i < |deps|
        invariant 0 <= i <= |deps| && Good(plan, Now()) && n !in done
        invariant old(done) <= done && Distinct(calls)
        invariant forall m :: m in done && m !in old(done) ==> m in plan.g.nodes && plan.g.rank[m] < plan.g.rank[n]
        invariant Gather(plan.g, plan.ctx, n, i).Kwargs?
        invariant forall k :: 0 <= k < i && Eval(plan.g, plan.ctx, deps[k].name).Value? ==> deps[k].name in done
      {
        var dep := deps[i];
        GatherUnfold(plan.g, plan.ctx, n, i + 1);
        StillComputed(plan, Now(), n, i);
        HeldIsRight(plan, Now(), dep.name);
        if dep.name !in computed {
          DependencyWanted(plan, n, i);
          var e := DfsTraverse(dep.name, dep.required);
          if e.Some? {
            GatherStopped(plan.g, plan.ctx, n, i + 1, |deps|);
            return e;
          }
        }
        i := i + 1;
      }
      return None;
    }

    /** The second loop of `dfs_traverse`: construct the signature. */
    method Kwargs(n: Name) returns (kwargs: Dict<Name, V>)
      requires Good(plan, Now()) && n in plan.g.nodes && n !in done
      requires ArgsIn(plan, done, n) && Gather(plan.g, plan.ctx, n, |plan.g.nodes[n].deps|).Kwargs?
      ensures Gather(plan.g, plan.ctx, n, |plan.g.nodes[n].deps|) == Dataflow.Kwargs(kwargs)
    {
      hide ValuesRight, PrunedIsSpent, CallsExact, ArgumentsDone, Eval, Gather, Slice, Dag<V>.Linked;
      var deps := plan.g.nodes[n].deps;
      kwargs := [];
      var i := 0;
      GatherUnfold(plan.g, plan.ctx, n, 0);
      while i < |deps|
        invariant 0 <= i <= |deps|
        invariant Gather(plan.g, plan.ctx, n, i) == Dataflow.Kwargs(kwargs)
      {
        StillComputed(plan, Now(), n, i);
        HeldIsRight(plan, Now(), deps[i].name);
        GatherUnfold(plan.g, plan.ctx, n, i + 1);
        GatherKwargsPrefix(plan.g, plan.ctx, n, i + 1);
        if deps[i].name in computed {
          kwargs := kwargs + [(deps[i].name, computed[deps[i].name])];
        }
        i := i + 1;
      }
    }

    /** d was not requested, and everything that reads it is held and was not requested either. */
    ghost predicate Spent(d: Name, held: map<Name, V>)
      requires plan.Valid() && d in plan.g.nodes
    {
      d !in plan.targets &&
      forall k :: 0 <= k < |plan.g.dependents[d]| ==>
        plan.g.dependents[d][k] in held && plan.g.dependents[d][k] !in plan.targets
    }

    lemma StillSpent(d: Name, held: map<Name, V>, more: map<Name, V>)
      requires plan.Valid() && d in plan.g.nodes && Spent(d, held) && held.Keys <= more.Keys
      ensures Spent(d, more)
    {}

    /** The inner loop over what reads d. */
    method IsSpent(d: Name) returns (spent: bool)
      requires plan.Valid() && d in plan.g.nodes
      ensures spent <==> Spent(d, computed)
    {
      hide Dag<V>.Valid;
      if d in plan.targets {
        return false;
      }
      var readers := plan.g.dependents[d];
      var k := 0;
      while k < |readers|
        invariant 0 <= k <= |readers|
        invariant forall j :: 0 <= j < k ==> readers[j] in computed && readers[j] !in plan.targets
      {
        if readers[k] !in computed || readers[k] in plan.targets {
          return false;
        }
        k := k + 1;
      }
      return true;
    }

    lemma MayDrop(d: Name)
      requires Good(plan, Now()) && d in computed && d in plan.g.nodes && Spent(d, computed)
      ensures Good(plan, Memo(computed - {d}, calls, done))
    {
      GoodDrop(plan, Now(), d);
    }

    /** What is not spent is not spent when less is held. */
    lemma StillNotSpent(before: map<Name, V>, after: map<Name, V>)
      requires plan.Valid() && after.Keys <= before.Keys
      ensures forall d :: d in plan.g.nodes && !Spent(d, before) ==> !Spent(d, after)
    {
      forall d | d in plan.g.nodes && Spent(d, after) ensures Spent(d, before) {
        StillSpent(d, after, before);
      }
    }

    /** One round of the pruning loop: the value of d goes if it is spent. */
    method DropIfSpent(d: Name)
      requires Good(plan, Now()) && d in plan.g.nodes
      modifies this`computed
      ensures Good(plan, Now())
      ensures computed == if d in old(computed) && Spent(d, old(computed)) then old(computed) - {d} else old(computed)
    {
      hide ValuesRight, PrunedIsSpent, CallsExact, ArgumentsDone, Slice, Spent, Dag<V>.Linked, Dag<V>.Valid;
      if d in computed {
        var spent := IsSpent(d);
        if spent {
          MayDrop(d);
          computed := computed - {d};
        }
      }
    }

    /** Some of the first k names n depends on are dropped, all spent; of these no other is spent. */
    ghost predicate Pruned(n: Name, k: nat, before: map<Name, V>, after: map<Name, V>)
      requires plan.Valid() && n in plan.g.nodes && k <= |plan.g.nodes[n].deps|
    {
      && (forall d :: d in after ==> d in before && after[d] == before[d])
      && (forall d :: d in before && d !in after ==> IsArgument(n, k, d) && d in plan.g.nodes && Spent(d, before))
      && (forall d :: d in after && IsArgument(n, k, d) ==> d in plan.g.nodes && !Spent(d, after))
    }

    lemma PrunedNext(n: Name, k: nat, before: map<Name, V>, after: map<Name, V>, next: map<Name, V>)
      requires plan.Valid() && n in plan.g.nodes && k < |plan.g.nodes[n].deps| && Pruned(n, k, before, after)
      requires plan.g.nodes[n].deps[k].name in plan.g.nodes
      requires var d := plan.g.nodes[n].deps[k].name;
               next == if d in after && Spent(d, after) then after - {d} else after
      ensures Pruned(n, k + 1, before, next)
    {
      hide Spent, Dag<V>.Linked, Dag<V>.Valid;
      var d := plan.g.nodes[n].deps[k].name;
      DependsNext(n, k);
      hide IsArgument;
      StillNotSpent(after, next);
      if d in after && Spent(d, after) {
        StillSpent(d, after, before);
      }
    }

    /**
     * The pruning loop at the end of `dfs_traverse`: of what n depends on, what is spent goes and nothing else, and
     * nothing that stays is spent.
     */
    method Prune(n: Name)
      requires Good(plan, Now()) && n in plan.g.nodes
      modifies this`computed
      ensures Good(plan, Now())
      ensures forall d :: d in computed ==> d in old(computed) && computed[d] == old(computed)[d]
      ensures forall d :: d in old(computed) && d !in computed ==>
                IsArgument(n, |plan.g.nodes[n].deps|, d) && d in plan.g.nodes && Spent(d, old(computed))
      ensures forall d :: d in computed && IsArgument(n, |plan.g.nodes[n].deps|, d) ==>
                d in plan.g.nodes && !Spent(d, computed)
    {
      hide ValuesRight, PrunedIsSpent, CallsExact, ArgumentsDone, Slice, Spent, Dag<V>.Linked;
      var deps := plan.g.nodes[n].deps;
      var i := 0;
      while i < |deps|
        invariant 0 <= i <= |deps| && Good(plan, Now()) && Pruned(n, i, old(computed), computed)
      {
        hide Pruned, IsArgument;
        ghost var before := computed;
        assert plan.g.NodeValid(n);
        DropIfSpent(deps[i].name);
        PrunedNext(n, i, old(computed), before, computed);
        i := i + 1;
      }
    }

    /** d is one of the first k names n depends on. */
    ghost predicate IsArgument(n: Name, k: nat, d: Name)
      requires n in plan.g.nodes && k <= |plan.g.nodes[n].deps|
    {
      exists i :: 0 <= i < k && plan.g.nodes[n].deps[i].name == d
    }

    lemma DependsNext(n: Name, k: nat)
      requires n in plan.g.nodes && k < |plan.g.nodes[n].deps|
      ensures forall d :: IsArgument(n, k + 1, d) <==>
                          IsArgument(n, k, d) || d == plan.g.nodes[n].deps[k].name
    {
      var deps := plan.g.nodes[n].deps;
      assert IsArgument(n, k + 1, deps[k].name);
      forall d ensures IsArgument(n, k + 1, d) <==> IsArgument(n, k, d) || d == deps[k].name {
        if IsArgument(n, k + 1, d) {
          var i :| 0 <= i < k + 1 && deps[i].name == d;
        }
        if IsArgument(n, k, d) {
          var i :| 0 <= i < k && deps[i].name == d;
          assert deps[i].name == d;
        }
      }
    }

    lemma OverrideEval(n: Name)
      requires plan.Valid() && n in plan.g.nodes && n in plan.ctx.overrides
      ensures Eval(plan.g, plan.ctx, n) == Value(plan.ctx.overrides[n])
    {}

    lemma SuppliedEval(n: Name)
      requires plan.Valid() && n in plan.g.nodes && n !in plan.ctx.overrides && plan.g.nodes[n].external
      ensures Eval(plan.g, plan.ctx, n) == Supplied(plan.ctx, n)
    {}

    lemma CalledEval(n: Name, kwargs: Dict<Name, V>)
      requires plan.Valid() && n in plan.g.nodes && plan.CallsNode(n)
      requires Gather(plan.g, plan.ctx, n, |plan.g.nodes[n].deps|) == Dataflow.Kwargs(kwargs)
      ensures Eval(plan.g, plan.ctx, n) == Finish(plan.g.nodes[n], n, Dataflow.Kwargs(kwargs))
    {
      hide Gather;
    }

    lemma StoppedAt(n: Name, e: EvalError)
      requires plan.Valid() && n in plan.g.nodes && plan.CallsNode(n)
      requires Gather(plan.g, plan.ctx, n, |plan.g.nodes[n].deps|) == Stopped(e)
      ensures Eval(plan.g, plan.ctx, n) == Error(e)
    {
      hide Gather;
    }

    /** The loop over the requested nodes. */
    method ExecuteTargets() returns (r: Option<EvalError>)
      requires Good(plan, Now()) && calls == []
      modifies this
      ensures r == FirstError(plan.g, plan.ctx, plan.targets)
      ensures Distinct(calls)
      ensures NoCallFailed(r) ==> Good(plan, Now())
      ensures r.None? ==> AllDone(plan, Now(), |plan.targets|)
    {
      hide ValuesRight, PrunedIsSpent, CallsExact, ArgumentsDone, Eval, Gather, Slice, Dag<V>.Valid, Dag<V>.Linked;
      var i := 0;
      while i < |plan.targets|
        invariant 0 <= i <= |plan.targets| && Good(plan, Now()) && Distinct(calls)
        invariant FirstError(plan.g, plan.ctx, plan.targets[..i]).None?
        invariant AllDone(plan, Now(), i)
      {
        var f := plan.targets[i];
        TargetStep(plan, Now(), i);
        var e := DfsTraverse(f, !plan.g.nodes[f].external);
        if e.Some? {
          FirstErrorPrefix(plan.g, plan.ctx, plan.targets, i + 1);
          return e;
        }
        i := i + 1;
      }
      assert plan.targets[..i] == plan.targets;
      return None;
    }

    /** `execute_subdag`: what the requested nodes evaluate to, or the first error among them. */
    method Execute() returns (r: Option<EvalError>)
      requires Good(plan, Now()) && calls == []
      modifies this
      ensures r == FirstError(plan.g, plan.ctx, plan.targets)
      ensures Distinct(calls)
      ensures NoCallFailed(r) ==> Good(plan, Now())
      ensures r.None? ==> forall i :: 0 <= i < |plan.targets| ==>
                            Held(plan.targets[i]) == Eval(plan.g, plan.ctx, plan.targets[i])
      ensures r.None? ==> forall n :: n in calls <==> n in Slice(plan.g, plan.query, plan.targets) && plan.CallsNode(n)
    {
      hide ValuesRight, PrunedIsSpent, CallsExact, ArgumentsDone, Eval, Gather, Slice, FirstError, Distinct;
      hide Dag<V>.Linked;
      r := ExecuteTargets();
      if r.None? {
        AllSliceCalled(plan, Now());
        TargetsHeld(plan, Now());
      }
    }

    function Held(n: Name): EvalResult<V>
      reads this
    {
      if n in computed then Value(computed[n]) else Absent
    }
  }

  /** The first k requested nodes that have a value are computed. */
  ghost predicate AllDone<V>(p: Plan<V>, m: Memo<V>, k: nat)
    requires p.Valid() && k <= |p.targets|
  {
    forall i :: 0 <= i < k && Eval(p.g, p.ctx, p.targets[i]).Value? ==> p.targets[i] in m.done
  }

  lemma TargetHeld<V>(p: Plan<V>, m: Memo<V>, f: Name)
    requires Good(p, m) && f in p.targets
    ensures f in p.g.nodes && (f in m.done ==> f in m.computed)
  {
    hide Eval, Slice, ArgsIn, Dag<V>.Linked;
  }

  lemma {:induction false} NoErrorAt<V>(g: Dag<V>, ctx: Context<V>, targets: seq<Name>, k: nat)
    requires g.Valid() && (forall i :: 0 <= i < |targets| ==> targets[i] in g.nodes)
    requires FirstError(g, ctx, targets).None? && k < |targets|
    ensures !Eval(g, ctx, targets[k]).Error?
  {
    hide Eval;
    if k < |targets| - 1 {
      NoErrorAt(g, ctx, targets[..|targets| - 1], k);
    }
  }

  /** When nothing failed, every function node of the slice was called. */
  lemma AllSliceCalled<V>(p: Plan<V>, m: Memo<V>)
    requires Good(p, m)
    requires forall i :: 0 <= i < |p.targets| && Eval(p.g, p.ctx, p.targets[i]).Value? ==> p.targets[i] in m.done
    requires FirstError(p.g, p.ctx, p.targets).None?
    ensures forall n :: n in m.calls <==> n in Slice(p.g, p.query, p.targets) && p.CallsNode(n)
  {
    hide Slice, Gather, Finish;
    var s := set n | n in p.g.nodes && (n in m.done || Eval(p.g, p.ctx, n).Absent?);
    assert ClosedUpstream(p.g, p.query, s) by {
      forall n | n in s && n !in p.query.overrides
        ensures forall i :: 0 <= i < |p.g.nodes[n].deps| ==> p.g.nodes[n].deps[i].name in s
      {
        if p.CallsNode(n) {
          NeverAbsent(p.g, p.ctx, n);
          assert ArgsIn(p, m.done, n);
          DoneArguments(p, m, n);
        }
      }
    }
    assert RequestsIn(p.targets, s) by {
      forall i | 0 <= i < |p.targets| ensures p.targets[i] in s {
        NoErrorAt(p.g, p.ctx, p.targets, i);
      }
    }
    SliceLeast(p.g, p.query, p.targets, s);
    forall n | n in s && p.CallsNode(n) ensures n in m.calls {
      NeverAbsent(p.g, p.ctx, n);
    }
  }

  lemma NeverAbsent<V>(g: Dag<V>, ctx: Context<V>, n: Name)
    requires g.Valid() && n in g.nodes && !g.nodes[n].external
    ensures !Eval(g, ctx, n).Absent?
  {
    hide Gather, Call;
  }

  lemma {:induction false} DoneArguments<V>(p: Plan<V>, m: Memo<V>, n: Name)
    requires Good(p, m) && n in p.g.nodes && n in m.done && p.CallsNode(n)
    ensures forall i :: 0 <= i < |p.g.nodes[n].deps| ==> !Eval(p.g, p.ctx, p.g.nodes[n].deps[i].name).Error?
  {
    hide Slice, PrunedIsSpent, CallsExact, ArgumentsDone, Gather, Dag<V>.Linked;
    assert Eval(p.g, p.ctx, n).Value?;
    CompleteGather(p.g, p.ctx, n);
    hide Eval, Good;
    forall i | 0 <= i < |p.g.nodes[n].deps| ensures !Eval(p.g, p.ctx, p.g.nodes[n].deps[i].name).Error? {
      GatheredArgument(p.g, p.ctx, n, i);
    }
  }

  lemma CompleteGather<V>(g: Dag<V>, ctx: Context<V>, n: Name)
    requires g.Valid() && n in g.nodes && n !in ctx.overrides && !g.nodes[n].external && Eval(g, ctx, n).Value?
    ensures Gather(g, ctx, n, |g.nodes[n].deps|).Kwargs?
  {
    hide Gather;
  }

  lemma GatheredArgument<V>(g: Dag<V>, ctx: Context<V>, n: Name, i: nat)
    requires g.Valid() && n in g.nodes && i < |g.nodes[n].deps|
    requires Gather(g, ctx, n, |g.nodes[n].deps|).Kwargs?
    ensures g.nodes[n].deps[i].name in g.nodes && !Eval(g, ctx, g.nodes[n].deps[i].name).Error?
    ensures Eval(g, ctx, g.nodes[n].deps[i].name).Absent? ==> !g.nodes[n].deps[i].required
  {
    hide Gather, Eval;
    GatherKwargsPrefix(g, ctx, n, i + 1);
    GatherUnfold(g, ctx, n, i + 1);
  }

  lemma {:induction false} GatherStopped<V>(g: Dag<V>, ctx: Context<V>, n: Name, i: nat, k: nat)
    requires g.Valid() && n in g.nodes && i <= k <= |g.nodes[n].deps|
    requires Gather(g, ctx, n, i).Stopped?
    ensures Gather(g, ctx, n, k) == Gather(g, ctx, n, i)
  {
    if i < k {
      GatherStopped(g, ctx, n, i, k - 1);
    }
  }

  lemma GatherKwargsPrefix<V>(g: Dag<V>, ctx: Context<V>, n: Name, i: nat)
    requires g.Valid() && n in g.nodes && i <= |g.nodes[n].deps|
    requires Gather(g, ctx, n, |g.nodes[n].deps|).Kwargs?
    ensures Gather(g, ctx, n, i).Kwargs?
  {
    if Gather(g, ctx, n, i).Stopped? {
      GatherStopped(g, ctx, n, i, |g.nodes[n].deps|);
    }
  }

  // ---------------------------------------------------------------- the default executor

  datatype RunResult<+V> =
    | Outputs(outputs: map<Name, Option<V>>)
    | InputsClash(names: set<Name>)
    | RunFailed(error: EvalError)

  /** What a request for f means: its value in the graph, or a runtime input of that name. */
  function Meaning<V>(g: Dag<V>, ctx: Context<V>, inputs: map<Name, V>, f: Name): Option<V>
    requires g.Valid()
  {
    if f !in g.nodes then (if f in inputs then Some(inputs[f]) else None)
    else
      match Eval(g, ctx, f)
      case Value(v) => Some(v)
      case Absent => None
      case Error(_) => None
  }

  /** `DefaultGraphExecutor.execute` over `FunctionGraph.execute`. */
  method ExecuteDefault<V>(g: Dag<V>, config: map<Name, V>, inputs: map<Name, V>, overrides: map<Name, V>,
                           finalVars: seq<Name>) returns (r: RunResult<V>, calls: seq<Name>)
    requires g.Valid() && g.Linked()
    ensures r.InputsClash? <==> config.Keys * inputs.Keys != {}
    ensures r.InputsClash? ==> calls == [] && r.names == config.Keys * inputs.Keys
    ensures !r.InputsClash? ==>
              var ctx := Context(config + inputs, overrides);
              var error := FirstError(g, ctx, KnownTargets(g, finalVars));
              && (r.RunFailed? <==> error.Some?) && (r.RunFailed? ==> error == Some(r.error))
    ensures r.Outputs? ==> r.outputs.Keys == set f | f in finalVars
    ensures r.Outputs? ==> forall f :: f in finalVars ==>
              r.outputs[f] == Meaning(g, Context(config + inputs, overrides), inputs, f)
    ensures Distinct(calls)
    ensures r.Outputs? ==>
              var query := Query(Some(inputs.Keys), config.Keys, overrides.Keys);
              forall n :: n in calls <==>
                n in Slice(g, query, KnownTargets(g, finalVars)) && !g.nodes[n].external && n !in overrides
  {
    hide Eval, Slice, Good, FirstError, Dag<V>.Valid, Dag<V>.Linked, KnownStarts;
    if config.Keys * inputs.Keys != {} {
      return InputsClash(config.Keys * inputs.Keys), [];
    }
    var targets := KnownTargets(g, finalVars);
    var query := Query(Some(inputs.Keys), config.Keys, overrides.Keys);
    var ctx := Context(config + inputs, overrides);
    var plan := Plan(g, ctx, overrides, map[], query, targets);
    assert overrides + map[] == overrides;
    var run := new SubdagRun(plan);
    var error := run.Execute();
    calls := run.calls;
    if error.Some? {
      r := RunFailed(error.value);
    } else {
      var computed := run.computed;
      var outputs := map f | f in finalVars :: 
        if f in computed then Some(computed[f]) else if f in inputs then Some(inputs[f]) else None;
      forall f | f in finalVars
        ensures outputs[f] == Meaning(g, ctx, inputs, f)
      {
        HeldOutput(plan, run.Now(), inputs, f);
        if f in g.nodes {
          KnownIn(g.nodes.Keys, finalVars, f);
          var i :| 0 <= i < |targets| && targets[i] == f;
          assert run.Held(targets[i]) == Eval(g, ctx, f);
        }
      }
      r := Outputs(outputs);
    }
  }

  function KnownTargets<V>(g: Dag<V>, finalVars: seq<Name>): (r: seq<Name>)
    ensures RequestsIn(r, g.nodes.Keys)
  {
    KnownMembersAll(g.nodes.Keys, finalVars);
    KnownStarts(g.nodes.Keys, finalVars)
  }

  lemma KnownMembersAll(graph: set<Name>, starts: seq<Name>)
    ensures RequestsIn(KnownStarts(graph, starts), graph)
  {
    forall k | 0 <= k < |KnownStarts(graph, starts)| ensures KnownStarts(graph, starts)[k] in graph {
      KnownMembers(graph, starts, k);
    }
  }

  lemma KnownIn(graph: set<Name>, starts: seq<Name>, f: Name)
    requires f in starts && f in graph
    ensures f in KnownStarts(graph, starts)
  {}

  /** A name outside the graph is never held; an absent external node is no runtime input. */
  lemma HeldOutput<V>(p: Plan<V>, m: Memo<V>, inputs: map<Name, V>, f: Name)
    requires Good(p, m)
    requires forall n :: n in inputs ==> n in p.ctx.inputs
    ensures f !in p.g.nodes && f in m.computed ==> f in p.given
    ensures f in p.g.nodes && Eval(p.g, p.ctx, f).Absent? ==> f !in inputs
  {}
}
