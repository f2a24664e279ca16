/**
 * `AsyncDriver.raw_execute` from the request to the results. It slices but does not validate: a missing
 * required input raises while `graph.execute` is still creating tasks, and those created stay behind.
 */
module AsyncRuns {
  import opened Prelude
  import opened Dataflow
  import opened Traversal
  import opened Slicing
  import opened Validation
  import E = Execution
  import opened AsyncExecution

  /** What becomes a task in `raw_execute`: the function nodes of the slice that are not overridden. */
  ghost function SliceJob<V>(g: Dag<V>, q: Query, ctx: Context<V>, finals: seq<Name>, hooks: Hooks): Job<V>
    requires g.Valid()
  {
    Job(g, ctx, (set n | n in Slice(g, q, finals) && !g.nodes[n].external && n !in ctx.overrides), hooks)
  }

  /** If nothing is missing every task's inputs are tasks, raw values, or optional and absent. */
  lemma ValidatedJobIsValid<V>(g: Dag<V>, q: Query, ctx: Context<V>, finals: seq<Name>, hooks: Hooks)
    requires g.Valid() && Describes(q, ctx) && RequestsIn(finals, g.nodes.Keys) && NothingMissing(g, q, ctx, finals)
    ensures SliceJob(g, q, ctx, finals, hooks).Valid()
  {
    var job := SliceJob(g, q, ctx, finals, hooks);
    SliceClosed(g, q, finals);
    hide Slice, NothingMissing, Dag<V>.Valid, ClosedUpstream, Describes;
    forall n, i | n in job.tasks && 0 <= i < |g.nodes[n].deps|
      ensures var dep := g.nodes[n].deps[i];
              dep.name in g.nodes
              && (dep.name in job.tasks || job.Raw(dep.name).Some? || (g.nodes[dep.name].external && !dep.required))
    {
      DependencyIsThere(g, q, ctx, finals, hooks, n, i);
    }
  }

  lemma DependencyIsThere<V>(g: Dag<V>, q: Query, ctx: Context<V>, finals: seq<Name>, hooks: Hooks, n: Name, i: nat)
    requires g.Valid() && Describes(q, ctx) && NothingMissing(g, q, ctx, finals)
    requires ClosedUpstream(g, q, Slice(g, q, finals))
    requires n in Slice(g, q, finals) && n in g.nodes && n !in ctx.overrides && i < |g.nodes[n].deps|
    ensures var dep, job := g.nodes[n].deps[i], SliceJob(g, q, ctx, finals, hooks);
            dep.name in g.nodes
            && (dep.name in job.tasks || job.Raw(dep.name).Some? || (g.nodes[dep.name].external && !dep.required))
  {
    hide Slice, RequiredBy;
    Requires(g, Slice(g, q, finals), n, i);
  }

  lemma Requires<V>(g: Dag<V>, s: set<Name>, n: Name, i: nat)
    requires n in g.nodes && i < |g.nodes[n].deps| && n in s
    ensures g.nodes[n].deps[i].required ==> RequiredBy(g, s, g.nodes[n].deps[i].name)
  {}

  /** A task of a valid job never waits for an input nobody supplies. */
  lemma {:induction false} TaskNeverStuck<V>(job: Job<V>, n: Name)
    requires job.Valid() && n in job.tasks
    ensures !Stuck(Eval(job.g, job.ctx, n))
    decreases job.g.rank[n], 1, 0
  {
    hide Gather, Call;
    TaskArguments(job, n, |job.g.nodes[n].deps|);
  }

  lemma {:induction false} TaskArguments<V>(job: Job<V>, n: Name, k: nat)
    requires job.Valid() && n in job.tasks && k <= |job.g.nodes[n].deps|
    ensures Gather(job.g, job.ctx, n, k).Stopped? ==> !Gather(job.g, job.ctx, n, k).error.MissingInput?
    decreases job.g.rank[n], 0, k
  {
    hide Eval;
    GatherUnfold(job.g, job.ctx, n, k);
    if k > 0 {
      var dep := job.g.nodes[n].deps[k - 1];
      TaskArguments(job, n, k - 1);
      assert job.g.NodeValid(n);
      if dep.name in job.tasks {
        TaskNeverStuck(job, dep.name);
        E.NeverAbsent(job.g, job.ctx, dep.name);
      } else {
        NoTask(job.g, job.ctx, dep.name);
      }
    }
  }

  lemma NoTask<V>(g: Dag<V>, ctx: Context<V>, d: Name)
    requires g.Valid() && d in g.nodes && (g.nodes[d].external || d in ctx.overrides)
    ensures !Eval(g, ctx, d).Error?
    ensures Eval(g, ctx, d).Absent? <==> d !in ctx.overrides && d !in ctx.inputs
  {
    hide Gather;
  }

  // ---------------------------------------------------------------- creating the tasks

  /** What `memoized_computation` holds under this driver: a task, or a value as it was given. */
  datatype Handle<V> = TaskOf(node: Name) | RawValue(value: V)

  /** The graph `graph.execute` walks: `do_node_execute` does not call the function but returns a task. */
  function TaskGraph<V>(g: Dag<V>): Dag<Handle<V>> {
    Dag(map n | n in g.nodes :: TaskNode(g.nodes[n], n), g.dependents, g.rank)
  }

  function TaskNode<V>(node: NodeDef<V>, n: Name): NodeDef<Handle<V>> {
    var wrap: ((Name, V)) -> (Name, Handle<V>) := (p: (Name, V)) => (p.0, RawValue(p.1));
    var fn: map<Name, Handle<V>> -> Outcome<Handle<V>> := _ => Returned(TaskOf(n));
    NodeDef(node.external, node.deps, MapSeq(wrap, node.defaults), node.code, fn)
  }

  function RawContext<V>(ctx: Context<V>): Context<Handle<V>> {
    Context(map d | d in ctx.inputs :: RawValue(ctx.inputs[d]),
            map d | d in ctx.overrides :: RawValue(ctx.overrides[d]))
  }

  lemma {:induction false} TaskGraphValid<V(!new)>(g: Dag<V>)
    requires g.Valid() && g.Linked()
    ensures TaskGraph(g).Valid() && TaskGraph(g).Linked() && NeverRaises(TaskGraph(g))
    ensures TaskGraph(g).nodes.Keys == g.nodes.Keys
  {
    var t := TaskGraph(g);
    forall n | n in t.nodes ensures t.NodeValid(n) {
      assert g.NodeValid(n);
    }
    forall a, b | a in g.nodes && b in g.nodes ensures t.Uses(b, a) <==> g.Uses(b, a) {}
  }

  lemma SameSlice<V>(g: Dag<V>, q: Query, finals: seq<Name>, order: seq<Name>)
    requires g.Valid() && g.Linked() && TaskGraph(g).Valid() && RequestsIn(finals, g.nodes.Keys)
    requires forall n :: n in order <==> n in Slice(g, q, finals)
    ensures Slice(TaskGraph(g), q, order) == Slice(g, q, finals)
  {
    hide Slice, Skipped;
    SliceClosed(g, q, finals);
    assert RequestsIn(order, g.nodes.Keys) && RequestsIn(order, Slice(g, q, finals)) by {
      forall i | 0 <= i < |order| ensures order[i] in Slice(g, q, finals) {
        assert order[i] in order;
      }
    }
    SkippedAlike(g, q);
    assert ClosedUpstream(TaskGraph(g), q, Slice(g, q, finals));
    SliceLeast(TaskGraph(g), q, order, Slice(g, q, finals));
    SliceClosed(TaskGraph(g), q, order);
    forall n | n in Slice(g, q, finals) ensures n in Slice(TaskGraph(g), q, order) {
      var i :| 0 <= i < |order| && order[i] == n;
    }
  }

  lemma SkippedAlike<V>(g: Dag<V>, q: Query)
    requires g.Valid()
    ensures forall dep: Dep :: dep.name in g.nodes ==> Skipped(TaskGraph(g), q, dep) == Skipped(g, q, dep)
  {}

  /** If only inputs can be missed, that is the first error. */
  lemma {:induction false} FirstErrorIsMissing<V(!new)>(g: Dag<V>, ctx: Context<V>, targets: seq<Name>)
    requires g.Valid() && NeverRaises(g) && forall i :: 0 <= i < |targets| ==> targets[i] in g.nodes
    ensures E.NoCallFailed(E.FirstError(g, ctx, targets))
  {
    hide Eval, NeverRaises;
    if targets != [] {
      var n := |targets| - 1;
      FirstErrorIsMissing(g, ctx, targets[..n]);
      OnlyMissing(g, ctx, targets[n]);
    }
  }

  /** The tasks created so far: what they wait for is created too, or given, or may be absent. */
  lemma {:induction false} CreatedTasksAreValid<V>(g: Dag<V>, ctx: Context<V>, p: E.Plan<Handle<V>>,
                                                   m: E.Memo<Handle<V>>, hooks: Hooks)
    requires g.Valid() && E.Good(p, m) && p.g == TaskGraph(g) && p.ctx == RawContext(ctx) && p.given == map[]
    ensures Job(g, ctx, (set n | n in m.calls), hooks).Valid()
  {
    hide E.Good, Slice, Dag<V>.Valid, Job<V>.Valid, Job<V>.Raw;
    var job := Job(g, ctx, (set n | n in m.calls), hooks);
    CallsAreFunctions(p, m);
    forall n, i | n in job.tasks && 0 <= i < |g.nodes[n].deps| ensures Served(job, n, i) {
      CreatedWaitsFor(g, ctx, p, m, n, i);
      ServedIf(job, n, i);
    }
    AllServed(job);
  }

  /** What task n awaits at index i is a task, a raw value, or optional and absent. */
  ghost predicate Served<V>(job: Job<V>, n: Name, i: nat)
    requires n in job.g.nodes && i < |job.g.nodes[n].deps|
  {
    var dep := job.g.nodes[n].deps[i];
    && dep.name in job.g.nodes
    && (dep.name in job.tasks || job.Raw(dep.name).Some? || (job.g.nodes[dep.name].external && !dep.required))
  }

  lemma ServedIf<V>(job: Job<V>, n: Name, i: nat)
    requires n in job.g.nodes && i < |job.g.nodes[n].deps|
    requires var dep := job.g.nodes[n].deps[i];
             && dep.name in job.g.nodes
             && (|| dep.name in job.tasks || dep.name in job.ctx.overrides
                 || (job.g.nodes[dep.name].external && (dep.name in job.ctx.inputs || !dep.required)))
    ensures Served(job, n, i)
  {}

  lemma AllServed<V>(job: Job<V>)
    requires job.g.Valid() && job.tasks <= job.g.nodes.Keys
    requires forall n :: n in job.tasks ==> !job.g.nodes[n].external && n !in job.ctx.overrides
    requires forall n, i :: n in job.tasks && 0 <= i < |job.g.nodes[n].deps| ==> Served(job, n, i)
    ensures job.Valid()
  {
    hide Dag<V>.Valid;
    forall n, i | n in job.tasks && 0 <= i < |job.g.nodes[n].deps|
      ensures var dep := job.g.nodes[n].deps[i];
              && dep.name in job.g.nodes
              && (dep.name in job.tasks || job.Raw(dep.name).Some? || (job.g.nodes[dep.name].external && !dep.required))
    {
      assert Served(job, n, i);
    }
  }

  lemma CallsAreFunctions<V>(p: E.Plan<V>, m: E.Memo<V>)
    requires E.Good(p, m)
    ensures forall n :: n in m.calls ==>
              && n in p.g.nodes && n in m.done && n in Slice(p.g, p.query, p.targets)
              && p.CallsNode(n) && !p.g.nodes[n].external && n !in p.ctx.overrides
  {
    hide E.ValuesRight, E.PrunedIsSpent, E.ArgumentsDone, Slice, Dag<V>.Linked, Distinct;
  }

  lemma {:induction false} CreatedWaitsFor<V>(g: Dag<V>, ctx: Context<V>, p: E.Plan<Handle<V>>, m: E.Memo<Handle<V>>,
                                              n: Name, i: nat)
    requires g.Valid() && E.Good(p, m) && p.g == TaskGraph(g) && p.ctx == RawContext(ctx) && p.given == map[]
    requires n in m.calls && n in g.nodes && n in m.done && p.CallsNode(n) && i < |g.nodes[n].deps|
    ensures var dep := g.nodes[n].deps[i];
            && dep.name in g.nodes
            && (|| dep.name in m.calls || dep.name in ctx.overrides
                || (g.nodes[dep.name].external && (dep.name in ctx.inputs || !dep.required)))
  {
    hide Slice, Gather, Eval, Dag<V>.Linked, E.PrunedIsSpent;
    var dep := g.nodes[n].deps[i];
    assert p.g.nodes[n].deps[i] == dep && g.NodeValid(n);
    assert Eval(p.g, p.ctx, n).Value? && E.ArgsIn(p, m.done, n);
    E.CompleteGather(p.g, p.ctx, n);
    E.GatheredArgument(p.g, p.ctx, n, i);
    if g.nodes[dep.name].external || dep.name in ctx.overrides {
      NoTask(p.g, p.ctx, dep.name);
    } else {
      E.NeverAbsent(p.g, p.ctx, dep.name);
    }
  }

  /** A valid job of the slice means no node of the slice stops the walk. */
  lemma {:induction false} NothingStopsTheWalk<V(!new)>(g: Dag<V>, ctx: Context<V>, tasks: set<Name>, hooks: Hooks,
                                                        targets: seq<Name>)
    requires TaskGraph(g).Valid() && NeverRaises(TaskGraph(g)) && Job(g, ctx, tasks, hooks).Valid()
    requires forall i :: 0 <= i < |targets| ==>
               && targets[i] in TaskGraph(g).nodes
               && (targets[i] in tasks || TaskGraph(g).nodes[targets[i]].external ||
                    targets[i] in RawContext(ctx).overrides)
    ensures E.FirstError(TaskGraph(g), RawContext(ctx), targets).None?
  {
    hide Eval, NeverRaises, Dag<V>.Valid, Job<V>.Valid, TaskGraph, RawContext;
    if targets != [] {
      var n := |targets| - 1;
      NothingStopsTheWalk(g, ctx, tasks, hooks, targets[..n]);
      StepGoesOn(g, ctx, tasks, hooks, targets[n]);
    }
  }

  lemma {:induction false} StepGoesOn<V(!new)>(g: Dag<V>, ctx: Context<V>, tasks: set<Name>, hooks: Hooks, f: Name)
    requires TaskGraph(g).Valid() && NeverRaises(TaskGraph(g)) && Job(g, ctx, tasks, hooks).Valid()
    requires f in TaskGraph(g).nodes
    requires f in tasks || TaskGraph(g).nodes[f].external || f in RawContext(ctx).overrides
    ensures E.Demand(Eval(TaskGraph(g), RawContext(ctx), f), f, !TaskGraph(g).nodes[f].external).None?
  {
    hide Eval, NeverRaises;
    var t, c := TaskGraph(g), RawContext(ctx);
    if f in tasks {
      TaskJobValid(g, ctx, tasks, hooks);
      TaskNeverStuck(Job(t, c, tasks, hooks), f);
      OnlyMissing(t, c, f);
      E.NeverAbsent(t, c, f);
    } else {
      NoTask(t, c, f);
    }
  }

  lemma TaskJobValid<V>(g: Dag<V>, ctx: Context<V>, tasks: set<Name>, hooks: Hooks)
    requires TaskGraph(g).Valid() && Job(g, ctx, tasks, hooks).Valid()
    ensures Job(TaskGraph(g), RawContext(ctx), tasks, hooks).Valid()
  {
    var raw := Job(TaskGraph(g), RawContext(ctx), tasks, hooks);
    forall n, i | n in tasks && 0 <= i < |raw.g.nodes[n].deps| ensures Served(raw, n, i) {
      AlsoServed(g, ctx, tasks, hooks, n, i);
    }
    hide Dag<V>.Valid, Job<V>.Valid;
    AllServed(raw);
  }

  lemma AlsoServed<V>(g: Dag<V>, ctx: Context<V>, tasks: set<Name>, hooks: Hooks, n: Name, i: nat)
    requires Job(g, ctx, tasks, hooks).Valid() && n in tasks && i < |g.nodes[n].deps|
    ensures Served(Job(TaskGraph(g), RawContext(ctx), tasks, hooks), n, i)
  {
    assert g.NodeValid(n);
  }

  /**
   * The call of `graph.execute` in `raw_execute`, over the nodes of the slice in whatever order. It goes
   * through exactly if what every task of the slice awaits is there; if not it raises for a missing input,
   * and the tasks created until then await only what is there.
   */
  method CreateTasks<V(!new)>(g: Dag<V>, q: Query, ctx: Context<V>, order: seq<Name>, ghost finals: seq<Name>,
                              ghost hooks: Hooks)
    returns (tasks: set<Name>, error: Option<EvalError>)
    requires g.Valid() && g.Linked() && Describes(q, ctx) && RequestsIn(finals, g.nodes.Keys)
    requires forall n :: n in order <==> n in Slice(g, q, finals)
    ensures error.None? <==> SliceJob(g, q, ctx, finals, hooks).Valid()
    ensures error.Some? ==> error.value.MissingInput?
    ensures error.None? ==> tasks == SliceJob(g, q, ctx, finals, hooks).tasks
    ensures tasks <= SliceJob(g, q, ctx, finals, hooks).tasks && Job(g, ctx, tasks, hooks).Valid()
  {
    hide Slice, SliceJob, Eval, NeverRaises, TaskPlan, E.Good, E.FirstError, E.NoCallFailed;
    hide Dag<V>.Valid, Dag<V>.Linked, Job<V>.Valid, E.Plan<Handle<V>>.Valid;
    var plan := TaskPlan(g, q, ctx, order);
    TaskPlanValid(g, q, ctx, finals, order);
    var run := new E.SubdagRun(plan);
    error := run.Execute();
    tasks := set n | n in run.calls;
    FirstErrorIsMissing(plan.g, plan.ctx, plan.targets);
    WhatWasCreated(g, q, ctx, finals, order, run.Now(), hooks, error);
  }

  function TaskPlan<V>(g: Dag<V>, q: Query, ctx: Context<V>, order: seq<Name>): E.Plan<Handle<V>> {
    E.Plan(TaskGraph(g), RawContext(ctx), RawContext(ctx).overrides, map[], q, order)
  }

  lemma TaskPlanValid<V(!new)>(g: Dag<V>, q: Query, ctx: Context<V>, finals: seq<Name>, order: seq<Name>)
    requires g.Valid() && g.Linked() && Describes(q, ctx) && RequestsIn(finals, g.nodes.Keys)
    requires forall n :: n in order <==> n in Slice(g, q, finals)
    ensures var p := TaskPlan(g, q, ctx, order);
            && p.Valid() && p.g.Valid() && NeverRaises(p.g)
            && (forall i :: 0 <= i < |p.targets| ==> p.targets[i] in p.g.nodes)
            && Slice(p.g, q, order) == Slice(g, q, finals)
  {
    hide Slice, Dag<V>.Valid, Dag<V>.Linked, NeverRaises;
    TaskGraphValid(g);
    SameSlice(g, q, finals, order);
    forall i | 0 <= i < |order| ensures order[i] in g.nodes { assert order[i] in order; }
    var c := RawContext(ctx);
    assert c.overrides + map[] == c.overrides;
  }

  lemma CreatedAreOfTheSlice<V>(g: Dag<V>, q: Query, ctx: Context<V>, finals: seq<Name>, order: seq<Name>,
                                m: E.Memo<Handle<V>>, hooks: Hooks)
    requires g.Valid()
    requires var p := TaskPlan(g, q, ctx, order);
        p.g.Valid() && Slice(p.g, q, order) == Slice(g, q, finals) && E.Good(p, m)
    ensures var p, job := TaskPlan(g, q, ctx, order), SliceJob(g, q, ctx, finals, hooks);
            && (set n | n in m.calls) <= job.tasks
            && ((forall n :: n in m.calls <==> n in Slice(p.g, p.query, p.targets) && p.CallsNode(n)) ==>
                  (set n | n in m.calls) == job.tasks)
  {
    var p := TaskPlan(g, q, ctx, order);
    hide Slice, E.Good, Dag<V>.Valid;
    CallsAreFunctions(p, m);
  }

  lemma {:induction false} WhatWasCreated<V(!new)>(g: Dag<V>, q: Query, ctx: Context<V>, finals: seq<Name>,
                                                   order: seq<Name>, m: E.Memo<Handle<V>>, hooks: Hooks,
                                                   error: Option<EvalError>)
    requires g.Valid() && RequestsIn(finals, g.nodes.Keys)
    requires forall n :: n in order <==> n in Slice(g, q, finals)
    requires var p := TaskPlan(g, q, ctx, order);
             && p.g.Valid() && NeverRaises(p.g)
             && Slice(p.g, q, order) == Slice(g, q, finals)
             && E.Good(p, m)
             && (forall i :: 0 <= i < |p.targets| ==> p.targets[i] in p.g.nodes)
             && error == E.FirstError(p.g, p.ctx, p.targets) && E.NoCallFailed(error)
             && (error.None? ==> forall n :: n in m.calls <==> n in Slice(p.g, p.query, p.targets) && p.CallsNode(n))
    ensures error.None? <==> SliceJob(g, q, ctx, finals, hooks).Valid()
    ensures error.Some? ==> error.value.MissingInput?
    ensures error.None? ==> (set n | n in m.calls) == SliceJob(g, q, ctx, finals, hooks).tasks
    ensures (set n | n in m.calls) <= SliceJob(g, q, ctx, finals, hooks).tasks
    ensures Job(g, ctx, (set n | n in m.calls), hooks).Valid()
  {
    var job := SliceJob(g, q, ctx, finals, hooks);
    var p := TaskPlan(g, q, ctx, order);
    hide Slice, Eval, E.Good, Job<V>.Valid, NeverRaises, E.FirstError, Dag<V>.Valid;
    CreatedTasksAreValid(g, ctx, p, m, hooks);
    CreatedAreOfTheSlice(g, q, ctx, finals, order, m, hooks);
    if job.Valid() {
      forall i | 0 <= i < |order|
        ensures order[i] in job.tasks || p.g.nodes[order[i]].external || order[i] in p.ctx.overrides
      {
        assert order[i] in order;
      }
      NothingStopsTheWalk(g, ctx, job.tasks, hooks, order);
    }
  }

  /**
   * Tasks left behind by a run that raised are not lost: on every schedule they come to an end with what
   * plain evaluation gives their nodes, though nobody collects it.
   */
  lemma {:induction false} LeftBehindTasksFinish<V>(job: Job<V>, steps: seq<Step>, end: State<V>)
    requires job.Valid() && SilentHooks(job.hooks) && Schedule(job, Initial(job), steps, end)
    ensures |steps| <= 5 * |job.tasks|
    ensures Complete(job, end) <==> !exists step :: Enabled(job, end, step)
    ensures Complete(job, end) ==> forall n :: n in job.tasks ==>
              && n in job.g.nodes && n in end.phases && !Stuck(Eval(job.g, job.ctx, n))
              && (if Eval(job.g, job.ctx, n).Value? then end.phases[n] == Done(Eval(job.g, job.ctx, n).value)
                  else end.phases[n].Failed?)
  {
    hide Schedule, Enabled, Complete, Eval, Initial, SilentHooks, Job<V>.Valid;
    EveryScheduleEnds(job, steps, end);
    TasksAreNodes(job);
    if Complete(job, end) {
      forall n | n in job.tasks
        ensures n in end.phases && !Stuck(Eval(job.g, job.ctx, n))
        ensures if Eval(job.g, job.ctx, n).Value? then end.phases[n] == Done(Eval(job.g, job.ctx, n).value)
                else end.phases[n].Failed?
      {
        SettledTask(job, end, n);
        TaskResult(job, steps, end, n);
        TaskNeverStuck(job, n);
      }
    }
  }

  lemma TasksAreNodes<V>(job: Job<V>)
    requires job.Valid()
    ensures job.g.Valid() && job.tasks <= job.g.nodes.Keys
  {}

  // ---------------------------------------------------------------- the whole run

  /** The key of a requested name is not in the memo: no node, or an input nobody supplied. */
  predicate Unheld<V>(g: Dag<V>, ctx: Context<V>, f: Name) {
    f !in g.nodes || (g.nodes[f].external && f !in ctx.overrides && f !in ctx.inputs)
  }

  ghost function RunJob<V>(g: Dag<V>, q: Query, ctx: Context<V>, finals: seq<Name>, hooks: Hooks): Job<V>
    requires g.Valid()
  {
    SliceJob(g, q, ctx, E.KnownTargets(g, finals), hooks)
  }

  /**
   * Any request whose tasks could all be created, under hooks that do not raise: on every schedule the event
   * loop stops within five steps a task, and once no task can move, all of them have settled. If a requested name
   * is not in the memo the run raises a KeyError; otherwise the results are the values of plain evaluation, and the
   * run raises exactly if plain evaluation of a request meets a failing call.
   */
  lemma {:induction false} AsyncRun<V>(g: Dag<V>, q: Query, ctx: Context<V>, finals: seq<Name>, hooks: Hooks,
                                       steps: seq<Step>, end: State<V>)
    requires g.Valid() && Describes(q, ctx)
    requires RunJob(g, q, ctx, finals, hooks).Valid() && SilentHooks(hooks)
    requires Schedule(RunJob(g, q, ctx, finals, hooks), Initial(RunJob(g, q, ctx, finals, hooks)), steps, end)
    ensures var job := RunJob(g, q, ctx, finals, hooks);
            && |steps| <= 5 * |job.tasks|
            && (Complete(job, end) <==> !exists step :: Enabled(job, end, step))
            && (Complete(job, end) ==> AsPlainEvaluation(g, ctx, finals, Collect(job, end, finals)))
  {
    hide Schedule, Enabled, Complete, Slice, Skipped, Eval, AsPlainEvaluation, Job<V>.Valid, SliceJob;
    hide Collect, Initial, InMemo, SilentHooks, Describes, E.KnownTargets;
    var job := RunJob(g, q, ctx, finals, hooks);
    EveryScheduleEnds(job, steps, end);
    if Complete(job, end) {
      OfTheJob(g, q, ctx, finals, hooks);
      AsyncMatchesSequential(job, steps, end, finals);
      ResultsArePlain(g, q, ctx, finals, hooks, Collect(job, end, finals));
    }
  }

  lemma OfTheJob<V>(g: Dag<V>, q: Query, ctx: Context<V>, finals: seq<Name>, hooks: Hooks)
    requires g.Valid()
    ensures var job := RunJob(g, q, ctx, finals, hooks); job.g == g && job.ctx == ctx && job.hooks == hooks
  {}

  /** How the run ends, against plain evaluation of the requests. */
  ghost predicate AsPlainEvaluation<V>(g: Dag<V>, ctx: Context<V>, finals: seq<Name>, r: Results<V>)
    requires g.Valid()
  {
    && (r.NotInMemo? <==> exists i :: 0 <= i < |finals| && Unheld(g, ctx, finals[i]))
    && (r.NotInMemo? ==> r.name in finals && Unheld(g, ctx, r.name))
    && (r.TaskFailed? <==>
          && (forall i :: 0 <= i < |finals| ==> !Unheld(g, ctx, finals[i]))
          && exists i :: 0 <= i < |finals| && CallFails(Eval(g, ctx, finals[i])))
    && (r.Results? ==>
          && r.values.Keys == (set f | f in finals)
          && forall f :: f in finals ==> f in g.nodes && Eval(g, ctx, f) == Value(r.values[f]))
  }

  predicate CallFails<V>(e: EvalResult<V>) {
    e.Error? && e.error.CallFailed?
  }

  /** A request that is a node is a task or a raw value, unless it is an input nobody supplied. */
  lemma HeldInMemo<V>(g: Dag<V>, q: Query, ctx: Context<V>, finals: seq<Name>, hooks: Hooks, i: nat)
    requires g.Valid() && i < |finals|
    ensures var job := RunJob(g, q, ctx, finals, hooks);
            (finals[i] in job.tasks || job.Raw(finals[i]).Some?) <==> !Unheld(g, ctx, finals[i])
  {
    var known := E.KnownTargets(g, finals);
    if finals[i] in g.nodes {
      E.KnownIn(g.nodes.Keys, finals, finals[i]);
      var k :| 0 <= k < |known| && known[k] == finals[i];
      RequestsInSlice(g, q, known, k);
    }
    hide Slice;
  }

  /** Evaluating what is held gives a value or meets a failing call. */
  lemma HeldEvaluates<V>(g: Dag<V>, q: Query, ctx: Context<V>, finals: seq<Name>, hooks: Hooks, i: nat)
    requires g.Valid() && i < |finals| && RunJob(g, q, ctx, finals, hooks).Valid() && !Unheld(g, ctx, finals[i])
    ensures Eval(g, ctx, finals[i]).Value? || CallFails(Eval(g, ctx, finals[i]))
  {
    hide Eval, Slice, Job<V>.Valid;
    var job := RunJob(g, q, ctx, finals, hooks);
    HeldInMemo(g, q, ctx, finals, hooks, i);
    if finals[i] in job.tasks {
      TaskNeverStuck(job, finals[i]);
      E.NeverAbsent(g, ctx, finals[i]);
    } else {
      NoTask(g, ctx, finals[i]);
    }
  }

  lemma {:induction false} ResultsArePlain<V>(g: Dag<V>, q: Query, ctx: Context<V>, finals: seq<Name>, hooks: Hooks,
                                              r: Results<V>)
    requires g.Valid() && RunJob(g, q, ctx, finals, hooks).Valid()
    requires var job := RunJob(g, q, ctx, finals, hooks);
             && (r.NotInMemo? <==> !InMemo(job, finals))
             && (r.NotInMemo? ==> r.name in finals && r.name !in job.tasks && job.Raw(r.name).None?)
             && (r.Results? <==>
                   && InMemo(job, finals)
                   && forall i :: 0 <= i < |finals| ==> finals[i] in g.nodes && Eval(g, ctx, finals[i]).Value?)
             && (r.Results? ==>
                   && r.values.Keys == (set f | f in finals)
                   && forall f :: f in finals ==> f in g.nodes && Eval(g, ctx, f) == Value(r.values[f]))
    ensures AsPlainEvaluation(g, ctx, finals, r)
  {
    hide Eval, RunJob, Job<V>.Valid, Job<V>.Raw, Unheld;
    var job := RunJob(g, q, ctx, finals, hooks);
    forall i | 0 <= i < |finals|
      ensures (finals[i] in job.tasks || job.Raw(finals[i]).Some?) <==> !Unheld(g, ctx, finals[i])
      ensures !Unheld(g, ctx, finals[i]) ==> finals[i] in g.nodes
      ensures !Unheld(g, ctx, finals[i]) ==> Eval(g, ctx, finals[i]).Value? || CallFails(Eval(g, ctx, finals[i]))
    {
      HeldInMemo(g, q, ctx, finals, hooks, i);
      HeldIsNode(g, ctx, finals[i]);
      if !Unheld(g, ctx, finals[i]) {
        HeldEvaluates(g, q, ctx, finals, hooks, i);
      }
    }
    if r.NotInMemo? {
      var i :| 0 <= i < |finals| && finals[i] == r.name;
    }
  }

  lemma HeldIsNode<V>(g: Dag<V>, ctx: Context<V>, f: Name)
    ensures !Unheld(g, ctx, f) ==> f in g.nodes
  {}

  lemma RequestsInSlice<V>(g: Dag<V>, q: Query, finals: seq<Name>, i: nat)
    requires g.Valid() && i < |finals| && RequestsIn(finals, g.nodes.Keys)
    ensures finals[i] in Slice(g, q, finals)
  {
    SliceClosed(g, q, finals);
  }

  // ---------------------------------------------------------------- against the default executor

  /**
   * Where both drivers hand back results they are the same; they differ exactly on a request whose key is not in
   * the memo. There this driver raises, and the default executor hands back the runtime input of that name or None.
   */
  lemma AgainstTheDefault<V>(g: Dag<V>, q: Query, ctx: Context<V>, inputs: map<Name, V>, finals: seq<Name>,
                             hooks: Hooks, r: Results<V>)
    requires g.Valid() && RunJob(g, q, ctx, finals, hooks).Valid() && AsPlainEvaluation(g, ctx, finals, r)
    ensures r.Results? <==>
              && E.FirstError(g, ctx, E.KnownTargets(g, finals)).None?
              && forall i :: 0 <= i < |finals| ==> !Unheld(g, ctx, finals[i])
    ensures r.Results? ==> forall f :: f in finals ==> E.Meaning(g, ctx, inputs, f) == Some(r.values[f])
    ensures r.NotInMemo? ==>
              E.Meaning(g, ctx, inputs, r.name) ==
              if r.name in inputs && r.name !in g.nodes then Some(inputs[r.name]) else None
  {
    hide Eval, E.KnownTargets, E.FirstError, RunJob, Job<V>.Valid;
    forall i | 0 <= i < |finals| && !Unheld(g, ctx, finals[i])
      ensures finals[i] in g.nodes && (Eval(g, ctx, finals[i]).Value? || CallFails(Eval(g, ctx, finals[i])))
    {
      HeldEvaluates(g, q, ctx, finals, hooks, i);
    }
    var known := E.KnownTargets(g, finals);
    NoErrorIff(g, ctx, known);
    KnownAre(g, finals);
    if r.NotInMemo? && r.name in g.nodes {
      NoTask(g, ctx, r.name);
    }
  }

  lemma KnownAre<V>(g: Dag<V>, finals: seq<Name>)
    ensures var known := E.KnownTargets(g, finals);
            && (forall k :: 0 <= k < |known| ==> known[k] in finals && known[k] in g.nodes)
            && forall f :: f in finals && f in g.nodes ==> f in known
  {
    var known := E.KnownTargets(g, finals);
    forall k | 0 <= k < |known| ensures known[k] in finals && known[k] in g.nodes {
      KnownMembers(g.nodes.Keys, finals, k);
    }
    forall f | f in finals && f in g.nodes ensures f in known {
      E.KnownIn(g.nodes.Keys, finals, f);
    }
  }

  lemma {:induction false} NoErrorIff<V>(g: Dag<V>, ctx: Context<V>, targets: seq<Name>)
    requires g.Valid() && forall i :: 0 <= i < |targets| ==> targets[i] in g.nodes
    ensures E.FirstError(g, ctx, targets).None? <==> forall i :: 0 <= i < |targets| ==> !Eval(g, ctx, targets[i]).Error?
  {
    hide Eval;
    if targets != [] {
      var n := |targets| - 1;
      NoErrorIff(g, ctx, targets[..n]);
      assert forall i :: 0 <= i < n ==> targets[..n][i] == targets[i];
      if !g.nodes[targets[n]].external {
        E.NeverAbsent(g, ctx, targets[n]);
      }
    }
  }
}
