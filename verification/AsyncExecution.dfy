/**
 * hamilton/async_driver.py: every function node becomes a task that awaits its inputs, and the event
 * loop may advance any task that is ready. What all schedules have in common.
 */
module AsyncExecution {
  import opened Prelude
  import opened Dataflow

  /** Which async hooks are registered, and for which nodes they raise. */
  datatype Hooks = Hooks(pre: bool, post: bool, preRaises: Name -> bool, postRaises: Name -> bool)

  /** One execution: the graph, its context, and the nodes that became tasks. */
  datatype Job<!V> = Job(g: Dag<V>, ctx: Context<V>, tasks: set<Name>, hooks: Hooks)
  {
    /**
     * Tasks are function nodes that are not overridden; what they depend on is a task, a raw value,
     * or optional and absent.
     */
    ghost predicate Valid() {
      && g.Valid()
      && tasks <= g.nodes.Keys
      && (forall n :: n in tasks ==> !g.nodes[n].external && n !in ctx.overrides)
      && (forall n, i :: n in tasks && 0 <= i < |g.nodes[n].deps| ==>
            var dep := g.nodes[n].deps[i];
            dep.name in tasks || Raw(dep.name).Some? || (g.nodes[dep.name].external && !dep.required))
    }

    /** A value in the memo that is no task: an override or an input. */
    function Raw(d: Name): Option<V> {
      if d !in g.nodes then None
      else if d in ctx.overrides then Some(ctx.overrides[d])
      else if g.nodes[d].external && d in ctx.inputs then Some(ctx.inputs[d])
      else None
    }

    /** The graph whose functions include their hooks: a hook that raises fails the node. */
    function Hooked(): Dag<V> {
      g.(nodes := map n | n in g.nodes :: HookedNode(n))
    }

    function HookedNode(n: Name): NodeDef<V>
      requires n in g.nodes
    {
      var node := g.nodes[n];
      node.(fn := args =>
        if hooks.pre && hooks.preRaises(n) then Raised("pre_node_execute")
        else
          match node.fn(args)
          case Raised(e) => Raised(e)
          case Returned(v) => if hooks.post && hooks.postRaises(n) then Raised("post_node_execute") else Returned(v))
    }

    lemma HookedValid()
      requires g.Valid()
      ensures Hooked().Valid() && Hooked().nodes.Keys == g.nodes.Keys && Hooked().rank == g.rank
      ensures forall n :: n in g.nodes ==>
                && Hooked().nodes[n].deps == g.nodes[n].deps && Hooked().nodes[n].external == g.nodes[n].external
                && Hooked().nodes[n].defaults == g.nodes[n].defaults
    {
      assert forall n :: n in g.nodes ==> g.NodeValid(n) ==> Hooked().NodeValid(n);
    }

    /** What plain evaluation of the hooked graph makes of a node. */
    function Meaning(n: Name): EvalResult<V>
      requires g.Valid() && n in g.nodes
    {
      HookedValid();
      Eval(Hooked(), ctx, n)
    }

    /** What it makes of the first k arguments of a node. */
    function Arguments(n: Name, k: nat): Gathered<V>
      requires g.Valid() && n in g.nodes && k <= |g.nodes[n].deps|
    {
      HookedValid();
      Gather(Hooked(), ctx, n, k)
    }
  }

  /** Where a task stands in `new_fn`. */
  datatype Phase<+V> =
    | Waiting
    | Resolved(kwargs: Dict<Name, V>)
    | PreDone(kwargs: Dict<Name, V>)
    | Running(kwargs: Dict<Name, V>)
    | Called(outcome: Outcome<V>)
    | Done(value: V)
    | Failed(origin: Name)

  datatype HookEvent =
    | PreHook(node: Name)
    | CallStarts(node: Name)
    | CallEnds(node: Name, success: bool)
    | PostHook(node: Name, success: bool)

  datatype State<+V> = State(phases: map<Name, Phase<V>>, trace: seq<HookEvent>)

  function Initial<V>(job: Job<V>): State<V> {
    State(map n | n in job.tasks :: Waiting, [])
  }

  predicate Settled<V>(p: Phase<V>) {
    p.Done? || p.Failed?
  }

  /** One scheduling choice: let task n go on, or let it see that its dependency at index i failed. */
  datatype Step = Advance(node: Name) | Abort(node: Name, index: nat)

  /** The value of a dependency once it has one. */
  function Available<V>(job: Job<V>, s: State<V>, d: Name): Option<V> {
    if d in s.phases then (if s.phases[d].Done? then Some(s.phases[d].value) else None)
    else job.Raw(d)
  }

  ghost predicate InputsReady<V>(job: Job<V>, s: State<V>, n: Name)
    requires n in job.g.nodes
  {
    forall i :: 0 <= i < |job.g.nodes[n].deps| ==>
      job.g.nodes[n].deps[i].name in s.phases ==> s.phases[job.g.nodes[n].deps[i].name].Done?
  }

  /** The keyword arguments from the first k dependencies. */
  function Kwargs<V>(job: Job<V>, s: State<V>, n: Name, k: nat): Dict<Name, V>
    requires n in job.g.nodes && k <= |job.g.nodes[n].deps|
  {
    if k == 0 then []
    else
      var d := job.g.nodes[n].deps[k - 1].name;
      Kwargs(job, s, n, k - 1) + if Available(job, s, d).Some? then [(d, Available(job, s, d).value)] else []
  }

  ghost predicate Enabled<V>(job: Job<V>, s: State<V>, step: Step) {
    match step
    case Advance(n) =>
      && n in s.phases && n in job.g.nodes && !Settled(s.phases[n])
      && (s.phases[n].Waiting? ==> InputsReady(job, s, n))
    case Abort(n, i) =>
      && n in s.phases && n in job.g.nodes && s.phases[n].Waiting?
      && i < |job.g.nodes[n].deps|
      && var d := job.g.nodes[n].deps[i].name; d in s.phases && s.phases[d].Failed?
  }

  /** The next phase of a task that goes on, and what hooks or calls happen on the way. */
  function Next<V>(job: Job<V>, s: State<V>, n: Name): (Phase<V>, seq<HookEvent>)
    requires n in s.phases && n in job.g.nodes
  {
    var hooks := job.hooks;
    match s.phases[n]
    case Waiting => (Resolved(Kwargs(job, s, n, |job.g.nodes[n].deps|)), [])
    case Resolved(kwargs) =>
      if !hooks.pre then (PreDone(kwargs), [])
      else (if hooks.preRaises(n) then Failed(n) else PreDone(kwargs), [PreHook(n)])
    case PreDone(kwargs) => (Running(kwargs), [CallStarts(n)])
    case Running(kwargs) =>
      var outcome := Call(job.g.nodes[n], kwargs);
      (Called(outcome), [CallEnds(n, outcome.Returned?)])
    case Called(outcome) =>
      var events := if hooks.post then [PostHook(n, outcome.Returned?)] else [];
      if outcome.Raised? || (hooks.post && hooks.postRaises(n)) then (Failed(n), events)
      else (Done(outcome.value), events)
    case p => (p, [])
  }

  ghost function Apply<V>(job: Job<V>, s: State<V>, step: Step): State<V>
    requires Enabled(job, s, step)
  {
    match step
    case Advance(n) =>
      var (phase, events) := Next(job, s, n);
      State(s.phases[n := phase], s.trace + events)
    case Abort(n, i) =>
      State(s.phases[n := Failed(s.phases[job.g.nodes[n].deps[i].name].origin)], s.trace)
  }

  // ---------------------------------------------------------------- the invariant

  /** Everything n awaits has arrived, and these are the arguments. */
  ghost predicate HasArguments<V>(job: Job<V>, n: Name, kwargs: Dict<Name, V>)
    requires job.g.Valid() && n in job.g.nodes
  {
    job.Arguments(n, |job.g.nodes[n].deps|) == Gathered.Kwargs(kwargs)
  }

  ghost predicate ArgumentsArrive<V>(job: Job<V>, n: Name)
    requires job.g.Valid() && n in job.g.nodes
  {
    job.Arguments(n, |job.g.nodes[n].deps|).Kwargs?
  }

  predicate PreFails<V>(job: Job<V>, n: Name) {
    job.hooks.pre && job.hooks.preRaises(n)
  }

  /** n fails by itself: its arguments arrive, and its function or one of its hooks raises. */
  ghost predicate OwnFault<V>(job: Job<V>, n: Name)
    requires job.g.Valid()
  {
    n in job.tasks && n in job.g.nodes && ArgumentsArrive(job, n) && job.Meaning(n).Error?
  }

  function PreEvents<V>(job: Job<V>, n: Name): seq<HookEvent> {
    if job.hooks.pre then [PreHook(n)] else []
  }

  function PostEvents<V>(job: Job<V>, n: Name, success: bool): seq<HookEvent> {
    if job.hooks.post then [PostHook(n, success)] else []
  }

  /** The whole life of a task, as its hooks and its function see it. */
  function Life<V>(job: Job<V>, n: Name): seq<HookEvent>
    requires job.g.Valid() && n in job.g.nodes
  {
    match job.Arguments(n, |job.g.nodes[n].deps|)
    case Stopped(_) => []
    case Kwargs(kwargs) =>
      if PreFails(job, n) then PreEvents(job, n)
      else
        var success := Call(job.g.nodes[n], kwargs).Returned?;
        PreEvents(job, n) + [CallStarts(n), CallEnds(n, success)] + PostEvents(job, n, success)
  }

  /** The events of one node, in order. */
  function Of(trace: seq<HookEvent>, n: Name): seq<HookEvent> {
    if trace == [] then []
    else Of(trace[..|trace| - 1], n) + if trace[|trace| - 1].node == n then [trace[|trace| - 1]] else []
  }

  /** A task's phase agrees with what the graph means and with what was recorded of it. */
  ghost predicate PhaseOk<V>(job: Job<V>, n: Name, p: Phase<V>, events: seq<HookEvent>)
    requires job.g.Valid() && n in job.g.nodes
  {
    match p
    case Waiting => events == []
    case Resolved(kwargs) => HasArguments(job, n, kwargs) && events == []
    case PreDone(kwargs) => HasArguments(job, n, kwargs) && !PreFails(job, n) && events == PreEvents(job, n)
    case Running(kwargs) => HasArguments(job, n, kwargs) && !PreFails(job, n) &&
      events == PreEvents(job, n) + [CallStarts(n)]
    case Called(outcome) =>
      && ArgumentsArrive(job, n) && !PreFails(job, n)
      && outcome == Call(job.g.nodes[n], job.Arguments(n, |job.g.nodes[n].deps|).kwargs)
      && events == PreEvents(job, n) + [CallStarts(n), CallEnds(n, outcome.Returned?)]
    case Done(v) => job.Meaning(n) == Value(v) && events == Life(job, n)
    case Failed(origin) => job.Meaning(n).Error? && OwnFault(job, origin) && events == Life(job, n)
  }

  ghost predicate Inv<V>(job: Job<V>, s: State<V>) {
    && job.Valid()
    && s.phases.Keys == job.tasks
    && (forall n :: n in job.tasks ==> PhaseOk(job, n, s.phases[n], Of(s.trace, n)))
  }

  lemma InitialOk<V>(job: Job<V>)
    requires job.Valid()
    ensures Inv(job, Initial(job))
  {}

  /** A task's meaning follows from its arguments, its hooks and its function. */
  lemma MeaningOfTask<V>(job: Job<V>, n: Name)
    requires job.Valid() && n in job.tasks
    ensures match job.Arguments(n, |job.g.nodes[n].deps|)
            case Stopped(e) => job.Meaning(n) == Error(e)
            case Kwargs(kwargs) =>
              match Call(job.g.nodes[n], kwargs)
              case Raised(_) => job.Meaning(n).Error?
              case Returned(v) =>
                if PreFails(job, n) || (job.hooks.post && job.hooks.postRaises(n)) then job.Meaning(n).Error?
                else job.Meaning(n) == Value(v)
    ensures PreFails(job, n) ==> job.Meaning(n).Error?
  {
    hide Gather;
    job.HookedValid();
  }

  lemma TaskPhase<V>(job: Job<V>, s: State<V>, n: Name)
    requires Inv(job, s) && n in job.tasks
    ensures job.Valid() && n in s.phases && n in job.g.nodes && PhaseOk(job, n, s.phases[n], Of(s.trace, n))
  {
    hide PhaseOk, Of;
  }

  /** A settled task means what its phase says, and its life is over. */
  lemma SettledMeans<V>(job: Job<V>, n: Name, p: Phase<V>, events: seq<HookEvent>)
    requires job.Valid() && n in job.g.nodes && PhaseOk(job, n, p, events)
    ensures p.Done? ==> job.Meaning(n) == Value(p.value) && events == Life(job, n)
    ensures p.Failed? ==> job.Meaning(n).Error? && OwnFault(job, p.origin) && events == Life(job, n)
  {
    hide Job<V>.Valid, Job<V>.Meaning, Job<V>.Arguments, Life, OwnFault, HasArguments, ArgumentsArrive, PreFails, Call;
  }

  /** What is no task means its raw value, or is absent. */
  lemma RawMeaning<V>(job: Job<V>, d: Name)
    requires job.g.Valid() && d in job.g.nodes
    ensures job.Raw(d).Some? ==> job.Meaning(d) == Value(job.Raw(d).value)
    ensures job.Raw(d).None? && job.g.nodes[d].external ==> job.Meaning(d) == Absent
  {
    hide Gather;
    job.HookedValid();
  }

  /** What a dependency contributes, in terms of the state. */
  lemma DependencyMeaning<V>(job: Job<V>, s: State<V>, n: Name, i: nat)
    requires Inv(job, s) && n in job.tasks && i < |job.g.nodes[n].deps|
    ensures var dep := job.g.nodes[n].deps[i];
            && (dep.name in s.phases && s.phases[dep.name].Done? ==>
                 job.Meaning(dep.name) == Value(s.phases[dep.name].value))
            && (dep.name in s.phases && s.phases[dep.name].Failed? ==> job.Meaning(dep.name).Error?)
            && (dep.name !in s.phases && job.Raw(dep.name).Some? ==>
                 job.Meaning(dep.name) == Value(job.Raw(dep.name).value))
            && (dep.name !in s.phases && job.Raw(dep.name).None? ==> job.Meaning(dep.name) == Absent && !dep.required)
  {
    var dep := job.g.nodes[n].deps[i];
    assert dep.name in job.tasks || job.Raw(dep.name).Some? || (job.g.nodes[dep.name].external && !dep.required);
    hide PhaseOk, Life, OwnFault, Job<V>.Meaning, Job<V>.Raw;
    RawMeaning(job, dep.name);
    if dep.name in job.tasks {
      TaskPhase(job, s, dep.name);
      SettledMeans(job, dep.name, s.phases[dep.name], Of(s.trace, dep.name));
    }
  }

  lemma ArgumentsUnfold<V>(job: Job<V>, n: Name, k: nat)
    requires job.g.Valid() && n in job.g.nodes && k <= |job.g.nodes[n].deps|
    ensures k > 0 ==> job.g.nodes[n].deps[k - 1].name in job.g.nodes
    ensures job.Arguments(n, k) ==
            if k == 0 then Gathered.Kwargs([])
            else Extend(job.Arguments(n, k - 1), job.g.nodes[n].deps[k - 1],
              job.Meaning(job.g.nodes[n].deps[k - 1].name))
  {
    hide Eval, Gather, Extend;
    job.HookedValid();
    GatherUnfold(job.Hooked(), job.ctx, n, k);
  }

  /** The arguments a ready task collects are the ones the graph means. */
  lemma {:induction false} KwargsAreArguments<V>(job: Job<V>, s: State<V>, n: Name, k: nat)
    requires Inv(job, s) && n in job.tasks && InputsReady(job, s, n) && k <= |job.g.nodes[n].deps|
    ensures job.Arguments(n, k) == Gathered.Kwargs(Kwargs(job, s, n, k))
  {
    hide PhaseOk, Job<V>.Valid, Job<V>.Arguments, Job<V>.Meaning;
    ValidGraph(job);
    ArgumentsUnfold(job, n, k);
    if k > 0 {
      KwargsAreArguments(job, s, n, k - 1);
      DependencyMeaning(job, s, n, k - 1);
    }
  }

  lemma ValidGraph<V>(job: Job<V>)
    requires job.Valid()
    ensures job.g.Valid() && job.tasks <= job.g.nodes.Keys
  {}

  /** A failed dependency means the arguments never arrive. */
  lemma {:induction false} FailedDependency<V>(job: Job<V>, n: Name, i: nat, k: nat)
    requires job.Valid() && n in job.tasks && i < k <= |job.g.nodes[n].deps|
    requires job.Meaning(job.g.nodes[n].deps[i].name).Error?
    ensures job.Arguments(n, k).Stopped?
  {
    hide Job<V>.Valid, Job<V>.Arguments, Job<V>.Meaning;
    ValidGraph(job);
    ArgumentsUnfold(job, n, k);
    if i < k - 1 {
      FailedDependency(job, n, i, k - 1);
    }
  }

  lemma OfAppend(trace: seq<HookEvent>, events: seq<HookEvent>, n: Name)
    requires |events| <= 1
    ensures Of(trace + events, n) == Of(trace, n) + if events != [] && events[0].node == n then events else []
  {
    if events == [] {
      assert trace + events == trace;
    } else {
      assert (trace + events)[..|trace|] == trace;
    }
  }

  /** Any step of any task keeps the invariant. */
  lemma {:induction false} StepKeepsInv<V>(job: Job<V>, s: State<V>, step: Step)
    requires Inv(job, s) && Enabled(job, s, step)
    ensures Inv(job, Apply(job, s, step))
  {
    hide PhaseOk, Life, Next;
    var n := step.node;
    var s' := Apply(job, s, step);
    match step {
      case Abort(_, i) =>
        AbortOk(job, s, n, i);
      case Advance(_) =>
        var (phase, events) := Next(job, s, n);
        NextOk(job, s, n);
        forall m | m in job.tasks && m != n ensures Of(s'.trace, m) == Of(s.trace, m) {
          OfAppend(s.trace, events, m);
        }
    }
    forall m | m in job.tasks ensures PhaseOk(job, m, s'.phases[m], Of(s'.trace, m)) {
      assert PhaseOk(job, m, s.phases[m], Of(s.trace, m));
    }
  }

  lemma {:induction false} AbortOk<V>(job: Job<V>, s: State<V>, n: Name, i: nat)
    requires Inv(job, s) && Enabled(job, s, Abort(n, i))
    ensures PhaseOk(job, n, Failed(s.phases[job.g.nodes[n].deps[i].name].origin), Of(s.trace, n))
  {
    hide Job<V>.Valid, OwnFault;
    ValidGraph(job);
    var d := job.g.nodes[n].deps[i].name;
    DependencyMeaning(job, s, n, i);
    FailedDependency(job, n, i, |job.g.nodes[n].deps|);
    MeaningOfTask(job, n);
    assert PhaseOk(job, d, s.phases[d], Of(s.trace, d)) && PhaseOk(job, n, s.phases[n], Of(s.trace, n));
  }

  lemma {:induction false} NextOk<V>(job: Job<V>, s: State<V>, n: Name)
    requires Inv(job, s) && Enabled(job, s, Advance(n))
    ensures var (phase, events) := Next(job, s, n);
            && |events| <= 1 && (forall e :: e in events ==> e.node == n)
            && PhaseOk(job, n, phase, Of(s.trace + events, n))
  {
    hide Job<V>.Valid, Kwargs, Job<V>.Arguments, Job<V>.Meaning, Of, Call, OwnFault;
    ValidGraph(job);
    var (phase, events) := Next(job, s, n);
    OfAppend(s.trace, events, n);
    assert PhaseOk(job, n, s.phases[n], Of(s.trace, n));
    if s.phases[n].Waiting? {
      KwargsAreArguments(job, s, n, |job.g.nodes[n].deps|);
    } else {
      MeaningOfTask(job, n);
      if phase.Failed? {
        FailsByItself(job, n);
      }
      if s.phases[n].Called? {
        var success := s.phases[n].outcome.Returned?;
        assert Of(s.trace + events, n)
            == PreEvents(job, n) + [CallStarts(n), CallEnds(n, success)] + PostEvents(job, n, success);
      } else if s.phases[n].Resolved? {
        assert Of(s.trace + events, n) == PreEvents(job, n);
      } else {
        assert Of(s.trace + events, n) == Of(s.trace, n) + events;
      }
    }
  }

  lemma FailsByItself<V>(job: Job<V>, n: Name)
    requires job.Valid() && n in job.tasks && ArgumentsArrive(job, n) && job.Meaning(n).Error?
    ensures OwnFault(job, n)
  {}

  // ---------------------------------------------------------------- progress and termination

  /** Unfinished work always leaves some task that can go on. */
  lemma {:induction false} SomeTaskIsReady<V>(job: Job<V>, s: State<V>, n: Name) returns (step: Step)
    requires Inv(job, s) && n in job.tasks && !Settled(s.phases[n])
    ensures Enabled(job, s, step)
    decreases job.g.rank[n]
  {
    hide PhaseOk;
    step := Advance(n);
    if s.phases[n].Waiting? && !InputsReady(job, s, n) {
      var i :| 0 <= i < |job.g.nodes[n].deps| && job.g.nodes[n].deps[i].name in s.phases
               && !s.phases[job.g.nodes[n].deps[i].name].Done?;
      var d := job.g.nodes[n].deps[i].name;
      if s.phases[d].Failed? {
        step := Abort(n, i);
      } else {
        step := SomeTaskIsReady(job, s, d);
      }
    }
  }

  function Left<V>(p: Phase<V>): nat {
    match p
    case Waiting => 5
    case Resolved(_) => 4
    case PreDone(_) => 3
    case Running(_) => 2
    case Called(_) => 1
    case _ => 0
  }

  /** Steps that tasks in ns still have before them, at most. */
  ghost function Work<V>(phases: map<Name, Phase<V>>, ns: set<Name>): nat
    requires ns <= phases.Keys
  {
    if ns == {} then 0
    else
      var n :| n in ns;
      Left(phases[n]) + Work(phases, ns - {n})
  }

  lemma {:induction false} WorkRemove<V>(phases: map<Name, Phase<V>>, ns: set<Name>, n: Name)
    requires ns <= phases.Keys && n in ns
    ensures Work(phases, ns) == Left(phases[n]) + Work(phases, ns - {n})
  {
    var m :| m in ns && Work(phases, ns) == Left(phases[m]) + Work(phases, ns - {m});
    if m != n {
      WorkRemove(phases, ns - {m}, n);
      WorkRemove(phases, ns - {n}, m);
      assert ns - {m} - {n} == ns - {n} - {m};
    }
  }

  lemma {:induction false} WorkSame<V>(phases: map<Name, Phase<V>>, phases': map<Name, Phase<V>>, ns: set<Name>)
    requires ns <= phases.Keys && ns <= phases'.Keys && forall n :: n in ns ==> phases'[n] == phases[n]
    ensures Work(phases', ns) == Work(phases, ns)
  {
    if ns != {} {
      var n :| n in ns;
      WorkRemove(phases, ns, n);
      WorkRemove(phases', ns, n);
      WorkSame(phases, phases', ns - {n});
    }
  }

  lemma {:induction false} WorkBound<V>(phases: map<Name, Phase<V>>, ns: set<Name>)
    requires ns <= phases.Keys
    ensures Work(phases, ns) <= 5 * |ns|
  {
    if ns != {} {
      var n :| n in ns;
      WorkRemove(phases, ns, n);
      WorkBound(phases, ns - {n});
    }
  }

  lemma NextIsLess<V>(job: Job<V>, s: State<V>, n: Name)
    requires n in s.phases && n in job.g.nodes && !Settled(s.phases[n])
    ensures Left(Next(job, s, n).0) < Left(s.phases[n])
  {
    hide Kwargs, Call;
  }

  /** Every step uses up work. */
  lemma {:induction false} StepUsesWork<V>(job: Job<V>, s: State<V>, step: Step)
    requires Inv(job, s) && Enabled(job, s, step)
    ensures Apply(job, s, step).phases.Keys == s.phases.Keys
    ensures Work(Apply(job, s, step).phases, job.tasks) < Work(s.phases, job.tasks)
  {
    hide PhaseOk, Next, Job<V>.Valid;
    var n, s' := step.node, Apply(job, s, step);
    if step.Advance? {
      NextIsLess(job, s, n);
    }
    assert s'.phases.Keys == s.phases.Keys;
    WorkRemove(s.phases, job.tasks, n);
    WorkRemove(s'.phases, job.tasks, n);
    WorkSame(s.phases, s'.phases, job.tasks - {n});
  }

  // ---------------------------------------------------------------- schedules

  ghost predicate Schedule<V>(job: Job<V>, s: State<V>, steps: seq<Step>, end: State<V>)
    decreases |steps|
  {
    if steps == [] then end == s
    else Enabled(job, s, steps[0]) && Schedule(job, Apply(job, s, steps[0]), steps[1..], end)
  }

  ghost predicate Complete<V>(job: Job<V>, s: State<V>) {
    forall n :: n in job.tasks ==> n in s.phases && Settled(s.phases[n])
  }

  lemma {:induction false} ScheduleKeepsInv<V>(job: Job<V>, s: State<V>, steps: seq<Step>, end: State<V>)
    requires Inv(job, s) && Schedule(job, s, steps, end)
    ensures Inv(job, end)
    ensures |steps| + Work(end.phases, job.tasks) <= Work(s.phases, job.tasks)
    decreases |steps|
  {
    hide PhaseOk, Apply, Enabled;
    if steps != [] {
      StepKeepsInv(job, s, steps[0]);
      StepUsesWork(job, s, steps[0]);
      ScheduleKeepsInv(job, Apply(job, s, steps[0]), steps[1..], end);
    }
  }

  /**
   * Every schedule ends within five steps a task, and any schedule that has not completed can go on:
   * the event loop never deadlocks and never runs forever.
   */
  lemma {:induction false} EveryScheduleEnds<V>(job: Job<V>, steps: seq<Step>, end: State<V>)
    requires job.Valid() && Schedule(job, Initial(job), steps, end)
    ensures |steps| <= 5 * |job.tasks|
    ensures Complete(job, end) <==> !exists step :: Enabled(job, end, step)
  {
    hide PhaseOk, Schedule;
    InitialOk(job);
    ScheduleKeepsInv(job, Initial(job), steps, end);
    WorkBound(Initial(job).phases, job.tasks);
    if !Complete(job, end) {
      var n :| n in job.tasks && !Settled(end.phases[n]);
      var step := SomeTaskIsReady(job, end, n);
    }
  }

  /**
   * Every complete schedule gives every task the outcome of plain evaluation, and runs the same hooks and
   * calls for it, once each, in the same order.
   */
  lemma {:induction false} AllSchedulesAgree<V>(job: Job<V>, steps: seq<Step>, end: State<V>, n: Name)
    requires job.Valid() && Schedule(job, Initial(job), steps, end) && Complete(job, end) && n in job.tasks
    ensures match job.Meaning(n)
            case Value(v) => end.phases[n] == Done(v)
            case Error(_) => end.phases[n].Failed? && OwnFault(job, end.phases[n].origin)
            case Absent => false
    ensures Of(end.trace, n) == Life(job, n)
  {
    hide Schedule, Life, OwnFault, PhaseOk, Inv, Job<V>.Meaning, Of, Initial, Job<V>.Valid;
    InitialOk(job);
    ScheduleKeepsInv(job, Initial(job), steps, end);
    TaskPhase(job, end, n);
    SettledMeans(job, n, end.phases[n], Of(end.trace, n));
  }

  /** On every schedule a node one of whose hooks raises fails, whatever its function does. */
  lemma {:induction false} RaisingHookFails<V>(job: Job<V>, steps: seq<Step>, end: State<V>, n: Name)
    requires job.Valid() && Schedule(job, Initial(job), steps, end) && Complete(job, end) && n in job.tasks
    requires (job.hooks.pre && job.hooks.preRaises(n)) || (job.hooks.post && job.hooks.postRaises(n))
    ensures n in end.phases && end.phases[n].Failed?
  {
    hide Schedule, Life, OwnFault, Of, Initial, Job<V>.Meaning, Job<V>.Arguments, Call;
    AllSchedulesAgree(job, steps, end, n);
    MeaningOfTask(job, n);
  }

  /**
   * The hook discipline, at every moment of every schedule, whichever hooks are registered: what has happened
   * to a node is a prefix of its life, and all of it once the node has settled.
   */
  lemma HookDiscipline<V>(job: Job<V>, steps: seq<Step>, end: State<V>, n: Name)
    requires job.Valid() && Schedule(job, Initial(job), steps, end) && n in job.tasks
    ensures Of(end.trace, n) <= Life(job, n)
    ensures n in end.phases && (Settled(end.phases[n]) ==> Of(end.trace, n) == Life(job, n))
  {
    hide Schedule, OwnFault, PhaseOk, Inv, Job<V>.Meaning, Of, Initial, Call;
    InitialOk(job);
    ScheduleKeepsInv(job, Initial(job), steps, end);
    hide Job<V>.Valid;
    TaskPhase(job, end, n);
    SoFarIsPrefix(job, n, end.phases[n], Of(end.trace, n));
  }

  /**
   * The life of a node, with either hook registered or not: if its inputs do not resolve it sees neither hook; if its
   * pre hook raises it sees nothing more; otherwise pre hook, call, end of call and post hook follow in this order,
   * once each, and the post hook is told whether the function returned.
   */
  lemma LifeSpelledOut<V>(job: Job<V>, n: Name)
    requires job.g.Valid() && n in job.g.nodes
    ensures Life(job, n) ==
            match job.Arguments(n, |job.g.nodes[n].deps|)
            case Stopped(_) => []
            case Kwargs(kwargs) =>
              var returned := Call(job.g.nodes[n], kwargs).Returned?;
              match (job.hooks.pre, job.hooks.post)
              case (true, true) =>
                if job.hooks.preRaises(n) then [PreHook(n)]
                else [PreHook(n), CallStarts(n), CallEnds(n, returned), PostHook(n, returned)]
              case (true, false) =>
                if job.hooks.preRaises(n) then [PreHook(n)] else [PreHook(n), CallStarts(n), CallEnds(n, returned)]
              case (false, true) => [CallStarts(n), CallEnds(n, returned), PostHook(n, returned)]
              case (false, false) => [CallStarts(n), CallEnds(n, returned)]
  {
    hide Dag<V>.Valid, Job<V>.Arguments, Call;
  }

  /** What has happened to a task so far is a prefix of its life. */
  lemma SoFarIsPrefix<V>(job: Job<V>, n: Name, p: Phase<V>, events: seq<HookEvent>)
    requires job.Valid() && n in job.g.nodes && PhaseOk(job, n, p, events)
    ensures events <= Life(job, n) && (Settled(p) ==> events == Life(job, n))
  {
    hide Job<V>.Valid, Job<V>.Meaning, Job<V>.Arguments, OwnFault, Call;
  }

  // ---------------------------------------------------------------- against sequential execution

  /** No hook raises. */
  ghost predicate SilentHooks(hooks: Hooks) {
    forall n :: !hooks.preRaises(n) && !hooks.postRaises(n)
  }

  lemma {:induction false} SilentMeaning<V>(job: Job<V>, n: Name)
    requires job.g.Valid() && n in job.g.nodes && SilentHooks(job.hooks)
    ensures job.Meaning(n) == Eval(job.g, job.ctx, n)
    decreases job.g.rank[n], 1, 0
  {
    hide Gather;
    job.HookedValid();
    if n !in job.ctx.overrides && !job.g.nodes[n].external {
      SilentArguments(job, n, |job.g.nodes[n].deps|);
    }
  }

  lemma {:induction false} SilentArguments<V>(job: Job<V>, n: Name, k: nat)
    requires job.g.Valid() && n in job.g.nodes && k <= |job.g.nodes[n].deps| && SilentHooks(job.hooks)
    ensures job.Arguments(n, k) == Gather(job.g, job.ctx, n, k)
    decreases job.g.rank[n], 0, k
  {
    hide Extend, Eval, Job<V>.Arguments, Job<V>.Meaning;
    ArgumentsUnfold(job, n, k);
    GatherUnfold(job.g, job.ctx, n, k);
    if k > 0 {
      SilentArguments(job, n, k - 1);
      SilentMeaning(job, job.g.nodes[n].deps[k - 1].name);
    }
  }

  /** What `raw_execute` hands back once all tasks have settled. */
  datatype Results<+V> = Results(values: map<Name, V>) | NotInMemo(name: Name) | TaskFailed(origin: Name)

  /** The requested keys, each a settled task or a raw value of the memo. */
  function Collect<V>(job: Job<V>, s: State<V>, finals: seq<Name>): Results<V>
    requires Complete(job, s)
  {
    if finals == [] then Results(map[])
    else
      var n := |finals| - 1;
      var f := finals[n];
      match Collect(job, s, finals[..n])
      case NotInMemo(name) => NotInMemo(name)
      case TaskFailed(o) =>
        if f !in job.tasks && job.Raw(f).None? then NotInMemo(f) else TaskFailed(o)
      case Results(values) =>
        if f in job.tasks then
          (match s.phases[f]
           case Done(v) => Results(values[f := v])
           case Failed(o) => TaskFailed(o)
           case _ => Results(values))
        else if job.Raw(f).Some? then Results(values[f := job.Raw(f).value])
        else NotInMemo(f)
  }

  /** Every requested key is a task or a raw value. */
  predicate InMemo<V>(job: Job<V>, finals: seq<Name>) {
    forall i :: 0 <= i < |finals| ==> finals[i] in job.tasks || job.Raw(finals[i]).Some?
  }

  /** A task's result, against plain evaluation. */
  lemma TaskResult<V>(job: Job<V>, steps: seq<Step>, end: State<V>, f: Name)
    requires job.Valid() && SilentHooks(job.hooks) && Schedule(job, Initial(job), steps, end) && Complete(job, end)
    requires f in job.tasks
    ensures f in job.g.nodes
    ensures match Eval(job.g, job.ctx, f)
            case Value(v) => end.phases[f] == Done(v)
            case _ => end.phases[f].Failed?
  {
    hide Schedule, Eval, Of, Life, OwnFault, Job<V>.Valid, Job<V>.Meaning;
    ValidGraph(job);
    AllSchedulesAgree(job, steps, end, f);
    SilentMeaning(job, f);
  }

  /**
   * Asynchronous and sequential execution agree: on any schedule the run hands back results exactly if every
   * request is in the memo and evaluates, and they are those values. A request that is not in the memo makes it
   * raise whatever the tasks do.
   */
  lemma {:induction false} AsyncMatchesSequential<V>(job: Job<V>, steps: seq<Step>, end: State<V>, finals: seq<Name>)
    requires job.Valid() && SilentHooks(job.hooks) && Schedule(job, Initial(job), steps, end) && Complete(job, end)
    ensures var r := Collect(job, end, finals);
            && (r.NotInMemo? <==> !InMemo(job, finals))
            && (r.NotInMemo? ==> r.name in finals && r.name !in job.tasks && job.Raw(r.name).None?)
            && (r.Results? <==>
                  && InMemo(job, finals)
                  && forall i :: 0 <= i < |finals| ==>
                       finals[i] in job.g.nodes && Eval(job.g, job.ctx, finals[i]).Value?)
            && (r.Results? ==>
                  && r.values.Keys == (set f | f in finals)
                  && forall f :: f in finals ==> f in job.g.nodes && Eval(job.g, job.ctx, f) == Value(r.values[f]))
  {
    hide Schedule, Complete, Of, Life, OwnFault;
    if finals != [] {
      var n := |finals| - 1;
      var f := finals[n];
      AsyncMatchesSequential(job, steps, end, finals[..n]);
      if f in job.tasks {
        SettledTask(job, end, f);
        TaskResult(job, steps, end, f);
      } else if job.Raw(f).Some? {
        RawValue(job, f);
      }
      hide Job<V>.Valid, Job<V>.Raw, Eval;
      InMemoSnoc(job, finals);
      assert finals == finals[..n] + [f];
    }
  }

  lemma InMemoSnoc<V>(job: Job<V>, finals: seq<Name>)
    requires finals != []
    ensures var n := |finals| - 1;
            InMemo(job, finals) <==> InMemo(job, finals[..n]) && (finals[n] in job.tasks || job.Raw(finals[n]).Some?)
  {
    hide Job<V>.Raw;
    var n := |finals| - 1;
    assert forall i :: 0 <= i < n ==> finals[..n][i] == finals[i];
  }

  lemma RawValue<V>(job: Job<V>, f: Name)
    requires job.g.Valid() && job.Raw(f).Some?
    ensures f in job.g.nodes && Eval(job.g, job.ctx, f) == Value(job.Raw(f).value)
  {
    hide Gather;
  }

  lemma SettledTask<V>(job: Job<V>, s: State<V>, f: Name)
    requires Complete(job, s) && f in job.tasks
    ensures f in s.phases && Settled(s.phases[f])
  {}
}
