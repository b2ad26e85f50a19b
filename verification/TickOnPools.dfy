/** The tick theorem over worker pools: each stage run by the bodies of a pool dispatch, inline, or in
    turns. */
module TickOnPools {
  import opened CellStore
  import D = DispatchedStage
  import opened Fnv
  import opened Schedule
  import opened ScheduleInvariance
  import opened SerialStage
  import opened StageExecution
  import opened StageTick
  import opened SystemAccess
  import P = ThreadPool
  import opened Tick
  import opened WorkItems
  import opened WorldStore

  /** Who runs a stage: a pool, in dispatch d among whatever else it does, the calling thread, item
      after item, or the systems in turns. */
  datatype Runner = Pool(pool: P.Pool, d: nat,
                         events: seq<D.Event>) | Inline(sched: seq<nat>) | Turns(turns: seq<seq<nat>>)

  /** The items one after another. */
  predicate ListOrdered(sched: seq<nat>) {
    forall j, k :: 0 <= j < k < |sched| ==> sched[j] <= sched[k]
  }

  ghost predicate PoolRuns<V, L>(items: seq<Item<V, L>>, st: State<V, L>, p: P.Pool, d: nat, events: seq<D.Event>)
    requires |items| == |st.locals|
  {
    && P.Initial(p) && D.IsRun(items, d, D.Joint(p, st), events)
    && D.Over(D.End(items, d, D.Joint(p, st), events).pool, d, |items|)
  }

  /** The runner runs the stage to its end; an item that reserves slots has the slot table to itself. */
  ghost predicate RunnerRuns<A>(programs: Programs<A>, regs: seq<Registration>, g: Game, runner: Runner) {
    var awake := Awake(programs, regs, g);
    var items, st := ItemsOf(programs, awake, g), StartOf(programs, awake, g);
    match runner
    case Pool(p, d, events) => AllocatorApart(items) && PoolRuns(items, st, p, d, events)
    case Inline(sched) => AllocatorApart(items) && ListOrdered(sched) && Finishes(items, st, sched)
    case Turns(turns) => WayRuns(programs, regs, g, Serial(turns))
  }

  /** What the runner does, as a way of running the stage. */
  ghost function WayOf<A>(programs: Programs<A>, regs: seq<Registration>, g: Game, runner: Runner): Way {
    var awake := Awake(programs, regs, g);
    match runner
    case Pool(p, d, events) =>
      Parallel(D.Sched(ItemsOf(programs, awake, g), d, D.Joint(p, StartOf(programs, awake, g)), events))
    case Inline(sched) => Parallel(sched)
    case Turns(turns) => Serial(turns)
  }

  /** The ways of the stages; each depends on the game that the stages before leave. */
  ghost function WaysOf<A>(programs: Programs<A>, stages: seq<seq<Registration>>, g: Game,
                           runners: seq<Runner>): (ways: seq<Way>)
    requires |runners| == |stages|
    ensures |ways| == |stages|
  {
    if stages == [] then []
    else
      var n := |stages| - 1;
      var front := WaysOf(programs, stages[..n], g, runners[..n]);
      front + [WayOf(programs, stages[n], TickEnd(programs, stages[..n], g, front), runners[n])]
  }

  /** The game after the stages, each run by its runner. */
  ghost function GameAfter<A>(programs: Programs<A>, stages: seq<seq<Registration>>, g: Game,
                              runners: seq<Runner>): Game
    requires |runners| == |stages|
  {
    TickEnd(programs, stages, g, WaysOf(programs, stages, g, runners))
  }

  ghost predicate RunnersRun<A>(programs: Programs<A>, stages: seq<seq<Registration>>, g: Game, runners: seq<Runner>)
    requires |runners| == |stages|
  {
    stages == [] ||
    (var n := |stages| - 1;
     && RunnersRun(programs, stages[..n], g, runners[..n])
     && RunnerRuns(programs, stages[n], GameAfter(programs, stages[..n], g, runners[..n]), runners[n]))
  }

  lemma RunnerIsWay<A(!new)>(reg: Registry, cs: seq<Pair>, stages: seq<seq<nat>>, s: nat, declOf: Word -> SystemDecl,
                             programs: Programs<A>, g: Game, runner: Runner)
    requires Setup(reg, cs, stages, declOf) && s < |stages| && Obedient(programs, declOf)
    requires RunnerRuns(programs, StageRegs(reg, stages[s]), g, runner)
    ensures WayRuns(programs, StageRegs(reg, stages[s]), g, WayOf(programs, StageRegs(reg, stages[s]), g, runner))
  {
    if runner.Pool? {
      var regs := StageRegs(reg, stages[s]);
      StageIndependent(reg, cs, stages, s, declOf, programs, RunFlags(programs, regs, g), g);
      D.PoolRunsStage(programs, Awake(programs, regs, g), g, runner.pool, runner.d, runner.events);
    }
  }

  lemma {:induction false} RunnersAreWays<A(!new)>(reg: Registry, cs: seq<Pair>, stages: seq<seq<nat>>,
                                                   declOf: Word -> SystemDecl,
                                                   programs: Programs<A>, regs: seq<seq<Registration>>, g: Game,
                                                     runners: seq<Runner>)
    requires Setup(reg, cs, stages, declOf) && Obedient(programs, declOf) && OfStages(reg, stages, regs)
    requires |runners| == |regs| && RunnersRun(programs, regs, g, runners)
    ensures TickRuns(programs, regs, g, WaysOf(programs, regs, g, runners))
    decreases |regs|
  {
    if regs != [] {
      var n := |regs| - 1;
      OfStagesFront(reg, stages, regs);
      RunnersAreWays(reg, cs, stages, declOf, programs, regs[..n], g, runners[..n]);
      RunnerIsWay(reg, cs, stages, n, declOf, programs, GameAfter(programs, regs[..n], g, runners[..n]), runners[n]);
      assert WaysOf(programs, regs, g, runners)[..n] == WaysOf(programs, regs[..n], g, runners[..n]);
    }
  }

  /** No stage, or the same stages, are run in turns. */
  predicate SameTurns(a: seq<Runner>, b: seq<Runner>) {
    |a| == |b| && forall s :: 0 <= s < |a| ==> a[s].Turns? == b[s].Turns?
  }

  lemma {:induction false} WaysTurns<A>(programs: Programs<A>, stages: seq<seq<Registration>>, g: Game,
                                        runners: seq<Runner>)
    requires |runners| == |stages|
    ensures forall s :: 0 <= s < |stages| ==> WaysOf(programs, stages, g, runners)[s].Serial? == runners[s].Turns?
    decreases |stages|
  {
    if stages != [] {
      WaysTurns(programs, stages[..|stages| - 1], g, runners[..|stages| - 1]);
    }
  }

  lemma SameTurnsSameModes<A>(programs: Programs<A>, stages: seq<seq<Registration>>, g: Game, a: seq<Runner>,
                              b: seq<Runner>)
    requires |a| == |b| == |stages| && SameTurns(a, b)
    ensures SameModes(WaysOf(programs, stages, g, a), WaysOf(programs, stages, g, b))
  {
    WaysTurns(programs, stages, g, a);
    WaysTurns(programs, stages, g, b);
  }

  lemma RunnersTick<A(!new)>(programs: Programs<A>, kept: Local<A> -> seq<EntityId>, regs: seq<seq<Registration>>,
                             g: Game,
                             a: seq<Runner>, b: seq<Runner>)
    requires |a| == |b| == |regs| && (SameTurns(a, b) || (Serialisable(programs, kept) && Inv(g.world)))
    requires TickRuns(programs, regs, g, WaysOf(programs, regs, g, a))
             && TickRuns(programs, regs, g, WaysOf(programs, regs, g, b))
    ensures TwoTicks(programs, kept, regs, g, WaysOf(programs, regs, g, a), WaysOf(programs, regs, g, b))
  {
    if SameTurns(a, b) {
      SameTurnsSameModes(programs, regs, g, a, b);
    }
  }

  lemma RunnersAgree<A(!new)>(reg: Registry, cs: seq<Pair>, stages: seq<seq<nat>>, declOf: Word -> SystemDecl,
                              programs: Programs<A>, kept: Local<A> -> seq<EntityId>, regs: seq<seq<Registration>>,
                                g: Game,
                              a: seq<Runner>, b: seq<Runner>)
    requires Setup(reg, cs, stages, declOf) && Obedient(programs, declOf) && OfStages(reg, stages, regs)
    requires SameTurns(a, b) || (Serialisable(programs, kept) && Inv(g.world))
    requires |a| == |b| == |regs| && RunnersRun(programs, regs, g, a) && RunnersRun(programs, regs, g, b)
    ensures GameAfter(programs, regs, g, a) == GameAfter(programs, regs, g, b)
  {
    RunnersAreWays(reg, cs, stages, declOf, programs, regs, g, a);
    RunnersAreWays(reg, cs, stages, declOf, programs, regs, g, b);
    RunnersTick(programs, kept, regs, g, a, b);
    StagesAgree(reg, cs, stages, declOf, programs, kept, regs, g, WaysOf(programs, regs, g, a),
                WaysOf(programs, regs, g, b));
  }

  lemma SameSchedules(r: Registry, cs: seq<Pair>, st: seq<seq<nat>>, q: Registry, ds: seq<Pair>, su: seq<seq<nat>>)
    requires Comparable(r, q) && IsSchedule(r, cs, st) && IsSchedule(q, ds, su)
    ensures ScheduleRegs(r, cs, st) == ScheduleRegs(q, ds, su) && |st| == |su|
  {
    ScheduleInRange(r, cs, st);
    ScheduleInRange(q, ds, su);
    SameStageRegs(r, cs, st, q, ds, su);
    assert |ScheduleRegs(r, cs, st)| == |ScheduleRegs(q, ds, su)|;
  }

  /** Two ticks of the same systems, registered in any order, on pools of any sizes, inline or in turns,
      leave the same world and singletons. */
  lemma TicksOnPoolsAgree<A(!new)>(r: Registry, cs: seq<Pair>, st: seq<seq<nat>>, q: Registry, ds: seq<Pair>,
                                   su: seq<seq<nat>>,
                                   declOf: Word -> SystemDecl, programs: Programs<A>, kept: Local<A> -> seq<EntityId>,
                                     g: Game,
                                   a: seq<Runner>, b: seq<Runner>)
    requires Comparable(r, q) && IsSchedule(r, cs, st) && IsSchedule(q, ds, su)
    requires Registered(r, declOf) && Obedient(programs, declOf)
    requires SameTurns(a, b) || (Serialisable(programs, kept) && Inv(g.world))
    requires |a| == |st| && RunnersRun(programs, ScheduleRegs(r, cs, st), g, a)
    requires |b| == |su| && RunnersRun(programs, ScheduleRegs(q, ds, su), g, b)
    ensures GameAfter(programs, ScheduleRegs(r, cs, st), g, a) == GameAfter(programs, ScheduleRegs(q, ds, su), g, b)
  {
    SameSchedules(r, cs, st, q, ds, su);
    ScheduleOfStages(r, cs, st, ScheduleRegs(r, cs, st));
    RunnersAgree(r, cs, st, declOf, programs, kept, ScheduleRegs(r, cs, st), g, a, b);
  }
}
