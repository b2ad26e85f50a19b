/** A whole tick: stage after stage, in the parallel branch or in serial mode.  The world it leaves does
    not depend on the order of registration, on the number of workers, on any interleaving or on the
    mode. */
module Tick {
  import opened CellStore
  import opened Fnv
  import opened Schedule
  import opened ScheduleInvariance
  import opened SerialStage
  import opened StageExecution
  import opened StageTick
  import opened SystemAccess
  import opened WorkItems
  import opened WorldStore

  function RegsOf(reg: Registry, stages: seq<seq<nat>>): (rs: seq<seq<Registration>>)
    requires StagesIn(reg, stages)
    ensures |rs| == |stages| && forall s :: 0 <= s < |rs| ==> rs[s] == StageRegs(reg, stages[s])
  {
    seq(|stages|, s requires 0 <= s < |stages| => StageRegs(reg, stages[s]))
  }

  // ----- a tick -----

  /** How a stage is run: as one list of work items in some interleaving, or in turns. */
  datatype Way = Parallel(sched: seq<nat>) | Serial(turns: seq<seq<nat>>)

  ghost predicate WayRuns<P>(programs: Programs<P>, regs: seq<Registration>, g: Game, way: Way) {
    var awake := Awake(programs, regs, g);
    match way
    case Parallel(sched) => StageRuns(programs, awake, g, sched)
    case Serial(turns) => |turns| == |regs| && TurnsRun(programs, awake, g, turns)
  }

  ghost function StageAfter<P>(programs: Programs<P>, regs: seq<Registration>, g: Game, way: Way): Game {
    var awake := Awake(programs, regs, g);
    match way
    case Parallel(sched) => ParallelEnd(programs, awake, g, sched)
    case Serial(turns) => if |turns| == |regs| then SerialEnd(programs, awake, g, turns) else g
  }

  /** The game after the stages, each run in its own way. */
  ghost function TickEnd<P>(programs: Programs<P>, stages: seq<seq<Registration>>, g: Game, ways: seq<Way>): Game
    requires |ways| == |stages|
  {
    if stages == [] then g
    else
      var n := |stages| - 1;
      StageAfter(programs, stages[n], TickEnd(programs, stages[..n], g, ways[..n]), ways[n])
  }

  ghost predicate TickRuns<P>(programs: Programs<P>, stages: seq<seq<Registration>>, g: Game, ways: seq<Way>)
    requires |ways| == |stages|
  {
    stages == [] ||
    (var n := |stages| - 1;
     && TickRuns(programs, stages[..n], g, ways[..n])
     && WayRuns(programs, stages[n], TickEnd(programs, stages[..n], g, ways[..n]), ways[n]))
  }

  /** The same branch of the scheduler in every stage. */
  predicate SameModes(a: seq<Way>, b: seq<Way>) {
    |a| == |b| && forall s :: 0 <= s < |a| ==> a[s].Parallel? == b[s].Parallel?
  }

  // ----- registries with the same systems have the same stages -----

  lemma ScheduleInRange(reg: Registry, cs: seq<Pair>, stages: seq<seq<nat>>)
    requires IsSchedule(reg, cs, stages)
    ensures StagesIn(reg, stages)
  {
    forall s | 0 <= s < |stages| ensures StageIn(reg, stages[s]) {
      StageMembers(reg, cs, stages, s);
    }
  }

  lemma SameStage(r: Registry, cs: seq<Pair>, st: seq<seq<nat>>, q: Registry, ds: seq<Pair>, su: seq<seq<nat>>, s: nat)
    requires Comparable(r, q) && IsSchedule(r, cs, st) && IsSchedule(q, ds, su) && s < |st| && s < |su|
    requires StageIds(r, st[s]) == StageIds(q, su[s]) && StageIn(r, st[s]) && StageIn(q, su[s])
    ensures StageRegs(r, st[s]) == StageRegs(q, su[s])
  {
    StageMembers(r, cs, st, s);
    StageMembers(q, ds, su, s);
    forall k | 0 <= k < |st[s]| ensures r[st[s][k]] == q[su[s][k]] {
      assert StageIds(r, st[s])[k] == StageIds(q, su[s])[k];
      TwinsEqual(r, q, st[s][k], su[s][k]);
    }
  }

  lemma SameStageRegs(r: Registry, cs: seq<Pair>, st: seq<seq<nat>>, q: Registry, ds: seq<Pair>, su: seq<seq<nat>>)
    requires Comparable(r, q) && IsSchedule(r, cs, st) && IsSchedule(q, ds, su)
    requires StagesIn(r, st) && StagesIn(q, su)
    ensures RegsOf(r, st) == RegsOf(q, su)
  {
    ScheduleInvariant(r, cs, st, q, ds, su);
    var ids := ScheduleIds(r, st);
    assert |st| == |ids| == |su|;
    forall s | 0 <= s < |st| ensures StageRegs(r, st[s]) == StageRegs(q, su[s]) {
      assert StageIds(r, st[s]) == ids[s] == StageIds(q, su[s]);
      SameStage(r, cs, st, q, ds, su, s);
    }
  }

  // ----- a tick keeps the store invariant -----

  lemma StageAfterInv<P(!new)>(programs: Programs<P>, kept: Local<P> -> seq<EntityId>, regs: seq<Registration>, g: Game,
                               way: Way)
    requires Recorders(programs, kept) && Inv(g.world)
    ensures Inv(StageAfter(programs, regs, g, way).world)
  {
    var awake := Awake(programs, regs, g);
    match way
    case Parallel(sched) => StageKeepsInv(programs, kept, awake, g, sched);
    case Serial(turns) =>
      if |turns| == |regs| {
        SerialKeepsInv(programs, kept, awake, g, turns);
      }
  }

  /** Whatever the modes and interleavings, a tick leaves a consistent world: slots and rows mutually
      inverse, chunks packed, signatures sorted, the free list exact. */
  lemma {:induction false} TickKeepsInv<P(!new)>(programs: Programs<P>, kept: Local<P> -> seq<EntityId>,
                                                 stages: seq<seq<Registration>>,
                                                 g: Game, ways: seq<Way>)
    requires |ways| == |stages| && Recorders(programs, kept) && Inv(g.world)
    ensures Inv(TickEnd(programs, stages, g, ways).world)
    decreases |stages|
  {
    if stages != [] {
      var n := |stages| - 1;
      TickKeepsInv(programs, kept, stages[..n], g, ways[..n]);
      StageAfterInv(programs, kept, stages[n], TickEnd(programs, stages[..n], g, ways[..n]), ways[n]);
    }
  }

  // ----- a stage does not depend on the way -----

  lemma AwakeOfStage<P>(reg: Registry, stage: seq<nat>, programs: Programs<P>, g: Game)
    requires StageIn(reg, stage)
    ensures OfStage(reg, stage, Awake(programs, StageRegs(reg, stage), g))
  {
  }

  lemma ParallelSame<P(!new)>(reg: Registry, cs: seq<Pair>, stages: seq<seq<nat>>, s: nat, declOf: Word -> SystemDecl,
                              programs: Programs<P>, g: Game, a: seq<nat>, b: seq<nat>)
    requires Setup(reg, cs, stages, declOf) && s < |stages| && Obedient(programs, declOf)
    requires StageRuns(programs, Awake(programs, StageRegs(reg, stages[s]), g), g, a)
    requires StageRuns(programs, Awake(programs, StageRegs(reg, stages[s]), g), g, b)
    ensures ParallelEnd(programs, Awake(programs, StageRegs(reg, stages[s]), g), g, a) ==
            ParallelEnd(programs, Awake(programs, StageRegs(reg, stages[s]), g), g, b)
  {
    var regs := StageRegs(reg, stages[s]);
    var awake := Awake(programs, regs, g);
    StageIndependent(reg, cs, stages, s, declOf, programs, RunFlags(programs, regs, g), g);
    CompleteRunsAgree(ItemsOf(programs, awake, g), StartOf(programs, awake, g), a, b);
  }

  lemma SerialSame<P(!new)>(reg: Registry, cs: seq<Pair>, stages: seq<seq<nat>>, s: nat, declOf: Word -> SystemDecl,
                            programs: Programs<P>, g: Game, a: seq<seq<nat>>, b: seq<seq<nat>>)
    requires Setup(reg, cs, stages, declOf) && s < |stages| && Obedient(programs, declOf) && |a| == |b| == |stages[s]|
    requires TurnsRun(programs, Awake(programs, StageRegs(reg, stages[s]), g), g, a)
    requires TurnsRun(programs, Awake(programs, StageRegs(reg, stages[s]), g), g, b)
    ensures SerialEnd(programs, Awake(programs, StageRegs(reg, stages[s]), g), g, a) ==
            SerialEnd(programs, Awake(programs, StageRegs(reg, stages[s]), g), g, b)
  {
    AwakeOfStage(reg, stages[s], programs, g);
    TurnsAgree(reg, cs, stages, s, declOf, programs, Awake(programs, StageRegs(reg, stages[s]), g), g, a, b);
  }

  lemma ModesSame<P(!new)>(reg: Registry, cs: seq<Pair>, stages: seq<seq<nat>>, s: nat, declOf: Word -> SystemDecl,
                           programs: Programs<P>, kept: Local<P> -> seq<EntityId>, g: Game, turns: seq<seq<nat>>,
                             sched: seq<nat>)
    requires Setup(reg, cs, stages, declOf) && s < |stages| && Obedient(programs, declOf) && |turns| == |stages[s]|
    requires Serialisable(programs, kept) && Inv(g.world)
    requires TurnsRun(programs, Awake(programs, StageRegs(reg, stages[s]), g), g, turns)
    requires StageRuns(programs, Awake(programs, StageRegs(reg, stages[s]), g), g, sched)
    ensures SerialEnd(programs, Awake(programs, StageRegs(reg, stages[s]), g), g, turns) ==
            ParallelEnd(programs, Awake(programs, StageRegs(reg, stages[s]), g), g, sched)
  {
    var regs := StageRegs(reg, stages[s]);
    StageIndependent(reg, cs, stages, s, declOf, programs, RunFlags(programs, regs, g), g);
    SerialIsParallel(programs, kept, Awake(programs, regs, g), g, turns, sched);
  }

  /** A scheduled stage ends alike in every way, the two branches of the scheduler included. */
  lemma WaysSame<P(!new)>(reg: Registry, cs: seq<Pair>, stages: seq<seq<nat>>, s: nat, declOf: Word -> SystemDecl,
                          programs: Programs<P>, kept: Local<P> -> seq<EntityId>, g: Game, a: Way, b: Way)
    requires Setup(reg, cs, stages, declOf) && s < |stages| && Obedient(programs, declOf)
    requires WayRuns(programs, StageRegs(reg, stages[s]), g, a) && WayRuns(programs, StageRegs(reg, stages[s]), g, b)
    requires a.Parallel? == b.Parallel? || (Serialisable(programs, kept) && Inv(g.world))
    ensures StageAfter(programs, StageRegs(reg, stages[s]), g, a) ==
            StageAfter(programs, StageRegs(reg, stages[s]), g, b)
  {
    match (a, b)
    case (Parallel(x), Parallel(y)) => ParallelSame(reg, cs, stages, s, declOf, programs, g, x, y);
    case (Serial(x), Serial(y)) => SerialSame(reg, cs, stages, s, declOf, programs, g, x, y);
    case (Serial(x), Parallel(y)) => ModesSame(reg, cs, stages, s, declOf, programs, kept, g, x, y);
    case (Parallel(x), Serial(y)) => ModesSame(reg, cs, stages, s, declOf, programs, kept, g, y, x);
  }

  // ----- the theorem -----

  ghost predicate OfStages(reg: Registry, stages: seq<seq<nat>>, regs: seq<seq<Registration>>) {
    |regs| <= |stages| && forall s :: 0 <= s < |regs| ==>
      StageIn(reg, stages[s]) && regs[s] == StageRegs(reg, stages[s])
  }

  lemma OfStagesFront(reg: Registry, stages: seq<seq<nat>>, regs: seq<seq<Registration>>)
    requires OfStages(reg, stages, regs) && regs != []
    ensures var n := |regs| - 1;
            OfStages(reg, stages, regs[..n]) && StageIn(reg, stages[n]) && regs[n] == StageRegs(reg, stages[n])
  {
  }

  /** The modes agree, or the programs are such that it does not matter. */
  ghost predicate ModesAllowed<P(!new)>(programs: Programs<P>, kept: Local<P> -> seq<EntityId>, g: Game, a: seq<Way>,
                                        b: seq<Way>)
  {
    SameModes(a, b) || (Serialisable(programs, kept) && Inv(g.world))
  }

  /** Two ticks over the same stages. */
  ghost predicate TwoTicks<P(!new)>(programs: Programs<P>, kept: Local<P> -> seq<EntityId>,
                                    regs: seq<seq<Registration>>, g: Game,
                                    a: seq<Way>, b: seq<Way>)
  {
    && |a| == |b| == |regs| && TickRuns(programs, regs, g, a) && TickRuns(programs, regs, g, b)
    && ModesAllowed(programs, kept, g, a, b)
  }

  lemma TwoTicksFront<P(!new)>(programs: Programs<P>, kept: Local<P> -> seq<EntityId>, regs: seq<seq<Registration>>,
                               g: Game,
                               a: seq<Way>, b: seq<Way>)
    requires TwoTicks(programs, kept, regs, g, a, b) && regs != []
    ensures TwoTicks(programs, kept, regs[..|regs| - 1], g, a[..|regs| - 1], b[..|regs| - 1])
  {
  }

  lemma LastWay<P>(programs: Programs<P>, regs: seq<seq<Registration>>, g: Game, ways: seq<Way>, before: Game)
    requires |ways| == |regs| > 0 && TickRuns(programs, regs, g, ways)
             && before == TickEnd(programs, regs[..|regs| - 1], g, ways[..|regs| - 1])
    ensures WayRuns(programs, regs[|regs| - 1], before, ways[|regs| - 1])
    ensures TickEnd(programs, regs, g, ways) == StageAfter(programs, regs[|regs| - 1], before, ways[|regs| - 1])
  {
  }

  lemma LastModes<P(!new)>(programs: Programs<P>, kept: Local<P> -> seq<EntityId>, regs: seq<seq<Registration>>,
                           g: Game,
                           a: seq<Way>, b: seq<Way>, before: Game)
    requires TwoTicks(programs, kept, regs, g, a, b) && regs != []
             && before == TickEnd(programs, regs[..|regs| - 1], g, a[..|regs| - 1])
    ensures a[|regs| - 1].Parallel? == b[|regs| - 1].Parallel? || (Serialisable(programs, kept) && Inv(before.world))
  {
    if !SameModes(a, b) {
      TickKeepsInv(programs, kept, regs[..|regs| - 1], g, a[..|regs| - 1]);
    }
  }

  /** The last stage, once the stages before it have agreed on the game. */
  lemma LastStageAgrees<P(!new)>(reg: Registry, cs: seq<Pair>, stages: seq<seq<nat>>, declOf: Word -> SystemDecl,
                                 programs: Programs<P>, kept: Local<P> -> seq<EntityId>, regs: seq<seq<Registration>>,
                                   g: Game,
                                 a: seq<Way>, b: seq<Way>, before: Game)
    requires Setup(reg, cs, stages, declOf) && Obedient(programs, declOf) && OfStages(reg, stages, regs) && regs != []
    requires TwoTicks(programs, kept, regs, g, a, b)
    requires before == TickEnd(programs, regs[..|regs| - 1], g, a[..|regs| - 1]) ==
             TickEnd(programs, regs[..|regs| - 1], g, b[..|regs| - 1])
    ensures TickEnd(programs, regs, g, a) == TickEnd(programs, regs, g, b)
  {
    var n := |regs| - 1;
    OfStagesFront(reg, stages, regs);
    LastWay(programs, regs, g, a, before);
    LastWay(programs, regs, g, b, before);
    LastModes(programs, kept, regs, g, a, b, before);
    WaysSame(reg, cs, stages, n, declOf, programs, kept, before, a[n], b[n]);
  }

  lemma {:induction false} StagesAgree<P(!new)>(reg: Registry, cs: seq<Pair>, stages: seq<seq<nat>>,
                                                declOf: Word -> SystemDecl,
                                                programs: Programs<P>, kept: Local<P> -> seq<EntityId>,
                                                  regs: seq<seq<Registration>>, g: Game,
                                                a: seq<Way>, b: seq<Way>)
    requires Setup(reg, cs, stages, declOf) && Obedient(programs, declOf) && OfStages(reg, stages, regs)
    requires TwoTicks(programs, kept, regs, g, a, b)
    ensures TickEnd(programs, regs, g, a) == TickEnd(programs, regs, g, b)
    decreases |regs|
  {
    if regs != [] {
      var n := |regs| - 1;
      OfStagesFront(reg, stages, regs);
      TwoTicksFront(programs, kept, regs, g, a, b);
      StagesAgree(reg, cs, stages, declOf, programs, kept, regs[..n], g, a[..n], b[..n]);
      LastStageAgrees(reg, cs, stages, declOf, programs, kept, regs, g, a, b, TickEnd(programs, regs[..n], g, a[..n]));
    }
  }

  ghost function ScheduleRegs(reg: Registry, cs: seq<Pair>, stages: seq<seq<nat>>): (rs: seq<seq<Registration>>)
    requires IsSchedule(reg, cs, stages)
    ensures |rs| == |stages|
  {
    ScheduleInRange(reg, cs, stages);
    RegsOf(reg, stages)
  }

  lemma ScheduleOfStages(reg: Registry, cs: seq<Pair>, stages: seq<seq<nat>>, regs: seq<seq<Registration>>)
    requires IsSchedule(reg, cs, stages) && regs == ScheduleRegs(reg, cs, stages)
    ensures StagesIn(reg, stages) && OfStages(reg, stages, regs) && |regs| == |stages|
  {
    ScheduleInRange(reg, cs, stages);
  }

  /** The promise of the whole: two registries with the same alive systems, registered in any order, and
      any ways of running every stage, leave the same world and singletons.  If the two ticks run some
      stage in different modes, the programs must see the world's values only through their cells. */
  lemma TickDeterministic<P(!new)>(r: Registry, cs: seq<Pair>, st: seq<seq<nat>>, q: Registry, ds: seq<Pair>,
                                   su: seq<seq<nat>>,
                                   declOf: Word -> SystemDecl, programs: Programs<P>, kept: Local<P> -> seq<EntityId>,
                                     g: Game,
                                   a: seq<Way>, b: seq<Way>)
    requires Comparable(r, q) && IsSchedule(r, cs, st) && IsSchedule(q, ds, su)
    requires Registered(r, declOf) && Obedient(programs, declOf) && ModesAllowed(programs, kept, g, a, b)
    requires |a| == |st| && TickRuns(programs, ScheduleRegs(r, cs, st), g, a)
    requires |b| == |su| && TickRuns(programs, ScheduleRegs(q, ds, su), g, b)
    ensures TickEnd(programs, ScheduleRegs(r, cs, st), g, a) == TickEnd(programs, ScheduleRegs(q, ds, su), g, b)
  {
    ScheduleInRange(r, cs, st);
    ScheduleInRange(q, ds, su);
    SameStageRegs(r, cs, st, q, ds, su);
    StagesAgree(r, cs, st, declOf, programs, kept, RegsOf(r, st), g, a, b);
  }
}
