/** One stage in the parallel branch: which systems run is decided, their work items run in any
    interleaving, the values are written back, the buffers are merged and applied. */
module StageTick {
  import opened BufferMerge
  import opened CellStore
  import opened CommandOps
  import opened Fnv
  import opened Schedule
  import opened StageExecution
  import opened StageReservations
  import opened StoreRefinement
  import opened SystemAccess
  import opened WorkItems
  import opened WorldStore

  // ----- the systems' programs -----

  /** What a work item has to itself while it runs: its own variables and its command buffer. */
  datatype Local<P> = Local(own: P, rec: Recording)

  datatype Task<!P> = Task(item: Item<Content, Local<P>>, own: P)

  /** What the system of a type does with a part of its rows, and whether it runs at all, in the game
      as the stage finds it. */
  datatype Programs<!P> = Programs(tick: (Word, Game, Part) -> Task<P>, shouldRun: (Word, Game) -> bool)

  ghost function SigsOf(w: World): nat -> set<nat> {
    i => CompsAt(w, i).Keys
  }

  ghost predicate StaysWithin<P>(programs: Programs<P>, declOf: Word -> SystemDecl, t: Word, g: Game, part: Part) {
    RespectsDeclaration(programs.tick(t, g, part).item, declOf(t), RowsOf(g.world, part), SigsOf(g.world))
  }

  /** Every item touches only what its system declares, on the rows of its part; it may reserve slots. */
  ghost predicate Obedient<P(!new)>(programs: Programs<P>, declOf: Word -> SystemDecl) {
    forall t, g, part :: StaysWithin(programs, declOf, t, g, part)
  }

  /** Every alive system is registered from its declaration, and can be split if it is threaded. */
  ghost predicate Registered(reg: Registry, declOf: Word -> SystemDecl) {
    forall i: nat :: Alive(reg, i) ==>
      RegistrationOf(declOf(reg[i].typeId), reg[i]) && (reg[i].threaded ==> Splittable(declOf(reg[i].typeId)))
  }

  // ----- one stage -----

  /** run_flags: evaluated for every system before any of them runs. */
  function RunFlags<P>(programs: Programs<P>, regs: seq<Registration>, g: Game): (flags: seq<bool>)
    ensures |flags| == |regs|
  {
    seq(|regs|, k requires 0 <= k < |regs| => programs.shouldRun(regs[k].typeId, g))
  }

  function Awake<P>(programs: Programs<P>, regs: seq<Registration>, g: Game): (rs: seq<Registration>)
    ensures |rs| == |regs|
  {
    Flagged(regs, RunFlags(programs, regs, g))
  }

  function TasksOf<P>(programs: Programs<P>, regs: seq<Registration>, g: Game): (tasks: seq<Task<P>>)
    ensures |tasks| == |WorkList(regs, g.world.archs)|
  {
    var xs := WorkList(regs, g.world.archs);
    WorkListShape(regs, g.world.archs);
    seq(|xs|, k requires 0 <= k < |xs| => programs.tick(regs[xs[k].pos].typeId, g, xs[k].part))
  }

  function ItemsOf<P>(programs: Programs<P>, regs: seq<Registration>, g: Game): (items: seq<Item<Content, Local<P>>>)
    ensures |items| == |WorkList(regs, g.world.archs)|
    ensures forall k :: 0 <= k < |items| ==> items[k] == TasksOf(programs, regs, g)[k].item
  {
    var tasks := TasksOf(programs, regs, g);
    seq(|tasks|, k requires 0 <= k < |tasks| => tasks[k].item)
  }

  /** Every buffer cleared, every program at its start. */
  ghost function StartOf<P>(programs: Programs<P>, regs: seq<Registration>, g: Game): (st: State<Content, Local<P>>)
    ensures |st.locals| == |WorkList(regs, g.world.archs)| && st.store == CellsOf(g)
    ensures forall k :: 0 <= k < |st.locals| ==>
            st.locals[k] == Local(TasksOf(programs, regs, g)[k].own, Recording([], 0))
  {
    var tasks := TasksOf(programs, regs, g);
    State(CellsOf(g), seq(|tasks|, k requires 0 <= k < |tasks| => Local(tasks[k].own, Recording([], 0))))
  }

  /** The recordings of one system's items, in list order. */
  function RecsOf<P>(xs: seq<WorkItem>, locals: seq<Local<P>>, p: nat): seq<Recording>
    requires |xs| == |locals|
  {
    if xs == [] then []
    else
      var n := |xs| - 1;
      RecsOf(xs[..n], locals[..n], p) + if xs[n].pos == p then [locals[n].rec] else []
  }

  /** The systems' pending buffers after the merge pass, in stage order. */
  function Pendings<P>(n: nat, xs: seq<WorkItem>, locals: seq<Local<P>>): (rs: seq<Recording>)
    requires |xs| == |locals|
    ensures |rs| == n && forall p :: 0 <= p < n ==> rs[p] == MergeAll(Recording([], 0), RecsOf(xs, locals, p))
  {
    seq(n, p requires 0 <= p < n => MergeAll(Recording([], 0), RecsOf(xs, locals, p)))
  }

  /** After the barrier. */
  function StageEnd<P>(g: Game, regs: seq<Registration>, end: State<Content, Local<P>>): Game
    requires |end.locals| == |WorkList(regs, g.world.archs)|
  {
    Game(ApplyRecordings(WriteBack(g.world, end.store), Pendings(|regs|, WorkList(regs, g.world.archs), end.locals)),
         SinglesWith(g.singles, end.store))
  }

  /** The interleaving runs every item to its end, and one that reserves slots has the slot table to itself. */
  ghost predicate StageRuns<P>(programs: Programs<P>, regs: seq<Registration>, g: Game, sched: seq<nat>) {
    Finishes(ItemsOf(programs, regs, g), StartOf(programs, regs, g), sched)
      && AllocatorApart(ItemsOf(programs, regs, g))
  }

  ghost function ParallelEnd<P>(programs: Programs<P>, regs: seq<Registration>, g: Game, sched: seq<nat>): Game {
    var items, st := ItemsOf(programs, regs, g), StartOf(programs, regs, g);
    if Schedules(items, sched) then StageEnd(g, regs, Run(items, st, sched)) else g
  }

  predicate StagesIn(reg: Registry, stages: seq<seq<nat>>) {
    forall s :: 0 <= s < |stages| ==> StageIn(reg, stages[s])
  }

  // ----- a stage does not depend on its interleaving -----

  ghost function DeclsOf(reg: Registry, declOf: Word -> SystemDecl): (ds: seq<SystemDecl>)
    ensures |ds| == |reg| && forall i :: 0 <= i < |ds| ==> ds[i] == declOf(reg[i].typeId)
  {
    seq(|reg|, i requires 0 <= i < |reg| => declOf(reg[i].typeId))
  }

  lemma StageMembers(reg: Registry, cs: seq<Pair>, stages: seq<seq<nat>>, s: nat)
    requires IsSchedule(reg, cs, stages) && s < |stages|
    ensures Digraph.Distinct(stages[s]) && forall k :: 0 <= k < |stages[s]| ==> Alive(reg, stages[s][k])
  {
    forall k | 0 <= k < |stages[s]| ensures Alive(reg, stages[s][k]) {
      assert stages[s][k] in stages[s];
      ExactlyOneStage(reg, cs, stages, stages[s][k]);
    }
  }

  /** The registry, its schedule and the systems' declarations. */
  ghost predicate Setup(reg: Registry, cs: seq<Pair>, stages: seq<seq<nat>>, declOf: Word -> SystemDecl) {
    IsSchedule(reg, cs, stages) && StagesIn(reg, stages) && Registered(reg, declOf)
  }

  lemma StageDivides(reg: Registry, cs: seq<Pair>, stages: seq<seq<nat>>, s: nat, declOf: Word -> SystemDecl,
                     flags: seq<bool>, w: World)
    requires Setup(reg, cs, stages, declOf) && s < |stages|
    requires |flags| == |stages[s]|
    ensures var xs := WorkList(Flagged(StageRegs(reg, stages[s]), flags), w.archs);
            && (forall k :: 0 <= k < |xs| ==> xs[k].pos < |stages[s]|)
            && StageWork(reg, DeclsOf(reg, declOf), stages[s], WorksOf(w, stages[s], xs))
  {
    StageMembers(reg, cs, stages, s);
    ListIsStageWork(reg, DeclsOf(reg, declOf), stages[s], flags, w);
  }

  lemma TasksWithin<P(!new)>(reg: Registry, stage: seq<nat>, declOf: Word -> SystemDecl, programs: Programs<P>,
                             flags: seq<bool>, g: Game,
                             xs: seq<WorkItem>, works: seq<Work>)
    requires StageIn(reg, stage) && |flags| == |stage| && Obedient(programs, declOf)
    requires xs == WorkList(Flagged(StageRegs(reg, stage), flags), g.world.archs)
             && forall k :: 0 <= k < |xs| ==> xs[k].pos < |stage|
    requires works == WorksOf(g.world, stage, xs)
    ensures var items := ItemsOf(programs, Flagged(StageRegs(reg, stage), flags), g);
            |items| == |works| && forall k :: 0 <= k < |items| ==>
              works[k].sys < |reg| && RespectsDeclaration(items[k], DeclsOf(reg, declOf)[works[k].sys], works[k].rows,
                                                          SigsOf(g.world))
  {
    var regs := Flagged(StageRegs(reg, stage), flags);
    forall k | 0 <= k < |xs| ensures StaysWithin(programs, declOf, regs[xs[k].pos].typeId, g, xs[k].part) {
    }
  }

  /** The items of a stage do not interfere, and so all their complete runs agree. */
  lemma StageIndependent<P(!new)>(reg: Registry, cs: seq<Pair>, stages: seq<seq<nat>>, s: nat,
                                  declOf: Word -> SystemDecl,
                                  programs: Programs<P>, flags: seq<bool>, g: Game)
    requires Setup(reg, cs, stages, declOf) && s < |stages| && |flags| == |stages[s]| && Obedient(programs, declOf)
    requires AllocatorApart(ItemsOf(programs, Flagged(StageRegs(reg, stages[s]), flags), g))
    ensures Independent(ItemsOf(programs, Flagged(StageRegs(reg, stages[s]), flags), g))
  {
    StageDivides(reg, cs, stages, s, declOf, flags, g.world);
    var xs := WorkList(Flagged(StageRegs(reg, stages[s]), flags), g.world.archs);
    var works := WorksOf(g.world, stages[s], xs);
    TasksWithin(reg, stages[s], declOf, programs, flags, g, xs, works);
    StageItemsIndependent(reg, cs, stages, s, DeclsOf(reg, declOf), works,
                          ItemsOf(programs, Flagged(StageRegs(reg, stages[s]), flags), g), SigsOf(g.world));
  }

  // ----- a stage keeps the store invariant -----

  ghost predicate StepValid<P>(item: Item<Content, Local<P>>, local: Local<P>, view: map<Cell, Content>) {
    ValidOps(local.rec.ops) && item.step(local, view).Step? ==> ValidOps(item.step(local, view).local.rec.ops)
  }

  ghost predicate WellBehaved<P(!new)>(task: Task<P>, kept: Local<P> -> seq<EntityId>) {
    && RecordsSerially(task.item, kept) && kept(Local(task.own, Recording([], 0))) == []
    && forall local: Local<P>, view: map<Cell, Content> :: StepValid(task.item, local, view)
  }

  /** The programs record through the command buffer: only valid ops, and reservations as it makes them. */
  ghost predicate Recorders<P(!new)>(programs: Programs<P>, kept: Local<P> -> seq<EntityId>) {
    forall t, g, part :: WellBehaved(programs.tick(t, g, part), kept)
  }

  ghost predicate AllValid<P>(locals: seq<Local<P>>) {
    forall i :: 0 <= i < |locals| ==> ValidOps(locals[i].rec.ops)
  }

  lemma {:induction false} RunValid<P(!new)>(items: seq<Item<Content, Local<P>>>, st: State<Content, Local<P>>,
                                             sched: seq<nat>)
    requires |items| == |st.locals| && Schedules(items, sched) && AllValid(st.locals)
    requires forall i, local, view :: 0 <= i < |items| ==> StepValid(items[i], local, view)
    ensures AllValid(Run(items, st, sched).locals)
    decreases |sched|
  {
    if sched != [] {
      RunValid(items, st, sched[..|sched| - 1]);
      var mid, j := Run(items, st, sched[..|sched| - 1]), sched[|sched| - 1];
      assert StepValid(items[j], mid.locals[j], View(items[j], mid.store));
    }
  }

  lemma {:induction false} RecsValid<P>(xs: seq<WorkItem>, locals: seq<Local<P>>, p: nat)
    requires |xs| == |locals| && AllValid(locals)
    ensures forall k :: 0 <= k < |RecsOf(xs, locals, p)| ==> ValidOps(RecsOf(xs, locals, p)[k].ops)
  {
    if xs != [] {
      RecsValid(xs[..|xs| - 1], locals[..|xs| - 1], p);
    }
  }

  lemma {:induction false} MergeAllValid(a: Recording, bs: seq<Recording>)
    requires ValidOps(a.ops) && forall k :: 0 <= k < |bs| ==> ValidOps(bs[k].ops)
    ensures ValidOps(MergeAll(a, bs).ops)
  {
    if bs != [] {
      var before := MergeAll(a, bs[..|bs| - 1]);
      MergeAllValid(a, bs[..|bs| - 1]);
      MergeValid(before.ops, bs[|bs| - 1].ops, before.deferred);
    }
  }

  lemma {:induction false} ApplyRecordingsInv(w: World, rs: seq<Recording>)
    requires Inv(w) && forall k :: 0 <= k < |rs| ==> ValidOps(rs[k].ops)
    ensures Inv(ApplyRecordings(w, rs))
  {
    if rs != [] {
      var before, last := ApplyRecordings(w, rs[..|rs| - 1]), rs[|rs| - 1];
      ApplyRecordingsInv(w, rs[..|rs| - 1]);
      ApplyRefines(ApplyState(before, Unresolved(last.deferred)), last.ops);
    }
  }

  lemma StageKeepsInv<P(!new)>(programs: Programs<P>, kept: Local<P> -> seq<EntityId>, regs: seq<Registration>, g: Game,
                               sched: seq<nat>)
    requires Recorders(programs, kept) && Inv(g.world)
    ensures Inv(ParallelEnd(programs, regs, g, sched).world)
  {
    var items, st, xs := ItemsOf(programs, regs, g), StartOf(programs, regs, g), WorkList(regs, g.world.archs);
    if Schedules(items, sched) {
      StageStarts(programs, kept, regs, g);
      var end := Run(items, st, sched);
      var n := RunShares(items, kept, g.world, st, sched);
      WriteBackInv(g.world, end.store, n);
      RunValid(items, st, sched);
      var rs := Pendings(|regs|, xs, end.locals);
      forall p | 0 <= p < |rs| ensures ValidOps(rs[p].ops) {
        RecsValid(xs, end.locals, p);
        MergeAllValid(Recording([], 0), RecsOf(xs, end.locals, p));
      }
      ApplyRecordingsInv(WriteBack(g.world, end.store), rs);
    }
  }

  lemma StageStarts<P(!new)>(programs: Programs<P>, kept: Local<P> -> seq<EntityId>, regs: seq<Registration>, g: Game)
    requires Recorders(programs, kept) && Inv(g.world)
    ensures Starts(ItemsOf(programs, regs, g), kept, g.world, StartOf(programs, regs, g))
    ensures AllValid(StartOf(programs, regs, g).locals)
    ensures forall i, local, view :: 0 <= i < |ItemsOf(programs, regs, g)| ==>
            StepValid(ItemsOf(programs, regs, g)[i], local, view)
  {
    var items, xs := ItemsOf(programs, regs, g), WorkList(regs, g.world.archs);
    WorkListShape(regs, g.world.archs);
    forall i | 0 <= i < |items|
      ensures WellBehaved(TasksOf(programs, regs, g)[i], kept)
    {
      assert WellBehaved(programs.tick(regs[xs[i].pos].typeId, g, xs[i].part), kept);
    }
  }
}
