/** What the tick theorems ask of systems can be met, whatever is declared: systems that read and write
    all they may, and ticks of them in both modes. */
module FullSystems {
  import opened CellStore
  import opened Fnv
  import opened Schedule
  import opened SerialStage
  import opened StageExecution
  import opened StageReservations
  import opened StageTick
  import opened SystemAccess
  import opened Tick
  import W = WorkItems
  import opened WorldStore

  // ----- systems that use all they declare -----

  /** One more in every cell that holds a value. */
  function Increased(view: map<Cell, Content>): (r: map<Cell, Content>)
    ensures forall x :: x in r ==> x in view && view[x].Value? && r[x] == Content.Value(view[x].value + 1)
  {
    map x | x in view && view[x].Value? :: Content.Value(view[x].value + 1)
  }

  /** Increases everything in reach once, and is done. */
  function Once(): (Local<bool>, map<Cell, Content>) -> Outcome<Content, Local<bool>> {
    (local: Local<bool>, view: map<Cell, Content>) =>
      if local.own then Done else Step(local.(own := true), Increased(view))
  }

  /** All that the declaration lets an item of the part read or write, in a consistent game. */
  ghost function Reach(d: SystemDecl, g: Game, part: W.Part, write: bool): iset<Cell> {
    iset c | Inv(g.world) && Within(d, W.RowsOf(g.world, part), SigsOf(g.world), c, write)
  }

  ghost function FullTask(d: SystemDecl, g: Game, part: W.Part): Task<bool> {
    Task(Item(Reach(d, g, part, false), Reach(d, g, part, true), Once()), false)
  }

  ghost function Full(declOf: Word -> SystemDecl): Programs<bool> {
    Programs((t, g, part) => FullTask(declOf(t), g, part), (t, g) => true)
  }

  function NothingKept(): Local<bool> -> seq<EntityId> {
    (local: Local<bool>) => []
  }

  /** The footprint is the whole declared one. */
  lemma FullFootprint(declOf: Word -> SystemDecl, t: Word, g: Game, part: W.Part, c: Cell)
    requires Inv(g.world)
    ensures var item := Full(declOf).tick(t, g, part).item;
            && (c in item.inputs <==> Within(declOf(t), W.RowsOf(g.world, part), SigsOf(g.world), c, false))
            && (c in item.outputs <==> Within(declOf(t), W.RowsOf(g.world, part), SigsOf(g.world), c, true))
  {
  }

  lemma FullObedient(declOf: Word -> SystemDecl)
    ensures Obedient(Full(declOf), declOf)
  {
    forall t, g, part ensures StaysWithin(Full(declOf), declOf, t, g, part) {
    }
  }

  // ----- consistent worlds with the same rows -----

  lemma LayoutRow(w: World, v: World, p: Place)
    requires LayoutOf(w.archs) == LayoutOf(v.archs) && HasRow(w, p)
    ensures HasRow(v, p) && RowAt(v, p).eid == RowAt(w, p).eid && v.archs[p.arch].sig == w.archs[p.arch].sig
  {
    SameLayoutAt(w.archs, v.archs, p.arch);
    var c, r := p.at.chunk, p.at.row;
    assert LayoutOf(w.archs)[p.arch] == LayoutOf(v.archs)[p.arch];
    assert ChunksIds(w.archs[p.arch].chunks)[c] == ChunksIds(v.archs[p.arch].chunks)[c];
    assert ChunkIds(w.archs[p.arch].chunks[c])[r] == ChunkIds(v.archs[p.arch].chunks[c])[r];
  }

  predicate SeatedAt(w: World, i: nat, p: Place) {
    p.Placed? && i < |w.slots| && w.slots[i].alive && w.slots[i].place == p
  }

  /** The slot of a row is fixed by the rows, and so are the components of its entity. */
  lemma LayoutSlot(w: World, v: World, i: nat, p: Place)
    requires Inv(w) && Inv(v) && LayoutOf(w.archs) == LayoutOf(v.archs) && SeatedAt(w, i, p)
    ensures SeatedAt(v, i, p) && CompsAt(v, i).Keys == CompsAt(w, i).Keys
  {
    assert Seated(w, i);
    LayoutRow(w, v, p);
    assert Owned(v, p);
    assert Seated(v, i);
    SlotComps(w, i, p);
    SlotComps(v, i, p);
  }

  lemma SlotComps(w: World, i: nat, p: Place)
    requires Inv(w) && SeatedAt(w, i, p)
    ensures HasRow(w, p) && forall c: nat :: c in CompsAt(w, i) <==> c in w.archs[p.arch].sig
  {
    assert Seated(w, i);
    assert ArchOk(w, w.archs[p.arch]);
  }

  lemma LayoutComps(w: World, v: World, i: nat)
    requires Inv(w) && Inv(v) && LayoutOf(w.archs) == LayoutOf(v.archs)
    ensures CompsAt(v, i).Keys == CompsAt(w, i).Keys
  {
    if i < |w.slots| && w.slots[i].alive && w.slots[i].place.Placed? {
      LayoutSlot(w, v, i, w.slots[i].place);
    } else if i < |v.slots| && v.slots[i].alive && v.slots[i].place.Placed? {
      LayoutSlot(v, w, i, v.slots[i].place);
    }
  }

  lemma LayoutSeats(w: World, v: World, i: nat, part: W.Part)
    requires Inv(w) && Inv(v) && LayoutOf(w.archs) == LayoutOf(v.archs) && i in W.RowsOf(w, part)
    ensures i in W.RowsOf(v, part)
  {
    if part.OneChunk? {
      assert W.SeatedIn(w, i, part.loc);
      LayoutSlot(w, v, i, w.slots[i].place);
    } else {
      assert W.AnyRow(i);
    }
  }

  lemma LayoutReach(d: SystemDecl, g: Game, h: Game, part: W.Part, write: bool)
    requires Inv(g.world) && Inv(h.world) && LayoutOf(g.world.archs) == LayoutOf(h.world.archs)
    ensures Reach(d, g, part, write) == Reach(d, h, part, write)
  {
    forall c ensures c in Reach(d, g, part, write) <==> c in Reach(d, h, part, write) {
      if c.Cell? {
        LayoutComps(g.world, h.world, c.row);
        if c.row in W.RowsOf(g.world, part) {
          LayoutSeats(g.world, h.world, c.row, part);
        } else if c.row in W.RowsOf(h.world, part) {
          LayoutSeats(h.world, g.world, c.row, part);
        }
      }
    }
  }

  /** For any declarations the full systems meet what a comparison of the two modes asks for. */
  lemma FullSerialisable(declOf: Word -> SystemDecl)
    ensures Serialisable(Full(declOf), NothingKept())
  {
    var programs := Full(declOf);
    forall t, g, h, part ensures SameProgram(programs, t, g, h, part) {
      if Inv(g.world) && Inv(h.world) && LayoutOf(g.world.archs) == LayoutOf(h.world.archs) {
        LayoutReach(declOf(t), g, h, part, false);
        LayoutReach(declOf(t), g, h, part, true);
      }
    }
    forall t, g, part
      ensures WritesValues(programs.tick(t, g, part).item)
      ensures WellBehaved(programs.tick(t, g, part), NothingKept())
    {
      FullWellBehaved(declOf(t), g, part);
    }
  }

  lemma FullWellBehaved(d: SystemDecl, g: Game, part: W.Part)
    ensures WritesValues(FullTask(d, g, part).item) && WellBehaved(FullTask(d, g, part), NothingKept())
  {
    var item := FullTask(d, g, part).item;
    forall local: Local<bool>, view: map<Cell, Content>, x: Cell ensures WritesValue(item, local, view, x) {
      assert item.step(local, view) == if local.own then Done else Step(local.(own := true), Increased(view));
    }
    forall local: Local<bool>, view: map<Cell, Content> | SlotTable in view ==> view[SlotTable].Slots?
      ensures StepReserves(item, NothingKept(), local, view)
    {
    }
    forall local: Local<bool>, view: map<Cell, Content> ensures StepValid(item, local, view) {
    }
  }

  // ----- and they run, in either mode -----

  function Left(): Local<bool> -> nat {
    (local: Local<bool>) => if local.own then 0 else 1
  }

  lemma FullHalts(d: SystemDecl, g: Game, part: W.Part)
    ensures Halts(FullTask(d, g, part).item, Left()) && !Consults(FullTask(d, g, part).item)
  {
    var item := FullTask(d, g, part).item;
    forall local: Local<bool>, view: map<Cell, Content> ensures StepCounts(item, Left(), local, view) {
    }
  }

  lemma ItemsFinish(items: seq<Item<Content, Local<bool>>>, st: State<Content, Local<bool>>) returns (sched: seq<nat>)
    requires |items| == |st.locals| && forall i :: 0 <= i < |items| ==> Halts(items[i], Left())
    ensures Finishes(items, st, sched)
  {
    sched := InTurn(Left(), st.locals, |items|);
    forall i: nat | i < |items| ensures Count(sched, i) >= Left()(st.locals[i]) {
      CountInTurn(Left(), st.locals, |items|, i);
    }
    EnoughSteps(items, Left(), st, sched);
  }

  lemma ParallelRuns(declOf: Word -> SystemDecl, regs: seq<Registration>, g: Game) returns (sched: seq<nat>)
    ensures StageRuns(Full(declOf), regs, g, sched)
  {
    var programs, xs := Full(declOf), W.WorkList(regs, g.world.archs);
    var items := ItemsOf(programs, regs, g);
    W.WorkListShape(regs, g.world.archs);
    forall i | 0 <= i < |items| ensures Halts(items[i], Left()) && !Consults(items[i]) {
      assert items[i] == FullTask(declOf(regs[xs[i].pos].typeId), g, xs[i].part).item;
      FullHalts(declOf(regs[xs[i].pos].typeId), g, xs[i].part);
    }
    sched := ItemsFinish(items, StartOf(programs, regs, g));
  }

  lemma OneTurn(declOf: Word -> SystemDecl, r: Registration, g: Game) returns (sched: seq<nat>)
    ensures TurnRuns(Full(declOf), r, g, sched)
  {
    var programs, parts := Full(declOf), W.PartsOf(r, g.world.archs);
    var items := TurnItems(programs, r, g);
    forall i | 0 <= i < |items| ensures Halts(items[i], Left()) && !Consults(items[i]) {
      assert items[i] == FullTask(declOf(r.typeId), g, parts[i]).item;
      FullHalts(declOf(r.typeId), g, parts[i]);
    }
    sched := ItemsFinish(items, TurnStart(programs, r, g));
  }

  lemma {:induction false} AllTurns(declOf: Word -> SystemDecl, regs: seq<Registration>, g: Game)
    returns (turns: seq<seq<nat>>)
    ensures |turns| == |regs| && TurnsRun(Full(declOf), regs, g, turns)
    decreases |regs|
  {
    if regs == [] {
      turns := [];
    } else {
      var n := |regs| - 1;
      var front := AllTurns(declOf, regs[..n], g);
      var last := OneTurn(declOf, regs[n], TurnsEnd(Full(declOf), regs[..n], g, front).game);
      turns := front + [last];
      assert turns[..n] == front;
    }
  }

  lemma OneWay(declOf: Word -> SystemDecl, regs: seq<Registration>, g: Game, serial: bool) returns (way: Way)
    ensures WayRuns(Full(declOf), regs, g, way) && way.Serial? == serial
  {
    if serial {
      var turns := AllTurns(declOf, Awake(Full(declOf), regs, g), g);
      way := Serial(turns);
    } else {
      var sched := ParallelRuns(declOf, Awake(Full(declOf), regs, g), g);
      way := Parallel(sched);
    }
  }

  /** All stages are run in one mode. */
  predicate InMode(ways: seq<Way>, serial: bool) {
    forall s :: 0 <= s < |ways| ==> ways[s].Serial? == serial
  }

  lemma {:induction false} AllWays(declOf: Word -> SystemDecl, stages: seq<seq<Registration>>, g: Game, serial: bool)
    returns (ways: seq<Way>)
    ensures |ways| == |stages| && TickRuns(Full(declOf), stages, g, ways) && InMode(ways, serial)
    decreases |stages|
  {
    if stages == [] {
      ways := [];
    } else {
      var n := |stages| - 1;
      var front := AllWays(declOf, stages[..n], g, serial);
      var last := OneWay(declOf, stages[n], TickEnd(Full(declOf), stages[..n], g, front), serial);
      ways := front + [last];
      OneMoreStage(Full(declOf), stages, g, front, last, ways);
    }
  }

  lemma OneMoreStage<P>(programs: Programs<P>, stages: seq<seq<Registration>>, g: Game, front: seq<Way>, last: Way,
                        ways: seq<Way>)
    requires |stages| == |front| + 1 && ways == front + [last]
    requires TickRuns(programs, stages[..|front|], g, front)
    requires WayRuns(programs, stages[|front|], TickEnd(programs, stages[..|front|], g, front), last)
    ensures TickRuns(programs, stages, g, ways)
  {
    assert ways[..|front|] == front;
  }

  /** Ticks of the full systems end alike, whatever the modes. */
  lemma FullTicksAgree(reg: Registry, cs: seq<Pair>, stages: seq<seq<nat>>, declOf: Word -> SystemDecl, g: Game,
                       regs: seq<seq<Registration>>, a: seq<Way>, b: seq<Way>)
    requires Setup(reg, cs, stages, declOf) && OfStages(reg, stages, regs) && Inv(g.world)
    requires |a| == |b| == |regs| && TickRuns(Full(declOf), regs, g, a) && TickRuns(Full(declOf), regs, g, b)
    ensures TickEnd(Full(declOf), regs, g, a) == TickEnd(Full(declOf), regs, g, b)
  {
    FullObedient(declOf);
    FullSerialisable(declOf);
    StagesAgree(reg, cs, stages, declOf, Full(declOf), NothingKept(), regs, g, a, b);
  }

  lemma BothModes(reg: Registry, cs: seq<Pair>, stages: seq<seq<nat>>, declOf: Word -> SystemDecl, g: Game,
                  regs: seq<seq<Registration>>) returns (a: seq<Way>, b: seq<Way>)
    requires Setup(reg, cs, stages, declOf) && OfStages(reg, stages, regs) && Inv(g.world)
    ensures |a| == |b| == |regs| && TickRuns(Full(declOf), regs, g, a) && TickRuns(Full(declOf), regs, g, b)
    ensures InMode(a, false) && InMode(b, true)
    ensures TickEnd(Full(declOf), regs, g, a) == TickEnd(Full(declOf), regs, g, b)
  {
    a := AllWays(declOf, regs, g, false);
    b := AllWays(declOf, regs, g, true);
    FullTicksAgree(reg, cs, stages, declOf, g, regs, a, b);
  }

  /** Any schedule of any declared systems has a parallel and a serial tick of the full systems, and
      they end alike. */
  lemma BothModesRun(reg: Registry, cs: seq<Pair>, stages: seq<seq<nat>>, declOf: Word -> SystemDecl, g: Game)
    returns (a: seq<Way>, b: seq<Way>)
    requires IsSchedule(reg, cs, stages) && Registered(reg, declOf) && Inv(g.world)
    ensures |a| == |b| == |stages|
    ensures InMode(a, false) && InMode(b, true)
    ensures TickRuns(Full(declOf), ScheduleRegs(reg, cs, stages), g, a)
    ensures TickRuns(Full(declOf), ScheduleRegs(reg, cs, stages), g, b)
    ensures TickEnd(Full(declOf), ScheduleRegs(reg, cs, stages), g, a) ==
            TickEnd(Full(declOf), ScheduleRegs(reg, cs, stages), g, b)
  {
    var regs := ScheduleRegs(reg, cs, stages);
    ScheduleOfStages(reg, cs, stages, regs);
    a, b := BothModes(reg, cs, stages, declOf, g, regs);
  }
}
