/** What a stage and a tick do, without the functions that describe how the scheduler goes about it:
    which systems run and on what, what each mode leaves behind, and that stages follow each other. */
module TickMeaning {
  import opened BufferMerge
  import opened CellStore
  import Q = Queries
  import opened SerialStage
  import opened StageExecution
  import opened StageReservations
  import opened StageTick
  import opened SystemAccess
  import opened Tick
  import opened WorkItems
  import opened WorldStore

  // ----- which systems run -----

  /** The system runs in this stage: it is alive and its predicate, asked as the stage begins, holds. */
  predicate Ticks<P>(programs: Programs<P>, r: Registration, g: Game) {
    r.alive && programs.shouldRun(r.typeId, g)
  }

  predicate InStage<P>(programs: Programs<P>, regs: seq<Registration>, g: Game, x: WorkItem) {
    x.pos < |regs| && Ticks(programs, regs[x.pos], g) && PartListed(regs[x.pos], g.world.archs, x.part)
  }

  /** xs are the work items of a stage: the whole of each plain system that runs, and one item per
      nonempty matching chunk of each threaded system that runs, each once and in stage order. */
  ghost predicate IsStageList<P(!new)>(programs: Programs<P>, regs: seq<Registration>, g: Game, xs: seq<WorkItem>) {
    ItemsInOrder(xs) && forall x :: x in xs <==> InStage(programs, regs, g, x)
  }

  lemma AwakeIs<P>(programs: Programs<P>, regs: seq<Registration>, g: Game, p: nat)
    requires p < |regs|
    ensures Awake(programs, regs, g)[p] == regs[p].(alive := Ticks(programs, regs[p], g))
  {
  }

  lemma StageListed<P(!new)>(programs: Programs<P>, regs: seq<Registration>, g: Game)
    ensures IsStageList(programs, regs, g, WorkList(Awake(programs, regs, g), g.world.archs))
  {
    var awake := Awake(programs, regs, g);
    WorkListIs(awake, g.world.archs);
    forall x ensures ItemListed(awake, g.world.archs, x) <==> InStage(programs, regs, g, x) {
      if x.pos < |regs| {
        AwakeIs(programs, regs, g, x.pos);
      }
    }
  }

  /** There is only one such list. */
  lemma StageListUnique<P(!new)>(programs: Programs<P>, regs: seq<Registration>, g: Game, xs: seq<WorkItem>)
    requires IsStageList(programs, regs, g, xs)
    ensures xs == WorkList(Awake(programs, regs, g), g.world.archs)
  {
    StageListed(programs, regs, g);
    ItemsUnique(xs, WorkList(Awake(programs, regs, g), g.world.archs));
  }

  /** The item at k is x, and it is there only once. */
  predicate OnlyAt(xs: seq<WorkItem>, k: nat, x: WorkItem) {
    k < |xs| && xs[k] == x && forall j :: 0 <= j < |xs| && xs[j] == x ==> j == k
  }

  lemma ItemsDiffer(xs: seq<WorkItem>, j: nat, k: nat)
    requires ItemsInOrder(xs) && j < k < |xs|
    ensures xs[j] != xs[k]
  {
    assert ItemBefore(xs[j], xs[k]);
  }

  lemma ListedOnce(xs: seq<WorkItem>, x: WorkItem) returns (k: nat)
    requires ItemsInOrder(xs) && x in xs
    ensures OnlyAt(xs, k, x)
  {
    k :| 0 <= k < |xs| && xs[k] == x;
    forall j | 0 <= j < |xs| && xs[j] == x ensures j == k {
      if j < k {
        ItemsDiffer(xs, j, k);
      } else if k < j {
        ItemsDiffer(xs, k, j);
      }
    }
  }

  /** Who runs: a system that does not run has no item; a plain one that runs has one item, for the
      whole of its work; a threaded one that runs has one item for every nonempty chunk that its query
      matches, and no others. */
  lemma WhoRuns<P(!new)>(programs: Programs<P>, regs: seq<Registration>, g: Game, xs: seq<WorkItem>, p: nat)
    requires xs == WorkList(Awake(programs, regs, g), g.world.archs) && p < |regs|
    ensures !(regs[p].alive && programs.shouldRun(regs[p].typeId, g)) ==> forall k :: 0 <= k < |xs| ==> xs[k].pos != p
    ensures regs[p].alive && programs.shouldRun(regs[p].typeId, g) && !regs[p].threaded ==>
              (exists k :: OnlyAt(xs, k, WorkItem(p, Whole)))
              && forall k :: 0 <= k < |xs| && xs[k].pos == p ==> xs[k].part == Whole
    ensures regs[p].alive && programs.shouldRun(regs[p].typeId, g) && regs[p].threaded ==>
              (forall l :: Q.IteratedChunk(g.world.archs, regs[p].requireIds, regs[p].excludeIds, l) ==>
                 exists k :: OnlyAt(xs, k, WorkItem(p, OneChunk(l))))
              && forall k :: 0 <= k < |xs| && xs[k].pos == p ==>
                   xs[k].part.OneChunk?
                   && Q.IteratedChunk(g.world.archs, regs[p].requireIds, regs[p].excludeIds, xs[k].part.loc)
  {
    StageListed(programs, regs, g);
    forall k | 0 <= k < |xs| && xs[k].pos == p ensures InStage(programs, regs, g, xs[k]) {
      assert xs[k] in xs;
    }
    forall x: WorkItem | x.pos == p && InStage(programs, regs, g, x) ensures exists k :: OnlyAt(xs, k, x) {
      assert x in xs;
      var k := ListedOnce(xs, x);
    }
    forall l | Ticks(programs, regs[p], g) && regs[p].threaded
      && Q.IteratedChunk(g.world.archs, regs[p].requireIds, regs[p].excludeIds, l)
      ensures exists k :: OnlyAt(xs, k, WorkItem(p, OneChunk(l)))
    {
      assert InStage(programs, regs, g, WorkItem(p, OneChunk(l)));
    }
    if Ticks(programs, regs[p], g) && !regs[p].threaded {
      assert InStage(programs, regs, g, WorkItem(p, Whole));
    }
  }

  // ----- a parallel stage -----

  /** Every item belongs to a system of the stage. */
  ghost predicate Positioned(regs: seq<Registration>, xs: seq<WorkItem>) {
    forall k :: 0 <= k < |xs| ==> xs[k].pos < |regs|
  }

  function TasksFor<P>(programs: Programs<P>, regs: seq<Registration>, g: Game, xs: seq<WorkItem>): (ts: seq<Task<P>>)
    requires Positioned(regs, xs)
    ensures |ts| == |xs|
    ensures forall k :: 0 <= k < |ts| ==> ts[k] == programs.tick(regs[xs[k].pos].typeId, g, xs[k].part)
  {
    seq(|xs|, k requires 0 <= k < |xs| => programs.tick(regs[xs[k].pos].typeId, g, xs[k].part))
  }

  function ItemsIn<P>(tasks: seq<Task<P>>): (items: seq<Item<Content, Local<P>>>)
    ensures |items| == |tasks| && forall k :: 0 <= k < |items| ==> items[k] == tasks[k].item
  {
    seq(|tasks|, k requires 0 <= k < |tasks| => tasks[k].item)
  }

  /** The cells of the game, and every program at its start with an empty buffer. */
  ghost function StartIn<P>(tasks: seq<Task<P>>, g: Game): (st: State<Content, Local<P>>)
    ensures st.store == CellsOf(g) && |st.locals| == |tasks|
    ensures forall k :: 0 <= k < |tasks| ==> st.locals[k] == Local(tasks[k].own, Recording([], 0))
  {
    State(CellsOf(g), seq(|tasks|, k requires 0 <= k < |tasks| => Local(tasks[k].own, Recording([], 0))))
  }

  ghost predicate AllWellRecorded<P>(locals: seq<Local<P>>) {
    forall k :: 0 <= k < |locals| ==> WellRecorded(locals[k].rec)
  }

  /** The values the items left are in place, and their buffers have been applied one after another,
      in the order of the items. */
  function AfterBarrier<P>(g: Game, end: State<Content, Local<P>>): Game {
    Game(ApplyRecordings(WriteBack(g.world, end.store), RecordsOf(end.locals)), SinglesWith(g.singles, end.store))
  }

  lemma ApplyEmpty(w: World)
    ensures ApplyRecording(w, Recording([], 0)) == w
  {
  }

  lemma {:induction false} ApplyInTurn(w: World, a: seq<Recording>, b: seq<Recording>)
    ensures ApplyRecordings(w, a + b) == ApplyRecordings(ApplyRecordings(w, a), b)
  {
    if b == [] {
      assert a + b == a;
    } else {
      ApplyInTurn(w, a, b[..|b| - 1]);
      assert (a + b)[..|a + b| - 1] == a + b[..|b| - 1];
    }
  }

  /** A pending buffer is applied like the buffers it was merged from. */
  lemma ApplyPending(w: World, before: seq<Recording>, bs: seq<Recording>)
    requires forall k :: 0 <= k < |bs| ==> WellRecorded(bs[k])
    ensures ApplyRecordings(w, before + [MergeAll(Recording([], 0), bs)]) ==
            ApplyRecordings(ApplyRecordings(w, before), bs)
  {
    var m, v := MergeAll(Recording([], 0), bs), ApplyRecordings(w, before);
    assert (before + [m])[..|before|] == before;
    MergeAllThenApply(v, Recording([], 0), bs);
    ApplyEmpty(v);
  }

  lemma NextPending(w: World, before: seq<Recording>, after: seq<Recording>, ra: seq<Recording>, rb: seq<Recording>,
                    rs: seq<Recording>)
    requires after == before + [MergeAll(Recording([], 0), rb)] && rs == ra + rb
    requires forall k :: 0 <= k < |rb| ==> WellRecorded(rb[k])
    requires ApplyRecordings(w, before) == ApplyRecordings(w, ra)
    ensures ApplyRecordings(w, after) == ApplyRecordings(w, rs)
  {
    ApplyPending(w, before, rb);
    ApplyInTurn(w, ra, rb);
  }

  lemma SplitRecords<P>(locals: seq<Local<P>>, a: seq<Local<P>>, b: seq<Local<P>>)
    requires AllWellRecorded(locals) && locals == a + b
    ensures AllWellRecorded(a) && RecordsOf(locals) == RecordsOf(a) + RecordsOf(b)
    ensures forall k :: 0 <= k < |b| ==> WellRecorded(RecordsOf(b)[k])
  {
    forall k | 0 <= k < |b| ensures WellRecorded(b[k].rec) {
      assert locals[|a| + k] == b[k];
    }
    forall k | 0 <= k < |a| ensures WellRecorded(a[k].rec) {
      assert locals[k] == a[k];
    }
  }

  lemma PendingsStep<P>(w: World, regs: seq<Registration>, front: seq<Registration>, g: Game, a: seq<Local<P>>,
                        b: seq<Local<P>>, locals: seq<Local<P>>)
    requires regs != [] && front == regs[..|regs| - 1] && locals == a + b && AllWellRecorded(locals)
    requires |a| == |WorkList(front, g.world.archs)| && |locals| == |WorkList(regs, g.world.archs)|
    requires ApplyRecordings(w, Pendings(|front|, WorkList(front, g.world.archs), a)) ==
             ApplyRecordings(w, RecordsOf(a))
    ensures ApplyRecordings(w, Pendings(|regs|, WorkList(regs, g.world.archs), locals)) ==
            ApplyRecordings(w, RecordsOf(locals))
  {
    SplitRecords(locals, a, b);
    PendingsMore(regs, g, a, b);
    NextPending(w, Pendings(|front|, WorkList(front, g.world.archs), a),
                Pendings(|regs|, WorkList(regs, g.world.archs), locals), RecordsOf(a), RecordsOf(b), RecordsOf(locals));
  }

  /** The pending buffers of the systems, in stage order, hold the items' buffers in list order. */
  lemma {:induction false} PendingsInOrder<P>(w: World, regs: seq<Registration>, g: Game, locals: seq<Local<P>>)
    requires |locals| == |WorkList(regs, g.world.archs)| && AllWellRecorded(locals)
    ensures ApplyRecordings(w, Pendings(|regs|, WorkList(regs, g.world.archs), locals)) ==
            ApplyRecordings(w, RecordsOf(locals))
    decreases |regs|
  {
    if regs != [] {
      var front := regs[..|regs| - 1];
      var m := |WorkList(front, g.world.archs)|;
      var a, b := locals[..m], locals[m..];
      assert locals == a + b;
      SplitRecords(locals, a, b);
      PendingsInOrder(w, front, g, a);
      PendingsStep(w, regs, front, g, a, b, locals);
    }
  }

  lemma StageTasks<P(!new)>(programs: Programs<P>, regs: seq<Registration>, g: Game, xs: seq<WorkItem>)
    requires IsStageList(programs, regs, g, xs)
    ensures Positioned(regs, xs)
    ensures ItemsOf(programs, Awake(programs, regs, g), g) == ItemsIn(TasksFor(programs, regs, g, xs))
    ensures StartOf(programs, Awake(programs, regs, g), g) == StartIn(TasksFor(programs, regs, g, xs), g)
  {
    var awake := Awake(programs, regs, g);
    StageListUnique(programs, regs, g, xs);
    forall k | 0 <= k < |xs|
      ensures xs[k].pos < |regs|
              && TasksOf(programs, awake, g)[k] == programs.tick(regs[xs[k].pos].typeId, g, xs[k].part)
    {
      assert xs[k] in xs;
      AwakeIs(programs, regs, g, xs[k].pos);
    }
    assert TasksOf(programs, awake, g) == TasksFor(programs, regs, g, xs);
  }

  /** A stage in the parallel branch runs exactly the items of its list, from the cells of the game and
      empty buffers, then puts the values in place and applies the buffers in list order. */
  lemma ParallelMeaning<P(!new)>(programs: Programs<P>, regs: seq<Registration>, g: Game, xs: seq<WorkItem>,
                                 sched: seq<nat>)
    requires IsStageList(programs, regs, g, xs)
    ensures Positioned(regs, xs)
    ensures var tasks := TasksFor(programs, regs, g, xs);
            Schedules(ItemsIn(tasks), sched) ==>
              var end := Run(ItemsIn(tasks), StartIn(tasks, g), sched);
              AllWellRecorded(end.locals) ==>
                StageAfter(programs, regs, g, Parallel(sched)) == AfterBarrier(g, end)
  {
    var awake := Awake(programs, regs, g);
    StageTasks(programs, regs, g, xs);
    StageListUnique(programs, regs, g, xs);
    var tasks := TasksFor(programs, regs, g, xs);
    if Schedules(ItemsIn(tasks), sched) {
      var end := Run(ItemsIn(tasks), StartIn(tasks, g), sched);
      if AllWellRecorded(end.locals) {
        PendingsInOrder(WriteBack(g.world, end.store), awake, g, end.locals);
      }
    }
  }

  // ----- a stage in turns -----

  /** The parts a system iterates in its turn: whether it runs was asked as the stage began, in g, and
      the chunks are those of its turn. */
  ghost predicate IsTurnList<P>(programs: Programs<P>, r: Registration, g: Game, archs: seq<Archetype>,
                                parts: seq<Part>)
  {
    PartsInOrder(parts) && forall part :: part in parts <==> Ticks(programs, r, g) && PartListed(r, archs, part)
  }

  function TurnTasksFor<P>(programs: Programs<P>, r: Registration, g: Game, parts: seq<Part>): (ts: seq<Task<P>>)
    ensures |ts| == |parts| && forall k :: 0 <= k < |ts| ==> ts[k] == programs.tick(r.typeId, g, parts[k])
  {
    seq(|parts|, k requires 0 <= k < |parts| => programs.tick(r.typeId, g, parts[k]))
  }

  /** One turn: the parts run from the cells of the game, the values are put in place at once, and the
      buffers wait, spliced into one, behind those of the systems before. */
  ghost predicate TurnTaken<P>(programs: Programs<P>, r: Registration, parts: seq<Part>, t: Turned, sched: seq<nat>,
                               u: Turned)
  {
    var tasks := TurnTasksFor(programs, r, t.game, parts);
    if Schedules(ItemsIn(tasks), sched) then
      var end := Run(ItemsIn(tasks), StartIn(tasks, t.game), sched);
      u == Turned(Settle(t.game, end.store), t.pending + [MergeAll(Recording([], 0), RecordsOf(end.locals))])
    else u == t
  }

  ghost predicate TurnIs<P>(programs: Programs<P>, r: Registration, g: Game, t: Turned, sched: seq<nat>, u: Turned) {
    exists parts :: IsTurnList(programs, r, g, t.game.world.archs, parts) && TurnTaken(programs, r, parts, t, sched, u)
  }

  /** The states between the turns, from the beginning of the stage. */
  ghost predicate InTurns<P>(programs: Programs<P>, regs: seq<Registration>, g: Game, turns: seq<seq<nat>>,
                             ts: seq<Turned>)
    requires |turns| == |regs|
  {
    |ts| == |regs| + 1 && ts[0] == Turned(g, [])
    && forall p: nat :: p < |regs| ==> TurnIs(programs, regs[p], g, ts[p], turns[p], ts[p + 1])
  }

  /** awake are the registrations of which only those that run are left alive. */
  ghost predicate AwakeOf<P>(programs: Programs<P>, regs: seq<Registration>, g: Game, awake: seq<Registration>) {
    |awake| == |regs|
    && forall p :: 0 <= p < |regs| ==> awake[p] == regs[p].(alive := Ticks(programs, regs[p], g))
  }

  lemma AwakeTurn<P>(programs: Programs<P>, r: Registration, g: Game, awake: Registration, t: Turned, sched: seq<nat>)
    requires awake == r.(alive := Ticks(programs, r, g))
    ensures TurnIs(programs, r, g, t, sched, TurnEnd(programs, awake, t, sched))
  {
    var parts := PartsOf(awake, t.game.world.archs);
    PartsListed(awake, t.game.world.archs);
    forall part ensures part in parts <==> Ticks(programs, r, g) && PartListed(r, t.game.world.archs, part) {
      assert PartListed(awake, t.game.world.archs, part) <==> PartListed(r, t.game.world.archs, part);
    }
    assert TurnTasks(programs, awake, t.game) == TurnTasksFor(programs, r, t.game, parts);
    assert TurnItems(programs, awake, t.game) == ItemsIn(TurnTasksFor(programs, r, t.game, parts));
    assert TurnStart(programs, awake, t.game) == StartIn(TurnTasksFor(programs, r, t.game, parts), t.game);
    assert IsTurnList(programs, r, g, t.game.world.archs, parts);
    assert TurnTaken(programs, r, parts, t, sched, TurnEnd(programs, awake, t, sched));
  }

  lemma {:induction false} TurnsTaken<P>(programs: Programs<P>, regs: seq<Registration>, g: Game,
                                         awake: seq<Registration>, turns: seq<seq<nat>>) returns (ts: seq<Turned>)
    requires AwakeOf(programs, regs, g, awake) && |turns| == |regs|
    ensures InTurns(programs, regs, g, turns, ts) && ts[|regs|] == TurnsEnd(programs, awake, g, turns)
  {
    if regs == [] {
      ts := [Turned(g, [])];
    } else {
      var n := |regs| - 1;
      var before := TurnsTaken(programs, regs[..n], g, awake[..n], turns[..n]);
      AwakeTurn(programs, regs[n], g, awake[n], before[n], turns[n]);
      ts := before + [TurnEnd(programs, awake[n], before[n], turns[n])];
      NextTaken(programs, regs, g, turns, n, before, TurnEnd(programs, awake[n], before[n], turns[n]), ts);
    }
  }

  lemma NextTaken<P>(programs: Programs<P>, regs: seq<Registration>, g: Game, turns: seq<seq<nat>>, n: nat,
                     before: seq<Turned>, last: Turned, ts: seq<Turned>)
    requires |turns| == |regs| == n + 1 && InTurns(programs, regs[..n], g, turns[..n], before) && ts == before + [last]
    requires TurnIs(programs, regs[n], g, before[n], turns[n], last)
    ensures InTurns(programs, regs, g, turns, ts)
  {
    forall p: nat | p < |regs| ensures TurnIs(programs, regs[p], g, ts[p], turns[p], ts[p + 1]) {
      if p < n {
        assert TurnIs(programs, regs[..n][p], g, before[p], turns[..n][p], before[p + 1]);
      }
    }
  }

  /** A stage in serial mode: every system that runs takes its turn on its own parts, the others do
      nothing in theirs, and at the end the pending buffers are applied in stage order. */
  lemma SerialMeaning<P>(programs: Programs<P>, regs: seq<Registration>, g: Game, turns: seq<seq<nat>>)
    returns (ts: seq<Turned>)
    requires |turns| == |regs|
    ensures InTurns(programs, regs, g, turns, ts)
    ensures StageAfter(programs, regs, g, Serial(turns)) ==
            Game(ApplyRecordings(ts[|regs|].game.world, ts[|regs|].pending), ts[|regs|].game.singles)
  {
    ts := TurnsTaken(programs, regs, g, Awake(programs, regs, g), turns);
  }

  // ----- a stage in which nobody runs -----

  lemma SomeItem<V, L>(items: seq<Item<V, L>>, sched: seq<nat>)
    requires Schedules(items, sched) && sched != []
    ensures items != []
  {
    assert sched[0] < |items|;
  }

  lemma EmptyParallel<P(!new)>(programs: Programs<P>, regs: seq<Registration>, g: Game, sched: seq<nat>)
    requires Inv(g.world) && forall p :: 0 <= p < |regs| ==> !Ticks(programs, regs[p], g)
    ensures StageAfter(programs, regs, g, Parallel(sched)) == g
  {
    assert IsStageList(programs, regs, g, []);
    ParallelMeaning(programs, regs, g, [], sched);
    StageTasks(programs, regs, g, []);
    SettleOwn(g);
    var tasks := TasksFor(programs, regs, g, []);
    if Schedules(ItemsIn(tasks), sched) {
      if sched != [] {
        SomeItem(ItemsIn(tasks), sched);
      }
      assert RecordsOf(StartIn(tasks, g).locals) == [];
    }
  }

  /** Buffers that are all empty. */
  predicate Blank(rs: seq<Recording>) {
    forall k :: 0 <= k < |rs| ==> rs[k] == Recording([], 0)
  }

  lemma {:induction false} BlankApplies(w: World, rs: seq<Recording>)
    requires Blank(rs)
    ensures ApplyRecordings(w, rs) == w
  {
    if rs != [] {
      BlankApplies(w, rs[..|rs| - 1]);
      ApplyEmpty(w);
    }
  }

  lemma EmptyTurn<P>(programs: Programs<P>, r: Registration, t: Turned, sched: seq<nat>)
    requires Inv(t.game.world) && !r.alive && Blank(t.pending)
    ensures TurnEnd(programs, r, t, sched).game == t.game && Blank(TurnEnd(programs, r, t, sched).pending)
  {
    var items := TurnItems(programs, r, t.game);
    if Schedules(items, sched) {
      if sched != [] {
        SomeItem(items, sched);
      }
      SettleOwn(t.game);
      assert RecordsOf(TurnStart(programs, r, t.game).locals) == [];
    }
  }

  lemma {:induction false} EmptyTurns<P>(programs: Programs<P>, awake: seq<Registration>, g: Game, turns: seq<seq<nat>>)
    requires Inv(g.world) && |turns| == |awake| && forall p :: 0 <= p < |awake| ==> !awake[p].alive
    ensures TurnsEnd(programs, awake, g, turns).game == g && Blank(TurnsEnd(programs, awake, g, turns).pending)
    decreases |awake|
  {
    if awake != [] {
      var n := |awake| - 1;
      EmptyTurns(programs, awake[..n], g, turns[..n]);
      EmptyTurn(programs, awake[n], TurnsEnd(programs, awake[..n], g, turns[..n]), turns[n]);
    }
  }

  /** If no system of the stage runs, the stage leaves the game as it is, in either mode. */
  lemma NobodyRuns<P(!new)>(programs: Programs<P>, regs: seq<Registration>, g: Game, way: Way)
    requires Inv(g.world) && forall p :: 0 <= p < |regs| ==> !Ticks(programs, regs[p], g)
    ensures StageAfter(programs, regs, g, way) == g
  {
    match way
    case Parallel(sched) => EmptyParallel(programs, regs, g, sched);
    case Serial(turns) =>
      if |turns| == |regs| {
        var awake := Awake(programs, regs, g);
        EmptyTurns(programs, awake, g, turns);
        BlankApplies(g.world, TurnsEnd(programs, awake, g, turns).pending);
      }
  }

  // ----- stages follow each other -----

  ghost predicate StageLeads<P>(programs: Programs<P>, regs: seq<Registration>, g: Game, way: Way, h: Game) {
    h == StageAfter(programs, regs, g, way)
  }

  /** The games from before the first stage to after the last one, each stage run on what the one
      before it left. */
  ghost predicate StageByStage<P>(programs: Programs<P>, stages: seq<seq<Registration>>, g: Game, ways: seq<Way>,
                                  games: seq<Game>)
  {
    |ways| == |stages| && |games| == |stages| + 1 && games[0] == g
    && forall s: nat :: s < |stages| ==> StageLeads(programs, stages[s], games[s], ways[s], games[s + 1])
  }

  lemma NextGame<P>(programs: Programs<P>, stages: seq<seq<Registration>>, g: Game, ways: seq<Way>, n: nat,
                    before: seq<Game>, last: Game, games: seq<Game>)
    requires |ways| == |stages| == n + 1 && StageByStage(programs, stages[..n], g, ways[..n], before)
    requires StageLeads(programs, stages[n], before[n], ways[n], last) && games == before + [last]
    ensures StageByStage(programs, stages, g, ways, games)
  {
    forall s: nat | s < |stages| ensures StageLeads(programs, stages[s], games[s], ways[s], games[s + 1]) {
      if s < n {
        assert StageLeads(programs, stages[..n][s], before[s], ways[..n][s], before[s + 1]);
      }
    }
  }

  lemma NextTickEnd<P>(programs: Programs<P>, stages: seq<seq<Registration>>, g: Game, ways: seq<Way>, n: nat, h: Game)
    requires |ways| == |stages| == n + 1 && h == TickEnd(programs, stages[..n], g, ways[..n])
    ensures StageLeads(programs, stages[n], h, ways[n], TickEnd(programs, stages, g, ways))
  {
  }

  /** A tick runs the stages of the schedule one after another, in order, and ends where the last one
      ends. */
  lemma {:induction false} TickInOrder<P>(programs: Programs<P>, stages: seq<seq<Registration>>, g: Game,
                                          ways: seq<Way>)
    returns (games: seq<Game>)
    requires |ways| == |stages|
    ensures StageByStage(programs, stages, g, ways, games) && games[|stages|] == TickEnd(programs, stages, g, ways)
    decreases |stages|
  {
    if stages == [] {
      games := [g];
    } else {
      var n := |stages| - 1;
      var before := TickInOrder(programs, stages[..n], g, ways[..n]);
      games := before + [TickEnd(programs, stages, g, ways)];
      NextTickEnd(programs, stages, g, ways, n, before[n]);
      NextGame(programs, stages, g, ways, n, before, TickEnd(programs, stages, g, ways), games);
    }
  }
}
