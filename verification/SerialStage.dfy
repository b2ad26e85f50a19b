/** One stage in serial mode, or with a single system: the systems take turns, and a threaded system
    collects its chunks, runs and merges them in its turn.  It ends like the parallel branch. */
module SerialStage {
  import opened BufferMerge
  import opened CellStore
  import opened CommandOps
  import opened Fnv
  import opened Schedule
  import opened StageExecution
  import opened StageReservations
  import opened StageTick
  import opened SystemAccess
  import opened WorkItems
  import opened WorldStore

  // ----- a stage in turns -----

  function TurnTasks<P>(programs: Programs<P>, r: Registration, g: Game): (tasks: seq<Task<P>>)
    ensures |tasks| == |PartsOf(r, g.world.archs)|
  {
    var parts := PartsOf(r, g.world.archs);
    seq(|parts|, k requires 0 <= k < |parts| => programs.tick(r.typeId, g, parts[k]))
  }

  /** The items of one system, in the game as its turn finds it. */
  function TurnItems<P>(programs: Programs<P>, r: Registration, g: Game): (items: seq<Item<Content, Local<P>>>)
    ensures |items| == |TurnTasks(programs, r, g)|
    ensures forall k :: 0 <= k < |items| ==> items[k] == TurnTasks(programs, r, g)[k].item
  {
    var tasks := TurnTasks(programs, r, g);
    seq(|tasks|, k requires 0 <= k < |tasks| => tasks[k].item)
  }

  function TurnLocals<P>(programs: Programs<P>, r: Registration, g: Game): (locals: seq<Local<P>>)
    ensures |locals| == |TurnTasks(programs, r, g)|
    ensures forall k :: 0 <= k < |locals| ==> locals[k] == Local(TurnTasks(programs, r, g)[k].own, Recording([], 0))
  {
    var tasks := TurnTasks(programs, r, g);
    seq(|tasks|, k requires 0 <= k < |tasks| => Local(tasks[k].own, Recording([], 0)))
  }

  ghost function TurnStart<P>(programs: Programs<P>, r: Registration, g: Game): State<Content, Local<P>> {
    State(CellsOf(g), TurnLocals(programs, r, g))
  }

  function RecordsOf<P>(locals: seq<Local<P>>): (rs: seq<Recording>)
    ensures |rs| == |locals| && forall k :: 0 <= k < |rs| ==> rs[k] == locals[k].rec
  {
    seq(|locals|, k requires 0 <= k < |locals| => locals[k].rec)
  }

  /** The game between turns, and the pending buffers of the systems that had theirs. */
  datatype Turned = Turned(game: Game, pending: seq<Recording>)

  ghost function TurnEnd<P>(programs: Programs<P>, r: Registration, t: Turned, sched: seq<nat>): Turned {
    var items, st := TurnItems(programs, r, t.game), TurnStart(programs, r, t.game);
    if Schedules(items, sched) then
      var end := Run(items, st, sched);
      Turned(Settle(t.game, end.store), t.pending + [MergeAll(Recording([], 0), RecordsOf(end.locals))])
    else t
  }

  ghost function TurnsEnd<P>(programs: Programs<P>, regs: seq<Registration>, g: Game, turns: seq<seq<nat>>): Turned
    requires |turns| == |regs|
  {
    if regs == [] then Turned(g, [])
    else
      var n := |regs| - 1;
      TurnEnd(programs, regs[n], TurnsEnd(programs, regs[..n], g, turns[..n]), turns[n])
  }

  /** After the barrier. */
  ghost function SerialEnd<P>(programs: Programs<P>, regs: seq<Registration>, g: Game, turns: seq<seq<nat>>): Game
    requires |turns| == |regs|
  {
    var t := TurnsEnd(programs, regs, g, turns);
    Game(ApplyRecordings(t.game.world, t.pending), t.game.singles)
  }

  /** The turn runs all items of the system to their end; among its own items, one that reserves
      slots has the slot table to itself. */
  ghost predicate TurnRuns<P>(programs: Programs<P>, r: Registration, g: Game, sched: seq<nat>) {
    Finishes(TurnItems(programs, r, g), TurnStart(programs, r, g), sched) && AllocatorApart(TurnItems(programs, r, g))
  }

  ghost predicate TurnsRun<P>(programs: Programs<P>, regs: seq<Registration>, g: Game, turns: seq<seq<nat>>)
    requires |turns| == |regs|
  {
    regs == [] ||
    (var n := |regs| - 1;
     && TurnsRun(programs, regs[..n], g, turns[..n])
     && TurnRuns(programs, regs[n], TurnsEnd(programs, regs[..n], g, turns[..n]).game, turns[n]))
  }

  // ----- turns do not depend on the interleaving of chunks -----

  /** The registration of system u, alive or skipped. */
  ghost predicate AsRegistered(reg: Registry, u: nat, r: Registration) {
    u < |reg| && (r == reg[u] || r == reg[u].(alive := false))
  }

  ghost predicate OfStage(reg: Registry, stage: seq<nat>, regs: seq<Registration>) {
    |regs| <= |stage| && forall p: nat :: p < |regs| ==> AsRegistered(reg, stage[p], regs[p])
  }

  ghost function TurnWorks(u: nat, w: World, parts: seq<Part>): (works: seq<Work>)
    ensures |works| == |parts| && forall k :: 0 <= k < |works| ==> works[k] == Work(u, RowsOf(w, parts[k]))
  {
    seq(|parts|, k requires 0 <= k < |parts| => Work(u, RowsOf(w, parts[k])))
  }

  lemma TurnIsStageWork(reg: Registry, stage: seq<nat>, p: nat, declOf: Word -> SystemDecl, r: Registration, w: World)
    requires p < |stage| && AsRegistered(reg, stage[p], r) && Alive(reg, stage[p]) && Registered(reg, declOf)
    ensures StageWork(reg, DeclsOf(reg, declOf), stage, TurnWorks(stage[p], w, PartsOf(r, w.archs)))
  {
    var parts := PartsOf(r, w.archs);
    PartsDiffer(r, w.archs);
    forall k, l | 0 <= k < |parts| && 0 <= l < |parts| && k != l
      ensures r.threaded && RowsOf(w, parts[k]) !! RowsOf(w, parts[l])
    {
      assert parts[k] != parts[l];
    }
  }

  /** Only chunks of one system are ever in one turn. */
  lemma TurnIndependent<P(!new)>(reg: Registry, cs: seq<Pair>, stages: seq<seq<nat>>, s: nat, p: nat,
                                 declOf: Word -> SystemDecl,
                                 programs: Programs<P>, r: Registration, g: Game)
    requires Setup(reg, cs, stages, declOf) && s < |stages| && p < |stages[s]| && Obedient(programs, declOf)
    requires AsRegistered(reg, stages[s][p], r) && AllocatorApart(TurnItems(programs, r, g))
    ensures Independent(TurnItems(programs, r, g))
  {
    StageMembers(reg, cs, stages, s);
    var parts, u := PartsOf(r, g.world.archs), stages[s][p];
    TurnIsStageWork(reg, stages[s], p, declOf, r, g.world);
    forall k | 0 <= k < |parts|
      ensures RespectsDeclaration(TurnItems(programs, r, g)[k], DeclsOf(reg, declOf)[u], RowsOf(g.world, parts[k]),
                                  SigsOf(g.world))
    {
      assert StaysWithin(programs, declOf, r.typeId, g, parts[k]);
    }
    StageItemsIndependent(reg, cs, stages, s, DeclsOf(reg, declOf), TurnWorks(u, g.world, parts),
                          TurnItems(programs, r, g), SigsOf(g.world));
  }

  lemma TurnAgrees<P(!new)>(reg: Registry, cs: seq<Pair>, stages: seq<seq<nat>>, s: nat, p: nat,
                            declOf: Word -> SystemDecl,
                            programs: Programs<P>, r: Registration, t: Turned, a: seq<nat>, b: seq<nat>)
    requires Setup(reg, cs, stages, declOf) && s < |stages| && p < |stages[s]| && AsRegistered(reg, stages[s][p], r)
    requires Obedient(programs, declOf) && TurnRuns(programs, r, t.game, a) && TurnRuns(programs, r, t.game, b)
    ensures TurnEnd(programs, r, t, a) == TurnEnd(programs, r, t, b)
  {
    TurnIndependent(reg, cs, stages, s, p, declOf, programs, r, t.game);
    CompleteRunsAgree(TurnItems(programs, r, t.game), TurnStart(programs, r, t.game), a, b);
  }

  lemma OfStageFront(reg: Registry, stage: seq<nat>, regs: seq<Registration>)
    requires OfStage(reg, stage, regs) && regs != []
    ensures OfStage(reg, stage, regs[..|regs| - 1]) && AsRegistered(reg, stage[|regs| - 1], regs[|regs| - 1])
  {
  }

  /** Two serial runs of a stage agree, however many systems reserve slots in their turns. */
  lemma {:induction false} TurnsAgree<P(!new)>(reg: Registry, cs: seq<Pair>, stages: seq<seq<nat>>, s: nat,
                                               declOf: Word -> SystemDecl,
                                               programs: Programs<P>, regs: seq<Registration>, g: Game,
                                                 a: seq<seq<nat>>, b: seq<seq<nat>>)
    requires Setup(reg, cs, stages, declOf) && s < |stages| && OfStage(reg, stages[s], regs)
             && Obedient(programs, declOf)
    requires |a| == |b| == |regs| && TurnsRun(programs, regs, g, a) && TurnsRun(programs, regs, g, b)
    ensures TurnsEnd(programs, regs, g, a) == TurnsEnd(programs, regs, g, b)
    decreases |regs|
  {
    if regs != [] {
      var n := |regs| - 1;
      OfStageFront(reg, stages[s], regs);
      TurnsAgree(reg, cs, stages, s, declOf, programs, regs[..n], g, a[..n], b[..n]);
      TurnAgrees(reg, cs, stages, s, n, declOf, programs, regs[n], TurnsEnd(programs, regs[..n], g, a[..n]), a[n],
                 b[n]);
    }
  }

  // ----- what a turn does not change -----

  /** Everything about the rows but the values: what decides which chunks a query finds. */
  datatype ArchLayout = ArchLayout(sig: seq<nat>, cap: nat, eids: seq<seq<EntityId>>)

  function ChunkIds(rows: seq<Row>): (ids: seq<EntityId>)
    ensures |ids| == |rows| && forall k :: 0 <= k < |ids| ==> ids[k] == rows[k].eid
  {
    seq(|rows|, k requires 0 <= k < |rows| => rows[k].eid)
  }

  function ChunksIds(chunks: seq<seq<Row>>): (ids: seq<seq<EntityId>>)
    ensures |ids| == |chunks| && forall k :: 0 <= k < |ids| ==> ids[k] == ChunkIds(chunks[k])
  {
    seq(|chunks|, k requires 0 <= k < |chunks| => ChunkIds(chunks[k]))
  }

  function LayoutOf(archs: seq<Archetype>): (ls: seq<ArchLayout>)
    ensures |ls| == |archs|
    ensures forall a :: 0 <= a < |ls| ==> ls[a] == ArchLayout(archs[a].sig, archs[a].cap, ChunksIds(archs[a].chunks))
  {
    seq(|archs|, a requires 0 <= a < |archs| => ArchLayout(archs[a].sig, archs[a].cap, ChunksIds(archs[a].chunks)))
  }

  lemma WrittenChunks(store: map<Cell, Content>, a: Archetype)
    ensures ChunksIds(ArchWith(store, a).chunks) == ChunksIds(a.chunks)
  {
    forall c | 0 <= c < |a.chunks| ensures ChunkIds(ArchWith(store, a).chunks[c]) == ChunkIds(a.chunks[c]) {
      assert ArchWith(store, a).chunks[c] == ChunkWith(store, a.sig, a.chunks[c]);
    }
  }

  lemma WrittenLayout(w: World, store: map<Cell, Content>)
    ensures LayoutOf(WriteBack(w, store).archs) == LayoutOf(w.archs)
  {
    forall a | 0 <= a < |w.archs| ensures LayoutOf(WriteBack(w, store).archs)[a] == LayoutOf(w.archs)[a] {
      WrittenChunks(store, w.archs[a]);
    }
  }

  lemma SameLayoutAt(a: seq<Archetype>, b: seq<Archetype>, k: nat)
    requires LayoutOf(a) == LayoutOf(b) && k < |a|
    ensures |a| == |b| && a[k].sig == b[k].sig && |a[k].chunks| == |b[k].chunks|
    ensures forall c :: 0 <= c < |a[k].chunks| ==> |a[k].chunks[c]| == |b[k].chunks[c]|
  {
    assert |LayoutOf(a)| == |LayoutOf(b)| && LayoutOf(a)[k] == LayoutOf(b)[k];
    forall c | 0 <= c < |a[k].chunks| ensures |a[k].chunks[c]| == |b[k].chunks[c]| {
      assert ChunksIds(a[k].chunks)[c] == ChunksIds(b[k].chunks)[c];
    }
  }

  lemma {:induction false} SameArchChunks(a: seq<Archetype>, b: seq<Archetype>, k: nat, n: nat)
    requires LayoutOf(a) == LayoutOf(b) && k < |a| && n <= |a[k].chunks|
    ensures k < |b| && n <= |b[k].chunks| && ArchChunks(a, k, n) == ArchChunks(b, k, n)
  {
    SameLayoutAt(a, b, k);
    if n > 0 {
      SameArchChunks(a, b, k, n - 1);
    }
  }

  lemma {:induction false} SameChunkList(a: seq<Archetype>, b: seq<Archetype>, required: seq<nat>, excluded: seq<nat>,
                                         n: nat)
    requires LayoutOf(a) == LayoutOf(b) && n <= |a|
    ensures n <= |b| && ChunkList(a, required, excluded, n) == ChunkList(b, required, excluded, n)
  {
    assert |LayoutOf(a)| == |LayoutOf(b)|;
    if n > 0 {
      SameChunkList(a, b, required, excluded, n - 1);
      SameLayoutAt(a, b, n - 1);
      SameArchChunks(a, b, n - 1, |a[n - 1].chunks|);
    }
  }

  /** A query finds the same chunks in the middle of the stage as at its start. */
  lemma SameParts(a: seq<Archetype>, b: seq<Archetype>, r: Registration)
    requires LayoutOf(a) == LayoutOf(b)
    ensures PartsOf(r, a) == PartsOf(r, b)
  {
    assert |LayoutOf(a)| == |LayoutOf(b)|;
    SameChunkList(a, b, r.requireIds, r.excludeIds, |a|);
  }

  // ----- programs for which the moment does not matter -----

  /** In consistent games with the same rows the system does the same. */
  ghost predicate SameProgram<P>(programs: Programs<P>, t: Word, g: Game, h: Game, part: Part) {
    Inv(g.world) && Inv(h.world) && LayoutOf(g.world.archs) == LayoutOf(h.world.archs) ==>
      programs.tick(t, g, part) == programs.tick(t, h, part)
  }

  ghost predicate WritesValue<P>(item: Item<Content, Local<P>>, local: Local<P>, view: map<Cell, Content>, x: Cell) {
    match item.step(local, view)
    case Done => true
    case Step(_, updates) => x in updates && x in item.outputs && x != SlotTable ==> updates[x].Value?
  }

  ghost predicate WritesValues<P(!new)>(item: Item<Content, Local<P>>) {
    forall local, view, x :: WritesValue(item, local, view, x)
  }

  /** The programs see the world's values only through their cells, put values into them, and record
      through the command buffer. */
  ghost predicate Serialisable<P(!new)>(programs: Programs<P>, kept: Local<P> -> seq<EntityId>) {
    && Recorders(programs, kept)
    && (forall t, g, h, part :: SameProgram(programs, t, g, h, part))
    && (forall t, g, part :: WritesValues(programs.tick(t, g, part).item))
  }

  lemma SameTurn<P(!new)>(programs: Programs<P>, kept: Local<P> -> seq<EntityId>, r: Registration, g: Game, h: Game)
    requires Serialisable(programs, kept) && LayoutOf(g.world.archs) == LayoutOf(h.world.archs)
    requires Inv(g.world) && Inv(h.world)
    ensures TurnItems(programs, r, g) == TurnItems(programs, r, h)
            && TurnLocals(programs, r, g) == TurnLocals(programs, r, h)
  {
    SameParts(g.world.archs, h.world.archs, r);
    var parts := PartsOf(r, g.world.archs);
    forall k | 0 <= k < |parts| ensures TurnTasks(programs, r, g)[k] == TurnTasks(programs, r, h)[k] {
      assert SameProgram(programs, r.typeId, g, h, parts[k]);
    }
  }

  // ----- some of the items running among all -----

  function Shift(sched: seq<nat>, a: nat): (r: seq<nat>)
    ensures |r| == |sched| && forall k :: 0 <= k < |r| ==> r[k] == sched[k] + a
  {
    seq(|sched|, k requires 0 <= k < |sched| => sched[k] + a)
  }

  /** The state of all items, of which those from the (|pre|)-th on are in the state st. */
  function Among<V, L>(pre: seq<L>, st: State<V, L>, post: seq<L>): (r: State<V, L>)
    ensures r.store == st.store && |r.locals| == |pre| + |st.locals| + |post|
  {
    State(st.store, pre + st.locals + post)
  }

  lemma StepAmong<V, L>(items: seq<Item<V, L>>, sub: seq<Item<V, L>>, pre: seq<L>, st: State<V, L>, post: seq<L>,
                        j: nat)
    requires |pre| + |sub| + |post| == |items| && |st.locals| == |sub| && j < |sub|
             && sub == items[|pre|..|pre| + |sub|]
    ensures StepItem(items, Among(pre, st, post), |pre| + j) == Among(pre, StepItem(sub, st, j), post)
  {
    var all := Among(pre, st, post);
    assert all.locals[|pre| + j] == st.locals[j] && items[|pre| + j] == sub[j];
    match Next(sub[j], st.locals[j], st.store)
    case Done =>
    case Step(local, _) =>
      assert all.locals[|pre| + j := local] == pre + st.locals[j := local] + post;
  }

  lemma ShiftFront(sched: seq<nat>, a: nat)
    requires sched != []
    ensures var n := |sched| - 1; Shift(sched, a)[..n] == Shift(sched[..n], a) && Shift(sched, a)[n] == a + sched[n]
  {
  }

  lemma RunUnfolds<V, L>(items: seq<Item<V, L>>, st: State<V, L>, sched: seq<nat>, front: seq<nat>, j: nat)
    requires |items| == |st.locals| && Schedules(items, sched) && sched != [] && front == sched[..|sched| - 1]
             && j == sched[|sched| - 1]
    ensures Schedules(items, front) && Run(items, st, sched) == StepItem(items, Run(items, st, front), j)
  {
  }

  lemma {:induction false} RunAmong<V, L>(items: seq<Item<V, L>>, sub: seq<Item<V, L>>, pre: seq<L>, st: State<V, L>,
                                          post: seq<L>, sched: seq<nat>)
    requires |pre| + |sub| + |post| == |items| && |st.locals| == |sub| && sub == items[|pre|..|pre| + |sub|]
    requires Schedules(sub, sched)
    ensures Schedules(items, Shift(sched, |pre|))
    ensures Run(items, Among(pre, st, post), Shift(sched, |pre|)) == Among(pre, Run(sub, st, sched), post)
    decreases |sched|
  {
    if sched != [] {
      var front, j := sched[..|sched| - 1], sched[|sched| - 1];
      RunAmong(items, sub, pre, st, post, front);
      ShiftFront(sched, |pre|);
      RunUnfolds(sub, st, sched, front, j);
      RunUnfolds(items, Among(pre, st, post), Shift(sched, |pre|), Shift(front, |pre|), |pre| + j);
      StepAmong(items, sub, pre, Run(sub, st, front), post, j);
    }
  }

  /** First all of one block, then all of another. */
  lemma TwoBlocks<V, L>(front: seq<Item<V, L>>, last: seq<Item<V, L>>, items: seq<Item<V, L>>, st: State<V, L>,
                        late: seq<L>,
                        a: seq<nat>, b: seq<nat>)
    requires items == front + last && |st.locals| == |front| && |late| == |last| && Schedules(front, a)
             && Schedules(last, b)
    ensures var mid := Run(front, st, a);
            var end := Run(last, State(mid.store, late), b);
            && Schedules(items, a + Shift(b, |front|))
            && Run(items, State(st.store, st.locals + late), a + Shift(b, |front|)) ==
              State(end.store, mid.locals + end.locals)
  {
    var mid, all := Run(front, st, a), State(st.store, st.locals + late);
    var none: seq<L> := [];
    assert front == items[0..|front|] && Shift(a, 0) == a && Among(none, st, late) == all;
    RunAmong(items, front, none, st, late, a);
    assert last == items[|mid.locals|..|mid.locals| + |last|];
    assert Among(none, mid, late) == Among(mid.locals, State(mid.store, late), none);
    RunAmong(items, last, mid.locals, State(mid.store, late), none, b);
    RunConcat(items, all, a, Shift(b, |front|));
    var end := Run(last, State(mid.store, late), b);
    assert Among(mid.locals, end, none) == State(end.store, mid.locals + end.locals);
  }

  lemma FirstBlock<V, L>(front: seq<Item<V, L>>, last: seq<Item<V, L>>, items: seq<Item<V, L>>, st: State<V, L>,
                         late: seq<L>, a: seq<nat>)
    requires items == front + last && |st.locals| == |front| && |late| == |last| && Schedules(front, a)
    ensures Schedules(items, a)
            && Run(items, State(st.store, st.locals + late), a) ==
              State(Run(front, st, a).store, Run(front, st, a).locals + late)
  {
    TwoBlocks(front, last, items, st, late, a, []);
    assert a + Shift([], |front|) == a;
  }

  lemma LaterFinished<V, L>(front: seq<Item<V, L>>, last: seq<Item<V, L>>, items: seq<Item<V, L>>, end: State<V, L>,
                            tail: State<V, L>, i: nat)
    requires items == front + last && |items| == |end.locals| && |last| == |tail.locals| && |front| <= i < |items|
    requires end.store == tail.store && end.locals[i] == tail.locals[i - |front|] && Finished(last, tail, i - |front|)
    ensures Finished(items, end, i)
  {
  }

  lemma TwoBlocksFinish<V, L>(front: seq<Item<V, L>>, last: seq<Item<V, L>>, items: seq<Item<V, L>>, st: State<V, L>,
                              late: seq<L>,
                              a: seq<nat>, b: seq<nat>)
    requires items == front + last && |st.locals| == |front| && |late| == |last| && Independent(items)
    requires Finishes(front, st, a) && Finishes(last, State(Run(front, st, a).store, late), b)
    ensures Finishes(items, State(st.store, st.locals + late), a + Shift(b, |front|))
  {
    var start, mid := State(st.store, st.locals + late), Run(front, st, a);
    TwoBlocks(front, last, items, st, late, a, b);
    FirstBlock(front, last, items, st, late, a);
    RunConcat(items, start, a, Shift(b, |front|));
    var half, end := Run(items, start, a), Run(items, start, a + Shift(b, |front|));
    var tail := Run(last, State(mid.store, late), b);
    forall i: nat | i < |items| ensures Finished(items, end, i) {
      if i < |front| {
        assert Finished(front, mid, i) && half.locals[i] == mid.locals[i];
        FinishedKept(items, half, Shift(b, |front|), i);
      } else {
        LaterFinished(front, last, items, end, tail, i);
      }
    }
  }

  // ----- the turns joined to one interleaving -----

  lemma StageSplit<P>(programs: Programs<P>, regs: seq<Registration>, g: Game)
    requires regs != []
    ensures var n := |regs| - 1;
            && ItemsOf(programs, regs, g) == ItemsOf(programs, regs[..n], g) + TurnItems(programs, regs[n], g)
            && StartOf(programs, regs, g).locals == StartOf(programs, regs[..n], g).locals +
              TurnLocals(programs, regs[n], g)
  {
    var n := |regs| - 1;
    var front, last := WorkList(regs[..n], g.world.archs), At(n, PartsOf(regs[n], g.world.archs));
    WorkListShape(regs[..n], g.world.archs);
    WorkListShape(regs, g.world.archs);
    forall k | 0 <= k < |front| + |last|
      ensures TasksOf(programs, regs, g)[k] == (TasksOf(programs, regs[..n], g) + TurnTasks(programs, regs[n], g))[k]
    {
      assert WorkList(regs, g.world.archs)[k] == (front + last)[k];
    }
  }

  /** The turns as one interleaving of all items of the stage. */
  function Joined(regs: seq<Registration>, archs: seq<Archetype>, turns: seq<seq<nat>>): seq<nat>
    requires |turns| == |regs|
  {
    if regs == [] then []
    else
      var n := |regs| - 1;
      Joined(regs[..n], archs, turns[..n]) + Shift(turns[n], |WorkList(regs[..n], archs)|)
  }

  lemma {:induction false} RecsConcat<P>(xs: seq<WorkItem>, ys: seq<WorkItem>, a: seq<Local<P>>, b: seq<Local<P>>,
                                         p: nat)
    requires |xs| == |a| && |ys| == |b|
    ensures RecsOf(xs + ys, a + b, p) == RecsOf(xs, a, p) + RecsOf(ys, b, p)
  {
    if ys == [] {
      assert xs + ys == xs && a + b == a;
    } else {
      var n := |ys| - 1;
      RecsConcat(xs, ys[..n], a, b[..n], p);
      assert (xs + ys)[..|xs + ys| - 1] == xs + ys[..n] && (a + b)[..|a + b| - 1] == a + b[..n];
    }
  }

  lemma {:induction false} RecsAll<P>(xs: seq<WorkItem>, locals: seq<Local<P>>, p: nat)
    requires |xs| == |locals| && forall k :: 0 <= k < |xs| ==> xs[k].pos == p
    ensures RecsOf(xs, locals, p) == RecordsOf(locals)
  {
    if xs != [] {
      RecsAll(xs[..|xs| - 1], locals[..|xs| - 1], p);
    }
  }

  lemma {:induction false} RecsNone<P>(xs: seq<WorkItem>, locals: seq<Local<P>>, p: nat)
    requires |xs| == |locals| && forall k :: 0 <= k < |xs| ==> xs[k].pos != p
    ensures RecsOf(xs, locals, p) == []
  {
    if xs != [] {
      RecsNone(xs[..|xs| - 1], locals[..|xs| - 1], p);
    }
  }

  lemma PendingsSplit<P>(n: nat, xs: seq<WorkItem>, ys: seq<WorkItem>, a: seq<Local<P>>, b: seq<Local<P>>)
    requires |xs| == |a| && |ys| == |b|
    requires (forall k :: 0 <= k < |xs| ==> xs[k].pos < n) && forall k :: 0 <= k < |ys| ==> ys[k].pos == n
    ensures Pendings(n + 1, xs + ys, a + b) == Pendings(n, xs, a) + [MergeAll(Recording([], 0), RecordsOf(b))]
  {
    forall p: nat | p < n + 1 ensures RecsOf(xs + ys, a + b, p) == if p < n then RecsOf(xs, a, p) else RecordsOf(b) {
      RecsConcat(xs, ys, a, b, p);
      if p < n {
        RecsNone(ys, b, p);
      } else {
        RecsNone(xs, a, p);
        RecsAll(ys, b, p);
      }
    }
  }

  // ----- what the turns reach -----

  lemma {:induction false} RunHolds<P(!new)>(items: seq<Item<Content, Local<P>>>, st: State<Content, Local<P>>,
                                             sched: seq<nat>)
    requires |items| == |st.locals| && Schedules(items, sched) && HoldsValues(st.store)
    requires forall k :: 0 <= k < |items| ==> WritesValues(items[k])
    ensures HoldsValues(Run(items, st, sched).store)
    decreases |sched|
  {
    if sched != [] {
      var mid, j := Run(items, st, sched[..|sched| - 1]), sched[|sched| - 1];
      RunHolds(items, st, sched[..|sched| - 1]);
      var view := View(items[j], mid.store);
      forall x | x in mid.store && x != SlotTable ensures StepItem(items, mid, j).store[x].Value? {
        assert WritesValue(items[j], mid.locals[j], view, x);
      }
    }
  }

  /** Whatever the items of the stage have done so far, their store is one that can be read back. */
  lemma RunLeavesStore<P(!new)>(programs: Programs<P>, kept: Local<P> -> seq<EntityId>, regs: seq<Registration>,
                                g: Game, sched: seq<nat>)
    returns (n: nat)
    requires Serialisable(programs, kept) && Inv(g.world) && Schedules(ItemsOf(programs, regs, g), sched)
    ensures StoreOf(g, Run(ItemsOf(programs, regs, g), StartOf(programs, regs, g), sched).store, n)
  {
    var items, st, xs := ItemsOf(programs, regs, g), StartOf(programs, regs, g), WorkList(regs, g.world.archs);
    WorkListShape(regs, g.world.archs);
    StageStarts(programs, kept, regs, g);
    n := RunShares(items, kept, g.world, st, sched);
    forall k | 0 <= k < |items| ensures WritesValues(items[k]) {
      assert items[k] == programs.tick(regs[xs[k].pos].typeId, g, xs[k].part).item;
    }
    assert HoldsValues(st.store) by {
      forall x | x in st.store && x != SlotTable ensures st.store[x].Value? {
        assert st.store[x] == ContentAt(g, x);
      }
    }
    RunHolds(items, st, sched);
  }

  /** The turns have finished all items, in the order of the joined interleaving, and left the game and
      the buffers that it leaves. */
  ghost predicate Reached<P>(programs: Programs<P>, regs: seq<Registration>, g: Game, turns: seq<seq<nat>>)
    requires |turns| == |regs|
  {
    var items, st, sched := ItemsOf(programs, regs, g), StartOf(programs, regs, g), Joined(regs, g.world.archs, turns);
    Finishes(items, st, sched) &&
    (var end := Run(items, st, sched);
     TurnsEnd(programs, regs, g, turns) == Turned(Settle(g, end.store),
                                                  Pendings(|regs|, WorkList(regs, g.world.archs), end.locals)))
  }

  /** The next turn starts where the joined interleaving stands. */
  lemma NextTurn<P(!new)>(programs: Programs<P>, kept: Local<P> -> seq<EntityId>, r: Registration, g: Game,
                          store: map<Cell, Content>, n: nat)
    requires Serialisable(programs, kept) && Inv(g.world) && StoreOf(g, store, n)
    ensures TurnItems(programs, r, Settle(g, store)) == TurnItems(programs, r, g)
    ensures TurnStart(programs, r, Settle(g, store)) == State(store, TurnLocals(programs, r, g))
  {
    WrittenLayout(g.world, store);
    WriteBackInv(g.world, store, n);
    SameTurn(programs, kept, r, Settle(g, store), g);
    ReadBack(g, store, n);
  }

  lemma ReachedNone<P>(programs: Programs<P>, g: Game)
    requires Inv(g.world)
    ensures Reached(programs, [], g, [])
  {
    assert WorkList([], g.world.archs) == [];
    SettleOwn(g);
    assert Run(ItemsOf(programs, [], g), StartOf(programs, [], g), []) == StartOf(programs, [], g);
  }

  lemma IndependentFront<V, L>(front: seq<Item<V, L>>, last: seq<Item<V, L>>)
    requires Independent(front + last)
    ensures Independent(front)
  {
    forall i, j, c | 0 <= i < |front| && 0 <= j < |front| && i != j && c in front[i].outputs
      ensures c !in front[j].inputs && c !in front[j].outputs
    {
      assert (front + last)[i] == front[i] && (front + last)[j] == front[j];
    }
  }

  /** The next turn, on the cells of the whole stage. */
  lemma TurnOnCells<P(!new)>(programs: Programs<P>, kept: Local<P> -> seq<EntityId>, r: Registration, g: Game,
                             store: map<Cell, Content>,
                             pending: seq<Recording>, sched: seq<nat>, m: nat, n: nat)
    requires Serialisable(programs, kept) && Inv(g.world) && StoreOf(g, store, m)
             && Schedules(TurnItems(programs, r, g), sched)
    requires StoreOf(g, Run(TurnItems(programs, r, g), State(store, TurnLocals(programs, r, g)), sched).store, n)
    ensures var end := Run(TurnItems(programs, r, g), State(store, TurnLocals(programs, r, g)), sched);
            TurnEnd(programs, r, Turned(Settle(g, store), pending), sched) ==
            Turned(Settle(g, end.store), pending + [MergeAll(Recording([], 0), RecordsOf(end.locals))])
  {
    NextTurn(programs, kept, r, g, store, m);
    SettleTwice(g, store, Run(TurnItems(programs, r, g), State(store, TurnLocals(programs, r, g)), sched).store);
  }

  /** The items of the last turn, after those of the turns before it. */
  lemma JoinedRun<P(!new)>(programs: Programs<P>, regs: seq<Registration>, g: Game, a: seq<nat>, b: seq<nat>,
                           store: map<Cell, Content>, locals: seq<Local<P>>)
    requires regs != [] && Independent(ItemsOf(programs, regs, g))
    requires var n := |regs| - 1;
             Finishes(ItemsOf(programs, regs[..n], g), StartOf(programs, regs[..n], g), a) &&
             Run(ItemsOf(programs, regs[..n], g), StartOf(programs, regs[..n], g), a) == State(store, locals) &&
             Finishes(TurnItems(programs, regs[n], g), State(store, TurnLocals(programs, regs[n], g)), b)
    ensures var n := |regs| - 1;
            var end := Run(TurnItems(programs, regs[n], g), State(store, TurnLocals(programs, regs[n], g)), b);
            var sched := a + Shift(b, |WorkList(regs[..n], g.world.archs)|);
            Finishes(ItemsOf(programs, regs, g), StartOf(programs, regs, g), sched) &&
            Run(ItemsOf(programs, regs, g), StartOf(programs, regs, g), sched) == State(end.store, locals + end.locals)
  {
    var n := |regs| - 1;
    var front, last := ItemsOf(programs, regs[..n], g), TurnItems(programs, regs[n], g);
    StageSplit(programs, regs, g);
    TwoBlocks(front, last, ItemsOf(programs, regs, g), StartOf(programs, regs[..n], g),
              TurnLocals(programs, regs[n], g), a, b);
    TwoBlocksFinish(front, last, ItemsOf(programs, regs, g), StartOf(programs, regs[..n], g),
                    TurnLocals(programs, regs[n], g), a, b);
  }

  lemma PendingsMore<P>(regs: seq<Registration>, g: Game, a: seq<Local<P>>, b: seq<Local<P>>)
    requires regs != [] && |a| == |WorkList(regs[..|regs| - 1], g.world.archs)|
             && |b| == |PartsOf(regs[|regs| - 1], g.world.archs)|
    ensures |a + b| == |WorkList(regs, g.world.archs)|
    ensures Pendings(|regs|, WorkList(regs, g.world.archs), a + b) ==
            Pendings(|regs| - 1, WorkList(regs[..|regs| - 1], g.world.archs), a) +
              [MergeAll(Recording([], 0), RecordsOf(b))]
  {
    var n := |regs| - 1;
    WorkListShape(regs[..n], g.world.archs);
    PendingsSplit(n, WorkList(regs[..n], g.world.archs), At(n, PartsOf(regs[n], g.world.archs)), a, b);
  }

  lemma ReachedMore<P(!new)>(programs: Programs<P>, kept: Local<P> -> seq<EntityId>, regs: seq<Registration>, g: Game,
                             turns: seq<seq<nat>>)
    requires Serialisable(programs, kept) && Inv(g.world) && |turns| == |regs| > 0
    requires Independent(ItemsOf(programs, regs, g)) && Reached(programs, regs[..|regs| - 1], g, turns[..|regs| - 1])
    requires TurnRuns(programs, regs[|regs| - 1], TurnsEnd(programs, regs[..|regs| - 1], g, turns[..|regs| - 1]).game,
                      turns[|regs| - 1])
    ensures Reached(programs, regs, g, turns)
  {
    var n, r := |regs| - 1, regs[|regs| - 1];
    var a, b := Joined(regs[..n], g.world.archs, turns[..n]), turns[n];
    var mid := Run(ItemsOf(programs, regs[..n], g), StartOf(programs, regs[..n], g), a);
    var m := RunLeavesStore(programs, kept, regs[..n], g, a);
    NextTurn(programs, kept, r, g, mid.store, m);
    JoinedRun(programs, regs, g, a, b, mid.store, mid.locals);
    var end := Run(TurnItems(programs, r, g), State(mid.store, TurnLocals(programs, r, g)), b);
    var k := RunLeavesStore(programs, kept, regs, g, Joined(regs, g.world.archs, turns));
    TurnOnCells(programs, kept, r, g, mid.store, Pendings(n, WorkList(regs[..n], g.world.archs), mid.locals), b, m, k);
    PendingsMore(regs, g, mid.locals, end.locals);
  }

  lemma {:induction false} TurnsReach<P(!new)>(programs: Programs<P>, kept: Local<P> -> seq<EntityId>,
                                               regs: seq<Registration>, g: Game, turns: seq<seq<nat>>)
    requires Serialisable(programs, kept) && Inv(g.world) && |turns| == |regs|
    requires Independent(ItemsOf(programs, regs, g)) && TurnsRun(programs, regs, g, turns)
    ensures Reached(programs, regs, g, turns)
    decreases |regs|
  {
    if regs == [] {
      ReachedNone(programs, g);
    } else {
      var n := |regs| - 1;
      StageSplit(programs, regs, g);
      IndependentFront(ItemsOf(programs, regs[..n], g), TurnItems(programs, regs[n], g));
      TurnsReach(programs, kept, regs[..n], g, turns[..n]);
      ReachedMore(programs, kept, regs, g, turns);
    }
  }

  /** The serial path ends a stage as the parallel branch does, for every interleaving there and of the
      chunks in each turn here. */
  lemma SerialIsParallel<P(!new)>(programs: Programs<P>, kept: Local<P> -> seq<EntityId>, regs: seq<Registration>,
                                  g: Game,
                                  turns: seq<seq<nat>>, sched: seq<nat>)
    requires Serialisable(programs, kept) && Inv(g.world) && Independent(ItemsOf(programs, regs, g))
    requires |turns| == |regs| && TurnsRun(programs, regs, g, turns)
    requires Finishes(ItemsOf(programs, regs, g), StartOf(programs, regs, g), sched)
    ensures SerialEnd(programs, regs, g, turns) == ParallelEnd(programs, regs, g, sched)
  {
    TurnsReach(programs, kept, regs, g, turns);
    CompleteRunsAgree(ItemsOf(programs, regs, g), StartOf(programs, regs, g), Joined(regs, g.world.archs, turns),
                      sched);
  }

  // ----- turns keep the store invariant -----

  lemma TurnStarts<P(!new)>(programs: Programs<P>, kept: Local<P> -> seq<EntityId>, r: Registration, g: Game)
    requires Recorders(programs, kept) && Inv(g.world)
    ensures Starts(TurnItems(programs, r, g), kept, g.world, TurnStart(programs, r, g))
    ensures AllValid(TurnStart(programs, r, g).locals)
    ensures forall i, local, view :: 0 <= i < |TurnItems(programs, r, g)| ==>
            StepValid(TurnItems(programs, r, g)[i], local, view)
  {
    var parts := PartsOf(r, g.world.archs);
    forall i | 0 <= i < |parts| ensures WellBehaved(TurnTasks(programs, r, g)[i], kept) {
      assert WellBehaved(programs.tick(r.typeId, g, parts[i]), kept);
    }
  }

  ghost predicate TurnedWell(t: Turned) {
    Inv(t.game.world) && forall k :: 0 <= k < |t.pending| ==> ValidOps(t.pending[k].ops)
  }

  lemma TurnLeavesWell<P(!new)>(programs: Programs<P>, kept: Local<P> -> seq<EntityId>, r: Registration, g: Game,
                                sched: seq<nat>)
    requires Recorders(programs, kept) && Inv(g.world) && Schedules(TurnItems(programs, r, g), sched)
    ensures var end := Run(TurnItems(programs, r, g), TurnStart(programs, r, g), sched);
            Inv(WriteBack(g.world, end.store)) && AllValid(end.locals)
  {
    var items, st := TurnItems(programs, r, g), TurnStart(programs, r, g);
    TurnStarts(programs, kept, r, g);
    var n := RunShares(items, kept, g.world, st, sched);
    WriteBackInv(g.world, Run(items, st, sched).store, n);
    RunValid(items, st, sched);
  }

  lemma TurnKeepsInv<P(!new)>(programs: Programs<P>, kept: Local<P> -> seq<EntityId>, r: Registration, t: Turned,
                              sched: seq<nat>)
    requires Recorders(programs, kept) && TurnedWell(t)
    ensures TurnedWell(TurnEnd(programs, r, t, sched))
  {
    var items, st := TurnItems(programs, r, t.game), TurnStart(programs, r, t.game);
    if Schedules(items, sched) {
      TurnLeavesWell(programs, kept, r, t.game, sched);
      MergeAllValid(Recording([], 0), RecordsOf(Run(items, st, sched).locals));
    }
  }

  lemma {:induction false} TurnsKeepInv<P(!new)>(programs: Programs<P>, kept: Local<P> -> seq<EntityId>,
                                                 regs: seq<Registration>, g: Game,
                                                 turns: seq<seq<nat>>)
    requires Recorders(programs, kept) && Inv(g.world) && |turns| == |regs|
    ensures TurnedWell(TurnsEnd(programs, regs, g, turns))
    decreases |regs|
  {
    if regs != [] {
      var n := |regs| - 1;
      TurnsKeepInv(programs, kept, regs[..n], g, turns[..n]);
      TurnKeepsInv(programs, kept, regs[n], TurnsEnd(programs, regs[..n], g, turns[..n]), turns[n]);
    }
  }

  lemma SerialKeepsInv<P(!new)>(programs: Programs<P>, kept: Local<P> -> seq<EntityId>, regs: seq<Registration>,
                                g: Game, turns: seq<seq<nat>>)
    requires Recorders(programs, kept) && Inv(g.world) && |turns| == |regs|
    ensures Inv(SerialEnd(programs, regs, g, turns).world)
  {
    TurnsKeepInv(programs, kept, regs, g, turns);
    var t := TurnsEnd(programs, regs, g, turns);
    ApplyRecordingsInv(t.game.world, t.pending);
  }
}
