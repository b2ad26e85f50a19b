/** Parallel execution of one stage.  A work item is an arbitrary deterministic program whose
    steps see and change only the cells of its footprint and its own local state (which
    includes the command buffer it records into).  Worker threads may interleave the steps of
    all items in any way; the theorems say that this does not matter. */
module StageExecution {
  import opened Conflicts
  import opened Schedule
  import opened SystemAccess

  /** One component of one row, a singleton, or the slot table, which a system that records creates
      in serial mode extends while it runs. */
  datatype Cell = Cell(row: nat, comp: nat) | Singleton(comp: nat) | SlotTable

  datatype Outcome<V, L> = Done | Step(local: L, updates: map<Cell, V>)

  datatype Item<!V, !L> = Item(inputs: iset<Cell>, outputs: iset<Cell>, step: (L, map<Cell, V>) -> Outcome<V, L>)

  datatype State<V, L> = State(store: map<Cell, V>, locals: seq<L>)

  ghost function View<V, L>(item: Item<V, L>, store: map<Cell, V>): map<Cell, V> {
    map c | c in store && (c in item.inputs || c in item.outputs) :: store[c]
  }

  ghost function Written<V, L>(item: Item<V, L>, store: map<Cell, V>, updates: map<Cell, V>): map<Cell, V> {
    map c | c in store :: if c in updates && c in item.outputs then updates[c] else store[c]
  }

  ghost function Next<V, L>(item: Item<V, L>, local: L, store: map<Cell, V>): Outcome<V, L> {
    item.step(local, View(item, store))
  }

  /** Item i takes its next atomic step; a finished item stands still. */
  ghost function StepItem<V, L>(items: seq<Item<V, L>>, st: State<V, L>, i: nat): (r: State<V, L>)
    requires i < |items| == |st.locals|
    ensures r.store.Keys == st.store.Keys && |r.locals| == |st.locals|
  {
    match Next(items[i], st.locals[i], st.store)
    case Done => st
    case Step(local, updates) => State(Written(items[i], st.store, updates), st.locals[i := local])
  }

  ghost predicate Schedules<V, L>(items: seq<Item<V, L>>, sched: seq<nat>) {
    forall k :: 0 <= k < |sched| ==> sched[k] < |items|
  }

  /** The state after the steps of an interleaving, given as the item of each step. */
  ghost function Run<V, L>(items: seq<Item<V, L>>, st: State<V, L>, sched: seq<nat>): (r: State<V, L>)
    requires Schedules(items, sched) && |items| == |st.locals|
    ensures r.store.Keys == st.store.Keys && |r.locals| == |st.locals|
  {
    if sched == [] then st else StepItem(items, Run(items, st, sched[..|sched| - 1]), sched[|sched| - 1])
  }

  /** Item i running alone for k steps. */
  ghost function Solo<V, L>(items: seq<Item<V, L>>, st: State<V, L>, i: nat, k: nat): (r: State<V, L>)
    requires i < |items| == |st.locals|
    ensures r.store.Keys == st.store.Keys && |r.locals| == |st.locals|
    ensures forall c :: c in st.store && c !in items[i].outputs ==> r.store[c] == st.store[c]
  {
    if k == 0 then st else StepItem(items, Solo(items, st, i, k - 1), i)
  }

  function Count(sched: seq<nat>, i: nat): nat {
    if sched == [] then 0 else Count(sched[..|sched| - 1], i) + (if sched[|sched| - 1] == i then 1 else 0)
  }

  /** What one item writes no other item reads or writes. */
  ghost predicate Independent<V, L>(items: seq<Item<V, L>>) {
    forall i, j, c :: 0 <= i < |items| && 0 <= j < |items| && i != j && c in items[i].outputs ==>
      c !in items[j].inputs && c !in items[j].outputs
  }

  /** What the state shows of item i is exactly what i would have produced alone. */
  ghost predicate AsIfAlone<V, L>(items: seq<Item<V, L>>, st0: State<V, L>, st: State<V, L>, i: nat, k: nat)
    requires i < |items| == |st0.locals| == |st.locals| && st.store.Keys == st0.store.Keys
  {
    var solo := Solo(items, st0, i, k);
    && st.locals[i] == solo.locals[i]
    && forall c :: c in st.store && c in items[i].outputs ==> st.store[c] == solo.store[c]
  }

  ghost predicate Untouched<V, L>(items: seq<Item<V, L>>, st0: State<V, L>, st: State<V, L>)
    requires st.store.Keys == st0.store.Keys
  {
    forall c :: c in st.store && (forall i :: 0 <= i < |items| ==> c !in items[i].outputs) ==>
      st.store[c] == st0.store[c]
  }

  lemma SameView<V, L>(items: seq<Item<V, L>>, st0: State<V, L>, st: State<V, L>, i: nat, k: nat)
    requires Independent(items) && i < |items| == |st0.locals| == |st.locals| && st.store.Keys == st0.store.Keys
    requires AsIfAlone(items, st0, st, i, k) && Untouched(items, st0, st)
    ensures View(items[i], st.store) == View(items[i], Solo(items, st0, i, k).store)
  {
    var solo := Solo(items, st0, i, k);
    forall c | c in st.store && (c in items[i].inputs || c in items[i].outputs)
      ensures st.store[c] == solo.store[c]
    {
      if c !in items[i].outputs {
        forall j | 0 <= j < |items| ensures c !in items[j].outputs {
        }
      }
    }
  }

  /** A step of item j moves j one solo step on and is not noticed by any other item. */
  lemma StepKeeps<V, L>(items: seq<Item<V, L>>, st0: State<V, L>, st: State<V, L>, i: nat, k: nat, j: nat, l: nat)
    requires Independent(items) && i < |items| && j < |items| && |items| == |st0.locals| == |st.locals|
    requires st.store.Keys == st0.store.Keys && Untouched(items, st0, st)
    requires AsIfAlone(items, st0, st, i, k) && AsIfAlone(items, st0, st, j, l)
    requires i == j ==> k == l
    ensures AsIfAlone(items, st0, StepItem(items, st, j), i, if i == j then k + 1 else k)
  {
    SameView(items, st0, st, j, l);
  }

  lemma StepUntouched<V, L>(items: seq<Item<V, L>>, st0: State<V, L>, st: State<V, L>, j: nat)
    requires j < |items| == |st.locals| && st.store.Keys == st0.store.Keys && Untouched(items, st0, st)
    ensures Untouched(items, st0, StepItem(items, st, j))
  {
  }

  /** The interleaving is invisible: every item is where it would be after as many solo steps. */
  lemma {:induction false} RunDecomposes<V, L>(items: seq<Item<V, L>>, st0: State<V, L>, sched: seq<nat>)
    requires Independent(items) && Schedules(items, sched) && |items| == |st0.locals|
    ensures Untouched(items, st0, Run(items, st0, sched))
    ensures forall i: nat :: i < |items| ==> AsIfAlone(items, st0, Run(items, st0, sched), i, Count(sched, i))
    decreases |sched|
  {
    if sched != [] {
      var front, j := sched[..|sched| - 1], sched[|sched| - 1];
      RunDecomposes(items, st0, front);
      var mid, end := Run(items, st0, front), Run(items, st0, sched);
      assert end == StepItem(items, mid, j);
      StepUntouched(items, st0, mid, j);
      forall i: nat | i < |items| ensures AsIfAlone(items, st0, end, i, Count(sched, i)) {
        StepCounted(items, st0, mid, sched, front, i);
      }
    }
  }

  lemma StepCounted<V, L>(items: seq<Item<V, L>>, st0: State<V, L>, mid: State<V, L>, sched: seq<nat>, front: seq<nat>,
                          i: nat)
    requires Independent(items) && Schedules(items, sched) && sched != [] && front == sched[..|sched| - 1]
             && |items| == |st0.locals| == |mid.locals| && i < |items|
    requires mid.store.Keys == st0.store.Keys && Untouched(items, st0, mid)
    requires forall k: nat :: k < |items| ==> AsIfAlone(items, st0, mid, k, Count(front, k))
    ensures AsIfAlone(items, st0, StepItem(items, mid, sched[|sched| - 1]), i, Count(sched, i))
  {
    var j := sched[|sched| - 1];
    StepKeeps(items, st0, mid, i, Count(front, i), j, Count(front, j));
  }

  /** Two states that agree with solo runs of equal length are equal. */
  lemma CountsDetermineState<V, L>(items: seq<Item<V, L>>, st0: State<V, L>, a: seq<nat>, b: seq<nat>)
    requires Independent(items) && Schedules(items, a) && Schedules(items, b) && |items| == |st0.locals|
    requires forall i: nat :: i < |items| ==> SameProgress(items, st0, i, Count(a, i), Count(b, i))
    ensures Run(items, st0, a) == Run(items, st0, b)
  {
    RunDecomposes(items, st0, a);
    RunDecomposes(items, st0, b);
    var x, y := Run(items, st0, a), Run(items, st0, b);
    forall i: nat | i < |items| ensures x.locals[i] == y.locals[i] {
      assert SameProgress(items, st0, i, Count(a, i), Count(b, i));
      assert AsIfAlone(items, st0, x, i, Count(a, i)) && AsIfAlone(items, st0, y, i, Count(b, i));
    }
    assert x.locals == y.locals;
    forall c | c in x.store ensures x.store[c] == y.store[c] {
      if i :| 0 <= i < |items| && c in items[i].outputs {
        assert SameProgress(items, st0, i, Count(a, i), Count(b, i));
        assert AsIfAlone(items, st0, x, i, Count(a, i)) && AsIfAlone(items, st0, y, i, Count(b, i));
      }
    }
    assert x.store == y.store;
  }

  ghost predicate SameProgress<V, L>(items: seq<Item<V, L>>, st0: State<V, L>, i: nat, k: nat, l: nat)
    requires i < |items| == |st0.locals|
  {
    Solo(items, st0, i, k) == Solo(items, st0, i, l)
  }

  // ----- list order -----

  function Repeat(i: nat, k: nat): (s: seq<nat>)
    ensures |s| == k && forall j :: 0 <= j < k ==> s[j] == i
  {
    seq(k, _ => i)
  }

  /** Items 0, 1, ... n-1 one after the other, item i taking as many steps as in `sched`. */
  ghost function ListOrder(sched: seq<nat>, n: nat): (s: seq<nat>)
    ensures forall j :: 0 <= j < |s| ==> s[j] < n
  {
    if n == 0 then [] else ListOrder(sched, n - 1) + Repeat(n - 1, Count(sched, n - 1))
  }

  lemma {:induction false} CountAppend(a: seq<nat>, b: seq<nat>, i: nat)
    ensures Count(a + b, i) == Count(a, i) + Count(b, i)
    decreases |b|
  {
    if b == [] {
      assert a + b == a;
    } else {
      assert (a + b)[..|a + b| - 1] == a + b[..|b| - 1];
      CountAppend(a, b[..|b| - 1], i);
    }
  }

  lemma {:induction false} CountUniform(s: seq<nat>, i: nat, j: nat)
    requires forall k :: 0 <= k < |s| ==> s[k] == j
    ensures Count(s, i) == if i == j then |s| else 0
  {
    if s != [] {
      CountUniform(s[..|s| - 1], i, j);
    }
  }

  lemma {:induction false} CountListOrder(sched: seq<nat>, n: nat, i: nat)
    ensures Count(ListOrder(sched, n), i) == if i < n then Count(sched, i) else 0
    decreases n
  {
    if n > 0 {
      CountListOrder(sched, n - 1, i);
      var last := Repeat(n - 1, Count(sched, n - 1));
      CountAppend(ListOrder(sched, n - 1), last, i);
      CountUniform(last, i, n - 1);
    }
  }

  /** Every interleaving ends in the state of running the same steps item after item. */
  lemma InterleavingEqualsListOrder<V, L>(items: seq<Item<V, L>>, st0: State<V, L>, sched: seq<nat>)
    requires Independent(items) && Schedules(items, sched) && |items| == |st0.locals|
    ensures Schedules(items, ListOrder(sched, |items|))
    ensures Run(items, st0, sched) == Run(items, st0, ListOrder(sched, |items|))
  {
    forall i: nat | i < |items|
      ensures SameProgress(items, st0, i, Count(sched, i), Count(ListOrder(sched, |items|), i))
    {
      CountListOrder(sched, |items|, i);
    }
    CountsDetermineState(items, st0, sched, ListOrder(sched, |items|));
  }

  // ----- complete runs -----

  ghost predicate Finished<V, L>(items: seq<Item<V, L>>, st: State<V, L>, i: nat)
    requires i < |items| == |st.locals|
  {
    Next(items[i], st.locals[i], st.store).Done?
  }

  ghost predicate Complete<V, L>(items: seq<Item<V, L>>, st: State<V, L>)
    requires |items| == |st.locals|
  {
    forall i: nat :: i < |items| ==> Finished(items, st, i)
  }

  lemma {:induction false} FinishedStays<V, L>(items: seq<Item<V, L>>, st: State<V, L>, i: nat, k: nat, l: nat)
    requires i < |items| == |st.locals| && k <= l && Finished(items, Solo(items, st, i, k), i)
    ensures Solo(items, st, i, l) == Solo(items, st, i, k)
    decreases l
  {
    if k < l {
      FinishedStays(items, st, i, k, l - 1);
    }
  }

  lemma FinishedStep<V, L>(items: seq<Item<V, L>>, st: State<V, L>, j: nat, i: nat)
    requires Independent(items) && i < |items| == |st.locals| && j < |items| && Finished(items, st, i)
    ensures Finished(items, StepItem(items, st, j), i)
  {
    if i != j {
      assert View(items[i], StepItem(items, st, j).store) == View(items[i], st.store);
    }
  }

  /** A finished item stays finished while items that do not interfere go on. */
  lemma {:induction false} FinishedKept<V, L>(items: seq<Item<V, L>>, st: State<V, L>, sched: seq<nat>, i: nat)
    requires Independent(items) && Schedules(items, sched) && i < |items| == |st.locals| && Finished(items, st, i)
    ensures Finished(items, Run(items, st, sched), i)
    decreases |sched|
  {
    if sched != [] {
      FinishedKept(items, st, sched[..|sched| - 1], i);
      FinishedStep(items, Run(items, st, sched[..|sched| - 1]), sched[|sched| - 1], i);
    }
  }

  /** The join point: any two interleavings that run every item to completion, whatever the
      number of workers, leave the same store and the same local states and buffers. */
  lemma CompleteRunsAgree<V, L>(items: seq<Item<V, L>>, st0: State<V, L>, a: seq<nat>, b: seq<nat>)
    requires Independent(items) && Schedules(items, a) && Schedules(items, b) && |items| == |st0.locals|
    requires Complete(items, Run(items, st0, a)) && Complete(items, Run(items, st0, b))
    ensures Run(items, st0, a) == Run(items, st0, b)
  {
    RunDecomposes(items, st0, a);
    RunDecomposes(items, st0, b);
    forall i: nat | i < |items| ensures SameProgress(items, st0, i, Count(a, i), Count(b, i)) {
      assert Finished(items, Run(items, st0, a), i) && Finished(items, Run(items, st0, b), i);
      SameView(items, st0, Run(items, st0, a), i, Count(a, i));
      SameView(items, st0, Run(items, st0, b), i, Count(b, i));
      if Count(a, i) <= Count(b, i) {
        FinishedStays(items, st0, i, Count(a, i), Count(b, i));
      } else {
        FinishedStays(items, st0, i, Count(b, i), Count(a, i));
      }
    }
    CountsDetermineState(items, st0, a, b);
  }

  /** The interleaving runs every item to its end. */
  ghost predicate Finishes<V, L>(items: seq<Item<V, L>>, st: State<V, L>, sched: seq<nat>)
    requires |items| == |st.locals|
  {
    Schedules(items, sched) && Complete(items, Run(items, st, sched))
  }

  /** Every complete run ends alike. */
  ghost predicate Deterministic<V, L>(items: seq<Item<V, L>>, st: State<V, L>)
    requires |items| == |st.locals|
  {
    forall a, b :: Finishes(items, st, a) && Finishes(items, st, b) ==> Run(items, st, a) == Run(items, st, b)
  }

  // ----- the work items of a stage -----

  /** A work item of the multi-system branch: one chunk of a threaded system, or the whole
      tick of a plain system (whose rows are all rows). */
  datatype Work = Work(sys: nat, rows: iset<nat>)

  /** The cells d may access from an item iterating the given rows. */
  ghost predicate Within(d: SystemDecl, rows: iset<nat>, sig: nat -> set<nat>, cell: Cell, write: bool) {
    match cell
    case Cell(row, comp) => (row in rows && Matches(d, sig(row)) && ByIteration(d, comp, write))
      || ByExtra(d, comp, write)
    case Singleton(comp) => ByExtra(d, comp, write)
    case SlotTable => false
  }

  /** The item reserves slots in the World while it runs. */
  ghost predicate Reserves<V, L>(item: Item<V, L>) {
    SlotTable in item.outputs
  }

  /** The item looks at the slot table, if only to reserve. */
  ghost predicate Consults<V, L>(item: Item<V, L>) {
    SlotTable in item.inputs || SlotTable in item.outputs
  }

  /** The item stays within the declaration, except that it may reserve slots. */
  ghost predicate RespectsDeclaration<V, L>(item: Item<V, L>, d: SystemDecl, rows: iset<nat>, sig: nat -> set<nat>) {
    && (forall c :: c in item.inputs ==> c == SlotTable || Within(d, rows, sig, c, false))
    && (forall c :: c in item.outputs ==> c == SlotTable || Within(d, rows, sig, c, true))
  }

  /** At most one item of the stage reserves slots while it runs. */
  ghost predicate OneReserver<V, L>(items: seq<Item<V, L>>) {
    forall k, l :: 0 <= k < |items| && 0 <= l < |items| && Reserves(items[k]) && Reserves(items[l]) ==> k == l
  }

  /** An item that reserves slots has the slot table to itself. */
  ghost predicate AllocatorApart<V, L>(items: seq<Item<V, L>>) {
    forall k, l :: 0 <= k < |items| && 0 <= l < |items| && k != l && Reserves(items[k]) ==> !Consults(items[l])
  }

  /** A system split into chunks declares no extra writes and extra-reads nothing its own tick writes. */
  ghost predicate Splittable(d: SystemDecl) {
    d.extraWrites == [] && forall c: nat :: c in d.extraReads ==> ComponentAccess(c, Write) !in d.tick
  }

  /** Two chunks of d, iterated in parallel, touch one cell and one of them writes it. */
  ghost predicate ChunksRace(d: SystemDecl, one: iset<nat>, other: iset<nat>, sig: nat -> set<nat>, cell: Cell) {
    one !! other && Within(d, one, sig, cell, true) && Within(d, other, sig, cell, false)
  }

  /** What registration rules out for a threaded system (extra writes) does not rule out races among
      its own chunks: they remain exactly when it extra-reads a component its tick writes. */
  lemma ChunksRaceExactly(d: SystemDecl)
    requires d.extraWrites == [] && !Contradictory(d)
    ensures (exists one, other, sig, cell :: ChunksRace(d, one, other, sig, cell)) <==>
            exists c: nat :: c in d.extraReads && ComponentAccess(c, Write) in d.tick
  {
    forall c: nat | c in d.extraReads && ComponentAccess(c, Write) in d.tick
      ensures exists one, other, sig, cell :: ChunksRace(d, one, other, sig, cell)
    {
      var own := set i | 0 <= i < |d.tick| :: d.tick[i].id;
      var sig := (row: nat) => own;
      assert forall x: nat :: Mentions(d.tick, x) ==> x in own;
      assert forall x: nat :: x in own ==> Mentions(d.tick, x) by {
        forall x: nat | x in own ensures Mentions(d.tick, x) {
          var i :| 0 <= i < |d.tick| && d.tick[i].id == x;
          MemberMentions(d.tick, i);
        }
      }
      assert Matches(d, sig(0));
      assert ChunksRace(d, iset{0}, iset{1}, sig, Cell(0, c));
    }
    forall one, other, sig: nat -> set<nat>, cell | ChunksRace(d, one, other, sig, cell)
      ensures exists c: nat :: c in d.extraReads && ComponentAccess(c, Write) in d.tick
    {
      assert cell.row in one && ByIteration(d, cell.comp, true);
      assert cell.row !in other;
      assert cell.comp in d.extraReads && ComponentAccess(cell.comp, Write) in d.tick;
    }
  }

  /** The items dispatched for one stage: systems of the stage, several items of one system only
      if it is splittable and their rows are disjoint. */
  ghost predicate StageWork(reg: Registry, decls: seq<SystemDecl>, stage: seq<nat>, works: seq<Work>) {
    && |decls| == |reg|
    && (forall k :: 0 <= k < |works| ==> works[k].sys in stage && works[k].sys < |reg|)
    && (forall k :: 0 <= k < |works| ==> RegistrationOf(decls[works[k].sys], reg[works[k].sys]))
    && (forall k, l :: 0 <= k < |works| && 0 <= l < |works| && k != l && works[k].sys == works[l].sys ==>
          Splittable(decls[works[k].sys]) && works[k].rows !! works[l].rows)
  }

  /** Two items of a stage, one of which may write the cell, do not share it. */
  lemma CellNotShared(reg: Registry, cs: seq<Pair>, stages: seq<seq<nat>>, s: nat, decls: seq<SystemDecl>,
                      works: seq<Work>, sig: nat -> set<nat>, k: nat, l: nat, c: Cell, write: bool)
    requires IsSchedule(reg, cs, stages) && s < |stages| && StageWork(reg, decls, stages[s], works)
    requires k < |works| && l < |works| && k != l && Within(decls[works[k].sys], works[k].rows, sig, c, true)
    ensures !Within(decls[works[l].sys], works[l].rows, sig, c, write)
  {
    var u, v := works[k].sys, works[l].sys;
    if u != v && Within(decls[v], works[l].rows, sig, c, write) {
      var carried := if c.Cell? then sig(c.row) else {};
      StageRaceFree(reg, cs, stages, s, u, v, decls[u], decls[v], carried, c.comp);
      assert MayTouch(decls[u], carried, c.comp, true) && MayTouch(decls[v], carried, c.comp, false);
    }
  }

  /** The footprints of a stage's work items are independent, for every world, if no two share a
      slot table that one of them extends. */
  lemma StageItemsIndependent<V, L>(reg: Registry, cs: seq<Pair>, stages: seq<seq<nat>>, s: nat, decls: seq<SystemDecl>,
                                    works: seq<Work>, items: seq<Item<V, L>>, sig: nat -> set<nat>)
    requires IsSchedule(reg, cs, stages) && s < |stages| && StageWork(reg, decls, stages[s], works)
    requires |items| == |works| && AllocatorApart(items)
    requires forall k :: 0 <= k < |items| ==> RespectsDeclaration(items[k], decls[works[k].sys], works[k].rows, sig)
    ensures Independent(items)
  {
    forall k, l, c | 0 <= k < |items| && 0 <= l < |items| && k != l && c in items[k].outputs
      ensures c !in items[l].inputs && c !in items[l].outputs
    {
      if c == SlotTable {
        assert Reserves(items[k]) && !Consults(items[l]);
      } else {
        CellNotShared(reg, cs, stages, s, decls, works, sig, k, l, c, false);
        CellNotShared(reg, cs, stages, s, decls, works, sig, k, l, c, true);
      }
    }
  }

  /** A scheduled stage is deterministic if an item that reserves slots is alone with them: every complete
      parallel run equals every other, in particular the serial one. */
  lemma StageDeterministic<V, L>(reg: Registry, cs: seq<Pair>, stages: seq<seq<nat>>, s: nat, decls: seq<SystemDecl>,
                                 works: seq<Work>, items: seq<Item<V, L>>, sig: nat -> set<nat>,
                                 st0: State<V, L>, a: seq<nat>, b: seq<nat>)
    requires IsSchedule(reg, cs, stages) && s < |stages| && StageWork(reg, decls, stages[s], works)
    requires |items| == |works| == |st0.locals| && AllocatorApart(items)
    requires forall k :: 0 <= k < |items| ==> RespectsDeclaration(items[k], decls[works[k].sys], works[k].rows, sig)
    requires Schedules(items, a) && Complete(items, Run(items, st0, a))
    requires Schedules(items, b) && Complete(items, Run(items, st0, b))
    ensures Run(items, st0, a) == Run(items, st0, b)
    ensures Run(items, st0, a) == Run(items, st0, ListOrder(a, |items|))
  {
    StageItemsIndependent(reg, cs, stages, s, decls, works, items, sig);
    CompleteRunsAgree(items, st0, a, b);
    InterleavingEqualsListOrder(items, st0, a);
  }
}
