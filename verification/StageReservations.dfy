/** Items that reserve entity slots while they run.  The allocator is one cell that such items
    share, so a stage is deterministic if at most one of its items uses it, and only if at most one
    reserves. */
module StageReservations {
  import opened CommandOps
  import opened EntityOps
  import opened Schedule
  import opened StageExecution
  import opened SystemAccess
  import opened WorldStore

  /** What a cell holds: a component or singleton value, or the slot table. */
  datatype Content = Value(value: Value) | Slots(world: World)

  /** The World without its archetypes: all that reserving reads and changes. */
  function SlotsOf(w: World): World {
    w.(archs := [], bySig := map[])
  }

  lemma ReserveInTable(w: World)
    ensures ReserveSlot(SlotsOf(w)) == SlotsOf(ReserveSlot(w)) && ReservedId(SlotsOf(w)) == ReservedId(w)
  {
  }

  // ----- items that reserve as CommandBuffer does -----

  /** One step reserves a slot and keeps its id, or leaves the allocator and the kept ids alone. */
  ghost predicate StepReserves<L>(item: Item<Content, L>, kept: L -> seq<EntityId>, local: L,
                                  view: map<Cell, Content>)
  {
    match item.step(local, view)
    case Done => true
    case Step(next, updates) =>
      if SlotTable in view && SlotTable in updates && SlotTable in item.outputs then
        && view[SlotTable].Slots?
        && updates[SlotTable] == Slots(ReserveSlot(view[SlotTable].world))
        && kept(next) == kept(local) + [ReservedId(view[SlotTable].world)]
      else kept(next) == kept(local)
  }

  /** Recording a create in serial mode reserves its slot at once and keeps the id in the buffer. */
  ghost predicate RecordsSerially<L(!new)>(item: Item<Content, L>, kept: L -> seq<EntityId>) {
    forall local: L, view: map<Cell, Content> :: (SlotTable in view ==> view[SlotTable].Slots?) ==>
      StepReserves(item, kept, local, view)
  }

  /** left bounds the steps that are left; the item is done when it reaches 0. */
  ghost predicate Halts<V(!new), L(!new)>(item: Item<V, L>, left: L -> nat) {
    forall local: L, view: map<Cell, V> :: StepCounts(item, left, local, view)
  }

  ghost predicate StepCounts<V, L>(item: Item<V, L>, left: L -> nat, local: L, view: map<Cell, V>) {
    match item.step(local, view)
    case Done => left(local) == 0
    case Step(next, _) => left(next) < left(local)
  }

  /** The items of a stage, and the state they start in: nothing reserved yet. */
  ghost predicate Starts<L(!new)>(items: seq<Item<Content, L>>, kept: L -> seq<EntityId>, w: World,
                                  st: State<Content, L>)
  {
    && |items| == |st.locals| && Inv(w) && SlotTable in st.store && st.store[SlotTable] == Slots(SlotsOf(w))
    && (forall i :: 0 <= i < |items| ==> RecordsSerially(items[i], kept))
    && (forall i :: 0 <= i < |items| ==> kept(st.locals[i]) == [])
  }

  ghost predicate Ready<L(!new)>(items: seq<Item<Content, L>>, kept: L -> seq<EntityId>, left: L -> nat, w: World,
                                 st: State<Content, L>)
  {
    Starts(items, kept, w, st) && forall i :: 0 <= i < |items| ==> Halts(items[i], left)
  }

  // ----- what any run leaves in the allocator and in the buffers -----

  /** After n reservations: the buffers share out the n ids, none twice. */
  ghost predicate Shared<L>(items: seq<Item<Content, L>>, kept: L -> seq<EntityId>, w: World, st: State<Content, L>,
                            n: nat)
  {
    && |items| == |st.locals| && SlotTable in st.store && st.store[SlotTable] == Slots(SlotsOf(ReserveSlots(w, n)))
    && (forall i, e :: 0 <= i < |items| && e in kept(st.locals[i]) ==> e in ReservedIds(w, n))
    && (forall i, j, e :: 0 <= i < |items| && 0 <= j < |items| && i != j && e in kept(st.locals[i]) ==>
        e !in kept(st.locals[j]))
  }

  lemma {:induction false} IdsHeld(w: World, n: nat)
    requires Inv(w)
    ensures Inv(ReserveSlots(w, n)) && forall e :: e in ReservedIds(w, n) ==> Holds(ReserveSlots(w, n), e)
  {
    if n > 0 {
      var before := ReserveSlots(w, n - 1);
      IdsHeld(w, n - 1);
      ReserveInv(before);
      ReserveEffect(before);
    }
  }

  /** The next id is none of those handed out. */
  lemma FreshId(w: World, n: nat)
    requires Inv(w)
    ensures Inv(ReserveSlots(w, n)) && ReservedId(ReserveSlots(w, n)) !in ReservedIds(w, n)
    ensures ReservedIds(w, n + 1) == ReservedIds(w, n) + [ReservedId(ReserveSlots(w, n))]
  {
    IdsHeld(w, n);
    ReserveInv(ReserveSlots(w, n));
  }

  /** Item i took the reservation, and nothing else changed hands. */
  lemma SharedMore<L>(items: seq<Item<Content, L>>, kept: L -> seq<EntityId>, w: World, st: State<Content, L>, n: nat,
                      i: nat, after: State<Content, L>)
    requires Inv(w) && Shared(items, kept, w, st, n) && i < |items| == |after.locals|
    requires SlotTable in after.store && after.store[SlotTable] == Slots(SlotsOf(ReserveSlot(ReserveSlots(w, n))))
    requires kept(after.locals[i]) == kept(st.locals[i]) + [ReservedId(ReserveSlots(w, n))]
    requires forall j :: 0 <= j < |items| && j != i ==> kept(after.locals[j]) == kept(st.locals[j])
    ensures Shared(items, kept, w, after, n + 1)
  {
    FreshId(w, n);
  }

  lemma SharedStep<L(!new)>(items: seq<Item<Content, L>>, kept: L -> seq<EntityId>, w: World, st: State<Content, L>,
                            n: nat, i: nat)
    returns (m: nat)
    requires Inv(w) && Shared(items, kept, w, st, n) && i < |items| && RecordsSerially(items[i], kept)
    ensures Shared(items, kept, w, StepItem(items, st, i), m)
    ensures (kept(st.locals[i]) == ReservedIds(w, n)) ==> kept(StepItem(items, st, i).locals[i]) == ReservedIds(w, m)
  {
    var after, view := StepItem(items, st, i), View(items[i], st.store);
    m := n;
    assert StepReserves(items[i], kept, st.locals[i], view);
    match items[i].step(st.locals[i], view)
    case Done =>
    case Step(next, updates) =>
      if SlotTable in view && SlotTable in updates && SlotTable in items[i].outputs {
        ReserveInTable(ReserveSlots(w, n));
        SharedMore(items, kept, w, st, n, i, after);
        FreshId(w, n);
        m := n + 1;
      }
  }

  /** In every run the ids in the buffers are those handed out, each in one buffer. */
  lemma {:induction false} RunShares<L(!new)>(items: seq<Item<Content, L>>, kept: L -> seq<EntityId>, w: World,
                                              st: State<Content, L>, sched: seq<nat>) returns (n: nat)
    requires Starts(items, kept, w, st) && Schedules(items, sched)
    ensures Shared(items, kept, w, Run(items, st, sched), n)
    decreases |sched|
  {
    if sched == [] {
      n := 0;
    } else {
      var m := RunShares(items, kept, w, st, sched[..|sched| - 1]);
      n := SharedStep(items, kept, w, Run(items, st, sched[..|sched| - 1]), m, sched[|sched| - 1]);
    }
  }

  /** While one item runs alone, its buffer holds all ids handed out, in order. */
  lemma {:induction false} SoloShares<L(!new)>(items: seq<Item<Content, L>>, kept: L -> seq<EntityId>, w: World,
                                               st: State<Content, L>, i: nat, k: nat) returns (n: nat)
    requires Starts(items, kept, w, st) && i < |items|
    ensures Shared(items, kept, w, Solo(items, st, i, k), n)
            && kept(Solo(items, st, i, k).locals[i]) == ReservedIds(w, n)
    decreases k
  {
    if k == 0 {
      n := 0;
    } else {
      var m := SoloShares(items, kept, w, st, i, k - 1);
      n := SharedStep(items, kept, w, Solo(items, st, i, k - 1), m, i);
    }
  }

  // ----- runs to completion -----

  /** Item i has at most max(0, left - k) steps left once it has been scheduled k times. */
  lemma {:induction false} StepsLeft<V(!new), L(!new)>(items: seq<Item<V, L>>, left: L -> nat, st: State<V, L>,
                                                       sched: seq<nat>, i: nat)
    requires Schedules(items, sched) && i < |items| == |st.locals| && Halts(items[i], left)
    ensures left(Run(items, st, sched).locals[i]) == 0
            || left(Run(items, st, sched).locals[i]) + Count(sched, i) <= left(st.locals[i])
    decreases |sched|
  {
    if sched != [] {
      var front := sched[..|sched| - 1];
      StepsLeft(items, left, st, front, i);
      var mid := Run(items, st, front);
      assert StepCounts(items[i], left, mid.locals[i], View(items[i], mid.store));
    }
  }

  /** A schedule that gives every item its steps runs all items to completion. */
  lemma EnoughSteps<V(!new), L(!new)>(items: seq<Item<V, L>>, left: L -> nat, st: State<V, L>, sched: seq<nat>)
    requires Schedules(items, sched) && |items| == |st.locals|
    requires forall i: nat :: i < |items| ==> Halts(items[i], left) && Count(sched, i) >= left(st.locals[i])
    ensures Complete(items, Run(items, st, sched))
  {
    var end := Run(items, st, sched);
    forall i: nat | i < |items| ensures Finished(items, end, i) {
      StepsLeft(items, left, st, sched, i);
      assert StepCounts(items[i], left, end.locals[i], View(items[i], end.store));
    }
  }

  /** All items in list order, each for its steps. */
  ghost function InTurn<L>(left: L -> nat, locals: seq<L>, n: nat): (s: seq<nat>)
    requires n <= |locals|
    ensures forall k :: 0 <= k < |s| ==> s[k] < n
  {
    if n == 0 then [] else InTurn(left, locals, n - 1) + Repeat(n - 1, left(locals[n - 1]))
  }

  lemma CountParts(a: seq<nat>, b: seq<nat>, i: nat)
    ensures Count(a + b, i) >= Count(a, i) && Count(a + b, i) >= Count(b, i)
  {
    CountAppend(a, b, i);
  }

  lemma CountRepeat(i: nat, k: nat)
    ensures Count(Repeat(i, k), i) == k
  {
    CountUniform(Repeat(i, k), i, i);
  }

  lemma {:induction false} CountInTurn<L>(left: L -> nat, locals: seq<L>, n: nat, i: nat)
    requires i < n <= |locals|
    ensures Count(InTurn(left, locals, n), i) >= left(locals[i])
    decreases n
  {
    CountParts(InTurn(left, locals, n - 1), Repeat(n - 1, left(locals[n - 1])), i);
    if i < n - 1 {
      CountInTurn(left, locals, n - 1, i);
    } else {
      CountRepeat(i, left(locals[i]));
    }
  }

  /** Item i runs to its end before any other item starts. */
  ghost function First<L>(left: L -> nat, locals: seq<L>, i: nat): (s: seq<nat>)
    requires i < |locals|
    ensures forall k :: 0 <= k < |s| ==> s[k] < |locals|
  {
    Repeat(i, left(locals[i])) + InTurn(left, locals, |locals|)
  }

  lemma {:induction false} RunConcat<V, L>(items: seq<Item<V, L>>, st: State<V, L>, a: seq<nat>, b: seq<nat>)
    requires Schedules(items, a) && Schedules(items, b) && |items| == |st.locals|
    ensures Schedules(items, a + b) && Run(items, st, a + b) == Run(items, Run(items, st, a), b)
    decreases |b|
  {
    if b == [] {
      assert a + b == a;
    } else {
      RunConcat(items, st, a, b[..|b| - 1]);
      assert (a + b)[..|a + b| - 1] == a + b[..|b| - 1];
    }
  }

  lemma {:induction false} RunRepeat<V, L>(items: seq<Item<V, L>>, st: State<V, L>, i: nat, k: nat)
    requires i < |items| == |st.locals|
    ensures Run(items, st, Repeat(i, k)) == Solo(items, st, i, k)
    decreases k
  {
    if k > 0 {
      RunRepeat(items, st, i, k - 1);
      assert Repeat(i, k)[..k - 1] == Repeat(i, k - 1);
    }
  }

  /** A finished item keeps its local state in whatever follows. */
  lemma {:induction false} DoneKeeps<V(!new), L(!new)>(items: seq<Item<V, L>>, left: L -> nat, st: State<V, L>,
                                                       sched: seq<nat>, i: nat)
    requires Schedules(items, sched) && i < |items| == |st.locals| && Halts(items[i], left) && left(st.locals[i]) == 0
    ensures Run(items, st, sched).locals[i] == st.locals[i]
    decreases |sched|
  {
    if sched != [] {
      DoneKeeps(items, left, st, sched[..|sched| - 1], i);
      var mid := Run(items, st, sched[..|sched| - 1]);
      assert StepCounts(items[i], left, mid.locals[i], View(items[i], mid.store));
    }
  }

  // ----- the first reservation shows -----

  /** Item i records a create when it runs alone. */
  ghost predicate CreatesAlone<L>(items: seq<Item<Content, L>>, kept: L -> seq<EntityId>, left: L -> nat,
                                  st: State<Content, L>, i: nat)
    requires i < |items| == |st.locals|
  {
    kept(Solo(items, st, i, left(st.locals[i])).locals[i]) != []
  }

  lemma FirstCompletes<L(!new)>(items: seq<Item<Content, L>>, kept: L -> seq<EntityId>, left: L -> nat, w: World,
                                st: State<Content, L>, i: nat)
    requires Ready(items, kept, left, w, st) && i < |items|
    ensures Schedules(items, First(left, st.locals, i)) && Complete(items, Run(items, st, First(left, st.locals, i)))
  {
    var sched := First(left, st.locals, i);
    forall j: nat | j < |items| ensures Count(sched, j) >= left(st.locals[j]) {
      CountParts(Repeat(i, left(st.locals[i])), InTurn(left, st.locals, |st.locals|), j);
      CountInTurn(left, st.locals, |st.locals|, j);
    }
    EnoughSteps(items, left, st, sched);
  }

  /** If item i runs first and creates anything, the first id handed out is in its buffer. */
  lemma FirstKeepsFirst<L(!new)>(items: seq<Item<Content, L>>, kept: L -> seq<EntityId>, left: L -> nat, w: World,
                                 st: State<Content, L>, i: nat)
    requires Ready(items, kept, left, w, st) && i < |items| && CreatesAlone(items, kept, left, st, i)
    ensures Schedules(items, First(left, st.locals, i))
    ensures ReservedId(w) in kept(Run(items, st, First(left, st.locals, i)).locals[i])
  {
    var k, rest := left(st.locals[i]), InTurn(left, st.locals, |st.locals|);
    FirstCompletes(items, kept, left, w, st, i);
    RunConcat(items, st, Repeat(i, k), rest);
    RunRepeat(items, st, i, k);
    var solo := Solo(items, st, i, k);
    CountRepeat(i, k);
    StepsLeft(items, left, st, Repeat(i, k), i);
    DoneKeeps(items, left, solo, rest, i);
    var n := SoloShares(items, kept, w, st, i, k);
    assert kept(solo.locals[i]) == ReservedIds(w, n) && n > 0;
    FirstReserved(w, n);
  }

  lemma {:induction false} FirstReserved(w: World, n: nat)
    requires n > 0
    ensures ReservedId(w) in ReservedIds(w, n)
  {
    if n > 1 {
      FirstReserved(w, n - 1);
    } else {
      assert ReserveSlots(w, 0) == w;
    }
  }

  /** Two items that create leave different buffers behind, depending on which one ran first. */
  lemma TwoCreatorsDiffer<L(!new)>(items: seq<Item<Content, L>>, kept: L -> seq<EntityId>, left: L -> nat, w: World,
                                   st: State<Content, L>, i: nat, j: nat)
    requires Ready(items, kept, left, w, st) && i < |items| && j < |items| && i != j
    requires CreatesAlone(items, kept, left, st, i) && CreatesAlone(items, kept, left, st, j)
    ensures Schedules(items, First(left, st.locals, i)) && Complete(items, Run(items, st, First(left, st.locals, i)))
    ensures Schedules(items, First(left, st.locals, j)) && Complete(items, Run(items, st, First(left, st.locals, j)))
    ensures Run(items, st, First(left, st.locals, i)).locals[i] != Run(items, st, First(left, st.locals, j)).locals[i]
  {
    FirstCompletes(items, kept, left, w, st, i);
    FirstCompletes(items, kept, left, w, st, j);
    FirstKeepsFirst(items, kept, left, w, st, i);
    FirstKeepsFirst(items, kept, left, w, st, j);
    var n := RunShares(items, kept, w, st, First(left, st.locals, j));
    assert ReservedId(w) !in kept(Run(items, st, First(left, st.locals, j)).locals[i]);
  }

  /** Nobody looks at the slot table beside an item that reserves, except to reserve. */
  ghost predicate OnlyReserversConsult<L>(items: seq<Item<Content, L>>) {
    forall k, l :: 0 <= k < |items| && 0 <= l < |items| && Reserves(items[k]) && Consults(items[l]) ==>
      Reserves(items[l])
  }

  lemma ApartAgrees<V, L>(reg: Registry, cs: seq<Pair>, stages: seq<seq<nat>>, s: nat, decls: seq<SystemDecl>,
                          works: seq<Work>, items: seq<Item<V, L>>, sig: nat -> set<nat>, st: State<V, L>)
    requires IsSchedule(reg, cs, stages) && s < |stages| && StageWork(reg, decls, stages[s], works)
             && |items| == |works| == |st.locals|
    requires forall k :: 0 <= k < |items| ==> RespectsDeclaration(items[k], decls[works[k].sys], works[k].rows, sig)
    requires AllocatorApart(items)
    ensures Deterministic(items, st)
  {
    forall a, b | Finishes(items, st, a) && Finishes(items, st, b) ensures Run(items, st, a) == Run(items, st, b) {
      StageDeterministic(reg, cs, stages, s, decls, works, items, sig, st, a, b);
    }
  }

  lemma TwoReserversDisagree<L(!new)>(items: seq<Item<Content, L>>, kept: L -> seq<EntityId>, left: L -> nat, w: World,
                                      st: State<Content, L>)
    requires Ready(items, kept, left, w, st) && !OneReserver(items)
    requires forall i :: 0 <= i < |items| && Reserves(items[i]) ==> CreatesAlone(items, kept, left, st, i)
    ensures !Deterministic(items, st)
  {
    var i, j :| 0 <= i < |items| && 0 <= j < |items| && Reserves(items[i]) && Reserves(items[j]) && i != j;
    TwoCreatorsDiffer(items, kept, left, w, st, i, j);
    assert Finishes(items, st, First(left, st.locals, i)) && Finishes(items, st, First(left, st.locals, j));
  }

  /** The items of a scheduled stage, of which those that can reserve do create something when they
      run alone.  They end in the same store, allocator and buffers under every interleaving if
      reservers are alone with the slot table, and only if at most one item reserves. */
  lemma StageAgreesExactly<L(!new)>(reg: Registry, cs: seq<Pair>, stages: seq<seq<nat>>, s: nat, decls: seq<SystemDecl>,
                                    works: seq<Work>, items: seq<Item<Content, L>>, sig: nat -> set<nat>,
                                    kept: L -> seq<EntityId>, left: L -> nat, w: World, st: State<Content, L>)
    requires IsSchedule(reg, cs, stages) && s < |stages| && StageWork(reg, decls, stages[s], works)
             && |items| == |works|
    requires forall k :: 0 <= k < |items| ==> RespectsDeclaration(items[k], decls[works[k].sys], works[k].rows, sig)
    requires Ready(items, kept, left, w, st)
    requires forall i :: 0 <= i < |items| && Reserves(items[i]) ==> CreatesAlone(items, kept, left, st, i)
    ensures AllocatorApart(items) ==> Deterministic(items, st)
    ensures Deterministic(items, st) ==> OneReserver(items)
    ensures OnlyReserversConsult(items) ==> (Deterministic(items, st) <==> OneReserver(items))
  {
    if AllocatorApart(items) {
      ApartAgrees(reg, cs, stages, s, decls, works, items, sig, st);
    }
    if !OneReserver(items) {
      TwoReserversDisagree(items, kept, left, w, st);
    }
  }
}
