/** How sharp the condition on footprints is: with it every program on the footprints is
    deterministic, and without it some program is not. */
module Footprints {
  import opened Schedule
  import opened StageExecution
  import opened SystemAccess

  /** What an item may read and write, whatever it computes. */
  datatype Foot = Foot(inputs: iset<Cell>, outputs: iset<Cell>)

  ghost predicate On<V, L>(items: seq<Item<V, L>>, feet: seq<Foot>) {
    |items| == |feet| && forall i :: 0 <= i < |feet| ==>
      items[i].inputs == feet[i].inputs && items[i].outputs == feet[i].outputs
  }

  ghost predicate Meet(feet: seq<Foot>, i: nat, j: nat, c: Cell) {
    i < |feet| && j < |feet| && i != j && c in feet[i].outputs && (c in feet[j].inputs || c in feet[j].outputs)
  }

  /** What one item writes no other item reads or writes. */
  ghost predicate Apart(feet: seq<Foot>) {
    forall i: nat, j: nat, c :: !Meet(feet, i, j, c)
  }

  lemma ApartDeterministic<V, L>(items: seq<Item<V, L>>, feet: seq<Foot>, st: State<V, L>)
    requires On(items, feet) && Apart(feet) && |items| == |st.locals|
    ensures Deterministic(items, st)
  {
    assert Independent(items) by {
      forall i, j, c | 0 <= i < |items| && 0 <= j < |items| && i != j && c in items[i].outputs
        ensures c !in items[j].inputs && c !in items[j].outputs
      {
        assert !Meet(feet, i, j, c);
      }
    }
    forall a, b | Finishes(items, st, a) && Finishes(items, st, b) ensures Run(items, st, a) == Run(items, st, b) {
      CompleteRunsAgree(items, st, a, b);
    }
  }

  // ----- a writer and a reader of one cell -----

  /** Writes 2 into the cell, and is done. */
  function Writer(c: Cell): (int, map<Cell, int>) -> Outcome<int, int> {
    (local: int, view: map<Cell, int>) => if local == 0 then Step(1, map[c := 2]) else Done
  }

  /** Keeps what it finds in the cell, and is done. */
  function Reader(c: Cell): (int, map<Cell, int>) -> Outcome<int, int> {
    (local: int, view: map<Cell, int>) => if local == 0 then Step(if c in view then view[c] else 3, map[]) else Done
  }

  function Idle(): (int, map<Cell, int>) -> Outcome<int, int> {
    (local: int, view: map<Cell, int>) => Done
  }

  ghost function Programs(feet: seq<Foot>, i: nat, j: nat, c: Cell): (items: seq<Item<int, int>>)
    ensures On(items, feet)
    ensures forall k :: 0 <= k < |items| ==>
            items[k].step == if k == i then Writer(c) else if k == j then Reader(c) else Idle()
  {
    seq(|feet|, k requires 0 <= k < |feet| =>
      Item(feet[k].inputs, feet[k].outputs, if k == i then Writer(c) else if k == j then Reader(c) else Idle()))
  }

  function Fresh(n: nat, c: Cell): (st: State<int, int>)
    ensures st.store == map[c := 1] && |st.locals| == n && forall k :: 0 <= k < n ==> st.locals[k] == 0
  {
    State(map[c := 1], seq(n, _ => 0))
  }

  lemma TwoSteps<V, L>(items: seq<Item<V, L>>, st: State<V, L>, i: nat, j: nat)
    requires i < |items| && j < |items| && |items| == |st.locals|
    ensures Schedules(items, [i, j]) && Run(items, st, [i, j]) == StepItem(items, StepItem(items, st, i), j)
  {
    assert [i, j][..1] == [i] && [i][..0] == [];
    assert Run(items, st, [i]) == StepItem(items, st, i);
  }

  lemma WriterFirst(feet: seq<Foot>, i: nat, j: nat, c: Cell)
    requires Meet(feet, i, j, c)
    ensures var items, st := Programs(feet, i, j, c), Fresh(|feet|, c);
            Finishes(items, st, [i, j]) && Run(items, st, [i, j]).locals[j] == 2
  {
    var items, st := Programs(feet, i, j, c), Fresh(|feet|, c);
    TwoSteps(items, st, i, j);
    var mid := StepItem(items, st, i);
    assert View(items[j], mid.store)[c] == 2;
  }

  lemma ReaderFirst(feet: seq<Foot>, i: nat, j: nat, c: Cell)
    requires Meet(feet, i, j, c)
    ensures var items, st := Programs(feet, i, j, c), Fresh(|feet|, c);
            Finishes(items, st, [j, i]) && Run(items, st, [j, i]).locals[j] == 1
  {
    var items, st := Programs(feet, i, j, c), Fresh(|feet|, c);
    TwoSteps(items, st, j, i);
    assert View(items[j], st.store)[c] == 1;
  }

  /** Where footprints meet, a program that writes there and one that looks there tell two
      interleavings apart. */
  lemma MeetingShows(feet: seq<Foot>, i: nat, j: nat, c: Cell)
    requires Meet(feet, i, j, c)
    ensures On(Programs(feet, i, j, c), feet) && !Deterministic(Programs(feet, i, j, c), Fresh(|feet|, c))
  {
    WriterFirst(feet, i, j, c);
    ReaderFirst(feet, i, j, c);
  }

  /** All programs on the footprints are deterministic if and only if the footprints are apart. */
  lemma ApartExactly(feet: seq<Foot>)
    ensures (forall items: seq<Item<int, int>>, st: State<int, int> :: On(items, feet) && |items| == |st.locals| ==>
             Deterministic(items, st)) <==> Apart(feet)
  {
    if Apart(feet) {
      forall items: seq<Item<int, int>>, st: State<int, int> | On(items, feet) && |items| == |st.locals|
        ensures Deterministic(items, st)
      {
        ApartDeterministic(items, feet, st);
      }
    } else {
      var i: nat, j: nat, c :| Meet(feet, i, j, c);
      MeetingShows(feet, i, j, c);
    }
  }

  // ----- the footprints of a scheduled stage -----

  /** Within the declarations, except that an item may use the slot table. */
  ghost predicate Declared(feet: seq<Foot>, decls: seq<SystemDecl>, works: seq<Work>, sig: nat -> set<nat>)
    requires |feet| == |works| && forall k :: 0 <= k < |works| ==> works[k].sys < |decls|
  {
    forall k, c :: 0 <= k < |feet| && c != SlotTable ==>
      && (c in feet[k].inputs ==> Within(decls[works[k].sys], works[k].rows, sig, c, false))
      && (c in feet[k].outputs ==> Within(decls[works[k].sys], works[k].rows, sig, c, true))
  }

  /** No item uses the slot table beside one that extends it. */
  ghost predicate TableApart(feet: seq<Foot>) {
    forall i: nat, j: nat :: !Meet(feet, i, j, SlotTable)
  }

  /** In a scheduled stage only the slot table is left to worry about: all programs that keep to the
      declarations are deterministic if and only if reservers have the table to themselves. */
  lemma StageApartExactly(reg: Registry, cs: seq<Pair>, stages: seq<seq<nat>>, s: nat, decls: seq<SystemDecl>,
                          works: seq<Work>, feet: seq<Foot>, sig: nat -> set<nat>)
    requires IsSchedule(reg, cs, stages) && s < |stages| && StageWork(reg, decls, stages[s], works)
    requires |feet| == |works| && (forall k :: 0 <= k < |works| ==> works[k].sys < |decls|)
             && Declared(feet, decls, works, sig)
    ensures (forall items: seq<Item<int, int>>, st: State<int, int> :: On(items, feet) && |items| == |st.locals| ==>
             Deterministic(items, st)) <==>
            TableApart(feet)
  {
    ApartExactly(feet);
    if TableApart(feet) {
      forall i: nat, j: nat, c ensures !Meet(feet, i, j, c) {
        if Meet(feet, i, j, c) && c != SlotTable {
          CellNotShared(reg, cs, stages, s, decls, works, sig, i, j, c, false);
          CellNotShared(reg, cs, stages, s, decls, works, sig, i, j, c, true);
        }
      }
    }
  }
}
