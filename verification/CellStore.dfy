/** The cells that the systems of a stage share, read from a World and written back to it. */
module CellStore {
  import opened Chunks
  import opened CommandOps
  import opened EntityOps
  import opened Sorting
  import opened StageExecution
  import opened StageReservations
  import opened WorldStore

  /** A World with its singletons. */
  datatype Game = Game(world: World, singles: map<nat, int>)

  // ----- reading -----

  function CompsAt(w: World, i: nat): map<nat, int> {
    if i < |w.slots| && Live(w, IdAt(w, i)) then EntityOf(w, IdAt(w, i)).comps else map[]
  }

  /** The cells of a game: the components of live entities, the singletons, and the slot table. */
  predicate Present(g: Game, x: Cell) {
    match x
    case Cell(i, c) => i < |g.world.slots| && c in CompsAt(g.world, i)
    case Singleton(c) => c in g.singles
    case SlotTable => true
  }

  function ContentAt(g: Game, x: Cell): Content
    requires Present(g, x)
  {
    match x
    case Cell(i, c) => Content.Value(CompsAt(g.world, i)[c])
    case Singleton(c) => Content.Value(g.singles[c])
    case SlotTable => Slots(SlotsOf(g.world))
  }

  ghost function RowDomain(w: World): (d: set<Cell>)
    ensures forall x :: x in d <==> x.Cell? && x.row < |w.slots| && x.comp in CompsAt(w, x.row)
  {
    set i: nat, c: nat | i < |w.slots| && c in CompsAt(w, i) :: Cell.Cell(i, c)
  }

  ghost function SingleDomain(singles: map<nat, int>): (d: set<Cell>)
    ensures forall x :: x in d <==> x.Singleton? && x.comp in singles
  {
    set c: nat | c in singles :: Singleton(c)
  }

  ghost function Domain(g: Game): (d: set<Cell>)
    ensures forall x :: x in d <==> Present(g, x)
  {
    RowDomain(g.world) + SingleDomain(g.singles) + {SlotTable}
  }

  ghost function CellsOf(g: Game): (cells: map<Cell, Content>)
    ensures forall x :: x in cells <==> Present(g, x)
    ensures forall x :: x in cells ==> cells[x] == ContentAt(g, x)
  {
    map x | x in Domain(g) :: ContentAt(g, x)
  }

  // ----- writing back -----

  /** The value in the cell, or the old one. */
  function ValueIn(store: map<Cell, Content>, cell: Cell, old_: int): int {
    if cell in store && store[cell].Value? then store[cell].value else old_
  }

  function RowWith(store: map<Cell, Content>, sig: seq<nat>, row: Row): Row {
    Row(row.eid, seq(|row.vals|, k requires 0 <= k < |row.vals| =>
      if k < |sig| then ValueIn(store, Cell.Cell(row.eid.index, sig[k]), row.vals[k]) else row.vals[k]))
  }

  function ChunkWith(store: map<Cell, Content>, sig: seq<nat>, rows: seq<Row>): seq<Row> {
    seq(|rows|, r requires 0 <= r < |rows| => RowWith(store, sig, rows[r]))
  }

  function ArchWith(store: map<Cell, Content>, a: Archetype): Archetype {
    a.(chunks := seq(|a.chunks|, c requires 0 <= c < |a.chunks| => ChunkWith(store, a.sig, a.chunks[c])))
  }

  function ArchsWith(store: map<Cell, Content>, archs: seq<Archetype>): (r: seq<Archetype>)
    ensures |r| == |archs| && forall a :: 0 <= a < |r| ==> r[a] == ArchWith(store, archs[a])
  {
    seq(|archs|, a requires 0 <= a < |archs| => ArchWith(store, archs[a]))
  }

  function AllocatorIn(store: map<Cell, Content>, w: World): World {
    if SlotTable in store && store[SlotTable].Slots? then store[SlotTable].world else w
  }

  /** The world after a stage's systems ran and before the barrier: new values, and the slots that
      were reserved meanwhile. */
  function WriteBack(w: World, store: map<Cell, Content>): World {
    var v := AllocatorIn(store, w);
    w.(slots := v.slots, firstFree := v.firstFree, hasFree := v.hasFree, archs := ArchsWith(store, w.archs))
  }

  function SinglesWith(singles: map<nat, int>, store: map<Cell, Content>): map<nat, int> {
    map c | c in singles :: ValueIn(store, Singleton(c), singles[c])
  }

  // ----- what writing back keeps, and what it means -----

  lemma {:induction false} ReserveSlotsFrame(w: World, n: nat)
    ensures ReserveSlots(w, n) == w.(slots := ReserveSlots(w, n).slots, firstFree := ReserveSlots(w, n).firstFree,
                                     hasFree := ReserveSlots(w, n).hasFree)
  {
    if n > 0 {
      ReserveSlotsFrame(w, n - 1);
    }
  }

  /** The same rows, with other values in them. */
  ghost predicate Revalued(u: World, v: World) {
    && v == u.(archs := v.archs) && |v.archs| == |u.archs|
    && (forall a :: 0 <= a < |u.archs| ==> SameShape(u.archs[a], v.archs[a]))
    && (forall p :: HasRow(v, p) <==> HasRow(u, p))
    && (forall p :: HasRow(u, p) ==> RowAt(v, p).eid == RowAt(u, p).eid && |RowAt(v, p).vals| == |RowAt(u, p).vals|)
  }

  predicate SameShape(x: Archetype, y: Archetype) {
    y.sig == x.sig && y.cap == x.cap && |y.chunks| == |x.chunks|
      && forall c :: 0 <= c < |x.chunks| ==> |y.chunks[c]| == |x.chunks[c]|
  }

  lemma RevaluedArch(u: World, v: World, a: nat)
    requires Revalued(u, v) && a < |u.archs| && ArchOk(u, u.archs[a])
    ensures ArchOk(v, v.archs[a])
  {
    var x, y := u.archs[a], v.archs[a];
    assert SameShape(x, y);
    forall l | Has(y.chunks, l) ensures |At(y.chunks, l).vals| == |y.sig| {
      var p := Placed(a, l);
      assert HasRow(v, p) && HasRow(u, p) && Has(x.chunks, l);
      assert |RowAt(v, p).vals| == |RowAt(u, p).vals|;
    }
  }

  lemma RevaluedArchs(u: World, v: World)
    requires Revalued(u, v) && ArchsOk(u)
    ensures ArchsOk(v)
  {
    forall a | 0 <= a < |v.archs| ensures ArchOk(v, v.archs[a]) {
      RevaluedArch(u, v, a);
    }
    forall a | 0 <= a < |v.archs| ensures v.archs[a].sig in v.bySig && v.bySig[v.archs[a].sig] == a {
      assert SameShape(u.archs[a], v.archs[a]);
    }
    forall s | s in v.bySig ensures v.bySig[s] < |v.archs| && v.archs[v.bySig[s]].sig == s {
      assert SameShape(u.archs[u.bySig[s]], v.archs[v.bySig[s]]);
    }
  }

  lemma RevaluedInv(u: World, v: World)
    requires Revalued(u, v) && Inv(u)
    ensures Inv(v)
  {
    RevaluedArchs(u, v);
    forall i: nat | i < |v.slots| && v.slots[i].alive && v.slots[i].place.Placed? ensures Seated(v, i) {
      assert Seated(u, i);
    }
    forall p | HasRow(v, p) ensures Owned(v, p) {
      assert HasRow(u, p) && Owned(u, p);
    }
    FrameInv(u, v);
  }

  lemma WrittenRow(u: World, store: map<Cell, Content>, v: World, p: Place)
    requires v == u.(archs := ArchsWith(store, u.archs))
    ensures HasRow(v, p) <==> HasRow(u, p)
    ensures HasRow(u, p) ==> RowAt(v, p) == RowWith(store, u.archs[p.arch].sig, RowAt(u, p))
  {
    if p.Placed? && p.arch < |u.archs| {
      assert v.archs[p.arch] == ArchWith(store, u.archs[p.arch]);
    }
  }

  /** Writing back keeps the store invariant. */
  lemma WriteBackInv(w: World, store: map<Cell, Content>, n: nat)
    requires Inv(w) && SlotTable in store && store[SlotTable] == Slots(SlotsOf(ReserveSlots(w, n)))
    ensures Inv(WriteBack(w, store))
    ensures WriteBack(w, store) == ReserveSlots(w, n).(archs := ArchsWith(store, w.archs))
            && ReserveSlots(w, n).archs == w.archs
  {
    var u, v := ReserveSlots(w, n), WriteBack(w, store);
    ReserveSlotsFrame(w, n);
    IdsHeld(w, n);
    assert v == u.(archs := ArchsWith(store, u.archs));
    forall p
      ensures HasRow(v, p) <==> HasRow(u, p)
      ensures HasRow(u, p) ==> RowAt(v, p).eid == RowAt(u, p).eid && |RowAt(v, p).vals| == |RowAt(u, p).vals|
    {
      WrittenRow(u, store, v, p);
    }
    assert Revalued(u, v);
    RevaluedInv(u, v);
  }

  /** An entity's components after writing back: what the store has in its cells. */
  function EntityWith(store: map<Cell, Content>, e: EntityId, x: Entity): Entity {
    x.(comps := map c | c in x.comps :: ValueIn(store, Cell.Cell(e.index, c), x.comps[c]))
  }

  lemma {:induction false} ReserveSlotsMeaning(w: World, n: nat)
    requires Inv(w)
    ensures Inv(ReserveSlots(w, n)) && Meaning(ReserveSlots(w, n)) == Meaning(w)
  {
    if n > 0 {
      ReserveSlotsMeaning(w, n - 1);
      ReserveInv(ReserveSlots(w, n - 1));
    }
  }

  lemma RowWithComponents(store: map<Cell, Content>, sig: seq<nat>, row: Row)
    requires |row.vals| == |sig|
    ensures Components(sig, RowWith(store, sig, row).vals) ==
            map c | c in Components(sig, row.vals) :: ValueIn(store, Cell.Cell(row.eid.index, c),
                                                              Components(sig, row.vals)[c])
  {
    var before, after := Components(sig, row.vals), Components(sig, RowWith(store, sig, row).vals);
    forall c | c in before ensures after[c] == ValueIn(store, Cell.Cell(row.eid.index, c), before[c]) {
      assert sig[ColumnIndex(sig, c)] == c;
    }
  }

  lemma WrittenEntity(u: World, store: map<Cell, Content>, v: World, e: EntityId)
    requires Inv(u) && v == u.(archs := ArchsWith(store, u.archs)) && Live(u, e)
    ensures Live(v, e) && EntityOf(v, e) == EntityWith(store, e, EntityOf(u, e))
  {
    var p := u.slots[e.index].place;
    assert Seated(u, e.index);
    WrittenRow(u, store, v, p);
    assert ArchOk(u, u.archs[p.arch]);
    assert v.archs[p.arch].sig == u.archs[p.arch].sig;
    RowWithComponents(store, u.archs[p.arch].sig, RowAt(u, p));
  }

  /** Writing back gives every live entity the values in its cells and changes nothing else. */
  lemma WriteBackMeaning(w: World, store: map<Cell, Content>, n: nat)
    requires Inv(w) && SlotTable in store && store[SlotTable] == Slots(SlotsOf(ReserveSlots(w, n)))
    ensures forall e :: e in Meaning(WriteBack(w, store)) <==> e in Meaning(w)
    ensures forall e :: e in Meaning(w) ==> Meaning(WriteBack(w, store))[e] == EntityWith(store, e, Meaning(w)[e])
  {
    var u, v := ReserveSlots(w, n), WriteBack(w, store);
    WriteBackInv(w, store, n);
    ReserveSlotsMeaning(w, n);
    forall e ensures e in Meaning(v) <==> e in Meaning(u) {
      assert Live(v, e) <==> Live(u, e);
    }
    forall e | e in Meaning(u) ensures Meaning(v)[e] == EntityWith(store, e, Meaning(u)[e]) {
      WrittenEntity(u, store, v, e);
    }
  }

  // ----- reading what was written -----

  /** What a store leaves in a game. */
  function Settle(g: Game, store: map<Cell, Content>): Game {
    Game(WriteBack(g.world, store), SinglesWith(g.singles, store))
  }

  /** Every cell but the slot table holds a value. */
  ghost predicate HoldsValues(store: map<Cell, Content>) {
    forall x :: x in store && x != SlotTable ==> store[x].Value?
  }

  /** A store that items of a stage can leave: the cells of the game, and n more slots reserved. */
  ghost predicate StoreOf(g: Game, store: map<Cell, Content>, n: nat) {
    && store.Keys == CellsOf(g).Keys && HoldsValues(store)
    && SlotTable in store && store[SlotTable] == Slots(SlotsOf(ReserveSlots(g.world, n)))
  }

  lemma LiveInBoth(w: World, u: World, i: nat)
    requires Meaning(u) == Meaning(w) && i < |w.slots| && Live(w, IdAt(w, i))
    ensures i < |u.slots| && IdAt(u, i) == IdAt(w, i) && Live(u, IdAt(u, i))
            && EntityOf(u, IdAt(u, i)) == EntityOf(w, IdAt(w, i))
  {
    assert IdAt(w, i) in Meaning(w) && Meaning(w)[IdAt(w, i)] == EntityOf(w, IdAt(w, i));
    assert IdAt(w, i) in Meaning(u);
  }

  lemma ReserveComps(w: World, n: nat, i: nat)
    requires Inv(w)
    ensures CompsAt(ReserveSlots(w, n), i) == CompsAt(w, i)
  {
    var u := ReserveSlots(w, n);
    ReserveSlotsMeaning(w, n);
    if i < |w.slots| && Live(w, IdAt(w, i)) {
      LiveInBoth(w, u, i);
    } else if i < |u.slots| && Live(u, IdAt(u, i)) {
      LiveInBoth(u, w, i);
    }
  }

  function CompsWith(store: map<Cell, Content>, i: nat, comps: map<nat, int>): map<nat, int> {
    map c | c in comps :: ValueIn(store, Cell.Cell(i, c), comps[c])
  }

  lemma WrittenComps(w: World, store: map<Cell, Content>, n: nat, i: nat)
    requires Inv(w) && SlotTable in store && store[SlotTable] == Slots(SlotsOf(ReserveSlots(w, n)))
    ensures CompsAt(WriteBack(w, store), i) == CompsWith(store, i, CompsAt(w, i))
  {
    var u, v := ReserveSlots(w, n), WriteBack(w, store);
    WriteBackInv(w, store, n);
    ReserveSlotsMeaning(w, n);
    ReserveComps(w, n, i);
    if i < |u.slots| && Live(u, IdAt(u, i)) {
      WrittenEntity(u, store, v, IdAt(u, i));
    } else {
      assert CompsWith(store, i, map[]) == map[];
    }
  }

  lemma CompsWithAt(store: map<Cell, Content>, i: nat, comps: map<nat, int>, c: nat)
    ensures c in CompsWith(store, i, comps) <==> c in comps
    ensures c in comps ==> CompsWith(store, i, comps)[c] == ValueIn(store, Cell.Cell(i, c), comps[c])
  {
  }

  lemma PresentRow(g: Game, i: nat, c: nat)
    ensures Present(g, Cell.Cell(i, c)) <==> c in CompsAt(g.world, i)
    ensures c in CompsAt(g.world, i) ==> ContentAt(g, Cell.Cell(i, c)) == Content.Value(CompsAt(g.world, i)[c])
  {
    if c in CompsAt(g.world, i) {
      CompsBounded(g.world, i);
    }
  }

  lemma StoredRow(g: Game, store: map<Cell, Content>, n: nat, i: nat, c: nat)
    requires StoreOf(g, store, n)
    ensures Cell.Cell(i, c) in store <==> c in CompsAt(g.world, i)
    ensures Cell.Cell(i, c) in store ==> store[Cell.Cell(i, c)].Value?
  {
    PresentRow(g, i, c);
    assert Cell.Cell(i, c) in store <==> Cell.Cell(i, c) in CellsOf(g);
  }

  lemma RowReadBack(g: Game, store: map<Cell, Content>, n: nat, i: nat, c: nat)
    requires Inv(g.world) && StoreOf(g, store, n)
    ensures Present(Settle(g, store), Cell.Cell(i, c)) <==> Cell.Cell(i, c) in store
    ensures Cell.Cell(i, c) in store ==> ContentAt(Settle(g, store), Cell.Cell(i, c)) == store[Cell.Cell(i, c)]
  {
    StoredRow(g, store, n, i, c);
    WrittenComps(g.world, store, n, i);
    CompsWithAt(store, i, CompsAt(g.world, i), c);
    PresentRow(Settle(g, store), i, c);
  }

  lemma OtherReadBack(g: Game, store: map<Cell, Content>, n: nat, x: Cell)
    requires Inv(g.world) && StoreOf(g, store, n) && !x.Cell?
    ensures Present(Settle(g, store), x) <==> x in store
    ensures x in store ==> ContentAt(Settle(g, store), x) == store[x]
  {
    assert x in store <==> Present(g, x);
    WriteBackInv(g.world, store, n);
  }

  lemma CellsEqual(g: Game, store: map<Cell, Content>)
    requires forall x :: Present(g, x) <==> x in store
    requires forall x :: x in store ==> ContentAt(g, x) == store[x]
    ensures CellsOf(g) == store
  {
    forall x | x in store ensures CellsOf(g)[x] == store[x] {
      assert Present(g, x);
    }
  }

  /** The cells of the game that a store was settled in are that store. */
  lemma ReadBack(g: Game, store: map<Cell, Content>, n: nat)
    requires Inv(g.world) && StoreOf(g, store, n)
    ensures CellsOf(Settle(g, store)) == store
  {
    var h := Settle(g, store);
    forall x
      ensures Present(h, x) <==> x in store
      ensures x in store ==> ContentAt(h, x) == store[x]
    {
      if x.Cell? {
        RowReadBack(g, store, n, x.row, x.comp);
      } else {
        OtherReadBack(g, store, n, x);
      }
    }
    CellsEqual(h, store);
  }

  lemma CompsBounded(w: World, i: nat)
    requires CompsAt(w, i) != map[]
    ensures i < |w.slots|
  {
  }

  lemma ValueTwice(s: map<Cell, Content>, t: map<Cell, Content>, x: Cell, v: int)
    requires s.Keys == t.Keys && HoldsValues(t) && x != SlotTable
    ensures ValueIn(t, x, ValueIn(s, x, v)) == ValueIn(t, x, v)
  {
  }

  lemma RowTwice(s: map<Cell, Content>, t: map<Cell, Content>, sig: seq<nat>, row: Row)
    requires s.Keys == t.Keys && HoldsValues(t)
    ensures RowWith(t, sig, RowWith(s, sig, row)) == RowWith(t, sig, row)
  {
    forall k | 0 <= k < |row.vals|
      ensures RowWith(t, sig, RowWith(s, sig, row)).vals[k] == RowWith(t, sig, row).vals[k]
    {
      if k < |sig| {
        ValueTwice(s, t, Cell.Cell(row.eid.index, sig[k]), row.vals[k]);
      }
    }
  }

  lemma ArchTwice(s: map<Cell, Content>, t: map<Cell, Content>, a: Archetype)
    requires s.Keys == t.Keys && HoldsValues(t)
    ensures ArchWith(t, ArchWith(s, a)) == ArchWith(t, a)
  {
    forall c | 0 <= c < |a.chunks| ensures ArchWith(t, ArchWith(s, a)).chunks[c] == ArchWith(t, a).chunks[c] {
      var rows := a.chunks[c];
      forall r | 0 <= r < |rows|
        ensures ChunkWith(t, a.sig, ChunkWith(s, a.sig, rows))[r] == ChunkWith(t, a.sig, rows)[r]
      {
        RowTwice(s, t, a.sig, rows[r]);
      }
    }
  }

  /** Settling a second store over a first one leaves the second. */
  lemma SettleTwice(g: Game, s: map<Cell, Content>, t: map<Cell, Content>)
    requires s.Keys == t.Keys && HoldsValues(t) && SlotTable in t && t[SlotTable].Slots?
    ensures Settle(Settle(g, s), t) == Settle(g, t)
  {
    forall a | 0 <= a < |g.world.archs|
      ensures ArchsWith(t, ArchsWith(s, g.world.archs))[a] == ArchsWith(t, g.world.archs)[a]
    {
      ArchTwice(s, t, g.world.archs[a]);
    }
    assert ArchsWith(t, ArchsWith(s, g.world.archs)) == ArchsWith(t, g.world.archs);
    forall c | c in g.singles
      ensures ValueIn(t, Singleton(c), ValueIn(s, Singleton(c), g.singles[c])) ==
              ValueIn(t, Singleton(c), g.singles[c])
    {
      ValueTwice(s, t, Singleton(c), g.singles[c]);
    }
    assert SinglesWith(SinglesWith(g.singles, s), t) == SinglesWith(g.singles, t);
  }

  lemma OwnRow(g: Game, p: Place)
    requires Inv(g.world) && HasRow(g.world, p)
    ensures RowWith(CellsOf(g), g.world.archs[p.arch].sig, RowAt(g.world, p)) == RowAt(g.world, p)
  {
    var w := g.world;
    var sig, row := w.archs[p.arch].sig, RowAt(w, p);
    assert Owned(w, p) && Seated(w, row.eid.index) && ArchOk(w, w.archs[p.arch]);
    assert IdAt(w, row.eid.index) == row.eid && CompsAt(w, row.eid.index) == Components(sig, row.vals);
    forall k | 0 <= k < |sig|
      ensures ValueIn(CellsOf(g), Cell.Cell(row.eid.index, sig[k]), row.vals[k]) == row.vals[k]
    {
      OwnValue(g, row.eid.index, sig, row.vals, k);
    }
  }

  lemma OwnValue(g: Game, i: nat, sig: seq<nat>, vals: seq<Value>, k: nat)
    requires i < |g.world.slots| && CompsAt(g.world, i) == Components(sig, vals) && |vals| == |sig| && k < |sig|
             && Ascending(sig)
    ensures ValueIn(CellsOf(g), Cell.Cell(i, sig[k]), vals[k]) == vals[k]
  {
    ComponentsLookup(sig, vals);
    assert ColumnIndex(sig, sig[k]) == k;
    assert Present(g, Cell.Cell(i, sig[k]));
  }

  /** A game is what its own cells leave in it. */
  lemma SettleOwn(g: Game)
    requires Inv(g.world)
    ensures Settle(g, CellsOf(g)) == g
  {
    var store, archs := CellsOf(g), g.world.archs;
    forall a | 0 <= a < |archs| ensures ArchsWith(store, archs)[a] == archs[a] {
      forall c | 0 <= c < |archs[a].chunks| ensures ArchWith(store, archs[a]).chunks[c] == archs[a].chunks[c] {
        forall r | 0 <= r < |archs[a].chunks[c]|
          ensures ChunkWith(store, archs[a].sig, archs[a].chunks[c])[r] == archs[a].chunks[c][r]
        {
          OwnRow(g, Placed(a, RowLocation(c, r)));
        }
      }
    }
    assert ArchsWith(store, archs) == archs;
    assert Present(g, SlotTable);
    forall c | c in g.singles ensures ValueIn(store, Singleton(c), g.singles[c]) == g.singles[c] {
      assert Present(g, Singleton(c));
    }
    assert SinglesWith(g.singles, store) == g.singles;
  }
}
