/** The World's entity store on values: slot table, free list, archetypes and chunked rows, with
    the operations a command buffer performs, and their meaning as a map from entities to
    component maps. */
module WorldStore {
  import opened Chunks
  import opened Sorting

  /** A component value; a tag component carries a fixed one. */
  type Value = int

  const DEFERRED_GENERATION_BIT: nat := 0x8000_0000

  datatype EntityId = EntityId(index: nat, gen: nat)

  const INVALID_ENTITY := EntityId(0, 0)

  predicate Deferred(e: EntityId) {
    e.gen >= DEFERRED_GENERATION_BIT
  }

  datatype Place = Reserved | Placed(arch: nat, at: RowLocation)

  datatype Slot = Slot(place: Place, gen: nat, nextFree: nat, alive: bool, immutable: bool)

  datatype Row = Row(eid: EntityId, vals: seq<Value>)

  datatype Archetype = Archetype(sig: seq<nat>, cap: nat, chunks: seq<seq<Row>>)

  /** capacityOf gives the rows per chunk of a signature; it stands for the byte layout. */
  datatype World = World(slots: seq<Slot>, firstFree: nat, hasFree: bool,
                         archs: seq<Archetype>, bySig: map<seq<nat>, nat>, capacityOf: seq<nat> -> nat)

  // ----- observing -----

  predicate HasRow(w: World, p: Place) {
    p.Placed? && p.arch < |w.archs| && Has(w.archs[p.arch].chunks, p.at)
  }

  function RowAt(w: World, p: Place): Row
    requires HasRow(w, p)
  {
    At(w.archs[p.arch].chunks, p.at)
  }

  /** The slot is held by this very generation. */
  predicate Holds(w: World, e: EntityId) {
    !Deferred(e) && e.index < |w.slots| && w.slots[e.index].alive && w.slots[e.index].gen == e.gen
  }

  predicate Live(w: World, e: EntityId) {
    Holds(w, e) && w.slots[e.index].place.Placed?
  }

  /** Reserved but not yet finalised. */
  predicate Unfinalised(w: World, e: EntityId) {
    Holds(w, e) && w.slots[e.index].place.Reserved?
  }

  /** The column of a component, or the number of columns if absent. */
  function ColumnIndex(sig: seq<nat>, id: nat): (c: nat)
    ensures c <= |sig|
    ensures c < |sig| ==> sig[c] == id
    ensures c == |sig| <==> id !in sig
  {
    if sig == [] then 0 else if sig[0] == id then 0 else 1 + ColumnIndex(sig[1..], id)
  }

  datatype Entity = Entity(comps: map<nat, Value>, immutable: bool)

  function Components(sig: seq<nat>, vals: seq<Value>): map<nat, Value> {
    map id: nat | id in sig && ColumnIndex(sig, id) < |vals| :: vals[ColumnIndex(sig, id)]
  }

  function EntityOf(w: World, e: EntityId): Entity
    requires Live(w, e)
  {
    var slot := w.slots[e.index];
    if HasRow(w, slot.place) then
      Entity(Components(w.archs[slot.place.arch].sig, RowAt(w, slot.place).vals), slot.immutable)
    else Entity(map[], slot.immutable)
  }

  function IdAt(w: World, i: nat): EntityId
    requires i < |w.slots|
  {
    EntityId(i, w.slots[i].gen)
  }

  ghost function LiveIds(w: World): (s: set<EntityId>)
    ensures forall e :: e in s <==> Live(w, e)
  {
    var s := set i: nat | i < |w.slots| && Live(w, IdAt(w, i)) :: IdAt(w, i);
    assert forall e :: Live(w, e) ==> e == IdAt(w, e.index);
    s
  }

  /** The meaning of a world: its live entities with their components. */
  ghost function Meaning(w: World): map<EntityId, Entity> {
    map e | e in LiveIds(w) :: EntityOf(w, e)
  }

  // ----- slot allocation -----

  function NextGeneration(g: nat): nat {
    if g + 1 >= DEFERRED_GENERATION_BIT then 1 else g + 1
  }

  function ReservedId(w: World): EntityId {
    if w.hasFree && w.firstFree < |w.slots| then EntityId(w.firstFree, NextGeneration(w.slots[w.firstFree].gen))
    else EntityId(|w.slots|, 1)
  }

  /** Pops the free list, or grows the slot table; the slot is held but not finalised. */
  function ReserveSlot(w: World): World {
    if w.hasFree && w.firstFree < |w.slots| then
      var i, old_ := w.firstFree, w.slots[w.firstFree];
      var slot := Slot(Reserved, NextGeneration(old_.gen), old_.nextFree, true, false);
      w.(slots := w.slots[i := slot], firstFree := old_.nextFree, hasFree := old_.nextFree != i)
    else
      w.(slots := w.slots + [Slot(Reserved, 1, 0, true, false)])
  }

  /** Pushes a slot onto the free list; the tail of the list points at itself. */
  function FreeSlot(w: World, i: nat): World {
    if i < |w.slots| then
      var next := if w.hasFree then w.firstFree else i;
      w.(slots := w.slots[i := w.slots[i].(alive := false, nextFree := next)], firstFree := i, hasFree := true)
    else w
  }

  // ----- archetypes and rows -----

  function ArchIndex(w: World, sig: seq<nat>): nat {
    if sig in w.bySig then w.bySig[sig] else |w.archs|
  }

  function FindOrCreate(w: World, sig: seq<nat>): World {
    if sig in w.bySig then w
    else w.(archs := w.archs + [Archetype(sig, w.capacityOf(sig), [])], bySig := w.bySig[sig := |w.archs|])
  }

  /** Where the archetype's next row goes.  (Out-of-range arguments, which the callers exclude,
      leave the world unchanged throughout, so that these functions are total.) */
  function NewPlace(w: World, a: nat): Place {
    if a < |w.archs| then Placed(a, NextLocation(w.archs[a].chunks, w.archs[a].cap)) else Reserved
  }

  function PushRow(w: World, a: nat, row: Row): World {
    if a < |w.archs| then
      var arch := w.archs[a];
      w.(archs := w.archs[a := arch.(chunks := Push(arch.chunks, arch.cap, row))])
    else w
  }

  /** The archetype's global last row. */
  function LastPlace(w: World, a: nat): Place {
    if a < |w.archs| then
      var chunks := w.archs[a].chunks;
      if chunks != [] && chunks[|chunks| - 1] != [] then Placed(a, LastLocation(chunks)) else Reserved
    else Reserved
  }

  /** Fills the hole at p with the archetype's last row and redirects that row's entity. */
  function Compact(w: World, p: Place): World {
    if !HasRow(w, p) || !HasRow(w, LastPlace(w, p.arch)) then w
    else
      var arch := w.archs[p.arch];
      var last := LastPlace(w, p.arch);
      var moved := RowAt(w, last).eid.index;
      w.(slots := if p != last then Reseat(w.slots, moved, p) else w.slots,
         archs := w.archs[p.arch := arch.(chunks := SwapPop(arch.chunks, p.at))])
  }

  function Reseat(slots: seq<Slot>, i: nat, p: Place): seq<Slot> {
    if i < |slots| then slots[i := slots[i].(place := p)] else slots
  }

  function SetPlace(w: World, i: nat, p: Place): World {
    w.(slots := Reseat(w.slots, i, p))
  }

  // ----- the store invariant -----

  ghost predicate ArchOk(w: World, x: Archetype) {
    && x.sig != [] && Ascending(x.sig) && x.cap == w.capacityOf(x.sig) && Packed(x.chunks, x.cap)
    && (forall l :: Has(x.chunks, l) ==> |At(x.chunks, l).vals| == |x.sig|)
  }

  /** Archetypes are well formed and found under their own strictly sorted signature only. */
  ghost predicate ArchsOk(w: World) {
    && (forall a :: 0 <= a < |w.archs| ==> ArchOk(w, w.archs[a]))
    && (forall a :: 0 <= a < |w.archs| ==> w.archs[a].sig in w.bySig && w.bySig[w.archs[a].sig] == a)
    && (forall s :: s in w.bySig ==> w.bySig[s] < |w.archs| && w.archs[w.bySig[s]].sig == s)
  }

  ghost predicate CapacitiesPositive(w: World) {
    forall s :: w.capacityOf(s) >= 1
  }

  /** Slot i points at the row that names it. */
  ghost predicate Seated(w: World, i: nat) {
    && i < |w.slots| && HasRow(w, w.slots[i].place)
    && RowAt(w, w.slots[i].place).eid == IdAt(w, i)
  }

  /** The row at p belongs to a live slot that points back at p. */
  ghost predicate Owned(w: World, p: Place)
    requires HasRow(w, p)
  {
    var i := RowAt(w, p).eid.index;
    i < |w.slots| && w.slots[i].alive && w.slots[i].place == p
  }

  /** The slot table is the exact inverse of the entity columns. */
  ghost predicate Inverse(w: World) {
    && (forall i: nat :: i < |w.slots| && w.slots[i].alive && w.slots[i].place.Placed? ==> Seated(w, i))
    && (forall p :: HasRow(w, p) ==> Owned(w, p))
  }

  ghost predicate GenerationsOk(w: World) {
    forall i: nat :: i < |w.slots| ==> 1 <= w.slots[i].gen < DEFERRED_GENERATION_BIT
  }

  /** The free list, in pop order: exactly the dead slots, ending in a self-pointing one. */
  ghost predicate FreeChain(w: World, fl: seq<nat>) {
    && (w.hasFree <==> fl != [])
    && (fl != [] ==> fl[0] == w.firstFree)
    && (forall j, k :: 0 <= j < k < |fl| ==> fl[j] != fl[k])
    && (forall i: nat :: i in fl <==> i < |w.slots| && !w.slots[i].alive)
    && (forall k :: 0 <= k < |fl| ==> Chained(w, fl, k))
  }

  ghost predicate Chained(w: World, fl: seq<nat>, k: nat)
    requires k < |fl|
  {
    fl[k] < |w.slots| && w.slots[fl[k]].nextFree == if k + 1 < |fl| then fl[k + 1] else fl[k]
  }

  ghost predicate Inv(w: World) {
    ArchsOk(w) && CapacitiesPositive(w) && Inverse(w) && GenerationsOk(w) && exists fl :: FreeChain(w, fl)
  }

  // ----- row geometry of the primitives -----

  ghost predicate SameRows(w: World, v: World) {
    && (forall q :: HasRow(v, q) <==> HasRow(w, q))
    && (forall q :: HasRow(w, q) ==> RowAt(v, q) == RowAt(w, q))
  }

  ghost predicate RowsPushed(w: World, v: World, p: Place, row: Row) {
    && !HasRow(w, p)
    && (forall q :: HasRow(v, q) <==> HasRow(w, q) || q == p)
    && RowAt(v, p) == row
    && (forall q :: HasRow(w, q) ==> RowAt(v, q) == RowAt(w, q))
  }

  ghost predicate RowsPopped(w: World, v: World, p: Place, last: Place) {
    && HasRow(w, p) && HasRow(w, last) && last.arch == p.arch
    && (forall q :: HasRow(v, q) <==> HasRow(w, q) && q != last)
    && (forall q :: HasRow(v, q) ==> RowAt(v, q) == if q == p then RowAt(w, last) else RowAt(w, q))
  }

  ghost predicate SameSigs(w: World, v: World) {
    |w.archs| <= |v.archs| && forall b :: 0 <= b < |w.archs| ==> v.archs[b].sig == w.archs[b].sig
  }

  lemma FindOrCreateOk(w: World, sig: seq<nat>)
    requires ArchsOk(w) && CapacitiesPositive(w) && Ascending(sig) && sig != []
    ensures var v, a := FindOrCreate(w, sig), ArchIndex(w, sig);
            && ArchsOk(v) && a < |v.archs| && v.archs[a].sig == sig
            && |w.archs| <= |v.archs| && v.archs[..|w.archs|] == w.archs
  {
    if sig !in w.bySig {
      var v := FindOrCreate(w, sig);
      var created := Archetype(sig, w.capacityOf(sig), []);
      assert ArchOk(v, created);
      forall a | 0 <= a < |v.archs| ensures ArchOk(v, v.archs[a]) {
        assert a < |w.archs| ==> ArchOk(w, w.archs[a]);
      }
    }
  }

  /** The archetypes of w come first in v, unchanged. */
  ghost predicate Extends(w: World, v: World) {
    |w.archs| <= |v.archs| && forall b :: 0 <= b < |w.archs| ==> v.archs[b] == w.archs[b]
  }

  lemma SameRowsExtended(w: World, v: World)
    requires Extends(w, v) && forall b :: |w.archs| <= b < |v.archs| ==> v.archs[b].chunks == []
    ensures SameSigs(w, v) && SameRows(w, v)
  {
  }

  lemma FindOrCreateRows(w: World, sig: seq<nat>)
    requires ArchsOk(w) && CapacitiesPositive(w) && Ascending(sig) && sig != []
    ensures ArchsOk(FindOrCreate(w, sig)) && Extends(w, FindOrCreate(w, sig))
    ensures ArchIndex(w, sig) < |FindOrCreate(w, sig).archs| && FindOrCreate(w, sig).archs[ArchIndex(w, sig)].sig == sig
    ensures SameSigs(w, FindOrCreate(w, sig)) && SameRows(w, FindOrCreate(w, sig))
  {
    FindOrCreateOk(w, sig);
    SameRowsExtended(w, FindOrCreate(w, sig));
  }

  /** Replacing one archetype's chunks by well-formed ones keeps all archetypes well formed. */
  lemma ReplaceChunksOk(w: World, v: World, a: nat, chunks: seq<seq<Row>>)
    requires ArchsOk(w) && a < |w.archs| && v.bySig == w.bySig && v.capacityOf == w.capacityOf
    requires v.archs == w.archs[a := w.archs[a].(chunks := chunks)]
    requires Packed(chunks, w.archs[a].cap)
    requires forall l :: Has(chunks, l) ==> |At(chunks, l).vals| == |w.archs[a].sig|
    ensures ArchsOk(v) && |v.archs| == |w.archs| && SameSigs(w, v)
  {
    forall b | 0 <= b < |v.archs| ensures ArchOk(v, v.archs[b]) {
      assert ArchOk(w, w.archs[b]);
    }
  }

  lemma PushRowRows(w: World, a: nat, row: Row)
    requires ArchsOk(w) && a < |w.archs| && |row.vals| == |w.archs[a].sig|
    ensures var v := PushRow(w, a, row);
            && ArchsOk(v) && |v.archs| == |w.archs| && SameSigs(w, v)
            && (forall b :: 0 <= b < |w.archs| && b != a ==> v.archs[b] == w.archs[b])
            && RowsPushed(w, v, NewPlace(w, a), row)
  {
    var arch := w.archs[a];
    PushRows(arch.chunks, arch.cap, row);
    ReplaceChunksOk(w, PushRow(w, a, row), a, Push(arch.chunks, arch.cap, row));
  }

  lemma CompactRows(w: World, p: Place)
    requires ArchsOk(w) && HasRow(w, p)
    ensures var v := Compact(w, p);
            && ArchsOk(v) && |v.archs| == |w.archs| && SameSigs(w, v)
            && RowsPopped(w, v, p, LastPlace(w, p.arch))
  {
    var arch := w.archs[p.arch];
    SwapPopRows(arch.chunks, arch.cap, p.at);
    ReplaceChunksOk(w, Compact(w, p), p.arch, SwapPop(arch.chunks, p.at));
  }
}
