/** Entity operations of the World on values, each with its meaning on the entity map. */
module EntityOps {
  import opened Chunks
  import opened Sorting
  import opened WorldStore

  ghost predicate ValidRow(sig: seq<nat>, vals: seq<Value>) {
    Ascending(sig) && sig != [] && |vals| == |sig|
  }

  // ----- the free list -----

  lemma FreeChainFrame(w: World, v: World, fl: seq<nat>)
    requires FreeChain(w, fl)
    requires v.hasFree == w.hasFree && v.firstFree == w.firstFree && |v.slots| == |w.slots|
    requires forall i :: 0 <= i < |w.slots| ==>
             v.slots[i].alive == w.slots[i].alive && v.slots[i].nextFree == w.slots[i].nextFree
    ensures FreeChain(v, fl)
  {
    forall k | 0 <= k < |fl| ensures Chained(v, fl, k) {
      assert Chained(w, fl, k);
    }
  }

  /** A reservation pops the free list or grows the table. */
  lemma ReserveChain(w: World, fl: seq<nat>)
    requires FreeChain(w, fl)
    ensures FreeChain(ReserveSlot(w), if fl == [] then [] else fl[1..])
    ensures ReservedId(w).index == if fl == [] then |w.slots| else fl[0]
  {
    if fl != [] {
      assert fl[0] in fl && Chained(w, fl, 0);
      assert |fl| > 1 ==> fl[0] != fl[1];
      PopChain(w, ReserveSlot(w), fl);
    }
  }

  lemma PopChain(w: World, v: World, fl: seq<nat>)
    requires FreeChain(w, fl) && fl != [] && |v.slots| == |w.slots|
    requires v.hasFree == (|fl| > 1) && (|fl| > 1 ==> v.firstFree == fl[1])
    requires fl[0] < |v.slots| && v.slots[fl[0]].alive
    requires forall i :: 0 <= i < |w.slots| && i != fl[0] ==> v.slots[i] == w.slots[i]
    ensures FreeChain(v, fl[1..])
  {
    TailMembers(fl);
    var rest := fl[1..];
    forall k | 0 <= k < |rest| ensures Chained(v, rest, k) {
      assert Chained(w, fl, k + 1);
      assert rest[k] == fl[k + 1] && fl[k + 1] in fl && fl[0] != fl[k + 1];
    }
  }

  lemma TailMembers(s: seq<nat>)
    requires s != [] && forall j, k :: 0 <= j < k < |s| ==> s[j] != s[k]
    ensures s[0] !in s[1..]
    ensures forall i: nat :: i in s <==> i == s[0] || i in s[1..]
    ensures forall j, k :: 0 <= j < k < |s[1..]| ==> s[1..][j] != s[1..][k]
  {
    assert s == [s[0]] + s[1..];
  }

  lemma FreeChainPush(w: World, i: nat, fl: seq<nat>)
    requires FreeChain(w, fl) && i < |w.slots| && w.slots[i].alive
    ensures FreeChain(FreeSlot(w, i), [i] + fl)
  {
    var v, longer := FreeSlot(w, i), [i] + fl;
    assert i !in fl;
    assert forall j: nat :: j in longer <==> j == i || j in fl;
    forall j, k | 0 <= j < k < |longer| ensures longer[j] != longer[k] {
      assert longer[k] in fl;
    }
    forall k | 0 <= k < |longer| ensures Chained(v, longer, k) {
      if k > 0 {
        assert Chained(w, fl, k - 1);
        assert longer[k] == fl[k - 1] && fl[k - 1] in fl;
      }
    }
  }

  // ----- comparing meanings -----

  lemma SameMeaning(w: World, v: World)
    requires forall x :: Live(v, x) <==> Live(w, x)
    requires forall x :: Live(w, x) ==> EntityOf(v, x) == EntityOf(w, x)
    ensures Meaning(v) == Meaning(w)
  {
    assert LiveIds(v) == LiveIds(w);
  }

  lemma MeaningUpdated(w: World, v: World, e: EntityId)
    requires Live(v, e)
    requires forall x :: x != e ==> (Live(v, x) <==> Live(w, x))
    requires forall x :: x != e && Live(w, x) ==> EntityOf(v, x) == EntityOf(w, x)
    ensures Meaning(v) == Meaning(w)[e := EntityOf(v, e)]
  {
    assert LiveIds(v) == LiveIds(w) + {e};
  }

  lemma MeaningRemoved(w: World, v: World, e: EntityId)
    requires !Live(v, e)
    requires forall x :: x != e ==> (Live(v, x) <==> Live(w, x))
    requires forall x :: x != e && Live(w, x) ==> EntityOf(v, x) == EntityOf(w, x)
    ensures Meaning(v) == Meaning(w) - {e}
  {
    assert LiveIds(v) == LiveIds(w) - {e};
  }

  /** Everything but rows and slots is as before, and the free list is untouched. */
  ghost predicate SameFrame(w: World, v: World) {
    && v.hasFree == w.hasFree && v.firstFree == w.firstFree && v.capacityOf == w.capacityOf
    && SameSigs(w, v) && |v.slots| == |w.slots|
    && (forall i :: 0 <= i < |w.slots| ==> v.slots[i] == w.slots[i].(place := v.slots[i].place))
  }

  lemma FrameInv(w: World, v: World)
    requires Inv(w) && SameFrame(w, v) && ArchsOk(v) && Inverse(v)
    ensures Inv(v)
  {
    var fl :| FreeChain(w, fl);
    FreeChainFrame(w, v, fl);
  }

  // ----- reserving -----

  /** What a reservation changes: one slot that was not live before. */
  lemma ReserveEffect(w: World)
    requires Inv(w)
    ensures var v, i := ReserveSlot(w), ReservedId(w).index;
            && v.archs == w.archs && v.bySig == w.bySig && v.capacityOf == w.capacityOf
            && |w.slots| <= |v.slots| && i < |v.slots|
              && v.slots[i] == Slot(Reserved, ReservedId(w).gen, v.slots[i].nextFree, true, false)
            && (i < |w.slots| ==> !w.slots[i].alive && |v.slots| == |w.slots|)
            && (i >= |w.slots| ==> i == |w.slots| && |v.slots| == |w.slots| + 1)
            && (forall j :: 0 <= j < |w.slots| && j != i ==> v.slots[j] == w.slots[j])
            && 1 <= ReservedId(w).gen < DEFERRED_GENERATION_BIT
            && exists fl :: FreeChain(v, fl)
  {
    var fl :| FreeChain(w, fl);
    ReserveChain(w, fl);
    assert fl != [] ==> fl[0] in fl;
  }

  /** A reservation hands out an id that no slot has had last, in use or stale. */
  lemma ReservedIdIsNew(w: World, i: nat)
    requires GenerationsOk(w) && i < |w.slots|
    ensures ReservedId(w) != IdAt(w, i)
  {
  }

  lemma ReserveInv(w: World)
    requires Inv(w)
    ensures Inv(ReserveSlot(w)) && Unfinalised(ReserveSlot(w), ReservedId(w)) && !Holds(w, ReservedId(w))
    ensures Meaning(ReserveSlot(w)) == Meaning(w)
  {
    var v := ReserveSlot(w);
    ReserveEffect(w);
    forall p | HasRow(v, p) ensures Owned(v, p) {
      assert Owned(w, p);
    }
    forall i: nat | i < |v.slots| && v.slots[i].alive && v.slots[i].place.Placed? ensures Seated(v, i) {
      assert Seated(w, i);
    }
    SameMeaning(w, v);
  }

  // ----- finalising -----

  /** Puts a reserved slot's entity into the archetype of its signature. */
  function Finalise(w: World, e: EntityId, sig: seq<nat>, vals: seq<Value>): World {
    if !Unfinalised(w, e) then w
    else
      var found := FindOrCreate(w, sig);
      var a := ArchIndex(w, sig);
      SetPlace(PushRow(found, a, Row(e, vals)), e.index, NewPlace(found, a))
  }

  lemma FinaliseRows(w: World, e: EntityId, sig: seq<nat>, vals: seq<Value>)
    requires Inv(w) && ValidRow(sig, vals) && Unfinalised(w, e)
    ensures ArchsOk(Finalise(w, e, sig, vals)) && FinalisedAt(w, Finalise(w, e, sig, vals), e, sig, vals)
  {
    FindOrCreateRows(w, sig);
    var a, found := ArchIndex(w, sig), FindOrCreate(w, sig);
    PushRowRows(found, a, Row(e, vals));
    var p := NewPlace(found, a);
    FinishFinalise(w, PushRow(found, a, Row(e, vals)), p, e, sig, vals);
  }

  /** v is w with e seated in a new row of the archetype of sig. */
  ghost predicate FinalisedAt(w: World, v: World, e: EntityId, sig: seq<nat>, vals: seq<Value>)
    requires e.index < |w.slots|
  {
    && SameFrame(w, v) && v.slots[e.index].place.Placed?
    && v.slots == w.slots[e.index := w.slots[e.index].(place := v.slots[e.index].place)]
    && v.slots[e.index].place.arch < |v.archs| && v.archs[v.slots[e.index].place.arch].sig == sig
    && RowsPushed(w, v, v.slots[e.index].place, Row(e, vals))
  }

  lemma FinishFinalise(w: World, u: World, p: Place, e: EntityId, sig: seq<nat>, vals: seq<Value>)
    requires ArchsOk(u) && SameSigs(w, u) && u.(archs := w.archs, bySig := w.bySig) == w && e.index < |w.slots|
    requires p.Placed? && p.arch < |u.archs| && u.archs[p.arch].sig == sig && RowsPushed(w, u, p, Row(e, vals))
    ensures ArchsOk(SetPlace(u, e.index, p)) && FinalisedAt(w, SetPlace(u, e.index, p), e, sig, vals)
  {
    var v := SetPlace(u, e.index, p);
    assert v.archs == u.archs;
    forall a | 0 <= a < |v.archs| ensures ArchOk(v, v.archs[a]) {
      assert ArchOk(u, u.archs[a]);
    }
    assert forall q :: HasRow(v, q) <==> HasRow(u, q);
  }

  lemma FinaliseInv(w: World, e: EntityId, sig: seq<nat>, vals: seq<Value>)
    requires Inv(w) && ValidRow(sig, vals)
    ensures Inv(Finalise(w, e, sig, vals))
  {
    if Unfinalised(w, e) {
      var v := Finalise(w, e, sig, vals);
      FinaliseRows(w, e, sig, vals);
      forall i: nat | i < |v.slots| && v.slots[i].alive && v.slots[i].place.Placed? ensures Seated(v, i) {
        if i != e.index {
          assert Seated(w, i);
        }
      }
      forall q | HasRow(v, q) ensures Owned(v, q) {
        if HasRow(w, q) {
          assert Owned(w, q);
        }
      }
      FrameInv(w, v);
    }
  }

  lemma FinalisedOthers(w: World, v: World, e: EntityId, sig: seq<nat>, vals: seq<Value>, x: EntityId)
    requires Inverse(w) && Unfinalised(w, e) && FinalisedAt(w, v, e, sig, vals) && x != e
    ensures Live(v, x) <==> Live(w, x)
    ensures Live(w, x) ==> EntityOf(v, x) == EntityOf(w, x)
  {
    if Live(w, x) {
      assert Seated(w, x.index);
    }
  }

  lemma FinaliseMeaning(w: World, e: EntityId, sig: seq<nat>, vals: seq<Value>)
    requires Inv(w) && ValidRow(sig, vals)
    ensures Meaning(Finalise(w, e, sig, vals)) ==
            if Unfinalised(w, e) then Meaning(w)[e := Entity(Components(sig, vals), w.slots[e.index].immutable)]
            else Meaning(w)
  {
    if Unfinalised(w, e) {
      var v := Finalise(w, e, sig, vals);
      FinaliseRows(w, e, sig, vals);
      forall x | x != e
        ensures Live(v, x) <==> Live(w, x)
        ensures Live(w, x) ==> EntityOf(v, x) == EntityOf(w, x)
      {
        FinalisedOthers(w, v, e, sig, vals, x);
      }
      MeaningUpdated(w, v, e);
    }
  }

  // ----- migrating -----

  function PlaceOf(w: World, e: EntityId): Place {
    if e.index < |w.slots| then w.slots[e.index].place else Reserved
  }

  function CurrentSig(w: World, e: EntityId): seq<nat> {
    var p := PlaceOf(w, e);
    if HasRow(w, p) then w.archs[p.arch].sig else []
  }

  function CurrentVals(w: World, e: EntityId): seq<Value> {
    var p := PlaceOf(w, e);
    if HasRow(w, p) then RowAt(w, p).vals else []
  }

  lemma CurrentRowValid(w: World, e: EntityId)
    requires Inv(w) && Live(w, e)
    ensures ValidRow(CurrentSig(w, e), CurrentVals(w, e))
  {
    assert Seated(w, e.index);
  }

  /** Moves a live entity's row to the archetype of another signature. */
  function Migrate(w: World, e: EntityId, sig: seq<nat>, vals: seq<Value>): World {
    var from := PlaceOf(w, e);
    var found := FindOrCreate(w, sig);
    var a := ArchIndex(w, sig);
    SetPlace(Compact(PushRow(found, a, Row(e, vals)), from), e.index, NewPlace(found, a))
  }

  /** The place that ends up empty when e leaves its archetype. */
  function VacatedPlace(w: World, e: EntityId): Place {
    var p := PlaceOf(w, e);
    if p.Placed? then LastPlace(w, p.arch) else Reserved
  }

  /** v has the rows of w except that the row at `from` is overwritten by the one at `last`,
      which disappears, and a new row stands at `to`. */
  ghost predicate RowsMoved(w: World, v: World, from: Place, last: Place, to: Place, row: Row) {
    && HasRow(w, from) && HasRow(w, last) && last.arch == from.arch && to.Placed? && from.arch != to.arch
      && !HasRow(w, to)
    && (forall q :: HasRow(v, q) <==> (HasRow(w, q) && q != last) || q == to)
    && RowAt(v, to) == row
    && (forall q :: HasRow(w, q) && q != last ==> RowAt(v, q) == if q == from then RowAt(w, last) else RowAt(w, q))
  }

  ghost predicate SlotsMoved(w: World, v: World, i: nat, from: Place, last: Place, to: Place) {
    forall j :: 0 <= j < |w.slots| && j < |v.slots| ==>
      v.slots[j].place == if j == i then to
                          else if w.slots[j].alive && w.slots[j].place == last then from
                          else w.slots[j].place
  }

  /** Pushing in one archetype and then popping in another moves a row. */
  lemma PushThenPop(w: World, u: World, v: World, from: Place, last: Place, to: Place, row: Row)
    requires to.Placed? && HasRow(w, from) && HasRow(w, last) && from.arch != to.arch
    requires RowsPushed(w, u, to, row) && RowsPopped(u, v, from, last)
    ensures RowsMoved(w, v, from, last, to, row)
  {
  }

  /** The intermediate worlds of a migration. */
  lemma MigrateSteps(w: World, e: EntityId, sig: seq<nat>, vals: seq<Value>) returns (u: World, to: Place)
    requires Inv(w) && Live(w, e) && ValidRow(sig, vals) && sig != CurrentSig(w, e)
    ensures var from, last := PlaceOf(w, e), VacatedPlace(w, e);
            && HasRow(w, from) && HasRow(w, last) && ArchsOk(u) && SameSigs(w, u)
            && to.Placed? && to.arch < |u.archs| && u.archs[to.arch].sig == sig && from.arch != to.arch
            && RowsPushed(w, u, to, Row(e, vals)) && LastPlace(u, from.arch) == last
            && u.(archs := w.archs, bySig := w.bySig) == w
            && Migrate(w, e, sig, vals) == SetPlace(Compact(u, from), e.index, to)
    ensures var found, a := FindOrCreate(w, sig), ArchIndex(w, sig);
            a < |found.archs| && u == PushRow(found, a, Row(e, vals)) && to == NewPlace(found, a)
  {
    var from := PlaceOf(w, e);
    assert Seated(w, e.index);
    FindOrCreateRows(w, sig);
    var a, found := ArchIndex(w, sig), FindOrCreate(w, sig);
    assert a != from.arch;
    PushRowRows(found, a, Row(e, vals));
    u, to := PushRow(found, a, Row(e, vals)), NewPlace(found, a);
    CompactRows(u, from);
  }

  lemma MigrateRows(w: World, e: EntityId, sig: seq<nat>, vals: seq<Value>)
    requires Inv(w) && Live(w, e) && ValidRow(sig, vals) && sig != CurrentSig(w, e)
    ensures var v := Migrate(w, e, sig, vals);
            var from, last, to := PlaceOf(w, e), VacatedPlace(w, e), PlaceOf(v, e);
            && ArchsOk(v) && to.Placed? && to.arch < |v.archs| && v.archs[to.arch].sig == sig
            && RowsMoved(w, v, from, last, to, Row(e, vals))
            && SameFrame(w, v) && SlotsMoved(w, v, e.index, from, last, to)
  {
    var u, to := MigrateSteps(w, e, sig, vals);
    FinishMigration(w, u, e, to, Row(e, vals));
    var from, last := PlaceOf(w, e), VacatedPlace(w, e);
    assert PlaceOf(Migrate(w, e, sig, vals), e) == to;
  }

  lemma FinishMigration(w: World, u: World, e: EntityId, to: Place, row: Row)
    requires Inverse(w) && Live(w, e) && ArchsOk(u) && SameSigs(w, u)
    requires to.Placed? && to.arch < |u.archs|
    requires u.(archs := w.archs, bySig := w.bySig) == w
    requires var from, last := PlaceOf(w, e), VacatedPlace(w, e);
             && HasRow(w, from) && HasRow(w, last) && from.arch != to.arch
             && RowsPushed(w, u, to, row) && LastPlace(u, from.arch) == last
    ensures var from, last := PlaceOf(w, e), VacatedPlace(w, e);
            var c := Compact(u, from);
            var v := SetPlace(c, e.index, to);
            && ArchsOk(v) && SameSigs(u, v)
            && RowsMoved(w, v, from, last, to, row) && SameFrame(w, v) && SlotsMoved(w, v, e.index, from, last, to)
  {
    var from, last := PlaceOf(w, e), VacatedPlace(w, e);
    var c := Compact(u, from);
    CompactRows(u, from);
    PushThenPop(w, u, c, from, last, to, row);
    SameRowsMoved(w, c, SetPlace(c, e.index, to), from, last, to, row);
    assert Owned(w, last);
    forall i: nat | i < |w.slots| && w.slots[i].alive && w.slots[i].place == last
      ensures i == RowAt(w, last).eid.index
    {
      LastSeat(w, last, i);
    }
    CompactSlots(w, u, from, last, e.index, to);
  }

  lemma SameRowsMoved(w: World, c: World, v: World, from: Place, last: Place, to: Place, row: Row)
    requires RowsMoved(w, c, from, last, to, row) && v.archs == c.archs
    ensures RowsMoved(w, v, from, last, to, row)
  {
    assert forall q :: HasRow(v, q) <==> HasRow(c, q);
  }

  lemma CompactSlots(w: World, u: World, from: Place, last: Place, i: nat, to: Place)
    requires HasRow(w, from) && HasRow(w, last) && HasRow(u, from) && HasRow(u, last) && LastPlace(u, from.arch) == last
    requires RowAt(u, last) == RowAt(w, last) && u.(archs := w.archs, bySig := w.bySig) == w && Owned(w, last)
             && i < |w.slots|
    requires forall j: nat :: j < |w.slots| && w.slots[j].alive && w.slots[j].place == last ==>
             j == RowAt(w, last).eid.index
    requires from == w.slots[i].place && (from == last ==> w.slots[i].alive)
    ensures var v := SetPlace(Compact(u, from), i, to);
            && |v.slots| == |w.slots| && v.hasFree == w.hasFree && v.firstFree == w.firstFree
              && v.capacityOf == w.capacityOf
            && (forall j :: 0 <= j < |w.slots| ==> v.slots[j] == w.slots[j].(place := v.slots[j].place))
            && SlotsMoved(w, v, i, from, last, to)
  {
  }

  /** Only the entity seated in the last row has that place. */
  lemma LastSeat(w: World, last: Place, i: nat)
    requires Inverse(w) && HasRow(w, last) && i < |w.slots| && w.slots[i].alive && w.slots[i].place == last
    ensures i == RowAt(w, last).eid.index
  {
    assert Seated(w, i);
  }

  lemma MovedInverse(w: World, v: World, e: EntityId, from: Place, last: Place, to: Place, row: Row)
    requires Inverse(w) && Live(w, e) && SameFrame(w, v) && from == w.slots[e.index].place && row.eid == e && to.Placed?
    requires RowsMoved(w, v, from, last, to, row) && SlotsMoved(w, v, e.index, from, last, to)
    ensures Inverse(v)
  {
    assert Seated(w, e.index);
    forall i: nat | i < |v.slots| && v.slots[i].alive && v.slots[i].place.Placed? ensures Seated(v, i) {
      if i != e.index {
        assert Seated(w, i);
        assert w.slots[i].place != from;
      }
    }
    forall q | HasRow(v, q) ensures Owned(v, q) {
      if q != to {
        assert Owned(w, q) && Owned(w, last);
        var i := RowAt(v, q).eid.index;
        assert Seated(w, i);
      }
    }
  }

  lemma MigrateInv(w: World, e: EntityId, sig: seq<nat>, vals: seq<Value>)
    requires Inv(w) && Live(w, e) && ValidRow(sig, vals) && sig != CurrentSig(w, e)
    ensures Inv(Migrate(w, e, sig, vals))
  {
    var v := Migrate(w, e, sig, vals);
    MigrateRows(w, e, sig, vals);
    MovedInverse(w, v, e, w.slots[e.index].place, VacatedPlace(w, e), v.slots[e.index].place, Row(e, vals));
    FrameInv(w, v);
  }

  lemma MovedMeaning(w: World, v: World, e: EntityId, from: Place, last: Place, to: Place, row: Row)
    requires Inverse(w) && Live(w, e) && SameFrame(w, v) && from == w.slots[e.index].place && row.eid == e && to.Placed?
    requires RowsMoved(w, v, from, last, to, row) && SlotsMoved(w, v, e.index, from, last, to)
    ensures forall x :: Live(v, x) <==> Live(w, x)
    ensures forall x :: x != e && Live(w, x) ==> EntityOf(v, x) == EntityOf(w, x)
  {
    assert Seated(w, e.index);
    forall x | x != e && Live(w, x) ensures EntityOf(v, x) == EntityOf(w, x) {
      assert x.index != e.index;
      assert Seated(w, x.index);
      assert w.slots[x.index].place != from;
    }
  }

  lemma MigrateMeaning(w: World, e: EntityId, sig: seq<nat>, vals: seq<Value>)
    requires Inv(w) && Live(w, e) && ValidRow(sig, vals) && sig != CurrentSig(w, e)
    ensures Meaning(Migrate(w, e, sig, vals)) ==
            Meaning(w)[e := Entity(Components(sig, vals), w.slots[e.index].immutable)]
  {
    var v := Migrate(w, e, sig, vals);
    MigrateRows(w, e, sig, vals);
    MovedMeaning(w, v, e, w.slots[e.index].place, VacatedPlace(w, e), v.slots[e.index].place, Row(e, vals));
    MeaningUpdated(w, v, e);
  }

  // ----- destroying -----

  function Destroy(w: World, e: EntityId): World {
    if !Holds(w, e) then w
    else if PlaceOf(w, e).Reserved? then FreeSlot(w, e.index)
    else FreeSlot(Compact(w, PlaceOf(w, e)), e.index)
  }

  ghost predicate SlotsPopped(w: World, v: World, i: nat, from: Place, last: Place) {
    && |v.slots| == |w.slots| && i < |w.slots| && !v.slots[i].alive
    && (forall j :: 0 <= j < |w.slots| && j != i ==>
          v.slots[j] == w.slots[j].(place := if w.slots[j].alive && w.slots[j].place == last
                                    then from else w.slots[j].place))
  }

  /** v is w without e: its row is filled by the last one and its slot is on the free list. */
  ghost predicate DestroyedAt(w: World, v: World, e: EntityId) {
    && SameSigs(w, v) && v.capacityOf == w.capacityOf
    && RowsPopped(w, v, PlaceOf(w, e), VacatedPlace(w, e))
      && SlotsPopped(w, v, e.index, PlaceOf(w, e), VacatedPlace(w, e))
    && v.slots[e.index].gen == w.slots[e.index].gen
  }

  lemma DestroyRows(w: World, e: EntityId)
    requires Inv(w) && Live(w, e)
    ensures ArchsOk(Destroy(w, e)) && DestroyedAt(w, Destroy(w, e), e)
    ensures exists fl :: FreeChain(Destroy(w, e), fl)
  {
    var from, last := PlaceOf(w, e), VacatedPlace(w, e);
    assert Seated(w, e.index);
    CompactRows(w, from);
    var c := Compact(w, from);
    assert Owned(w, last);
    forall i: nat | i < |w.slots| && w.slots[i].alive && w.slots[i].place == last
      ensures i == RowAt(w, last).eid.index
    {
      LastSeat(w, last, i);
    }
    FreeCompacted(w, c, e);
    SameRowsFreed(w, c, FreeSlot(c, e.index), from, last);
  }

  lemma SameRowsFreed(w: World, c: World, v: World, from: Place, last: Place)
    requires RowsPopped(w, c, from, last) && v.archs == c.archs
    ensures RowsPopped(w, v, from, last)
  {
    assert forall q :: HasRow(v, q) <==> HasRow(c, q);
  }

  lemma FreeCompacted(w: World, c: World, e: EntityId)
    requires (exists fl :: FreeChain(w, fl)) && Holds(w, e) && c.hasFree == w.hasFree && c.firstFree == w.firstFree
    requires |c.slots| == |w.slots|
             && forall i :: 0 <= i < |w.slots| ==> c.slots[i].(place := w.slots[i].place) == w.slots[i]
    ensures exists fl :: FreeChain(FreeSlot(c, e.index), fl)
  {
    var fl :| FreeChain(w, fl);
    forall i | 0 <= i < |w.slots|
      ensures c.slots[i].alive == w.slots[i].alive && c.slots[i].nextFree == w.slots[i].nextFree
    {
      assert c.slots[i].(place := w.slots[i].place) == w.slots[i];
    }
    FreeChainFrame(w, c, fl);
    FreeChainPush(c, e.index, fl);
  }

  lemma PoppedInverse(w: World, v: World, e: EntityId, from: Place, last: Place)
    requires Inverse(w) && Live(w, e) && from == w.slots[e.index].place
    requires RowsPopped(w, v, from, last) && SlotsPopped(w, v, e.index, from, last)
    ensures Inverse(v)
  {
    assert Seated(w, e.index) && Owned(w, last);
    forall i: nat | i < |v.slots| && v.slots[i].alive && v.slots[i].place.Placed? ensures Seated(v, i) {
      assert Seated(w, i);
      assert w.slots[i].place != from;
    }
    forall q | HasRow(v, q) ensures Owned(v, q) {
      assert Owned(w, q);
      assert Seated(w, RowAt(v, q).eid.index);
    }
  }

  lemma DropInverse(w: World, i: nat)
    requires Inverse(w) && i < |w.slots| && w.slots[i].place.Reserved?
    ensures Inverse(FreeSlot(w, i))
  {
    var v := FreeSlot(w, i);
    forall j: nat | j < |v.slots| && v.slots[j].alive && v.slots[j].place.Placed? ensures Seated(v, j) {
      assert Seated(w, j);
    }
    forall q | HasRow(v, q) ensures Owned(v, q) {
      assert Owned(w, q);
    }
  }

  lemma DropInv(w: World, e: EntityId)
    requires Inv(w) && Unfinalised(w, e)
    ensures Inv(FreeSlot(w, e.index))
  {
    var fl :| FreeChain(w, fl);
    FreeChainPush(w, e.index, fl);
    DropInverse(w, e.index);
  }

  lemma DestroyInv(w: World, e: EntityId)
    requires Inv(w)
    ensures Inv(Destroy(w, e))
  {
    if Live(w, e) {
      DestroyRows(w, e);
      PoppedInverse(w, Destroy(w, e), e, PlaceOf(w, e), VacatedPlace(w, e));
    } else if Holds(w, e) {
      DropInv(w, e);
    }
  }

  lemma PoppedMeaning(w: World, v: World, e: EntityId, from: Place, last: Place)
    requires Inverse(w) && Live(w, e) && from == w.slots[e.index].place && SameSigs(w, v)
    requires RowsPopped(w, v, from, last) && SlotsPopped(w, v, e.index, from, last)
    ensures forall x :: x != e ==> (Live(v, x) <==> Live(w, x))
    ensures forall x :: x != e && Live(w, x) ==> EntityOf(v, x) == EntityOf(w, x)
  {
    assert Seated(w, e.index);
    forall x | x != e && Live(w, x) ensures EntityOf(v, x) == EntityOf(w, x) {
      assert x.index != e.index;
      assert Seated(w, x.index);
      assert w.slots[x.index].place != from;
    }
  }

  lemma DestroyMeaning(w: World, e: EntityId)
    requires Inv(w)
    ensures Meaning(Destroy(w, e)) == Meaning(w) - {e}
  {
    var v := Destroy(w, e);
    if Live(w, e) {
      DestroyRows(w, e);
      PoppedMeaning(w, v, e, PlaceOf(w, e), VacatedPlace(w, e));
      MeaningRemoved(w, v, e);
    } else {
      assert e !in Meaning(w);
      SameMeaning(w, v);
    }
  }

  // ----- signatures of the target archetype -----

  lemma AscendingHead(s: seq<nat>)
    requires s != []
    ensures s == [s[0]] + s[1..] && (forall x: nat :: x in s <==> x == s[0] || x in s[1..])
    ensures Ascending(s) ==> Ascending(s[1..]) && forall x: nat :: x in s[1..] ==> s[0] < x
  {
    assert s == [s[0]] + s[1..];
  }

  lemma AscendingCons(x: nat, s: seq<nat>)
    ensures (forall y: nat :: y in [x] + s <==> y == x || y in s)
    ensures Ascending(s) && (forall y: nat :: y in s ==> x < y) ==> Ascending([x] + s)
  {
    if Ascending(s) && (forall y: nat :: y in s ==> x < y) {
      var r := [x] + s;
      forall i, j | 0 <= i < j < |r| ensures r[i] < r[j] {
        assert r[j] == s[j - 1] && s[j - 1] in s;
        assert i > 0 ==> r[i] == s[i - 1];
      }
    }
  }

  /** sig with id inserted at its sorted position. */
  function InsertId(sig: seq<nat>, id: nat): seq<nat> {
    if sig == [] then [id] else if sig[0] > id then [id] + sig else [sig[0]] + InsertId(sig[1..], id)
  }

  lemma {:induction false} Inserted(sig: seq<nat>, id: nat)
    ensures forall x: nat :: x in InsertId(sig, id) <==> x in sig || x == id
    ensures Ascending(sig) && id !in sig ==> Ascending(InsertId(sig, id))
    ensures InsertId(sig, id) != []
  {
    if sig != [] {
      AscendingHead(sig);
      if sig[0] > id {
        AscendingCons(id, sig);
      } else {
        Inserted(sig[1..], id);
        AscendingCons(sig[0], InsertId(sig[1..], id));
      }
    }
  }

  function RemoveId(sig: seq<nat>, id: nat): seq<nat> {
    if sig == [] then []
    else
      var rest := RemoveId(sig[1..], id);
      if sig[0] == id then rest else [sig[0]] + rest
  }

  lemma {:induction false} Removed(sig: seq<nat>, id: nat)
    ensures forall x: nat :: x in RemoveId(sig, id) <==> x in sig && x != id
    ensures Ascending(sig) ==> Ascending(RemoveId(sig, id))
  {
    if sig != [] {
      AscendingHead(sig);
      Removed(sig[1..], id);
      AscendingCons(sig[0], RemoveId(sig[1..], id));
    }
  }

  /** The values of the target row: the new component's value, all others carried over. */
  function TargetVals(sig: seq<nat>, vals: seq<Value>, target: seq<nat>, id: nat, v: Value): (r: seq<Value>)
    ensures |r| == |target|
  {
    seq(|target|, i requires 0 <= i < |target| =>
      if target[i] == id then v
      else if ColumnIndex(sig, target[i]) < |vals| then vals[ColumnIndex(sig, target[i])] else v)
  }

  lemma ComponentsLookup(sig: seq<nat>, vals: seq<Value>)
    requires |vals| == |sig|
    ensures var comps := Components(sig, vals);
            && (forall x: nat :: x in comps <==> x in sig)
            && (forall x: nat :: x in sig ==> comps[x] == vals[ColumnIndex(sig, x)])
  {
  }

  lemma TargetLookup(sig: seq<nat>, vals: seq<Value>, target: seq<nat>, id: nat, v: Value)
    requires |vals| == |sig| && forall x: nat :: x in target ==> x in sig || x == id
    ensures var comps := Components(target, TargetVals(sig, vals, target, id, v));
            && (forall x: nat :: x in comps <==> x in target)
            && (forall x: nat :: x in target ==> comps[x] == if x == id then v else vals[ColumnIndex(sig, x)])
  {
  }

  lemma SameMap(a: map<nat, Value>, b: map<nat, Value>)
    requires forall x: nat :: x in a <==> x in b
    requires forall x: nat :: x in a && x in b ==> a[x] == b[x]
    ensures a == b
  {
    assert a.Keys == b.Keys;
  }

  lemma InsertComponents(sig: seq<nat>, vals: seq<Value>, id: nat, v: Value)
    requires |vals| == |sig| && id !in sig
    ensures var target := InsertId(sig, id);
            Components(target, TargetVals(sig, vals, target, id, v)) == Components(sig, vals)[id := v]
  {
    var target := InsertId(sig, id);
    Inserted(sig, id);
    ComponentsLookup(sig, vals);
    TargetLookup(sig, vals, target, id, v);
    SameMap(Components(target, TargetVals(sig, vals, target, id, v)), Components(sig, vals)[id := v]);
  }

  lemma RemoveComponents(sig: seq<nat>, vals: seq<Value>, id: nat, v: Value)
    requires |vals| == |sig|
    ensures var target := RemoveId(sig, id);
            Components(target, TargetVals(sig, vals, target, id, v)) == Components(sig, vals) - {id}
  {
    var target := RemoveId(sig, id);
    Removed(sig, id);
    ComponentsLookup(sig, vals);
    TargetLookup(sig, vals, target, id, v);
    SameMap(Components(target, TargetVals(sig, vals, target, id, v)), Components(sig, vals) - {id});
  }

  lemma ReplaceComponents(sig: seq<nat>, vals: seq<Value>, id: nat, v: Value)
    requires ValidRow(sig, vals) && id in sig
    ensures Components(sig, vals[ColumnIndex(sig, id) := v]) == Components(sig, vals)[id := v]
  {
  }

  // ----- adding and removing components -----

  /** Overwrites the values of a row in place. */
  function SetVals(w: World, p: Place, vals: seq<Value>): World {
    if HasRow(w, p) then
      var arch := w.archs[p.arch];
      w.(archs := w.archs[p.arch := arch.(chunks := Put(arch.chunks, p.at, RowAt(w, p).(vals := vals)))])
    else w
  }

  lemma SetValsRows(w: World, p: Place, vals: seq<Value>)
    requires ArchsOk(w) && HasRow(w, p) && |vals| == |w.archs[p.arch].sig|
    ensures var v := SetVals(w, p, vals);
            && ArchsOk(v) && SameSigs(w, v) && (forall q :: HasRow(v, q) <==> HasRow(w, q))
            && (forall q :: HasRow(w, q) ==> RowAt(v, q) == if q == p then RowAt(w, p).(vals := vals) else RowAt(w, q))
  {
    var arch := w.archs[p.arch];
    PutRows(arch.chunks, arch.cap, p.at, RowAt(w, p).(vals := vals));
  }

  function AddTo(w: World, e: EntityId, id: nat, v: Value): World {
    if !Live(w, e) || w.slots[e.index].immutable then w
    else
      var sig, vals := CurrentSig(w, e), CurrentVals(w, e);
      if id in sig then
        SetVals(w, PlaceOf(w, e), if ColumnIndex(sig, id) < |vals| then vals[ColumnIndex(sig, id) := v] else vals)
      else
        var target := InsertId(sig, id);
        Migrate(w, e, target, TargetVals(sig, vals, target, id, v))
  }

  function RemoveFrom(w: World, e: EntityId, id: nat): World {
    if !Live(w, e) || w.slots[e.index].immutable then w
    else
      var sig, vals := CurrentSig(w, e), CurrentVals(w, e);
      if id !in sig || |sig| == 1 then w
      else
        var target := RemoveId(sig, id);
        Migrate(w, e, target, TargetVals(sig, vals, target, id, 0))
  }

  lemma SetValsInv(w: World, e: EntityId, vals: seq<Value>)
    requires Inv(w) && Live(w, e) && |vals| == |CurrentSig(w, e)|
    ensures Inv(SetVals(w, PlaceOf(w, e), vals))
  {
    var v := SetVals(w, PlaceOf(w, e), vals);
    assert Seated(w, e.index);
    SetValsRows(w, PlaceOf(w, e), vals);
    forall i: nat | i < |v.slots| && v.slots[i].alive && v.slots[i].place.Placed? ensures Seated(v, i) {
      assert Seated(w, i);
    }
    forall q | HasRow(v, q) ensures Owned(v, q) {
      assert Owned(w, q);
    }
    FrameInv(w, v);
  }

  lemma SetValsMeaning(w: World, e: EntityId, vals: seq<Value>)
    requires Inv(w) && Live(w, e) && |vals| == |CurrentSig(w, e)|
    ensures Meaning(SetVals(w, PlaceOf(w, e), vals)) ==
            Meaning(w)[e := Entity(Components(CurrentSig(w, e), vals), w.slots[e.index].immutable)]
  {
    var v := SetVals(w, PlaceOf(w, e), vals);
    assert Seated(w, e.index);
    SetValsRows(w, PlaceOf(w, e), vals);
    forall x | x != e && Live(w, x) ensures EntityOf(v, x) == EntityOf(w, x) {
      assert x.index != e.index;
      assert Seated(w, x.index);
    }
    MeaningUpdated(w, v, e);
  }

  // ----- the specification on entity maps -----

  function SpecAdd(m: map<EntityId, Entity>, e: EntityId, id: nat, v: Value): map<EntityId, Entity> {
    if e in m && !m[e].immutable then m[e := m[e].(comps := m[e].comps[id := v])] else m
  }

  /** Removing the only component is refused. */
  function SpecRemove(m: map<EntityId, Entity>, e: EntityId, id: nat): map<EntityId, Entity> {
    if e in m && !m[e].immutable && id in m[e].comps && m[e].comps.Keys != {id} then
      m[e := m[e].(comps := m[e].comps - {id})]
    else m
  }

  lemma LiveMeaning(w: World, e: EntityId)
    requires Inv(w) && Live(w, e)
    ensures e in Meaning(w)
    ensures Meaning(w)[e] == Entity(Components(CurrentSig(w, e), CurrentVals(w, e)), w.slots[e.index].immutable)
    ensures forall id: nat :: id in Meaning(w)[e].comps <==> id in CurrentSig(w, e)
  {
    assert Seated(w, e.index);
    CurrentRowValid(w, e);
  }

  lemma AddInv(w: World, e: EntityId, id: nat, v: Value)
    requires Inv(w)
    ensures Inv(AddTo(w, e, id, v))
  {
    if Live(w, e) && !w.slots[e.index].immutable {
      CurrentRowValid(w, e);
      var sig, vals := CurrentSig(w, e), CurrentVals(w, e);
      if id in sig {
        SetValsInv(w, e, vals[ColumnIndex(sig, id) := v]);
      } else {
        var target := InsertId(sig, id);
        Inserted(sig, id);
        MigrateInv(w, e, target, TargetVals(sig, vals, target, id, v));
      }
    }
  }

  /** An applied add changes exactly that entity at exactly that component. */
  lemma AddMeaning(w: World, e: EntityId, id: nat, v: Value)
    requires Inv(w)
    ensures Meaning(AddTo(w, e, id, v)) == SpecAdd(Meaning(w), e, id, v)
  {
    if Live(w, e) {
      LiveMeaning(w, e);
      CurrentRowValid(w, e);
      if !w.slots[e.index].immutable {
        var sig, vals := CurrentSig(w, e), CurrentVals(w, e);
        if id in sig {
          ReplaceComponents(sig, vals, id, v);
          SetValsMeaning(w, e, vals[ColumnIndex(sig, id) := v]);
        } else {
          var target := InsertId(sig, id);
          Inserted(sig, id);
          InsertComponents(sig, vals, id, v);
          MigrateMeaning(w, e, target, TargetVals(sig, vals, target, id, v));
        }
      }
    }
  }

  lemma SoleComponent(sig: seq<nat>, id: nat)
    requires Ascending(sig) && id in sig
    ensures |sig| == 1 <==> forall x: nat :: x in sig ==> x == id
  {
    if |sig| > 1 {
      assert sig[0] in sig && sig[1] in sig && sig[0] < sig[1];
    }
  }

  /** Dropping one of several components leaves a proper signature. */
  lemma RemoveTarget(sig: seq<nat>, id: nat)
    requires Ascending(sig) && id in sig && |sig| != 1
    ensures var target := RemoveId(sig, id); target != [] && Ascending(target) && target != sig
  {
    SoleComponent(sig, id);
    Removed(sig, id);
    var x: nat :| x in sig && x != id;
    assert x in RemoveId(sig, id);
  }

  lemma RemoveInv(w: World, e: EntityId, id: nat)
    requires Inv(w)
    ensures Inv(RemoveFrom(w, e, id))
  {
    if Live(w, e) && !w.slots[e.index].immutable {
      CurrentRowValid(w, e);
      var sig, vals := CurrentSig(w, e), CurrentVals(w, e);
      if id in sig && |sig| != 1 {
        RemoveTarget(sig, id);
        var target := RemoveId(sig, id);
        MigrateInv(w, e, target, TargetVals(sig, vals, target, id, 0));
      }
    }
  }

  lemma RemoveGuard(w: World, e: EntityId, id: nat)
    requires Inv(w) && Live(w, e) && id in CurrentSig(w, e)
    ensures e in Meaning(w) && id in Meaning(w)[e].comps
            && (Meaning(w)[e].comps.Keys == {id} <==> |CurrentSig(w, e)| == 1)
  {
    LiveMeaning(w, e);
    CurrentRowValid(w, e);
    SoleComponent(CurrentSig(w, e), id);
    assert Meaning(w)[e].comps.Keys == {id} <==> forall x: nat :: x in CurrentSig(w, e) ==> x == id;
  }

  lemma RemoveMoves(w: World, e: EntityId, id: nat)
    requires Inv(w) && Live(w, e) && id in CurrentSig(w, e) && |CurrentSig(w, e)| != 1
    ensures var sig, vals := CurrentSig(w, e), CurrentVals(w, e);
            var target := RemoveId(sig, id);
            e in Meaning(w) && Meaning(Migrate(w, e, target, TargetVals(sig, vals, target, id, 0))) ==
                               Meaning(w)[e := Meaning(w)[e].(comps := Meaning(w)[e].comps - {id})]
  {
    LiveMeaning(w, e);
    CurrentRowValid(w, e);
    var sig, vals := CurrentSig(w, e), CurrentVals(w, e);
    RemoveTarget(sig, id);
    RemoveComponents(sig, vals, id, 0);
    MigrateMeaning(w, e, RemoveId(sig, id), TargetVals(sig, vals, RemoveId(sig, id), id, 0));
  }

  lemma RemoveMeaning(w: World, e: EntityId, id: nat)
    requires Inv(w)
    ensures Meaning(RemoveFrom(w, e, id)) == SpecRemove(Meaning(w), e, id)
  {
    if Live(w, e) {
      LiveMeaning(w, e);
      if !w.slots[e.index].immutable && id in CurrentSig(w, e) {
        RemoveGuard(w, e, id);
        if |CurrentSig(w, e)| != 1 {
          RemoveMoves(w, e, id);
        }
      }
    }
  }
}
