/** A bulk create is the loop of single creates: same ids in the same order, same rows. */
module BulkCreate {
  import opened WorldStore
  import opened EntityOps
  import opened CommandOps

  // ----- the free list does not see finalising or stamping of held slots -----

  /** The next slot to be handed out is not one that is held. */
  ghost predicate HeldApart(w: World, i: nat) {
    i < |w.slots| && (w.hasFree && w.firstFree < |w.slots| ==> w.firstFree != i)
  }

  lemma HeldSlotApart(w: World, e: EntityId)
    requires (exists fl :: FreeChain(w, fl)) && Holds(w, e)
    ensures HeldApart(w, e.index)
  {
    var fl :| FreeChain(w, fl);
    assert fl != [] ==> fl[0] in fl;
  }

  lemma ReserveFinaliseCommute(w: World, e: EntityId, sig: seq<nat>, vals: seq<Value>)
    requires HeldApart(w, e.index)
    ensures ReserveSlot(Finalise(w, e, sig, vals)) == Finalise(ReserveSlot(w), e, sig, vals)
    ensures ReservedId(Finalise(w, e, sig, vals)) == ReservedId(w)
  {
    if Unfinalised(w, e) {
      var v := Finalise(w, e, sig, vals);
      var found, a := FindOrCreate(w, sig), ArchIndex(w, sig);
      var p := NewPlace(found, a);
      assert v.slots == Reseat(w.slots, e.index, p);
      var r := ReserveSlot(w);
      assert Finalise(r, e, sig, vals) == SetPlace(PushRow(FindOrCreate(r, sig), a, Row(e, vals)), e.index, p);
      assert ReserveSlot(v).slots == Reseat(r.slots, e.index, p);
    }
  }

  lemma ReserveStampCommute(w: World, e: EntityId)
    requires HeldApart(w, e.index)
    ensures ReserveSlot(StampHeld(w, e)) == StampHeld(ReserveSlot(w), e)
    ensures ReservedId(StampHeld(w, e)) == ReservedId(w)
  {
    assert ReserveSlot(StampHeld(w, e)).slots == StampHeld(ReserveSlot(w), e).slots;
  }

  lemma StampedSlots(w: World, x: EntityId, i: nat, p: Place)
    requires i < |w.slots|
    ensures Reseat(StampHeld(w, x).slots, i, p) == StampHeld(w.(slots := Reseat(w.slots, i, p)), x).slots
  {
  }

  lemma FinaliseStampCommute(w: World, e: EntityId, sig: seq<nat>, vals: seq<Value>, x: EntityId)
    ensures Finalise(StampHeld(w, x), e, sig, vals) == StampHeld(Finalise(w, e, sig, vals), x)
  {
    assert Unfinalised(StampHeld(w, x), e) == Unfinalised(w, e);
    if Unfinalised(w, e) {
      StampedSlots(w, x, e.index, NewPlace(FindOrCreate(w, sig), ArchIndex(w, sig)));
    }
  }

  // ----- over many entities -----

  /** All ids are held, and the free list is a proper one. */
  ghost predicate AllHeld(w: World, ids: seq<EntityId>) {
    && (exists fl :: FreeChain(w, fl))
    && (forall k :: 0 <= k < |ids| ==> Holds(w, ids[k]))
  }

  ghost predicate SameSlotStates(w: World, v: World) {
    && v.hasFree == w.hasFree && v.firstFree == w.firstFree && |v.slots| == |w.slots|
    && (forall i :: 0 <= i < |w.slots| ==>
          v.slots[i].alive == w.slots[i].alive && v.slots[i].nextFree == w.slots[i].nextFree
            && v.slots[i].gen == w.slots[i].gen)
  }

  lemma {:induction false} FinaliseAllStates(w: World, ids: seq<EntityId>, sig: seq<nat>, rows: seq<seq<Value>>)
    ensures SameSlotStates(w, FinaliseAll(w, ids, sig, rows))
  {
    if ids != [] {
      FinaliseAllStates(w, ids[..|ids| - 1], sig, rows);
    }
  }

  lemma {:induction false} StampAllStates(w: World, ids: seq<EntityId>)
    ensures SameSlotStates(w, StampAll(w, ids))
  {
    if ids != [] {
      StampAllStates(w, ids[..|ids| - 1]);
    }
  }

  lemma AllHeldFrame(w: World, v: World, ids: seq<EntityId>)
    requires AllHeld(w, ids) && SameSlotStates(w, v)
    ensures AllHeld(v, ids)
  {
    var fl :| FreeChain(w, fl);
    FreeChainFrame(w, v, fl);
  }

  lemma {:induction false} ReserveFinaliseAllCommute(w: World, ids: seq<EntityId>, sig: seq<nat>, rows: seq<seq<Value>>)
    requires AllHeld(w, ids)
    ensures ReserveSlot(FinaliseAll(w, ids, sig, rows)) == FinaliseAll(ReserveSlot(w), ids, sig, rows)
    ensures ReservedId(FinaliseAll(w, ids, sig, rows)) == ReservedId(w)
  {
    if ids != [] {
      var n := |ids| - 1;
      var before := FinaliseAll(w, ids[..n], sig, rows);
      ReserveFinaliseAllCommute(w, ids[..n], sig, rows);
      FinaliseAllStates(w, ids[..n], sig, rows);
      AllHeldFrame(w, before, ids);
      HeldSlotApart(before, ids[n]);
      if n < |rows| {
        ReserveFinaliseCommute(before, ids[n], sig, rows[n]);
      }
    }
  }

  lemma {:induction false} ReserveStampAllCommute(w: World, ids: seq<EntityId>)
    requires AllHeld(w, ids)
    ensures ReserveSlot(StampAll(w, ids)) == StampAll(ReserveSlot(w), ids)
    ensures ReservedId(StampAll(w, ids)) == ReservedId(w)
  {
    if ids != [] {
      var n := |ids| - 1;
      var before := StampAll(w, ids[..n]);
      ReserveStampAllCommute(w, ids[..n]);
      StampAllStates(w, ids[..n]);
      AllHeldFrame(w, before, ids);
      HeldSlotApart(before, ids[n]);
      ReserveStampCommute(before, ids[n]);
    }
  }

  lemma {:induction false} FinaliseStampAllCommute(w: World, e: EntityId, sig: seq<nat>, vals: seq<Value>,
                                                   ids: seq<EntityId>)
    ensures Finalise(StampAll(w, ids), e, sig, vals) == StampAll(Finalise(w, e, sig, vals), ids)
  {
    if ids != [] {
      var n := |ids| - 1;
      FinaliseStampAllCommute(w, e, sig, vals, ids[..n]);
      FinaliseStampCommute(StampAll(w, ids[..n]), e, sig, vals, ids[n]);
    }
  }

  /** n reservations hold n entities. */
  lemma {:induction false} ReservedAllHeld(w: World, n: nat)
    requires Inv(w)
    ensures Inv(ReserveSlots(w, n)) && AllHeld(ReserveSlots(w, n), ReservedIds(w, n))
  {
    if n > 0 {
      var before := ReserveSlots(w, n - 1);
      ReservedAllHeld(w, n - 1);
      ReserveInv(before);
      ReserveEffect(before);
    }
  }

  // ----- the equivalence -----

  /** What the bulk op leaves behind when it creates the first n rows from placeholders. */
  function BulkWorld(w: World, n: nat, sig: seq<nat>, rows: seq<seq<Value>>, immutable: bool): World {
    var ids := ReservedIds(w, n);
    var made := FinaliseAll(ReserveSlots(w, n), ids, sig, rows);
    if immutable then StampAll(made, ids) else made
  }

  /** One more row of a bulk create is one more single create. */
  lemma FinaliseAllSnoc(w: World, ids: seq<EntityId>, e: EntityId, sig: seq<nat>, rows: seq<seq<Value>>)
    requires |ids| < |rows|
    ensures FinaliseAll(w, ids + [e], sig, rows) == Finalise(FinaliseAll(w, ids, sig, rows), e, sig, rows[|ids|])
  {
    assert (ids + [e])[..|ids|] == ids;
  }

  lemma OneMoreFilled(w: World, n: nat, sig: seq<nat>, rows: seq<seq<Value>>, filled: World)
    requires Inv(w) && n < |rows| && filled == FinaliseAll(ReserveSlots(w, n), ReservedIds(w, n), sig, rows)
    ensures ReservedId(filled) == ReservedIds(w, n + 1)[n]
    ensures FinaliseAll(ReserveSlots(w, n + 1), ReservedIds(w, n + 1), sig, rows) ==
            Finalise(ReserveSlot(filled), ReservedId(filled), sig, rows[n])
  {
    ReservedAllHeld(w, n);
    ReserveFinaliseAllCommute(ReserveSlots(w, n), ReservedIds(w, n), sig, rows);
    FinaliseAllSnoc(ReserveSlots(w, n + 1), ReservedIds(w, n), ReservedId(filled), sig, rows);
  }

  lemma OneMoreStamped(w: World, n: nat, sig: seq<nat>, rows: seq<seq<Value>>, filled: World, made: World)
    requires Inv(w) && n < |rows| && filled == FinaliseAll(ReserveSlots(w, n), ReservedIds(w, n), sig, rows)
    requires made == Finalise(ReserveSlot(filled), ReservedId(filled), sig, rows[n])
    ensures var ids, stamped := ReservedIds(w, n), StampAll(filled, ReservedIds(w, n));
            ReservedId(stamped) == ReservedId(filled) &&
            Finalise(ReserveSlot(stamped), ReservedId(stamped), sig, rows[n]) == StampAll(made, ids)
  {
    var ids, reserved := ReservedIds(w, n), ReserveSlots(w, n);
    ReservedAllHeld(w, n);
    FinaliseAllStates(reserved, ids, sig, rows);
    AllHeldFrame(reserved, filled, ids);
    ReserveStampAllCommute(filled, ids);
    FinaliseStampAllCommute(ReserveSlot(filled), ReservedId(filled), sig, rows[n], ids);
  }

  /** One more row of a bulk create is one more single create. */
  lemma BulkStep(w: World, n: nat, sig: seq<nat>, rows: seq<seq<Value>>, immutable: bool)
    requires Inv(w) && n < |rows|
    ensures var before := BulkWorld(w, n, sig, rows, immutable);
            var id := ReservedId(before);
            var made := Finalise(ReserveSlot(before), id, sig, rows[n]);
            && id == ReservedIds(w, n + 1)[n]
            && BulkWorld(w, n + 1, sig, rows, immutable) == if immutable then StampIndex(made, id.index) else made
  {
    var filled := FinaliseAll(ReserveSlots(w, n), ReservedIds(w, n), sig, rows);
    var made := Finalise(ReserveSlot(filled), ReservedId(filled), sig, rows[n]);
    OneMoreFilled(w, n, sig, rows, filled);
    if immutable {
      OneMoreStamped(w, n, sig, rows, filled, made);
      assert ReservedIds(w, n + 1)[..n] == ReservedIds(w, n);
      LastStamp(w, n, sig, rows, made);
    }
  }

  /** The entity created last holds its slot, so the checked stamp is the plain one. */
  lemma LastStamp(w: World, n: nat, sig: seq<nat>, rows: seq<seq<Value>>, made: World)
    requires Inv(w) && n < |rows|
    requires made == FinaliseAll(ReserveSlots(w, n + 1), ReservedIds(w, n + 1), sig, rows)
    ensures var ids := ReservedIds(w, n + 1);
            StampAll(made, ids) == StampIndex(StampAll(made, ids[..n]), ids[n].index)
  {
    var ids := ReservedIds(w, n + 1);
    ReservedAllHeld(w, n + 1);
    FinaliseAllStates(ReserveSlots(w, n + 1), ids, sig, rows);
    StampAllStates(made, ids[..n]);
  }

  /** The n single creates that a bulk create replaces, with the same placeholders. */
  function Singles(base: nat, sig: seq<nat>, rows: seq<seq<Value>>, immutable: bool): (ops: seq<Op>)
    ensures |ops| == |rows|
  {
    seq(|rows|, k requires 0 <= k < |rows| =>
      CreateEntity(EntityId(base + k, DEFERRED_GENERATION_BIT), sig, rows[k], immutable))
  }

  lemma LastBound(ph: seq<EntityId>, base: nat, w: World, n: nat)
    ensures BindAll(ph, base, ReservedIds(w, n + 1)) ==
            Bind(BindAll(ph, base, ReservedIds(w, n)), base + n, ReservedIds(w, n + 1)[n])
  {
    assert ReservedIds(w, n + 1)[..n] == ReservedIds(w, n);
  }

  /** One single create in the state that a bulk create of n rows leaves. */
  lemma OneMoreSingle(w: World, ph: seq<EntityId>, base: nat, n: nat, sig: seq<nat>, rows: seq<seq<Value>>,
                      immutable: bool)
    requires Inv(w) && n < |rows|
    ensures ApplyOp(ApplyState(BulkWorld(w, n, sig, rows, immutable), ph),
                    CreateEntity(EntityId(base + n, DEFERRED_GENERATION_BIT), sig, rows[n], immutable)) ==
            ApplyState(BulkWorld(w, n + 1, sig, rows, immutable), Bind(ph, base + n, ReservedIds(w, n + 1)[n]))
  {
    BulkStep(w, n, sig, rows, immutable);
  }

  lemma SingleAt(base: nat, sig: seq<nat>, rows: seq<seq<Value>>, immutable: bool, n: nat)
    requires n < |rows|
    ensures Singles(base, sig, rows, immutable)[n] == CreateEntity(EntityId(base + n, DEFERRED_GENERATION_BIT), sig,
                                                                   rows[n], immutable)
  {
  }

  /** After n single creates the state is the one that a bulk create of n rows leaves. */
  ghost predicate SinglesReach(s: ApplyState, base: nat, n: nat, sig: seq<nat>, rows: seq<seq<Value>>, immutable: bool,
                               ops: seq<Op>)
  {
    n <= |ops| && ApplyOps(s, ops[..n]) == ApplyState(BulkWorld(s.world, n, sig, rows, immutable),
                                                      BindAll(s.ph, base, ReservedIds(s.world, n)))
  }

  lemma SinglesStep(s: ApplyState, base: nat, m: nat, n: nat, sig: seq<nat>, rows: seq<seq<Value>>, immutable: bool,
                    ops: seq<Op>)
    requires Inv(s.world) && n == m + 1 && n <= |rows| && ops == Singles(base, sig, rows, immutable)
    requires SinglesReach(s, base, m, sig, rows, immutable, ops)
    ensures SinglesReach(s, base, n, sig, rows, immutable, ops)
  {
    LastOp(s, ops, m);
    SingleAt(base, sig, rows, immutable, m);
    LastBound(s.ph, base, s.world, m);
    OneMoreSingle(s.world, BindAll(s.ph, base, ReservedIds(s.world, m)), base, m, sig, rows, immutable);
  }

  lemma SinglesNone(s: ApplyState, base: nat, sig: seq<nat>, rows: seq<seq<Value>>, immutable: bool, ops: seq<Op>)
    ensures SinglesReach(s, base, 0, sig, rows, immutable, ops)
  {
    assert ops[..0] == [];
  }

  lemma {:induction false} SinglesWorld(s: ApplyState, base: nat, n: nat, sig: seq<nat>, rows: seq<seq<Value>>,
                                        immutable: bool)
    requires Inv(s.world) && n <= |rows|
    ensures SinglesReach(s, base, n, sig, rows, immutable, Singles(base, sig, rows, immutable))
  {
    var ops := Singles(base, sig, rows, immutable);
    if n == 0 {
      SinglesNone(s, base, sig, rows, immutable, ops);
    } else {
      SinglesWorld(s, base, n - 1, sig, rows, immutable);
      SinglesStep(s, base, n - 1, n, sig, rows, immutable, ops);
    }
  }

  /** Applying a bulk create from placeholders is applying the single creates in its place. */
  lemma BulkIsSingles(s: ApplyState, base: nat, sig: seq<nat>, rows: seq<seq<Value>>, immutable: bool)
    requires Inv(s.world)
    ensures ApplyOp(s, CreateEntitiesBulk(EntityId(base, DEFERRED_GENERATION_BIT), [], sig, rows, immutable)) ==
            ApplyOps(s, Singles(base, sig, rows, immutable))
  {
    SinglesWorld(s, base, |rows|, sig, rows, immutable);
    assert Singles(base, sig, rows, immutable)[..|rows|] == Singles(base, sig, rows, immutable);
  }
}
