/** What a placeholder stands for: throughout its buffer, the entity that was created for it. */
module Placeholders {
  import opened CommandOps
  import opened EntityOps
  import opened StoreRefinement
  import opened WorldStore

  /** Applied in w, the op creates the entity e for the i-th placeholder. */
  predicate CreatesFor(w: World, op: Op, i: nat, e: EntityId) {
    match op
    case CreateEntity(eid, _, _, _) => Deferred(eid) && eid.index == i && e == ReservedId(w)
    case CreateEntitiesBulk(eid, _, _, rows, _) =>
      Deferred(eid) && eid.index <= i < eid.index + |rows| && e == ReservedIds(w, |rows|)[i - eid.index]
    case _ => false
  }

  /** The op hands out the i-th placeholder. */
  predicate HandsOut(op: Op, i: nat) {
    match op
    case CreateEntity(eid, _, _, _) => Deferred(eid) && eid.index == i
    case CreateEntitiesBulk(eid, _, _, rows, _) => Deferred(eid) && eid.index <= i < eid.index + |rows|
    case _ => false
  }

  lemma {:induction false} BindAllAt(ph: seq<EntityId>, base: nat, ids: seq<EntityId>, i: nat)
    requires i < |ph|
    ensures BindAll(ph, base, ids)[i] == if base <= i < base + |ids| then ids[i - base] else ph[i]
  {
    if ids != [] {
      BindAllAt(ph, base, ids[..|ids| - 1], i);
    }
  }

  lemma AfterCreating(s: ApplyState, op: Op, i: nat, e: EntityId)
    requires i < |s.ph| && CreatesFor(s.world, op, i, e)
    ensures |ApplyOp(s, op).ph| == |s.ph| && ApplyOp(s, op).ph[i] == e
  {
    match op
    case CreateEntitiesBulk(eid, _, _, rows, _) => BindAllAt(s.ph, eid.index, ReservedIds(s.world, |rows|), i);
    case _ =>
  }

  lemma AfterOthers(s: ApplyState, op: Op, i: nat)
    requires i < |s.ph| && !HandsOut(op, i)
    ensures |ApplyOp(s, op).ph| == |s.ph| && ApplyOp(s, op).ph[i] == s.ph[i]
  {
    match op
    case CreateEntitiesBulk(eid, _, _, rows, _) =>
      if Deferred(eid) {
        BindAllAt(s.ph, eid.index, ReservedIds(s.world, |rows|), i);
      }
    case _ =>
  }

  /** The ops from j on, up to m, hand out other placeholders only. */
  predicate OthersOnly(ops: seq<Op>, j: nat, m: nat, i: nat) {
    m <= |ops| && forall k :: j <= k < m ==> !HandsOut(ops[k], i)
  }

  lemma {:induction false} StaysBound(s: ApplyState, ops: seq<Op>, j: nat, m: nat, i: nat, e: EntityId)
    requires j <= m && OthersOnly(ops, j, m, i)
    requires i < |ApplyOps(s, ops[..j]).ph| && ApplyOps(s, ops[..j]).ph[i] == e
    ensures i < |ApplyOps(s, ops[..m]).ph| && ApplyOps(s, ops[..m]).ph[i] == e
    decreases m
  {
    if j < m {
      var k := m - 1;
      StaysBound(s, ops, j, k, i, e);
      LastOp(s, ops, k);
      AfterOthers(ApplyOps(s, ops[..k]), ops[k], i);
    }
  }

  /** What a destroy, add or remove of this very entity makes of w. */
  function DoneTo(w: World, op: Op, e: EntityId): World {
    match op
    case DestroyEntity(_) => Destroy(w, e)
    case AddComponent(_, id, v) => AddTo(w, e, id, v)
    case RemoveComponent(_, id) => RemoveFrom(w, e, id)
    case _ => w
  }

  predicate ActsOn(op: Op, x: EntityId) {
    (op.DestroyEntity? || op.AddComponent? || op.RemoveComponent?) && op.eid == x
  }

  lemma {:induction false} TableLength(s: ApplyState, ops: seq<Op>)
    ensures |ApplyOps(s, ops).ph| == |s.ph|
  {
    if ops != [] {
      TableLength(s, ops[..|ops| - 1]);
    }
  }

  /** A later op on a placeholder is done to the entity that an earlier op of the buffer created for it. */
  lemma StandsForCreated(s: ApplyState, ops: seq<Op>, j: nat, m: nat, x: EntityId, e: EntityId)
    requires j < m < |ops| && Deferred(x) && x.index < |s.ph|
    requires CreatesFor(ApplyOps(s, ops[..j]).world, ops[j], x.index, e) && OthersOnly(ops, j + 1, m, x.index)
    requires ActsOn(ops[m], x)
    ensures ApplyOps(s, ops[..m + 1]).world == DoneTo(ApplyOps(s, ops[..m]).world, ops[m], e)
  {
    TableLength(s, ops[..j]);
    LastOp(s, ops, j);
    AfterCreating(ApplyOps(s, ops[..j]), ops[j], x.index, e);
    StaysBound(s, ops, j + 1, m, x.index, e);
    LastOp(s, ops, m);
  }

  /** An op on a real id is done to that id, and one on a placeholder for which nothing has been created
      changes nothing. */
  lemma StandsForItself(s: ApplyState, op: Op, x: EntityId)
    requires Inv(s.world) && ActsOn(op, x)
    requires Deferred(x) ==> x.index >= |s.ph| || s.ph[x.index] == INVALID_ENTITY
    ensures ApplyOp(s, op).world == if Deferred(x) then s.world else DoneTo(s.world, op, x)
  {
    assert !Holds(s.world, INVALID_ENTITY);
  }

  // ----- what a recorded create comes to -----

  /** Applying a create makes one entity, with the recorded components and immutability: under the next
      id of the allocator if it was recorded with a placeholder, and under its own id if it was recorded
      with a slot reserved for it. */
  lemma CreateMakesEntity(s: ApplyState, e: EntityId, sig: seq<nat>, vals: seq<Value>, immutable: bool)
    requires Inv(s.world) && ValidRow(sig, vals)
    requires e.gen >= 0x8000_0000 || (Unfinalised(s.world, e) && !s.world.slots[e.index].immutable)
    ensures var w, v := s.world, ApplyOp(s, CreateEntity(e, sig, vals, immutable)).world;
            var made := if e.gen >= 0x8000_0000 then ReservedId(w) else e;
            Meaning(v) == Meaning(w)[made := Entity(Components(sig, vals), immutable)]
  {
    var op := CreateEntity(e, sig, vals, immutable);
    OpRefines(s, op);
    var w, a := s.world, Abstract(s.world);
    if Deferred(e) {
      ReserveRefines(w);
      OneReservation(w);
      MadeFromPending(SpecReserve(a, ReservedId(w)), ReservedId(w), Components(sig, vals), immutable);
      NotElsewhere(ReserveSlot(w), ReservedId(w));
    } else {
      PendingAt(w, e);
      MadeFromPending(a, e, Components(sig, vals), immutable);
      NotElsewhere(w, e);
    }
  }

  /** Nobody else has the index of a pending entity. */
  lemma NotElsewhere(w: World, e: EntityId)
    requires Holds(w, e)
    ensures forall x :: x in Abstract(w).live && x.index == e.index ==> x == e
  {
    forall x | x in Abstract(w).live && x.index == e.index ensures x == e {
      OnlyHolder(w, e, x);
    }
  }

  lemma MadeFromPending(a: Store, e: EntityId, comps: map<nat, Value>, immutable: bool)
    requires e in a.pending && !a.pending[e] && forall x :: x in a.live && x.index == e.index ==> x == e
    ensures var b := SpecFinalise(a, e, comps);
            (if immutable then SpecStampIndex(b, e.index) else b).live == a.live[e := Entity(comps, immutable)]
  {
    var b := SpecFinalise(a, e, comps);
    if immutable {
      StoreRefinement.SameMap(SpecStampIndex(b, e.index).live, a.live[e := Entity(comps, immutable)]);
    }
  }
}
