/** Applying command buffers refines a plain map from entities to component maps. */
module StoreRefinement {
  import opened WorldStore
  import opened EntityOps
  import opened CommandOps

  /** live: the entities and their components; pending: the reserved ones, with the immutability
      they will have. */
  datatype Store = Store(live: map<EntityId, Entity>, pending: map<EntityId, bool>)

  ghost function PendingIds(w: World): (s: set<EntityId>)
    ensures forall e :: e in s <==> Unfinalised(w, e)
  {
    var s := set i: nat | i < |w.slots| && Unfinalised(w, IdAt(w, i)) :: IdAt(w, i);
    assert forall e :: Unfinalised(w, e) ==> e == IdAt(w, e.index);
    s
  }

  ghost function Pending(w: World): map<EntityId, bool> {
    map e | e in PendingIds(w) :: w.slots[e.index].immutable
  }

  ghost function Abstract(w: World): Store {
    Store(Meaning(w), Pending(w))
  }

  // ----- the plain store -----

  /** An id the allocator may hand out: not in use. */
  predicate Usable(a: Store, e: EntityId) {
    e !in a.live && e !in a.pending && !Deferred(e) && e.gen >= 1
  }

  function SpecReserve(a: Store, e: EntityId): Store {
    a.(pending := a.pending[e := false])
  }

  function SpecFinalise(a: Store, e: EntityId, comps: map<nat, Value>): Store {
    if e in a.pending then Store(a.live[e := Entity(comps, a.pending[e])], a.pending - {e}) else a
  }

  /** Whoever has this slot index becomes immutable. */
  function SpecStampIndex(a: Store, i: nat): Store {
    Store(map e | e in a.live :: if e.index == i then a.live[e].(immutable := true) else a.live[e],
          map e | e in a.pending :: if e.index == i then true else a.pending[e])
  }

  function SpecStampHeld(a: Store, e: EntityId): Store {
    if e in a.live then a.(live := a.live[e := a.live[e].(immutable := true)])
    else if e in a.pending then a.(pending := a.pending[e := true])
    else a
  }

  function SpecDestroy(a: Store, e: EntityId): Store {
    Store(a.live - {e}, a.pending - {e})
  }

  // ----- each primitive refines its specification -----

  lemma SamePending(w: World, v: World)
    requires forall x :: Unfinalised(v, x) <==> Unfinalised(w, x)
    requires forall x :: Unfinalised(w, x) && Unfinalised(v, x) ==>
             v.slots[x.index].immutable == w.slots[x.index].immutable
    ensures Pending(v) == Pending(w)
  {
    assert PendingIds(v) == PendingIds(w);
  }

  lemma ReservedStates(w: World)
    requires Inv(w)
    ensures forall x :: Unfinalised(ReserveSlot(w), x) <==> Unfinalised(w, x) || x == ReservedId(w)
    ensures forall x :: Unfinalised(w, x) ==> x != ReservedId(w) && ReserveSlot(w).slots[x.index] == w.slots[x.index]
    ensures !ReserveSlot(w).slots[ReservedId(w).index].immutable
  {
    ReserveInv(w);
    ReserveEffect(w);
  }

  lemma ReserveRefines(w: World)
    requires Inv(w)
    ensures Usable(Abstract(w), ReservedId(w))
    ensures Abstract(ReserveSlot(w)) == SpecReserve(Abstract(w), ReservedId(w))
  {
    ReserveInv(w);
    ReserveEffect(w);
    ReservedStates(w);
    SameMap(Pending(ReserveSlot(w)), Pending(w)[ReservedId(w) := false]);
  }

  lemma FinalisedStates(w: World, e: EntityId, sig: seq<nat>, vals: seq<Value>)
    requires Inv(w) && ValidRow(sig, vals) && Unfinalised(w, e)
    ensures PendingLess(w, Finalise(w, e, sig, vals), e)
  {
    FinaliseRows(w, e, sig, vals);
  }

  ghost predicate PendingLess(w: World, v: World, e: EntityId) {
    && (forall x :: Unfinalised(v, x) <==> Unfinalised(w, x) && x != e)
    && (forall x :: Unfinalised(w, x) && x != e ==> v.slots[x.index].immutable == w.slots[x.index].immutable)
  }

  lemma PendingDrops(w: World, v: World, e: EntityId)
    requires PendingLess(w, v, e)
    ensures Pending(v) == Pending(w) - {e}
  {
    SameMap(Pending(v), Pending(w) - {e});
  }

  lemma FinaliseRefines(w: World, e: EntityId, sig: seq<nat>, vals: seq<Value>)
    requires Inv(w) && ValidRow(sig, vals)
    ensures Abstract(Finalise(w, e, sig, vals)) == SpecFinalise(Abstract(w), e, Components(sig, vals))
  {
    FinaliseMeaning(w, e, sig, vals);
    PendingAt(w, e);
    if Unfinalised(w, e) {
      FinalisedStates(w, e, sig, vals);
      PendingDrops(w, Finalise(w, e, sig, vals), e);
    }
  }

  lemma StampStates(w: World, i: nat)
    ensures var v := StampIndex(w, i);
            && (forall x :: Live(v, x) <==> Live(w, x)) && (forall x :: Unfinalised(v, x) <==> Unfinalised(w, x))
            && (forall x :: Live(w, x) ==>
                EntityOf(v, x) == if x.index == i then EntityOf(w, x).(immutable := true) else EntityOf(w, x))
  {
  }

  lemma SameMap<V>(a: map<EntityId, V>, b: map<EntityId, V>)
    requires forall e :: e in a <==> e in b
    requires forall e :: e in a && e in b ==> a[e] == b[e]
    ensures a == b
  {
    assert a.Keys == b.Keys;
  }

  lemma StampMeaning(w: World, i: nat)
    ensures Meaning(StampIndex(w, i)) == SpecStampIndex(Abstract(w), i).live
  {
    var v := StampIndex(w, i);
    StampStates(w, i);
    var m, n := Meaning(v), SpecStampIndex(Abstract(w), i).live;
    forall e ensures e in m <==> e in n {
      assert e in m <==> Live(v, e);
      assert e in n <==> Live(w, e);
    }
    SameMap(m, n);
  }

  lemma PendingAt(w: World, e: EntityId)
    ensures e in Pending(w) <==> Unfinalised(w, e)
    ensures Unfinalised(w, e) ==> Pending(w)[e] == w.slots[e.index].immutable
  {
  }

  lemma StampPending(w: World, i: nat)
    ensures Pending(StampIndex(w, i)) == SpecStampIndex(Abstract(w), i).pending
  {
    var v := StampIndex(w, i);
    var m, n := Pending(v), SpecStampIndex(Abstract(w), i).pending;
    forall e
      ensures e in m <==> e in n
      ensures e in m && e in n ==> m[e] == n[e]
    {
      PendingAt(v, e);
      PendingAt(w, e);
    }
    SameMap(m, n);
  }

  lemma StampIndexRefines(w: World, i: nat)
    ensures Abstract(StampIndex(w, i)) == SpecStampIndex(Abstract(w), i)
  {
    StampMeaning(w, i);
    StampPending(w, i);
  }

  /** Nobody else has the index of an entity that holds its slot. */
  lemma OnlyHolder(w: World, e: EntityId, x: EntityId)
    requires Holds(w, e)
    ensures x in Meaning(w) && x.index == e.index ==> x == e
    ensures x in Pending(w) && x.index == e.index ==> x == e
  {
    PendingAt(w, x);
  }

  lemma StampIndexOfHolder(w: World, e: EntityId)
    requires Holds(w, e)
    ensures SpecStampIndex(Abstract(w), e.index) == SpecStampHeld(Abstract(w), e)
  {
    var live, pending := Meaning(w), Pending(w);
    PendingAt(w, e);
    forall x
      ensures x in live && x.index == e.index ==> x == e
      ensures x in pending && x.index == e.index ==> x == e
    {
      OnlyHolder(w, e, x);
    }
    StampOne(Store(live, pending), e);
  }

  lemma StampOne(a: Store, e: EntityId)
    requires (forall x :: x in a.live && x.index == e.index ==> x == e)
             && forall x :: x in a.pending && x.index == e.index ==> x == e
    requires !(e in a.live && e in a.pending)
    ensures SpecStampIndex(a, e.index) == SpecStampHeld(a, e)
  {
    var b, c := SpecStampIndex(a, e.index), SpecStampHeld(a, e);
    SameMap(b.live, c.live);
    SameMap(b.pending, c.pending);
  }

  lemma StampHeldRefines(w: World, e: EntityId)
    requires GenerationsOk(w)
    ensures Abstract(StampHeld(w, e)) == SpecStampHeld(Abstract(w), e)
  {
    if Holds(w, e) {
      StampIndexRefines(w, e.index);
      StampIndexOfHolder(w, e);
    }
  }

  lemma StampInverse(w: World, i: nat)
    requires Inverse(w)
    ensures Inverse(StampIndex(w, i))
  {
    var v := StampIndex(w, i);
    forall j: nat | j < |v.slots| && v.slots[j].alive && v.slots[j].place.Placed? ensures Seated(v, j) {
      assert Seated(w, j);
    }
    forall q | HasRow(v, q) ensures Owned(v, q) {
      assert Owned(w, q);
    }
  }

  lemma StampArchs(w: World, i: nat)
    requires ArchsOk(w)
    ensures ArchsOk(StampIndex(w, i))
  {
    forall a | 0 <= a < |w.archs| ensures ArchOk(StampIndex(w, i), w.archs[a]) {
      assert ArchOk(w, w.archs[a]);
    }
  }

  lemma StampInv(w: World, i: nat)
    requires Inv(w)
    ensures Inv(StampIndex(w, i))
  {
    StampInverse(w, i);
    StampArchs(w, i);
    var fl :| FreeChain(w, fl);
    FreeChainFrame(w, StampIndex(w, i), fl);
  }

  // ----- many entities at once -----

  function SpecReserveAll(a: Store, ids: seq<EntityId>): Store {
    if ids == [] then a else SpecReserve(SpecReserveAll(a, ids[..|ids| - 1]), ids[|ids| - 1])
  }

  function SpecFinaliseAll(a: Store, ids: seq<EntityId>, sig: seq<nat>, rows: seq<seq<Value>>): Store {
    if ids == [] then a
    else
      var n := |ids| - 1;
      var before := SpecFinaliseAll(a, ids[..n], sig, rows);
      if n < |rows| then SpecFinalise(before, ids[n], Components(sig, rows[n])) else before
  }

  function SpecStampAll(a: Store, ids: seq<EntityId>): Store {
    if ids == [] then a else SpecStampHeld(SpecStampAll(a, ids[..|ids| - 1]), ids[|ids| - 1])
  }

  /** Each id is usable when its turn comes. */
  predicate AllUsable(a: Store, ids: seq<EntityId>) {
    forall k :: 0 <= k < |ids| ==> Usable(SpecReserveAll(a, ids[..k]), ids[k])
  }

  lemma UsableSnoc(a: Store, ids: seq<EntityId>, e: EntityId)
    requires AllUsable(a, ids) && Usable(SpecReserveAll(a, ids), e)
    ensures AllUsable(a, ids + [e]) && SpecReserveAll(a, ids + [e]) == SpecReserve(SpecReserveAll(a, ids), e)
  {
    var longer := ids + [e];
    assert longer[..|ids|] == ids;
    forall k | 0 <= k < |longer| ensures Usable(SpecReserveAll(a, longer[..k]), longer[k]) {
      assert k < |ids| ==> longer[..k] == ids[..k];
    }
  }

  lemma {:induction false} ReserveAllRefines(w: World, n: nat)
    requires Inv(w)
    ensures Inv(ReserveSlots(w, n))
    ensures Abstract(ReserveSlots(w, n)) == SpecReserveAll(Abstract(w), ReservedIds(w, n))
    ensures AllUsable(Abstract(w), ReservedIds(w, n))
  {
    if n > 0 {
      ReserveAllRefines(w, n - 1);
      ReserveInv(ReserveSlots(w, n - 1));
      ReserveRefines(ReserveSlots(w, n - 1));
      UsableSnoc(Abstract(w), ReservedIds(w, n - 1), ReservedId(ReserveSlots(w, n - 1)));
    }
  }

  lemma {:induction false} FinaliseAllRefines(w: World, ids: seq<EntityId>, sig: seq<nat>, rows: seq<seq<Value>>)
    requires Inv(w) && forall i :: 0 <= i < |rows| ==> ValidRow(sig, rows[i])
    ensures var v := FinaliseAll(w, ids, sig, rows);
            Inv(v) && Abstract(v) == SpecFinaliseAll(Abstract(w), ids, sig, rows)
  {
    if ids != [] {
      var n := |ids| - 1;
      var before := FinaliseAll(w, ids[..n], sig, rows);
      FinaliseAllRefines(w, ids[..n], sig, rows);
      if n < |rows| {
        FinaliseInv(before, ids[n], sig, rows[n]);
        FinaliseRefines(before, ids[n], sig, rows[n]);
      }
    }
  }

  lemma {:induction false} StampAllRefines(w: World, ids: seq<EntityId>)
    requires Inv(w)
    ensures var v := StampAll(w, ids); Inv(v) && Abstract(v) == SpecStampAll(Abstract(w), ids)
  {
    if ids != [] {
      var before := StampAll(w, ids[..|ids| - 1]);
      StampAllRefines(w, ids[..|ids| - 1]);
      StampHeldRefines(before, ids[|ids| - 1]);
      StampInv(before, ids[|ids| - 1].index);
    }
  }

  lemma DestroyRefines(w: World, e: EntityId)
    requires Inv(w)
    ensures Abstract(Destroy(w, e)) == SpecDestroy(Abstract(w), e)
  {
    DestroyMeaning(w, e);
    DestroyPending(w, e);
  }

  lemma DestroyedStates(w: World, e: EntityId)
    requires Inv(w) && Holds(w, e)
    ensures var v := Destroy(w, e);
            && (forall x :: Unfinalised(v, x) <==> Unfinalised(w, x) && x != e)
            && (forall x :: Unfinalised(v, x) && Unfinalised(w, x) ==>
                v.slots[x.index].immutable == w.slots[x.index].immutable)
  {
    if Live(w, e) {
      DestroyRows(w, e);
      assert HasRow(w, PlaceOf(w, e)) && HasRow(w, VacatedPlace(w, e));
    }
    FreedStates(w, Destroy(w, e), e);
  }

  lemma DestroyPending(w: World, e: EntityId)
    requires Inv(w)
    ensures Pending(Destroy(w, e)) == Pending(w) - {e}
  {
    if Holds(w, e) {
      DestroyedStates(w, e);
    }
    SameMap(Pending(Destroy(w, e)), Pending(w) - {e});
  }

  /** Freeing e's slot and moving one live entity's row changes nothing for the pending ones. */
  lemma FreedStates(w: World, v: World, e: EntityId)
    requires Holds(w, e) && |v.slots| == |w.slots| && !v.slots[e.index].alive
    requires forall j :: 0 <= j < |w.slots| && j != e.index ==>
               v.slots[j].(place := w.slots[j].place) == w.slots[j]
               && (w.slots[j].alive ==> v.slots[j].place.Reserved? == w.slots[j].place.Reserved?)
    ensures forall x :: Unfinalised(v, x) <==> Unfinalised(w, x) && x != e
    ensures forall x :: Unfinalised(v, x) && Unfinalised(w, x) ==>
            v.slots[x.index].immutable == w.slots[x.index].immutable
  {
    forall j | 0 <= j < |w.slots| && j != e.index
      ensures v.slots[j].alive == w.slots[j].alive && v.slots[j].gen == w.slots[j].gen
              && v.slots[j].immutable == w.slots[j].immutable
    {
      assert v.slots[j].(place := w.slots[j].place) == w.slots[j];
    }
  }

  // ----- ops -----

  /** The plain store with the placeholder table of the buffer being applied. */
  datatype SpecState = SpecState(store: Store, ph: seq<EntityId>)

  ghost function AbstractState(s: ApplyState): SpecState {
    SpecState(Abstract(s.world), s.ph)
  }

  /** How many ids an op draws from the allocator. */
  function Draws(op: Op): nat {
    match op
    case CreateEntity(eid, _, _, _) => if Deferred(eid) then 1 else 0
    case CreateEntitiesBulk(eid, _, _, rows, _) => if Deferred(eid) then |rows| else 0
    case _ => 0
  }

  /** The op on the plain store, drawing the given ids. */
  function SpecApplyOp(t: SpecState, op: Op, drawn: seq<EntityId>): SpecState
    requires |drawn| == Draws(op)
  {
    match op
    case CreateEntity(eid, sig, vals, imm) =>
      var ids := if Deferred(eid) then drawn else [eid];
      var a := SpecFinalise(SpecReserveAll(t.store, drawn), ids[0], Components(sig, vals));
      SpecState(if imm then SpecStampIndex(a, ids[0].index) else a, BindAll(t.ph, eid.index, drawn))
    case CreateEntitiesBulk(eid, reserved, sig, rows, imm) =>
      var ids := if Deferred(eid) then drawn else reserved;
      var a := SpecFinaliseAll(SpecReserveAll(t.store, drawn), ids, sig, rows);
      SpecState(if imm then SpecStampAll(a, ids) else a, BindAll(t.ph, eid.index, drawn))
    case DestroyEntity(eid) => t.(store := SpecDestroy(t.store, Resolve(t.ph, eid)))
    case AddComponent(eid, id, v) => t.(store := t.store.(live := SpecAdd(t.store.live, Resolve(t.ph, eid), id, v)))
    case RemoveComponent(eid, id) => t.(store := t.store.(live := SpecRemove(t.store.live, Resolve(t.ph, eid), id)))
  }

  lemma MigratePending(w: World, e: EntityId, sig: seq<nat>, vals: seq<Value>)
    requires Inv(w) && Live(w, e) && ValidRow(sig, vals) && sig != CurrentSig(w, e)
    ensures Pending(Migrate(w, e, sig, vals)) == Pending(w)
  {
    MigrateRows(w, e, sig, vals);
    var v := Migrate(w, e, sig, vals);
    MovedStates(w, v, e, PlaceOf(w, e), VacatedPlace(w, e), PlaceOf(v, e));
    SamePending(w, v);
  }

  lemma MovedStates(w: World, v: World, e: EntityId, from: Place, last: Place, to: Place)
    requires Live(w, e) && SameFrame(w, v) && from.Placed? && last.Placed? && to.Placed?
             && SlotsMoved(w, v, e.index, from, last, to)
    ensures forall x :: Unfinalised(v, x) <==> Unfinalised(w, x)
    ensures forall x :: Unfinalised(w, x) && Unfinalised(v, x) ==>
            v.slots[x.index].immutable == w.slots[x.index].immutable
  {
  }

  lemma AddRefines(w: World, e: EntityId, id: nat, v: Value)
    requires Inv(w)
    ensures Abstract(AddTo(w, e, id, v)) == Abstract(w).(live := SpecAdd(Abstract(w).live, e, id, v))
  {
    AddMeaning(w, e, id, v);
    if Live(w, e) && !w.slots[e.index].immutable {
      CurrentRowValid(w, e);
      var sig, vals := CurrentSig(w, e), CurrentVals(w, e);
      if id in sig {
        SamePending(w, AddTo(w, e, id, v));
      } else {
        var target := InsertId(sig, id);
        Inserted(sig, id);
        MigratePending(w, e, target, TargetVals(sig, vals, target, id, v));
      }
    }
  }

  lemma RemoveRefines(w: World, e: EntityId, id: nat)
    requires Inv(w)
    ensures Abstract(RemoveFrom(w, e, id)) == Abstract(w).(live := SpecRemove(Abstract(w).live, e, id))
  {
    RemoveMeaning(w, e, id);
    if Live(w, e) && !w.slots[e.index].immutable {
      CurrentRowValid(w, e);
      var sig, vals := CurrentSig(w, e), CurrentVals(w, e);
      if id in sig && |sig| != 1 {
        RemoveTarget(sig, id);
        var target := RemoveId(sig, id);
        MigratePending(w, e, target, TargetVals(sig, vals, target, id, 0));
      }
    }
  }

  /** The ids an op draws in a given world. */
  function Drawn(w: World, op: Op): (ids: seq<EntityId>)
    ensures |ids| == Draws(op)
  {
    ReservedIds(w, Draws(op))
  }

  lemma OneReservation(w: World)
    ensures ReserveSlots(w, 1) == ReserveSlot(w) && ReservedIds(w, 1) == [ReservedId(w)]
  {
    assert ReserveSlots(w, 0) == w;
  }

  lemma BindOne(ph: seq<EntityId>, i: nat, e: EntityId)
    ensures BindAll(ph, i, [e]) == Bind(ph, i, e)
  {
    assert [e][..0] == [];
  }

  lemma CreateRefines(s: ApplyState, op: Op)
    requires Inv(s.world) && ValidOp(op) && op.CreateEntity?
    ensures Inv(ApplyOp(s, op).world)
    ensures AbstractState(ApplyOp(s, op)) == SpecApplyOp(AbstractState(s), op, Drawn(s.world, op))
  {
    var n := Draws(op);
    var w := ReserveSlots(s.world, n);
    OneReservation(s.world);
    BindOne(s.ph, op.eid.index, ReservedId(s.world));
    ReserveAllRefines(s.world, n);
    var e := if Deferred(op.eid) then ReservedId(s.world) else op.eid;
    FinaliseInv(w, e, op.sig, op.vals);
    FinaliseRefines(w, e, op.sig, op.vals);
    StampInv(Finalise(w, e, op.sig, op.vals), e.index);
    StampIndexRefines(Finalise(w, e, op.sig, op.vals), e.index);
  }

  lemma BulkRefines(s: ApplyState, op: Op)
    requires Inv(s.world) && ValidOp(op) && op.CreateEntitiesBulk?
    ensures Inv(ApplyOp(s, op).world)
    ensures AbstractState(ApplyOp(s, op)) == SpecApplyOp(AbstractState(s), op, Drawn(s.world, op))
  {
    var n := Draws(op);
    var w := ReserveSlots(s.world, n);
    ReserveAllRefines(s.world, n);
    var ids := if Deferred(op.eid) then ReservedIds(s.world, n) else op.reservedIds;
    FinaliseAllRefines(w, ids, op.sig, op.rows);
    StampAllRefines(FinaliseAll(w, ids, op.sig, op.rows), ids);
  }

  /** Every op keeps the store invariant and does to the entity map what its specification says,
      with ids that are not in use. */
  lemma OpRefines(s: ApplyState, op: Op)
    requires Inv(s.world) && ValidOp(op)
    ensures Inv(ApplyOp(s, op).world) && AllUsable(Abstract(s.world), Drawn(s.world, op))
    ensures AbstractState(ApplyOp(s, op)) == SpecApplyOp(AbstractState(s), op, Drawn(s.world, op))
  {
    ReserveAllRefines(s.world, Draws(op));
    var e := Resolve(s.ph, op.eid);
    match op
    case CreateEntity(_, _, _, _) => CreateRefines(s, op);
    case CreateEntitiesBulk(_, _, _, _, _) => BulkRefines(s, op);
    case DestroyEntity(_) => DestroyRefines(s.world, e); DestroyInv(s.world, e);
    case AddComponent(_, id, v) => AddRefines(s.world, e, id, v); AddInv(s.world, e, id, v);
    case RemoveComponent(_, id) => RemoveRefines(s.world, e, id); RemoveInv(s.world, e, id);
  }

  /** The ids each op of a run draws. */
  function DrawnAll(s: ApplyState, ops: seq<Op>): (ids: seq<seq<EntityId>>)
    ensures |ids| == |ops| && forall k :: 0 <= k < |ops| ==> |ids[k]| == Draws(ops[k])
  {
    if ops == [] then []
    else
      var n := |ops| - 1;
      DrawnAll(s, ops[..n]) + [Drawn(ApplyOps(s, ops[..n]).world, ops[n])]
  }

  function SpecApplyOps(t: SpecState, ops: seq<Op>, drawn: seq<seq<EntityId>>): SpecState
    requires |drawn| == |ops| && forall k :: 0 <= k < |ops| ==> |drawn[k]| == Draws(ops[k])
  {
    if ops == [] then t
    else
      var n := |ops| - 1;
      SpecApplyOp(SpecApplyOps(t, ops[..n], drawn[..n]), ops[n], drawn[n])
  }

  /** Applying a buffer refines the same ops on the plain store. */
  lemma {:induction false} ApplyRefines(s: ApplyState, ops: seq<Op>)
    requires Inv(s.world) && ValidOps(ops)
    ensures Inv(ApplyOps(s, ops).world)
    ensures AbstractState(ApplyOps(s, ops)) == SpecApplyOps(AbstractState(s), ops, DrawnAll(s, ops))
  {
    if ops != [] {
      var n := |ops| - 1;
      ApplyRefines(s, ops[..n]);
      OpRefines(ApplyOps(s, ops[..n]), ops[n]);
    }
  }
}
