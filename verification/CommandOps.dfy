/** The operations a command buffer queues, and what applying them does to a world. */
module CommandOps {
  import opened WorldStore
  import opened EntityOps

  datatype Op =
    | CreateEntity(eid: EntityId, sig: seq<nat>, vals: seq<Value>, immutable: bool)
    | CreateEntitiesBulk(eid: EntityId, reservedIds: seq<EntityId>, sig: seq<nat>, rows: seq<seq<Value>>,
                         immutable: bool)
    | DestroyEntity(eid: EntityId)
    | AddComponent(eid: EntityId, id: nat, val: Value)
    | RemoveComponent(eid: EntityId, id: nat)

  /** The signature recorded with a create is sorted, and there is a value per component. */
  ghost predicate ValidOp(op: Op) {
    match op
    case CreateEntity(_, sig, vals, _) => ValidRow(sig, vals)
    case CreateEntitiesBulk(eid, ids, sig, rows, _) =>
      && (forall i :: 0 <= i < |rows| ==> ValidRow(sig, rows[i]))
      && (!Deferred(eid) ==> |ids| == |rows| && DistinctIds(ids) && forall i :: 0 <= i < |ids| ==> !Deferred(ids[i]))
    case _ => true
  }

  ghost predicate ValidOps(ops: seq<Op>) {
    forall k :: 0 <= k < |ops| ==> ValidOp(ops[k])
  }

  ghost predicate DistinctIds(ids: seq<EntityId>) {
    forall i, j :: 0 <= i < j < |ids| ==> ids[i] != ids[j]
  }

  // ----- placeholders -----

  function Resolve(ph: seq<EntityId>, e: EntityId): EntityId {
    if !Deferred(e) then e else if e.index < |ph| then ph[e.index] else INVALID_ENTITY
  }

  function Bind(ph: seq<EntityId>, i: nat, e: EntityId): seq<EntityId> {
    if i < |ph| then ph[i := e] else ph
  }

  function BindAll(ph: seq<EntityId>, base: nat, ids: seq<EntityId>): (r: seq<EntityId>)
    ensures |r| == |ph|
  {
    if ids == [] then ph
    else Bind(BindAll(ph, base, ids[..|ids| - 1]), base + |ids| - 1, ids[|ids| - 1])
  }

  // ----- creating -----

  function StampIndex(w: World, i: nat): World {
    if i < |w.slots| then w.(slots := w.slots[i := w.slots[i].(immutable := true)]) else w
  }

  /** Stamps the slot only while this entity still holds it. */
  function StampHeld(w: World, e: EntityId): World {
    if e.index < |w.slots| && w.slots[e.index].alive && w.slots[e.index].gen == e.gen then StampIndex(w, e.index) else w
  }

  function StampAll(w: World, ids: seq<EntityId>): World {
    if ids == [] then w else StampHeld(StampAll(w, ids[..|ids| - 1]), ids[|ids| - 1])
  }

  function ReserveSlots(w: World, n: nat): World {
    if n == 0 then w else ReserveSlot(ReserveSlots(w, n - 1))
  }

  /** The ids handed out by n reservations, in order. */
  function ReservedIds(w: World, n: nat): (ids: seq<EntityId>)
    ensures |ids| == n
  {
    if n == 0 then [] else ReservedIds(w, n - 1) + [ReservedId(ReserveSlots(w, n - 1))]
  }

  function FinaliseAll(w: World, ids: seq<EntityId>, sig: seq<nat>, rows: seq<seq<Value>>): World
  {
    if ids == [] then w
    else
      var n := |ids| - 1;
      var before := FinaliseAll(w, ids[..n], sig, rows);
      if n < |rows| then Finalise(before, ids[n], sig, rows[n]) else before
  }

  datatype ApplyState = ApplyState(world: World, ph: seq<EntityId>)

  function ApplyCreate(s: ApplyState, eid: EntityId, sig: seq<nat>, vals: seq<Value>, immutable: bool): ApplyState {
    var t := if Deferred(eid) then ApplyState(ReserveSlot(s.world), Bind(s.ph, eid.index, ReservedId(s.world))) else s;
    var target := if Deferred(eid) then ReservedId(s.world) else eid;
    var w := Finalise(t.world, target, sig, vals);
    t.(world := if immutable then StampIndex(w, target.index) else w)
  }

  function ApplyBulk(s: ApplyState, eid: EntityId, reservedIds: seq<EntityId>, sig: seq<nat>, rows: seq<seq<Value>>,
                     immutable: bool): ApplyState
  {
    var n := |rows|;
    var ids := if Deferred(eid) then ReservedIds(s.world, n) else reservedIds;
    var t := if Deferred(eid) then ApplyState(ReserveSlots(s.world, n), BindAll(s.ph, eid.index, ids)) else s;
    var w := FinaliseAll(t.world, ids, sig, rows);
    t.(world := if immutable then StampAll(w, ids) else w)
  }

  function ApplyOp(s: ApplyState, op: Op): ApplyState
  {
    match op
    case CreateEntity(eid, sig, vals, imm) => ApplyCreate(s, eid, sig, vals, imm)
    case CreateEntitiesBulk(eid, ids, sig, rows, imm) => ApplyBulk(s, eid, ids, sig, rows, imm)
    case DestroyEntity(eid) => s.(world := Destroy(s.world, Resolve(s.ph, eid)))
    case AddComponent(eid, id, v) => s.(world := AddTo(s.world, Resolve(s.ph, eid), id, v))
    case RemoveComponent(eid, id) => s.(world := RemoveFrom(s.world, Resolve(s.ph, eid), id))
  }

  function ApplyOps(s: ApplyState, ops: seq<Op>): ApplyState
  {
    if ops == [] then s else ApplyOp(ApplyOps(s, ops[..|ops| - 1]), ops[|ops| - 1])
  }

  lemma LastOp(s: ApplyState, ops: seq<Op>, n: nat)
    requires n < |ops|
    ensures ApplyOps(s, ops[..n + 1]) == ApplyOp(ApplyOps(s, ops[..n]), ops[n])
  {
    assert ops[..n + 1][..n] == ops[..n];
  }
}
