/** Immutable entities keep their components for as long as they live, and no entity is ever left
    without any. */
module Immutability {
  import opened WorldStore
  import opened EntityOps
  import opened CommandOps
  import opened StoreRefinement

  /** e is live, immutable and has exactly these components. */
  predicate Frozen(a: Store, e: EntityId, x: Entity) {
    e in a.live && a.live[e] == x && x.immutable && e !in a.pending
  }

  lemma {:induction false} ReserveAllFrozen(a: Store, ids: seq<EntityId>, e: EntityId, x: Entity)
    requires Frozen(a, e, x) && AllUsable(a, ids)
    ensures Frozen(SpecReserveAll(a, ids), e, x)
  {
    if ids != [] {
      var n := |ids| - 1;
      forall k | 0 <= k < n ensures Usable(SpecReserveAll(a, ids[..n][..k]), ids[..n][k]) {
        assert ids[..n][..k] == ids[..k];
      }
      ReserveAllFrozen(a, ids[..n], e, x);
      assert Usable(SpecReserveAll(a, ids[..n]), ids[n]);
    }
  }

  lemma {:induction false} FinaliseAllFrozen(a: Store, ids: seq<EntityId>, sig: seq<nat>, rows: seq<seq<Value>>,
                                             e: EntityId, x: Entity)
    requires Frozen(a, e, x)
    ensures Frozen(SpecFinaliseAll(a, ids, sig, rows), e, x)
  {
    if ids != [] {
      FinaliseAllFrozen(a, ids[..|ids| - 1], sig, rows, e, x);
    }
  }

  lemma {:induction false} StampAllFrozen(a: Store, ids: seq<EntityId>, e: EntityId, x: Entity)
    requires Frozen(a, e, x)
    ensures Frozen(SpecStampAll(a, ids), e, x)
  {
    if ids != [] {
      StampAllFrozen(a, ids[..|ids| - 1], e, x);
    }
  }

  predicate Destroys(t: SpecState, op: Op, e: EntityId) {
    op.DestroyEntity? && Resolve(t.ph, op.eid) == e
  }

  /** An immutable entity can only be destroyed, never changed. */
  lemma FrozenStep(t: SpecState, op: Op, drawn: seq<EntityId>, e: EntityId, x: Entity)
    requires |drawn| == Draws(op) && AllUsable(t.store, drawn) && Frozen(t.store, e, x)
    ensures var after := SpecApplyOp(t, op, drawn).store;
            if Destroys(t, op, e) then e !in after.live else Frozen(after, e, x)
  {
    ReserveAllFrozen(t.store, drawn, e, x);
    match op
    case CreateEntitiesBulk(eid, reserved, sig, rows, imm) =>
      var ids := if Deferred(eid) then drawn else reserved;
      var a := SpecReserveAll(t.store, drawn);
      FinaliseAllFrozen(a, ids, sig, rows, e, x);
      StampAllFrozen(SpecFinaliseAll(a, ids, sig, rows), ids, e, x);
    case _ =>
  }

  lemma LiveFrozen(w: World, e: EntityId)
    requires Live(w, e) && w.slots[e.index].immutable
    ensures Frozen(Abstract(w), e, EntityOf(w, e))
  {
    assert e !in PendingIds(w);
  }

  /** e is live in w, immutable, and x is what it carries. */
  predicate Carries(w: World, e: EntityId, x: Entity) {
    Live(w, e) && EntityOf(w, e) == x && x.immutable
  }

  lemma ImmutableStep(s: ApplyState, op: Op, e: EntityId, x: Entity)
    requires Inv(s.world) && ValidOp(op) && Carries(s.world, e, x)
    ensures var v := ApplyOp(s, op).world;
            if op.DestroyEntity? && Resolve(s.ph, op.eid) == e then !Live(v, e) else Carries(v, e, x)
  {
    LiveFrozen(s.world, e);
    OpRefines(s, op);
    FrozenStep(AbstractState(s), op, Drawn(s.world, op), e, x);
    var v := ApplyOp(s, op).world;
    assert Live(v, e) <==> e in Abstract(v).live;
  }

  ghost predicate NeverDestroyed(s: ApplyState, ops: seq<Op>, e: EntityId) {
    forall k :: 0 <= k < |ops| ==> !DestroyedAt(s, ops, k, e)
  }

  lemma NeverDestroyedPrefix(s: ApplyState, ops: seq<Op>, e: EntityId)
    requires ops != [] && NeverDestroyed(s, ops, e)
    ensures NeverDestroyed(s, ops[..|ops| - 1], e)
  {
    var front := ops[..|ops| - 1];
    forall k | 0 <= k < |front| ensures !DestroyedAt(s, front, k, e) {
      assert front[..k] == ops[..k];
      assert !DestroyedAt(s, ops, k, e);
    }
  }

  /** Over any run of ops that does not destroy it, an immutable entity keeps exactly the
      components it has. */
  lemma {:induction false} ImmutableForLife(s: ApplyState, ops: seq<Op>, e: EntityId, x: Entity)
    requires Inv(s.world) && ValidOps(ops) && Carries(s.world, e, x) && NeverDestroyed(s, ops, e)
    ensures Carries(ApplyOps(s, ops).world, e, x)
  {
    if ops != [] {
      var n := |ops| - 1;
      NeverDestroyedPrefix(s, ops, e);
      ImmutableForLife(s, ops[..n], e, x);
      ApplyRefines(s, ops[..n]);
      assert !DestroyedAt(s, ops, n, e);
      ImmutableStep(ApplyOps(s, ops[..n]), ops[n], e, x);
    }
  }

  /** The k-th op destroys e. */
  predicate DestroyedAt(s: ApplyState, ops: seq<Op>, k: nat, e: EntityId)
    requires k < |ops|
  {
    ops[k].DestroyEntity? && Resolve(ApplyOps(s, ops[..k]).ph, ops[k].eid) == e
  }

  /** After any run of ops every live entity carries at least one component. */
  lemma NeverEmpty(s: ApplyState, ops: seq<Op>, e: EntityId)
    requires Inv(s.world) && ValidOps(ops) && Live(ApplyOps(s, ops).world, e)
    ensures EntityOf(ApplyOps(s, ops).world, e).comps != map[]
  {
    ApplyRefines(s, ops);
    var w := ApplyOps(s, ops).world;
    CurrentRowValid(w, e);
    LiveMeaning(w, e);
    assert CurrentSig(w, e)[0] in CurrentSig(w, e);
    assert CurrentSig(w, e)[0] in Meaning(w)[e].comps;
  }
}
