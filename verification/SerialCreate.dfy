/** Batches whose slots were reserved while recording: when a bulk create is its single creates. */
module SerialCreate {
  import opened WorldStore
  import opened EntityOps
  import opened CommandOps
  import opened BulkCreate
  import opened StoreRefinement

  function SerialSingles(ids: seq<EntityId>, sig: seq<nat>, rows: seq<seq<Value>>, immutable: bool): (ops: seq<Op>)
    requires |ids| == |rows|
    ensures |ops| == |rows|
  {
    seq(|rows|, k requires 0 <= k < |rows| => CreateEntity(ids[k], sig, rows[k], immutable))
  }

  function StampIndices(w: World, ids: seq<EntityId>): World {
    if ids == [] then w else StampIndex(StampIndices(w, ids[..|ids| - 1]), ids[|ids| - 1].index)
  }

  lemma StampedIndexSlots(w: World, i: nat, k: nat, p: Place)
    ensures Reseat(StampIndex(w, i).slots, k, p) == StampIndex(w.(slots := Reseat(w.slots, k, p)), i).slots
  {
  }

  lemma FinaliseStampIndexCommute(w: World, e: EntityId, sig: seq<nat>, vals: seq<Value>, i: nat)
    ensures Finalise(StampIndex(w, i), e, sig, vals) == StampIndex(Finalise(w, e, sig, vals), i)
  {
    assert Unfinalised(StampIndex(w, i), e) == Unfinalised(w, e);
    if Unfinalised(w, e) {
      StampedIndexSlots(w, i, e.index, NewPlace(FindOrCreate(w, sig), ArchIndex(w, sig)));
    }
  }

  lemma {:induction false} FinaliseStampIndicesCommute(w: World, e: EntityId, sig: seq<nat>, vals: seq<Value>,
                                                       ids: seq<EntityId>)
    ensures Finalise(StampIndices(w, ids), e, sig, vals) == StampIndices(Finalise(w, e, sig, vals), ids)
  {
    if ids != [] {
      var n := |ids| - 1;
      FinaliseStampIndicesCommute(w, e, sig, vals, ids[..n]);
      FinaliseStampIndexCommute(StampIndices(w, ids[..n]), e, sig, vals, ids[n].index);
    }
  }

  lemma {:induction false} SerialSinglesWorld(s: ApplyState, ids: seq<EntityId>, n: nat, sig: seq<nat>,
                                              rows: seq<seq<Value>>,
                                              immutable: bool)
    requires |ids| == |rows| && n <= |rows| && forall k :: 0 <= k < |ids| ==> !Deferred(ids[k])
    ensures var made := FinaliseAll(s.world, ids[..n], sig, rows);
            ApplyOps(s, SerialSingles(ids, sig, rows, immutable)[..n]) ==
            s.(world := if immutable then StampIndices(made, ids[..n]) else made)
  {
    var ops := SerialSingles(ids, sig, rows, immutable);
    if n > 0 {
      SerialSinglesWorld(s, ids, n - 1, sig, rows, immutable);
      assert ops[..n][..n - 1] == ops[..n - 1] && ids[..n][..n - 1] == ids[..n - 1];
      if immutable {
        FinaliseStampIndicesCommute(FinaliseAll(s.world, ids[..n - 1], sig, rows), ids[n - 1], sig, rows[n - 1],
                                    ids[..n - 1]);
      }
    }
  }

  predicate HasIndex(ids: seq<EntityId>, i: nat) {
    exists k :: 0 <= k < |ids| && ids[k].index == i
  }

  predicate HasHolder(w: World, ids: seq<EntityId>, i: nat) {
    exists k :: 0 <= k < |ids| && ids[k].index == i && i < |w.slots| && w.slots[i].alive && w.slots[i].gen == ids[k].gen
  }

  lemma HasIndexSnoc(ids: seq<EntityId>, i: nat)
    requires ids != []
    ensures HasIndex(ids, i) <==> HasIndex(ids[..|ids| - 1], i) || ids[|ids| - 1].index == i
  {
    var n := |ids| - 1;
    if HasIndex(ids[..n], i) {
      var k :| 0 <= k < n && ids[..n][k].index == i;
      assert ids[k].index == i;
    }
    if HasIndex(ids, i) && ids[n].index != i {
      var k :| 0 <= k < |ids| && ids[k].index == i;
      assert ids[..n][k].index == i;
    }
  }

  lemma {:induction false} StampedIndices(w: World, ids: seq<EntityId>)
    ensures var v := StampIndices(w, ids);
            && v == w.(slots := v.slots) && |v.slots| == |w.slots|
            && (forall i: nat :: i < |w.slots| ==>
                v.slots[i] == w.slots[i].(immutable := w.slots[i].immutable || HasIndex(ids, i)))
  {
    if ids != [] {
      var n := |ids| - 1;
      StampedIndices(w, ids[..n]);
      var v := StampIndices(w, ids);
      forall i: nat | i < |w.slots|
        ensures v.slots[i] == w.slots[i].(immutable := w.slots[i].immutable || HasIndex(ids, i))
      {
        HasIndexSnoc(ids, i);
      }
    }
  }

  lemma HasHolderSnoc(w: World, ids: seq<EntityId>, i: nat)
    requires ids != [] && i < |w.slots|
    ensures var last := ids[|ids| - 1];
            HasHolder(w, ids, i) <==>
            HasHolder(w, ids[..|ids| - 1], i) || (last.index == i && w.slots[i].alive && w.slots[i].gen == last.gen)
  {
    var n := |ids| - 1;
    if HasHolder(w, ids[..n], i) {
      var k :| 0 <= k < n && ids[..n][k].index == i && w.slots[i].alive && w.slots[i].gen == ids[..n][k].gen;
      assert ids[k].index == i;
    }
    if HasHolder(w, ids, i) {
      var k :| 0 <= k < |ids| && ids[k].index == i && w.slots[i].alive && w.slots[i].gen == ids[k].gen;
      assert k < n ==> ids[..n][k].index == i && w.slots[i].gen == ids[..n][k].gen;
    }
  }

  lemma {:induction false} StampedHolders(w: World, ids: seq<EntityId>)
    ensures var v := StampAll(w, ids);
            && v == w.(slots := v.slots) && |v.slots| == |w.slots|
            && (forall i: nat :: i < |w.slots| ==>
                v.slots[i] == w.slots[i].(immutable := w.slots[i].immutable || HasHolder(w, ids, i)))
  {
    if ids != [] {
      var n := |ids| - 1;
      StampedHolders(w, ids[..n]);
      var v := StampAll(w, ids);
      forall i: nat | i < |w.slots|
        ensures v.slots[i] == w.slots[i].(immutable := w.slots[i].immutable || HasHolder(w, ids, i))
      {
        HasHolderSnoc(w, ids, i);
      }
    }
  }

  // ----- what an observer sees of the difference -----

  lemma FinaliseAllFlags(w: World, ids: seq<EntityId>, sig: seq<nat>, rows: seq<seq<Value>>)
    ensures var v := FinaliseAll(w, ids, sig, rows);
            |v.slots| == |w.slots| && forall i :: 0 <= i < |w.slots| ==> v.slots[i].immutable == w.slots[i].immutable
  {
  }

  /** Entity x, which is not of the batch, now has a slot that the batch names, and may still change. */
  predicate Stranger(w: World, ids: seq<EntityId>, x: EntityId) {
    Holds(w, x) && HasIndex(ids, x.index) && x !in ids && !w.slots[x.index].immutable
  }

  /** Worlds that differ at most in what dead slots remember. */
  ghost predicate AlikeAlive(u: World, v: World) {
    && v == u.(slots := v.slots) && |v.slots| == |u.slots|
    && forall i :: 0 <= i < |u.slots| ==>
      u.slots[i].alive == v.slots[i].alive && (u.slots[i].alive ==> u.slots[i] == v.slots[i])
  }

  lemma AlikeStates(u: World, v: World)
    requires AlikeAlive(u, v)
    ensures forall x :: Holds(u, x) <==> Holds(v, x)
    ensures forall x :: Holds(u, x) ==> u.slots[x.index] == v.slots[x.index]
  {
  }

  lemma AlikeAbstract(u: World, v: World)
    requires AlikeAlive(u, v)
    ensures Abstract(u) == Abstract(v)
  {
    AlikeStates(u, v);
    SameMeaning(v, u);
    SamePending(v, u);
  }

  /** A mutable holder of a slot is seen to differ from an immutable one. */
  lemma FlagShows(u: World, v: World, x: EntityId)
    requires Holds(u, x) && Holds(v, x) && u.slots[x.index].place == v.slots[x.index].place
    requires !u.slots[x.index].immutable && v.slots[x.index].immutable
    ensures Abstract(u) != Abstract(v)
  {
    if Live(u, x) {
      assert x in Meaning(u) && x in Meaning(v);
      assert !Meaning(u)[x].immutable && Meaning(v)[x].immutable;
    } else {
      PendingAt(u, x);
      PendingAt(v, x);
      assert Pending(u)[x] != Pending(v)[x];
    }
  }

  lemma HolderOfBatch(w: World, ids: seq<EntityId>, i: nat)
    requires i < |w.slots| && w.slots[i].alive && GenerationsOk(w)
    ensures Holds(w, IdAt(w, i)) && (HasHolder(w, ids, i) <==> IdAt(w, i) in ids)
  {
    if HasHolder(w, ids, i) {
      var k :| 0 <= k < |ids| && ids[k].index == i && w.slots[i].gen == ids[k].gen;
      assert ids[k] == IdAt(w, i);
    }
  }

  lemma StampsAlike(w: World, ids: seq<EntityId>)
    requires GenerationsOk(w) && forall x :: !Stranger(w, ids, x)
    ensures AlikeAlive(StampAll(w, ids), StampIndices(w, ids))
  {
    StampedIndices(w, ids);
    StampedHolders(w, ids);
    var u, v := StampAll(w, ids), StampIndices(w, ids);
    forall i: nat | i < |w.slots| && w.slots[i].alive ensures u.slots[i] == v.slots[i] {
      HolderOfBatch(w, ids, i);
      assert !Stranger(w, ids, IdAt(w, i));
    }
  }

  lemma StampsDiffer(w: World, ids: seq<EntityId>, x: EntityId)
    requires GenerationsOk(w) && Stranger(w, ids, x)
    ensures Abstract(StampAll(w, ids)) != Abstract(StampIndices(w, ids))
  {
    StampedIndices(w, ids);
    StampedHolders(w, ids);
    assert x == IdAt(w, x.index);
    HolderOfBatch(w, ids, x.index);
    FlagShows(StampAll(w, ids), StampIndices(w, ids), x);
  }

  /** Finalising moves no slot to another holder. */
  lemma SameStrangers(w: World, made: World, ids: seq<EntityId>, x: EntityId)
    requires SameSlotStates(w, made)
             && forall i :: 0 <= i < |w.slots| ==> made.slots[i].immutable == w.slots[i].immutable
    ensures Stranger(w, ids, x) <==> Stranger(made, ids, x)
  {
  }

  /** On slots reserved when recording, the bulk create and the loop of single creates leave the
      same store exactly if the batch is mutable or no slot it names now belongs to another entity
      that may still change: only the bulk branch re-checks who holds the slot before it stamps. */
  lemma SerialBulkIsSingles(s: ApplyState, eid: EntityId, ids: seq<EntityId>, sig: seq<nat>, rows: seq<seq<Value>>,
                            immutable: bool)
    requires GenerationsOk(s.world) && |ids| == |rows| && !Deferred(eid)
             && forall k :: 0 <= k < |ids| ==> !Deferred(ids[k])
    ensures AbstractState(ApplyOp(s, CreateEntitiesBulk(eid, ids, sig, rows, immutable))) ==
            AbstractState(ApplyOps(s, SerialSingles(ids, sig, rows, immutable)))
            <==> !immutable || forall x :: !Stranger(s.world, ids, x)
  {
    var ops := SerialSingles(ids, sig, rows, immutable);
    assert ops[..|rows|] == ops && ids[..|rows|] == ids;
    SerialSinglesWorld(s, ids, |rows|, sig, rows, immutable);
    if immutable {
      BatchStamps(s.world, ids, sig, rows);
    }
  }

  lemma BatchStamps(w: World, ids: seq<EntityId>, sig: seq<nat>, rows: seq<seq<Value>>)
    requires GenerationsOk(w)
    ensures var made := FinaliseAll(w, ids, sig, rows);
            Abstract(StampAll(made, ids)) == Abstract(StampIndices(made, ids)) <==> forall x :: !Stranger(w, ids, x)
  {
    var made := FinaliseAll(w, ids, sig, rows);
    FinaliseAllStates(w, ids, sig, rows);
    FinaliseAllFlags(w, ids, sig, rows);
    forall x ensures Stranger(w, ids, x) <==> Stranger(made, ids, x) {
      SameStrangers(w, made, ids, x);
    }
    if x :| Stranger(w, ids, x) {
      StampsDiffer(made, ids, x);
    } else {
      StampsAlike(made, ids);
      AlikeAbstract(StampAll(made, ids), StampIndices(made, ids));
    }
  }

  /** The family where they differ: a single immutable create whose reserved slot now belongs to
      another entity makes that entity immutable; the bulk create of one row leaves it alone. */
  lemma SingleStampHitsStranger(s: ApplyState, e: EntityId, stranger: EntityId, sig: seq<nat>, vals: seq<Value>)
    requires Inv(s.world) && Live(s.world, stranger) && !Deferred(e) && e.index == stranger.index && e != stranger
    ensures var after := ApplyOp(s, CreateEntity(e, sig, vals, true)).world;
            Meaning(after) == Meaning(s.world)[stranger := Meaning(s.world)[stranger].(immutable := true)]
    ensures ApplyOp(s, CreateEntitiesBulk(INVALID_ENTITY, [e], sig, [vals], true)).world == s.world
  {
    var w := s.world;
    var after := ApplyOp(s, CreateEntity(e, sig, vals, true)).world;
    assert after == StampIndex(w, e.index);
    assert Live(after, stranger) && EntityOf(after, stranger) == EntityOf(w, stranger).(immutable := true);
    MeaningUpdated(w, after, stranger);
    assert FinaliseAll(w, [], sig, [vals]) == w;
    assert FinaliseAll(w, [e], sig, [vals]) == w by {
      assert [e][..0] == [];
    }
    assert StampAll(w, [e]) == w by {
      assert [e][..0] == [];
    }
  }
}
