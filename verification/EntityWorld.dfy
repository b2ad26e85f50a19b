/** The World object, whose methods update its slot table and archetypes in place. */
module EntityWorld {
  import opened Chunks
  import opened WorldStore
  import opened EntityOps
  import opened CommandOps
  import opened BulkFinalise
  import opened StoreRefinement

  class EcsWorld {
    var slots: seq<Slot>
    var firstFree: nat
    var hasFree: bool
    var archs: seq<Archetype>
    var bySig: map<seq<nat>, nat>
    const capacityOf: seq<nat> -> nat

    ghost function State(): World
      reads this
    {
      World(slots, firstFree, hasFree, archs, bySig, capacityOf)
    }

    ghost predicate Valid()
      reads this
    {
      Inv(State())
    }

    constructor (capacityOf: seq<nat> -> nat)
      requires forall s :: capacityOf(s) >= 1
      ensures Valid() && Meaning(State()) == map[] && this.capacityOf == capacityOf
    {
      this.capacityOf := capacityOf;
      slots, firstFree, hasFree := [], 0, false;
      archs, bySig := [], map[];
      new;
      assert FreeChain(State(), []);
    }

    /** A held slot that claims archetype 0 until its reserver says otherwise. */
    method AllocateEntitySlot() returns (e: EntityId)
      requires Valid()
      modifies this`slots, this`firstFree, this`hasFree
      ensures e == ReservedId(old(State())) && forall i: nat :: i < |old(slots)| ==> e != EntityId(i, old(slots)[i].gen)
      ensures e.index < |slots|
              && State().(slots := slots[e.index := slots[e.index].(place := Reserved)]) == ReserveSlot(old(State()))
    {
      ghost var w := State();
      ReserveEffect(w);
      forall i: nat | i < |slots| ensures ReservedId(w) != EntityId(i, slots[i].gen) {
        ReservedIdIsNew(w, i);
      }
      var index;
      if hasFree {
        FirstFreeInRange(w);
        index := firstFree;
        var slot := slots[index];
        hasFree := slot.nextFree != index;
        firstFree := slot.nextFree;
        var gen := slot.gen + 1;
        if gen >= DEFERRED_GENERATION_BIT {
          gen := 1;
        }
        slots := slots[index := Slot(Placed(0, RowLocation(0, 0)), gen, slot.nextFree, true, false)];
      } else {
        index := |slots|;
        slots := slots + [Slot(Placed(0, RowLocation(0, 0)), 1, 0, true, false)];
      }
      e := EntityId(index, slots[index].gen);
      assert slots[index := slots[index].(place := Reserved)] == ReserveSlot(w).slots;
    }

    method ReserveEntitySlot() returns (e: EntityId)
      requires Valid()
      modifies this`slots, this`firstFree, this`hasFree
      ensures Valid() && State() == ReserveSlot(old(State())) && e == ReservedId(old(State()))
      ensures forall i: nat :: i < |old(slots)| ==> e != EntityId(i, old(slots)[i].gen)
    {
      ghost var w := State();
      ReserveInv(w);
      e := AllocateEntitySlot();
      slots := slots[e.index := slots[e.index].(place := Reserved)];
    }

    method FindOrCreateArchetype(sig: seq<nat>) returns (index: nat)
      modifies this`archs, this`bySig
      ensures State() == FindOrCreate(old(State()), sig) && index == ArchIndex(old(State()), sig)
    {
      if sig in bySig {
        return bySig[sig];
      }
      index := |archs|;
      archs := archs + [Archetype(sig, capacityOf(sig), [])];
      bySig := bySig[sig := index];
    }

    /** reserve_row, with the row's entity id and values filled in. */
    method AppendRow(a: nat, row: Row) returns (at: RowLocation)
      requires a < |archs|
      modifies this`archs
      ensures State() == PushRow(old(State()), a, row) && Placed(a, at) == NewPlace(old(State()), a)
    {
      var chunks: seq<seq<Row>> := archs[a].chunks;
      if chunks == [] || |chunks[|chunks| - 1]| >= archs[a].cap {
        chunks := chunks + [[]];
      }
      var c := |chunks| - 1;
      at := RowLocation(c, |chunks[c]|);
      chunks := chunks[c := chunks[c] + [row]];
      assert [] + [row] == [row];
      assert chunks == Push(archs[a].chunks, archs[a].cap, row);
      archs := archs[a := archs[a].(chunks := chunks)];
    }

    method FinalizeReservedEntity(e: EntityId, sig: seq<nat>, vals: seq<Value>)
      requires Valid() && ValidRow(sig, vals)
      modifies this`slots, this`archs, this`bySig
      ensures Valid() && State() == Finalise(old(State()), e, sig, vals)
    {
      if e.index >= |slots| {
        return;
      }
      var slot := slots[e.index];
      if !slot.alive || slot.gen != e.gen {
        return;
      }
      if slot.place.Placed? {
        return;
      }
      HeldByGeneration(State(), e);
      FinaliseInv(State(), e, sig, vals);
      FindOrCreateOk(State(), sig);
      var a := FindOrCreateArchetype(sig);
      var at := AppendRow(a, Row(e, vals));
      slots := slots[e.index := slots[e.index].(place := Placed(a, at))];
    }

    method CompactArchetypeAfterExternalMove(a: nat, at: RowLocation)
      requires ArchsOk(State()) && HasRow(State(), Placed(a, at))
      requires forall p :: HasRow(State(), p) ==> RowAt(State(), p).eid.index < |slots|
      modifies this`slots, this`archs
      ensures State() == Compact(old(State()), Placed(a, at))
    {
      assert ArchOk(State(), archs[a]);
      var chunks: seq<seq<Row>> := archs[a].chunks;
      var lastChunk := |chunks| - 1;
      var lastRow := |chunks[lastChunk]| - 1;
      var same := at.chunk == lastChunk && at.row == lastRow;
      assert HasRow(State(), Placed(a, RowLocation(lastChunk, lastRow)));
      if !same {
        var moved: Row := chunks[lastChunk][lastRow];
        slots := slots[moved.eid.index := slots[moved.eid.index].(place := Placed(a, at))];
        chunks := chunks[at.chunk := chunks[at.chunk][at.row := moved]];
      }
      chunks := chunks[lastChunk := chunks[lastChunk][..lastRow]];
      if chunks[|chunks| - 1] == [] {
        chunks := chunks[..|chunks| - 1];
      }
      assert chunks == SwapPop(archs[a].chunks, at);
      archs := archs[a := archs[a].(chunks := chunks)];
    }

    /** Puts a held slot back on the free list. */
    method ReleaseSlot(i: nat)
      requires i < |slots|
      modifies this`slots, this`firstFree, this`hasFree
      ensures State() == FreeSlot(old(State()), i)
    {
      slots := slots[i := slots[i].(alive := false, nextFree := if hasFree then firstFree else i)];
      firstFree, hasFree := i, true;
    }

    method DropReservedSlot(e: EntityId)
      requires !Deferred(e)
      modifies this`slots, this`firstFree, this`hasFree
      ensures State() == if Unfinalised(old(State()), e) then FreeSlot(old(State()), e.index) else old(State())
    {
      if e.index >= |slots| {
        return;
      }
      var slot := slots[e.index];
      if !slot.alive || slot.gen != e.gen || slot.place.Placed? {
        return;
      }
      ReleaseSlot(e.index);
    }

    method DestroyEntity(e: EntityId)
      requires Valid()
      modifies this`slots, this`firstFree, this`hasFree, this`archs
      ensures Valid() && State() == Destroy(old(State()), e)
    {
      ghost var w := State();
      DestroyInv(w, e);
      if Deferred(e) || e.index >= |slots| {
        return;
      }
      var slot := slots[e.index];
      if !slot.alive || slot.gen != e.gen {
        return;
      }
      if slot.place.Reserved? {
        DropReservedSlot(e);
        return;
      }
      CompactReady(w, e);
      CompactArchetypeAfterExternalMove(slot.place.arch, slot.place.at);
      ReleaseSlot(e.index);
    }

    method SeatEntity(i: nat, p: Place)
      requires i < |slots|
      modifies this`slots
      ensures State() == SetPlace(old(State()), i, p)
    {
      slots := slots[i := slots[i].(place := p)];
    }

    /** Marks whoever has this slot, if there is such a slot. */
    method StampSlot(i: nat)
      modifies this`slots
      ensures State() == StampIndex(old(State()), i)
    {
      if i < |slots| {
        slots := slots[i := slots[i].(immutable := true)];
      }
    }

    /** Stores the locations of a chunk's worth of new rows in their entities' slots. */
    method SeatRange(a: nat, range: RowRange, ids: seq<EntityId>)
      requires |ids| == range.count && forall k :: 0 <= k < |ids| ==> ids[k].index < |slots|
      modifies this`slots
      ensures |slots| == old(|slots|) && slots == SeatAll(old(slots), a, ids, RangeRows(range))
    {
      ghost var start := slots;
      var k := 0;
      while k < range.count
        invariant 0 <= k <= range.count && |slots| == |start|
        invariant slots == SeatAll(start, a, ids[..k], RangeRows(range)[..k])
      {
        var i := ids[k].index;
        slots := slots[i := slots[i].(place := Placed(a, RowLocation(range.chunk, range.begin + k)))];
        SeatSnoc(start, a, ids[..k], RangeRows(range)[..k], ids[k], RangeRows(range)[k]);
        assert ids[..k] + [ids[k]] == ids[..k + 1];
        assert RangeRows(range)[..k] + [RangeRows(range)[k]] == RangeRows(range)[..k + 1];
        k := k + 1;
      }
      assert ids[..k] == ids && RangeRows(range)[..k] == RangeRows(range);
    }

    method SeatRanges(a: nat, ranges: seq<RowRange>, ids: seq<EntityId>)
      requires |RangesRows(ranges)| == |ids| && forall k :: 0 <= k < |ids| ==> ids[k].index < |slots|
      modifies this`slots
      ensures |slots| == old(|slots|) && slots == SeatAll(old(slots), a, ids, RangesRows(ranges))
    {
      ghost var start := slots;
      var r, i := 0, 0;
      while r < |ranges|
        invariant 0 <= r <= |ranges| && |slots| == |start|
        invariant i == |RangesRows(ranges[..r])| && i <= |ids|
        invariant slots == SeatAll(start, a, ids[..i], RangesRows(ranges[..r]))
      {
        SeatStep(start, a, ranges, r, ids, i);
        SeatRange(a, ranges[r], ids[i..i + ranges[r].count]);
        i := i + ranges[r].count;
        r := r + 1;
      }
      assert ranges[..r] == ranges && ids[..i] == ids;
    }

    /** All ids are held, unfinalised slots. */
    method AllFinalisable(ids: seq<EntityId>) returns (ok: bool)
      requires Valid()
      ensures ok <==> AllUnfinalised(State(), ids)
    {
      ok := true;
      for k := 0 to |ids|
        invariant AllUnfinalised(State(), ids[..k])
      {
        var e := ids[k];
        if e.index >= |slots| || !slots[e.index].alive || slots[e.index].gen != e.gen || slots[e.index].place.Placed? {
          assert !Unfinalised(State(), ids[k]);
          return false;
        }
        assert forall j :: 0 <= j < k ==> ids[..k + 1][j] == ids[..k][j];
      }
      assert ids[..|ids|] == ids;
    }

    /** One by one on the cold path, in one batch on the fast path: the same, unless an id occurs
        twice in a batch that takes the fast path. */
    method FinalizeReservedEntitiesBulk(ids: seq<EntityId>, sig: seq<nat>, rows: seq<seq<Value>>)
      requires Valid() && |ids| == |rows| && forall k :: 0 <= k < |rows| ==> ValidRow(sig, rows[k])
      modifies this`slots, this`archs, this`bySig
      ensures DistinctIds(ids) || !AllUnfinalised(old(State()), ids) ==>
              Valid() && State() == FinaliseAll(old(State()), ids, sig, rows)
      ensures !DistinctIds(ids) && AllUnfinalised(old(State()), ids) ==>
              State() == BulkFinalised(old(State()), ids, sig, rows)
    {
      if |ids| == 0 {
        return;
      }
      var allValid := AllFinalisable(ids);
      if !allValid {
        FinalizeOneByOne(ids, sig, rows);
        return;
      }
      if DistinctIds(ids) {
        BatchReady(State(), ids, sig, rows);
      }
      FinalizeBatch(ids, sig, rows);
    }

    /** The cold fallback: only the slots that are not reserved any more are skipped. */
    method FinalizeOneByOne(ids: seq<EntityId>, sig: seq<nat>, rows: seq<seq<Value>>)
      requires Valid() && |ids| == |rows| && forall k :: 0 <= k < |rows| ==> ValidRow(sig, rows[k])
      modifies this`slots, this`archs, this`bySig
      ensures Valid() && State() == FinaliseAll(old(State()), ids, sig, rows)
    {
      ghost var w := State();
      var i := 0;
      while i < |ids|
        invariant 0 <= i <= |ids| && Valid() && State() == FinaliseAll(w, ids[..i], sig, rows)
      {
        FinaliseAllSnoc(w, ids, i, sig, rows);
        FinalizeReservedEntity(ids[i], sig, rows[i]);
        i := i + 1;
      }
      assert ids[..i] == ids;
    }

    /** The fast path: one archetype, rows reserved chunk by chunk. */
    method FinalizeBatch(ids: seq<EntityId>, sig: seq<nat>, rows: seq<seq<Value>>)
      requires Valid() && ids != [] && |ids| == |rows| && AllUnfinalised(State(), ids)
      requires forall k :: 0 <= k < |rows| ==> ValidRow(sig, rows[k])
      modifies this`slots, this`archs, this`bySig
      ensures State() == BulkFinalised(old(State()), ids, sig, rows) && capacityOf == old(State()).capacityOf
    {
      ghost var w := State();
      BatchPlace(w, ids, sig, rows);
      var a := FindOrCreateArchetype(sig);
      var chunks, ranges := FillRows(archs[a].chunks, archs[a].cap, BatchRows(ids, rows));
      ghost var found := State();
      archs := archs[a := archs[a].(chunks := chunks)];
      SeatRanges(a, ranges, ids);
      BatchDone(w, found, a, ids, sig, rows, RangesRows(ranges), State());
    }
  }

  /** Filled rows and seated slots are what the fast path amounts to. */
  lemma BatchDone(w: World, found: World, a: nat, ids: seq<EntityId>, sig: seq<nat>, rows: seq<seq<Value>>,
                  ls: seq<RowLocation>, v: World)
    requires |ids| == |rows| && found == FindOrCreate(w, sig) && a == ArchIndex(w, sig) && a < |found.archs|
    requires ls == PushedAt(found.archs[a].chunks, found.archs[a].cap, BatchRows(ids, rows))
    requires v == found.(slots := SeatAll(w.slots, a, ids, ls), archs := v.archs)
    requires v.archs ==
             found.archs[a := found.archs[a].(chunks := PushAll(found.archs[a].chunks, found.archs[a].cap,
                                                                BatchRows(ids, rows)))]
    ensures v == BulkFinalised(w, ids, sig, rows)
  {
  }

  lemma FinaliseAllSnoc(w: World, ids: seq<EntityId>, i: nat, sig: seq<nat>, rows: seq<seq<Value>>)
    requires i < |ids| && i < |rows|
    ensures FinaliseAll(w, ids[..i + 1], sig, rows) ==
            Finalise(FinaliseAll(w, ids[..i], sig, rows), ids[i], sig, rows[i])
  {
    assert ids[..i + 1][..i] == ids[..i];
  }

  lemma SeatSnoc(slots: seq<Slot>, a: nat, ids: seq<EntityId>, ls: seq<RowLocation>, e: EntityId, l: RowLocation)
    requires |ls| == |ids|
    ensures SeatAll(slots, a, ids + [e], ls + [l]) == Reseat(SeatAll(slots, a, ids, ls), e.index, Placed(a, l))
  {
    assert (ids + [e])[..|ids|] == ids && (ls + [l])[..|ls|] == ls;
  }

  lemma {:induction false} SeatConcat(slots: seq<Slot>, a: nat, ids: seq<EntityId>, ls: seq<RowLocation>,
                                      more: seq<EntityId>, at: seq<RowLocation>)
    requires |ls| == |ids| && |at| == |more|
    ensures SeatAll(slots, a, ids + more, ls + at) == SeatAll(SeatAll(slots, a, ids, ls), a, more, at)
  {
    if more == [] {
      assert ids + more == ids && ls + at == ls;
    } else {
      var n := |more| - 1;
      SeatConcat(slots, a, ids, ls, more[..n], at[..n]);
      SeatSnoc(slots, a, ids + more[..n], ls + at[..n], more[n], at[n]);
      assert ids + more == ids + more[..n] + [more[n]] && ls + at == ls + at[..n] + [at[n]];
    }
  }

  lemma {:induction false} RangesPrefix(ranges: seq<RowRange>, r: nat)
    requires r <= |ranges|
    ensures |RangesRows(ranges[..r])| <= |RangesRows(ranges)|
    decreases |ranges| - r
  {
    if r == |ranges| {
      assert ranges[..r] == ranges;
    } else {
      RangesPrefix(ranges, r + 1);
      assert ranges[..r + 1][..r] == ranges[..r];
    }
  }

  /** Seating the next range of a batch. */
  lemma SeatStep(slots: seq<Slot>, a: nat, ranges: seq<RowRange>, r: nat, ids: seq<EntityId>, i: nat)
    requires r < |ranges| && |RangesRows(ranges)| == |ids| && i == |RangesRows(ranges[..r])| && i <= |ids|
    ensures var next := i + ranges[r].count;
            && next == |RangesRows(ranges[..r + 1])| && next <= |ids|
            && SeatAll(SeatAll(slots, a, ids[..i], RangesRows(ranges[..r])), a, ids[i..next], RangeRows(ranges[r]))
               == SeatAll(slots, a, ids[..next], RangesRows(ranges[..r + 1]))
  {
    NextRange(ranges, r);
    var next := i + ranges[r].count;
    assert ids[..i] + ids[i..next] == ids[..next];
    SeatConcat(slots, a, ids[..i], RangesRows(ranges[..r]), ids[i..next], RangeRows(ranges[r]));
  }

  lemma NextRange(ranges: seq<RowRange>, r: nat)
    requires r < |ranges|
    ensures RangesRows(ranges[..r + 1]) == RangesRows(ranges[..r]) + RangeRows(ranges[r])
    ensures |RangesRows(ranges[..r])| + ranges[r].count == |RangesRows(ranges[..r + 1])| <= |RangesRows(ranges)|
  {
    RangesPrefix(ranges, r + 1);
    RangesSnoc(ranges[..r], ranges[r]);
    assert ranges[..r] + [ranges[r]] == ranges[..r + 1];
  }

  /** What the fast path needs of the world. */
  lemma BatchPlace(w: World, ids: seq<EntityId>, sig: seq<nat>, rows: seq<seq<Value>>)
    requires Inv(w) && ids != [] && |ids| == |rows| && AllUnfinalised(w, ids)
    requires forall k :: 0 <= k < |rows| ==> ValidRow(sig, rows[k])
    ensures ArchIndex(w, sig) < |FindOrCreate(w, sig).archs| && FindOrCreate(w, sig).archs[ArchIndex(w, sig)].cap >= 1
    ensures forall k :: 0 <= k < |ids| ==> ids[k].index < |w.slots|
  {
    assert ValidRow(sig, rows[0]);
    FindOrCreateOk(w, sig);
    assert ArchOk(FindOrCreate(w, sig), FindOrCreate(w, sig).archs[ArchIndex(w, sig)]);
    forall k | 0 <= k < |ids| ensures ids[k].index < |w.slots| {
      assert Unfinalised(w, ids[k]);
    }
  }

  /** What it amounts to when no id is repeated. */
  lemma BatchReady(w: World, ids: seq<EntityId>, sig: seq<nat>, rows: seq<seq<Value>>)
    requires Inv(w) && ids != [] && |ids| == |rows| && DistinctIds(ids) && AllUnfinalised(w, ids)
    requires forall k :: 0 <= k < |rows| ==> ValidRow(sig, rows[k])
    ensures BulkFinalised(w, ids, sig, rows) == FinaliseAll(w, ids, sig, rows) && Inv(FinaliseAll(w, ids, sig, rows))
  {
    FinaliseAllRefines(w, ids, sig, rows);
    BulkIsFinaliseAll(w, ids, sig, rows);
  }

  lemma HeldByGeneration(w: World, e: EntityId)
    requires GenerationsOk(w) && e.index < |w.slots| && w.slots[e.index].alive && w.slots[e.index].gen == e.gen
    ensures Holds(w, e)
  {
  }

  lemma CompactReady(w: World, e: EntityId)
    requires Inv(w) && Live(w, e)
    ensures HasRow(w, w.slots[e.index].place) && forall p :: HasRow(w, p) ==> RowAt(w, p).eid.index < |w.slots|
  {
    assert Seated(w, e.index);
    forall p | HasRow(w, p) ensures RowAt(w, p).eid.index < |w.slots| {
      assert Owned(w, p);
    }
  }

  lemma FirstFreeInRange(w: World)
    requires Inv(w) && w.hasFree
    ensures w.firstFree < |w.slots|
  {
    var fl :| FreeChain(w, fl);
    assert fl[0] in fl;
  }
}
