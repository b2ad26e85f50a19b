/** The fast path of a bulk create, which fills an archetype chunk by chunk, finalises its entities
    as one-by-one finalisation does. */
module BulkFinalise {
  import opened Chunks
  import opened WorldStore
  import opened EntityOps
  import opened CommandOps
  import opened StoreRefinement

  // ----- rows -----

  function PushAll<T>(chunks: seq<seq<T>>, cap: nat, rows: seq<T>): seq<seq<T>> {
    if rows == [] then chunks
    else Push(PushAll(chunks, cap, rows[..|rows| - 1]), cap, rows[|rows| - 1])
  }

  function PushedAt<T>(chunks: seq<seq<T>>, cap: nat, rows: seq<T>): (ls: seq<RowLocation>)
    ensures |ls| == |rows|
  {
    if rows == [] then []
    else PushedAt(chunks, cap, rows[..|rows| - 1]) + [NextLocation(PushAll(chunks, cap, rows[..|rows| - 1]), cap)]
  }

  lemma PushAllSnoc<T>(chunks: seq<seq<T>>, cap: nat, a: seq<T>, x: T)
    ensures PushAll(chunks, cap, a + [x]) == Push(PushAll(chunks, cap, a), cap, x)
    ensures PushedAt(chunks, cap, a + [x]) == PushedAt(chunks, cap, a) + [NextLocation(PushAll(chunks, cap, a), cap)]
  {
    assert (a + [x])[..|a|] == a;
  }

  lemma PushAllAddOne<T>(chunks: seq<seq<T>>, cap: nat, a: seq<T>, c: seq<T>, x: T)
    requires PushAll(chunks, cap, a + c) == PushAll(PushAll(chunks, cap, a), cap, c)
    requires PushedAt(chunks, cap, a + c) == PushedAt(chunks, cap, a) + PushedAt(PushAll(chunks, cap, a), cap, c)
    ensures PushAll(chunks, cap, a + c + [x]) == PushAll(PushAll(chunks, cap, a), cap, c + [x])
    ensures PushedAt(chunks, cap, a + c + [x]) == PushedAt(chunks, cap, a) +
            PushedAt(PushAll(chunks, cap, a), cap, c + [x])
  {
    PushAllSnoc(chunks, cap, a + c, x);
    PushAllSnoc(PushAll(chunks, cap, a), cap, c, x);
  }

  lemma {:induction false} PushAllAdd<T>(chunks: seq<seq<T>>, cap: nat, a: seq<T>, b: seq<T>)
    ensures PushAll(chunks, cap, a + b) == PushAll(PushAll(chunks, cap, a), cap, b)
    ensures PushedAt(chunks, cap, a + b) == PushedAt(chunks, cap, a) + PushedAt(PushAll(chunks, cap, a), cap, b)
  {
    if b == [] {
      assert a + b == a;
    } else {
      var c, x := b[..|b| - 1], b[|b| - 1];
      PushAllAdd(chunks, cap, a, c);
      PushAllAddOne(chunks, cap, a, c, x);
      assert b == c + [x] && a + b == a + c + [x];
    }
  }

  function Extend<T>(chunks: seq<seq<T>>, run: seq<T>): seq<seq<T>>
    requires chunks != []
  {
    chunks[|chunks| - 1 := chunks[|chunks| - 1] + run]
  }

  lemma ExtendPush<T>(chunks: seq<seq<T>>, cap: nat, run: seq<T>, x: T)
    requires chunks != [] && |chunks[|chunks| - 1]| + |run| < cap
    ensures Push(Extend(chunks, run), cap, x) == Extend(chunks, run + [x])
    ensures NextLocation(Extend(chunks, run), cap) == RowLocation(|chunks| - 1, |chunks[|chunks| - 1]| + |run|)
  {
    assert chunks[|chunks| - 1] + (run + [x]) == chunks[|chunks| - 1] + run + [x];
  }

  /** A run that fits in the trailing chunk just extends it. */
  lemma {:induction false} PushRun<T>(chunks: seq<seq<T>>, cap: nat, run: seq<T>)
    requires chunks != [] && |chunks[|chunks| - 1]| + |run| <= cap
    ensures PushAll(chunks, cap, run) == Extend(chunks, run)
    ensures PushedAt(chunks, cap, run) == RangeRows(RowRange(|chunks| - 1, |chunks[|chunks| - 1]|, |run|))
  {
    if run == [] {
      assert chunks[|chunks| - 1] + [] == chunks[|chunks| - 1];
    } else {
      var front, x := run[..|run| - 1], run[|run| - 1];
      PushRun(chunks, cap, front);
      assert run == front + [x];
      PushAllSnoc(chunks, cap, front, x);
      ExtendPush(chunks, cap, front, x);
    }
  }

  /** A run that opens a chunk. */
  lemma FirstPush<T>(chunks: seq<seq<T>>, cap: nat, x: T)
    requires cap > 0 && (chunks == [] || |chunks[|chunks| - 1]| >= cap)
    ensures PushAll(chunks, cap, [x]) == chunks + [[x]] && PushedAt(chunks, cap, [x]) == [RowLocation(|chunks|, 0)]
  {
    assert [x] == [] + [x];
    PushAllSnoc(chunks, cap, [], x);
  }

  lemma AfterFirstPush<T>(chunks: seq<seq<T>>, cap: nat, x: T, rest: seq<T>)
    requires |rest| < cap
    ensures PushAll(chunks + [[x]], cap, rest) == chunks + [[x] + rest]
    ensures PushedAt(chunks + [[x]], cap, rest) == RangeRows(RowRange(|chunks|, 1, |rest|))
  {
    PushRun(chunks + [[x]], cap, rest);
    assert Extend(chunks + [[x]], rest) == chunks + [[x] + rest];
  }

  lemma PushOpening<T>(chunks: seq<seq<T>>, cap: nat, run: seq<T>)
    requires 0 < |run| <= cap && (chunks == [] || |chunks[|chunks| - 1]| >= cap)
    ensures PushAll(chunks, cap, run) == chunks + [run]
    ensures PushedAt(chunks, cap, run) == RangeRows(RowRange(|chunks|, 0, |run|))
  {
    var x, rest := run[0], run[1..];
    assert run == [x] + rest;
    FirstPush(chunks, cap, x);
    PushAllAdd(chunks, cap, [x], rest);
    AfterFirstPush(chunks, cap, x, rest);
    RangeCons(|chunks|, |run|);
  }

  /** Fills one chunk, the trailing one or a new one, with the first rows of a nonempty batch. */
  method FillChunk<T>(start: seq<seq<T>>, cap: nat, rows: seq<T>) returns (chunks: seq<seq<T>>, range: RowRange)
    requires cap >= 1 && rows != []
    ensures 0 < range.count <= |rows|
    ensures chunks == PushAll(start, cap, rows[..range.count])
    ensures RangeRows(range) == PushedAt(start, cap, rows[..range.count])
  {
    var opening := start == [] || |start[|start| - 1]| >= cap;
    var begin := if opening then 0 else |start[|start| - 1]|;
    var take := if |rows| <= cap - begin then |rows| else cap - begin;
    if opening {
      PushOpening(start, cap, rows[..take]);
      chunks := start + [rows[..take]];
    } else {
      PushRun(start, cap, rows[..take]);
      chunks := start[|start| - 1 := start[|start| - 1] + rows[..take]];
    }
    range := RowRange(|chunks| - 1, begin, take);
  }

  /** Reserves rows as reserve_rows does, and fills them. */
  method FillRows<T>(start: seq<seq<T>>, cap: nat, rows: seq<T>) returns (chunks: seq<seq<T>>, out: seq<RowRange>)
    requires cap >= 1
    ensures chunks == PushAll(start, cap, rows)
    ensures RangesRows(out) == PushedAt(start, cap, rows)
  {
    chunks, out := start, [];
    var rest := rows;
    ghost var done: seq<T> := [];
    while rest != []
      invariant rows == done + rest && Filled(start, cap, done, chunks, out)
      decreases |rest|
    {
      var range;
      ghost var before := chunks;
      chunks, range := FillChunk(chunks, cap, rest);
      FilledMore(start, cap, done, before, out, rest[..range.count], chunks, range);
      out := out + [range];
      assert rows == done + rest[..range.count] + rest[range.count..];
      done := done + rest[..range.count];
      rest := rest[range.count..];
    }
    assert rows == done;
  }

  /** The rows handled so far, where they are and in which ranges. */
  ghost predicate Filled<T>(start: seq<seq<T>>, cap: nat, done: seq<T>, chunks: seq<seq<T>>, out: seq<RowRange>) {
    chunks == PushAll(start, cap, done) && RangesRows(out) == PushedAt(start, cap, done)
  }

  lemma FilledMore<T>(start: seq<seq<T>>, cap: nat, done: seq<T>, before: seq<seq<T>>, out: seq<RowRange>, run: seq<T>,
                      chunks: seq<seq<T>>, range: RowRange)
    requires Filled(start, cap, done, before, out)
    requires chunks == PushAll(before, cap, run) && RangeRows(range) == PushedAt(before, cap, run)
    ensures Filled(start, cap, done + run, chunks, out + [range])
  {
    PushAllAdd(start, cap, done, run);
    RangesSnoc(out, range);
  }

  // ----- slots -----

  /** Seats entity k of the batch at the k-th location. */
  function SeatAll(slots: seq<Slot>, a: nat, ids: seq<EntityId>, ls: seq<RowLocation>): seq<Slot> {
    if ids == [] || |ls| < |ids| then slots
    else
      var n := |ids| - 1;
      Reseat(SeatAll(slots, a, ids[..n], ls[..n]), ids[n].index, Placed(a, ls[n]))
  }

  function BatchRows(ids: seq<EntityId>, rows: seq<seq<Value>>): (r: seq<Row>)
    requires |ids| == |rows|
    ensures |r| == |ids|
  {
    seq(|ids|, k requires 0 <= k < |ids| => Row(ids[k], rows[k]))
  }

  /** What the fast path leaves behind. */
  function BulkFinalised(w: World, ids: seq<EntityId>, sig: seq<nat>, rows: seq<seq<Value>>): World
    requires |ids| == |rows|
  {
    var found, a := FindOrCreate(w, sig), ArchIndex(w, sig);
    if a >= |found.archs| then found
    else
      var arch := found.archs[a];
      var batch := BatchRows(ids, rows);
      found.(archs := found.archs[a := arch.(chunks := PushAll(arch.chunks, arch.cap, batch))],
             slots := SeatAll(found.slots, a, ids, PushedAt(arch.chunks, arch.cap, batch)))
  }

  predicate AllUnfinalised(w: World, ids: seq<EntityId>) {
    forall k :: 0 <= k < |ids| ==> Unfinalised(w, ids[k])
  }

  lemma DistinctHolders(w: World, ids: seq<EntityId>, j: nat, k: nat)
    requires AllUnfinalised(w, ids) && DistinctIds(ids) && j < |ids| && k < |ids| && j != k
    ensures ids[j].index != ids[k].index
  {
    assert Unfinalised(w, ids[j]) && Unfinalised(w, ids[k]);
    assert ids[j] != ids[k];
  }

  lemma {:induction false} SeatAllElsewhere(slots: seq<Slot>, a: nat, ids: seq<EntityId>, ls: seq<RowLocation>, i: nat)
    requires i < |slots| && forall k :: 0 <= k < |ids| ==> ids[k].index != i
    ensures |SeatAll(slots, a, ids, ls)| == |slots| && SeatAll(slots, a, ids, ls)[i] == slots[i]
  {
    if ids != [] && |ls| >= |ids| {
      SeatAllElsewhere(slots, a, ids[..|ids| - 1], ls[..|ids| - 1], i);
    }
  }

  /** One more entity of the batch is one more single finalisation. */
  lemma BulkFinalisedStep(w: World, ids: seq<EntityId>, sig: seq<nat>, rows: seq<seq<Value>>)
    requires |ids| == |rows| && ids != [] && AllUnfinalised(w, ids) && DistinctIds(ids)
    requires sig in w.bySig ==> w.bySig[sig] < |w.archs|
    ensures var n := |ids| - 1;
            n > 0 ==>
              BulkFinalised(w, ids, sig, rows) ==
              Finalise(BulkFinalised(w, ids[..n], sig, rows[..n]), ids[n], sig, rows[n])
    ensures |ids| == 1 ==> BulkFinalised(w, ids, sig, rows) == Finalise(w, ids[0], sig, rows[0])
  {
    var n := |ids| - 1;
    var found, a := FindOrCreate(w, sig), ArchIndex(w, sig);
    var arch := found.archs[a];
    var batch := BatchRows(ids, rows);
    assert batch[..n] == BatchRows(ids[..n], rows[..n]);
    assert PushedAt(arch.chunks, arch.cap, batch)[..n] == PushedAt(arch.chunks, arch.cap, batch[..n]);
    var before := BulkFinalised(w, ids[..n], sig, rows[..n]);
    forall k | 0 <= k < n ensures ids[..n][k].index != ids[n].index {
      DistinctHolders(w, ids, k, n);
    }
    assert Unfinalised(w, ids[n]);
    SeatAllElsewhere(found.slots, a, ids[..n], PushedAt(arch.chunks, arch.cap, batch[..n]), ids[n].index);
    assert Unfinalised(before, ids[n]);
    assert FindOrCreate(before, sig) == before && ArchIndex(before, sig) == a;
    StepEquation(w, ids, sig, rows, arch, before);
  }

  lemma StepEquation(w: World, ids: seq<EntityId>, sig: seq<nat>, rows: seq<seq<Value>>, arch: Archetype, before: World)
    requires |ids| == |rows| && ids != []
    requires var found, a := FindOrCreate(w, sig), ArchIndex(w, sig); a < |found.archs| && arch == found.archs[a]
    requires before == BulkFinalised(w, ids[..|ids| - 1], sig, rows[..|ids| - 1])
    requires BatchRows(ids, rows)[..|ids| - 1] == BatchRows(ids[..|ids| - 1], rows[..|ids| - 1])
    ensures var n, a := |ids| - 1, ArchIndex(w, sig);
            BulkFinalised(w, ids, sig, rows) == SetPlace(PushRow(before, a, Row(ids[n], rows[n])), ids[n].index,
                                                         NewPlace(before, a))
  {
    var n, a := |ids| - 1, ArchIndex(w, sig);
    var batch := BatchRows(ids, rows);
    assert batch[n] == Row(ids[n], rows[n]);
    assert PushedAt(arch.chunks, arch.cap, batch)[..n] == PushedAt(arch.chunks, arch.cap, batch[..n]);
    var u, v := BulkFinalised(w, ids, sig, rows), PushRow(before, a, Row(ids[n], rows[n]));
    assert u.archs == v.archs;
  }

  /** The fast path does what finalising one after another does. */
  lemma {:induction false} BulkIsFinaliseAll(w: World, ids: seq<EntityId>, sig: seq<nat>, rows: seq<seq<Value>>)
    requires |ids| == |rows| && ids != [] && AllUnfinalised(w, ids) && DistinctIds(ids)
    requires sig in w.bySig ==> w.bySig[sig] < |w.archs|
    ensures BulkFinalised(w, ids, sig, rows) == FinaliseAll(w, ids, sig, rows)
  {
    var n := |ids| - 1;
    BulkFinalisedStep(w, ids, sig, rows);
    FinaliseAllPrefix(w, ids[..n], sig, rows, n);
    if n > 0 {
      BulkIsFinaliseAll(w, ids[..n], sig, rows[..n]);
    }
  }

  lemma {:induction false} FinaliseAllPrefix(w: World, ids: seq<EntityId>, sig: seq<nat>, rows: seq<seq<Value>>, n: nat)
    requires |ids| <= n <= |rows|
    ensures FinaliseAll(w, ids, sig, rows) == FinaliseAll(w, ids, sig, rows[..n])
  {
    if ids != [] {
      FinaliseAllPrefix(w, ids[..|ids| - 1], sig, rows, n);
    }
  }

  // ----- repeated ids -----

  /** Pushed rows lie where they were pushed, each at a place of its own. */
  lemma {:induction false} PushAllRows<T>(chunks: seq<seq<T>>, cap: nat, rows: seq<T>)
    requires Packed(chunks, cap)
    ensures Packed(PushAll(chunks, cap, rows), cap)
    ensures forall k :: 0 <= k < |rows| ==> PushedThere(chunks, cap, rows, k)
    ensures forall j, k :: 0 <= j < k < |rows| ==> PushedAt(chunks, cap, rows)[j] != PushedAt(chunks, cap, rows)[k]
  {
    if rows != [] {
      var n, ls := |rows| - 1, PushedAt(chunks, cap, rows);
      PushAllRows(chunks, cap, rows[..n]);
      PushRows(PushAll(chunks, cap, rows[..n]), cap, rows[n]);
      PushAllSnoc(chunks, cap, rows[..n], rows[n]);
      assert rows == rows[..n] + [rows[n]];
      forall k | 0 <= k < n ensures PushedThere(chunks, cap, rows, k) && ls[k] != ls[n] {
        assert PushedThere(chunks, cap, rows[..n], k);
      }
    }
  }

  ghost predicate PushedThere<T>(chunks: seq<seq<T>>, cap: nat, rows: seq<T>, k: nat)
    requires k < |rows|
  {
    var after, l := PushAll(chunks, cap, rows), PushedAt(chunks, cap, rows)[k];
    Has(after, l) && At(after, l) == rows[k]
  }

  /** A repeated id gets two rows on the fast path, and no slot can point at both. */
  lemma RepeatedIdBreaks(w: World, ids: seq<EntityId>, sig: seq<nat>, rows: seq<seq<Value>>, j: nat, k: nat)
    requires Inv(w) && |ids| == |rows| && AllUnfinalised(w, ids) && j < k < |ids| && ids[j] == ids[k]
             && ValidRow(sig, rows[0])
    ensures !Inv(BulkFinalised(w, ids, sig, rows))
  {
    var found, a := FindOrCreate(w, sig), ArchIndex(w, sig);
    FindOrCreateOk(w, sig);
    var arch, batch := found.archs[a], BatchRows(ids, rows);
    assert ArchOk(found, arch);
    PushAllRows(arch.chunks, arch.cap, batch);
    var v, ls := BulkFinalised(w, ids, sig, rows), PushedAt(arch.chunks, arch.cap, batch);
    assert PushedThere(arch.chunks, arch.cap, batch, j) && PushedThere(arch.chunks, arch.cap, batch, k);
    var p, q := Placed(a, ls[j]), Placed(a, ls[k]);
    assert HasRow(v, p) && HasRow(v, q) && RowAt(v, p).eid == RowAt(v, q).eid && p != q;
    OneOwner(v, p, q);
    assert !Owned(v, p) || !Owned(v, q);
  }

  lemma OneOwner(v: World, p: Place, q: Place)
    requires HasRow(v, p) && HasRow(v, q) && RowAt(v, p).eid == RowAt(v, q).eid && p != q
    ensures !Owned(v, p) || !Owned(v, q)
  {
  }

  /** The fast path keeps the store consistent if and only if the batch repeats no id. */
  lemma FastPathSound(w: World, ids: seq<EntityId>, sig: seq<nat>, rows: seq<seq<Value>>)
    requires Inv(w) && ids != [] && |ids| == |rows| && AllUnfinalised(w, ids)
             && forall k :: 0 <= k < |rows| ==> ValidRow(sig, rows[k])
    ensures Inv(BulkFinalised(w, ids, sig, rows)) <==> DistinctIds(ids)
  {
    if DistinctIds(ids) {
      BulkIsFinaliseAll(w, ids, sig, rows);
      FinaliseAllRefines(w, ids, sig, rows);
    } else {
      var j, k :| 0 <= j < k < |ids| && ids[j] == ids[k];
      RepeatedIdBreaks(w, ids, sig, rows, j, k);
    }
  }
}
