/** Chunked row storage: rows fill fixed-capacity chunks left to right, and removal swaps in the
    last row of the last chunk. */
module Chunks {

  datatype RowLocation = RowLocation(chunk: nat, row: nat)

  // ----- chunks with their rows -----

  /** Every chunk is nonempty and only the trailing one may be partial. */
  ghost predicate Packed<T>(chunks: seq<seq<T>>, cap: nat) {
    && cap >= 1
    && (forall c :: 0 <= c < |chunks| ==> 1 <= |chunks[c]| <= cap)
    && (forall c :: 0 <= c < |chunks| - 1 ==> |chunks[c]| == cap)
  }

  predicate Has<T>(chunks: seq<seq<T>>, l: RowLocation) {
    l.chunk < |chunks| && l.row < |chunks[l.chunk]|
  }

  function At<T>(chunks: seq<seq<T>>, l: RowLocation): T
    requires Has(chunks, l)
  {
    chunks[l.chunk][l.row]
  }

  /** Where the next row goes: the trailing chunk if it has room, else a fresh one. */
  function NextLocation<T>(chunks: seq<seq<T>>, cap: nat): RowLocation {
    if chunks == [] || |chunks[|chunks| - 1]| >= cap then RowLocation(|chunks|, 0)
    else RowLocation(|chunks| - 1, |chunks[|chunks| - 1]|)
  }

  function Push<T>(chunks: seq<seq<T>>, cap: nat, x: T): seq<seq<T>> {
    if chunks == [] || |chunks[|chunks| - 1]| >= cap then chunks + [[x]]
    else chunks[|chunks| - 1 := chunks[|chunks| - 1] + [x]]
  }

  lemma PushRows<T>(chunks: seq<seq<T>>, cap: nat, x: T)
    requires Packed(chunks, cap)
    ensures var after, l := Push(chunks, cap, x), NextLocation(chunks, cap);
            && Packed(after, cap) && !Has(chunks, l)
            && (forall k :: Has(after, k) <==> Has(chunks, k) || k == l)
            && At(after, l) == x
            && (forall k :: Has(chunks, k) ==> At(after, k) == At(chunks, k))
  {
  }

  function LastLocation<T>(chunks: seq<seq<T>>): RowLocation
    requires chunks != [] && chunks[|chunks| - 1] != []
  {
    RowLocation(|chunks| - 1, |chunks[|chunks| - 1]| - 1)
  }

  function Put<T>(chunks: seq<seq<T>>, l: RowLocation, x: T): seq<seq<T>>
    requires Has(chunks, l)
  {
    chunks[l.chunk := chunks[l.chunk][l.row := x]]
  }

  /** Drops the last row, and its chunk when that becomes empty. */
  function DropLast<T>(chunks: seq<seq<T>>): seq<seq<T>>
    requires chunks != [] && chunks[|chunks| - 1] != []
  {
    var last := chunks[|chunks| - 1];
    if |last| == 1 then chunks[..|chunks| - 1] else chunks[|chunks| - 1 := last[..|last| - 1]]
  }

  /** Removes the row at l by moving the global last row into its place. */
  function SwapPop<T>(chunks: seq<seq<T>>, l: RowLocation): seq<seq<T>>
    requires Has(chunks, l) && chunks[|chunks| - 1] != []
  {
    var last := LastLocation(chunks);
    DropLast(if l == last then chunks else Put(chunks, l, At(chunks, last)))
  }

  lemma PutRows<T>(chunks: seq<seq<T>>, cap: nat, l: RowLocation, x: T)
    requires Packed(chunks, cap) && Has(chunks, l)
    ensures var after := Put(chunks, l, x);
            && Packed(after, cap)
            && (forall k :: Has(after, k) <==> Has(chunks, k))
            && (forall k :: Has(after, k) ==> At(after, k) == if k == l then x else At(chunks, k))
  {
  }

  lemma DropLastRows<T>(chunks: seq<seq<T>>, cap: nat)
    requires Packed(chunks, cap) && chunks != []
    ensures var after, last := DropLast(chunks), LastLocation(chunks);
            && Packed(after, cap)
            && (forall k :: Has(after, k) <==> Has(chunks, k) && k != last)
            && (forall k :: Has(after, k) ==> At(after, k) == At(chunks, k))
  {
  }

  lemma SwapPopRows<T>(chunks: seq<seq<T>>, cap: nat, l: RowLocation)
    requires Packed(chunks, cap) && Has(chunks, l)
    ensures var after, last := SwapPop(chunks, l), LastLocation(chunks);
            && Packed(after, cap) && Has(chunks, last)
            && (forall k :: Has(after, k) <==> Has(chunks, k) && k != last)
            && (forall k :: Has(after, k) ==> At(after, k) == if k == l then At(chunks, last) else At(chunks, k))
  {
    var last := LastLocation(chunks);
    if l == last {
      DropLastRows(chunks, cap);
    } else {
      PutRows(chunks, cap, l, At(chunks, last));
      DropLastRows(Put(chunks, l, At(chunks, last)), cap);
    }
  }

  // ----- row counts: reserving rows -----

  function Sum(counts: seq<nat>): nat {
    if counts == [] then 0 else Sum(counts[..|counts| - 1]) + counts[|counts| - 1]
  }

  /** The row counts after one reservation, and the location it hands out. */
  function Reserve(counts: seq<nat>, cap: nat): seq<nat> {
    if counts == [] || counts[|counts| - 1] >= cap then counts + [1]
    else counts[|counts| - 1 := counts[|counts| - 1] + 1]
  }

  function ReservedAt(counts: seq<nat>, cap: nat): RowLocation {
    if counts == [] || counts[|counts| - 1] >= cap then RowLocation(|counts|, 0)
    else RowLocation(|counts| - 1, counts[|counts| - 1])
  }

  function ReserveN(counts: seq<nat>, cap: nat, n: nat): seq<nat> {
    if n == 0 then counts else Reserve(ReserveN(counts, cap, n - 1), cap)
  }

  /** The locations handed out by n single reservations, in order. */
  function ReservedN(counts: seq<nat>, cap: nat, n: nat): (ls: seq<RowLocation>)
    ensures |ls| == n
  {
    if n == 0 then [] else ReservedN(counts, cap, n - 1) + [ReservedAt(ReserveN(counts, cap, n - 1), cap)]
  }

  datatype RowRange = RowRange(chunk: nat, begin: nat, count: nat)

  function RangeRows(r: RowRange): seq<RowLocation> {
    seq(r.count, k requires 0 <= k < r.count => RowLocation(r.chunk, r.begin + k))
  }

  function RangesRows(rs: seq<RowRange>): seq<RowLocation> {
    if rs == [] then [] else RangesRows(rs[..|rs| - 1]) + RangeRows(rs[|rs| - 1])
  }

  lemma RangesSnoc(rs: seq<RowRange>, r: RowRange)
    ensures RangesRows(rs + [r]) == RangesRows(rs) + RangeRows(r)
  {
    assert (rs + [r])[..|rs|] == rs;
  }

  /** While the trailing chunk has room, reservations just extend it. */
  lemma ReserveLast(front: seq<nat>, x: nat, cap: nat)
    requires x < cap
    ensures Reserve(front + [x], cap) == front + [x + 1] && ReservedAt(front + [x], cap) == RowLocation(|front|, x)
  {
  }

  lemma RangeSnoc(chunk: nat, x: nat, n: nat)
    ensures RangeRows(RowRange(chunk, x, n)) + [RowLocation(chunk, x + n)] == RangeRows(RowRange(chunk, x, n + 1))
  {
  }

  lemma {:induction false} ReserveRun(front: seq<nat>, x: nat, cap: nat, n: nat)
    requires x + n <= cap
    ensures ReserveN(front + [x], cap, n) == front + [x + n]
    ensures ReservedN(front + [x], cap, n) == RangeRows(RowRange(|front|, x, n))
  {
    if n > 0 {
      ReserveRun(front, x, cap, n - 1);
      ReserveLast(front, x + n - 1, cap);
      RangeSnoc(|front|, x, n - 1);
    }
  }

  lemma {:induction false} ReserveAdd(counts: seq<nat>, cap: nat, m: nat, n: nat)
    ensures ReserveN(counts, cap, m + n) == ReserveN(ReserveN(counts, cap, m), cap, n)
    ensures ReservedN(counts, cap, m + n) == ReservedN(counts, cap, m) + ReservedN(ReserveN(counts, cap, m), cap, n)
  {
    if n > 0 {
      ReserveAdd(counts, cap, m, n - 1);
    }
  }

  /** The state of a bulk reservation: done rows reserved in the ranges out. */
  ghost predicate Reserving(start: seq<nat>, cap: nat, done: nat, counts: seq<nat>, out: seq<RowRange>) {
    && counts == ReserveN(start, cap, done) && RangesRows(out) == ReservedN(start, cap, done)
    && forall r :: r in out ==> r.count > 0
  }

  lemma ReservedNone(start: seq<nat>, cap: nat)
    ensures Reserving(start, cap, 0, start, [])
  {
  }

  lemma ReservedMore(start: seq<nat>, cap: nat, done: nat, counts: seq<nat>, out: seq<RowRange>, range: RowRange)
    requires Reserving(start, cap, done, counts, out) && range.count > 0
    requires RangeRows(range) == ReservedN(counts, cap, range.count)
    ensures Reserving(start, cap, done + range.count, ReserveN(counts, cap, range.count), out + [range])
  {
    ReserveAdd(start, cap, done, range.count);
    RangesSnoc(out, range);
  }

  /** An archetype's row bookkeeping. */
  class RowAllocator {
    const capacity: nat
    var counts: seq<nat>
    var total: nat

    ghost predicate Valid()
      reads this
    {
      capacity >= 1 && total == Sum(counts)
    }

    constructor (capacity: nat)
      requires capacity >= 1
      ensures Valid() && this.capacity == capacity && counts == [] && total == 0
    {
      this.capacity := capacity;
      counts, total := [], 0;
    }

    method ReserveRow() returns (l: RowLocation)
      requires Valid()
      modifies this
      ensures Valid() && total == old(total) + 1
      ensures counts == Reserve(old(counts), capacity) && l == ReservedAt(old(counts), capacity)
    {
      SumReserve(counts, capacity);
      var chunk;
      if counts == [] || counts[|counts| - 1] >= capacity {
        counts := counts + [0];
        chunk := |counts| - 1;
      } else {
        chunk := |counts| - 1;
      }
      var row := counts[chunk];
      counts := counts[chunk := row + 1];
      total := total + 1;
      l := RowLocation(chunk, row);
    }

    /** One touched chunk of a bulk reservation: the trailing one, or a fresh one if it is full. */
    method FillTrailing(remaining: nat) returns (range: RowRange)
      requires capacity >= 1 && remaining > 0
      modifies this`counts
      ensures 0 < range.count <= remaining
      ensures counts == ReserveN(old(counts), capacity, range.count)
      ensures RangeRows(range) == ReservedN(old(counts), capacity, range.count)
    {
      ghost var before := counts;
      if counts == [] || counts[|counts| - 1] >= capacity {
        counts := counts + [0];
      }
      var chunk := |counts| - 1;
      var begin := counts[chunk];
      var take := if remaining <= capacity - begin then remaining else capacity - begin;
      if |counts| > |before| {
        OpeningRun(before, capacity, take);
        UpdateLast(before, 0, take);
      } else {
        assert before == before[..chunk] + [begin];
        ReserveRun(before[..chunk], begin, capacity, take);
        UpdateLast(before[..chunk], begin, begin + take);
      }
      counts := counts[chunk := begin + take];
      range := RowRange(chunk, begin, take);
    }

    /** The bulk form packs exactly as n single reservations do. */
    method ReserveRows(n: nat) returns (out: seq<RowRange>)
      requires Valid()
      modifies this
      ensures Valid() && total == old(total) + n
      ensures counts == ReserveN(old(counts), capacity, n)
      ensures RangesRows(out) == ReservedN(old(counts), capacity, n)
      ensures forall r :: r in out ==> r.count > 0
    {
      out := [];
      if n == 0 {
        return;
      }
      var remaining := n;
      ghost var start := counts;
      ghost var done: nat := 0;
      ReservedNone(start, capacity);
      while remaining > 0
        invariant 0 <= remaining && done + remaining == n
        invariant Reserving(start, capacity, done, counts, out)
        invariant total == old(total) && capacity >= 1
      {
        ghost var before := counts;
        var range := FillTrailing(remaining);
        ReservedMore(start, capacity, done, before, out, range);
        out := out + [range];
        remaining := remaining - range.count;
        done := done + range.count;
      }
      total := total + n;
      SumReserveN(start, capacity, n);
    }
  }

  lemma {:induction false} SumReserve(counts: seq<nat>, cap: nat)
    ensures Sum(Reserve(counts, cap)) == Sum(counts) + 1
  {
    if counts != [] {
      var r := Reserve(counts, cap);
      assert r[..|r| - 1] == if counts[|counts| - 1] >= cap then counts else counts[..|counts| - 1];
    }
  }

  lemma {:induction false} SumReserveN(counts: seq<nat>, cap: nat, n: nat)
    ensures Sum(ReserveN(counts, cap, n)) == Sum(counts) + n
  {
    if n > 0 {
      SumReserveN(counts, cap, n - 1);
      SumReserve(ReserveN(counts, cap, n - 1), cap);
    }
  }

  lemma ReserveOne(counts: seq<nat>, cap: nat)
    ensures ReserveN(counts, cap, 1) == Reserve(counts, cap)
    ensures ReservedN(counts, cap, 1) == [ReservedAt(counts, cap)]
  {
    assert ReserveN(counts, cap, 0) == counts;
    assert ReservedN(counts, cap, 0) == [];
  }

  lemma RangeCons(chunk: nat, n: nat)
    requires n > 0
    ensures [RowLocation(chunk, 0)] + RangeRows(RowRange(chunk, 1, n - 1)) == RangeRows(RowRange(chunk, 0, n))
  {
  }

  /** A run of reservations that opens a chunk. */
  lemma {:induction false} OpeningRun(counts: seq<nat>, cap: nat, n: nat)
    requires 0 < n <= cap && (counts == [] || counts[|counts| - 1] >= cap)
    ensures ReserveN(counts, cap, n) == counts + [n]
    ensures ReservedN(counts, cap, n) == RangeRows(RowRange(|counts|, 0, n))
  {
    if n == 1 {
      ReserveOne(counts, cap);
    } else {
      OpeningRun(counts, cap, n - 1);
      ReserveLast(counts, n - 1, cap);
      RangeSnoc(|counts|, 0, n - 1);
    }
  }

  lemma UpdateLast(s: seq<nat>, x: nat, y: nat)
    ensures (s + [x])[|s| := y] == s + [y]
  {
  }

  // ----- the packing invariant on counts -----

  ghost predicate PackedCounts(counts: seq<nat>, cap: nat) {
    && cap >= 1
    && (forall c :: 0 <= c < |counts| ==> 1 <= counts[c] <= cap)
    && (forall c :: 0 <= c < |counts| - 1 ==> counts[c] == cap)
  }

  lemma {:induction false} PackedSum(counts: seq<nat>, cap: nat)
    requires PackedCounts(counts, cap)
    ensures Sum(counts) == if counts == [] then 0 else (|counts| - 1) * cap + counts[|counts| - 1]
  {
    if counts != [] {
      var front := counts[..|counts| - 1];
      PackedSum(front, cap);
      if front != [] {
        assert Sum(front) == (|front| - 1) * cap + cap == |front| * cap;
      }
    }
  }

  lemma NextContiguous(counts: seq<nat>, cap: nat)
    requires PackedCounts(counts, cap)
    ensures PackedCounts(Reserve(counts, cap), cap)
    ensures var l := ReservedAt(counts, cap); l.chunk * cap + l.row == Sum(counts) && l.row < cap
  {
    PackedSum(counts, cap);
    if counts != [] && counts[|counts| - 1] >= cap {
      assert (|counts| - 1) * cap + cap == |counts| * cap;
    }
  }

  /** Reserving n rows of a packed archetype keeps it packed and hands out the contiguous global
      rows total, total + 1, ..., total + n - 1. */
  lemma {:induction false} ReservedContiguous(counts: seq<nat>, cap: nat, n: nat)
    requires PackedCounts(counts, cap)
    ensures PackedCounts(ReserveN(counts, cap, n), cap)
    ensures forall k :: 0 <= k < n ==>
      var l := ReservedN(counts, cap, n)[k]; l.chunk * cap + l.row == Sum(counts) + k && l.row < cap
  {
    if n > 0 {
      ReservedContiguous(counts, cap, n - 1);
      NextContiguous(ReserveN(counts, cap, n - 1), cap);
      SumReserveN(counts, cap, n - 1);
    }
  }

  ghost function Counts<T>(chunks: seq<seq<T>>): (cs: seq<nat>)
    ensures |cs| == |chunks| && forall c :: 0 <= c < |chunks| ==> cs[c] == |chunks[c]|
  {
    seq(|chunks|, c requires 0 <= c < |chunks| => |chunks[c]|)
  }

  /** Pushing a row is reserving one and filling it. */
  lemma PushReserves<T>(chunks: seq<seq<T>>, cap: nat, x: T)
    ensures Counts(Push(chunks, cap, x)) == Reserve(Counts(chunks), cap)
    ensures NextLocation(chunks, cap) == ReservedAt(Counts(chunks), cap)
  {
  }
}
