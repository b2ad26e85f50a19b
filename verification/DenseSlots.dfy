/** The dense slot allocator: LIFO reuse of released slots, then growth. */
module DenseSlots {
  import opened Sorting

  const INVALID_DENSE_SLOT: nat := 0xffff_ffff

  /** The serialisable image: the state itself.  The last free slot is handed out next. */
  datatype Snapshot = Snapshot(nextUnallocated: nat, freeSlots: seq<nat>)

  /** Every free slot is below the high water mark and listed once. */
  ghost predicate WellFormed(a: Snapshot) {
    AllDifferent(a.freeSlots) && forall i :: 0 <= i < |a.freeSlots| ==> a.freeSlots[i] < a.nextUnallocated
  }

  function Allocated(a: Snapshot): nat {
    if a.freeSlots != [] then a.freeSlots[|a.freeSlots| - 1]
    else if a.nextUnallocated == INVALID_DENSE_SLOT then INVALID_DENSE_SLOT
    else a.nextUnallocated
  }

  function AfterAllocate(a: Snapshot): Snapshot {
    if a.freeSlots != [] then a.(freeSlots := a.freeSlots[..|a.freeSlots| - 1])
    else if a.nextUnallocated == INVALID_DENSE_SLOT then a
    else a.(nextUnallocated := a.nextUnallocated + 1)
  }

  function AfterRelease(a: Snapshot, slot: nat): Snapshot {
    if slot >= a.nextUnallocated then a else a.(freeSlots := a.freeSlots + [slot])
  }

  /** The slots in order, released one after another. */
  function ReleaseAll(a: Snapshot, slots: seq<nat>): Snapshot {
    if slots == [] then a else AfterRelease(ReleaseAll(a, slots[..|slots| - 1]), slots[|slots| - 1])
  }

  /** Slots in use come back last released first, and taking them back undoes the releases. */
  lemma {:induction false} LastReleasedFirst(a: Snapshot, slots: seq<nat>)
    requires slots != [] && forall k :: 0 <= k < |slots| ==> slots[k] < a.nextUnallocated
    ensures Allocated(ReleaseAll(a, slots)) == slots[|slots| - 1]
    ensures AfterAllocate(ReleaseAll(a, slots)) == ReleaseAll(a, slots[..|slots| - 1])
    ensures ReleaseAll(a, slots).nextUnallocated == a.nextUnallocated
  {
    if |slots| > 1 {
      LastReleasedFirst(a, slots[..|slots| - 1]);
    }
  }

  /** Sorted neighbours decide both conditions. */
  method CheckSorted(freeSlots: seq<nat>, high: nat) returns (ok: bool)
    ensures ok <==> WellFormed(Snapshot(high, freeSlots))
  {
    var sorted := Sort(freeSlots, (x: nat) => (x as int, 0));
    ok := true;
    var i := 0;
    while i < |sorted|
      invariant 0 <= i <= |sorted|
      invariant forall k :: 0 <= k < i ==> sorted[k] < high
      invariant forall j, k :: 0 <= j < k < i ==> sorted[j] < sorted[k]
    {
      if sorted[i] >= high {
        assert sorted[i] in freeSlots;
        return false;
      }
      if i > 0 && sorted[i] == sorted[i - 1] {
        if AllDifferent(freeSlots) {
          PermutationDifferent(freeSlots, sorted);
        }
        return false;
      }
      assert i > 0 ==> KeyLe((sorted[i - 1] as int, 0), (sorted[i] as int, 0));
      i := i + 1;
    }
    PermutationDifferent(sorted, freeSlots);
    forall k | 0 <= k < |freeSlots| ensures freeSlots[k] < high {
      assert freeSlots[k] in sorted;
    }
  }

  class DenseSlotAllocator {
    var freeSlots: seq<nat>
    var nextUnallocated: nat

    function Image(): Snapshot
      reads this
    {
      Snapshot(nextUnallocated, freeSlots)
    }

    constructor ()
      ensures Image() == Snapshot(0, [])
    {
      freeSlots, nextUnallocated := [], 0;
    }

    method Allocate() returns (slot: nat)
      modifies this
      ensures slot == Allocated(old(Image())) && Image() == AfterAllocate(old(Image()))
    {
      if |freeSlots| > 0 {
        slot := freeSlots[|freeSlots| - 1];
        freeSlots := freeSlots[..|freeSlots| - 1];
        return;
      }
      if nextUnallocated == INVALID_DENSE_SLOT {
        return INVALID_DENSE_SLOT;
      }
      slot := nextUnallocated;
      nextUnallocated := nextUnallocated + 1;
    }

    method Release(slot: nat)
      modifies this
      ensures Image() == AfterRelease(old(Image()), slot)
    {
      if slot >= nextUnallocated {
        return;
      }
      freeSlots := freeSlots + [slot];
    }

    method Reset()
      modifies this
      ensures Image() == Snapshot(0, [])
    {
      freeSlots, nextUnallocated := [], 0;
    }

    method TakeSnapshot() returns (out: Snapshot)
      ensures out == Image()
    {
      out := Snapshot(nextUnallocated, freeSlots);
    }

    /** Accepts exactly the well-formed images; a refused one changes nothing. */
    method Restore(image: Snapshot) returns (ok: bool)
      modifies this
      ensures ok <==> WellFormed(image)
      ensures Image() == if ok then image else old(Image())
    {
      ok := CheckSorted(image.freeSlots, image.nextUnallocated);
      if ok {
        nextUnallocated := image.nextUnallocated;
        freeSlots := image.freeSlots;
      }
    }

    method DebugValidate() returns (ok: bool)
      ensures ok <==> WellFormed(Image())
    {
      ok := CheckSorted(freeSlots, nextUnallocated);
    }
  }

  // ----- runs -----

  datatype Call = Allocate | Release(slot: nat)

  /** Who holds what: the allocator and the slots its callers hold. */
  datatype Run = Run(image: Snapshot, live: set<nat>, answers: seq<nat>)

  function Step(r: Run, call: Call): Run {
    match call
    case Allocate =>
      var slot := Allocated(r.image);
      Run(AfterAllocate(r.image), if slot == INVALID_DENSE_SLOT then r.live else r.live + {slot}, r.answers + [slot])
    case Release(slot) => Run(AfterRelease(r.image, slot), r.live - {slot}, r.answers)
  }

  function Play(r: Run, calls: seq<Call>): Run {
    if calls == [] then r else Step(Play(r, calls[..|calls| - 1]), calls[|calls| - 1])
  }

  /** Callers release only slots they hold. */
  predicate Respects(r: Run, calls: seq<Call>) {
    calls == [] ||
    (var front, call := calls[..|calls| - 1], calls[|calls| - 1];
     Respects(r, front) && (call.Release? ==> call.slot in Play(r, front).live))
  }

  /** Live and free slots partition everything below the high water mark. */
  ghost predicate Partition(r: Run) {
    && WellFormed(r.image) && r.image.nextUnallocated <= INVALID_DENSE_SLOT
    && forall s: nat :: s in r.live <==> s < r.image.nextUnallocated && s !in r.image.freeSlots
  }

  lemma {:induction false} RunPartitions(r: Run, calls: seq<Call>)
    requires Partition(r) && Respects(r, calls)
    ensures Partition(Play(r, calls))
  {
    if calls != [] {
      var n := |calls| - 1;
      RunPartitions(r, calls[..n]);
      StepPartitions(Play(r, calls[..n]), calls[n]);
    }
  }

  lemma StepPartitions(r: Run, call: Call)
    requires Partition(r) && (call.Release? ==> call.slot in r.live)
    ensures Partition(Step(r, call))
    ensures call.Allocate? ==> Allocated(r.image) !in r.live
    ensures call.Allocate? && Allocated(r.image) == INVALID_DENSE_SLOT ==>
              r.image.freeSlots == [] && r.image.nextUnallocated == INVALID_DENSE_SLOT
  {
    if call.Allocate? && r.image.freeSlots != [] {
      var fs := r.image.freeSlots;
      var n := |fs| - 1;
      assert fs == fs[..n] + [fs[n]];
      assert fs[n] in fs;
      assert fs[n] !in fs[..n];
    }
  }

  /** In a run that respects the contract no answer is a slot somebody still holds, and the
      allocator fails only when every row is live. */
  lemma NeverHandsOutLive(r: Run, calls: seq<Call>)
    requires Partition(r) && Respects(r, calls)
    ensures var v := Play(r, calls); Allocated(v.image) !in v.live
    ensures var v := Play(r, calls);
            Allocated(v.image) == INVALID_DENSE_SLOT <==> forall s: nat :: s < INVALID_DENSE_SLOT ==> s in v.live
  {
    RunPartitions(r, calls);
    var v := Play(r, calls);
    StepPartitions(v, Allocate);
    var a := Allocated(v.image);
    if a != INVALID_DENSE_SLOT && v.image.freeSlots != [] {
      assert a in v.image.freeSlots;
    }
  }

  /** The answers depend on the image alone, so a restored allocator continues as the one that was
      saved, whoever restored it. */
  lemma {:induction false} ContinuesAlike(r: Run, other: Run, calls: seq<Call>)
    requires r.image == other.image
    ensures var v, w := Play(r, calls), Play(other, calls);
            v.image == w.image && |v.answers| >= |r.answers| && |w.answers| >= |other.answers|
            && v.answers[|r.answers|..] == w.answers[|other.answers|..]
  {
    if calls != [] {
      ContinuesAlike(r, other, calls[..|calls| - 1]);
    }
  }

  /** Released twice, a slot is handed out twice: the contract is needed, and debug_validate is
      what notices. */
  lemma DoubleReleaseSharesSlot(r: Run, slot: nat)
    requires Partition(r) && slot in r.live
    ensures var twice := AfterRelease(AfterRelease(r.image, slot), slot);
            && Allocated(twice) == slot == Allocated(AfterAllocate(twice)) && !WellFormed(twice)
  {
    var twice := AfterRelease(AfterRelease(r.image, slot), slot);
    var n := |r.image.freeSlots|;
    assert twice.freeSlots[n] == twice.freeSlots[n + 1];
  }
}
