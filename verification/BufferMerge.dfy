/** Splicing command buffers: applying a merged buffer is applying its parts one after another. */
module BufferMerge {
  import opened WorldStore
  import opened CommandOps

  /** What a buffer has recorded: its queue, and how many placeholders it has handed out. */
  datatype Recording = Recording(ops: seq<Op>, deferred: nat)

  function RebaseId(e: EntityId, base: nat): EntityId {
    if Deferred(e) then EntityId(e.index + base, e.gen) else e
  }

  function Rebase(op: Op, base: nat): Op {
    op.(eid := RebaseId(op.eid, base))
  }

  function RebaseAll(ops: seq<Op>, base: nat): (r: seq<Op>)
    ensures |r| == |ops|
  {
    seq(|ops|, k requires 0 <= k < |ops| => Rebase(ops[k], base))
  }

  function Merge(a: Recording, b: Recording): Recording {
    Recording(a.ops + RebaseAll(b.ops, a.deferred), a.deferred + b.deferred)
  }

  function MergeAll(a: Recording, bs: seq<Recording>): Recording {
    if bs == [] then a else Merge(MergeAll(a, bs[..|bs| - 1]), bs[|bs| - 1])
  }

  function Unresolved(n: nat): (r: seq<EntityId>)
    ensures |r| == n
  {
    seq(n, _ => INVALID_ENTITY)
  }

  /** CommandBuffer::apply. */
  function ApplyRecording(w: World, r: Recording): World {
    ApplyOps(ApplyState(w, Unresolved(r.deferred)), r.ops).world
  }

  function ApplyRecordings(w: World, rs: seq<Recording>): World {
    if rs == [] then w else ApplyRecording(ApplyRecordings(w, rs[..|rs| - 1]), rs[|rs| - 1])
  }

  /** The placeholders an op hands out are among the first n. */
  predicate Defines(op: Op, n: nat) {
    match op
    case CreateEntity(eid, _, _, _) => Deferred(eid) ==> eid.index < n
    case CreateEntitiesBulk(eid, _, _, rows, _) => Deferred(eid) ==> eid.index + |rows| <= n
    case _ => true
  }

  ghost predicate WellRecorded(r: Recording) {
    forall k :: 0 <= k < |r.ops| ==> Defines(r.ops[k], r.deferred)
  }

  // ----- one op in a wider placeholder table -----

  ghost predicate AllInvalid(ids: seq<EntityId>) {
    forall k :: 0 <= k < |ids| ==> ids[k] == INVALID_ENTITY
  }

  lemma ResolveWide(p: seq<EntityId>, q: seq<EntityId>, r: seq<EntityId>, e: EntityId)
    requires AllInvalid(r)
    ensures Resolve(p + q + r, RebaseId(e, |p|)) == Resolve(q, e)
  {
  }

  lemma BindWide(p: seq<EntityId>, q: seq<EntityId>, r: seq<EntityId>, i: nat, e: EntityId)
    requires i < |q|
    ensures Bind(p + q + r, i + |p|, e) == p + Bind(q, i, e) + r
  {
  }

  lemma {:induction false} BindAllWide(p: seq<EntityId>, q: seq<EntityId>, r: seq<EntityId>, base: nat,
                                       ids: seq<EntityId>)
    requires base + |ids| <= |q|
    ensures BindAll(p + q + r, base + |p|, ids) == p + BindAll(q, base, ids) + r
  {
    if ids != [] {
      var n := |ids| - 1;
      BindAllWide(p, q, r, base, ids[..n]);
      BindWide(p, BindAll(q, base, ids[..n]), r, base + n, ids[n]);
    }
  }

  function Widen(p: seq<EntityId>, s: ApplyState, r: seq<EntityId>): ApplyState {
    ApplyState(s.world, p + s.ph + r)
  }

  lemma RebaseOp(p: seq<EntityId>, s: ApplyState, r: seq<EntityId>, op: Op)
    requires Defines(op, |s.ph|) && AllInvalid(r)
    ensures ApplyOp(Widen(p, s, r), Rebase(op, |p|)) == Widen(p, ApplyOp(s, op), r)
    ensures |ApplyOp(s, op).ph| == |s.ph|
  {
    ResolveWide(p, s.ph, r, op.eid);
    if Deferred(op.eid) {
      match op
      case CreateEntity(eid, _, _, _) => BindWide(p, s.ph, r, eid.index, ReservedId(s.world));
      case CreateEntitiesBulk(eid, _, _, rows, _) => BindAllWide(p, s.ph, r, eid.index, ReservedIds(s.world, |rows|));
      case _ =>
    }
  }

  lemma {:induction false} RebaseOps(p: seq<EntityId>, s: ApplyState, r: seq<EntityId>, ops: seq<Op>)
    requires (forall k :: 0 <= k < |ops| ==> Defines(ops[k], |s.ph|)) && AllInvalid(r)
    ensures ApplyOps(Widen(p, s, r), RebaseAll(ops, |p|)) == Widen(p, ApplyOps(s, ops), r)
    ensures |ApplyOps(s, ops).ph| == |s.ph|
  {
    if ops != [] {
      var n := |ops| - 1;
      RebaseOps(p, s, r, ops[..n]);
      assert RebaseAll(ops, |p|)[..n] == RebaseAll(ops[..n], |p|);
      RebaseOp(p, ApplyOps(s, ops[..n]), r, ops[n]);
    }
  }

  lemma ApplySnoc(s: ApplyState, ops: seq<Op>, op: Op)
    ensures ApplyOps(s, ops + [op]) == ApplyOp(ApplyOps(s, ops), op)
  {
    assert (ops + [op])[..|ops|] == ops;
  }

  lemma {:induction false} ApplyConcat(s: ApplyState, a: seq<Op>, b: seq<Op>)
    ensures ApplyOps(s, a + b) == ApplyOps(ApplyOps(s, a), b)
  {
    if b == [] {
      assert a + b == a;
    } else {
      var c, op := b[..|b| - 1], b[|b| - 1];
      ApplyConcat(s, a, c);
      assert b == c + [op] && a + b == a + c + [op];
      ApplySnoc(s, a + c, op);
      ApplySnoc(ApplyOps(s, a), c, op);
    }
  }

  lemma RebaseZero(ops: seq<Op>)
    ensures RebaseAll(ops, 0) == ops
  {
    forall k | 0 <= k < |ops| ensures Rebase(ops[k], 0) == ops[k] {
      assert RebaseId(ops[k].eid, 0) == ops[k].eid;
    }
  }

  // ----- merging -----

  /** Merging keeps every placeholder definition inside its own recorder's range. */
  lemma MergeWellRecorded(a: Recording, b: Recording)
    requires WellRecorded(a) && WellRecorded(b)
    ensures WellRecorded(Merge(a, b))
  {
    var m := Merge(a, b);
    forall k | 0 <= k < |m.ops| ensures Defines(m.ops[k], m.deferred) {
      if k >= |a.ops| {
        assert Defines(b.ops[k - |a.ops|], b.deferred);
      }
    }
  }

  /** The first buffer's ops in the table of both leave the second buffer's part unresolved. */
  lemma FirstPart(w: World, ops: seq<Op>, ua: seq<EntityId>, ub: seq<EntityId>)
    requires (forall k :: 0 <= k < |ops| ==> Defines(ops[k], |ua|)) && AllInvalid(ub)
    ensures ApplyOps(ApplyState(w, ua + ub), ops) ==
            ApplyState(ApplyOps(ApplyState(w, ua), ops).world, ApplyOps(ApplyState(w, ua), ops).ph + ub)
    ensures |ApplyOps(ApplyState(w, ua), ops).ph| == |ua|
  {
    var s := ApplyState(w, ua);
    RebaseOps([], s, ub, ops);
    RebaseZero(ops);
    assert [] + ua + ub == ua + ub && [] + ApplyOps(s, ops).ph + ub == ApplyOps(s, ops).ph + ub;
  }

  /** The second buffer's rebased ops do not see the first buffer's part. */
  lemma SecondPart(w: World, ops: seq<Op>, pa: seq<EntityId>, ub: seq<EntityId>)
    requires forall k :: 0 <= k < |ops| ==> Defines(ops[k], |ub|)
    ensures ApplyOps(ApplyState(w, pa + ub), RebaseAll(ops, |pa|)).world == ApplyOps(ApplyState(w, ub), ops).world
  {
    RebaseOps(pa, ApplyState(w, ub), [], ops);
    assert pa + ub + [] == pa + ub;
  }

  lemma UnresolvedSum(m: nat, n: nat)
    ensures Unresolved(m + n) == Unresolved(m) + Unresolved(n) && AllInvalid(Unresolved(n))
  {
  }

  lemma InTurn(w: World, a: Recording, b: Recording, mid: ApplyState)
    requires WellRecorded(a) && WellRecorded(b) && mid == ApplyOps(ApplyState(w, Unresolved(a.deferred)), a.ops)
    ensures ApplyOps(ApplyState(w, Unresolved(a.deferred) + Unresolved(b.deferred)),
                     a.ops + RebaseAll(b.ops, a.deferred)).world ==
            ApplyRecording(mid.world, b)
  {
    var ua, ub := Unresolved(a.deferred), Unresolved(b.deferred);
    UnresolvedSum(a.deferred, b.deferred);
    FirstPart(w, a.ops, ua, ub);
    ApplyConcat(ApplyState(w, ua + ub), a.ops, RebaseAll(b.ops, a.deferred));
    SecondPart(mid.world, b.ops, mid.ph, ub);
  }

  lemma MergedTable(w: World, a: Recording, b: Recording, table: seq<EntityId>)
    requires table == Unresolved(a.deferred) + Unresolved(b.deferred)
    ensures ApplyRecording(w, Merge(a, b)) == ApplyOps(ApplyState(w, table), a.ops + RebaseAll(b.ops, a.deferred)).world
  {
    UnresolvedSum(a.deferred, b.deferred);
  }

  /** Applying a merged buffer is applying the two buffers in order, each with a placeholder table
      of its own. */
  lemma MergeThenApply(w: World, a: Recording, b: Recording)
    requires WellRecorded(a) && WellRecorded(b)
    ensures ApplyRecording(w, Merge(a, b)) == ApplyRecording(ApplyRecording(w, a), b)
  {
    MergedTable(w, a, b, Unresolved(a.deferred) + Unresolved(b.deferred));
    InTurn(w, a, b, ApplyOps(ApplyState(w, Unresolved(a.deferred)), a.ops));
  }

  /** The per-chunk buffers of a threaded system, spliced in order and applied once. */
  lemma {:induction false} MergeAllThenApply(w: World, a: Recording, bs: seq<Recording>)
    requires WellRecorded(a) && forall k :: 0 <= k < |bs| ==> WellRecorded(bs[k])
    ensures WellRecorded(MergeAll(a, bs))
    ensures ApplyRecording(w, MergeAll(a, bs)) == ApplyRecordings(ApplyRecording(w, a), bs)
  {
    if bs != [] {
      var n := |bs| - 1;
      MergeAllThenApply(w, a, bs[..n]);
      MergeWellRecorded(MergeAll(a, bs[..n]), bs[n]);
      MergeThenApply(w, MergeAll(a, bs[..n]), bs[n]);
    }
  }

  /** Grouping of merges does not matter. */
  lemma MergeAssociative(a: Recording, b: Recording, c: Recording)
    ensures Merge(Merge(a, b), c) == Merge(a, Merge(b, c))
  {
    var left, right := Merge(Merge(a, b), c), Merge(a, Merge(b, c));
    forall k | 0 <= k < |left.ops| ensures left.ops[k] == right.ops[k] {
      if |a.ops| + |b.ops| <= k {
        var e := c.ops[k - |a.ops| - |b.ops|].eid;
        assert RebaseId(e, a.deferred + b.deferred) == RebaseId(RebaseId(e, b.deferred), a.deferred);
      }
    }
  }

  /** Two placeholders of different buffers, or two different ones of the same buffer, stay
      different after the rebase, and real ids are untouched. */
  lemma RebaseKeepsApart(a: Recording, b: Recording, e: EntityId, f: EntityId)
    requires Deferred(e) && Deferred(f) && e.gen == f.gen
    ensures e.index < a.deferred ==> e != RebaseId(f, a.deferred)
    ensures RebaseId(e, a.deferred) == RebaseId(f, a.deferred) <==> e == f
    ensures f.index < b.deferred ==> RebaseId(f, a.deferred).index < Merge(a, b).deferred
    ensures forall x :: !Deferred(x) ==> RebaseId(x, a.deferred) == x
  {
  }

  // ----- validity -----

  lemma MergeValid(a: seq<Op>, b: seq<Op>, base: nat)
    requires ValidOps(a) && ValidOps(b)
    ensures ValidOps(a + RebaseAll(b, base))
  {
    forall k | 0 <= k < |b| ensures ValidOp(Rebase(b[k], base)) {
      assert ValidOp(b[k]);
    }
  }
}
