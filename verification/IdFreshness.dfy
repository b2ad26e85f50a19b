/** How long an entity id stays unique.  An index goes through its generations one by one, so no id
    is handed out twice and no stale id comes back before an index has been reserved as often as
    there are generations; at that number it does. */
module IdFreshness {
  import opened BufferMerge
  import opened CommandOps
  import opened EntityOps
  import opened StoreRefinement
  import opened WorldStore

  /** The generations 1 to 0x7FFF_FFFF. */
  const GENERATIONS: nat := 0x7FFF_FFFF

  // ----- runs of the store -----

  /** An operation of the store: those of the world itself, and the apply of a buffer. */
  datatype Call =
    | Reserve
    | FinaliseOne(e: EntityId, sig: seq<nat>, vals: seq<Value>)
    | FinaliseMany(ids: seq<EntityId>, sig: seq<nat>, rows: seq<seq<Value>>)
    | Drop(e: EntityId)
    | DestroyOne(e: EntityId)
    | Add(e: EntityId, id: nat, val: Value)
    | Remove(e: EntityId, id: nat)
    | ApplyBuffer(rec: Recording)

  ghost predicate ValidCall(call: Call) {
    match call
    case FinaliseOne(_, sig, vals) => ValidRow(sig, vals)
    case FinaliseMany(_, sig, rows) => forall i :: 0 <= i < |rows| ==> ValidRow(sig, rows[i])
    case ApplyBuffer(rec) => ValidOps(rec.ops)
    case _ => true
  }

  ghost predicate ValidCalls(calls: seq<Call>) {
    forall k :: 0 <= k < |calls| ==> ValidCall(calls[k])
  }

  function AfterCall(w: World, call: Call): World {
    match call
    case Reserve => ReserveSlot(w)
    case FinaliseOne(e, sig, vals) => Finalise(w, e, sig, vals)
    case FinaliseMany(ids, sig, rows) => FinaliseAll(w, ids, sig, rows)
    case Drop(e) => if Unfinalised(w, e) then FreeSlot(w, e.index) else w
    case DestroyOne(e) => Destroy(w, e)
    case Add(e, id, v) => AddTo(w, e, id, v)
    case Remove(e, id) => RemoveFrom(w, e, id)
    case ApplyBuffer(rec) => ApplyRecording(w, rec)
  }

  /** The ids that applying the ops hands out, in order. */
  function IssuedByOps(s: ApplyState, ops: seq<Op>): seq<EntityId> {
    if ops == [] then []
    else
      var front := ops[..|ops| - 1];
      IssuedByOps(s, front) + Drawn(ApplyOps(s, front).world, ops[|ops| - 1])
  }

  function IssuedByCall(w: World, call: Call): seq<EntityId> {
    match call
    case Reserve => [ReservedId(w)]
    case ApplyBuffer(rec) => IssuedByOps(ApplyState(w, Unresolved(rec.deferred)), rec.ops)
    case _ => []
  }

  function After(w: World, calls: seq<Call>): World {
    if calls == [] then w else AfterCall(After(w, calls[..|calls| - 1]), calls[|calls| - 1])
  }

  /** Every id that the run hands out, in order. */
  function Issued(w: World, calls: seq<Call>): seq<EntityId> {
    if calls == [] then []
    else
      var front := calls[..|calls| - 1];
      Issued(w, front) + IssuedByCall(After(w, front), calls[|calls| - 1])
  }

  /** How often index i was reserved. */
  function Times(ids: seq<EntityId>, i: nat): nat {
    if ids == [] then 0 else Times(ids[..|ids| - 1], i) + if ids[|ids| - 1].index == i then 1 else 0
  }

  // ----- counting -----

  lemma {:induction false} TimesAdd(a: seq<EntityId>, b: seq<EntityId>, i: nat)
    ensures Times(a + b, i) == Times(a, i) + Times(b, i)
  {
    if b == [] {
      assert a + b == a;
    } else {
      var n := |b| - 1;
      TimesAdd(a, b[..n], i);
      assert (a + b)[..|a + b| - 1] == a + b[..n];
    }
  }

  lemma TimesPrefix(ids: seq<EntityId>, k: nat, i: nat)
    requires k <= |ids|
    ensures Times(ids[..k], i) <= Times(ids, i)
  {
    assert ids == ids[..k] + ids[k..];
    TimesAdd(ids[..k], ids[k..], i);
  }

  lemma TimesSnoc(ids: seq<EntityId>, k: nat, n: nat, i: nat)
    requires k < |ids| && n == k + 1
    ensures Times(ids[..n], i) == Times(ids[..k], i) + if ids[k].index == i then 1 else 0
  {
    assert ids[..n][..k] == ids[..k];
  }

  lemma {:induction false} TimesNone(ids: seq<EntityId>, i: nat)
    requires forall k :: 0 <= k < |ids| ==> ids[k].index != i
    ensures Times(ids, i) == 0
  {
    if ids != [] {
      TimesNone(ids[..|ids| - 1], i);
    }
  }

  // ----- generations -----

  /** The generation of an index after n more reservations; 0 stands for an index not in use yet. */
  function GenAfter(start: nat, n: nat): nat {
    (start + n - 1) % GENERATIONS + 1
  }

  lemma GenAdds(start: nat, n: nat, m: nat)
    requires start + n >= 1
    ensures GenAfter(GenAfter(start, n), m) == GenAfter(start, n + m)
  {
  }

  lemma GenSteps(g: nat)
    requires g <= GENERATIONS
    ensures g >= 1 ==> GenAfter(g, 0) == g && GenAfter(g, 1) == NextGeneration(g)
    ensures GenAfter(0, 1) == 1
  {
  }

  lemma GenApart(start: nat, n: nat, m: nat)
    requires n < m < n + GENERATIONS && start + n >= 1
    ensures GenAfter(start, n) != GenAfter(start, m)
  {
  }

  // ----- what an operation does to the generations -----

  function StartGen(w: World, i: nat): nat {
    if i < |w.slots| then w.slots[i].gen else 0
  }

  ghost predicate SlotMoves(w: World, v: World, ids: seq<EntityId>, i: nat)
    requires i < |v.slots|
  {
    && v.slots[i].gen == GenAfter(StartGen(w, i), Times(ids, i))
    && (i >= |w.slots| ==> Times(ids, i) >= 1)
    && (i < |w.slots| && Times(ids, i) == 0 && v.slots[i].alive ==> w.slots[i].alive)
  }

  ghost predicate IdMoves(w: World, v: World, ids: seq<EntityId>, k: nat)
    requires k < |ids|
  {
    && ids[k].index < |v.slots|
    && ids[k].gen == GenAfter(StartGen(w, ids[k].index), Times(ids[..k + 1], ids[k].index))
  }

  /** From w to v exactly these ids are handed out: every one is the next generation of its index,
      and a slot is taken into use, or changes its generation, only by being handed out. */
  ghost predicate Moves(w: World, v: World, ids: seq<EntityId>) {
    && GenerationsOk(w) && |w.slots| <= |v.slots|
    && (forall i: nat :: i < |v.slots| ==> SlotMoves(w, v, ids, i))
    && (forall k: nat :: k < |ids| ==> IdMoves(w, v, ids, k))
  }

  ghost predicate Quiet(w: World, v: World) {
    && |v.slots| == |w.slots|
    && forall i: nat :: i < |w.slots| ==>
      v.slots[i].gen == w.slots[i].gen && (v.slots[i].alive ==> w.slots[i].alive)
  }

  lemma QuietMoves(w: World, v: World)
    requires GenerationsOk(w) && Quiet(w, v)
    ensures Moves(w, v, [])
  {
    forall i: nat | i < |v.slots| ensures SlotMoves(w, v, [], i) {
      GenSteps(w.slots[i].gen);
    }
  }

  lemma ReserveMoves(w: World)
    requires GenerationsOk(w)
    ensures Moves(w, ReserveSlot(w), [ReservedId(w)])
  {
    var v, ids := ReserveSlot(w), [ReservedId(w)];
    assert ids[..0] == [] && ids[..1] == ids;
    forall i: nat | i < |v.slots| ensures SlotMoves(w, v, ids, i) {
      GenSteps(StartGen(w, i));
    }
    GenSteps(StartGen(w, ids[0].index));
    assert IdMoves(w, v, ids, 0);
  }

  lemma SlotMovesOn(w: World, v: World, u: World, a: seq<EntityId>, b: seq<EntityId>, i: nat)
    requires Moves(w, v, a) && Moves(v, u, b) && i < |u.slots|
    ensures SlotMoves(w, u, a + b, i)
  {
    TimesAdd(a, b, i);
    assert SlotMoves(v, u, b, i);
    if i < |v.slots| {
      assert SlotMoves(w, v, a, i);
      GenAdds(StartGen(w, i), Times(a, i), Times(b, i));
    } else {
      Unused(w, v, a, i);
    }
  }

  lemma Unused(w: World, v: World, ids: seq<EntityId>, i: nat)
    requires Moves(w, v, ids) && i >= |v.slots|
    ensures Times(ids, i) == 0
  {
    forall k: nat | k < |ids| ensures ids[k].index != i {
      assert IdMoves(w, v, ids, k);
    }
    TimesNone(ids, i);
  }

  lemma IdMovesOn(w: World, v: World, u: World, a: seq<EntityId>, b: seq<EntityId>, k: nat)
    requires Moves(w, v, a) && Moves(v, u, b) && k < |a + b|
    ensures IdMoves(w, u, a + b, k)
  {
    if k < |a| {
      assert (a + b)[..k + 1] == a[..k + 1];
      assert IdMoves(w, v, a, k);
    } else {
      var j := k - |a|;
      var i := b[j].index;
      assert (a + b)[..k + 1] == a + b[..j + 1];
      assert IdMoves(v, u, b, j);
      TimesAdd(a, b[..j + 1], i);
      if i < |v.slots| {
        assert SlotMoves(w, v, a, i);
        GenAdds(StartGen(w, i), Times(a, i), Times(b[..j + 1], i));
      } else {
        Unused(w, v, a, i);
      }
    }
  }

  lemma MovesOn(w: World, v: World, u: World, a: seq<EntityId>, b: seq<EntityId>)
    requires Moves(w, v, a) && Moves(v, u, b)
    ensures Moves(w, u, a + b)
  {
    forall i: nat | i < |u.slots| ensures SlotMoves(w, u, a + b, i) {
      SlotMovesOn(w, v, u, a, b, i);
    }
    forall k: nat | k < |a + b| ensures IdMoves(w, u, a + b, k) {
      IdMovesOn(w, v, u, a, b, k);
    }
  }

  // ----- every operation -----

  lemma MigrateQuiet(w: World, e: EntityId, sig: seq<nat>, vals: seq<Value>)
    ensures Quiet(w, Migrate(w, e, sig, vals))
  {
  }

  lemma AddQuiet(w: World, e: EntityId, id: nat, v: Value)
    ensures Quiet(w, AddTo(w, e, id, v))
  {
    if Live(w, e) && !w.slots[e.index].immutable && id !in CurrentSig(w, e) {
      var sig, vals := CurrentSig(w, e), CurrentVals(w, e);
      var target := InsertId(sig, id);
      MigrateQuiet(w, e, target, TargetVals(sig, vals, target, id, v));
    }
  }

  lemma RemoveQuiet(w: World, e: EntityId, id: nat)
    ensures Quiet(w, RemoveFrom(w, e, id))
  {
    if Live(w, e) && !w.slots[e.index].immutable && id in CurrentSig(w, e) {
      var sig, vals := CurrentSig(w, e), CurrentVals(w, e);
      var target := RemoveId(sig, id);
      MigrateQuiet(w, e, target, TargetVals(sig, vals, target, id, 0));
    }
  }

  lemma FinaliseQuiet(w: World, e: EntityId, sig: seq<nat>, vals: seq<Value>)
    ensures Quiet(w, Finalise(w, e, sig, vals))
  {
  }

  lemma DestroyQuiet(w: World, e: EntityId)
    ensures Quiet(w, Destroy(w, e))
  {
  }

  lemma {:induction false} FinaliseAllQuiet(w: World, ids: seq<EntityId>, sig: seq<nat>, rows: seq<seq<Value>>)
    ensures Quiet(w, FinaliseAll(w, ids, sig, rows))
  {
    if ids != [] {
      var n := |ids| - 1;
      FinaliseAllQuiet(w, ids[..n], sig, rows);
      if n < |rows| {
        FinaliseQuiet(FinaliseAll(w, ids[..n], sig, rows), ids[n], sig, rows[n]);
      }
    }
  }

  lemma {:induction false} StampAllQuiet(w: World, ids: seq<EntityId>)
    ensures Quiet(w, StampAll(w, ids))
  {
    if ids != [] {
      StampAllQuiet(w, ids[..|ids| - 1]);
    }
  }

  lemma {:induction false} ReserveAllMoves(w: World, n: nat)
    requires Inv(w)
    ensures Moves(w, ReserveSlots(w, n), ReservedIds(w, n)) && Inv(ReserveSlots(w, n))
  {
    if n == 0 {
      QuietMoves(w, w);
    } else {
      var v := ReserveSlots(w, n - 1);
      ReserveAllMoves(w, n - 1);
      ReserveMoves(v);
      ReserveInv(v);
      MovesOn(w, v, ReserveSlot(v), ReservedIds(w, n - 1), [ReservedId(v)]);
    }
  }

  /** After the reservations of an op nothing more is handed out. */
  lemma OpQuietAfter(s: ApplyState, op: Op)
    ensures Quiet(ReserveSlots(s.world, Draws(op)), ApplyOp(s, op).world)
  {
    var w := ReserveSlots(s.world, Draws(op));
    OneReservation(s.world);
    match op
    case CreateEntity(eid, sig, vals, _) =>
      FinaliseQuiet(w, if Deferred(eid) then ReservedId(s.world) else eid, sig, vals);
    case CreateEntitiesBulk(eid, reserved, sig, rows, _) =>
      var ids := if Deferred(eid) then ReservedIds(s.world, |rows|) else reserved;
      FinaliseAllQuiet(w, ids, sig, rows);
      StampAllQuiet(FinaliseAll(w, ids, sig, rows), ids);
    case DestroyEntity(eid) =>
      DestroyQuiet(w, Resolve(s.ph, eid));
    case AddComponent(eid, id, v) =>
      AddQuiet(w, Resolve(s.ph, eid), id, v);
    case RemoveComponent(eid, id) =>
      RemoveQuiet(w, Resolve(s.ph, eid), id);
  }

  lemma OpMoves(s: ApplyState, op: Op)
    requires Inv(s.world)
    ensures Moves(s.world, ApplyOp(s, op).world, Drawn(s.world, op))
  {
    var v := ReserveSlots(s.world, Draws(op));
    ReserveAllMoves(s.world, Draws(op));
    OpQuietAfter(s, op);
    QuietMoves(v, ApplyOp(s, op).world);
    MovesOn(s.world, v, ApplyOp(s, op).world, Drawn(s.world, op), []);
    assert Drawn(s.world, op) + [] == Drawn(s.world, op);
  }

  lemma {:induction false} OpsMove(s: ApplyState, ops: seq<Op>)
    requires Inv(s.world) && ValidOps(ops)
    ensures Moves(s.world, ApplyOps(s, ops).world, IssuedByOps(s, ops))
  {
    if ops == [] {
      QuietMoves(s.world, s.world);
    } else {
      var front, last := ops[..|ops| - 1], ops[|ops| - 1];
      OpsMove(s, front);
      ApplyRefines(s, front);
      OpMoves(ApplyOps(s, front), last);
      MovesOn(s.world, ApplyOps(s, front).world, ApplyOps(s, ops).world, IssuedByOps(s, front),
              Drawn(ApplyOps(s, front).world, last));
    }
  }

  lemma CallMoves(w: World, call: Call)
    requires Inv(w) && ValidCall(call)
    ensures Inv(AfterCall(w, call)) && Moves(w, AfterCall(w, call), IssuedByCall(w, call))
  {
    match call
    case Reserve =>
      ReserveInv(w);
      ReserveMoves(w);
    case ApplyBuffer(rec) =>
      ApplyRefines(ApplyState(w, Unresolved(rec.deferred)), rec.ops);
      OpsMove(ApplyState(w, Unresolved(rec.deferred)), rec.ops);
    case _ =>
      QuietCall(w, call);
      QuietMoves(w, AfterCall(w, call));
  }

  lemma QuietCall(w: World, call: Call)
    requires Inv(w) && ValidCall(call) && !call.Reserve? && !call.ApplyBuffer?
    ensures Inv(AfterCall(w, call)) && Quiet(w, AfterCall(w, call))
  {
    match call
    case FinaliseOne(e, sig, vals) =>
      FinaliseInv(w, e, sig, vals);
      FinaliseQuiet(w, e, sig, vals);
    case FinaliseMany(ids, sig, rows) =>
      FinaliseAllRefines(w, ids, sig, rows);
      FinaliseAllQuiet(w, ids, sig, rows);
    case Drop(e) =>
      if Unfinalised(w, e) {
        DropInv(w, e);
      }
    case DestroyOne(e) =>
      DestroyInv(w, e);
      DestroyQuiet(w, e);
    case Add(e, id, v) =>
      AddInv(w, e, id, v);
      AddQuiet(w, e, id, v);
    case Remove(e, id) =>
      RemoveInv(w, e, id);
      RemoveQuiet(w, e, id);
  }

  lemma {:induction false} RunMoves(w: World, calls: seq<Call>)
    requires Inv(w) && ValidCalls(calls)
    ensures Inv(After(w, calls)) && Moves(w, After(w, calls), Issued(w, calls))
  {
    if calls == [] {
      QuietMoves(w, w);
    } else {
      var front, last := calls[..|calls| - 1], calls[|calls| - 1];
      RunMoves(w, front);
      CallMoves(After(w, front), last);
      MovesOn(w, After(w, front), After(w, calls), Issued(w, front), IssuedByCall(After(w, front), last));
    }
  }

  // ----- the laws -----

  /** No index is reserved more often than this. */
  ghost predicate AtMost(ids: seq<EntityId>, bound: nat) {
    forall i: nat :: Times(ids, i) <= bound
  }

  /** Over any run of operations that reserves no index more than 0x7FFF_FFFF times, no id is
      handed out twice. */
  lemma NoIdTwice(w: World, calls: seq<Call>, j: nat, k: nat)
    requires Inv(w) && ValidCalls(calls) && AtMost(Issued(w, calls), GENERATIONS) && j < k < |Issued(w, calls)|
    ensures Issued(w, calls)[j] != Issued(w, calls)[k]
  {
    var ids := Issued(w, calls);
    RunMoves(w, calls);
    if ids[j].index == ids[k].index {
      SameIndexApart(w, After(w, calls), ids, j, k);
    }
  }

  lemma SameIndexApart(w: World, v: World, ids: seq<EntityId>, j: nat, k: nat)
    requires Moves(w, v, ids) && AtMost(ids, GENERATIONS) && j < k < |ids| && ids[j].index == ids[k].index
    ensures ids[j].gen != ids[k].gen
  {
    var i := ids[k].index;
    assert IdMoves(w, v, ids, j) && IdMoves(w, v, ids, k);
    assert Times(ids, i) <= GENERATIONS;
    LaterTimes(ids, j, j + 1, k, k + 1, i);
    TimesPrefix(ids, k + 1, i);
    GenApart(StartGen(w, i), Times(ids[..j + 1], i), Times(ids[..k + 1], i));
  }

  lemma TimesGrow(ids: seq<EntityId>, m: nat, n: nat, i: nat)
    requires m <= n <= |ids|
    ensures Times(ids[..m], i) <= Times(ids[..n], i)
  {
    TimesPrefix(ids[..n], m, i);
    assert ids[..n][..m] == ids[..m];
  }

  /** m and n are the numbers of ids up to and with the j-th and the k-th. */
  lemma LaterTimes(ids: seq<EntityId>, j: nat, m: nat, k: nat, n: nat, i: nat)
    requires m == j + 1 && n == k + 1 && j < k < |ids| && ids[j].index == i && ids[k].index == i
    ensures 1 <= Times(ids[..m], i) && Times(ids[..m], i) < Times(ids[..n], i)
  {
    TimesSnoc(ids, j, m, i);
    TimesSnoc(ids, k, n, i);
    TimesGrow(ids, m, k, i);
  }

  /** An id that some slot has at the start, in use or stale, is not handed out while its index is
      reserved fewer than 0x7FFF_FFFF times. */
  lemma OldIdsStayAway(w: World, calls: seq<Call>, i: nat, k: nat)
    requires Inv(w) && ValidCalls(calls) && AtMost(Issued(w, calls), GENERATIONS - 1)
    requires i < |w.slots| && k < |Issued(w, calls)|
    ensures Issued(w, calls)[k] != IdAt(w, i)
  {
    var ids, v := Issued(w, calls), After(w, calls);
    RunMoves(w, calls);
    assert IdMoves(w, v, ids, k);
    if ids[k].index == i {
      TimesSnoc(ids, k, k + 1, i);
      TimesPrefix(ids, k + 1, i);
      assert Times(ids, i) <= GENERATIONS - 1;
      GenSteps(w.slots[i].gen);
      GenApart(w.slots[i].gen, 0, Times(ids[..k + 1], i));
    }
  }

  /** An id that was held and no longer is will not be held again, whatever operations follow, as
      long as they reserve no index 0x7FFF_FFFF times. */
  lemma StaleForever(w: World, first: seq<Call>, later: seq<Call>, e: EntityId)
    requires Inv(w) && ValidCalls(first) && ValidCalls(later) && Holds(w, e) && !Holds(After(w, first), e)
    requires AtMost(Issued(w, first) + Issued(After(w, first), later), GENERATIONS - 1)
    ensures !Holds(After(After(w, first), later), e)
  {
    RunMoves(w, first);
    RunMoves(After(w, first), later);
    StaysStale(w, After(w, first), After(After(w, first), later), Issued(w, first), Issued(After(w, first), later), e);
  }

  lemma StaysStale(w: World, v: World, u: World, a: seq<EntityId>, b: seq<EntityId>, e: EntityId)
    requires Moves(w, v, a) && Moves(v, u, b) && AtMost(a + b, GENERATIONS - 1) && Holds(w, e) && !Holds(v, e)
    ensures !Holds(u, e)
  {
    var i := e.index;
    assert SlotMoves(w, v, a, i) && SlotMoves(v, u, b, i);
    SlotMovesOn(w, v, u, a, b, i);
    TimesAdd(a, b, i);
    assert Times(a + b, i) <= GENERATIONS - 1;
    GenSteps(e.gen);
    if Times(a + b, i) > 0 {
      GenApart(e.gen, 0, Times(a + b, i));
    }
  }

  /** A destroyed entity is never alive again. */
  lemma DestroyedForGood(w: World, e: EntityId, later: seq<Call>)
    requires Inv(w) && Live(w, e) && ValidCalls(later)
    requires AtMost(Issued(Destroy(w, e), later), GENERATIONS - 1)
    ensures !Holds(After(Destroy(w, e), later), e)
  {
    DestroyInv(w, e);
    DestroyQuiet(w, e);
    QuietMoves(w, Destroy(w, e));
    NotHeldAfter(w, e);
    RunMoves(Destroy(w, e), later);
    assert [] + Issued(Destroy(w, e), later) == Issued(Destroy(w, e), later);
    StaysStale(w, Destroy(w, e), After(Destroy(w, e), later), [], Issued(Destroy(w, e), later), e);
  }

  lemma NotHeldAfter(w: World, e: EntityId)
    requires Inv(w) && Live(w, e)
    ensures !Holds(Destroy(w, e), e)
  {
    DestroyRows(w, e);
  }

  // ----- the bounds are exact -----

  /** Reserve a slot and drop it, n times over. */
  function Rounds(w: World, n: nat): (calls: seq<Call>) {
    if n == 0 then []
    else
      var before := Rounds(w, n - 1);
      before + [Reserve, Drop(ReservedId(After(w, before)))]
  }

  lemma AfterTwo(w: World, calls: seq<Call>, x: Call, y: Call)
    ensures After(w, calls + [x, y]) == AfterCall(AfterCall(After(w, calls), x), y)
    ensures Issued(w, calls + [x, y]) ==
            Issued(w, calls) + IssuedByCall(After(w, calls), x) + IssuedByCall(AfterCall(After(w, calls), x), y)
  {
    var longer := calls + [x, y];
    assert longer[..|longer| - 1] == calls + [x];
    assert (calls + [x])[..|calls|] == calls;
  }

  /** v has its only news at the front of the free list, which is w's. */
  ghost predicate SameFront(w: World, v: World, gen: nat) {
    && Inv(v) && v.hasFree && v.firstFree == w.firstFree < |v.slots| && v.slots[w.firstFree].gen == gen
  }

  lemma FirstInTable(w: World)
    requires Inv(w) && w.hasFree
    ensures w.firstFree < |w.slots| && !w.slots[w.firstFree].alive
  {
    var fl :| FreeChain(w, fl);
    assert fl[0] in fl;
  }

  /** One round advances the generation of the first free slot and leaves it in front. */
  lemma OneRound(w: World)
    requires Inv(w) && w.hasFree
    ensures var v := AfterCall(ReserveSlot(w), Drop(ReservedId(w)));
            && Inv(v) && v.hasFree && v.firstFree == w.firstFree < |v.slots| && w.firstFree < |w.slots|
            && ReservedId(w) == EntityId(w.firstFree, GenAfter(w.slots[w.firstFree].gen, 1))
            && v.slots[w.firstFree].gen == ReservedId(w).gen
  {
    FirstInTable(w);
    ReserveInv(w);
    DropInv(ReserveSlot(w), ReservedId(w));
    GenSteps(w.slots[w.firstFree].gen);
  }

  /** The n generations of index i that follow gen. */
  ghost predicate Successive(ids: seq<EntityId>, i: nat, gen: nat, n: nat) {
    |ids| == n && forall k: nat :: k < n ==> ids[k] == EntityId(i, GenAfter(gen, k + 1))
  }

  lemma SuccessiveMore(ids: seq<EntityId>, i: nat, gen: nat, m: nat, n: nat, e: EntityId)
    requires Successive(ids, i, gen, m) && n == m + 1 && e == EntityId(i, GenAfter(gen, n))
    ensures Successive(ids + [e], i, gen, n)
  {
  }

  lemma RoundAdds(w: World, m: nat, n: nat, before: seq<Call>, v: World)
    requires n == m + 1 && before == Rounds(w, m) && v == After(w, before)
    ensures Issued(w, Rounds(w, n)) == Issued(w, before) + [ReservedId(v)]
    ensures After(w, Rounds(w, n)) == AfterCall(ReserveSlot(v), Drop(ReservedId(v)))
  {
    var x, y := Reserve, Drop(ReservedId(v));
    NextRounds(w, m, n);
    AfterTwo(w, before, x, y);
    assert IssuedByCall(v, x) == [ReservedId(v)] && IssuedByCall(AfterCall(v, x), y) == [];
    assert Issued(w, before) + [ReservedId(v)] + [] == Issued(w, before) + [ReservedId(v)];
  }

  lemma NextRounds(w: World, m: nat, n: nat)
    requires n == m + 1
    ensures Rounds(w, n) == Rounds(w, m) + [Reserve, Drop(ReservedId(After(w, Rounds(w, m))))]
  {
  }

  /** gen is the generation of the first free slot at the start. */
  ghost predicate RoundsDone(w: World, n: nat, gen: nat) {
    && SameFront(w, After(w, Rounds(w, n)), GenAfter(gen, n))
    && Successive(Issued(w, Rounds(w, n)), w.firstFree, gen, n)
  }

  lemma FrontMoves(w: World, v: World, u: World, gen: nat, m: nat, n: nat)
    requires SameFront(w, v, GenAfter(gen, m)) && gen >= 1 && n == m + 1
    requires u == AfterCall(ReserveSlot(v), Drop(ReservedId(v)))
    ensures SameFront(w, u, GenAfter(gen, n)) && ReservedId(v) == EntityId(w.firstFree, GenAfter(gen, n))
  {
    OneRound(v);
    GenAdds(gen, m, 1);
  }

  lemma {:induction false} RoundsIssue(w: World, n: nat, gen: nat)
    requires Inv(w) && w.hasFree && w.firstFree < |w.slots| && gen == w.slots[w.firstFree].gen
    ensures RoundsDone(w, n, gen)
  {
    if n == 0 {
      NoRounds(w, gen);
    } else {
      RoundsIssue(w, n - 1, gen);
      NextRound(w, n - 1, n, gen);
    }
  }

  lemma NoRounds(w: World, gen: nat)
    requires Inv(w) && w.hasFree && w.firstFree < |w.slots| && gen == w.slots[w.firstFree].gen
    ensures RoundsDone(w, 0, gen)
  {
    GenSteps(gen);
  }

  lemma NextRound(w: World, m: nat, n: nat, gen: nat)
    requires RoundsDone(w, m, gen) && gen >= 1 && n == m + 1
    ensures RoundsDone(w, n, gen)
  {
    var v, u := After(w, Rounds(w, m)), After(w, Rounds(w, n));
    RoundAdds(w, m, n, Rounds(w, m), v);
    FrontMoves(w, v, u, gen, m, n);
    SuccessiveMore(Issued(w, Rounds(w, m)), w.firstFree, gen, m, n, ReservedId(v));
  }

  lemma {:induction false} RoundsValid(w: World, n: nat)
    ensures ValidCalls(Rounds(w, n))
  {
    if n > 0 {
      RoundsValid(w, n - 1);
    }
  }

  /** Both bounds are exact: once its index has been reserved 0x7FFF_FFFF times a stale id is handed
      out again, and one reservation later the first of those ids. */
  lemma IdsComeBack(w: World)
    requires Inv(w) && w.hasFree
    ensures w.firstFree < |w.slots|
    ensures var ids := Issued(w, Rounds(w, GENERATIONS + 1));
            && ValidCalls(Rounds(w, GENERATIONS + 1)) && |ids| == GENERATIONS + 1
            && ids[GENERATIONS - 1] == IdAt(w, w.firstFree) && ids[GENERATIONS] == ids[0]
  {
    FirstInTable(w);
    RoundsValid(w, GENERATIONS + 1);
    RoundsIssue(w, GENERATIONS + 1, w.slots[w.firstFree].gen);
    ComesBack(w.slots[w.firstFree].gen);
  }

  lemma ComesBack(g: nat)
    requires 1 <= g <= GENERATIONS
    ensures GenAfter(g, GENERATIONS) == g && GenAfter(g, GENERATIONS + 1) == GenAfter(g, 1)
  {
  }
}
