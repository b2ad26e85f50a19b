/** The CommandBuffer object: recording, splicing and applying. */
module CommandBuffers {
  import opened Sorting
  import opened WorldStore
  import opened EntityOps
  import opened CommandOps
  import opened BufferMerge
  import opened BulkCreate
  import opened StoreRefinement
  import opened EntityWorld

  // ----- sorting the components of a create -----

  predicate DistinctNats(s: seq<nat>) {
    forall i, j :: 0 <= i < j < |s| ==> s[i] != s[j]
  }

  /** Exchange sort of the component ids. */
  method SortIds(raw: seq<nat>) returns (sig: seq<nat>)
    requires DistinctNats(raw)
    ensures Ascending(sig) && |sig| == |raw| && forall x: nat :: x in sig <==> x in raw
  {
    var n := |raw|;
    var a := new nat[n](i requires 0 <= i < n => raw[i]);
    assert a[..] == raw;
    var i := 0;
    while i < n
      invariant 0 <= i <= n && Permuted(a[..], raw)
      invariant forall p, q :: 0 <= p < i && p < q < n ==> a[p] < a[q]
    {
      var j := i + 1;
      while j < n
        invariant i < j <= n && Permuted(a[..], raw)
        invariant forall p, q :: 0 <= p < i && p < q < n ==> a[p] < a[q]
        invariant forall q :: i < q < j ==> a[i] < a[q]
      {
        ghost var was := a[..];
        if a[j] < a[i] {
          a[i], a[j] := a[j], a[i];
          SwapPermuted(was, raw, i, j);
          assert a[..] == was[i := was[j]][j := was[i]];
        } else {
          assert was[i] != was[j];
        }
        j := j + 1;
      }
      i := i + 1;
    }
    sig := a[..];
  }

  /** The same ids, without repetition. */
  ghost predicate Permuted(s: seq<nat>, raw: seq<nat>) {
    |s| == |raw| && DistinctNats(s) && forall x: nat :: x in s <==> x in raw
  }

  lemma SwapPermuted(s: seq<nat>, raw: seq<nat>, i: nat, j: nat)
    requires Permuted(s, raw) && i < j < |s|
    ensures Permuted(s[i := s[j]][j := s[i]], raw)
  {
    var t := s[i := s[j]][j := s[i]];
    forall x: nat ensures x in t <==> x in s {
      if x in s {
        var k :| 0 <= k < |s| && s[k] == x;
        assert t[if k == i then j else if k == j then i else k] == x;
      }
    }
  }

  /** Each value at its component's sorted position. */
  method PlaceValues(raw: seq<nat>, vals: seq<Value>, sig: seq<nat>) returns (placed: seq<Value>)
    requires DistinctNats(raw) && |vals| == |raw| && |sig| == |raw| && forall x: nat :: x in sig <==> x in raw
    ensures |placed| == |sig| && Components(sig, placed) == Components(raw, vals)
  {
    placed := seq(|sig|, _ => 0);
    var i := 0;
    while i < |raw|
      invariant 0 <= i <= |raw| && |placed| == |sig|
      invariant forall k :: 0 <= k < i ==> PlacedAt(raw, vals, sig, placed, k)
    {
      var target := FindColumn(sig, raw[i]);
      assert raw[i] in sig;
      ghost var was := placed;
      placed := placed[target := vals[i]];
      forall k | 0 <= k <= i ensures PlacedAt(raw, vals, sig, placed, k) {
        if k < i {
          assert PlacedAt(raw, vals, sig, was, k) && raw[k] != raw[i];
          assert sig[ColumnIndex(sig, raw[k])] == raw[k];
        }
      }
      i := i + 1;
    }
    PlacedComponents(raw, vals, sig, placed);
  }

  ghost predicate PlacedAt(raw: seq<nat>, vals: seq<Value>, sig: seq<nat>, placed: seq<Value>, k: nat)
    requires k < |raw| && |vals| == |raw| && |placed| == |sig|
  {
    ColumnIndex(sig, raw[k]) < |sig| && placed[ColumnIndex(sig, raw[k])] == vals[k]
  }

  lemma PlacedComponents(raw: seq<nat>, vals: seq<Value>, sig: seq<nat>, placed: seq<Value>)
    requires DistinctNats(raw) && |vals| == |raw| && |placed| == |sig| && forall x: nat :: x in sig <==> x in raw
    requires forall k :: 0 <= k < |raw| ==> PlacedAt(raw, vals, sig, placed, k)
    ensures Components(sig, placed) == Components(raw, vals)
  {
    ComponentsLookup(sig, placed);
    ComponentsLookup(raw, vals);
    forall x: nat | x in sig ensures placed[ColumnIndex(sig, x)] == vals[ColumnIndex(raw, x)] {
      assert PlacedAt(raw, vals, sig, placed, ColumnIndex(raw, x));
    }
    EntityOps.SameMap(Components(sig, placed), Components(raw, vals));
  }

  /** Archetype::column_index_for. */
  method FindColumn(sig: seq<nat>, id: nat) returns (c: nat)
    ensures c == ColumnIndex(sig, id)
  {
    c := 0;
    while c < |sig|
      invariant c <= |sig| && ColumnIndex(sig, id) == c + ColumnIndex(sig[c..], id)
    {
      assert sig[c..][0] == sig[c] && sig[c..][1..] == sig[c + 1..];
      if sig[c] == id {
        return;
      }
      c := c + 1;
    }
  }

  // ----- signatures and rows of a migration -----

  /** What is left to copy, from column i on. */
  ghost function ToInsert(sig: seq<nat>, id: nat, i: nat, inserted: bool): seq<nat>
    requires i <= |sig|
  {
    if inserted then sig[i..] else InsertId(sig[i..], id)
  }

  /** The target so far, and what is left, make up the whole. */
  ghost predicate Copied(sig: seq<nat>, id: nat, i: nat, inserted: bool, target: seq<nat>) {
    i <= |sig| && InsertId(sig, id) == target + ToInsert(sig, id, i, inserted)
  }

  lemma MoveOver(a: seq<nat>, b: seq<nat>, c: seq<nat>)
    ensures a + (b + c) == (a + b) + c
  {
  }

  lemma CopyOne(sig: seq<nat>, id: nat, i: nat, inserted: bool, target: seq<nat>)
    requires Copied(sig, id, i, inserted, target) && i < |sig| && (inserted || sig[i] <= id)
    ensures Copied(sig, id, i + 1, inserted, target + [sig[i]])
  {
    assert sig[i..][1..] == sig[i + 1..];
    assert ToInsert(sig, id, i, inserted) == [sig[i]] + ToInsert(sig, id, i + 1, inserted);
    MoveOver(target, [sig[i]], ToInsert(sig, id, i + 1, inserted));
  }

  lemma CopyWithNew(sig: seq<nat>, id: nat, i: nat, target: seq<nat>)
    requires Copied(sig, id, i, false, target) && i < |sig| && sig[i] > id
    ensures Copied(sig, id, i + 1, true, target + [id] + [sig[i]])
  {
    assert sig[i..] == [sig[i]] + sig[i + 1..];
    assert ToInsert(sig, id, i, false) == [id] + ([sig[i]] + ToInsert(sig, id, i + 1, true));
    MoveOver(target, [id], [sig[i]] + ToInsert(sig, id, i + 1, true));
    MoveOver(target + [id], [sig[i]], ToInsert(sig, id, i + 1, true));
  }

  lemma CopiedAll(sig: seq<nat>, id: nat, inserted: bool, target: seq<nat>)
    requires Copied(sig, id, |sig|, inserted, target)
    ensures InsertId(sig, id) == if inserted then target else target + [id]
  {
    assert ToInsert(sig, id, |sig|, inserted) == if inserted then [] else [id];
  }

  method TargetWith(sig: seq<nat>, id: nat) returns (target: seq<nat>)
    ensures target == InsertId(sig, id)
  {
    target := [];
    var inserted := false;
    var i := 0;
    assert Copied(sig, id, 0, false, []) by {
      assert sig[0..] == sig;
    }
    while i < |sig|
      invariant 0 <= i <= |sig| && Copied(sig, id, i, inserted, target)
    {
      if !inserted && sig[i] > id {
        CopyWithNew(sig, id, i, target);
        target := target + [id] + [sig[i]];
        inserted := true;
      } else {
        CopyOne(sig, id, i, inserted, target);
        target := target + [sig[i]];
      }
      i := i + 1;
    }
    CopiedAll(sig, id, inserted, target);
    if !inserted {
      target := target + [id];
    }
  }

  method TargetWithout(sig: seq<nat>, id: nat) returns (target: seq<nat>)
    ensures target == RemoveId(sig, id)
  {
    target := [];
    var i := 0;
    while i < |sig|
      invariant 0 <= i <= |sig| && RemoveId(sig, id) == target + RemoveId(sig[i..], id)
    {
      assert sig[i..][0] == sig[i] && sig[i..][1..] == sig[i + 1..];
      if sig[i] != id {
        target := target + [sig[i]];
      }
      i := i + 1;
    }
  }

  /** The row moved over column by column; a component of that id takes the new value. */
  method CarryValues(sig: seq<nat>, vals: seq<Value>, target: seq<nat>, id: nat, v: Value) returns (row: seq<Value>)
    requires |vals| == |sig| && forall x: nat :: x in target ==> x in sig || x == id
    ensures row == TargetVals(sig, vals, target, id, v)
  {
    row := [];
    var i := 0;
    while i < |target|
      invariant 0 <= i <= |target| && row == TargetVals(sig, vals, target, id, v)[..i]
    {
      if target[i] == id {
        row := row + [v];
      } else {
        var c := FindColumn(sig, target[i]);
        assert target[i] in target;
        row := row + [vals[c]];
      }
      i := i + 1;
    }
  }

  // ----- facts the methods below need about the world -----

  lemma {:induction false} ReservedDistinct(w: World, n: nat)
    requires Inv(w)
    ensures DistinctIds(ReservedIds(w, n)) && forall k :: 0 <= k < n ==> !Deferred(ReservedIds(w, n)[k])
  {
    if n > 0 {
      ReservedDistinct(w, n - 1);
      ReservedAllHeld(w, n - 1);
      ReserveInv(ReserveSlots(w, n - 1));
    }
  }

  lemma ReserveAnother(w: World, n: nat)
    ensures ReserveSlots(w, n + 1) == ReserveSlot(ReserveSlots(w, n))
    ensures ReservedIds(w, n + 1) == ReservedIds(w, n) + [ReservedId(ReserveSlots(w, n))]
  {
  }

  lemma BindSnoc(ph: seq<EntityId>, base: nat, ids: seq<EntityId>, e: EntityId)
    ensures BindAll(ph, base, ids + [e]) == Bind(BindAll(ph, base, ids), base + |ids|, e)
  {
    assert (ids + [e])[..|ids|] == ids;
  }

  lemma BatchStep(w: World, ph: seq<EntityId>, base: nat, n: nat, ids: seq<EntityId>, e: EntityId)
    requires ids == ReservedIds(w, n) && e == ReservedId(ReserveSlots(w, n))
    ensures ReserveSlots(w, n + 1) == ReserveSlot(ReserveSlots(w, n)) && ReservedIds(w, n + 1) == ids + [e]
    ensures BindAll(ph, base, ids + [e]) == Bind(BindAll(ph, base, ids), base + n, e)
  {
    ReserveAnother(w, n);
    BindSnoc(ph, base, ids, e);
  }

  lemma StampAllSnoc(w: World, ids: seq<EntityId>, k: nat)
    requires k < |ids|
    ensures StampAll(w, ids[..k + 1]) == StampHeld(StampAll(w, ids[..k]), ids[k])
  {
    assert ids[..k + 1][..k] == ids[..k];
  }

  /** Everything a migration reads of the world it starts from. */
  lemma MigrationReady(w: World, e: EntityId, target: seq<nat>, vals: seq<Value>)
    requires Inv(w) && Live(w, e) && ValidRow(target, vals) && target != CurrentSig(w, e)
    ensures var from, found, a := PlaceOf(w, e), FindOrCreate(w, target), ArchIndex(w, target);
            var u := PushRow(found, a, Row(e, vals));
            && from.Placed? && a < |found.archs| && e.index < |w.slots| && u.slots == w.slots
            && ArchsOk(u) && HasRow(u, from) && LastPlace(u, from.arch) == VacatedPlace(w, e)
            && (forall p :: HasRow(u, p) ==> RowAt(u, p).eid.index < |u.slots|)
            && Inv(Migrate(w, e, target, vals))
  {
    var u, to := MigrateSteps(w, e, target, vals);
    CompactReady(w, e);
    PushedIndices(w, u, to, Row(e, vals));
    MigrateInv(w, e, target, vals);
  }

  lemma PushedIndices(w: World, u: World, to: Place, row: Row)
    requires (forall p :: HasRow(w, p) ==> RowAt(w, p).eid.index < |w.slots|) && u.slots == w.slots
    requires RowsPushed(w, u, to, row) && row.eid.index < |w.slots|
    ensures forall p :: HasRow(u, p) ==> RowAt(u, p).eid.index < |u.slots|
  {
  }

  // ----- applying one op -----

  /** The first half of a migration: the archetype is found or made, and gets the new row. */
  method AppendMigrated(world: EcsWorld, e: EntityId, target: seq<nat>, vals: seq<Value>) returns (to: Place)
    requires world.Valid() && ArchIndex(world.State(), target) < |FindOrCreate(world.State(), target).archs|
    modifies world`archs, world`bySig
    ensures to == NewPlace(FindOrCreate(old(world.State()), target), ArchIndex(old(world.State()), target))
    ensures world.State() == PushRow(FindOrCreate(old(world.State()), target), ArchIndex(old(world.State()), target),
                                     Row(e, vals))
  {
    var a := world.FindOrCreateArchetype(target);
    var at := world.AppendRow(a, Row(e, vals));
    to := Placed(a, at);
  }

  /** The second half: the old row's hole is filled, and the entity points to its new row. */
  method LeaveRow(world: EcsWorld, i: nat, from: Place, to: Place)
    requires i < |world.slots| && ArchsOk(world.State()) && HasRow(world.State(), from)
    requires forall p :: HasRow(world.State(), p) ==> RowAt(world.State(), p).eid.index < |world.slots|
    modifies world`slots, world`archs
    ensures world.State() == SetPlace(Compact(old(world.State()), from), i, to)
  {
    world.CompactArchetypeAfterExternalMove(from.arch, from.at);
    world.SeatEntity(i, to);
  }

  /** A migration between archetypes: new row first, then the hole it leaves is filled. */
  method MigrateEntity(world: EcsWorld, e: EntityId, target: seq<nat>, vals: seq<Value>)
    requires world.Valid() && Live(world.State(), e) && ValidRow(target, vals) && target != CurrentSig(world.State(), e)
    modifies world
    ensures world.Valid() && world.State() == Migrate(old(world.State()), e, target, vals)
  {
    ghost var w := world.State();
    MigrationReady(w, e, target, vals);
    var from := world.slots[e.index].place;
    var to := AppendMigrated(world, e, target, vals);
    LeaveRow(world, e.index, from, to);
  }

  /** The guards shared by the add and remove branches. */
  method Changeable(world: EcsWorld, e: EntityId) returns (ok: bool)
    requires world.Valid() && !Deferred(e)
    ensures ok <==> Live(world.State(), e) && !world.slots[e.index].immutable
  {
    if e.gen == 0 || e.index >= |world.slots| {
      assert e.index < |world.slots| ==> world.slots[e.index].gen >= 1;
      return false;
    }
    var slot := world.slots[e.index];
    ok := slot.alive && slot.gen == e.gen && slot.place.Placed? && !slot.immutable;
  }

  method ApplyAdd(world: EcsWorld, e: EntityId, id: nat, v: Value)
    requires world.Valid() && !Deferred(e)
    modifies world
    ensures world.Valid() && world.State() == AddTo(old(world.State()), e, id, v)
  {
    ghost var w := world.State();
    AddInv(w, e, id, v);
    var ok := Changeable(world, e);
    if !ok {
      return;
    }
    CurrentRowValid(w, e);
    CompactReady(w, e);
    var p := world.slots[e.index].place;
    var arch := world.archs[p.arch];
    var row := arch.chunks[p.at.chunk][p.at.row];
    var c := FindColumn(arch.sig, id);
    if c < |arch.sig| {
      var chunk := arch.chunks[p.at.chunk][p.at.row := row.(vals := row.vals[c := v])];
      world.archs := world.archs[p.arch := arch.(chunks := arch.chunks[p.at.chunk := chunk])];
      return;
    }
    var target := TargetWith(arch.sig, id);
    Inserted(arch.sig, id);
    var vals := CarryValues(arch.sig, row.vals, target, id, v);
    MigrateEntity(world, e, target, vals);
  }

  method ApplyRemove(world: EcsWorld, e: EntityId, id: nat)
    requires world.Valid() && !Deferred(e)
    modifies world
    ensures world.Valid() && world.State() == RemoveFrom(old(world.State()), e, id)
  {
    ghost var w := world.State();
    RemoveInv(w, e, id);
    var ok := Changeable(world, e);
    if !ok {
      return;
    }
    CurrentRowValid(w, e);
    CompactReady(w, e);
    var p := world.slots[e.index].place;
    var arch := world.archs[p.arch];
    var row := arch.chunks[p.at.chunk][p.at.row];
    var c := FindColumn(arch.sig, id);
    if c == |arch.sig| || |arch.sig| == 1 {
      return;
    }
    RemoveTarget(arch.sig, id);
    Removed(arch.sig, id);
    var target := TargetWithout(arch.sig, id);
    var vals := CarryValues(arch.sig, row.vals, target, id, 0);
    MigrateEntity(world, e, target, vals);
  }

  /** The entity a create is about: a placeholder gets a slot and is bound to it. */
  method ResolveCreated(world: EcsWorld, ph: seq<EntityId>, e: EntityId)
    returns (target: EntityId, bound: seq<EntityId>)
    requires world.Valid()
    modifies world
    ensures world.Valid() && world.State() == if Deferred(e)
            then ReserveSlot(old(world.State())) else old(world.State())
    ensures target == (if Deferred(e) then ReservedId(old(world.State())) else e) && !Deferred(target)
    ensures bound == if Deferred(e) then Bind(ph, e.index, target) else ph
  {
    target, bound := e, ph;
    if Deferred(e) {
      ReserveInv(world.State());
      target := world.ReserveEntitySlot();
      if e.index < |bound| {
        bound := bound[e.index := target];
      }
    }
  }

  method ApplySingleCreate(world: EcsWorld, ph: seq<EntityId>, op: Op) returns (bound: seq<EntityId>)
    requires world.Valid() && ValidOp(op) && op.CreateEntity?
    modifies world
    ensures world.Valid() && ApplyState(world.State(), bound) == ApplyOp(ApplyState(old(world.State()), ph), op)
  {
    OpRefines(ApplyState(world.State(), ph), op);
    var target;
    target, bound := ResolveCreated(world, ph, op.eid);
    world.FinalizeReservedEntity(target, op.sig, op.vals);
    if op.immutable {
      world.StampSlot(target.index);
    }
  }

  method ReserveBatch(world: EcsWorld, ph: seq<EntityId>, base: nat, n: nat)
    returns (ids: seq<EntityId>, bound: seq<EntityId>)
    requires world.Valid()
    modifies world
    ensures world.Valid() && world.State() == ReserveSlots(old(world.State()), n)
    ensures ids == ReservedIds(old(world.State()), n) && bound == BindAll(ph, base, ids)
  {
    ghost var w := world.State();
    ids, bound := [], ph;
    var i := 0;
    while i < n
      invariant 0 <= i <= n && world.Valid() && world.State() == ReserveSlots(w, i)
      invariant ids == ReservedIds(w, i) && bound == BindAll(ph, base, ids)
    {
      var e := world.ReserveEntitySlot();
      BatchStep(w, ph, base, i, ids, e);
      if base + i < |bound| {
        bound := bound[base + i := e];
      }
      ids := ids + [e];
      i := i + 1;
    }
  }

  /** Stamps each entity of a batch that still holds its slot. */
  method StampBatch(world: EcsWorld, ids: seq<EntityId>)
    modifies world`slots
    ensures world.State() == StampAll(old(world.State()), ids)
  {
    ghost var w := world.State();
    var k := 0;
    while k < |ids|
      invariant 0 <= k <= |ids| && world.State() == StampAll(w, ids[..k])
    {
      StampAllSnoc(w, ids, k);
      var e := ids[k];
      if e.index < |world.slots| && world.slots[e.index].alive && world.slots[e.index].gen == e.gen {
        world.StampSlot(e.index);
      }
      k := k + 1;
    }
    assert ids[..k] == ids;
  }

  method ApplyBulkCreate(world: EcsWorld, ph: seq<EntityId>, op: Op) returns (bound: seq<EntityId>)
    requires world.Valid() && ValidOp(op) && op.CreateEntitiesBulk?
    modifies world
    ensures world.Valid() && ApplyState(world.State(), bound) == ApplyOp(ApplyState(old(world.State()), ph), op)
  {
    OpRefines(ApplyState(world.State(), ph), op);
    bound := ph;
    var ids := op.reservedIds;
    if Deferred(op.eid) {
      ReservedDistinct(world.State(), |op.rows|);
      ids, bound := ReserveBatch(world, ph, op.eid.index, |op.rows|);
    }
    world.FinalizeReservedEntitiesBulk(ids, op.sig, op.rows);
    if op.immutable {
      StampBatch(world, ids);
    }
  }

  /** No binding is itself a placeholder. */
  ghost predicate RealIds(ph: seq<EntityId>) {
    forall k :: 0 <= k < |ph| ==> !Deferred(ph[k])
  }

  lemma {:induction false} BindAllReal(ph: seq<EntityId>, base: nat, ids: seq<EntityId>)
    requires RealIds(ph) && RealIds(ids)
    ensures RealIds(BindAll(ph, base, ids))
  {
    if ids != [] {
      BindAllReal(ph, base, ids[..|ids| - 1]);
    }
  }

  lemma ApplyKeepsReal(s: ApplyState, op: Op)
    requires Inv(s.world) && RealIds(s.ph)
    ensures RealIds(ApplyOp(s, op).ph)
  {
    ReserveInv(s.world);
    match op
    case CreateEntitiesBulk(eid, _, _, rows, _) =>
      ReservedDistinct(s.world, |rows|);
      BindAllReal(s.ph, eid.index, ReservedIds(s.world, |rows|));
    case _ =>
  }

  method ApplyOne(world: EcsWorld, ph: seq<EntityId>, op: Op) returns (bound: seq<EntityId>)
    requires world.Valid() && ValidOp(op) && RealIds(ph)
    modifies world
    ensures world.Valid() && ApplyState(world.State(), bound) == ApplyOp(ApplyState(old(world.State()), ph), op)
  {
    bound := ph;
    var e := Resolve(ph, op.eid);
    match op {
      case CreateEntity(_, _, _, _) => bound := ApplySingleCreate(world, ph, op);
      case CreateEntitiesBulk(_, _, _, _, _) => bound := ApplyBulkCreate(world, ph, op);
      case DestroyEntity(_) => world.DestroyEntity(e);
      case AddComponent(_, id, v) => ApplyAdd(world, e, id, v);
      case RemoveComponent(_, id) => ApplyRemove(world, e, id);
    }
  }

  // ----- the buffer -----

  function Placeholders(base: nat, n: nat): (ids: seq<EntityId>)
    ensures |ids| == n && forall k :: 0 <= k < n ==> ids[k] == EntityId(base + k, DEFERRED_GENERATION_BIT)
  {
    seq(n, k requires 0 <= k < n => EntityId(base + k, DEFERRED_GENERATION_BIT))
  }

  /** The values of entity k of a batch given column by column. */
  function RowOf(columns: seq<seq<Value>>, k: nat): (r: seq<Value>)
    requires forall c :: 0 <= c < |columns| ==> k < |columns[c]|
    ensures |r| == |columns|
  {
    seq(|columns|, c requires 0 <= c < |columns| => columns[c][k])
  }

  /** The value that stands for a tag, which has no data. */
  const TAG_VALUE: Value := 0

  /** A batch is default-constructed, or takes one span per component with data, in list order. */
  datatype Spans = NoSpans | Spans(columns: seq<seq<Value>>)

  /** How many components of the list have data. */
  function DataCount(isTag: seq<bool>): nat {
    if isTag == [] then 0 else DataCount(isTag[..|isTag| - 1]) + if isTag[|isTag| - 1] then 0 else 1
  }

  lemma {:induction false} DataBefore(isTag: seq<bool>, c: nat)
    requires c < |isTag| && !isTag[c]
    ensures DataCount(isTag[..c]) < DataCount(isTag)
    decreases |isTag|
  {
    var n := |isTag| - 1;
    if c < n {
      DataBefore(isTag[..n], c);
      assert isTag[..n][..c] == isTag[..c];
    }
  }

  function Copies(count: nat, v: Value): (column: seq<Value>)
    ensures |column| == count
  {
    seq(count, _ => v)
  }

  /** The spans fit the component list and the count. */
  predicate SpansFit(isTag: seq<bool>, spans: Spans, count: nat) {
    spans.Spans? ==>
      |spans.columns| == DataCount(isTag) && forall c :: 0 <= c < |spans.columns| ==> |spans.columns[c]| == count
  }

  /** The values of component c of the list, one per entity. */
  function ColumnFor(isTag: seq<bool>, defaults: seq<Value>, spans: Spans, count: nat, c: nat): (column: seq<Value>)
    requires c < |isTag| == |defaults| && SpansFit(isTag, spans, count)
    ensures |column| == count
  {
    if isTag[c] then Copies(count, TAG_VALUE)
    else if spans.NoSpans? then Copies(count, defaults[c])
    else
      DataBefore(isTag, c);
      spans.columns[DataCount(isTag[..c])]
  }

  function ColumnsFor(isTag: seq<bool>, defaults: seq<Value>, spans: Spans, count: nat): (columns: seq<seq<Value>>)
    requires |isTag| == |defaults| && SpansFit(isTag, spans, count)
    ensures |columns| == |isTag|
            && forall c :: 0 <= c < |columns| ==> columns[c] == ColumnFor(isTag, defaults, spans, count, c)
  {
    seq(|isTag|, c requires 0 <= c < |isTag| => ColumnFor(isTag, defaults, spans, count, c))
  }

  /** How many of the first n components have data. */
  ghost function DataAmong(isTag: seq<bool>, n: nat): (s: set<nat>)
    requires n <= |isTag|
    ensures forall i: nat :: i in s <==> i < n && !isTag[i]
  {
    set i: nat | i < n && !isTag[i]
  }

  lemma {:induction false} DataCounted(isTag: seq<bool>, c: nat)
    requires c <= |isTag|
    ensures DataCount(isTag[..c]) == |set i: nat | i < c && !isTag[i]|
  {
    if c > 0 {
      var n := c - 1;
      DataCounted(isTag, n);
      assert isTag[..c][..n] == isTag[..n];
      assert DataAmong(isTag, c) == if isTag[n] then DataAmong(isTag, n) else DataAmong(isTag, n) + {n};
      assert (set i: nat | i < c && !isTag[i]) == DataAmong(isTag, c);
      assert (set i: nat | i < n && !isTag[i]) == DataAmong(isTag, n);
    }
  }

  /** v is what the caller gave entity k for component c: the tag value, the default value, or entry
      k of the span whose number is how many components with data come before c. */
  ghost predicate ValueGiven(isTag: seq<bool>, defaults: seq<Value>, spans: Spans, k: nat, c: nat, v: Value)
    requires c < |isTag| == |defaults|
  {
    if isTag[c] then v == TAG_VALUE
    else if spans.NoSpans? then v == defaults[c]
    else
      var j := |set i: nat | i < c && !isTag[i]|;
      j < |spans.columns| && k < |spans.columns[j]| && v == spans.columns[j][k]
  }

  /** The components of entity k are the listed ones, each with the value given for it. */
  ghost predicate RowGiven(comps: map<nat, Value>, raw: seq<nat>, isTag: seq<bool>, defaults: seq<Value>, spans: Spans,
                           k: nat)
    requires |isTag| == |defaults| == |raw|
  {
    && (forall id :: id in comps <==> id in raw)
    && forall c: nat :: c < |raw| && raw[c] in comps ==> ValueGiven(isTag, defaults, spans, k, c, comps[raw[c]])
  }

  lemma RowIsGiven(raw: seq<nat>, isTag: seq<bool>, defaults: seq<Value>, spans: Spans, count: nat, k: nat)
    requires DistinctNats(raw) && |isTag| == |defaults| == |raw| && SpansFit(isTag, spans, count) && k < count
    ensures RowGiven(Components(raw, RowOf(ColumnsFor(isTag, defaults, spans, count), k)), raw, isTag, defaults, spans,
                     k)
  {
    var columns := ColumnsFor(isTag, defaults, spans, count);
    var comps := Components(raw, RowOf(columns, k));
    forall c: nat | c < |raw| && raw[c] in comps
      ensures ValueGiven(isTag, defaults, spans, k, c, comps[raw[c]])
    {
      assert raw[ColumnIndex(raw, raw[c])] == raw[c] && ColumnIndex(raw, raw[c]) == c;
      assert comps[raw[c]] == ColumnFor(isTag, defaults, spans, count, c)[k];
      DataCounted(isTag, c);
      if !isTag[c] {
        DataBefore(isTag, c);
      }
    }
  }

  /** Walks the component list and takes the next span for each component with data. */
  method StageColumns(isTag: seq<bool>, defaults: seq<Value>, spans: Spans, count: nat)
    returns (columns: seq<seq<Value>>)
    requires |isTag| == |defaults| && SpansFit(isTag, spans, count)
    ensures columns == ColumnsFor(isTag, defaults, spans, count)
  {
    columns := [];
    var next, c := 0, 0;
    while c < |isTag|
      invariant 0 <= c <= |isTag| && next == DataCount(isTag[..c])
      invariant columns == ColumnsFor(isTag, defaults, spans, count)[..c]
    {
      assert isTag[..c + 1][..c] == isTag[..c];
      if isTag[c] {
        columns := columns + [Copies(count, TAG_VALUE)];
      } else {
        DataBefore(isTag, c);
        columns := columns + [if spans.NoSpans? then Copies(count, defaults[c]) else spans.columns[next]];
        next := next + 1;
      }
      c := c + 1;
    }
    assert ColumnsFor(isTag, defaults, spans, count)[..c] == ColumnsFor(isTag, defaults, spans, count);
  }

  class CommandBuffer {
    var ops: seq<Op>
    var parallelMode: bool
    var deferredCount: nat

    ghost function Recorded(): Recording
      reads this
    {
      Recording(ops, deferredCount)
    }

    ghost predicate Valid()
      reads this
    {
      ValidOps(ops) && WellRecorded(Recorded())
    }

    constructor ()
      ensures Valid() && Recorded() == Recording([], 0) && !parallelMode
    {
      ops, parallelMode, deferredCount := [], false, 0;
    }

    method Enqueue(op: Op, handedOut: nat)
      requires Valid() && ValidOp(op) && Defines(op, deferredCount + handedOut)
      modifies this`ops, this`deferredCount
      ensures Valid() && Recorded() == Recording(old(ops) + [op], old(deferredCount) + handedOut)
    {
      forall k | 0 <= k < |ops| ensures Defines(ops[k], deferredCount + handedOut) {
        assert Defines(ops[k], deferredCount);
      }
      ops := ops + [op];
      deferredCount := deferredCount + handedOut;
    }

    /** Parallel recording leaves the world alone and hands out the next placeholder; serial
        recording reserves a slot at once. */
    method RecordCreateEntity(immutable: bool, world: EcsWorld, raw: seq<nat>, vals: seq<Value>) returns (e: EntityId)
      requires Valid() && world.Valid() && raw != [] && DistinctNats(raw) && |vals| == |raw|
      modifies this`ops, this`deferredCount, if parallelMode then {} else {world}
      ensures Valid() && world.Valid()
      ensures e == if parallelMode then EntityId(old(deferredCount), DEFERRED_GENERATION_BIT)
              else ReservedId(old(world.State()))
      ensures parallelMode ==> deferredCount == old(deferredCount) + 1 && world.State() == old(world.State())
      ensures !parallelMode ==> deferredCount == old(deferredCount) && world.State() == ReserveSlot(old(world.State()))
      ensures |ops| == |old(ops)| + 1 && ops[..|ops| - 1] == old(ops)
      ensures var op := ops[|ops| - 1];
              op.CreateEntity? && op.eid == e && op.immutable == immutable
                && Components(op.sig, op.vals) == Components(raw, vals)
    {
      var sig := SortIds(raw);
      if parallelMode {
        e := EntityId(deferredCount, DEFERRED_GENERATION_BIT);
      } else {
        ReserveInv(world.State());
        e := world.ReserveEntitySlot();
      }
      var placed := PlaceValues(raw, vals, sig);
      Enqueue(CreateEntity(e, sig, placed, immutable), if parallelMode then 1 else 0);
    }

    /** Sorts the columns of a batch into rows of the recorded signature. */
    method StageRows(raw: seq<nat>, columns: seq<seq<Value>>, count: nat, sig: seq<nat>) returns (rows: seq<seq<Value>>)
      requires DistinctNats(raw) && |columns| == |raw| && forall c :: 0 <= c < |columns| ==> |columns[c]| == count
      requires |sig| == |raw| && forall x: nat :: x in sig <==> x in raw
      ensures |rows| == count
      ensures forall k :: 0 <= k < count ==>
              |rows[k]| == |sig| && Components(sig, rows[k]) == Components(raw, RowOf(columns, k))
    {
      rows := [];
      var k := 0;
      while k < count
        invariant 0 <= k <= count && |rows| == k
        invariant forall j :: 0 <= j < k ==>
                  |rows[j]| == |sig| && Components(sig, rows[j]) == Components(raw, RowOf(columns, j))
      {
        var row := PlaceValues(raw, RowOf(columns, k), sig);
        rows := rows + [row];
        k := k + 1;
      }
    }

    /** The sorted signature of a batch, and a row of it for every entity. */
    method StageBatch(raw: seq<nat>, isTag: seq<bool>, defaults: seq<Value>, spans: Spans, count: nat)
      returns (sig: seq<nat>, rows: seq<seq<Value>>)
      requires raw != [] && DistinctNats(raw) && |isTag| == |defaults| == |raw| && SpansFit(isTag, spans, count)
      ensures |rows| == count && forall k :: 0 <= k < count ==> ValidRow(sig, rows[k])
      ensures forall k :: 0 <= k < count ==> RowGiven(Components(sig, rows[k]), raw, isTag, defaults, spans, k)
    {
      var columns := StageColumns(isTag, defaults, spans, count);
      sig := SortIds(raw);
      rows := StageRows(raw, columns, count, sig);
      forall k | 0 <= k < count ensures RowGiven(Components(sig, rows[k]), raw, isTag, defaults, spans, k) {
        RowIsGiven(raw, isTag, defaults, spans, count, k);
      }
    }

    /** All spans have one value per entity. */
    method SizesOk(count: nat, outSize: nat, spans: Spans) returns (ok: bool)
      ensures ok <==>
              outSize == count &&
              (spans.Spans? ==> forall c :: 0 <= c < |spans.columns| ==> |spans.columns[c]| == count)
    {
      if outSize != count {
        return false;
      }
      if spans.Spans? {
        for c := 0 to |spans.columns|
          invariant forall j :: 0 <= j < c ==> |spans.columns[j]| == count
        {
          if |spans.columns[c]| != count {
            return false;
          }
        }
      }
      ok := true;
    }

    method RecordCreateEntities(immutable: bool, world: EcsWorld, count: nat, outSize: nat, raw: seq<nat>,
                                isTag: seq<bool>,
                                defaults: seq<Value>, spans: Spans)
      returns (ok: bool, outIds: seq<EntityId>)
      requires Valid() && world.Valid() && raw != [] && DistinctNats(raw) && |isTag| == |defaults| == |raw|
      requires spans.Spans? ==> |spans.columns| == DataCount(isTag)
      modifies this`ops, this`deferredCount, if parallelMode then {} else {world}
      ensures Valid() && world.Valid()
      ensures ok <==> outSize == count && SpansFit(isTag, spans, count)
      ensures !ok || count == 0 ==> Recorded() == old(Recorded()) && world.State() == old(world.State()) && outIds == []
      ensures ok ==> |outIds| == count
      ensures ok && parallelMode ==>
              deferredCount == old(deferredCount) + count
              && forall k :: 0 <= k < count ==> outIds[k] == EntityId(old(deferredCount) + k, DEFERRED_GENERATION_BIT)
      ensures ok && parallelMode ==> world.State() == old(world.State())
      ensures ok && !parallelMode ==>
              deferredCount == old(deferredCount) && world.State() == ReserveSlots(old(world.State()), count)
      ensures ok && !parallelMode ==> outIds == ReservedIds(old(world.State()), count)
      ensures ok && count > 0 ==> |ops| == |old(ops)| + 1 && ops[..|ops| - 1] == old(ops)
      ensures ok && count > 0 ==>
        var op := ops[|ops| - 1];
        && op.CreateEntitiesBulk? && op.immutable == immutable && |op.rows| == count
        && (if parallelMode then op.eid == EntityId(old(deferredCount), DEFERRED_GENERATION_BIT)
            else op.eid == INVALID_ENTITY && op.reservedIds == outIds)
        && forall k :: 0 <= k < count ==>
             RowGiven(Components(op.sig, op.rows[k]), raw, isTag, defaults, spans, k)
    {
      outIds := [];
      ok := SizesOk(count, outSize, spans);
      if !ok || count == 0 {
        return;
      }
      var sig, rows := StageBatch(raw, isTag, defaults, spans, count);
      if parallelMode {
        outIds := Placeholders(deferredCount, count);
        var first := EntityId(deferredCount, DEFERRED_GENERATION_BIT);
        Enqueue(CreateEntitiesBulk(first, [], sig, rows, immutable), count);
      } else {
        ReservedDistinct(world.State(), count);
        ghost var unbound;
        outIds, unbound := ReserveBatch(world, [], 0, count);
        Enqueue(CreateEntitiesBulk(INVALID_ENTITY, outIds, sig, rows, immutable), 0);
      }
    }

    method RecordDestroyEntity(e: EntityId)
      requires Valid()
      modifies this`ops, this`deferredCount
      ensures Valid() && Recorded() == Recording(old(ops) + [CommandOps.DestroyEntity(e)], old(deferredCount))
    {
      Enqueue(CommandOps.DestroyEntity(e), 0);
    }

    method RecordAddComponent(e: EntityId, id: nat, v: Value)
      requires Valid()
      modifies this`ops, this`deferredCount
      ensures Valid() && Recorded() == Recording(old(ops) + [AddComponent(e, id, v)], old(deferredCount))
    {
      Enqueue(AddComponent(e, id, v), 0);
    }

    method RecordRemoveComponent(e: EntityId, id: nat)
      requires Valid()
      modifies this`ops, this`deferredCount
      ensures Valid() && Recorded() == Recording(old(ops) + [RemoveComponent(e, id)], old(deferredCount))
    {
      Enqueue(RemoveComponent(e, id), 0);
    }

    method Clear()
      modifies this`ops, this`deferredCount
      ensures Valid() && Recorded() == Recording([], 0)
    {
      ops, deferredCount := [], 0;
    }

    method MergeFrom(other: CommandBuffer)
      requires Valid() && other.Valid() && other != this
      modifies this`ops, this`deferredCount, other`ops, other`deferredCount
      ensures Valid() && Recorded() == Merge(old(Recorded()), old(other.Recorded()))
      ensures other.Valid() && other.Recorded() == Recording([], 0)
    {
      ghost var a, b := Recorded(), other.Recorded();
      MergeWellRecorded(a, b);
      MergeValid(a.ops, b.ops, a.deferred);
      if |other.ops| == 0 {
        deferredCount := deferredCount + other.deferredCount;
        other.deferredCount := 0;
        assert RebaseAll([], a.deferred) == [];
        return;
      }
      var base := deferredCount;
      var i := 0;
      while i < |other.ops|
        invariant 0 <= i <= |other.ops| && other.ops == b.ops
        invariant deferredCount == base && other.deferredCount == b.deferred
        invariant ops == a.ops + RebaseAll(b.ops, base)[..i]
      {
        var op := other.ops[i];
        if Deferred(op.eid) {
          op := op.(eid := EntityId(op.eid.index + base, op.eid.gen));
        }
        ops := ops + [op];
        i := i + 1;
      }
      assert RebaseAll(b.ops, base)[..i] == RebaseAll(b.ops, base);
      deferredCount := deferredCount + other.deferredCount;
      other.ops, other.deferredCount := [], 0;
    }

    method Apply(world: EcsWorld)
      requires Valid() && world.Valid()
      modifies this`ops, this`deferredCount, world
      ensures Valid() && Recorded() == Recording([], 0)
      ensures world.Valid() && world.State() == ApplyRecording(old(world.State()), old(Recorded()))
    {
      ghost var s := ApplyState(world.State(), Unresolved(deferredCount));
      var placeholderToReal := seq(deferredCount, _ => INVALID_ENTITY);
      assert placeholderToReal == Unresolved(deferredCount);
      var i := 0;
      while i < |ops|
        invariant 0 <= i <= |ops| && ops == old(ops) && deferredCount == old(deferredCount) && ValidOps(ops)
        invariant world.Valid() && ApplyState(world.State(), placeholderToReal) == ApplyOps(s, ops[..i])
        invariant RealIds(placeholderToReal)
      {
        ApplySnoc(s, ops[..i], ops[i]);
        assert ops[..i] + [ops[i]] == ops[..i + 1];
        ApplyKeepsReal(ApplyState(world.State(), placeholderToReal), ops[i]);
        placeholderToReal := ApplyOne(world, placeholderToReal, ops[i]);
        i := i + 1;
      }
      assert ops[..i] == ops;
      ops, deferredCount := [], 0;
    }
  }

  ghost function RecordedAll(cbs: seq<CommandBuffer>): (rs: seq<Recording>)
    reads cbs
    ensures |rs| == |cbs|
  {
    seq(|cbs|, i requires 0 <= i < |cbs| reads cbs => cbs[i].Recorded())
  }

  lemma MergeNext(a: Recording, rs: seq<Recording>, i: nat)
    requires i < |rs|
    ensures MergeAll(a, rs[..i + 1]) == Merge(MergeAll(a, rs[..i]), rs[i])
  {
    assert rs[..i + 1][..i] == rs[..i];
  }

  lemma ApplyNext(w: World, rs: seq<Recording>, i: nat)
    requires i < |rs|
    ensures ApplyRecordings(w, rs[..i + 1]) == ApplyRecording(ApplyRecordings(w, rs[..i]), rs[i])
  {
    assert rs[..i + 1][..i] == rs[..i];
  }

  /** Splices the buffers of a threaded system's chunks, in chunk order, into its pending buffer. */
  method MergePerChunk(pending: CommandBuffer, cbs: seq<CommandBuffer>)
    requires pending.Valid() && pending !in cbs
    requires (forall i :: 0 <= i < |cbs| ==> cbs[i].Valid()) && forall i, j :: 0 <= i < j < |cbs| ==> cbs[i] != cbs[j]
    modifies pending, cbs
    ensures pending.Valid() && pending.Recorded() == MergeAll(old(pending.Recorded()), old(RecordedAll(cbs)))
    ensures forall i :: 0 <= i < |cbs| ==> cbs[i].Recorded() == Recording([], 0) && !cbs[i].parallelMode
  {
    ghost var start, rs := pending.Recorded(), RecordedAll(cbs);
    var i := 0;
    while i < |cbs|
      invariant 0 <= i <= |cbs| && pending.Valid() && pending.Recorded() == MergeAll(start, rs[..i])
      invariant forall k :: i <= k < |cbs| ==> cbs[k].Valid() && cbs[k].Recorded() == rs[k]
      invariant forall k :: 0 <= k < i ==> cbs[k].Recorded() == Recording([], 0) && !cbs[k].parallelMode
    {
      cbs[i].parallelMode := false;
      pending.MergeFrom(cbs[i]);
      MergeNext(start, rs, i);
      i := i + 1;
    }
    assert rs[..i] == rs;
  }

  /** The stage barrier: the systems' pending buffers are applied one after another, in emit order. */
  method ApplyStage(world: EcsWorld, pending: seq<CommandBuffer>)
    requires world.Valid() && (forall i :: 0 <= i < |pending| ==> pending[i].Valid())
    requires forall i, j :: 0 <= i < j < |pending| ==> pending[i] != pending[j]
    modifies world, pending
    ensures world.Valid() && world.State() == ApplyRecordings(old(world.State()), old(RecordedAll(pending)))
    ensures forall i :: 0 <= i < |pending| ==> pending[i].Recorded() == Recording([], 0)
  {
    ghost var w, rs := world.State(), RecordedAll(pending);
    var i := 0;
    while i < |pending|
      invariant 0 <= i <= |pending| && world.Valid() && world.State() == ApplyRecordings(w, rs[..i])
      invariant forall k :: i <= k < |pending| ==> pending[k].Valid() && pending[k].Recorded() == rs[k]
      invariant forall k :: 0 <= k < i ==> pending[k].Recorded() == Recording([], 0)
    {
      pending[i].Apply(world);
      ApplyNext(w, rs, i);
      i := i + 1;
    }
    assert rs[..i] == rs;
  }
}
