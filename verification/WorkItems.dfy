/** The work items of a stage: one per chunk for a threaded system, one for a plain system. */
module WorkItems {
  import opened Chunks
  import opened Conflicts
  import Q = Queries
  import opened Schedule
  import opened Sorting
  import opened StageExecution
  import opened SystemAccess
  import opened WorldStore

  datatype Part = Whole | OneChunk(loc: Q.ChunkLocation)

  /** pos: the system's position in the stage. */
  datatype WorkItem = WorkItem(pos: nat, part: Part)

  // ----- the chunks of a query, as a function -----

  function ArchChunks(archs: seq<Archetype>, a: nat, n: nat): seq<Q.ChunkLocation>
    requires a < |archs| && n <= |archs[a].chunks|
  {
    if n == 0 then []
    else ArchChunks(archs, a, n - 1) + if archs[a].chunks[n - 1] != [] then [Q.ChunkLocation(a, n - 1)] else []
  }

  function ChunkList(archs: seq<Archetype>, required: seq<nat>, excluded: seq<nat>, n: nat): seq<Q.ChunkLocation>
    requires n <= |archs|
  {
    if n == 0 then []
    else
      ChunkList(archs, required, excluded, n - 1) +
      if Q.Matches(archs[n - 1].sig, required, excluded) then ArchChunks(archs, n - 1, |archs[n - 1].chunks|) else []
  }

  lemma JoinInOrder(a: seq<Q.ChunkLocation>, b: seq<Q.ChunkLocation>)
    requires Q.InOrder(a) && Q.InOrder(b) && forall x, y :: x in a && y in b ==> Q.Before(x, y)
    ensures Q.InOrder(a + b)
  {
    forall i, j | 0 <= i < j < |a + b| ensures Q.Before((a + b)[i], (a + b)[j]) {
      if i < |a| <= j {
        assert (a + b)[i] in a && (a + b)[j] in b;
      }
    }
  }

  ghost predicate FirstChunks(archs: seq<Archetype>, a: nat, n: nat, ls: seq<Q.ChunkLocation>)
    requires a < |archs| && n <= |archs[a].chunks|
  {
    Q.InOrder(ls) && forall l :: l in ls <==> l.arch == a && l.chunk < n && archs[a].chunks[l.chunk] != []
  }

  lemma {:induction false} ArchChunksSpec(archs: seq<Archetype>, a: nat, n: nat)
    requires a < |archs| && n <= |archs[a].chunks|
    ensures FirstChunks(archs, a, n, ArchChunks(archs, a, n))
  {
    if n > 0 {
      ArchChunksSpec(archs, a, n - 1);
      JoinInOrder(ArchChunks(archs, a, n - 1), if archs[a].chunks[n - 1] != []
                  then [Q.ChunkLocation(a, n - 1)] else []);
    }
  }

  ghost predicate FirstMatches(archs: seq<Archetype>, required: seq<nat>, excluded: seq<nat>, n: nat,
                               ls: seq<Q.ChunkLocation>)
  {
    Q.InOrder(ls) && forall l :: l in ls <==> l.arch < n && Q.IteratedChunk(archs, required, excluded, l)
  }

  lemma NextMatches(archs: seq<Archetype>, required: seq<nat>, excluded: seq<nat>, m: nat, n: nat,
                    front: seq<Q.ChunkLocation>, rest: seq<Q.ChunkLocation>)
    requires n == m + 1 <= |archs| && FirstMatches(archs, required, excluded, m, front)
    requires Q.Matches(archs[m].sig, required, excluded) && FirstChunks(archs, m, |archs[m].chunks|, rest)
    ensures FirstMatches(archs, required, excluded, n, front + rest)
  {
    JoinInOrder(front, rest);
    forall l ensures l in front + rest <==> l.arch < n && Q.IteratedChunk(archs, required, excluded, l) {
      assert l in front + rest <==> l in front || l in rest;
    }
  }

  lemma NoMatches(archs: seq<Archetype>, required: seq<nat>, excluded: seq<nat>, m: nat, n: nat,
                  front: seq<Q.ChunkLocation>)
    requires n == m + 1 <= |archs| && FirstMatches(archs, required, excluded, m, front)
    requires !Q.Matches(archs[m].sig, required, excluded)
    ensures FirstMatches(archs, required, excluded, n, front)
  {
  }

  lemma NextChunkList(archs: seq<Archetype>, required: seq<nat>, excluded: seq<nat>, m: nat, n: nat)
    requires n == m + 1 <= |archs|
    ensures ChunkList(archs, required, excluded, n) ==
            if Q.Matches(archs[m].sig, required, excluded)
            then ChunkList(archs, required, excluded, m) + ArchChunks(archs, m, |archs[m].chunks|)
            else ChunkList(archs, required, excluded, m)
  {
  }

  lemma {:induction false} ChunkListSpec(archs: seq<Archetype>, required: seq<nat>, excluded: seq<nat>, n: nat)
    requires n <= |archs|
    ensures FirstMatches(archs, required, excluded, n, ChunkList(archs, required, excluded, n))
  {
    if n > 0 {
      var m := n - 1;
      NextChunkList(archs, required, excluded, m, n);
      ChunkListSpec(archs, required, excluded, m);
      if Q.Matches(archs[m].sig, required, excluded) {
        ArchChunksSpec(archs, m, |archs[m].chunks|);
        NextMatches(archs, required, excluded, m, n, ChunkList(archs, required, excluded, m),
                    ArchChunks(archs, m, |archs[m].chunks|));
      } else {
        NoMatches(archs, required, excluded, m, n, ChunkList(archs, required, excluded, m));
      }
    }
  }

  ghost predicate SameList(a: seq<Q.ChunkLocation>, b: seq<Q.ChunkLocation>) {
    Q.InOrder(a) && Q.InOrder(b) && forall l :: l in a <==> l in b
  }

  lemma SameLast(a: seq<Q.ChunkLocation>, b: seq<Q.ChunkLocation>)
    requires SameList(a, b) && a != []
    ensures b != [] && a[|a| - 1] == b[|b| - 1]
  {
    var x := a[|a| - 1];
    assert x in a && b != [];
    var y := b[|b| - 1];
    assert y in b;
    var i :| 0 <= i < |a| && a[i] == y;
    var j :| 0 <= j < |b| && b[j] == x;
    assert i < |a| - 1 ==> Q.Before(y, x);
    assert j < |b| - 1 ==> Q.Before(x, y);
  }

  lemma SameFront(a: seq<Q.ChunkLocation>, b: seq<Q.ChunkLocation>)
    requires SameList(a, b) && a != [] && b != [] && a[|a| - 1] == b[|b| - 1]
    ensures SameList(a[..|a| - 1], b[..|b| - 1])
  {
    FrontMembers(a, a[..|a| - 1]);
    FrontMembers(b, b[..|b| - 1]);
  }

  /** A list in order is determined by its members. */
  lemma {:induction false} InOrderUnique(a: seq<Q.ChunkLocation>, b: seq<Q.ChunkLocation>)
    requires SameList(a, b)
    ensures a == b
    decreases |a|
  {
    if a == [] {
      if b != [] {
        HasMember(b);
      }
    } else {
      SameLast(a, b);
      SameFront(a, b);
      InOrderUnique(a[..|a| - 1], b[..|b| - 1]);
      assert a == a[..|a| - 1] + [a[|a| - 1]] && b == b[..|b| - 1] + [b[|b| - 1]];
    }
  }

  lemma FrontMembers(a: seq<Q.ChunkLocation>, front: seq<Q.ChunkLocation>)
    requires Q.InOrder(a) && a != [] && front == a[..|a| - 1]
    ensures Q.InOrder(front)
    ensures forall l :: l in front <==> l in a && l != a[|a| - 1]
  {
    forall i, j | 0 <= i < j < |front| ensures Q.Before(front[i], front[j]) {
      assert Q.Before(a[i], a[j]);
    }
    forall k | 0 <= k < |front| ensures front[k] != a[|a| - 1] {
      assert Q.Before(a[k], a[|a| - 1]);
    }
  }

  // ----- the list -----

  function PartsOf(r: Registration, archs: seq<Archetype>): seq<Part> {
    if !r.alive then []
    else if r.threaded then
      var locs := ChunkList(archs, r.requireIds, r.excludeIds, |archs|);
      seq(|locs|, k requires 0 <= k < |locs| => OneChunk(locs[k]))
    else [Whole]
  }

  function At(pos: nat, parts: seq<Part>): (items: seq<WorkItem>)
    ensures |items| == |parts|
  {
    seq(|parts|, k requires 0 <= k < |parts| => WorkItem(pos, parts[k]))
  }

  /** The items of the systems in stage order, a system's chunks in (archetype, chunk) order. */
  function WorkList(regs: seq<Registration>, archs: seq<Archetype>): seq<WorkItem> {
    if regs == [] then []
    else
      var n := |regs| - 1;
      WorkList(regs[..n], archs) + At(n, PartsOf(regs[n], archs))
  }

  predicate StageIn(reg: Registry, stage: seq<nat>) {
    forall k :: 0 <= k < |stage| ==> stage[k] < |reg|
  }

  function StageRegs(reg: Registry, stage: seq<nat>): (rs: seq<Registration>)
    requires StageIn(reg, stage)
    ensures |rs| == |stage| && forall k :: 0 <= k < |rs| ==> rs[k] == reg[stage[k]]
  {
    seq(|stage|, k requires 0 <= k < |stage| => reg[stage[k]])
  }

  /** The registrations of a stage, of which only the flagged ones run. */
  function Flagged(regs: seq<Registration>, flags: seq<bool>): (rs: seq<Registration>)
    requires |flags| == |regs|
    ensures |rs| == |regs| && forall k :: 0 <= k < |rs| ==> rs[k] == regs[k].(alive := regs[k].alive && flags[k])
  {
    seq(|regs|, k requires 0 <= k < |regs| => regs[k].(alive := regs[k].alive && flags[k]))
  }

  /** The items of one system. */
  method SystemItems(p: nat, r: Registration, archs: seq<Archetype>) returns (items: seq<WorkItem>)
    requires SortedLists(r) && forall a :: 0 <= a < |archs| ==> Ascending(archs[a].sig)
    ensures items == At(p, PartsOf(r, archs))
  {
    items := [];
    if !r.alive {
      return;
    }
    if !r.threaded {
      items := [WorkItem(p, Whole)];
      return;
    }
    var locs := Q.CollectMatchingChunks(archs, r.requireIds, r.excludeIds);
    ChunkListSpec(archs, r.requireIds, r.excludeIds, |archs|);
    InOrderUnique(locs, ChunkList(archs, r.requireIds, r.excludeIds, |archs|));
    var k := 0;
    while k < |locs|
      invariant 0 <= k <= |locs| == |PartsOf(r, archs)| && items == At(p, PartsOf(r, archs)[..k])
    {
      items := items + [WorkItem(p, OneChunk(locs[k]))];
      k := k + 1;
    }
    assert PartsOf(r, archs)[..k] == PartsOf(r, archs);
  }

  lemma NextItems(regs: seq<Registration>, archs: seq<Archetype>, p: nat)
    requires p < |regs|
    ensures WorkList(regs[..p + 1], archs) == WorkList(regs[..p], archs) + At(p, PartsOf(regs[p], archs))
  {
    assert regs[..p + 1][..p] == regs[..p];
  }

  /** Step 2 of the parallel branch of SystemScheduler::run. */
  method BuildWorkItems(reg: Registry, stage: seq<nat>, flags: seq<bool>, archs: seq<Archetype>)
    returns (items: seq<WorkItem>)
    requires StageIn(reg, stage) && |flags| == |stage| && forall k :: 0 <= k < |stage| ==> SortedLists(reg[stage[k]])
    requires forall a :: 0 <= a < |archs| ==> Ascending(archs[a].sig)
    ensures items == WorkList(Flagged(StageRegs(reg, stage), flags), archs)
  {
    items := [];
    var p := 0;
    ghost var regs := Flagged(StageRegs(reg, stage), flags);
    while p < |stage|
      invariant 0 <= p <= |stage| && items == WorkList(regs[..p], archs)
    {
      var r := reg[stage[p]];
      var more := SystemItems(p, r.(alive := r.alive && flags[p]), archs);
      NextItems(regs, archs, p);
      items := items + more;
      p := p + 1;
    }
    assert regs[..p] == regs;
  }

  // ----- what the items iterate -----

  predicate AnyRow(i: nat) {
    true
  }

  /** The slots of the entities in a chunk; the whole tick of a plain system reaches every row. */
  ghost function RowsOf(w: World, part: Part): iset<nat> {
    match part
    case Whole => iset i: nat | AnyRow(i)
    case OneChunk(l) => iset i: nat | SeatedIn(w, i, l)
  }

  predicate SeatedIn(w: World, i: nat, l: Q.ChunkLocation) {
    && i < |w.slots| && w.slots[i].alive && w.slots[i].place.Placed?
    && w.slots[i].place.arch == l.arch && w.slots[i].place.at.chunk == l.chunk
  }

  /** They are exactly the slots that the chunk's rows name. */
  lemma ChunkRows(w: World, i: nat, l: Q.ChunkLocation)
    requires Inv(w)
    ensures SeatedIn(w, i, l) <==>
            i < |w.slots| && exists r: nat ::
              HasRow(w, Placed(l.arch, RowLocation(l.chunk, r))) &&
              RowAt(w, Placed(l.arch, RowLocation(l.chunk, r))).eid == WorldStore.IdAt(w, i)
  {
    if SeatedIn(w, i, l) {
      assert Seated(w, i);
      assert w.slots[i].place == Placed(l.arch, RowLocation(l.chunk, w.slots[i].place.at.row));
    }
    forall r: nat | i < |w.slots| && HasRow(w, Placed(l.arch, RowLocation(l.chunk, r)))
      && RowAt(w, Placed(l.arch, RowLocation(l.chunk, r))).eid == WorldStore.IdAt(w, i)
      ensures SeatedIn(w, i, l)
    {
      assert Owned(w, Placed(l.arch, RowLocation(l.chunk, r)));
    }
  }

  ghost function WorksOf(w: World, stage: seq<nat>, items: seq<WorkItem>): (works: seq<Work>)
    requires forall k :: 0 <= k < |items| ==> items[k].pos < |stage|
    ensures |works| == |items|
    ensures forall k :: 0 <= k < |items| ==> works[k] == Work(stage[items[k].pos], RowsOf(w, items[k].part))
  {
    seq(|items|, k requires 0 <= k < |items| => Work(stage[items[k].pos], RowsOf(w, items[k].part)))
  }

  /** Positions are in range, and only a threaded system has several items, of different chunks. */
  lemma {:induction false} WorkListShape(regs: seq<Registration>, archs: seq<Archetype>)
    ensures forall k :: 0 <= k < |WorkList(regs, archs)| ==> WorkList(regs, archs)[k].pos < |regs|
    ensures forall k, l :: 0 <= k < l < |WorkList(regs, archs)| ==>
      SeparateItems(regs, WorkList(regs, archs)[k], WorkList(regs, archs)[l])
  {
    if regs != [] {
      var n := |regs| - 1;
      WorkListShape(regs[..n], archs);
      PartsDiffer(regs[n], archs);
      var front, last := WorkList(regs[..n], archs), At(n, PartsOf(regs[n], archs));
      forall k, l | 0 <= k < l < |front + last| ensures SeparateItems(regs, (front + last)[k], (front + last)[l]) {
        if l < |front| {
          assert SeparateItems(regs[..n], front[k], front[l]);
        } else if k >= |front| {
          assert last[k - |front|].part != last[l - |front|].part;
        }
      }
    }
  }

  predicate SeparateItems(regs: seq<Registration>, x: WorkItem, y: WorkItem) {
    x.pos == y.pos && x.pos < |regs| ==>
      regs[x.pos].threaded && x.part.OneChunk? && y.part.OneChunk? && x.part.loc != y.part.loc
  }

  lemma PartsDiffer(r: Registration, archs: seq<Archetype>)
    ensures forall k :: 0 <= k < |PartsOf(r, archs)| ==> (PartsOf(r, archs)[k].OneChunk? <==> r.threaded)
    ensures forall k, l :: 0 <= k < l < |PartsOf(r, archs)| ==>
            r.threaded && PartsOf(r, archs)[k] != PartsOf(r, archs)[l]
  {
    var parts, locs := PartsOf(r, archs), ChunkList(archs, r.requireIds, r.excludeIds, |archs|);
    ChunkListSpec(archs, r.requireIds, r.excludeIds, |archs|);
    forall k, l | 0 <= k < l < |parts| ensures r.threaded && parts[k] != parts[l] {
      assert Q.Before(locs[k], locs[l]);
      assert parts[k] == OneChunk(locs[k]) && parts[l] == OneChunk(locs[l]);
    }
  }

  /** The list that the scheduler builds is a proper division of the stage's work, whatever the
      archetypes: this is what StageItemsIndependent asks for. */
  lemma ListIsStageWork(reg: Registry, decls: seq<SystemDecl>, stage: seq<nat>, flags: seq<bool>, w: World)
    requires |decls| == |reg| && Digraph.Distinct(stage) && StageIn(reg, stage) && |flags| == |stage|
    requires forall k :: 0 <= k < |stage| ==> RegistrationOf(decls[stage[k]], reg[stage[k]])
    requires forall k :: 0 <= k < |stage| && reg[stage[k]].threaded ==> Splittable(decls[stage[k]])
    ensures var items := WorkList(Flagged(StageRegs(reg, stage), flags), w.archs);
            && (forall k :: 0 <= k < |items| ==> items[k].pos < |stage|)
            && StageWork(reg, decls, stage, WorksOf(w, stage, items))
  {
    var regs := Flagged(StageRegs(reg, stage), flags);
    var items := WorkList(regs, w.archs);
    WorkListShape(regs, w.archs);
    var works := WorksOf(w, stage, items);
    forall k, l | 0 <= k < |works| && 0 <= l < |works| && k != l && works[k].sys == works[l].sys
      ensures Splittable(decls[works[k].sys]) && works[k].rows !! works[l].rows
    {
      assert items[k].pos == items[l].pos;
      assert if k < l then SeparateItems(regs, items[k], items[l]) else SeparateItems(regs, items[l], items[k]);
    }
  }

  // ----- what the list is, without saying how it is built -----

  /** A part of the work of a registration: all of it for a plain system, a nonempty chunk that its
      query matches for a threaded one. */
  predicate PartListed(r: Registration, archs: seq<Archetype>, part: Part) {
    match part
    case Whole => !r.threaded
    case OneChunk(l) => r.threaded && Q.IteratedChunk(archs, r.requireIds, r.excludeIds, l)
  }

  predicate PartBefore(x: Part, y: Part) {
    x.OneChunk? && y.OneChunk? && Q.Before(x.loc, y.loc)
  }

  predicate ItemBefore(x: WorkItem, y: WorkItem) {
    x.pos < y.pos || (x.pos == y.pos && PartBefore(x.part, y.part))
  }

  predicate ItemListed(regs: seq<Registration>, archs: seq<Archetype>, x: WorkItem) {
    x.pos < |regs| && regs[x.pos].alive && PartListed(regs[x.pos], archs, x.part)
  }

  ghost predicate PartsInOrder(parts: seq<Part>) {
    forall j, k :: 0 <= j < k < |parts| ==> PartBefore(parts[j], parts[k])
  }

  /** Positions ascending, and a system's chunks in (archetype, chunk) order; nothing is listed twice. */
  ghost predicate ItemsInOrder(xs: seq<WorkItem>) {
    forall j, k :: 0 <= j < k < |xs| ==> ItemBefore(xs[j], xs[k])
  }

  /** A dead or skipped system has no parts, a plain one the whole of its work, and a threaded one
      exactly the nonempty matching chunks, each once. */
  lemma PartsListed(r: Registration, archs: seq<Archetype>)
    ensures PartsInOrder(PartsOf(r, archs))
    ensures forall part :: part in PartsOf(r, archs) <==> r.alive && PartListed(r, archs, part)
  {
    var parts, locs := PartsOf(r, archs), ChunkList(archs, r.requireIds, r.excludeIds, |archs|);
    ChunkListSpec(archs, r.requireIds, r.excludeIds, |archs|);
    if r.alive && r.threaded {
      forall j, k | 0 <= j < k < |parts| ensures PartBefore(parts[j], parts[k]) {
        assert Q.Before(locs[j], locs[k]);
      }
      forall part ensures part in parts <==> PartListed(r, archs, part) {
        if part.OneChunk? && part.loc in locs {
          var k :| 0 <= k < |locs| && locs[k] == part.loc;
          assert parts[k] == part;
        }
      }
    }
  }

  lemma AtListed(n: nat, r: Registration, archs: seq<Archetype>)
    ensures ItemsInOrder(At(n, PartsOf(r, archs)))
    ensures forall x :: x in At(n, PartsOf(r, archs)) <==> x.pos == n && r.alive && PartListed(r, archs, x.part)
  {
    var parts := PartsOf(r, archs);
    PartsListed(r, archs);
    forall j, k | 0 <= j < k < |parts| ensures ItemBefore(At(n, parts)[j], At(n, parts)[k]) {
      assert PartBefore(parts[j], parts[k]);
    }
    forall x ensures x in At(n, parts) <==> x.pos == n && x.part in parts {
      if x.pos == n && x.part in parts {
        var k :| 0 <= k < |parts| && parts[k] == x.part;
        assert At(n, parts)[k] == x;
      }
    }
  }

  lemma JoinItems(front: seq<WorkItem>, last: seq<WorkItem>, n: nat)
    requires ItemsInOrder(front) && ItemsInOrder(last)
    requires (forall x :: x in front ==> x.pos < n) && forall x :: x in last ==> x.pos == n
    ensures ItemsInOrder(front + last)
  {
    var xs := front + last;
    forall j, k | 0 <= j < k < |xs| ensures ItemBefore(xs[j], xs[k]) {
      if j < |front| <= k {
        assert xs[j] in front && xs[k] in last;
      }
    }
  }

  /** The work list holds exactly those items, in order. */
  lemma {:induction false} WorkListIs(regs: seq<Registration>, archs: seq<Archetype>)
    ensures ItemsInOrder(WorkList(regs, archs))
    ensures forall x :: x in WorkList(regs, archs) <==> ItemListed(regs, archs, x)
  {
    if regs != [] {
      var n := |regs| - 1;
      WorkListIs(regs[..n], archs);
      AtListed(n, regs[n], archs);
      JoinItems(WorkList(regs[..n], archs), At(n, PartsOf(regs[n], archs)), n);
      forall x ensures x in WorkList(regs, archs) <==> ItemListed(regs, archs, x) {
        assert x in WorkList(regs, archs) <==> x in WorkList(regs[..n], archs) || x in At(n, PartsOf(regs[n], archs));
        assert x.pos < n ==> regs[..n][x.pos] == regs[x.pos];
      }
    }
  }

  ghost predicate SameItems(xs: seq<WorkItem>, ys: seq<WorkItem>) {
    ItemsInOrder(xs) && ItemsInOrder(ys) && forall x :: x in xs <==> x in ys
  }

  lemma LastItemSame(xs: seq<WorkItem>, ys: seq<WorkItem>)
    requires SameItems(xs, ys) && xs != []
    ensures ys != [] && xs[|xs| - 1] == ys[|ys| - 1]
  {
    var x := xs[|xs| - 1];
    assert x in xs && ys != [];
    var y := ys[|ys| - 1];
    assert y in ys;
    var i :| 0 <= i < |xs| && xs[i] == y;
    var j :| 0 <= j < |ys| && ys[j] == x;
    assert i < |xs| - 1 ==> ItemBefore(y, x);
    assert j < |ys| - 1 ==> ItemBefore(x, y);
  }

  lemma FrontItems(xs: seq<WorkItem>, front: seq<WorkItem>)
    requires ItemsInOrder(xs) && xs != [] && front == xs[..|xs| - 1]
    ensures ItemsInOrder(front) && forall x :: x in front <==> x in xs && x != xs[|xs| - 1]
  {
    forall k | 0 <= k < |front| ensures front[k] != xs[|xs| - 1] {
      assert ItemBefore(xs[k], xs[|xs| - 1]);
    }
    forall j, k | 0 <= j < k < |front| ensures ItemBefore(front[j], front[k]) {
      assert ItemBefore(xs[j], xs[k]);
    }
  }

  /** A list in order is determined by its members. */
  lemma {:induction false} ItemsUnique(xs: seq<WorkItem>, ys: seq<WorkItem>)
    requires SameItems(xs, ys)
    ensures xs == ys
    decreases |xs|
  {
    if xs == [] {
      if ys != [] {
        HasMember(ys);
      }
    } else {
      LastItemSame(xs, ys);
      FrontItems(xs, xs[..|xs| - 1]);
      FrontItems(ys, ys[..|ys| - 1]);
      ItemsUnique(xs[..|xs| - 1], ys[..|ys| - 1]);
      assert xs == xs[..|xs| - 1] + [xs[|xs| - 1]] && ys == ys[..|ys| - 1] + [ys[|ys| - 1]];
    }
  }

  /** A threaded system's items cover the entities its query matches, each exactly once. */
  lemma ItemsCoverRows(regs: seq<Registration>, w: World, p: nat, i: nat)
    requires Inv(w) && p < |regs| && regs[p].alive && regs[p].threaded
    requires i < |w.slots| && w.slots[i].alive && w.slots[i].place.Placed? && w.slots[i].place.arch < |w.archs|
    ensures Q.Matches(w.archs[w.slots[i].place.arch].sig, regs[p].requireIds, regs[p].excludeIds) <==>
            exists part :: part in PartsOf(regs[p], w.archs) && i in RowsOf(w, part)
    ensures forall x, y :: x in PartsOf(regs[p], w.archs) && y in PartsOf(regs[p], w.archs) ==>
              i in RowsOf(w, x) && i in RowsOf(w, y) ==> x == y
  {
    var r, place := regs[p], w.slots[i].place;
    var locs := ChunkList(w.archs, r.requireIds, r.excludeIds, |w.archs|);
    ChunkListSpec(w.archs, r.requireIds, r.excludeIds, |w.archs|);
    assert Seated(w, i);
    Q.ChunksCoverRows(w.archs, r.requireIds, r.excludeIds, locs, place.arch, place.at);
    if Q.Matches(w.archs[place.arch].sig, r.requireIds, r.excludeIds) {
      var k :| 0 <= k < |locs| && locs[k] == Q.ChunkLocation(place.arch, place.at.chunk);
      assert PartsOf(r, w.archs)[k] == OneChunk(locs[k]);
      assert i in RowsOf(w, OneChunk(locs[k]));
    }
    forall part | part in PartsOf(r, w.archs) && i in RowsOf(w, part)
      ensures part == OneChunk(Q.ChunkLocation(place.arch, place.at.chunk))
              && Q.Matches(w.archs[place.arch].sig, r.requireIds, r.excludeIds)
    {
      var k :| 0 <= k < |locs| && PartsOf(r, w.archs)[k] == part;
      assert part == OneChunk(locs[k]) && SeatedIn(w, i, locs[k]);
      assert locs[k] in locs;
    }
  }
}
