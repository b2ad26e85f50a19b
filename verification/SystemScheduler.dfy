/** `SystemScheduler::rebuild`: from a registry to stages and a schedule hash. */
module SystemScheduler {
  import opened Conflicts
  import D = Dag
  import opened Digraph
  import opened Fnv
  import opened Schedule
  import opened Sorting
  import opened SystemAccess

  // ----- phase 1: declared edges -----

  method BuildTypeIndex(reg: Registry) returns (index: map<Word, nat>)
    ensures IsIndex(reg, index)
  {
    index := map[];
    var i := 0;
    while i < |reg|
      invariant 0 <= i <= |reg|
      invariant forall t: Word :: t in index ==> index[t] < i && Resolves(reg, t, index[t])
      invariant forall j: nat :: j < i && Alive(reg, j) ==> reg[j].typeId in index
    {
      if reg[i].alive && reg[i].typeId !in index {
        index := index[reg[i].typeId := i];
      }
      i := i + 1;
    }
    forall t: Word, j: nat | Resolves(reg, t, j) ensures t in index && index[t] == j {
      assert Alive(reg, j);
    }
  }

  /** The part of a registration's list that has been processed when the scan stands at
      registration i, entry k. */
  function Scanned(ts: seq<Word>, v: nat, i: nat, k: nat): seq<Word> {
    if v < i then ts else if v == i && k <= |ts| then ts[..k] else []
  }

  ghost predicate EdgeScanned(reg: Registry, u: nat, v: nat, i: nat, k: nat, l: nat) {
    && Alive(reg, u) && Alive(reg, v)
    && (ResolvesIn(reg, Scanned(reg[v].runAfter, v, i, k), u) || ResolvesIn(reg, Scanned(reg[u].runBefore, u, i, l), v))
  }

  ghost predicate EdgesScanned(reg: Registry, g: Edges, i: nat, k: nat, l: nat) {
    forall u: nat, v: nat :: (u, v) in g <==> EdgeScanned(reg, u, v, i, k, l)
  }

  lemma ResolvesSnoc(reg: Registry, ts: seq<Word>, t: Word, u: nat)
    ensures ResolvesIn(reg, ts + [t], u) <==> ResolvesIn(reg, ts, u) || Resolves(reg, t, u)
  {
    assert forall x :: x in ts + [t] <==> x in ts || x == t;
    if Resolves(reg, t, u) {
      assert t in ts + [t];
    }
  }

  /** h has one more edge, from what t resolves to, if anything, into i. */
  ghost predicate AddsFrom(reg: Registry, g: Edges, h: Edges, i: nat, t: Word) {
    forall u: nat, v: nat :: (u, v) in h <==> (u, v) in g || (v == i && Resolves(reg, t, u))
  }

  ghost predicate AddsTo(reg: Registry, g: Edges, h: Edges, i: nat, t: Word) {
    forall u: nat, v: nat :: (u, v) in h <==> (u, v) in g || (u == i && Resolves(reg, t, v))
  }

  lemma IndexedEdges(reg: Registry, index: map<Word, nat>, g: Edges, i: nat, t: Word)
    requires IsIndex(reg, index)
    ensures AddsFrom(reg, g, if t in index then g + {(index[t], i)} else g, i, t)
    ensures AddsTo(reg, g, if t in index then g + {(i, index[t])} else g, i, t)
  {
    if t in index {
      assert Resolves(reg, t, index[t]);
    }
  }

  lemma ScanAfter(reg: Registry, g: Edges, h: Edges, i: nat, k: nat)
    requires EdgesScanned(reg, g, i, k, 0) && Alive(reg, i) && k < |reg[i].runAfter|
    requires AddsFrom(reg, g, h, i, reg[i].runAfter[k])
    ensures EdgesScanned(reg, h, i, k + 1, 0)
  {
    var ts := reg[i].runAfter;
    assert ts[..k + 1] == ts[..k] + [ts[k]];
    forall u: nat, v: nat ensures (u, v) in h <==> EdgeScanned(reg, u, v, i, k + 1, 0) {
      ResolvesSnoc(reg, ts[..k], ts[k], u);
      assert (u, v) in g <==> EdgeScanned(reg, u, v, i, k, 0);
    }
  }

  lemma ScanBefore(reg: Registry, g: Edges, h: Edges, i: nat, l: nat)
    requires Alive(reg, i) && l < |reg[i].runBefore|
    requires EdgesScanned(reg, g, i, |reg[i].runAfter|, l)
    requires AddsTo(reg, g, h, i, reg[i].runBefore[l])
    ensures EdgesScanned(reg, h, i, |reg[i].runAfter|, l + 1)
  {
    var ts := reg[i].runBefore;
    assert ts[..l + 1] == ts[..l] + [ts[l]];
    forall u: nat, v: nat ensures (u, v) in h <==> EdgeScanned(reg, u, v, i, |reg[i].runAfter|, l + 1) {
      ResolvesSnoc(reg, ts[..l], ts[l], v);
      assert (u, v) in g <==> EdgeScanned(reg, u, v, i, |reg[i].runAfter|, l);
    }
  }

  lemma ScanNext(reg: Registry, g: Edges, i: nat)
    requires i < |reg|
    requires if reg[i].alive then EdgesScanned(reg, g, i, |reg[i].runAfter|, |reg[i].runBefore|)
             else EdgesScanned(reg, g, i, 0, 0)
    ensures EdgesScanned(reg, g, i + 1, 0, 0)
  {
    var k, l := if reg[i].alive then |reg[i].runAfter| else 0, if reg[i].alive then |reg[i].runBefore| else 0;
    forall u: nat, v: nat ensures (u, v) in g <==> EdgeScanned(reg, u, v, i + 1, 0, 0) {
      assert (u, v) in g <==> EdgeScanned(reg, u, v, i, k, l);
      if Alive(reg, u) && Alive(reg, v) {
        assert Scanned(reg[v].runAfter, v, i, k) == Scanned(reg[v].runAfter, v, i + 1, 0);
        assert Scanned(reg[u].runBefore, u, i, l) == Scanned(reg[u].runBefore, u, i + 1, 0);
      }
    }
  }

  ghost predicate IsIndex(reg: Registry, index: map<Word, nat>) {
    forall t: Word, i: nat :: t in index && index[t] == i <==> Resolves(reg, t, i)
  }

  method AddPredecessors(dag: D.DAG, reg: Registry, index: map<Word, nat>, i: nat)
    requires dag.Valid() && dag.n == |reg| && Alive(reg, i) && IsIndex(reg, index)
    requires EdgesScanned(reg, dag.edges, i, 0, 0)
    modifies dag
    ensures dag.Valid() && dag.n == |reg|
    ensures EdgesScanned(reg, dag.edges, i, |reg[i].runAfter|, 0)
  {
    var k := 0;
    while k < |reg[i].runAfter|
      invariant 0 <= k <= |reg[i].runAfter| && dag.Valid() && dag.n == |reg|
      invariant EdgesScanned(reg, dag.edges, i, k, 0)
    {
      ghost var g := dag.edges;
      var pred := reg[i].runAfter[k];
      if pred in index {
        assert Resolves(reg, pred, index[pred]);
        dag.AddEdge(index[pred], i);
      }
      IndexedEdges(reg, index, g, i, pred);
      ScanAfter(reg, g, dag.edges, i, k);
      k := k + 1;
    }
  }

  method AddSuccessors(dag: D.DAG, reg: Registry, index: map<Word, nat>, i: nat)
    requires dag.Valid() && dag.n == |reg| && Alive(reg, i) && IsIndex(reg, index)
    requires EdgesScanned(reg, dag.edges, i, |reg[i].runAfter|, 0)
    modifies dag
    ensures dag.Valid() && dag.n == |reg|
    ensures EdgesScanned(reg, dag.edges, i, |reg[i].runAfter|, |reg[i].runBefore|)
  {
    var l := 0;
    while l < |reg[i].runBefore|
      invariant 0 <= l <= |reg[i].runBefore| && dag.Valid() && dag.n == |reg|
      invariant EdgesScanned(reg, dag.edges, i, |reg[i].runAfter|, l)
    {
      ghost var g := dag.edges;
      var succ := reg[i].runBefore[l];
      if succ in index {
        assert Resolves(reg, succ, index[succ]);
        dag.AddEdge(i, index[succ]);
      }
      IndexedEdges(reg, index, g, i, succ);
      ScanBefore(reg, g, dag.edges, i, l);
      l := l + 1;
    }
  }

  /** Declared edges of all alive registrations, on a DAG without edges. */
  method AddDeclaredEdges(dag: D.DAG, reg: Registry)
    requires dag.Valid() && dag.n == |reg| && dag.edges == {}
    modifies dag
    ensures dag.Valid() && dag.n == |reg| && dag.edges == Declared(reg)
  {
    var index := BuildTypeIndex(reg);
    var i := 0;
    assert EdgesScanned(reg, dag.edges, 0, 0, 0);
    while i < |reg|
      invariant 0 <= i <= |reg| && dag.Valid() && dag.n == |reg|
      invariant EdgesScanned(reg, dag.edges, i, 0, 0)
    {
      if reg[i].alive {
        AddPredecessors(dag, reg, index, i);
        AddSuccessors(dag, reg, index, i);
      }
      ScanNext(reg, dag.edges, i);
      i := i + 1;
    }
    AllScanned(reg, dag.edges);
  }

  lemma AllScanned(reg: Registry, g: Edges)
    requires EdgesScanned(reg, g, |reg|, 0, 0)
    ensures g == Declared(reg)
  {
    forall u: nat, v: nat ensures (u, v) in g <==> DeclaredEdge(reg, u, v) {
      assert (u, v) in g <==> EdgeScanned(reg, u, v, |reg|, 0, 0);
    }
    SameEdges(g, Declared(reg));
  }

  lemma SameEdges(g: Edges, h: Edges)
    requires forall u: nat, v: nat :: (u, v) in g <==> (u, v) in h
    ensures g == h
  {
    forall e ensures e in g <==> e in h {
      assert (e.0, e.1) == e;
    }
  }

  // ----- phase 3: conflict pairs -----

  ghost predicate Before(c: Pair, i: nat, j: nat) {
    c.0 < i || (c.0 == i && c.1 < j)
  }

  method CollectConflicts(reg: Registry) returns (cs: seq<Pair>)
    requires forall i: nat :: Alive(reg, i) ==> SortedLists(reg[i])
    ensures SortedConflicts(reg, cs) && InIdOrder(reg, cs)
  {
    cs := [];
    var i := 0;
    while i < |reg|
      invariant 0 <= i <= |reg| && AllDifferent(cs)
      invariant forall c :: c in cs <==> ConflictPair(reg, c) && Before(c, i, 0)
    {
      if reg[i].alive {
        var j := i + 1;
        while j < |reg|
          invariant i + 1 <= j <= |reg| && AllDifferent(cs)
          invariant forall c :: c in cs <==> ConflictPair(reg, c) && Before(c, i, j)
        {
          if reg[j].alive {
            var overlaps := AccessOverlaps(reg[i].access, reg[j].access);
            if overlaps {
              var disjoint := ProvablyDisjoint(reg[i], reg[j]);
              if !disjoint {
                assert ConflictPair(reg, (i, j));
                cs := cs + [(i, j)];
              }
            }
          }
          j := j + 1;
        }
      }
      i := i + 1;
    }
    ghost var unsorted := cs;
    cs := Sort(cs, (c: Pair) => PairKey(reg, c));
    PermutationDifferent(unsorted, cs);
    ConflictsInIdOrder(reg, cs);
  }

  // ----- phase 4: orientation -----

  /** Orients one conflict pair.  With no path either way, neither direction can close a cycle,
      so the roll-back and hard-error branches of the source are never entered. */
  method OrientConflict(dag: D.DAG, reg: Registry, c: Pair)
    requires dag.Valid() && dag.n == |reg| && c.0 < |reg| && c.1 < |reg|
    requires Acyclic(dag.edges) && forall v: nat :: v < dag.n ==> LongestInto(dag.edges, v, dag.depth[v])
    modifies dag
    ensures dag.Valid() && dag.n == |reg|
    ensures dag.edges == Orient(reg, old(dag.edges), c) && Oriented(reg, old(dag.edges), c, dag.edges)
    ensures Acyclic(dag.edges) && forall v: nat :: v < dag.n ==> LongestInto(dag.edges, v, dag.depth[v])
  {
    var u, v := c.0, c.1;
    ghost var g := dag.edges;
    OrientChooses(reg, g, c);
    var there := dag.PathExists(u, v);
    var back := dag.PathExists(v, u);
    if there || back {
      return;
    }
    DepthIs(g, u, dag.depth[u]);
    DepthIs(g, v, dag.depth[v]);
    var costUV := Cost(dag.depth[u], dag.depth[v]);
    var costVU := Cost(dag.depth[v], dag.depth[u]);
    var first, second := u, v;
    if costVU < costUV {
      first, second := v, u;
    } else if costUV == costVU {
      if reg[v].typeId < reg[u].typeId {
        first, second := v, u;
      }
    }
    OrientSound(reg, g, c);
    dag.AddEdge(first, second);
    assert dag.edges == Orient(reg, g, c);
    var ok := dag.RecomputeDepthsOrDetectCycle();
    if !ok {
      assert false;
    }
  }

  // ----- phase 5: stable topological order -----

  function NodeKey(reg: Registry, depth: seq<nat>, i: nat): Key {
    if i < |depth| then (depth[i], IdAt(reg, i)) else (0, 0)
  }

  lemma TakeOut(pq: seq<nat>, k: nat)
    requires k < |pq|
    ensures multiset(pq) == multiset(pq[..k] + pq[k + 1..]) + multiset{pq[k]}
  {
    assert pq == pq[..k] + [pq[k]] + pq[k + 1..];
  }

  /** Removes an entry with the least key from the priority queue. */
  method PopLeast(pq: seq<nat>, reg: Registry, depth: seq<nat>) returns (top: nat, rest: seq<nat>)
    requires pq != []
    ensures multiset(pq) == multiset(rest) + multiset{top}
    ensures forall x: nat :: x in pq ==> KeyLe(NodeKey(reg, depth, top), NodeKey(reg, depth, x))
  {
    var best := 0;
    var i := 1;
    while i < |pq|
      invariant 1 <= i <= |pq| && best < i
      invariant forall k :: 0 <= k < i ==> KeyLe(NodeKey(reg, depth, pq[best]), NodeKey(reg, depth, pq[k]))
    {
      if !KeyLe(NodeKey(reg, depth, pq[best]), NodeKey(reg, depth, pq[i])) {
        best := i;
      }
      i := i + 1;
    }
    top, rest := pq[best], pq[..best] + pq[best + 1..];
    TakeOut(pq, best);
    forall x: nat | x in pq ensures KeyLe(NodeKey(reg, depth, top), NodeKey(reg, depth, x)) {
      var k :| 0 <= k < |pq| && pq[k] == x;
    }
  }

  /** Systems in `order` are emitted, and u's successors outside `rest` have been released.
      Keys never decrease along the order or from the order to the queue. */
  ghost predicate Emitting(reg: Registry, ins: seq<seq<nat>>, depth: seq<nat>, done: set<nat>, order: seq<nat>,
                           rest: seq<nat>, pq: seq<nat>, indeg: seq<nat>)
  {
    && |reg| == |ins| == |depth| == |indeg|
    && Distinct(order) && Distinct(pq)
    && (forall x: nat :: x in order <==> x in done)
    && (forall x: nat :: x in pq ==> x !in done)
    && (forall x: nat :: x in done || x in pq <==> Alive(reg, x) && indeg[x] == 0)
    && (forall x: nat :: x < |ins| ==> indeg[x] == |D.Pending(ins[x], done)| + (if x in rest then 1 else 0))
    && (forall j, k :: 0 <= j < k < |order| ==> KeyLe(NodeKey(reg, depth, order[j]), NodeKey(reg, depth, order[k])))
    && (forall j, x: nat :: 0 <= j < |order| && x in pq ==>
        KeyLe(NodeKey(reg, depth, order[j]), NodeKey(reg, depth, x)))
  }

  lemma PermutationDistinct(a: seq<nat>, b: seq<nat>)
    requires Distinct(a) && multiset(a) == multiset(b)
    ensures Distinct(b)
  {
    SameMembers(a, b);
    assert Elements(a) == Elements(b);
    DistinctElements(a);
    DistinctElements(b);
  }

  lemma EmitStart(reg: Registry, ins: seq<seq<nat>>, depth: seq<nat>, done: set<nat>, order: seq<nat>,
                  pq: seq<nat>, indeg: seq<nat>, u: nat, pq': seq<nat>, succs: seq<nat>)
    requires Emitting(reg, ins, depth, done, order, [], pq, indeg)
    requires multiset(pq) == multiset(pq') + multiset{u}
    requires forall x: nat :: x in pq ==> KeyLe(NodeKey(reg, depth, u), NodeKey(reg, depth, x))
    requires forall x: nat :: x < |ins| ==> (x in succs <==> u in ins[x])
    ensures u < |ins| && u !in done && Alive(reg, u)
    ensures Emitting(reg, ins, depth, done + {u}, order + [u], succs, pq', indeg)
  {
    assert multiset([u] + pq') == multiset(pq);
    PermutationDistinct(pq, [u] + pq');
    SameMembers(pq, [u] + pq');
    assert u in [u] + pq' && u in pq;
    assert forall x: nat :: x in pq <==> x == u || x in pq' by {
      assert forall x: nat :: x in [u] + pq' <==> x == u || x in pq';
    }
    assert u !in pq' && Distinct(pq') by {
      D.SplitFirst([u] + pq', 0);
      assert ([u] + pq')[1..] == pq';
    }
    forall x: nat | x < |ins|
      ensures indeg[x] == |D.Pending(ins[x], done + {u})| + (if x in succs then 1 else 0)
    {
      D.PendingStep(ins[x], done, u);
    }
  }

  lemma EmitStep(reg: Registry, ins: seq<seq<nat>>, depth: seq<nat>, done: set<nat>, order: seq<nat>,
                 rest: seq<nat>, pq: seq<nat>, indeg: seq<nat>, u: nat, v: nat)
    requires Emitting(reg, ins, depth, done, order, [v] + rest, pq, indeg)
    requires order != [] && order[|order| - 1] == u && v !in rest && Alive(reg, v)
    requires u < |depth| && v < |depth| && depth[u] < depth[v]
    ensures indeg[v] > 0
    ensures var indeg' := indeg[v := indeg[v] - 1];
            var pq' := if indeg'[v] == 0 then pq + [v] else pq;
            Emitting(reg, ins, depth, done, order, rest, pq', indeg')
  {
    assert v in [v] + rest;
    assert u in order;
    assert forall x: nat :: x != v ==> (x in [v] + rest <==> x in rest);
    forall j | 0 <= j < |order| ensures KeyLe(NodeKey(reg, depth, order[j]), NodeKey(reg, depth, v)) {
      assert j < |order| - 1 ==> KeyLe(NodeKey(reg, depth, order[j]), NodeKey(reg, depth, u));
    }
  }

  /** Releases the successors of the system just emitted. */
  method ReleaseAll(reg: Registry, ghost g: Edges, ghost ins: seq<seq<nat>>, depth: seq<nat>, ghost done: set<nat>,
                    ghost order: seq<nat>, u: nat, succs: seq<nat>, pq0: seq<nat>, indeg0: seq<nat>)
    returns (pq: seq<nat>, indeg: seq<nat>)
    requires Emitting(reg, ins, depth, done, order, succs, pq0, indeg0)
    requires order != [] && order[|order| - 1] == u && Distinct(succs)
    requires forall v: nat :: v in succs ==> Alive(reg, u) && Alive(reg, v) && depth[u] < depth[v]
    ensures Emitting(reg, ins, depth, done, order, [], pq, indeg)
  {
    pq, indeg := pq0, indeg0;
    var i := 0;
    while i < |succs|
      invariant 0 <= i <= |succs|
      invariant Emitting(reg, ins, depth, done, order, succs[i..], pq, indeg)
    {
      var v := succs[i];
      D.SplitFirst(succs, i);
      assert v in succs;
      if reg[v].alive {
        EmitStep(reg, ins, depth, done, order, succs[i + 1..], pq, indeg, u, v);
        indeg := indeg[v := indeg[v] - 1];
        pq := if indeg[v] == 0 then pq + [v] else pq;
      }
      i := i + 1;
    }
    assert succs[i..] == [];
  }

  /** The topological order: all alive systems, ascending by depth and then type id. */
  ghost predicate EmitOrder(reg: Registry, depth: seq<nat>, order: seq<nat>) {
    && Distinct(order)
    && (forall x: nat :: x in order <==> Alive(reg, x))
    && (forall j, k :: 0 <= j < k < |order| ==> KeyLe(NodeKey(reg, depth, order[j]), NodeKey(reg, depth, order[k])))
  }

  lemma EmittedAll(reg: Registry, g: Edges, ins: seq<seq<nat>>, depth: seq<nat>, done: set<nat>, order: seq<nat>,
                   indeg: seq<nat>)
    requires D.Incoming(g, ins) && Acyclic(g) && AliveEdges(reg, g)
    requires Emitting(reg, ins, depth, done, order, [], [], indeg)
    ensures EmitOrder(reg, depth, order)
  {
    var rest := set x | x in D.NodesBelow(|reg|) && Alive(reg, x) && x !in done;
    if rest != {} {
      forall x | x in rest ensures HasPredecessorIn(g, rest, x) {
        var w := D.PendingSome(ins[x], done);
        assert (w, x) in g;
        assert w in rest;
      }
      EveryNodeHasPredecessor(g, rest);
    }
    forall x: nat | Alive(reg, x) ensures x in order {
      assert x !in rest;
    }
  }

  method InitialQueue(reg: Registry, preds: seq<seq<nat>>) returns (pq: seq<nat>, indeg: seq<nat>)
    requires |preds| == |reg| && forall x :: 0 <= x < |reg| ==> Distinct(preds[x])
    ensures |indeg| == |reg| && Distinct(pq)
    ensures forall x: nat :: x < |reg| ==> indeg[x] == |D.Pending(preds[x], {})|
    ensures forall x: nat :: x in pq <==> Alive(reg, x) && indeg[x] == 0
  {
    indeg := seq(|reg|, x requires 0 <= x < |reg| => |preds[x]|);
    pq := [];
    var i := 0;
    while i < |reg|
      invariant 0 <= i <= |reg| && Distinct(pq)
      invariant forall x: nat :: x in pq <==> x < i && Alive(reg, x) && indeg[x] == 0
    {
      if reg[i].alive && indeg[i] == 0 {
        pq := pq + [i];
      }
      i := i + 1;
    }
    forall x: nat | x < |reg| ensures indeg[x] == |D.Pending(preds[x], {})| {
      D.PendingNone(preds[x]);
    }
  }

  method TopologicalOrder(dag: D.DAG, reg: Registry) returns (order: seq<nat>)
    requires dag.Valid() && dag.n == |reg| && Acyclic(dag.edges) && AliveEdges(reg, dag.edges)
    requires forall u: nat, v: nat :: (u, v) in dag.edges ==> dag.depth[u] < dag.depth[v]
    ensures EmitOrder(reg, dag.depth, order)
  {
    var preds, depth := dag.inEdges, dag.depth;
    var pq, indeg := InitialQueue(reg, preds);
    order := [];
    ghost var done: set<nat> := {};
    while pq != []
      invariant Emitting(reg, preds, depth, done, order, [], pq, indeg)
      decreases D.NodesBelow(|reg|) - done
    {
      var u, rest := PopLeast(pq, reg, depth);
      assert u in multiset(pq) && u in pq;
      EmitStart(reg, preds, depth, done, order, pq, indeg, u, rest, dag.outEdges[u]);
      order := order + [u];
      done := done + {u};
      forall v: nat | v in dag.outEdges[u] ensures Alive(reg, v) && depth[u] < depth[v] {
        assert (u, v) in dag.edges;
      }
      pq, indeg := ReleaseAll(reg, dag.edges, preds, depth, done, order, u, dag.outEdges[u], rest, indeg);
    }
    EmittedAll(reg, dag.edges, preds, depth, done, order, indeg);
  }

  // ----- phase 6: stages -----

  /** Below every occupied positive depth lies an occupied depth. */
  ghost predicate Contiguous(reg: Registry, depth: seq<nat>) {
    forall i: nat :: Alive(reg, i) && i < |depth| && depth[i] > 0 ==> OccupiedBelow(reg, depth, depth[i])
  }

  ghost predicate OccupiedBelow(reg: Registry, depth: seq<nat>, d: nat) {
    exists u: nat :: Alive(reg, u) && u < |depth| && depth[u] + 1 == d
  }

  ghost predicate ProperStages(reg: Registry, stages: seq<seq<nat>>) {
    forall s: nat :: s < |stages| ==> stages[s] != [] && Distinct(stages[s]) && AscendingIds(reg, stages[s])
  }

  /** The stages cover the first systems of the order, stage s holding those of depth s. */
  ghost predicate ByDepth(depth: seq<nat>, prefix: seq<nat>, stages: seq<seq<nat>>) {
    && (forall s: nat, i: nat :: s < |stages| ==> (i in stages[s] <==> i in prefix && i < |depth| && depth[i] == s))
    && (forall i: nat :: i in prefix ==> i < |depth| && depth[i] < |stages|)
  }

  ghost predicate LaidOut(reg: Registry, depth: seq<nat>, prefix: seq<nat>, stages: seq<seq<nat>>) {
    ProperStages(reg, stages) && ByDepth(depth, prefix, stages)
  }

  lemma NextNotAbove(reg: Registry, depth: seq<nat>, order: seq<nat>, k: nat, count: nat)
    requires |depth| == |reg| && EmitOrder(reg, depth, order) && Contiguous(reg, depth) && k < |order|
    requires forall i: nat :: i in order[..k] ==> i < |depth| && depth[i] < count
    ensures order[k] < |reg| && depth[order[k]] <= count
  {
    var x := order[k];
    assert x in order;
    var d := depth[x];
    forall m | k <= m < |order| ensures order[m] < |depth| && d <= depth[order[m]] {
      assert order[m] in order;
      assert m > k ==> KeyLe(NodeKey(reg, depth, order[k]), NodeKey(reg, depth, order[m]));
    }
    if d > 0 {
      assert OccupiedBelow(reg, depth, d);
      var u: nat :| Alive(reg, u) && u < |depth| && depth[u] + 1 == d;
      var j :| 0 <= j < |order| && order[j] == u;
      assert j < k;
      assert u in order[..k];
    }
  }

  lemma NextNotBelow(reg: Registry, depth: seq<nat>, order: seq<nat>, k: nat, y: nat)
    requires |depth| == |reg| && EmitOrder(reg, depth, order) && k < |order| && order[k] < |reg|
    requires y in order[..k] && y < |depth|
    ensures depth[y] <= depth[order[k]]
  {
    var j :| 0 <= j < |order[..k]| && order[..k][j] == y;
    assert KeyLe(NodeKey(reg, depth, order[j]), NodeKey(reg, depth, order[k]));
  }

  /** The next system of the order belongs to the last stage or opens the one after it. */
  lemma NextDepth(reg: Registry, depth: seq<nat>, order: seq<nat>, k: nat, stages: seq<seq<nat>>)
    requires |depth| == |reg| && EmitOrder(reg, depth, order) && Contiguous(reg, depth) && k < |order|
    requires LaidOut(reg, depth, order[..k], stages)
    ensures order[k] < |reg|
    ensures stages == [] ==> depth[order[k]] == 0
    ensures stages != [] ==>
      var d := depth[order[k]]; d == |stages| - 1 || d == |stages|
  {
    NextNotAbove(reg, depth, order, k, |stages|);
    FrontDepth(reg, depth, order[..k], stages);
    if stages != [] {
      var s: nat := |stages| - 1;
      assert stages[s][0] in stages[s];
      NextNotBelow(reg, depth, order, k, stages[s][0]);
    }
  }

  /** The system x = order[k] extends a stage of its own depth. */
  lemma ExtendStage(reg: Registry, depth: seq<nat>, order: seq<nat>, k: nat, stage: seq<nat>)
    requires |depth| == |reg| && EmitOrder(reg, depth, order) && k < |order| && order[k] < |reg|
    requires Distinct(stage) && AscendingIds(reg, stage)
    requires forall i: nat :: i in stage ==> i in order[..k] && i < |depth| && depth[i] == depth[order[k]]
    ensures Distinct(stage + [order[k]]) && AscendingIds(reg, stage + [order[k]])
  {
    var x := order[k];
    assert x !in order[..k];
    DistinctSnoc(stage, x);
    forall j | 0 <= j < |stage| ensures stage[j] < |reg| && reg[stage[j]].typeId <= reg[x].typeId {
      assert stage[j] in stage;
      var m :| 0 <= m < |order[..k]| && order[..k][m] == stage[j];
      assert KeyLe(NodeKey(reg, depth, order[m]), NodeKey(reg, depth, order[k]));
    }
    AscendingSnoc(reg, stage, x);
  }

  /** The stages after the next system x of the order is laid. */
  function Lay(depth: seq<nat>, stages: seq<seq<nat>>, x: nat): (r: seq<seq<nat>>) {
    if stages == [] || (x < |depth| && depth[x] != |stages| - 1) then stages + [[x]]
    else stages[|stages| - 1 := stages[|stages| - 1] + [x]]
  }

  lemma LayInTwoSteps(depth: seq<nat>, stages: seq<seq<nat>>, x: nat)
    requires x < |depth|
    ensures var grown := if stages == [] || depth[x] != |stages| - 1 then stages + [[]] else stages;
            grown[|grown| - 1 := grown[|grown| - 1] + [x]] == Lay(depth, stages, x)
  {
    assert [] + [x] == [x];
  }

  lemma LayProper(reg: Registry, depth: seq<nat>, order: seq<nat>, k: nat, stages: seq<seq<nat>>)
    requires |depth| == |reg| && EmitOrder(reg, depth, order) && k < |order| && order[k] < |reg|
    requires LaidOut(reg, depth, order[..k], stages)
    requires |Lay(depth, stages, order[k])| == depth[order[k]] + 1
    ensures ProperStages(reg, Lay(depth, stages, order[k]))
  {
    var x := order[k];
    var after := Lay(depth, stages, x);
    var d := depth[x];
    if d < |stages| {
      ExtendStage(reg, depth, order, k, stages[d]);
      assert after[d] == stages[d] + [x];
    } else {
      ExtendStage(reg, depth, order, k, []);
      assert after[d] == [] + [x];
    }
    forall s: nat | s < |after| ensures after[s] != [] && Distinct(after[s]) && AscendingIds(reg, after[s]) {
      assert s < d ==> after[s] == stages[s];
    }
  }

  lemma LayByDepth(depth: seq<nat>, prefix: seq<nat>, stages: seq<seq<nat>>, x: nat)
    requires x < |depth| && ByDepth(depth, prefix, stages)
    requires |Lay(depth, stages, x)| == depth[x] + 1
    ensures ByDepth(depth, prefix + [x], Lay(depth, stages, x))
  {
    var d, after := depth[x], Lay(depth, stages, x);
    assert forall i: nat :: i in prefix + [x] <==> i in prefix || i == x;
    assert forall i: nat :: i in after[d] <==> (d < |stages| && i in stages[d]) || i == x;
    assert forall s: nat :: s < d ==> after[s] == stages[s];
  }

  lemma LayStep(reg: Registry, depth: seq<nat>, order: seq<nat>, k: nat, stages: seq<seq<nat>>)
    requires |depth| == |reg| && EmitOrder(reg, depth, order) && Contiguous(reg, depth) && k < |order|
    requires LaidOut(reg, depth, order[..k], stages)
    ensures order[k] < |reg|
    ensures LaidOut(reg, depth, order[..k] + [order[k]], Lay(depth, stages, order[k]))
  {
    NextDepth(reg, depth, order, k, stages);
    LayProper(reg, depth, order, k, stages);
    LayByDepth(depth, order[..k], stages, order[k]);
  }

  lemma AscendingSnoc(reg: Registry, s: seq<nat>, x: nat)
    requires AscendingIds(reg, s) && x < |reg|
    requires forall j :: 0 <= j < |s| ==> s[j] < |reg| && reg[s[j]].typeId <= reg[x].typeId
    ensures AscendingIds(reg, s + [x])
  {
  }

  /** The open stage is not empty, and its systems have its number as depth. */
  predicate FrontAtDepth(depth: seq<nat>, stages: seq<seq<nat>>) {
    stages != [] ==>
      var front := stages[|stages| - 1]; front != [] && front[0] < |depth| && depth[front[0]] == |stages| - 1
  }

  /** Places the next system of the order: a depth change opens a new stage. */
  method Place(depth: seq<nat>, stages0: seq<seq<nat>>, i: nat) returns (stages: seq<seq<nat>>)
    requires i < |depth|
    requires FrontAtDepth(depth, stages0)
    ensures stages == Lay(depth, stages0, i)
  {
    LayInTwoSteps(depth, stages0, i);
    stages := stages0;
    if stages == [] || depth[stages[|stages| - 1][0]] != depth[i] {
      stages := stages + [[]];
    }
    stages := stages[|stages| - 1 := stages[|stages| - 1] + [i]];
  }

  lemma LayNext(reg: Registry, depth: seq<nat>, order: seq<nat>, k: nat, stages: seq<seq<nat>>)
    requires |depth| == |reg| && EmitOrder(reg, depth, order) && Contiguous(reg, depth) && k < |order|
    requires LaidOut(reg, depth, order[..k], stages)
    ensures order[k] < |depth| && FrontAtDepth(depth, stages)
    ensures LaidOut(reg, depth, order[..k + 1], Lay(depth, stages, order[k]))
  {
    LayStep(reg, depth, order, k, stages);
    FrontDepth(reg, depth, order[..k], stages);
    assert order[..k + 1] == order[..k] + [order[k]];
  }

  lemma LaidOutNone(reg: Registry, depth: seq<nat>)
    requires |depth| == |reg|
    ensures LaidOut(reg, depth, [], [])
  {
  }

  method LayOutStages(reg: Registry, depth: seq<nat>, order: seq<nat>) returns (stages: seq<seq<nat>>)
    requires |depth| == |reg| && EmitOrder(reg, depth, order) && Contiguous(reg, depth)
    ensures LaidOut(reg, depth, order, stages)
  {
    stages := [];
    LaidOutNone(reg, depth);
    assert order[..0] == [];
    var k := 0;
    while k < |order|
      invariant 0 <= k <= |order| && LaidOut(reg, depth, order[..k], stages)
    {
      LayNext(reg, depth, order, k, stages);
      stages := Place(depth, stages, order[k]);
      k := k + 1;
    }
    assert order[..k] == order;
  }

  lemma FrontDepth(reg: Registry, depth: seq<nat>, prefix: seq<nat>, stages: seq<seq<nat>>)
    requires LaidOut(reg, depth, prefix, stages)
    ensures FrontAtDepth(depth, stages)
  {
    if stages != [] {
      var s: nat := |stages| - 1;
      var i := stages[s][0];
      assert i in stages[s];
      assert i in prefix && depth[i] == s;
    }
  }

  lemma LaidOutIsLayout(reg: Registry, g: Edges, depth: seq<nat>, order: seq<nat>, stages: seq<seq<nat>>)
    requires |depth| == |reg| && EmitOrder(reg, depth, order) && LaidOut(reg, depth, order, stages)
    requires forall v: nat :: v < |reg| ==> LongestInto(g, v, depth[v])
    ensures StageLayout(reg, g, stages)
  {
    forall s: nat, i: nat | s < |stages| ensures i in stages[s] <==> Alive(reg, i) && LongestInto(g, i, s) {
      if Alive(reg, i) && LongestInto(g, i, s) {
        LongestIntoUnique(g, i, s, depth[i]);
      }
    }
    forall i: nat | Alive(reg, i) ensures Placed(stages, i) {
      assert i in order;
      assert i in stages[depth[i]];
    }
  }

  lemma DepthsContiguous(reg: Registry, g: Edges, depth: seq<nat>)
    requires |depth| == |reg| && AliveEdges(reg, g)
    requires forall v: nat :: v < |reg| ==> LongestInto(g, v, depth[v])
    ensures Contiguous(reg, depth)
    ensures forall u: nat, v: nat :: (u, v) in g ==> depth[u] < depth[v]
  {
    forall i: nat | Alive(reg, i) && depth[i] > 0 ensures OccupiedBelow(reg, depth, depth[i]) {
      var u := PredecessorLayer(g, i, depth[i]);
      assert Alive(reg, u);
      LongestIntoUnique(g, u, depth[u], depth[i] - 1);
    }
    forall u: nat, v: nat | (u, v) in g ensures depth[u] < depth[v] {
      assert Alive(reg, u) && Alive(reg, v);
      EdgeClimbs(g, u, v, depth[u], depth[v]);
    }
  }

  // ----- phase 7: hash -----

  lemma NextId(ids: seq<Word>, k: nat, h: Word)
    requires k < |ids|
    ensures FoldAll(ids[..k + 1], h) == FoldU64(ids[k], FoldAll(ids[..k], h))
  {
    assert ids[..k + 1][..k] == ids[..k];
  }

  lemma NextStageHash(ids: seq<seq<Word>>, s: nat)
    requires s < |ids|
    ensures HashOfIds(ids[..s + 1]) == FoldAll(ids[s], FoldU64(s % TWO_64, HashOfIds(ids[..s])))
  {
    assert ids[..s + 1][..s] == ids[..s];
  }

  /** The type ids of one stage. */
  method HashStage(reg: Registry, stage: seq<nat>, start: Word) returns (h: Word)
    ensures h == FoldAll(StageIds(reg, stage), start)
  {
    h := start;
    ghost var ids := StageIds(reg, stage);
    var k := 0;
    while k < |stage|
      invariant 0 <= k <= |stage| && h == FoldAll(ids[..k], start)
    {
      NextId(ids, k, start);
      h := FoldUint64(IdAt(reg, stage[k]), h);
      k := k + 1;
    }
    assert ids[..k] == ids;
  }

  method HashSchedule(reg: Registry, stages: seq<seq<nat>>) returns (h: Word)
    ensures h == HashOfIds(ScheduleIds(reg, stages))
  {
    h := CHECKSUM_SEED;
    ghost var ids := ScheduleIds(reg, stages);
    var s := 0;
    while s < |stages|
      invariant 0 <= s <= |stages| && h == HashOfIds(ids[..s])
    {
      NextStageHash(ids, s);
      h := FoldUint64(s % TWO_64, h);
      h := HashStage(reg, stages[s], h);
      s := s + 1;
    }
    assert ids[..s] == ids;
  }

  // ----- the scheduler -----

  class Scheduler {
    var built: bool
    var stages: seq<seq<nat>>
    var scheduleHash: Word

    constructor ()
      ensures !built && stages == [] && scheduleHash == 0
    {
      built, stages, scheduleHash := false, [], 0;
    }

    /** Builds the schedule, or clears it exactly when the declared edges among alive systems
        contain a cycle.  No conflict can make the rebuild fail. */
    method Rebuild(reg: Registry) returns (ghost cs: seq<Pair>, ghost graphs: seq<Edges>)
      requires forall i: nat :: Alive(reg, i) ==> SortedLists(reg[i])
      modifies this
      ensures built <==> Acyclic(Declared(reg))
      ensures built ==> IsSchedule(reg, cs, stages) && scheduleHash == HashOfIds(ScheduleIds(reg, stages))
      ensures built ==> LaidOutInTurn(reg, graphs, cs, stages)
      ensures !built ==> stages == [] && scheduleHash == 0
    {
      var dag := new D.DAG(|reg|);
      AddDeclaredEdges(dag, reg);
      var ok := dag.RecomputeDepthsOrDetectCycle();
      if !ok {
        built, stages, scheduleHash := false, [], 0;
        cs, graphs := [], [];
        return;
      }
      var conflicts := CollectConflicts(reg);
      cs := conflicts;
      graphs := OrientConflicts(dag, reg, conflicts);
      FinalGraphSound(reg, conflicts);
      DepthsContiguous(reg, dag.edges, dag.depth);
      var order := TopologicalOrder(dag, reg);
      stages := LayOutStages(reg, dag.depth, order);
      LaidOutIsLayout(reg, dag.edges, dag.depth, order, stages);
      scheduleHash := HashSchedule(reg, stages);
      built := true;
    }
  }

  lemma OrientOneMore(reg: Registry, g: Edges, cs: seq<Pair>, k: nat)
    requires k < |cs| && forall c :: c in cs ==> c.0 < |reg| && c.1 < |reg|
    ensures cs[k].0 < |reg| && cs[k].1 < |reg|
    ensures OrientAll(reg, g, cs[..k + 1]) == Orient(reg, OrientAll(reg, g, cs[..k]), cs[k])
  {
    assert cs[..k + 1][..k] == cs[..k];
    assert cs[k] in cs;
  }

  method OrientConflicts(dag: D.DAG, reg: Registry, cs: seq<Pair>) returns (ghost gs: seq<Edges>)
    requires dag.Valid() && dag.n == |reg| && forall c :: c in cs ==> c.0 < |reg| && c.1 < |reg|
    requires Acyclic(dag.edges) && forall v: nat :: v < dag.n ==> LongestInto(dag.edges, v, dag.depth[v])
    modifies dag
    ensures dag.Valid() && dag.n == |reg|
    ensures dag.edges == OrientAll(reg, old(dag.edges), cs)
    ensures OrientedInTurn(reg, gs, cs) && gs[0] == old(dag.edges) && gs[|cs|] == dag.edges
    ensures forall v: nat :: v < dag.n ==> LongestInto(dag.edges, v, dag.depth[v])
  {
    ghost var g := dag.edges;
    gs := OrientAllInTurn(reg, g, cs);
    var k := 0;
    while k < |cs|
      invariant 0 <= k <= |cs| && dag.Valid() && dag.n == |reg|
      invariant dag.edges == OrientAll(reg, g, cs[..k]) && Acyclic(dag.edges)
      invariant forall v: nat :: v < dag.n ==> LongestInto(dag.edges, v, dag.depth[v])
    {
      OrientOneMore(reg, g, cs, k);
      OrientConflict(dag, reg, cs[k]);
      k := k + 1;
    }
    assert cs[..k] == cs;
  }
}
