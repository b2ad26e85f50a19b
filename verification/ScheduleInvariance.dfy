/** The schedule is a function of the set of alive systems: registration order and dead slots
    do not change a single stage, nor the schedule hash.  Two registries are compared through
    the correspondence between registrations of equal type id. */
module ScheduleInvariance {
  import opened Conflicts
  import opened Digraph
  import opened Fnv
  import opened Schedule
  import opened Sorting
  import opened SystemAccess

  ghost predicate UniqueIds(r: Registry) {
    forall i: nat, j: nat :: Alive(r, i) && Alive(r, j) && r[i].typeId == r[j].typeId ==> i == j
  }

  ghost predicate Has(r: Registry, x: Registration) {
    exists i: nat :: Alive(r, i) && r[i] == x
  }

  /** The same alive registrations, wherever they are registered. */
  ghost predicate SameSystems(r: Registry, q: Registry) {
    forall x: Registration :: Has(r, x) <==> Has(q, x)
  }

  ghost predicate Comparable(r: Registry, q: Registry) {
    UniqueIds(r) && UniqueIds(q) && SameSystems(r, q)
  }

  ghost predicate Twin(r: Registry, q: Registry, i: nat, j: nat) {
    Alive(r, i) && Alive(q, j) && r[i].typeId == q[j].typeId
  }

  lemma TwinOf(r: Registry, q: Registry, i: nat) returns (j: nat)
    requires Comparable(r, q) && Alive(r, i)
    ensures Twin(r, q, i, j) && r[i] == q[j]
  {
    assert Has(r, r[i]);
    j :| Alive(q, j) && q[j] == r[i];
  }

  lemma TwinsEqual(r: Registry, q: Registry, i: nat, j: nat)
    requires Comparable(r, q) && Twin(r, q, i, j)
    ensures r[i] == q[j]
  {
    var k := TwinOf(r, q, i);
  }

  // ----- similar graphs -----

  ghost predicate Similar(r: Registry, g: Edges, q: Registry, h: Edges) {
    && AliveEdges(r, g) && AliveEdges(q, h)
    && forall i: nat, j: nat, k: nat, l: nat :: Twin(r, q, i, j) && Twin(r, q, k, l) ==> ((i, k) in g <==> (j, l) in h)
  }

  lemma SimilarSymmetric(r: Registry, g: Edges, q: Registry, h: Edges)
    requires Similar(r, g, q, h)
    ensures Similar(q, h, r, g)
  {
    assert forall i: nat, j: nat :: Twin(q, r, i, j) <==> Twin(r, q, j, i);
  }

  /** A path into an alive node has a twin path in the similar graph. */
  lemma {:induction false} TwinPath(r: Registry, g: Edges, q: Registry, h: Edges, p: seq<nat>, j: nat)
    returns (p': seq<nat>)
    requires Comparable(r, q) && Similar(r, g, q, h)
    requires IsPath(g, p) && Twin(r, q, p[|p| - 1], j)
    ensures EndsAt(h, p', j) && |p'| == |p| && Twin(r, q, p[0], p'[0])
    decreases |p|
  {
    if |p| == 1 {
      p' := [j];
    } else {
      var front := p[0..|p| - 1];
      SubPath(g, p, 0, |p| - 1);
      var u, v := p[|p| - 2], p[|p| - 1];
      assert Link(g, p, |p| - 2);
      var k := TwinOf(r, q, u);
      var f' := TwinPath(r, g, q, h, front, k);
      EdgePath(h, k, j);
      Join(h, f', [k, j]);
      p' := f' + [k, j][1..];
    }
  }

  lemma TwinReach(r: Registry, g: Edges, q: Registry, h: Edges, i: nat, j: nat, k: nat, l: nat)
    requires Comparable(r, q) && Similar(r, g, q, h) && Twin(r, q, i, j) && Twin(r, q, k, l)
    requires Reach(g, i, k)
    ensures Reach(h, j, l)
  {
    var p :| PathFromTo(g, p, i, k);
    var p' := TwinPath(r, g, q, h, p, l);
    assert p'[0] == j;
    assert PathFromTo(h, p', j, l);
  }

  lemma TwinReachIff(r: Registry, g: Edges, q: Registry, h: Edges, i: nat, j: nat, k: nat, l: nat)
    requires Comparable(r, q) && Similar(r, g, q, h) && Twin(r, q, i, j) && Twin(r, q, k, l)
    ensures Reach(g, i, k) <==> Reach(h, j, l)
  {
    SimilarSymmetric(r, g, q, h);
    if Reach(g, i, k) {
      TwinReach(r, g, q, h, i, j, k, l);
    }
    if Reach(h, j, l) {
      TwinReach(q, h, r, g, j, i, l, k);
    }
  }

  lemma TwinLongest(r: Registry, g: Edges, q: Registry, h: Edges, i: nat, j: nat, d: nat)
    requires Comparable(r, q) && Similar(r, g, q, h) && Twin(r, q, i, j) && LongestInto(g, i, d)
    ensures LongestInto(h, j, d)
  {
    SimilarSymmetric(r, g, q, h);
    var p :| EndsAt(g, p, i) && |p| == d + 1;
    var p' := TwinPath(r, g, q, h, p, j);
    forall w | EndsAt(h, w, j) ensures |w| <= d + 1 {
      var w' := TwinPath(q, h, r, g, w, i);
    }
  }

  lemma TwinDepth(r: Registry, g: Edges, q: Registry, h: Edges, i: nat, j: nat)
    requires Comparable(r, q) && Similar(r, g, q, h) && Twin(r, q, i, j)
    ensures Depth(g, i) == Depth(h, j)
  {
    SimilarSymmetric(r, g, q, h);
    if d: nat :| LongestInto(g, i, d) {
      TwinLongest(r, g, q, h, i, j, d);
      DepthIs(g, i, d);
      DepthIs(h, j, d);
    } else if d: nat :| LongestInto(h, j, d) {
      TwinLongest(q, h, r, g, j, i, d);
    }
  }

  lemma SimilarAcyclic(r: Registry, g: Edges, q: Registry, h: Edges)
    requires Comparable(r, q) && Similar(r, g, q, h) && Acyclic(h)
    ensures Acyclic(g)
  {
    forall p | IsPath(g, p) && |p| >= 2 ensures p[0] != p[|p| - 1] {
      assert Link(g, p, |p| - 2);
      var j := TwinOf(r, q, p[|p| - 1]);
      var p' := TwinPath(r, g, q, h, p, j);
      assert p'[0] != p'[|p'| - 1];
    }
  }

  // ----- declared edges -----

  lemma UniqueResolves(r: Registry, t: Word, i: nat)
    requires UniqueIds(r)
    ensures Resolves(r, t, i) <==> Alive(r, i) && r[i].typeId == t
  {
  }

  lemma TwinResolvesIn(r: Registry, q: Registry, ts: seq<Word>, i: nat, j: nat)
    requires Comparable(r, q) && Twin(r, q, i, j) && ResolvesIn(r, ts, i)
    ensures ResolvesIn(q, ts, j)
  {
    var t: Word :| t in ts && Resolves(r, t, i);
    UniqueResolves(q, t, j);
    assert Resolves(q, t, j);
  }

  lemma DeclaredSimilar(r: Registry, q: Registry)
    requires Comparable(r, q)
    ensures Similar(r, Declared(r), q, Declared(q))
  {
    forall i: nat, j: nat, k: nat, l: nat | Twin(r, q, i, j) && Twin(r, q, k, l)
      ensures (i, k) in Declared(r) <==> (j, l) in Declared(q)
    {
      TwinsEqual(r, q, i, j);
      TwinsEqual(r, q, k, l);
      if DeclaredEdge(r, i, k) {
        if ResolvesIn(r, r[k].runAfter, i) {
          TwinResolvesIn(r, q, r[k].runAfter, i, j);
        } else {
          TwinResolvesIn(r, q, r[i].runBefore, k, l);
        }
      }
      if DeclaredEdge(q, j, l) {
        if ResolvesIn(q, q[l].runAfter, j) {
          TwinResolvesIn(q, r, q[l].runAfter, j, i);
        } else {
          TwinResolvesIn(q, r, q[j].runBefore, l, k);
        }
      }
    }
  }

  // ----- the sorted conflict list -----

  /** The two pairs name the same two systems. */
  ghost predicate TwinPair(r: Registry, q: Registry, c: Pair, d: Pair) {
    || (Twin(r, q, c.0, d.0) && Twin(r, q, c.1, d.1))
    || (Twin(r, q, c.0, d.1) && Twin(r, q, c.1, d.0))
  }

  ghost function Keys(r: Registry, cs: seq<Pair>): (ks: seq<Key>)
    ensures |ks| == |cs| && forall i :: 0 <= i < |cs| ==> ks[i] == PairKey(r, cs[i])
  {
    seq(|cs|, i requires 0 <= i < |cs| => PairKey(r, cs[i]))
  }

  lemma KeyDeterminesPair(r: Registry, c: Pair, d: Pair)
    requires UniqueIds(r) && ConflictPair(r, c) && ConflictPair(r, d) && PairKey(r, c) == PairKey(r, d)
    ensures c == d
  {
  }

  lemma KeysStrict(r: Registry, cs: seq<Pair>)
    requires UniqueIds(r) && SortedConflicts(r, cs)
    ensures StrictlySortedBy(Keys(r, cs), (k: Key) => k)
  {
    var ks := Keys(r, cs);
    var key := (c: Pair) => PairKey(r, c);
    forall i, j | 0 <= i < j < |ks| ensures KeyLt(ks[i], ks[j]) {
      assert cs[i] in cs && cs[j] in cs;
      assert KeyLe(key(cs[i]), key(cs[j]));
      if ks[i] == ks[j] {
        KeyDeterminesPair(r, cs[i], cs[j]);
      }
    }
  }

  lemma TwinConflict(r: Registry, q: Registry, c: Pair) returns (d: Pair)
    requires Comparable(r, q) && ConflictPair(r, c)
    ensures ConflictPair(q, d) && TwinPair(r, q, c, d) && PairKey(r, c) == PairKey(q, d)
  {
    var x := TwinOf(r, q, c.0);
    var y := TwinOf(r, q, c.1);
    NeedsOrderSymmetric(r[c.0], r[c.1]);
    d := if x < y then (x, y) else (y, x);
  }

  lemma KeysIncluded(r: Registry, cs: seq<Pair>, q: Registry, ds: seq<Pair>, k: Key)
    requires Comparable(r, q) && SortedConflicts(r, cs) && SortedConflicts(q, ds) && k in Keys(r, cs)
    ensures k in Keys(q, ds)
  {
    var i :| 0 <= i < |cs| && Keys(r, cs)[i] == k;
    assert cs[i] in cs;
    var d := TwinConflict(r, q, cs[i]);
    assert d in ds;
    var j :| 0 <= j < |ds| && ds[j] == d;
    assert Keys(q, ds)[j] == k;
  }

  /** The sorted conflict lists name the same pairs of systems, position by position. */
  lemma ConflictListsAgree(r: Registry, cs: seq<Pair>, q: Registry, ds: seq<Pair>)
    requires Comparable(r, q) && SortedConflicts(r, cs) && SortedConflicts(q, ds)
    ensures |cs| == |ds| && forall i :: 0 <= i < |cs| ==> TwinPair(r, q, cs[i], ds[i])
  {
    forall k ensures k in Keys(r, cs) <==> k in Keys(q, ds) {
      if k in Keys(r, cs) {
        KeysIncluded(r, cs, q, ds, k);
      }
      if k in Keys(q, ds) {
        KeysIncluded(q, ds, r, cs, k);
      }
    }
    KeysStrict(r, cs);
    KeysStrict(q, ds);
    StrictlySortedUnique(Keys(r, cs), Keys(q, ds), (k: Key) => k);
    forall i | 0 <= i < |cs| ensures TwinPair(r, q, cs[i], ds[i]) {
      assert cs[i] in cs && ds[i] in ds;
      assert Keys(r, cs)[i] == Keys(q, ds)[i];
      var d := TwinConflict(r, q, cs[i]);
      KeyDeterminesPair(q, d, ds[i]);
    }
  }

  // ----- orientation -----

  /** The cost and tie-break rule does not depend on which of the pair is named first. */
  lemma KeepsOrderSwap(du: nat, dv: nat, idU: nat, idV: nat)
    requires idU != idV
    ensures KeepsOrder(du, dv, idU, idV) <==> !KeepsOrder(dv, du, idV, idU)
  {
  }

  lemma TwinChosen(r: Registry, g: Edges, q: Registry, h: Edges, c: Pair, d: Pair)
    requires Comparable(r, q) && Similar(r, g, q, h)
    requires ConflictPair(r, c) && ConflictPair(q, d) && TwinPair(r, q, c, d)
    ensures var e, f := ChosenEdge(r, g, c), ChosenEdge(q, h, d);
            Twin(r, q, e.0, f.0) && Twin(r, q, e.1, f.1)
  {
    if Twin(r, q, c.0, d.0) && Twin(r, q, c.1, d.1) {
      TwinDepth(r, g, q, h, c.0, d.0);
      TwinDepth(r, g, q, h, c.1, d.1);
    } else {
      TwinDepth(r, g, q, h, c.0, d.1);
      TwinDepth(r, g, q, h, c.1, d.0);
      KeepsOrderSwap(Depth(g, c.0), Depth(g, c.1), r[c.0].typeId, r[c.1].typeId);
    }
  }

  lemma AddTwinEdges(r: Registry, g: Edges, q: Registry, h: Edges, e: Pair, f: Pair)
    requires Comparable(r, q) && Similar(r, g, q, h) && Twin(r, q, e.0, f.0) && Twin(r, q, e.1, f.1)
    ensures Similar(r, g + {e}, q, h + {f})
  {
    forall i: nat, j: nat, k: nat, l: nat | Twin(r, q, i, j) && Twin(r, q, k, l)
      ensures (i, k) in g + {e} <==> (j, l) in h + {f}
    {
      assert (i, k) == e <==> (j, l) == f;
    }
  }

  lemma OrientSimilar(r: Registry, g: Edges, q: Registry, h: Edges, c: Pair, d: Pair)
    requires Comparable(r, q) && Similar(r, g, q, h)
    requires ConflictPair(r, c) && ConflictPair(q, d) && TwinPair(r, q, c, d)
    ensures Similar(r, Orient(r, g, c), q, Orient(q, h, d))
  {
    var x, y := if Twin(r, q, c.0, d.0) && Twin(r, q, c.1, d.1) then d.0 else d.1,
                if Twin(r, q, c.0, d.0) && Twin(r, q, c.1, d.1) then d.1 else d.0;
    TwinReachIff(r, g, q, h, c.0, x, c.1, y);
    TwinReachIff(r, g, q, h, c.1, y, c.0, x);
    TwinChosen(r, g, q, h, c, d);
    if !Reach(g, c.0, c.1) && !Reach(g, c.1, c.0) {
      AddTwinEdges(r, g, q, h, ChosenEdge(r, g, c), ChosenEdge(q, h, d));
    }
  }

  lemma {:induction false} OrientAllSimilar(r: Registry, g: Edges, q: Registry, h: Edges, cs: seq<Pair>, ds: seq<Pair>)
    requires Comparable(r, q) && Similar(r, g, q, h) && |cs| == |ds|
    requires forall i :: 0 <= i < |cs| ==>
             ConflictPair(r, cs[i]) && ConflictPair(q, ds[i]) && TwinPair(r, q, cs[i], ds[i])
    ensures Similar(r, OrientAll(r, g, cs), q, OrientAll(q, h, ds))
    decreases |cs|
  {
    if cs != [] {
      var n := |cs| - 1;
      OrientAllSimilar(r, g, q, h, cs[..n], ds[..n]);
      OrientSimilar(r, OrientAll(r, g, cs[..n]), q, OrientAll(q, h, ds[..n]), cs[n], ds[n]);
    }
  }

  lemma FinalGraphsSimilar(r: Registry, cs: seq<Pair>, q: Registry, ds: seq<Pair>)
    requires Comparable(r, q) && SortedConflicts(r, cs) && SortedConflicts(q, ds)
    ensures Similar(r, FinalGraph(r, cs), q, FinalGraph(q, ds))
  {
    DeclaredSimilar(r, q);
    ConflictListsAgree(r, cs, q, ds);
    forall i | 0 <= i < |cs| ensures ConflictPair(r, cs[i]) && ConflictPair(q, ds[i]) {
      assert cs[i] in cs && ds[i] in ds;
    }
    OrientAllSimilar(r, Declared(r), q, Declared(q), cs, ds);
  }

  // ----- stages -----

  lemma StageIdsStrict(r: Registry, g: Edges, stages: seq<seq<nat>>, s: nat)
    requires UniqueIds(r) && StageLayout(r, g, stages) && s < |stages|
    ensures Ascending(StageIds(r, stages[s]))
  {
    var stage, ids := stages[s], StageIds(r, stages[s]);
    forall i, j | 0 <= i < j < |ids| ensures ids[i] < ids[j] {
      assert stage[i] in stage && stage[j] in stage;
      assert stage[i] != stage[j];
    }
  }

  lemma StageIdsIncluded(r: Registry, g: Edges, q: Registry, h: Edges, st: seq<seq<nat>>, su: seq<seq<nat>>, s: nat,
                         x: nat)
    requires Comparable(r, q) && Similar(r, g, q, h) && StageLayout(r, g, st) && StageLayout(q, h, su)
    requires s < |st| && x in StageIds(r, st[s])
    ensures s < |su| && x in StageIds(q, su[s])
  {
    var k :| 0 <= k < |st[s]| && StageIds(r, st[s])[k] == x;
    var i := st[s][k];
    assert i in st[s];
    var j := TwinOf(r, q, i);
    TwinLongest(r, g, q, h, i, j, s);
    assert Placed(su, j);
    var t: nat :| t < |su| && j in su[t];
    LongestIntoUnique(h, j, s, t);
    var m :| 0 <= m < |su[s]| && su[s][m] == j;
    assert StageIds(q, su[s])[m] == x;
  }

  lemma StagesCovered(r: Registry, g: Edges, q: Registry, h: Edges, st: seq<seq<nat>>, su: seq<seq<nat>>)
    requires Comparable(r, q) && Similar(r, g, q, h) && StageLayout(r, g, st) && StageLayout(q, h, su)
    ensures |st| <= |su|
  {
    if st != [] {
      var s: nat := |st| - 1;
      assert st[s] != [];
      assert StageIds(r, st[s])[0] in StageIds(r, st[s]);
      StageIdsIncluded(r, g, q, h, st, su, s, StageIds(r, st[s])[0]);
    }
  }

  lemma LayoutsAgree(r: Registry, g: Edges, q: Registry, h: Edges, st: seq<seq<nat>>, su: seq<seq<nat>>)
    requires Comparable(r, q) && Similar(r, g, q, h) && StageLayout(r, g, st) && StageLayout(q, h, su)
    ensures ScheduleIds(r, st) == ScheduleIds(q, su)
  {
    SimilarSymmetric(r, g, q, h);
    StagesCovered(r, g, q, h, st, su);
    StagesCovered(q, h, r, g, su, st);
    forall s: nat | s < |st| ensures StageIds(r, st[s]) == StageIds(q, su[s]) {
      StageIdsStrict(r, g, st, s);
      StageIdsStrict(q, h, su, s);
      forall x: nat ensures x in StageIds(r, st[s]) <==> x in StageIds(q, su[s]) {
        if x in StageIds(r, st[s]) {
          StageIdsIncluded(r, g, q, h, st, su, s, x);
        }
        if x in StageIds(q, su[s]) {
          StageIdsIncluded(q, h, r, g, su, st, s, x);
        }
      }
      AscendingUnique(StageIds(r, st[s]), StageIds(q, su[s]));
    }
  }

  /** The theorem: registries holding the same alive systems, each type id once, either are both
      rejected or get the same stages of type ids and the same hash. */
  lemma ScheduleInvariant(r: Registry, cs: seq<Pair>, st: seq<seq<nat>>, q: Registry, ds: seq<Pair>, su: seq<seq<nat>>)
    requires Comparable(r, q)
    ensures Acyclic(Declared(r)) <==> Acyclic(Declared(q))
    ensures IsSchedule(r, cs, st) && IsSchedule(q, ds, su) ==>
      && ScheduleIds(r, st) == ScheduleIds(q, su)
      && HashOfIds(ScheduleIds(r, st)) == HashOfIds(ScheduleIds(q, su))
  {
    DeclaredSimilar(r, q);
    DeclaredSimilar(q, r);
    if Acyclic(Declared(r)) {
      SimilarAcyclic(q, Declared(q), r, Declared(r));
    }
    if Acyclic(Declared(q)) {
      SimilarAcyclic(r, Declared(r), q, Declared(q));
    }
    if IsSchedule(r, cs, st) && IsSchedule(q, ds, su) {
      FinalGraphsSimilar(r, cs, q, ds);
      LayoutsAgree(r, FinalGraph(r, cs), q, FinalGraph(q, ds), st, su);
    }
  }

  /** Registering in another order leaves the same systems. */
  lemma PermutationComparable(r: Registry, q: Registry)
    requires UniqueIds(r) && multiset(r) == multiset(q)
    ensures Comparable(r, q)
  {
    SameMembers(r, q);
    forall x: Registration ensures Has(r, x) <==> Has(q, x) {
      assert Has(r, x) <==> x in r && x.alive;
      assert Has(q, x) <==> x in q && x.alive;
    }
    forall i: nat, j: nat | Alive(q, i) && Alive(q, j) && q[i].typeId == q[j].typeId ensures i == j {
      OneOccurrence(r, q, i, j);
    }
  }

  lemma OccursOnce(r: Registry, a: nat)
    requires UniqueIds(r) && Alive(r, a)
    ensures multiset(r)[r[a]] == 1
  {
    var x := r[a];
    var left, right := r[..a], r[a + 1..];
    assert r == left + [x] + right;
    assert x !in left;
    assert x !in right by {
      forall i | 0 <= i < |right| ensures right[i] != x {
        assert r[a + 1 + i] == right[i];
      }
    }
    assert multiset(r) == multiset(left) + multiset{x} + multiset(right);
  }

  lemma OneOccurrence(r: Registry, q: Registry, i: nat, j: nat)
    requires UniqueIds(r) && multiset(r) == multiset(q)
    requires Alive(q, i) && Alive(q, j) && q[i].typeId == q[j].typeId
    ensures i == j
  {
    SameMembers(r, q);
    assert q[i] in r && q[j] in r;
    var a :| 0 <= a < |r| && r[a] == q[i];
    var b :| 0 <= b < |r| && r[b] == q[j];
    assert a == b;
    OccursOnce(r, a);
    if i < j {
      CountedTwice(q, i, j);
    } else if j < i {
      CountedTwice(q, j, i);
    }
  }

  /** A dead slot anywhere leaves the same systems. */
  lemma DeadSlotComparable(r: Registry, k: nat, dead: Registration)
    requires UniqueIds(r) && k <= |r| && !dead.alive
    ensures Comparable(r, r[..k] + [dead] + r[k..])
  {
    var q := r[..k] + [dead] + r[k..];
    assert forall i: nat :: i < |q| ==> q[i] == if i < k then r[i] else if i == k then dead else r[i - 1];
    forall x: Registration ensures Has(r, x) <==> Has(q, x) {
      if i: nat :| Alive(r, i) && r[i] == x {
        assert Alive(q, if i < k then i else i + 1);
      }
      if i: nat :| Alive(q, i) && q[i] == x {
        assert Alive(r, if i < k then i else i - 1);
      }
    }
  }
}
