/** What a schedule is: the declared edges of a registry, the orientation of its conflict
    pairs, and the layout of stages by longest incoming path.  The safety theorems about any
    such schedule are proved here; module SystemScheduler shows that `rebuild` produces one. */
module Schedule {
  import opened Conflicts
  import opened Digraph
  import opened Fnv
  import opened Sorting
  import opened SystemAccess

  type Registry = seq<Registration>
  type Pair = (nat, nat)

  predicate Alive(reg: Registry, i: nat) {
    i < |reg| && reg[i].alive
  }

  /** i is the registration a type id resolves to: the first alive one carrying it. */
  ghost predicate Resolves(reg: Registry, t: Word, i: nat) {
    Alive(reg, i) && reg[i].typeId == t && forall j: nat :: j < i && Alive(reg, j) ==> reg[j].typeId != t
  }

  ghost predicate ResolvesIn(reg: Registry, ts: seq<Word>, i: nat) {
    exists t: Word :: t in ts && Resolves(reg, t, i)
  }

  /** Declared ordering; ids that resolve to nothing are ignored. */
  ghost predicate DeclaredEdge(reg: Registry, u: nat, v: nat) {
    && Alive(reg, u) && Alive(reg, v)
    && (ResolvesIn(reg, reg[v].runAfter, u) || ResolvesIn(reg, reg[u].runBefore, v))
  }

  ghost function Declared(reg: Registry): (g: Edges)
    ensures forall u: nat, v: nat :: (u, v) in g <==> DeclaredEdge(reg, u, v)
  {
    set u: nat, v: nat | u < |reg| && v < |reg| && DeclaredEdge(reg, u, v) :: (u, v)
  }

  ghost predicate AliveEdges(reg: Registry, g: Edges) {
    forall u: nat, v: nat :: (u, v) in g ==> Alive(reg, u) && Alive(reg, v)
  }

  // ----- conflicts and their orientation -----

  ghost predicate ConflictPair(reg: Registry, c: Pair) {
    c.0 < c.1 && Alive(reg, c.0) && Alive(reg, c.1) && NeedsOrder(reg[c.0], reg[c.1])
  }

  function PairKey(reg: Registry, c: Pair): Key {
    if c.0 < |reg| && c.1 < |reg| then
      var a, b := reg[c.0].typeId, reg[c.1].typeId;
      if a <= b then (a, b) else (b, a)
    else (0, 0)
  }

  /** cs lists every conflict pair once, in ascending order of the two type ids. */
  ghost predicate SortedConflicts(reg: Registry, cs: seq<Pair>) {
    && AllDifferent(cs)
    && (forall c :: c in cs <==> ConflictPair(reg, c))
    && SortedBy(cs, (c: Pair) => PairKey(reg, c))
  }

  function Lower(reg: Registry, c: Pair): Word
    requires c.0 < |reg| && c.1 < |reg|
  {
    if reg[c.1].typeId < reg[c.0].typeId then reg[c.1].typeId else reg[c.0].typeId
  }

  function Higher(reg: Registry, c: Pair): Word
    requires c.0 < |reg| && c.1 < |reg|
  {
    if reg[c.0].typeId < reg[c.1].typeId then reg[c.1].typeId else reg[c.0].typeId
  }

  /** The pairs come by their lower type id, and at equal ones by their higher. */
  ghost predicate InIdOrder(reg: Registry, cs: seq<Pair>) {
    (forall k :: 0 <= k < |cs| ==> cs[k].0 < |reg| && cs[k].1 < |reg|)
    && forall j, k :: 0 <= j < k < |cs| ==>
      Lower(reg, cs[j]) < Lower(reg, cs[k])
      || (Lower(reg, cs[j]) == Lower(reg, cs[k]) && Higher(reg, cs[j]) <= Higher(reg, cs[k]))
  }

  lemma ConflictsInIdOrder(reg: Registry, cs: seq<Pair>)
    requires SortedConflicts(reg, cs)
    ensures InIdOrder(reg, cs)
  {
    forall k | 0 <= k < |cs| ensures cs[k].0 < |reg| && cs[k].1 < |reg| {
      assert cs[k] in cs;
    }
    forall j, k | 0 <= j < k < |cs|
      ensures Lower(reg, cs[j]) < Lower(reg, cs[k])
              || (Lower(reg, cs[j]) == Lower(reg, cs[k]) && Higher(reg, cs[j]) <= Higher(reg, cs[k]))
    {
      assert KeyLe(PairKey(reg, cs[j]), PairKey(reg, cs[k]));
    }
  }

  ghost function Depth(g: Edges, v: nat): nat {
    if exists d: nat :: LongestInto(g, v, d) then
      var d: nat :| LongestInto(g, v, d); d
    else 0
  }

  lemma DepthIs(g: Edges, v: nat, d: nat)
    requires LongestInto(g, v, d)
    ensures Depth(g, v) == d
  {
    LongestIntoUnique(g, v, d, Depth(g, v));
  }

  /** The increase of the target's depth that an edge between these depths would cause. */
  function Cost(from: nat, to: nat): nat {
    if from + 1 > to then from + 1 - to else 0
  }

  /** The first of the pair runs first: cheaper direction, then lower type id, then first. */
  predicate KeepsOrder(du: nat, dv: nat, idU: nat, idV: nat) {
    if Cost(dv, du) < Cost(du, dv) then false
    else if Cost(du, dv) == Cost(dv, du) then idU <= idV
    else true
  }

  ghost function ChosenEdge(reg: Registry, g: Edges, c: Pair): Pair
    requires c.0 < |reg| && c.1 < |reg|
  {
    if KeepsOrder(Depth(g, c.0), Depth(g, c.1), reg[c.0].typeId, reg[c.1].typeId) then c else (c.1, c.0)
  }

  ghost function Orient(reg: Registry, g: Edges, c: Pair): Edges {
    if c.0 < |reg| && c.1 < |reg| && !Reach(g, c.0, c.1) && !Reach(g, c.1, c.0) then
      g + {ChosenEdge(reg, g, c)}
    else g
  }

  ghost function OrientAll(reg: Registry, g: Edges, cs: seq<Pair>): Edges {
    if cs == [] then g else Orient(reg, OrientAll(reg, g, cs[..|cs| - 1]), cs[|cs| - 1])
  }

  lemma OrientSound(reg: Registry, g: Edges, c: Pair)
    requires Acyclic(g) && c.0 < |reg| && c.1 < |reg|
    ensures var h := Orient(reg, g, c);
            g <= h && Acyclic(h) && (Reach(h, c.0, c.1) || Reach(h, c.1, c.0))
  {
    var h := Orient(reg, g, c);
    if !Reach(g, c.0, c.1) && !Reach(g, c.1, c.0) {
      var e := ChosenEdge(reg, g, c);
      AddEdgeAcyclic(g, e.0, e.1);
      EdgePath(h, e.0, e.1);
    }
  }

  /** Orienting conflicts one by one never creates a cycle, keeps every earlier edge, and
      leaves a path one way or the other between each conflicting pair. */
  lemma {:induction false} OrientAllSound(reg: Registry, g: Edges, cs: seq<Pair>)
    requires Acyclic(g) && forall c :: c in cs ==> c.0 < |reg| && c.1 < |reg|
    ensures var h := OrientAll(reg, g, cs);
            && g <= h && Acyclic(h)
            && forall c :: c in cs ==> Reach(h, c.0, c.1) || Reach(h, c.1, c.0)
  {
    if cs != [] {
      var front, last := cs[..|cs| - 1], cs[|cs| - 1];
      assert cs == front + [last];
      OrientAllSound(reg, g, front);
      var m, h := OrientAll(reg, g, front), OrientAll(reg, g, cs);
      OrientSound(reg, m, last);
      forall c | c in front ensures Reach(h, c.0, c.1) || Reach(h, c.1, c.0) {
        if Reach(m, c.0, c.1) {
          ReachMono(m, h, c.0, c.1);
        } else {
          ReachMono(m, h, c.1, c.0);
        }
      }
    }
  }

  // ----- which direction is chosen -----

  /** Adding the edge makes the longest path into its target longer by x. */
  ghost predicate Grows(g: Edges, e: Pair, x: nat) {
    exists d: nat :: LongestInto(g, e.1, d) && LongestInto(g + {e}, e.1, d + x)
  }

  /** Of the two directions of c, e lengthens the longest path into its target no more than the
      other one, back, does; of equal ones it is the one from the lower type id, and with equal ids c. */
  ghost predicate Cheaper(reg: Registry, g: Edges, c: Pair, e: Pair, back: Pair) {
    && e.0 < |reg| && e.1 < |reg|
    && exists x: nat, y: nat ::
      && Grows(g, e, x) && Grows(g, back, y) && x <= y
      && (x == y ==> reg[e.0].typeId <= reg[e.1].typeId && (reg[e.0].typeId == reg[e.1].typeId ==> e == c))
  }

  /** h is g with the pair oriented: nothing is added if a path joins the two, and the cheaper of
      the two edges otherwise. */
  ghost predicate Oriented(reg: Registry, g: Edges, c: Pair, h: Edges) {
    if Reach(g, c.0, c.1) || Reach(g, c.1, c.0) then h == g
    else
      || (h == g + {c} && Cheaper(reg, g, c, c, (c.1, c.0)))
      || (h == g + {(c.1, c.0)} && Cheaper(reg, g, c, (c.1, c.0), c))
  }

  lemma GrowsByCost(g: Edges, e: Pair, from: nat, to: nat)
    requires Acyclic(g) && !Reach(g, e.1, e.0) && LongestInto(g, e.0, from) && LongestInto(g, e.1, to)
    ensures Grows(g, e, Cost(from, to))
  {
    LongestWithEdge(g, e.0, e.1, from, to);
    assert g + {(e.0, e.1)} == g + {e};
  }

  lemma GrowsUnique(g: Edges, e: Pair, x: nat, y: nat)
    requires Grows(g, e, x) && Grows(g, e, y)
    ensures x == y
  {
    var d: nat :| LongestInto(g, e.1, d) && LongestInto(g + {e}, e.1, d + x);
    var f: nat :| LongestInto(g, e.1, f) && LongestInto(g + {e}, e.1, f + y);
    LongestIntoUnique(g, e.1, d, f);
    LongestIntoUnique(g + {e}, e.1, d + x, f + y);
  }

  /** Orienting a pair adds the cheaper edge. */
  lemma OrientChooses(reg: Registry, g: Edges, c: Pair)
    requires Acyclic(g) && c.0 < |reg| && c.1 < |reg|
    ensures Oriented(reg, g, c, Orient(reg, g, c))
  {
    if !Reach(g, c.0, c.1) && !Reach(g, c.1, c.0) {
      var du := LongestExists(g, c.0);
      var dv := LongestExists(g, c.1);
      DepthIs(g, c.0, du);
      DepthIs(g, c.1, dv);
      GrowsByCost(g, c, du, dv);
      GrowsByCost(g, (c.1, c.0), dv, du);
      assert ChosenEdge(reg, g, c) == c || ChosenEdge(reg, g, c) == (c.1, c.0);
    }
  }

  /** There is only one such orientation. */
  lemma OrientedUnique(reg: Registry, g: Edges, c: Pair, h: Edges, k: Edges)
    requires Oriented(reg, g, c, h) && Oriented(reg, g, c, k)
    ensures h == k
  {
    var back := (c.1, c.0);
    if !Reach(g, c.0, c.1) && !Reach(g, c.1, c.0) && Cheaper(reg, g, c, c, back) && Cheaper(reg, g, c, back, c) {
      BothCheaper(reg, g, c);
    }
  }

  lemma BothCheaper(reg: Registry, g: Edges, c: Pair)
    requires Cheaper(reg, g, c, c, (c.1, c.0)) && Cheaper(reg, g, c, (c.1, c.0), c)
    ensures (c.1, c.0) == c
  {
    var back := (c.1, c.0);
    var x: nat, y: nat :| Grows(g, c, x) && Grows(g, back, y) && x <= y
      && (x == y ==> reg[c.0].typeId <= reg[c.1].typeId);
    var m: nat, n: nat :| Grows(g, back, m) && Grows(g, c, n) && m <= n
      && (m == n ==> reg[back.0].typeId <= reg[back.1].typeId
                     && (reg[back.0].typeId == reg[back.1].typeId ==> back == c));
    GrowsUnique(g, c, x, n);
    GrowsUnique(g, back, y, m);
  }

  /** The graphs from before the first pair to after the last one, each pair oriented in turn. */
  ghost predicate OrientedInTurn(reg: Registry, gs: seq<Edges>, cs: seq<Pair>) {
    |gs| == |cs| + 1 && forall k: nat :: k < |cs| ==> Oriented(reg, gs[k], cs[k], gs[k + 1])
  }

  lemma {:induction false} OrientAllInTurn(reg: Registry, g: Edges, cs: seq<Pair>) returns (gs: seq<Edges>)
    requires Acyclic(g) && forall c :: c in cs ==> c.0 < |reg| && c.1 < |reg|
    ensures OrientedInTurn(reg, gs, cs) && gs[0] == g && gs[|cs|] == OrientAll(reg, g, cs)
  {
    if cs == [] {
      gs := [g];
    } else {
      var n := |cs| - 1;
      var front := cs[..n];
      assert cs == front + [cs[n]];
      var before := OrientAllInTurn(reg, g, front);
      OrientAllSound(reg, g, front);
      OrientChooses(reg, OrientAll(reg, g, front), cs[n]);
      gs := before + [OrientAll(reg, g, cs)];
      forall k: nat | k < |cs| ensures Oriented(reg, gs[k], cs[k], gs[k + 1]) {
        if k < n {
          assert Oriented(reg, before[k], front[k], before[k + 1]);
        }
      }
    }
  }

  lemma {:induction false} OrientAllAliveEdges(reg: Registry, g: Edges, cs: seq<Pair>)
    requires AliveEdges(reg, g) && forall c :: c in cs ==> Alive(reg, c.0) && Alive(reg, c.1)
    ensures AliveEdges(reg, OrientAll(reg, g, cs))
  {
    if cs != [] {
      var front, last := cs[..|cs| - 1], cs[|cs| - 1];
      assert cs == front + [last];
      OrientAllAliveEdges(reg, g, front);
    }
  }

  // ----- stages -----

  ghost predicate AscendingIds(reg: Registry, s: seq<nat>) {
    && (forall k :: 0 <= k < |s| ==> s[k] < |reg|)
    && (forall j, k :: 0 <= j < k < |s| ==> reg[s[j]].typeId <= reg[s[k]].typeId)
  }

  ghost predicate Placed(stages: seq<seq<nat>>, i: nat) {
    exists s: nat :: s < |stages| && i in stages[s]
  }

  /** Stage s holds exactly the alive systems whose longest incoming path has length s, in
      ascending type id; no stage is empty and every alive system is placed. */
  ghost predicate StageLayout(reg: Registry, g: Edges, stages: seq<seq<nat>>) {
    && (forall s: nat :: s < |stages| ==> stages[s] != [] && Distinct(stages[s]) && AscendingIds(reg, stages[s]))
    && (forall s: nat, i: nat :: s < |stages| ==> (i in stages[s] <==> Alive(reg, i) && LongestInto(g, i, s)))
    && (forall i: nat :: Alive(reg, i) ==> Placed(stages, i))
  }

  ghost function FinalGraph(reg: Registry, cs: seq<Pair>): Edges {
    OrientAll(reg, Declared(reg), cs)
  }

  ghost predicate IsSchedule(reg: Registry, cs: seq<Pair>, stages: seq<seq<nat>>) {
    Acyclic(Declared(reg)) && SortedConflicts(reg, cs) && StageLayout(reg, FinalGraph(reg, cs), stages)
  }

  /** The stages are the longest-path layers of the declared graph after every conflict pair, in
      turn, has been oriented in the cheaper direction. */
  ghost predicate LaidOutInTurn(reg: Registry, gs: seq<Edges>, cs: seq<Pair>, stages: seq<seq<nat>>) {
    OrientedInTurn(reg, gs, cs) && gs[0] == Declared(reg) && StageLayout(reg, gs[|cs|], stages)
  }

  /** This is what every schedule is. */
  lemma ScheduleInTurn(reg: Registry, cs: seq<Pair>, stages: seq<seq<nat>>) returns (gs: seq<Edges>)
    requires IsSchedule(reg, cs, stages)
    ensures LaidOutInTurn(reg, gs, cs, stages)
  {
    gs := OrientAllInTurn(reg, Declared(reg), cs);
  }

  lemma {:induction false} InTurnUnique(reg: Registry, gs: seq<Edges>, hs: seq<Edges>, cs: seq<Pair>, k: nat)
    requires OrientedInTurn(reg, gs, cs) && OrientedInTurn(reg, hs, cs) && gs[0] == hs[0] && k <= |cs|
    ensures gs[k] == hs[k]
  {
    if k > 0 {
      var m := k - 1;
      InTurnUnique(reg, gs, hs, cs, m);
      assert Oriented(reg, gs[m], cs[m], gs[m + 1]) && Oriented(reg, hs[m], cs[m], hs[m + 1]);
      OrientedUnique(reg, gs[m], cs[m], gs[k], hs[k]);
    }
  }

  /** And nothing else is one: the pairs and the cheaper directions determine the stages' members. */
  lemma InTurnIsSchedule(reg: Registry, gs: seq<Edges>, cs: seq<Pair>, stages: seq<seq<nat>>)
    requires Acyclic(Declared(reg)) && SortedConflicts(reg, cs)
    ensures LaidOutInTurn(reg, gs, cs, stages) ==> IsSchedule(reg, cs, stages)
  {
    if LaidOutInTurn(reg, gs, cs, stages) {
      var hs := OrientAllInTurn(reg, Declared(reg), cs);
      InTurnUnique(reg, gs, hs, cs, |cs|);
    }
  }

  lemma FinalGraphSound(reg: Registry, cs: seq<Pair>)
    requires Acyclic(Declared(reg)) && SortedConflicts(reg, cs)
    ensures var g := FinalGraph(reg, cs);
            && Declared(reg) <= g && Acyclic(g) && AliveEdges(reg, g)
            && forall c :: ConflictPair(reg, c) ==> Reach(g, c.0, c.1) || Reach(g, c.1, c.0)
  {
    OrientAllSound(reg, Declared(reg), cs);
    OrientAllAliveEdges(reg, Declared(reg), cs);
  }

  /** Every alive system is in exactly one stage. */
  lemma ExactlyOneStage(reg: Registry, cs: seq<Pair>, stages: seq<seq<nat>>, i: nat)
    requires IsSchedule(reg, cs, stages)
    ensures Alive(reg, i) <==> exists s: nat :: s < |stages| && i in stages[s]
    ensures forall s: nat, t: nat :: s < |stages| && t < |stages| && i in stages[s] && i in stages[t] ==> s == t
  {
    if Alive(reg, i) {
      assert Placed(stages, i);
    }
    forall s: nat, t: nat | s < |stages| && t < |stages| && i in stages[s] && i in stages[t] ensures s == t {
      LongestIntoUnique(FinalGraph(reg, cs), i, s, t);
    }
  }

  /** Declared order is respected: the predecessor runs in a strictly earlier stage. */
  lemma DeclaredOrderRespected(reg: Registry, cs: seq<Pair>, stages: seq<seq<nat>>, s: nat, t: nat, u: nat, v: nat)
    requires IsSchedule(reg, cs, stages) && s < |stages| && t < |stages| && u in stages[s] && v in stages[t]
    requires DeclaredEdge(reg, u, v)
    ensures s < t
  {
    var g := FinalGraph(reg, cs);
    FinalGraphSound(reg, cs);
    EdgePath(g, u, v);
    NoBackPath(g, u, v);
    SelfReach(g, u);
    ReachClimbs(g, u, v, s, t);
  }

  /** A system that names another one in run_after runs in a later stage than it, and one named in
      run_before likewise; the name means the first alive system with that type id. */
  lemma NamedOrderRespected(reg: Registry, cs: seq<Pair>, stages: seq<seq<nat>>, s: nat, t: nat, u: nat, v: nat)
    requires IsSchedule(reg, cs, stages) && s < |stages| && t < |stages| && u in stages[s] && v in stages[t]
    requires u < |reg| && v < |reg|
    requires || (reg[u].typeId in reg[v].runAfter
                 && forall j: nat :: j < u && reg[j].alive ==> reg[j].typeId != reg[u].typeId)
             || (reg[v].typeId in reg[u].runBefore
                 && forall j: nat :: j < v && reg[j].alive ==> reg[j].typeId != reg[v].typeId)
    ensures s < t
  {
    ExactlyOneStage(reg, cs, stages, u);
    ExactlyOneStage(reg, cs, stages, v);
    assert Alive(reg, u) && Alive(reg, v);
    if reg[u].typeId in reg[v].runAfter && forall j: nat :: j < u && reg[j].alive ==> reg[j].typeId != reg[u].typeId {
      assert Resolves(reg, reg[u].typeId, u);
    } else {
      assert Resolves(reg, reg[v].typeId, v);
    }
    DeclaredOrderRespected(reg, cs, stages, s, t, u, v);
  }

  /** Two distinct systems of one stage never need an order between them. */
  lemma StageConflictFree(reg: Registry, cs: seq<Pair>, stages: seq<seq<nat>>, s: nat, u: nat, v: nat)
    requires IsSchedule(reg, cs, stages) && s < |stages| && u in stages[s] && v in stages[s] && u != v
    ensures !NeedsOrder(reg[u], reg[v])
  {
    var g := FinalGraph(reg, cs);
    FinalGraphSound(reg, cs);
    var a, b := if u < v then u else v, if u < v then v else u;
    NeedsOrderSymmetric(reg[u], reg[v]);
    if NeedsOrder(reg[u], reg[v]) {
      assert ConflictPair(reg, (a, b));
      if Reach(g, a, b) {
        ReachClimbs(g, a, b, s, s);
      } else {
        ReachClimbs(g, b, a, s, s);
      }
    }
  }

  /** Race freedom: two distinct systems of one stage never touch one cell with a write,
      whatever archetypes exist. */
  lemma StageRaceFree(reg: Registry, cs: seq<Pair>, stages: seq<seq<nat>>, s: nat, u: nat, v: nat,
                      du: SystemDecl, dv: SystemDecl, sig: set<nat>, c: nat)
    requires IsSchedule(reg, cs, stages) && s < |stages| && u in stages[s] && v in stages[s] && u != v
    requires RegistrationOf(du, reg[u]) && RegistrationOf(dv, reg[v])
    ensures !RaceOn(du, dv, sig, c)
  {
    StageConflictFree(reg, cs, stages, s, u, v);
    UnorderedNeverRaces(du, reg[u], dv, reg[v], sig, c);
  }

  // ----- the schedule hash -----

  function IdAt(reg: Registry, i: nat): Word {
    if i < |reg| then reg[i].typeId else 0
  }

  function StageIds(reg: Registry, stage: seq<nat>): (ids: seq<Word>)
    ensures |ids| == |stage| && forall k :: 0 <= k < |stage| ==> ids[k] == IdAt(reg, stage[k])
  {
    seq(|stage|, k requires 0 <= k < |stage| => IdAt(reg, stage[k]))
  }

  function ScheduleIds(reg: Registry, stages: seq<seq<nat>>): (ids: seq<seq<Word>>)
    ensures |ids| == |stages|
    ensures forall s :: 0 <= s < |stages| ==> ids[s] == StageIds(reg, stages[s])
  {
    seq(|stages|, s requires 0 <= s < |stages| => StageIds(reg, stages[s]))
  }

  /** FNV over the stage index followed by the stage's type ids, stage after stage. */
  function HashOfIds(ids: seq<seq<Word>>): Word {
    if ids == [] then CHECKSUM_SEED
    else
      var s := |ids| - 1;
      FoldAll(ids[s], FoldU64(s % TWO_64, HashOfIds(ids[..s])))
  }
}
