/** Finite directed graphs given by their edge set: paths, reachability, cycles and the
    length of the longest path into a node.  Everything the scheduler promises about its
    DAG is stated in these terms, without reference to the algorithms that compute it. */
module Digraph {

  type Edges = set<(nat, nat)>

  ghost predicate Distinct(s: seq<nat>) {
    forall i, j :: 0 <= i < j < |s| ==> s[i] != s[j]
  }

  ghost predicate Link(g: Edges, p: seq<nat>, i: nat)
    requires i + 1 < |p|
  {
    (p[i], p[i + 1]) in g
  }

  /** A nonempty walk along edges of g; a single node is a path of length 0. */
  ghost predicate IsPath(g: Edges, p: seq<nat>) {
    |p| >= 1 && forall i {:trigger Link(g, p, i)} :: 0 <= i && i + 1 < |p| ==> Link(g, p, i)
  }

  ghost predicate PathFromTo(g: Edges, p: seq<nat>, u: nat, v: nat) {
    IsPath(g, p) && p[0] == u && p[|p| - 1] == v
  }

  ghost predicate Reach(g: Edges, u: nat, v: nat) {
    exists p :: PathFromTo(g, p, u, v)
  }

  /** No path of at least one edge returns to its start. */
  ghost predicate Acyclic(g: Edges) {
    forall p :: IsPath(g, p) && |p| >= 2 ==> p[0] != p[|p| - 1]
  }

  ghost predicate EndsAt(g: Edges, p: seq<nat>, v: nat) {
    IsPath(g, p) && p[|p| - 1] == v
  }

  /** The longest path into v has exactly d edges. */
  ghost predicate LongestInto(g: Edges, v: nat, d: nat) {
    && (exists p :: EndsAt(g, p, v) && |p| == d + 1)
    && (forall p :: EndsAt(g, p, v) ==> |p| <= d + 1)
  }

  lemma LongestIntoUnique(g: Edges, v: nat, d: nat, e: nat)
    requires LongestInto(g, v, d) && LongestInto(g, v, e)
    ensures d == e
  {
    var p :| EndsAt(g, p, v) && |p| == d + 1;
    var q :| EndsAt(g, q, v) && |q| == e + 1;
  }

  // ----- building paths -----

  lemma SelfReach(g: Edges, u: nat)
    ensures Reach(g, u, u)
  {
    assert PathFromTo(g, [u], u, u);
  }

  lemma SubPath(g: Edges, p: seq<nat>, i: nat, j: nat)
    requires IsPath(g, p) && i < j <= |p|
    ensures IsPath(g, p[i..j])
  {
    var q := p[i..j];
    forall k: nat | k + 1 < |q| ensures Link(g, q, k) {
      assert Link(g, p, i + k);
    }
  }

  lemma Tail(g: Edges, p: seq<nat>)
    requires IsPath(g, p) && |p| > 1
    ensures IsPath(g, p[1..]) && p[1..][|p| - 2] == p[|p| - 1]
  {
    SubPath(g, p, 1, |p|);
    assert p[1..|p|] == p[1..];
  }

  lemma Join(g: Edges, p: seq<nat>, q: seq<nat>)
    requires IsPath(g, p) && IsPath(g, q) && p[|p| - 1] == q[0]
    ensures IsPath(g, p + q[1..])
  {
    var r := p + q[1..];
    forall k: nat | k + 1 < |r| ensures Link(g, r, k) {
      if k + 1 < |p| {
        assert Link(g, p, k);
      } else {
        assert Link(g, q, k + 1 - |p|);
      }
    }
  }

  lemma ReachTrans(g: Edges, u: nat, v: nat, w: nat)
    requires Reach(g, u, v) && Reach(g, v, w)
    ensures Reach(g, u, w)
  {
    var p :| PathFromTo(g, p, u, v);
    var q :| PathFromTo(g, q, v, w);
    Join(g, p, q);
    assert PathFromTo(g, p + q[1..], u, w);
  }

  lemma EdgePath(g: Edges, u: nat, v: nat)
    requires (u, v) in g
    ensures IsPath(g, [u, v]) && Reach(g, u, v)
  {
    assert Link(g, [u, v], 0);
    assert PathFromTo(g, [u, v], u, v);
  }

  lemma ReachMono(g: Edges, h: Edges, u: nat, v: nat)
    requires g <= h && Reach(g, u, v)
    ensures Reach(h, u, v)
  {
    var p :| PathFromTo(g, p, u, v);
    forall i: nat | i + 1 < |p| ensures Link(h, p, i) {
      assert Link(g, p, i);
    }
    assert PathFromTo(h, p, u, v);
  }

  /** An edge of an acyclic graph is never closed by a path back. */
  lemma NoBackPath(g: Edges, u: nat, v: nat)
    requires Acyclic(g) && (u, v) in g
    ensures !Reach(g, v, u)
  {
    if Reach(g, v, u) {
      var p :| PathFromTo(g, p, v, u);
      EdgePath(g, u, v);
      Join(g, [u, v], p);
    }
  }

  // ----- sets closed under successors -----

  lemma ClosedSet(g: Edges, s: set<nat>, u: nat, v: nat)
    requires u in s && Reach(g, u, v)
    requires forall a, b :: (a, b) in g && a in s ==> b in s
    ensures v in s
  {
    var p :| PathFromTo(g, p, u, v);
    var i := 0;
    while i + 1 < |p|
      invariant 0 <= i < |p| && p[i] in s
    {
      assert Link(g, p, i);
      i := i + 1;
    }
  }

  // ----- cycles -----

  ghost predicate HasPredecessorIn(g: Edges, u: set<nat>, v: nat) {
    exists w :: w in u && (w, v) in g
  }

  /** Walking backwards inside u for k steps. */
  lemma BackwardWalk(g: Edges, u: set<nat>, k: nat) returns (p: seq<nat>)
    requires u != {}
    requires forall v :: v in u ==> HasPredecessorIn(g, u, v)
    ensures IsPath(g, p) && |p| == k + 1 && forall i :: 0 <= i < |p| ==> p[i] in u
  {
    if k == 0 {
      var v :| v in u;
      p := [v];
    } else {
      var q := BackwardWalk(g, u, k - 1);
      assert HasPredecessorIn(g, u, q[0]);
      var w :| w in u && (w, q[0]) in g;
      EdgePath(g, w, q[0]);
      Join(g, [w, q[0]], q);
      p := [w, q[0]] + q[1..];
    }
  }

  ghost function Elements(p: seq<nat>): (s: set<nat>)
    ensures forall x :: x in s <==> x in p
    ensures |s| <= |p|
  {
    if p == [] then {} else Elements(p[..|p| - 1]) + {p[|p| - 1]}
  }

  lemma DistinctSnoc(s: seq<nat>, x: nat)
    ensures Distinct(s + [x]) <==> Distinct(s) && x !in s
  {
    var t := s + [x];
    if Distinct(t) {
      forall i, j | 0 <= i < j < |s| ensures s[i] != s[j] {
        assert t[i] != t[j];
      }
      forall i | 0 <= i < |s| ensures s[i] != x {
        assert t[i] != t[|s|];
      }
    }
  }

  lemma ElementsSnoc(p: seq<nat>, front: seq<nat>, last: nat)
    requires p == front + [last]
    ensures |Elements(p)| == |Elements(front)| + if last in front then 0 else 1
  {
    assert p[..|p| - 1] == front;
    if last in front {
      assert Elements(front) + {last} == Elements(front);
    }
  }

  /** A list has as many members as entries exactly when it has no repeats. */
  lemma {:induction false} DistinctElements(p: seq<nat>)
    ensures |Elements(p)| == |p| <==> Distinct(p)
  {
    if p != [] {
      var front, last := p[..|p| - 1], p[|p| - 1];
      assert p == front + [last];
      DistinctElements(front);
      DistinctSnoc(front, last);
      ElementsSnoc(p, front, last);
    }
  }

  lemma AcyclicDistinct(g: Edges, p: seq<nat>)
    requires Acyclic(g) && IsPath(g, p)
    ensures Distinct(p)
  {
    forall i, j | 0 <= i < j < |p| ensures p[i] != p[j] {
      SubPath(g, p, i, j + 1);
      var c := p[i..j + 1];
      assert c[0] == p[i] && c[|c| - 1] == p[j];
    }
  }

  /** A nonempty node set in which everybody has a predecessor contains a cycle. */
  lemma EveryNodeHasPredecessor(g: Edges, u: set<nat>)
    requires u != {}
    requires forall v :: v in u ==> HasPredecessorIn(g, u, v)
    ensures !Acyclic(g)
  {
    var p := BackwardWalk(g, u, |u|);
    if Acyclic(g) {
      AcyclicDistinct(g, p);
      DistinctElements(p);
      assert Elements(p) <= u;
      Subset(Elements(p), u);
    }
  }

  lemma Subset(a: set<nat>, b: set<nat>)
    requires a <= b
    ensures |a| <= |b|
  {
    assert b == a + (b - a);
  }

  // ----- adding one edge -----

  lemma {:induction false} PathThroughNewEdge(g: Edges, u: nat, v: nat, p: seq<nat>)
    requires IsPath(g + {(u, v)}, p)
    ensures Reach(g, p[0], p[|p| - 1]) || (Reach(g, p[0], u) && Reach(g, v, p[|p| - 1]))
    decreases |p|
  {
    var h := g + {(u, v)};
    var a, b := p[0], p[|p| - 1];
    if |p| == 1 {
      SelfReach(g, a);
    } else {
      Tail(h, p);
      PathThroughNewEdge(g, u, v, p[1..]);
      assert Link(h, p, 0);
      if (a, p[1]) in g {
        EdgePath(g, a, p[1]);
        if Reach(g, p[1], b) {
          ReachTrans(g, a, p[1], b);
        } else {
          ReachTrans(g, a, p[1], u);
        }
      } else {
        SelfReach(g, u);
      }
    }
  }

  /** An edge u -> v may be added to an acyclic graph as long as no path leads back from v to u. */
  lemma AddEdgeAcyclic(g: Edges, u: nat, v: nat)
    requires Acyclic(g) && !Reach(g, v, u)
    ensures Acyclic(g + {(u, v)})
  {
    var h := g + {(u, v)};
    forall p | IsPath(h, p) && |p| >= 2 ensures p[0] != p[|p| - 1] {
      if p[0] == p[|p| - 1] {
        var a := p[0];
        assert Link(h, p, 0);
        Tail(h, p);
        PathThroughNewEdge(g, u, v, p[1..]);
        if (a, p[1]) in g {
          NoBackPath(g, a, p[1]);
          EdgePath(g, a, p[1]);
          ReachTrans(g, v, a, p[1]);
          ReachTrans(g, v, p[1], u);
        }
      }
    }
  }

  // ----- longest paths -----

  ghost predicate Supported(g: Edges, depth: seq<nat>, v: nat) {
    v < |depth| && (depth[v] == 0 || exists u :: (u, v) in g && u < |depth| && depth[v] == depth[u] + 1)
  }

  /** The recurrence the depth array satisfies: every edge climbs, and every positive depth
      is one more than some predecessor's. */
  ghost predicate Layered(g: Edges, n: nat, depth: seq<nat>) {
    && |depth| == n
    && (forall u, v :: (u, v) in g ==> u < n && v < n && depth[u] < depth[v])
    && (forall v :: 0 <= v < n ==> Supported(g, depth, v))
  }

  lemma {:induction false} PathClimbs(g: Edges, n: nat, depth: seq<nat>, p: seq<nat>)
    requires Layered(g, n, depth) && IsPath(g, p) && p[|p| - 1] < n
    ensures p[0] < n && depth[p[0]] + |p| - 1 <= depth[p[|p| - 1]]
    decreases |p|
  {
    if |p| > 1 {
      Tail(g, p);
      PathClimbs(g, n, depth, p[1..]);
      assert Link(g, p, 0);
    }
  }

  lemma {:induction false} DeepestPath(g: Edges, n: nat, depth: seq<nat>, v: nat) returns (p: seq<nat>)
    requires Layered(g, n, depth) && v < n
    ensures EndsAt(g, p, v) && |p| == depth[v] + 1
    decreases depth[v]
  {
    if depth[v] == 0 {
      p := [v];
    } else {
      assert Supported(g, depth, v);
      var u :| (u, v) in g && u < n && depth[v] == depth[u] + 1;
      var q := DeepestPath(g, n, depth, u);
      EdgePath(g, u, v);
      Join(g, q, [u, v]);
      p := q + [u, v][1..];
    }
  }

  /** A solution of the recurrence is the longest-path function, and only acyclic graphs have one. */
  lemma LayeredIsLongest(g: Edges, n: nat, depth: seq<nat>)
    requires Layered(g, n, depth)
    ensures Acyclic(g)
    ensures forall v :: 0 <= v < n ==> LongestInto(g, v, depth[v])
  {
    forall p | IsPath(g, p) && |p| >= 2 ensures p[0] != p[|p| - 1] {
      assert Link(g, p, |p| - 2);
      PathClimbs(g, n, depth, p);
    }
    forall v | 0 <= v < n ensures LongestInto(g, v, depth[v]) {
      var p := DeepestPath(g, n, depth, v);
      forall q | EndsAt(g, q, v) ensures |q| <= depth[v] + 1 {
        PathClimbs(g, n, depth, q);
      }
    }
  }

  /** A positive longest path ends with an edge from a node exactly one layer up. */
  lemma PredecessorLayer(g: Edges, v: nat, d: nat) returns (u: nat)
    requires LongestInto(g, v, d) && d > 0
    ensures (u, v) in g && LongestInto(g, u, d - 1)
  {
    var p :| EndsAt(g, p, v) && |p| == d + 1;
    u := p[d - 1];
    assert Link(g, p, d - 1);
    SubPath(g, p, 0, d);
    assert EndsAt(g, p[0..d], u);
    forall q | EndsAt(g, q, u) ensures |q| <= d {
      EdgePath(g, u, v);
      Join(g, q, [u, v]);
      assert EndsAt(g, q + [u, v][1..], v);
    }
  }

  ghost function Nodes(g: Edges): (s: set<nat>)
    ensures forall u: nat, v: nat :: (u, v) in g ==> u in s && v in s
  {
    (set e | e in g :: e.0) + (set e | e in g :: e.1)
  }

  /** Paths of an acyclic graph are no longer than it has nodes. */
  lemma PathBounded(g: Edges, p: seq<nat>, v: nat)
    requires Acyclic(g) && EndsAt(g, p, v)
    ensures |p| <= |Nodes(g) + {v}|
  {
    AcyclicDistinct(g, p);
    DistinctElements(p);
    forall k | 0 <= k < |p| ensures p[k] in Nodes(g) + {v} {
      if k + 1 < |p| {
        assert Link(g, p, k);
      }
    }
    Subset(Elements(p), Nodes(g) + {v});
  }

  lemma {:induction false} LongestAmong(g: Edges, v: nat, bound: nat) returns (d: nat)
    requires forall p :: EndsAt(g, p, v) ==> |p| <= bound + 1
    ensures LongestInto(g, v, d)
    decreases bound
  {
    if exists p :: EndsAt(g, p, v) && |p| == bound + 1 {
      d := bound;
    } else {
      assert EndsAt(g, [v], v);
      d := LongestAmong(g, v, bound - 1);
    }
  }

  /** In an acyclic graph every node has a longest path into it. */
  lemma LongestExists(g: Edges, v: nat) returns (d: nat)
    requires Acyclic(g)
    ensures LongestInto(g, v, d)
  {
    forall p | EndsAt(g, p, v) ensures |p| <= |Nodes(g) + {v}| + 1 {
      PathBounded(g, p, v);
    }
    d := LongestAmong(g, v, |Nodes(g) + {v}|);
  }

  /** A path that ends at v can use an edge u -> v only as its last one. */
  lemma NewEdgeIsLast(g: Edges, u: nat, v: nat, p: seq<nat>)
    requires Acyclic(g + {(u, v)}) && EndsAt(g + {(u, v)}, p, v)
    ensures IsPath(g, p) || (|p| >= 2 && EndsAt(g, p[..|p| - 1], u))
  {
    var h, n := g + {(u, v)}, |p| - 1;
    AcyclicDistinct(h, p);
    if n > 0 {
      var front := p[..n];
      forall i: nat | i + 1 < |front| ensures Link(g, front, i) {
        assert Link(h, p, i);
        assert p[i + 1] != p[n];
      }
      assert Link(h, p, n - 1);
      if (p[n - 1], p[n]) in g {
        forall i: nat | i + 1 < |p| ensures Link(g, p, i) {
          if i + 1 < n {
            assert Link(g, front, i);
          }
        }
      }
    }
  }

  lemma MonoPath(g: Edges, h: Edges, p: seq<nat>)
    requires g <= h && IsPath(g, p)
    ensures IsPath(h, p)
  {
    forall i: nat | i + 1 < |p| ensures Link(h, p, i) {
      assert Link(g, p, i);
    }
  }

  /** Adding u -> v, with no path back, makes the longest path into v at least one longer than the
      one into u, and otherwise leaves it as it is. */
  lemma LongestWithEdge(g: Edges, u: nat, v: nat, du: nat, dv: nat)
    requires Acyclic(g) && !Reach(g, v, u) && LongestInto(g, u, du) && LongestInto(g, v, dv)
    ensures LongestInto(g + {(u, v)}, v, if du + 1 > dv then du + 1 else dv)
  {
    var h := g + {(u, v)};
    AddEdgeAcyclic(g, u, v);
    if du + 1 > dv {
      var p :| EndsAt(g, p, u) && |p| == du + 1;
      MonoPath(g, h, p);
      EdgePath(h, u, v);
      Join(h, p, [u, v]);
      assert EndsAt(h, p + [u, v][1..], v);
    } else {
      var p :| EndsAt(g, p, v) && |p| == dv + 1;
      MonoPath(g, h, p);
      assert EndsAt(h, p, v);
    }
    forall q | EndsAt(h, q, v) ensures |q| <= (if du + 1 > dv then du + 1 else dv) + 1 {
      NewEdgeIsLast(g, u, v, q);
      if IsPath(g, q) {
        assert EndsAt(g, q, v);
      } else {
        assert EndsAt(g, q[..|q| - 1], u);
      }
    }
  }

  /** A path between two distinct nodes leads to a strictly later layer. */
  lemma ReachClimbs(g: Edges, u: nat, v: nat, d: nat, e: nat)
    requires Reach(g, u, v) && u != v && LongestInto(g, u, d) && LongestInto(g, v, e)
    ensures d < e
  {
    var p :| PathFromTo(g, p, u, v);
    var q :| EndsAt(g, q, u) && |q| == d + 1;
    Join(g, q, p);
    assert EndsAt(g, q + p[1..], v);
  }

  lemma EdgeClimbs(g: Edges, u: nat, v: nat, d: nat, e: nat)
    requires (u, v) in g && LongestInto(g, u, d) && LongestInto(g, v, e)
    ensures d < e
  {
    var q :| EndsAt(g, q, u) && |q| == d + 1;
    EdgePath(g, u, v);
    Join(g, q, [u, v]);
    assert EndsAt(g, q + [u, v][1..], v);
  }
}
