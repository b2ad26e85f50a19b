/** The scheduler's adjacency-list DAG: edge insertion, depth-first path search and Kahn's
    depth computation, each proved against the graph theory of module Digraph. */
module Dag {
  import opened Digraph

  /** Predecessors of a node that are still to be processed. */
  ghost function Pending(preds: seq<nat>, done: set<nat>): set<nat> {
    set u | u in preds && u !in done
  }

  lemma PendingNone(preds: seq<nat>)
    requires Distinct(preds)
    ensures |Pending(preds, {})| == |preds|
  {
    DistinctElements(preds);
    assert Pending(preds, {}) == Elements(preds);
  }

  lemma PendingStep(preds: seq<nat>, done: set<nat>, u: nat)
    requires u !in done
    ensures |Pending(preds, done)| == |Pending(preds, done + {u})| + (if u in preds then 1 else 0)
  {
    if u in preds {
      assert Pending(preds, done) == Pending(preds, done + {u}) + {u};
    } else {
      assert Pending(preds, done) == Pending(preds, done + {u});
    }
  }

  lemma PendingEmpty(preds: seq<nat>, done: set<nat>, u: nat)
    requires |Pending(preds, done)| == 0 && u in preds
    ensures u in done
  {
    assert Pending(preds, done) == {};
    assert u !in Pending(preds, done);
  }

  lemma PendingSome(preds: seq<nat>, done: set<nat>) returns (u: nat)
    requires |Pending(preds, done)| != 0
    ensures u in preds && u !in done
  {
    u :| u in Pending(preds, done);
  }

  /** Depth v is justified by a predecessor whose own depth is final. */
  ghost predicate SupportedBy(g: Edges, depth: seq<nat>, done: set<nat>, v: nat) {
    v < |depth| && (depth[v] == 0 || exists u :: u in done && (u, v) in g && u < |depth| && depth[v] == depth[u] + 1)
  }

  /** Raising an unfinished node to one above a finished predecessor keeps every depth justified. */
  lemma RaiseSupported(g: Edges, depth: seq<nat>, done: set<nat>, u: nat, v: nat)
    requires forall x: nat :: x < |depth| ==> SupportedBy(g, depth, done, x)
    requires u < |depth| && v < |depth| && u in done && v !in done && (u, v) in g
    ensures var raised := depth[v := depth[u] + 1];
            forall x: nat :: x < |depth| ==> SupportedBy(g, raised, done, x)
  {
    var raised := depth[v := depth[u] + 1];
    forall x: nat | x < |depth| ensures SupportedBy(g, raised, done, x) {
      assert SupportedBy(g, depth, done, x);
    }
  }

  lemma SupportedMono(g: Edges, depth: seq<nat>, done: set<nat>, more: set<nat>)
    requires done <= more
    requires forall x: nat :: x < |depth| ==> SupportedBy(g, depth, done, x)
    ensures forall x: nat :: x < |depth| ==> SupportedBy(g, depth, more, x)
  {
    forall x: nat | x < |depth| ensures SupportedBy(g, depth, more, x) {
      assert SupportedBy(g, depth, done, x);
    }
  }

  /** The incoming adjacency lists are duplicate-free images of g. */
  ghost predicate Incoming(g: Edges, ins: seq<seq<nat>>) {
    && (forall u: nat, v: nat :: (u, v) in g ==> u < |ins| && v < |ins|)
    && (forall u: nat, v: nat :: v < |ins| ==> (u in ins[v] <==> (u, v) in g))
    && (forall v: nat :: v < |ins| ==> Distinct(ins[v]))
  }

  /** The node u has left the queue and its successors outside `rest` are relaxed. */
  ghost predicate Relaxing(g: Edges, ins: seq<seq<nat>>, done: set<nat>, u: nat, rest: seq<nat>,
                           q: seq<nat>, indeg: seq<nat>, depth: seq<nat>)
  {
    && |indeg| == |depth| == |ins| && Distinct(q)
    && (forall x: nat :: x in done || x in q <==> x < |ins| && indeg[x] == 0)
    && (forall x: nat :: x in q ==> x !in done)
    && (forall x: nat :: x < |ins| ==> indeg[x] == |Pending(ins[x], done)| + (if x in rest then 1 else 0))
    && (forall x: nat, y: nat :: (x, y) in g && x in done && (x == u ==> y !in rest) ==>
          x < |ins| && y < |ins| && depth[x] < depth[y])
    && (forall x: nat :: x < |ins| ==> SupportedBy(g, depth, done, x))
  }

  /** What Kahn's main loop maintains: the queue holds the unprocessed nodes without pending
      predecessors, and the depths of processed nodes are final. */
  ghost predicate Kahn(g: Edges, ins: seq<seq<nat>>, done: set<nat>, q: seq<nat>, indeg: seq<nat>, depth: seq<nat>) {
    Relaxing(g, ins, done, 0, [], q, indeg, depth)
  }

  lemma RelaxStart(g: Edges, ins: seq<seq<nat>>, done: set<nat>, u: nat, succs: seq<nat>,
                   q: seq<nat>, indeg: seq<nat>, depth: seq<nat>)
    requires Incoming(g, ins) && Kahn(g, ins, done, q, indeg, depth)
    requires q != [] && u == q[0]
    requires forall v: nat :: v in succs <==> (u, v) in g
    ensures u < |ins| && u !in done
    ensures forall x: nat :: (x, u) in g ==> x in done
    ensures Relaxing(g, ins, done + {u}, u, succs, q[1..], indeg, depth)
  {
    assert u in q && u !in done;
    var done' := done + {u};
    forall x: nat | x < |ins|
      ensures indeg[x] == |Pending(ins[x], done')| + (if x in succs then 1 else 0)
    {
      PendingStep(ins[x], done, u);
    }
    assert q == [u] + q[1..];
    assert u !in q[1..];
    assert forall x: nat :: x in q <==> x == u || x in q[1..];
    assert Distinct(q[1..]);
    SupportedMono(g, depth, done, done');
    forall x: nat | (x, u) in g ensures x in done {
      PendingEmpty(ins[u], done, x);
    }
  }

  lemma RelaxStep(g: Edges, ins: seq<seq<nat>>, done: set<nat>, u: nat, v: nat, rest: seq<nat>,
                  q: seq<nat>, indeg: seq<nat>, depth: seq<nat>)
    requires Incoming(g, ins) && Relaxing(g, ins, done, u, [v] + rest, q, indeg, depth)
    requires v !in rest && u in done && u < |ins| && (u, v) in g
    requires forall x: nat :: (x, u) in g ==> x in done && x != u
    ensures indeg[v] > 0
    ensures var depth' := if depth[u] + 1 > depth[v] then depth[v := depth[u] + 1] else depth;
            var indeg' := indeg[v := indeg[v] - 1];
            var q' := if indeg'[v] == 0 then q + [v] else q;
            Relaxing(g, ins, done, u, rest, q', indeg', depth')
  {
    assert v in [v] + rest;
    assert v !in done;
    if depth[u] + 1 > depth[v] {
      RaiseSupported(g, depth, done, u, v);
    }
    assert forall x: nat :: x != v ==> (x in [v] + rest <==> x in rest);
  }

  lemma SplitFirst(s: seq<nat>, i: nat)
    requires i < |s| && Distinct(s)
    ensures s[i..] == [s[i]] + s[i + 1..] && s[i] !in s[i + 1..]
  {
  }

  /** One successor of the node taken from the queue. */
  method RelaxOne(ghost g: Edges, ghost ins: seq<seq<nat>>, ghost done: set<nat>, u: nat, v: nat, ghost rest: seq<nat>,
                  q0: seq<nat>, indeg0: seq<nat>, depth0: seq<nat>)
    returns (q: seq<nat>, indeg: seq<nat>, depth: seq<nat>)
    requires Incoming(g, ins) && Relaxing(g, ins, done, u, [v] + rest, q0, indeg0, depth0)
    requires v !in rest && u in done && u < |ins| && (u, v) in g
    requires forall x: nat :: (x, u) in g ==> x in done && x != u
    ensures Relaxing(g, ins, done, u, rest, q, indeg, depth)
  {
    q, indeg, depth := q0, indeg0, depth0;
    RelaxStep(g, ins, done, u, v, rest, q, indeg, depth);
    var cand := depth[u] + 1;
    depth := if cand > depth[v] then depth[v := cand] else depth;
    indeg := indeg[v := indeg[v] - 1];
    q := if indeg[v] == 0 then q + [v] else q;
  }

  /** The inner loop over the successors of the node taken from the queue. */
  method RelaxAll(ghost g: Edges, ghost ins: seq<seq<nat>>, ghost done: set<nat>, u: nat, succs: seq<nat>,
                  q0: seq<nat>, indeg0: seq<nat>, depth0: seq<nat>)
    returns (q: seq<nat>, indeg: seq<nat>, depth: seq<nat>)
    requires Incoming(g, ins) && Relaxing(g, ins, done, u, succs, q0, indeg0, depth0)
    requires Distinct(succs) && u in done && u < |ins|
    requires forall v: nat :: v in succs ==> (u, v) in g
    requires forall x: nat :: (x, u) in g ==> x in done && x != u
    ensures Kahn(g, ins, done, q, indeg, depth)
  {
    q, indeg, depth := q0, indeg0, depth0;
    var i := 0;
    while i < |succs|
      invariant 0 <= i <= |succs|
      invariant Relaxing(g, ins, done, u, succs[i..], q, indeg, depth)
    {
      SplitFirst(succs, i);
      q, indeg, depth := RelaxOne(g, ins, done, u, succs[i], succs[i + 1..], q, indeg, depth);
      i := i + 1;
    }
    assert succs[i..] == [];
  }

  /** Takes the first node off the queue and relaxes its outgoing edges. */
  method ProcessNode(ghost g: Edges, ghost ins: seq<seq<nat>>, ghost done: set<nat>, succs: seq<nat>,
                     q0: seq<nat>, indeg0: seq<nat>, depth0: seq<nat>)
    returns (q: seq<nat>, indeg: seq<nat>, depth: seq<nat>)
    requires Incoming(g, ins) && Kahn(g, ins, done, q0, indeg0, depth0) && q0 != [] && q0[0] < |ins|
    requires Distinct(succs) && forall v: nat :: v in succs <==> (q0[0], v) in g
    ensures Kahn(g, ins, done + {q0[0]}, q, indeg, depth)
    ensures q0[0] !in done
  {
    var u := q0[0];
    assert u in q0;
    RelaxStart(g, ins, done, u, succs, q0, indeg0, depth0);
    q, indeg, depth := RelaxAll(g, ins, done + {u}, u, succs, q0[1..], indeg0, depth0);
  }

  /** Both adjacency lists describe g. */
  ghost predicate Adjacent(g: Edges, outs: seq<seq<nat>>, ins: seq<seq<nat>>) {
    && Incoming(g, ins) && |outs| == |ins|
    && (forall u: nat :: u < |outs| ==> Distinct(outs[u]))
    && (forall u: nat, v: nat :: u < |outs| ==> (v in outs[u] <==> (u, v) in g))
  }

  lemma KahnStart(g: Edges, ins: seq<seq<nat>>, q: seq<nat>, indeg: seq<nat>, depth: seq<nat>)
    requires Incoming(g, ins) && |indeg| == |depth| == |ins|
    requires forall x: nat :: x < |ins| ==> indeg[x] == |ins[x]| && depth[x] == 0
    requires Distinct(q) && forall x: nat :: x in q <==> x < |indeg| && indeg[x] == 0
    ensures Kahn(g, ins, {}, q, indeg, depth)
  {
    forall x: nat | x < |ins| ensures indeg[x] == |Pending(ins[x], {})| {
      PendingNone(ins[x]);
    }
  }

  method KahnRun(ghost g: Edges, outs: seq<seq<nat>>, ins: seq<seq<nat>>) returns (acyclic: bool, depth: seq<nat>)
    requires Adjacent(g, outs, ins)
    ensures |depth| == |ins| && (acyclic <==> Acyclic(g))
    ensures acyclic ==> forall v: nat :: v < |ins| ==> LongestInto(g, v, depth[v])
  {
    var n := |ins|;
    var indeg: seq<nat> := seq(n, x requires 0 <= x < |ins| => |ins[x]|);
    depth := seq(n, _ => 0);
    var q := Sources(indeg);
    var processed := 0;
    ghost var done: set<nat> := {};
    KahnStart(g, ins, q, indeg, depth);
    while q != []
      invariant Kahn(g, ins, done, q, indeg, depth) && |done| == processed && |depth| == n
      decreases NodesBelow(n) - done
    {
      var u := q[0];
      assert u in q;
      q, indeg, depth := ProcessNode(g, ins, done, outs[u], q, indeg, depth);
      processed := processed + 1;
      done := done + {u};
    }
    acyclic := processed == n;
    KahnVerdict(g, ins, done, indeg, depth);
  }

  /** The nodes without incoming edges. */
  method Sources(indeg: seq<nat>) returns (q: seq<nat>)
    ensures Distinct(q) && forall x: nat :: x in q <==> x < |indeg| && indeg[x] == 0
  {
    q := [];
    var v := 0;
    while v < |indeg|
      invariant 0 <= v <= |indeg|
      invariant Distinct(q)
      invariant forall x: nat :: x in q <==> x < v && indeg[x] == 0
    {
      if indeg[v] == 0 {
        q := q + [v];
      }
      v := v + 1;
    }
  }

  /** With an empty queue, all nodes are processed exactly when the graph has no cycle, and the
      depths are then the longest incoming paths. */
  lemma KahnVerdict(g: Edges, ins: seq<seq<nat>>, done: set<nat>, indeg: seq<nat>, depth: seq<nat>)
    requires Incoming(g, ins) && Kahn(g, ins, done, [], indeg, depth)
    ensures |done| == |ins| <==> Acyclic(g)
    ensures |done| == |ins| ==> forall v: nat :: v < |ins| ==> LongestInto(g, v, depth[v])
  {
    var all := NodesBelow(|ins|);
    assert done <= all;
    if |done| == |ins| {
      SubsetEq(done, all);
      forall x: nat | x < |ins| ensures Supported(g, depth, x) {
        assert SupportedBy(g, depth, done, x);
      }
      LayeredIsLongest(g, |ins|, depth);
    } else {
      var rest := all - done;
      assert all == done + rest;
      forall x | x in rest ensures HasPredecessorIn(g, rest, x) {
        var w := PendingSome(ins[x], done);
        assert w in rest && (w, x) in g;
      }
      EveryNodeHasPredecessor(g, rest);
    }
  }

  ghost function NodesBelow(n: nat): (s: set<nat>)
    ensures forall x: nat :: x in s <==> x < n
    ensures |s| == n
  {
    if n == 0 then {} else NodesBelow(n - 1) + {n - 1}
  }

  class DAG {
    var n: nat
    var outEdges: seq<seq<nat>>
    var inEdges: seq<seq<nat>>
    var depth: seq<nat>
    ghost var edges: Edges

    /** Both adjacency lists are duplicate-free images of the same edge set. */
    ghost predicate Valid()
      reads this
    {
      && |outEdges| == |inEdges| == |depth| == n
      && Incoming(edges, inEdges)
      && (forall u: nat :: u < n ==> Distinct(outEdges[u]))
      && (forall u: nat, v: nat :: u < n ==> (v in outEdges[u] <==> (u, v) in edges))
    }

    constructor (count: nat)
      ensures Valid() && n == count && edges == {}
      ensures depth == seq(count, _ => 0)
    {
      n := count;
      outEdges := seq(count, _ => []);
      inEdges := seq(count, _ => []);
      depth := seq(count, _ => 0);
      edges := {};
    }

    method AddEdge(u: nat, v: nat)
      requires Valid() && u < n && v < n
      modifies this
      ensures Valid() && n == old(n) && depth == old(depth)
      ensures edges == old(edges) + {(u, v)}
    {
      var i := 0;
      while i < |outEdges[u]|
        invariant 0 <= i <= |outEdges[u]| && v !in outEdges[u][..i]
      {
        if outEdges[u][i] == v {
          assert edges == edges + {(u, v)};
          return;
        }
        i := i + 1;
      }
      outEdges := outEdges[u := outEdges[u] + [v]];
      inEdges := inEdges[v := inEdges[v] + [u]];
      edges := edges + {(u, v)};
    }

    /** Pushes the successors of u that have not been visited. */
    static method PushUnvisited(ghost g: Edges, ghost from: nat, ghost u: nat, ghost n: nat, succs: seq<nat>,
                                visited: set<nat>,
                                before: seq<nat>) returns (stack: seq<nat>)
      requires Reach(g, from, u) && forall k :: 0 <= k < |succs| ==> succs[k] < n && (u, succs[k]) in g
      requires forall k :: 0 <= k < |before| ==> before[k] < n && Reach(g, from, before[k])
      ensures forall k :: 0 <= k < |stack| ==> stack[k] < n && Reach(g, from, stack[k])
      ensures forall x: nat :: x in before || (x in succs && x !in visited) ==> x in stack
    {
      stack := before;
      var i := 0;
      while i < |succs|
        invariant 0 <= i <= |succs|
        invariant forall k :: 0 <= k < |stack| ==> stack[k] < n && Reach(g, from, stack[k])
        invariant forall x: nat :: x in before || (x in succs[..i] && x !in visited) ==> x in stack
      {
        assert succs[..i + 1] == succs[..i] + [succs[i]];
        if succs[i] !in visited {
          EdgePath(g, u, succs[i]);
          ReachTrans(g, from, u, succs[i]);
          stack := stack + [succs[i]];
        }
        i := i + 1;
      }
      assert succs[..i] == succs;
    }

    /** Depth-first search with an explicit stack. */
    method PathExists(from: nat, to: nat) returns (found: bool)
      requires Valid() && from < n && to < n
      ensures found <==> Reach(edges, from, to)
    {
      if from == to {
        SelfReach(edges, from);
        return true;
      }
      SelfReach(edges, from);
      var visited: set<nat> := {};
      var stack: seq<nat> := [from];
      while stack != []
        invariant forall x: nat :: x in visited ==> x < n
        invariant forall j :: 0 <= j < |stack| ==> stack[j] < n && Reach(edges, from, stack[j])
        invariant from in visited || from in stack
        invariant to !in visited
        invariant forall x: nat, y: nat :: x in visited && (x, y) in edges ==> y in visited || y in stack
        decreases NodesBelow(n) - visited, |stack|
      {
        var u := stack[|stack| - 1];
        assert stack == stack[..|stack| - 1] + [u];
        stack := stack[..|stack| - 1];
        if u == to {
          return true;
        }
        if u !in visited {
          visited := visited + {u};
          forall k | 0 <= k < |outEdges[u]| ensures outEdges[u][k] < n && (u, outEdges[u][k]) in edges {
            assert outEdges[u][k] in outEdges[u];
          }
          stack := PushUnvisited(edges, from, u, n, outEdges[u], visited, stack);
          assert forall y :: (u, y) in edges ==> y in outEdges[u];
        }
      }
      if Reach(edges, from, to) {
        ClosedSet(edges, visited, from, to);
      }
      found := false;
    }

    /** Kahn's algorithm.  It accepts exactly the acyclic graphs, and then leaves in `depth`
        the length of the longest path into each node. */
    method RecomputeDepthsOrDetectCycle() returns (acyclic: bool)
      requires Valid()
      modifies `depth
      ensures Valid()
      ensures acyclic <==> Acyclic(edges)
      ensures acyclic ==> forall v: nat :: v < n ==> LongestInto(edges, v, depth[v])
    {
      acyclic, depth := KahnRun(edges, outEdges, inEdges);
    }
  }

  lemma SubsetEq(a: set<nat>, b: set<nat>)
    requires a <= b && |a| == |b|
    ensures a == b
  {
    assert b == a + (b - a);
  }
}
