/** Which of a country's provinces are connected to its capital, and which are overseas. */
module Connectivity {
  import opened Digraph

  const NO_CONTINENT: int := -1

  datatype Option<T> = None | Some(value: T)

  /** Provinces are 0, 1, ...; adjacency is as listed, in either or both directions. */
  datatype Geography = Geography(adjacency: seq<seq<nat>>, continent: seq<int>)

  predicate WellFormed(m: Geography) {
    && |m.continent| == |m.adjacency|
    && forall p, k :: 0 <= p < |m.adjacency| && 0 <= k < |m.adjacency[p]| ==> m.adjacency[p][k] < |m.adjacency|
  }

  /** Adjacency steps that land on a province of the country. */
  ghost function Steps(m: Geography, owned: seq<nat>): (g: Edges)
    ensures forall p: nat, q: nat :: (p, q) in g <==> p < |m.adjacency| && q in m.adjacency[p] && q in owned
  {
    set p: nat, k: nat | p < |m.adjacency| && k < |m.adjacency[p]|
      && m.adjacency[p][k] in owned :: (p, m.adjacency[p][k])
  }

  function CapitalContinent(m: Geography, capital: Option<nat>): int
    requires WellFormed(m) && (capital.Some? ==> capital.value < |m.continent|)
  {
    if capital.Some? then m.continent[capital.value] else NO_CONTINENT
  }

  /** The flags of the owned provinces before the worklist runs. */
  method ResetFlags(m: Geography, owned: seq<nat>, home: int, connected: array<bool>, overseas: array<bool>)
    requires WellFormed(m) && connected.Length == overseas.Length == |m.adjacency| && connected != overseas
    requires forall k :: 0 <= k < |owned| ==> owned[k] < |m.adjacency|
    modifies connected, overseas
    ensures forall p: nat :: p < |m.adjacency| ==> connected[p] == (p !in owned && old(connected[p]))
    ensures forall p: nat :: p < |m.adjacency| ==>
            overseas[p] == if p in owned then m.continent[p] != home else old(overseas[p])
  {
    var i := 0;
    while i < |owned|
      invariant 0 <= i <= |owned|
      invariant forall p: nat :: p < |m.adjacency| ==> connected[p] == (p !in owned[..i] && old(connected[p]))
      invariant forall p: nat :: p < |m.adjacency| ==>
        overseas[p] == if p in owned[..i] then m.continent[p] != home else old(overseas[p])
    {
      assert owned[..i + 1] == owned[..i] + [owned[i]];
      connected[owned[i]] := false;
      overseas[owned[i]] := m.continent[owned[i]] != home;
      i := i + 1;
    }
    assert owned[..i] == owned;
  }

  // ----- the worklist -----

  /** The provinces on the list are the connected ones, each listed once and reachable. */
  ghost predicate Listed(m: Geography, owned: seq<nat>, capital: nat, connected: seq<bool>, list: seq<nat>)
    requires WellFormed(m) && |connected| == |m.adjacency|
  {
    && Distinct(list) && capital in list
    && (forall k :: 0 <= k < |list| ==>
        list[k] < |connected| && connected[list[k]] && Reach(Steps(m, owned), capital, list[k]))
    && (forall p: nat :: p < |connected| && p in owned && connected[p] ==> p in list)
    && (forall k :: 0 <= k < |list| ==> list[k] == capital || list[k] in owned)
  }

  /** Overseas as far as known: another continent, and not on the list. */
  ghost predicate OverseasKnown(m: Geography, owned: seq<nat>, capital: nat, overseas: seq<bool>, list: seq<nat>)
    requires WellFormed(m) && |overseas| == |m.adjacency| && capital < |m.adjacency|
  {
    forall p: nat :: p < |overseas| && p in owned ==>
      overseas[p] == (m.continent[p] != m.continent[capital] && p !in list)
  }

  /** All steps from p lead to listed provinces. */
  ghost predicate Explored(m: Geography, owned: seq<nat>, list: seq<nat>, p: nat, upTo: nat)
    requires p < |m.adjacency| && upTo <= |m.adjacency[p]|
  {
    forall k :: 0 <= k < upTo && m.adjacency[p][k] in owned ==> m.adjacency[p][k] in list
  }

  lemma ListOne(m: Geography, owned: seq<nat>, capital: nat, connected: seq<bool>, list: seq<nat>, p: nat, q: nat)
    requires WellFormed(m) && |connected| == |m.adjacency| && Listed(m, owned, capital, connected, list)
    requires p in list && q in m.adjacency[p] && q in owned && q < |connected| && !connected[q]
    ensures q !in list && Listed(m, owned, capital, connected[q := true], list + [q])
  {
    var after := connected[q := true];
    assert q !in list;
    EdgePath(Steps(m, owned), p, q);
    ReachTrans(Steps(m, owned), capital, p, q);
    forall i, j | 0 <= i < j < |list + [q]| ensures (list + [q])[i] != (list + [q])[j] {
      if j == |list| {
        assert list[i] in list;
      }
    }
  }

  lemma ListOneOverseas(m: Geography, owned: seq<nat>, capital: nat, overseas: seq<bool>, list: seq<nat>, q: nat)
    requires WellFormed(m) && |overseas| == |m.adjacency| && capital < |m.adjacency| && q < |overseas|
    requires OverseasKnown(m, owned, capital, overseas, list)
    ensures OverseasKnown(m, owned, capital, overseas[q := false], list + [q])
  {
  }

  lemma ExploredMore(m: Geography, owned: seq<nat>, list: seq<nat>, p: nat, upTo: nat, q: nat)
    requires p < |m.adjacency| && upTo < |m.adjacency[p]| && Explored(m, owned, list, p, upTo)
             && q == m.adjacency[p][upTo]
    ensures Explored(m, owned, list + [q], p, upTo + 1)
    ensures q !in owned || q in list ==> Explored(m, owned, list, p, upTo + 1)
  {
  }

  /** Lists the province's unlisted neighbours. */
  method Explore(m: Geography, owned: seq<nat>, ghost capital: nat, p: nat, connected: array<bool>,
                 overseas: array<bool>, list: seq<nat>)
    returns (longer: seq<nat>)
    requires WellFormed(m) && connected.Length == overseas.Length == |m.adjacency| && connected != overseas
             && capital < |m.adjacency|
    requires Listed(m, owned, capital, connected[..], list) && OverseasKnown(m, owned, capital, overseas[..], list)
             && p in list
    modifies connected, overseas
    ensures |longer| >= |list| && longer[..|list|] == list
    ensures Listed(m, owned, capital, connected[..], longer) && OverseasKnown(m, owned, capital, overseas[..], longer)
    ensures Explored(m, owned, longer, p, |m.adjacency[p]|)
    ensures forall q: nat :: q < |m.adjacency| && q !in owned ==>
            connected[q] == old(connected[q]) && overseas[q] == old(overseas[q])
  {
    longer := list;
    var k := 0;
    while k < |m.adjacency[p]|
      invariant 0 <= k <= |m.adjacency[p]| && |longer| >= |list| && longer[..|list|] == list && p in longer
      invariant Listed(m, owned, capital, connected[..], longer)
                && OverseasKnown(m, owned, capital, overseas[..], longer)
      invariant Explored(m, owned, longer, p, k)
      invariant forall q: nat :: q < |m.adjacency| && q !in owned ==>
                connected[q] == old(connected[q]) && overseas[q] == old(overseas[q])
    {
      var q := m.adjacency[p][k];
      ExploredMore(m, owned, longer, p, k, q);
      if q in owned && !connected[q] {
        ListOne(m, owned, capital, connected[..], longer, p, q);
        ListOneOverseas(m, owned, capital, overseas[..], longer, q);
        ghost var c, o := connected[..][q := true], overseas[..][q := false];
        connected[q] := true;
        overseas[q] := false;
        assert connected[..] == c && overseas[..] == o;
        longer := longer + [q];
      }
      k := k + 1;
    }
  }

  lemma {:induction false} BoundedList(list: seq<nat>, n: nat)
    requires Distinct(list) && forall k :: 0 <= k < |list| ==> list[k] < n
    ensures |list| <= n
    decreases n
  {
    if list != [] {
      assert list[0] < n;
      if n - 1 in list {
        var k :| 0 <= k < |list| && list[k] == n - 1;
        var rest := list[..k] + list[k + 1..];
        forall i, j | 0 <= i < j < |rest| ensures rest[i] != rest[j] {
          assert rest[i] == list[if i < k then i else i + 1];
          assert rest[j] == list[if j < k then j else j + 1];
        }
        BoundedList(rest, n - 1);
      } else {
        BoundedList(list, n - 1);
      }
    }
  }

  /** What the flags mean when the update is done. */
  ghost predicate FlagsMean(m: Geography, owned: seq<nat>, capital: Option<nat>, connected: seq<bool>,
                            overseas: seq<bool>)
    requires WellFormed(m) && |connected| == |overseas| == |m.adjacency|
             && (capital.Some? ==> capital.value < |m.adjacency|)
  {
    forall p: nat :: p < |m.adjacency| && p in owned ==>
      && (connected[p] <==> capital.Some? && Reach(Steps(m, owned), capital.value, p))
      && (overseas[p] <==> m.continent[p] != CapitalContinent(m, capital) && !connected[p])
  }

  lemma AllReached(m: Geography, owned: seq<nat>, capital: nat, connected: seq<bool>, list: seq<nat>, p: nat)
    requires WellFormed(m) && |connected| == |m.adjacency| && Listed(m, owned, capital, connected, list)
    requires forall k: nat :: k < |list| ==> Explored(m, owned, list, list[k], |m.adjacency[list[k]]|)
    requires Reach(Steps(m, owned), capital, p)
    ensures p in list
  {
    var s := set x: nat | x in list;
    forall a, b | (a, b) in Steps(m, owned) && a in s ensures b in s {
      var k :| 0 <= k < |list| && list[k] == a;
      assert Explored(m, owned, list, list[k], |m.adjacency[list[k]]|);
    }
    ClosedSet(Steps(m, owned), s, capital, p);
  }

  /** An owned province ends connected exactly if it is the capital or can be reached from it by
      adjacency steps that each land on an owned province, and overseas exactly if it lies on
      another continent and is not connected. */
  method UpdateConnectivity(m: Geography, owned: seq<nat>, capital: Option<nat>, connected: array<bool>,
                            overseas: array<bool>)
    requires WellFormed(m) && connected.Length == overseas.Length == |m.adjacency| && connected != overseas
    requires (forall k :: 0 <= k < |owned| ==> owned[k] < |m.adjacency|)
             && (capital.Some? ==> capital.value < |m.adjacency|)
    modifies connected, overseas
    ensures FlagsMean(m, owned, capital, connected[..], overseas[..])
    ensures forall p: nat :: p < |m.adjacency| && p !in owned ==>
      overseas[p] == old(overseas[p]) && (connected[p] <==> old(connected[p]) || capital == Some(p))
  {
    ResetFlags(m, owned, CapitalContinent(m, capital), connected, overseas);
    if capital.None? {
      return;
    }
    var c := capital.value;
    ghost var checklist := Flood(m, owned, c, connected, overseas);
    forall p: nat | p < |m.adjacency| && p in owned && Reach(Steps(m, owned), c, p) ensures p in checklist {
      AllReached(m, owned, c, connected[..], checklist, p);
    }
  }

  /** The growing worklist, from the capital on. */
  method Flood(m: Geography, owned: seq<nat>, c: nat, connected: array<bool>, overseas: array<bool>)
    returns (ghost reached: seq<nat>)
    requires WellFormed(m) && connected.Length == overseas.Length == |m.adjacency| && connected != overseas
             && c < |m.adjacency|
    requires forall p: nat :: p < |m.adjacency| && p in owned ==>
      !connected[p] && overseas[p] == (m.continent[p] != m.continent[c])
    modifies connected, overseas
    ensures Listed(m, owned, c, connected[..], reached) && OverseasKnown(m, owned, c, overseas[..], reached)
    ensures forall k: nat :: k < |reached| ==> Explored(m, owned, reached, reached[k], |m.adjacency[reached[k]]|)
    ensures forall p: nat :: p < |m.adjacency| && p !in owned ==>
      overseas[p] == old(overseas[p]) && (connected[p] <==> old(connected[p]) || p == c)
  {
    connected[c] := true;
    var checklist := [c];
    SelfReach(Steps(m, owned), c);
    var index := 0;
    while index < |checklist|
      invariant 0 <= index <= |checklist|
      invariant Listed(m, owned, c, connected[..], checklist) && OverseasKnown(m, owned, c, overseas[..], checklist)
      invariant forall k: nat :: k < index ==> Explored(m, owned, checklist, checklist[k], |m.adjacency[checklist[k]]|)
      invariant forall p: nat :: p < |m.adjacency| && p !in owned ==>
        overseas[p] == old(overseas[p]) && (connected[p] <==> old(connected[p]) || p == c)
      decreases |m.adjacency| - index
    {
      BoundedList(checklist, |m.adjacency|);
      ghost var before := checklist;
      checklist := Explore(m, owned, c, checklist[index], connected, overseas, checklist);
      forall k: nat | k <= index ensures Explored(m, owned, checklist, checklist[k], |m.adjacency[checklist[k]]|) {
        assert checklist[k] == before[k];
      }
      index := index + 1;
    }
    reached := checklist;
  }
}
