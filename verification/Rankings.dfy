/** The four rankings of the existing countries, and the ranks they give. */
module Rankings {
  import opened Sorting

  datatype Status = GreatPower | SecondaryPower | Civilised | PartiallyCivilised | Uncivilised | Primitive

  datatype Country = Country(present: bool, status: Status, totalScore: int, prestige: int, industrialPower: int,
                             militaryPower: int,
                             totalRank: nat, prestigeRank: nat, industrialRank: nat, militaryRank: nat,
                               loseGreatPowerDate: int)

  predicate IsCivilised(s: Status) {
    s.GreatPower? || s.SecondaryPower? || s.Civilised?
  }

  // ----- the orders -----

  /** Civilised countries first, then by descending score. */
  function TotalOrder(c: Country): Key {
    (if IsCivilised(c.status) then 0 else 1, -c.totalScore)
  }

  function PrestigeOrder(c: Country): Key {
    (-c.prestige, 0)
  }

  function IndustrialOrder(c: Country): Key {
    (-c.industrialPower, 0)
  }

  function MilitaryOrder(c: Country): Key {
    (-c.militaryPower, 0)
  }

  function By(cs: seq<Country>, order: Country -> Key): nat -> Key {
    (c: nat) => if c < |cs| then order(cs[c]) else (0, 0)
  }

  /** x is ranked before y; ties go to the lower index. */
  predicate Outranks(key: nat -> Key, x: nat, y: nat) {
    KeyLt(key(x), key(y)) || (key(x) == key(y) && x < y)
  }

  /** The countries that exist, in index order. */
  function Existing(cs: seq<Country>): (r: seq<nat>)
    ensures forall k :: 0 <= k < |r| ==> r[k] < |cs| && cs[r[k]].present
    ensures forall c: nat :: c < |cs| && cs[c].present ==> c in r
    ensures forall j, k :: 0 <= j < k < |r| ==> r[j] < r[k]
  {
    if cs == [] then []
    else
      var n := |cs| - 1;
      var front := Existing(cs[..n]);
      if cs[n].present then front + [n] else front
  }

  // ----- one ranking -----

  /** A ranking lists every existing country exactly once. */
  ghost predicate Lists(r: seq<nat>, cs: seq<Country>) {
    && (forall k :: 0 <= k < |r| ==> r[k] < |cs| && cs[r[k]].present)
    && (forall c: nat :: c < |cs| && cs[c].present ==> c in r)
    && (forall j, k :: 0 <= j < k < |r| ==> r[j] != r[k])
  }

  ghost predicate InOrder(r: seq<nat>, key: nat -> Key) {
    forall j, k :: 0 <= j < k < |r| ==> Outranks(key, r[j], r[k])
  }

  /** Stably inserting the greatest index so far keeps ties in index order. */
  lemma {:induction false} InsertInOrder(s: seq<nat>, x: nat, key: nat -> Key)
    requires InOrder(s, key) && forall k :: 0 <= k < |s| ==> s[k] < x
    ensures InOrder(Insert(s, x, key), key)
  {
    if s != [] && !KeyLe(key(s[|s| - 1]), key(x)) {
      var front, last := s[..|s| - 1], s[|s| - 1];
      var r := Insert(front, x, key);
      InsertInOrder(front, x, key);
      forall k | 0 <= k < |r| ensures Outranks(key, r[k], last) {
        assert r[k] in multiset(r);
        if r[k] != x {
          assert r[k] in front;
          var j :| 0 <= j < |front| && front[j] == r[k];
          assert Outranks(key, s[j], s[|s| - 1]);
        }
      }
    } else if s != [] {
      forall k | 0 <= k < |s| ensures Outranks(key, s[k], x) {
        assert k < |s| - 1 ==> Outranks(key, s[k], s[|s| - 1]);
      }
    }
  }

  lemma {:induction false} SortInOrder(s: seq<nat>, key: nat -> Key)
    requires forall j, k :: 0 <= j < k < |s| ==> s[j] < s[k]
    ensures InOrder(StableSort(s, key), key)
  {
    if s != [] {
      var front, last := s[..|s| - 1], s[|s| - 1];
      SortInOrder(front, key);
      SameMembers(StableSort(front, key), front);
      forall k | 0 <= k < |front| ensures StableSort(front, key)[k] < last {
        assert StableSort(front, key)[k] in front;
      }
      InsertInOrder(StableSort(front, key), last, key);
    }
  }

  lemma OrderedDistinct(r: seq<nat>, key: nat -> Key)
    requires InOrder(r, key)
    ensures forall j, k :: 0 <= j < k < |r| ==> r[j] != r[k]
  {
    forall j, k | 0 <= j < k < |r| ensures r[j] != r[k] {
      assert Outranks(key, r[j], r[k]);
    }
  }

  method MakeRanking(cs: seq<Country>, existing: seq<nat>, order: Country -> Key) returns (r: seq<nat>)
    requires existing == Existing(cs)
    ensures Lists(r, cs) && InOrder(r, By(cs, order)) && |r| == |existing|
  {
    r := StableSort(existing, By(cs, order));
    SortInOrder(existing, By(cs, order));
    OrderedDistinct(r, By(cs, order));
    SameMembers(r, existing);
    forall k | 0 <= k < |r| ensures r[k] < |cs| && cs[r[k]].present {
      assert r[k] in existing;
    }
  }

  // ----- assigning ranks -----

  /** Ranks aside, b is a; countries that do not exist keep even those. */
  ghost predicate SameButRanks(a: seq<Country>, b: seq<Country>) {
    && |b| == |a|
    && (forall c :: 0 <= c < |a| ==> b[c] == a[c].(totalRank := b[c].totalRank, prestigeRank := b[c].prestigeRank,
                                                  industrialRank := b[c].industrialRank,
                                                    militaryRank := b[c].militaryRank))
    && (forall c :: 0 <= c < |a| && !a[c].present ==> b[c] == a[c])
  }

  function TotalRank(c: Country): nat { c.totalRank }

  function PrestigeRank(c: Country): nat { c.prestigeRank }

  function IndustrialRank(c: Country): nat { c.industrialRank }

  function MilitaryRank(c: Country): nat { c.militaryRank }

  /** The first n of the ranking have ranks 1 to n. */
  ghost predicate RankedBy(b: seq<Country>, r: seq<nat>, rank: Country -> nat, n: nat)
    requires n <= |r|
  {
    forall k :: 0 <= k < n && r[k] < |b| ==> rank(b[r[k]]) == k + 1
  }

  lemma RankOneMore(a: seq<Country>, b: seq<Country>, r: seq<nat>, rank: Country -> nat, i: nat)
    requires i < |r| && r[i] < |a| && |b| == |a| && forall j, k :: 0 <= j < k < |r| ==> r[j] != r[k]
    requires RankedBy(a, r, rank, i) && rank(b[r[i]]) == i + 1
    requires forall c: nat :: c < |a| && c != r[i] ==> rank(b[c]) == rank(a[c])
    ensures RankedBy(b, r, rank, i + 1)
  {
  }

  /** Gives one rank to the four countries that hold it. */
  method SetRank(a: seq<Country>, rank: nat, t: nat, p: nat, i: nat, m: nat) returns (b: seq<Country>)
    requires t < |a| && p < |a| && i < |a| && m < |a|
    ensures RankSet(a, b, rank, t, p, i, m)
  {
    b := a[t := a[t].(totalRank := rank)];
    b := b[p := b[p].(prestigeRank := rank)];
    b := b[i := b[i].(industrialRank := rank)];
    b := b[m := b[m].(militaryRank := rank)];
  }

  /** The first n places of all four rankings have been turned into ranks. */
  ghost predicate FourRanked(b: seq<Country>, t: seq<nat>, p: seq<nat>, i: seq<nat>, m: seq<nat>, n: nat)
    requires n <= |t| && n <= |p| && n <= |i| && n <= |m|
  {
    RankedBy(b, t, TotalRank, n) && RankedBy(b, p, PrestigeRank, n) && RankedBy(b, i, IndustrialRank, n)
      && RankedBy(b, m, MilitaryRank, n)
  }

  ghost predicate FourLists(cs: seq<Country>, t: seq<nat>, p: seq<nat>, i: seq<nat>, m: seq<nat>) {
    Lists(t, cs) && Lists(p, cs) && Lists(i, cs) && Lists(m, cs) && |t| == |p| == |i| == |m|
  }

  /** a with the rank given to those four countries. */
  ghost predicate RankSet(a: seq<Country>, b: seq<Country>, rank: nat, t: nat, p: nat, i: nat, m: nat) {
    && |b| == |a|
    && forall c: nat :: c < |a| ==> b[c] == a[c].(totalRank := if c == t then rank else a[c].totalRank,
      prestigeRank := if c == p
        then rank else a[c].prestigeRank, industrialRank := if c == i then rank else a[c].industrialRank,
      militaryRank := if c == m then rank else a[c].militaryRank)
  }

  lemma FourRankedStep(a: seq<Country>, was: seq<Country>, b: seq<Country>, t: seq<nat>, p: seq<nat>, i: seq<nat>,
                       m: seq<nat>, n: nat)
    requires FourLists(a, t, p, i, m) && n < |t| && SameButRanks(a, was) && FourRanked(was, t, p, i, m, n)
    requires RankSet(was, b, n + 1, t[n], p[n], i[n], m[n])
    ensures SameButRanks(a, b) && FourRanked(b, t, p, i, m, n + 1)
  {
    RankOneMore(was, b, t, TotalRank, n);
    RankOneMore(was, b, p, PrestigeRank, n);
    RankOneMore(was, b, i, IndustrialRank, n);
    RankOneMore(was, b, m, MilitaryRank, n);
    SameButRanksStep(a, was, b, {t[n], p[n], i[n], m[n]});
  }

  method AssignRanks(a: seq<Country>, total: seq<nat>, prestige: seq<nat>, industrial: seq<nat>, military: seq<nat>)
    returns (b: seq<Country>)
    requires FourLists(a, total, prestige, industrial, military)
    ensures SameButRanks(a, b) && FourRanked(b, total, prestige, industrial, military, |total|)
  {
    b := a;
    for n := 0 to |total|
      invariant SameButRanks(a, b) && FourRanked(b, total, prestige, industrial, military, n)
    {
      ghost var was := b;
      b := SetRank(b, n + 1, total[n], prestige[n], industrial[n], military[n]);
      FourRankedStep(a, was, b, total, prestige, industrial, military, n);
    }
  }

  lemma SameButRanksStep(a: seq<Country>, was: seq<Country>, b: seq<Country>, touched: set<nat>)
    requires SameButRanks(a, was) && |b| == |a| && forall c :: c in touched ==> c < |a| && a[c].present
    requires forall c: nat :: c < |a| ==>
      b[c] == was[c].(totalRank := b[c].totalRank, prestigeRank := b[c].prestigeRank,
                      industrialRank := b[c].industrialRank,
                      militaryRank := b[c].militaryRank) && (c !in touched ==> b[c] == was[c])
    ensures SameButRanks(a, b)
  {
  }

  /** Existing countries are ranked from 1 on without gaps, exactly in the given order. */
  ghost predicate RankedInOrder(a: seq<Country>, b: seq<Country>, rank: Country -> nat, order: Country -> Key)
    requires |b| == |a|
  {
    && (forall c :: 0 <= c < |a| && a[c].present ==> 1 <= rank(b[c]) <= |Existing(a)|)
    && (forall x: nat, y: nat :: x < |a| && y < |a| && a[x].present && a[y].present ==>
          (rank(b[x]) < rank(b[y]) <==> Outranks(By(a, order), x, y)))
  }

  lemma RankingGivesOrder(a: seq<Country>, b: seq<Country>, r: seq<nat>, rank: Country -> nat, order: Country -> Key)
    requires |b| == |a| && Lists(r, a) && InOrder(r, By(a, order)) && |r| == |Existing(a)| && RankedBy(b, r, rank, |r|)
    ensures RankedInOrder(a, b, rank, order)
  {
    forall x: nat, y: nat | x < |a| && y < |a| && a[x].present && a[y].present
      ensures 1 <= rank(b[x]) <= |r| && (rank(b[x]) < rank(b[y]) <==> Outranks(By(a, order), x, y))
    {
      var i :| 0 <= i < |r| && r[i] == x;
      var j :| 0 <= j < |r| && r[j] == y;
      assert rank(b[r[i]]) == i + 1 && rank(b[r[j]]) == j + 1;
      if i < j {
        assert Outranks(By(a, order), r[i], r[j]);
      } else if j < i {
        assert Outranks(By(a, order), r[j], r[i]);
      }
    }
  }

  /** All four ranks are the places in the four rankings. */
  ghost predicate AllRanked(a: seq<Country>, b: seq<Country>) {
    && SameButRanks(a, b)
    && RankedInOrder(a, b, TotalRank, TotalOrder) && RankedInOrder(a, b, PrestigeRank, PrestigeOrder)
    && RankedInOrder(a, b, IndustrialRank, IndustrialOrder) && RankedInOrder(a, b, MilitaryRank, MilitaryOrder)
  }

  predicate Uncivil(s: Status) {
    s.PartiallyCivilised? || s.Uncivilised? || s.Primitive?
  }

  /** Two countries in the order of one field: the greater value first, then the lower index. */
  predicate Ahead(valueX: int, valueY: int, x: nat, y: nat) {
    valueX > valueY || (valueX == valueY && x < y)
  }

  /** How the ranks of two existing countries compare, in terms of their fields. */
  ghost predicate PairRanked(a: seq<Country>, b: seq<Country>, x: nat, y: nat)
    requires |b| == |a| && x < |a| && y < |a|
  {
    && (b[x].totalRank < b[y].totalRank <==>
        (!Uncivil(a[x].status) && Uncivil(a[y].status))
        || (Uncivil(a[x].status) == Uncivil(a[y].status) && Ahead(a[x].totalScore, a[y].totalScore, x, y)))
    && (b[x].prestigeRank < b[y].prestigeRank <==> Ahead(a[x].prestige, a[y].prestige, x, y))
    && (b[x].industrialRank < b[y].industrialRank <==> Ahead(a[x].industrialPower, a[y].industrialPower, x, y))
    && (b[x].militaryRank < b[y].militaryRank <==> Ahead(a[x].militaryPower, a[y].militaryPower, x, y))
  }

  /** Civilised countries rank before uncivilised ones and then by descending total score; the three
      other ranks go by descending prestige, industrial power and military power; ties go to the
      lower index. */
  ghost predicate RanksCompare(a: seq<Country>, b: seq<Country>) {
    |b| == |a| && forall x: nat, y: nat :: x < |a| && y < |a| && a[x].present && a[y].present ==> PairRanked(a, b, x, y)
  }

  lemma ComparedTotals(a: seq<Country>, b: seq<Country>, x: nat, y: nat)
    requires |b| == |a| && x < |a| && y < |a| && a[x].present && a[y].present
    requires RankedInOrder(a, b, TotalRank, TotalOrder)
    ensures b[x].totalRank < b[y].totalRank <==>
            (!Uncivil(a[x].status) && Uncivil(a[y].status))
            || (Uncivil(a[x].status) == Uncivil(a[y].status) && Ahead(a[x].totalScore, a[y].totalScore, x, y))
  {
    assert TotalRank(b[x]) < TotalRank(b[y]) <==> Outranks(By(a, TotalOrder), x, y);
    assert By(a, TotalOrder)(x) == TotalOrder(a[x]) && By(a, TotalOrder)(y) == TotalOrder(a[y]);
  }

  lemma ComparedPrestige(a: seq<Country>, b: seq<Country>, x: nat, y: nat)
    requires |b| == |a| && x < |a| && y < |a| && a[x].present && a[y].present
    requires RankedInOrder(a, b, PrestigeRank, PrestigeOrder)
    ensures b[x].prestigeRank < b[y].prestigeRank <==> Ahead(a[x].prestige, a[y].prestige, x, y)
  {
    assert PrestigeRank(b[x]) < PrestigeRank(b[y]) <==> Outranks(By(a, PrestigeOrder), x, y);
    assert By(a, PrestigeOrder)(x) == PrestigeOrder(a[x]) && By(a, PrestigeOrder)(y) == PrestigeOrder(a[y]);
  }

  lemma ComparedIndustry(a: seq<Country>, b: seq<Country>, x: nat, y: nat)
    requires |b| == |a| && x < |a| && y < |a| && a[x].present && a[y].present
    requires RankedInOrder(a, b, IndustrialRank, IndustrialOrder)
    ensures b[x].industrialRank < b[y].industrialRank <==> Ahead(a[x].industrialPower, a[y].industrialPower, x, y)
  {
    assert IndustrialRank(b[x]) < IndustrialRank(b[y]) <==> Outranks(By(a, IndustrialOrder), x, y);
    assert By(a, IndustrialOrder)(x) == IndustrialOrder(a[x]) && By(a, IndustrialOrder)(y) == IndustrialOrder(a[y]);
  }

  lemma ComparedMilitary(a: seq<Country>, b: seq<Country>, x: nat, y: nat)
    requires |b| == |a| && x < |a| && y < |a| && a[x].present && a[y].present
    requires RankedInOrder(a, b, MilitaryRank, MilitaryOrder)
    ensures b[x].militaryRank < b[y].militaryRank <==> Ahead(a[x].militaryPower, a[y].militaryPower, x, y)
  {
    assert MilitaryRank(b[x]) < MilitaryRank(b[y]) <==> Outranks(By(a, MilitaryOrder), x, y);
    assert By(a, MilitaryOrder)(x) == MilitaryOrder(a[x]) && By(a, MilitaryOrder)(y) == MilitaryOrder(a[y]);
  }

  /** The four ranks, in terms of the fields they are computed from. */
  lemma RanksByFields(a: seq<Country>, b: seq<Country>)
    requires AllRanked(a, b)
    ensures RanksCompare(a, b)
  {
    forall x: nat, y: nat | x < |a| && y < |a| && a[x].present && a[y].present ensures PairRanked(a, b, x, y) {
      ComparedTotals(a, b, x, y);
      ComparedPrestige(a, b, x, y);
      ComparedIndustry(a, b, x, y);
      ComparedMilitary(a, b, x, y);
    }
  }

  /** The four rankings list every existing country once, each at the place that its rank says. */
  ghost predicate RankingsStored(cs: seq<Country>, b: seq<Country>, t: seq<nat>, p: seq<nat>, i: seq<nat>,
                                 m: seq<nat>)
  {
    && |b| == |cs| && FourLists(cs, t, p, i, m)
    && (forall k :: 0 <= k < |t| ==> b[t[k]].totalRank == k + 1)
    && (forall k :: 0 <= k < |p| ==> b[p[k]].prestigeRank == k + 1)
    && (forall k :: 0 <= k < |i| ==> b[i[k]].industrialRank == k + 1)
    && (forall k :: 0 <= k < |m| ==> b[m[k]].militaryRank == k + 1)
  }

  lemma RankAt(b: seq<Country>, r: seq<nat>, rank: Country -> nat, k: nat)
    requires k < |r| && r[k] < |b| && RankedBy(b, r, rank, |r|)
    ensures rank(b[r[k]]) == k + 1
  {
  }

  lemma StoredRankings(cs: seq<Country>, b: seq<Country>, t: seq<nat>, p: seq<nat>, i: seq<nat>, m: seq<nat>)
    requires FourLists(cs, t, p, i, m) && |b| == |cs| && FourRanked(b, t, p, i, m, |t|)
    ensures RankingsStored(cs, b, t, p, i, m)
  {
    forall k | 0 <= k < |t| ensures b[t[k]].totalRank == k + 1 {
      RankAt(b, t, TotalRank, k);
      assert TotalRank(b[t[k]]) == b[t[k]].totalRank;
    }
    forall k | 0 <= k < |p| ensures b[p[k]].prestigeRank == k + 1 {
      RankAt(b, p, PrestigeRank, k);
      assert PrestigeRank(b[p[k]]) == b[p[k]].prestigeRank;
    }
    forall k | 0 <= k < |i| ensures b[i[k]].industrialRank == k + 1 {
      RankAt(b, i, IndustrialRank, k);
      assert IndustrialRank(b[i[k]]) == b[i[k]].industrialRank;
    }
    forall k | 0 <= k < |m| ensures b[m[k]].militaryRank == k + 1 {
      RankAt(b, m, MilitaryRank, k);
      assert MilitaryRank(b[m[k]]) == b[m[k]].militaryRank;
    }
  }

  method ComputeRanks(cs: seq<Country>)
    returns (ranked: seq<Country>, total: seq<nat>, prestige: seq<nat>, industrial: seq<nat>, military: seq<nat>)
    ensures AllRanked(cs, ranked) && RanksCompare(cs, ranked)
    ensures RankingsStored(cs, ranked, total, prestige, industrial, military)
    ensures Lists(total, cs) && InOrder(total, By(cs, TotalOrder)) && RankedBy(ranked, total, TotalRank, |total|)
    ensures |total| == |Existing(cs)|
  {
    var existing := Existing(cs);
    total := MakeRanking(cs, existing, TotalOrder);
    prestige := MakeRanking(cs, existing, PrestigeOrder);
    industrial := MakeRanking(cs, existing, IndustrialOrder);
    military := MakeRanking(cs, existing, MilitaryOrder);
    ranked := AssignRanks(cs, total, prestige, industrial, military);
    RankingGivesOrder(cs, ranked, total, TotalRank, TotalOrder);
    RankingGivesOrder(cs, ranked, prestige, PrestigeRank, PrestigeOrder);
    RankingGivesOrder(cs, ranked, industrial, IndustrialRank, IndustrialOrder);
    RankingGivesOrder(cs, ranked, military, MilitaryRank, MilitaryOrder);
    RanksByFields(cs, ranked);
    StoredRankings(cs, ranked, total, prestige, industrial, military);
  }

  /** The ranking agrees with the ranks, and has the civilised countries in front. */
  ghost predicate RankingOf(r: seq<nat>, cs: seq<Country>) {
    && (forall k :: 0 <= k < |r| ==> r[k] < |cs| && cs[r[k]].totalRank == k + 1)
    && (forall j, k :: 0 <= j < k < |r| ==> r[j] != r[k])
    && (forall j, k :: 0 <= j <= k < |r| && IsCivilised(cs[r[k]].status) ==> IsCivilised(cs[r[j]].status))
  }

  lemma RankedRanking(a: seq<Country>, b: seq<Country>, r: seq<nat>)
    requires Lists(r, a) && InOrder(r, By(a, TotalOrder)) && SameButRanks(a, b) && RankedBy(b, r, TotalRank, |r|)
    ensures RankingOf(r, b) && Lists(r, b)
  {
    forall k | 0 <= k < |r| ensures b[r[k]].totalRank == k + 1 {
      assert TotalRank(b[r[k]]) == k + 1;
    }
    forall j, k | 0 <= j <= k < |r| && IsCivilised(b[r[k]].status) ensures IsCivilised(b[r[j]].status) {
      assert a[r[j]].status == b[r[j]].status && a[r[k]].status == b[r[k]].status;
      if j < k {
        assert Outranks(By(a, TotalOrder), r[j], r[k]);
        assert By(a, TotalOrder)(r[j]) == TotalOrder(a[r[j]]) && By(a, TotalOrder)(r[k]) == TotalOrder(a[r[k]]);
      }
    }
  }
}
