/** Great and secondary powers: what one update of the rankings does to them, and what holds over
    every run of updates. */
module GreatPowers {
  import opened Sorting
  import opened Rankings

  datatype Defines = Defines(greatPowerRank: nat, secondaryPowerRank: nat, graceDays: nat)

  /** country_instances, great_powers and secondary_powers. */
  datatype Powers = Powers(countries: seq<Country>, great: seq<nat>, secondary: seq<nat>)

  // ----- demotion -----

  /** Below the limit for longer than the grace period. */
  predicate Overdue(c: Country, limit: nat, today: int) {
    c.totalRank > limit && c.loseGreatPowerDate < today
  }

  predicate Keeps(cs: seq<Country>, limit: nat, today: int, c: nat) {
    c < |cs| && cs[c].status == GreatPower && !Overdue(cs[c], limit, today)
  }

  /** The great powers that stay, in list order. */
  function Kept(cs: seq<Country>, great: seq<nat>, limit: nat, today: int): (r: seq<nat>)
    ensures |r| <= |great|
  {
    if great == [] then []
    else
      var n := |great| - 1;
      var front := Kept(cs, great[..n], limit, today);
      if Keeps(cs, limit, today, great[n]) then front + [great[n]] else front
  }

  lemma {:induction false} KeptAre(cs: seq<Country>, great: seq<nat>, limit: nat, today: int, c: nat)
    ensures c in Kept(cs, great, limit, today) <==> c in great && Keeps(cs, limit, today, c)
  {
    if great != [] {
      var n := |great| - 1;
      KeptAre(cs, great[..n], limit, today, c);
      assert great == great[..n] + [great[n]];
    }
  }

  lemma {:induction false} KeptDifferent(cs: seq<Country>, great: seq<nat>, limit: nat, today: int)
    requires AllDifferent(great)
    ensures AllDifferent(Kept(cs, great, limit, today))
  {
    if great != [] {
      var n := |great| - 1;
      KeptDifferent(cs, great[..n], limit, today);
      KeptAre(cs, great[..n], limit, today, great[n]);
    }
  }

  function Demoted(c: Country): Country {
    c.(status := Civilised)
  }

  /** after is cs with the overdue great powers among g demoted. */
  ghost predicate DemotedAmong(cs: seq<Country>, g: seq<nat>, limit: nat, today: int, after: seq<Country>) {
    && |after| == |cs|
    && forall c: nat :: c < |cs| ==>
         after[c] == if c in g && cs[c].status == GreatPower && Overdue(cs[c], limit, today)
           then Demoted(cs[c]) else cs[c]
  }

  lemma DemoteOneMore(cs: seq<Country>, g: seq<nat>, x: nat, limit: nat, today: int, after: seq<Country>)
    requires DemotedAmong(cs, g, limit, today, after) && x < |cs| && x !in g
    ensures after[x] == cs[x]
    ensures Keeps(cs, limit, today, x) || cs[x].status != GreatPower ==> DemotedAmong(cs, g + [x], limit, today, after)
    ensures cs[x].status == GreatPower && Overdue(cs[x], limit, today) ==>
              DemotedAmong(cs, g + [x], limit, today, after[x := Demoted(cs[x])])
  {
  }

  lemma KeptSnoc(cs: seq<Country>, great: seq<nat>, limit: nat, today: int, i: nat)
    requires i < |great|
    ensures Kept(cs, great[..i + 1], limit, today) ==
            Kept(cs, great[..i], limit, today) + if Keeps(cs, limit, today, great[i]) then [great[i]] else []
  {
    assert great[..i + 1][..i] == great[..i];
  }

  method DemoteGreatPowers(cs: seq<Country>, great: seq<nat>, limit: nat, today: int)
    returns (after: seq<Country>, kept: seq<nat>)
    requires (forall k :: 0 <= k < |great| ==> great[k] < |cs|)
             && forall j, k :: 0 <= j < k < |great| ==> great[j] != great[k]
    ensures kept == Kept(cs, great, limit, today) && DemotedAmong(cs, great, limit, today, after)
  {
    after, kept := cs, [];
    var i := 0;
    while i < |great|
      invariant 0 <= i <= |great| && kept == Kept(cs, great[..i], limit, today)
      invariant DemotedAmong(cs, great[..i], limit, today, after)
    {
      assert great[i] !in great[..i] && great[..i + 1] == great[..i] + [great[i]];
      DemoteOneMore(cs, great[..i], great[i], limit, today, after);
      KeptSnoc(cs, great, limit, today, i);
      var c := after[great[i]];
      if c.status == GreatPower {
        if c.totalRank > limit && c.loseGreatPowerDate < today {
          after := after[great[i] := c.(status := Civilised)];
        } else {
          kept := kept + [great[i]];
        }
      }
      i := i + 1;
    }
    assert great[..i] == great;
  }

  method DemoteSecondaryPowers(cs: seq<Country>, secondary: seq<nat>) returns (after: seq<Country>)
    requires forall k :: 0 <= k < |secondary| ==> secondary[k] < |cs|
    ensures |after| == |cs|
    ensures forall c: nat :: c < |cs| ==>
            after[c] == if c in secondary && cs[c].status == SecondaryPower then Demoted(cs[c]) else cs[c]
  {
    after := cs;
    var i := 0;
    while i < |secondary|
      invariant 0 <= i <= |secondary| && |after| == |cs|
      invariant forall c: nat :: c < |cs| ==>
        after[c] == if c in secondary[..i] && cs[c].status == SecondaryPower then Demoted(cs[c]) else cs[c]
    {
      assert secondary[..i + 1] == secondary[..i] + [secondary[i]];
      if after[secondary[i]].status == SecondaryPower {
        after := after[secondary[i] := after[secondary[i]].(status := Civilised)];
      }
      i := i + 1;
    }
    assert secondary[..i] == secondary;
  }

  // ----- promotion -----

  /** The limits, and how many great powers there are already. */
  datatype Slots = Slots(limit: nat, secondaryLimit: nat, taken: nat)

  predicate Eligible(cs: seq<Country>, c: nat) {
    c < |cs| && IsCivilised(cs[c].status) && cs[c].status != GreatPower
  }

  /** How many of the first n of the ranking are promoted to great power. */
  function NewGreat(cs: seq<Country>, r: seq<nat>, s: Slots, n: nat): nat
    decreases n, 0
  {
    if n == 0 || n > |r| then 0 else NewGreat(cs, r, s, n - 1) + if BecomesGreat(cs, r, s, n - 1) then 1 else 0
  }

  /** The country at index i of the ranking is promoted: eligible, within the limit, and the slots
      are not all taken by great powers kept or promoted before it. */
  predicate BecomesGreat(cs: seq<Country>, r: seq<nat>, s: Slots, i: nat)
    decreases i, 1
  {
    i < |r| && Eligible(cs, r[i]) && i < s.limit && s.taken + NewGreat(cs, r, s, i) < s.limit
  }

  predicate BecomesSecondary(cs: seq<Country>, r: seq<nat>, s: Slots, i: nat) {
    i < |r| && Eligible(cs, r[i]) && !BecomesGreat(cs, r, s, i) && i < s.secondaryLimit
  }

  function NewStatus(cs: seq<Country>, r: seq<nat>, s: Slots, i: nat): Status
    requires i < |r| && r[i] < |cs|
  {
    if BecomesGreat(cs, r, s, i) then GreatPower
    else if BecomesSecondary(cs, r, s, i) then SecondaryPower
    else cs[r[i]].status
  }

  /** The promoted countries among the first n, in rank order. */
  function Promotions(cs: seq<Country>, r: seq<nat>, s: Slots, n: nat): (p: seq<nat>)
    requires n <= |r|
    ensures |p| == NewGreat(cs, r, s, n)
  {
    if n == 0 then [] else Promotions(cs, r, s, n - 1) + if BecomesGreat(cs, r, s, n - 1) then [r[n - 1]] else []
  }

  lemma {:induction false} PromotionsAre(cs: seq<Country>, r: seq<nat>, s: Slots, n: nat, c: nat)
    requires n <= |r|
    ensures c in Promotions(cs, r, s, n) <==> exists i :: 0 <= i < n && r[i] == c && BecomesGreat(cs, r, s, i)
  {
    if n > 0 {
      PromotionsAre(cs, r, s, n - 1, c);
    }
  }

  function SecondaryPromotions(cs: seq<Country>, r: seq<nat>, s: Slots, n: nat): (p: seq<nat>)
    requires n <= |r|
  {
    if n == 0 then [] else SecondaryPromotions(cs, r, s, n - 1) + if BecomesSecondary(cs, r, s, n - 1)
      then [r[n - 1]] else []
  }

  lemma {:induction false} SecondaryPromotionsAre(cs: seq<Country>, r: seq<nat>, s: Slots, n: nat, c: nat)
    requires n <= |r|
    ensures c in SecondaryPromotions(cs, r, s, n) <==>
            exists i :: 0 <= i < n && r[i] == c && BecomesSecondary(cs, r, s, i)
  {
    if n > 0 {
      SecondaryPromotionsAre(cs, r, s, n - 1, c);
    }
  }

  /** The statuses after the first n countries of the ranking have been looked at. */
  ghost predicate Promoted(cs: seq<Country>, after: seq<Country>, r: seq<nat>, s: Slots, n: nat)
    requires n <= |r|
  {
    && |after| == |cs|
    && (forall i :: 0 <= i < n && r[i] < |cs| ==> after[r[i]] == cs[r[i]].(status := NewStatus(cs, r, s, i)))
    && (forall c :: 0 <= c < |cs| && c !in r[..n] ==> after[c] == cs[c])
  }

  method PromoteOne(cs: seq<Country>, after: seq<Country>, r: seq<nat>, s: Slots, i: nat, great: seq<nat>,
                    secondary: seq<nat>)
    returns (now: seq<Country>, great': seq<nat>, secondary': seq<nat>)
    requires i < |r| && (forall k :: 0 <= k < |r| ==> r[k] < |cs|) && (forall j, k :: 0 <= j < k < |r| ==> r[j] != r[k])
    requires Promoted(cs, after, r, s, i) && cs[r[i]].totalRank == i + 1 && IsCivilised(cs[r[i]].status)
    requires |great| == s.taken + NewGreat(cs, r, s, i)
    ensures Promoted(cs, now, r, s, i + 1)
    ensures great' == great + if BecomesGreat(cs, r, s, i) then [r[i]] else []
    ensures secondary' == secondary + if BecomesSecondary(cs, r, s, i) then [r[i]] else []
  {
    now, great', secondary' := after, great, secondary;
    assert r[..i + 1] == r[..i] + [r[i]] && r[i] !in r[..i];
    var c := after[r[i]];
    if c.status == GreatPower {
      return;
    }
    if |great| < s.limit && c.totalRank <= s.limit {
      now := after[r[i] := c.(status := GreatPower)];
      great' := great + [r[i]];
    } else if c.totalRank <= s.secondaryLimit {
      now := after[r[i] := c.(status := SecondaryPower)];
      secondary' := secondary + [r[i]];
    }
  }

  /** Nobody from index i on is promoted. */
  ghost predicate NoMore(cs: seq<Country>, r: seq<nat>, s: Slots, i: nat) {
    forall k :: i <= k < |r| ==> !BecomesGreat(cs, r, s, k) && !BecomesSecondary(cs, r, s, k)
  }

  lemma {:induction false} StopEarly(cs: seq<Country>, r: seq<nat>, s: Slots, i: nat, n: nat)
    requires i <= n <= |r| && NoMore(cs, r, s, i)
    ensures Promotions(cs, r, s, n) == Promotions(cs, r, s, i)
    ensures SecondaryPromotions(cs, r, s, n) == SecondaryPromotions(cs, r, s, i)
    decreases n
  {
    if i < n {
      StopEarly(cs, r, s, i, n - 1);
    }
  }

  function Clamp(v: nat, lo: nat, hi: nat): nat {
    if v < lo then lo else if hi < v then hi else v
  }


  /** The promotion loop.  It stops at the first uncivilised country, as only such follow. */
  method PromoteAll(cs: seq<Country>, r: seq<nat>, s: Slots, great: seq<nat>)
    returns (after: seq<Country>, great': seq<nat>, secondary: seq<nat>)
    requires RankingOf(r, cs) && s.limit <= |r| && |great| == s.taken
    ensures Promoted(cs, after, r, s, |r|) && great' == great + Promotions(cs, r, s, |r|)
    ensures secondary == SecondaryPromotions(cs, r, s, |r|)
  {
    after, great', secondary := cs, great, [];
    var maxIndex := Clamp(s.secondaryLimit, s.limit, |r|);
    var i := 0;
    while i < maxIndex && IsCivilised(after[r[i]].status)
      invariant 0 <= i <= maxIndex && Promoted(cs, after, r, s, i)
      invariant great' == great + Promotions(cs, r, s, i) && secondary == SecondaryPromotions(cs, r, s, i)
    {
      StillCivilised(cs, after, r, s, i);
      after, great', secondary := PromoteOne(cs, after, r, s, i, great', secondary);
      AppendPromotion(cs, r, s, i, great);
      i := i + 1;
    }
    LoopEnds(cs, after, r, s, i, maxIndex);
  }

  lemma StillCivilised(cs: seq<Country>, after: seq<Country>, r: seq<nat>, s: Slots, i: nat)
    requires RankingOf(r, cs) && i < |r| && Promoted(cs, after, r, s, i)
    ensures after[r[i]] == cs[r[i]]
  {
    assert r[i] !in r[..i];
  }

  lemma AppendPromotion(cs: seq<Country>, r: seq<nat>, s: Slots, i: nat, great: seq<nat>)
    requires i < |r|
    ensures great + Promotions(cs, r, s, i) + (if BecomesGreat(cs, r, s, i) then [r[i]] else []) ==
            great + Promotions(cs, r, s, i + 1)
    ensures SecondaryPromotions(cs, r, s, i) + (if BecomesSecondary(cs, r, s, i) then [r[i]] else []) ==
            SecondaryPromotions(cs, r, s, i + 1)
  {
  }

  /** Where the loop stops, nobody further on is to be promoted. */
  lemma LoopEnds(cs: seq<Country>, after: seq<Country>, r: seq<nat>, s: Slots, i: nat, maxIndex: nat)
    requires RankingOf(r, cs) && s.limit <= |r| && maxIndex == Clamp(s.secondaryLimit, s.limit, |r|)
    requires i <= maxIndex && Promoted(cs, after, r, s, i) && (i < maxIndex ==> !IsCivilised(after[r[i]].status))
    ensures Promoted(cs, after, r, s, |r|) && Promotions(cs, r, s, |r|) == Promotions(cs, r, s, i)
    ensures SecondaryPromotions(cs, r, s, |r|) == SecondaryPromotions(cs, r, s, i)
  {
    if i < maxIndex {
      assert r[i] !in r[..i];
    }
    assert NoMore(cs, r, s, i);
    StopEarly(cs, r, s, i, |r|);
    PromotedToEnd(cs, after, r, s, i);
  }

  lemma PromotedToEnd(cs: seq<Country>, after: seq<Country>, r: seq<nat>, s: Slots, i: nat)
    requires i <= |r| && Promoted(cs, after, r, s, i) && NoMore(cs, r, s, i)
    requires (forall j, k :: 0 <= j < k < |r| ==> r[j] != r[k]) && forall k :: 0 <= k < |r| ==> r[k] < |cs|
    ensures Promoted(cs, after, r, s, |r|)
  {
    assert r[..|r|] == r;
    forall k | 0 <= k < |r| && r[k] < |cs| ensures after[r[k]] == cs[r[k]].(status := NewStatus(cs, r, s, k)) {
      if k >= i {
        assert r[k] !in r[..i];
      }
    }
    forall c | 0 <= c < |cs| && c !in r[..|r|] ensures after[c] == cs[c] {
      assert c !in r[..i];
    }
  }

  // ----- dates -----

  function RedateOne(c: Country, great: bool, limit: nat, date: int): Country {
    if great && c.totalRank <= limit then c.(loseGreatPowerDate := date) else c
  }

  /** A great power within the limit may stay one until the new date. */
  ghost predicate Redated(a: seq<Country>, great: seq<nat>, limit: nat, date: int, b: seq<Country>) {
    |b| == |a| && forall c: nat :: c < |a| ==> b[c] == RedateOne(a[c], c in great, limit, date)
  }

  method RedateAll(cs: seq<Country>, great: seq<nat>, limit: nat, date: int) returns (after: seq<Country>)
    requires forall k :: 0 <= k < |great| ==> great[k] < |cs|
    ensures Redated(cs, great, limit, date, after)
  {
    after := cs;
    var i := 0;
    while i < |great|
      invariant 0 <= i <= |great| && Redated(cs, great[..i], limit, date, after)
    {
      assert great[..i + 1] == great[..i] + [great[i]];
      var c := after[great[i]];
      if c.totalRank <= limit {
        c := c.(loseGreatPowerDate := date);
      }
      after := after[great[i] := c];
      i := i + 1;
    }
    assert great[..i] == great;
  }

  // ----- what an update amounts to -----

  /** A great power that is not demoted; a holds the new ranks and the old statuses and dates. */
  predicate Stays(a: seq<Country>, great: seq<nat>, limit: nat, today: int, c: nat) {
    c in great && Keeps(a, limit, today, c)
  }

  /** May be promoted to great power. */
  predicate Candidate(a: seq<Country>, limit: nat, c: nat) {
    c < |a| && a[c].present && IsCivilised(a[c].status) && a[c].totalRank <= limit
  }

  /** The list is exactly the great powers, in rank order. */
  ghost predicate GreatListed(t: Powers) {
    && (forall c: nat :: c in t.great <==> c < |t.countries| && t.countries[c].status == GreatPower)
    && (forall j, k :: 0 <= j < k < |t.great| ==> t.great[j] != t.great[k])
    && (forall j, k :: 0 <= j < k < |t.great| && t.great[j] < |t.countries| && t.great[k] < |t.countries| ==>
          t.countries[t.great[j]].totalRank <= t.countries[t.great[k]].totalRank)
  }

  ghost predicate SecondaryListed(t: Powers) {
    && (forall c: nat :: c in t.secondary <==> c < |t.countries| && t.countries[c].status == SecondaryPower)
    && (forall j, k ::
          0 <= j < k < |t.secondary| && t.secondary[j] < |t.countries| && t.secondary[k] < |t.countries| ==>
          t.countries[t.secondary[j]].totalRank < t.countries[t.secondary[k]].totalRank)
  }

  /** Great powers are those that stay and candidates; a candidate is passed over only if all slots
      are taken by great powers that stay or rank before it. */
  ghost predicate GreatChosen(a: seq<Country>, great: seq<nat>, today: int, d: Defines, t: Powers) {
    var limit := d.greatPowerRank;
    && (forall c: nat :: c in t.great ==> Stays(a, great, limit, today, c) || Candidate(a, limit, c))
    && (forall c: nat :: Stays(a, great, limit, today, c) ==> c in t.great)
    && (forall c: nat :: Candidate(a, limit, c) && c !in t.great ==> PassedOver(a, great, today, d, t, c))
  }

  ghost predicate PassedOver(a: seq<Country>, great: seq<nat>, today: int, d: Defines, t: Powers, c: nat)
    requires c < |a|
  {
    && |t.great| >= d.greatPowerRank
    && forall e: nat :: e in t.great && e < |a| ==>
      Stays(a, great, d.greatPowerRank, today, e) || a[e].totalRank < a[c].totalRank
  }

  /** The status and date each country ends with, given the new great powers. */
  ghost predicate StatusesFollow(a: seq<Country>, today: int, d: Defines, t: Powers) {
    |t.countries| == |a| && forall c: nat :: c < |a| ==> StatusFollows(a, today, d, t, c)
  }

  ghost predicate StatusFollows(a: seq<Country>, today: int, d: Defines, t: Powers, c: nat)
    requires c < |a| == |t.countries|
  {
    var x, y, isGreat := a[c], t.countries[c], c in t.great;
    && y == x.(status := y.status, loseGreatPowerDate := y.loseGreatPowerDate)
    && y.loseGreatPowerDate == (if isGreat && x.totalRank <= d.greatPowerRank
                                then today + d.graceDays else x.loseGreatPowerDate)
    && y.status == (if isGreat then GreatPower
                    else if x.present && IsCivilised(x.status) && x.totalRank <= d.secondaryPowerRank
                      then SecondaryPower
                    else if x.status == GreatPower || x.status == SecondaryPower then Civilised
                    else x.status)
  }

  /** One update, from the state with the new ranks. */
  ghost predicate Outcome(s: Powers, today: int, d: Defines, t: Powers) {
    && StatusesFollow(s.countries, today, d, t) && GreatChosen(s.countries, s.great, today, d, t)
    && GreatListed(t) && SecondaryListed(t) && (|s.great| <= d.greatPowerRank ==> |t.great| <= d.greatPowerRank)
  }

  /** Between updates: the lists cover the powers, but may name countries that have lost the status. */
  ghost predicate Covered(s: Powers) {
    && (forall k :: 0 <= k < |s.great| ==> s.great[k] < |s.countries|)
    && (forall k :: 0 <= k < |s.secondary| ==> s.secondary[k] < |s.countries|)
    && (forall j, k :: 0 <= j < k < |s.great| ==> s.great[j] != s.great[k])
    && (forall c: nat :: c < |s.countries| && s.countries[c].status == GreatPower ==> c in s.great)
    && (forall c: nat :: c < |s.countries| && s.countries[c].status == SecondaryPower ==> c in s.secondary)
  }

  // ----- the stages of an update -----

  ghost predicate DemotedFrom(s: Powers, limit: nat, today: int, mid: seq<Country>) {
    && |mid| == |s.countries|
    && forall c: nat :: c < |mid| ==>
      mid[c] == (if s.countries[c].status == SecondaryPower
                 || (s.countries[c].status == GreatPower && Overdue(s.countries[c], limit, today))
                 then Demoted(s.countries[c]) else s.countries[c])
  }

  method DemoteAll(s: Powers, limit: nat, today: int) returns (mid: seq<Country>, staying: seq<nat>)
    requires Covered(s)
    ensures DemotedFrom(s, limit, today, mid) && staying == Kept(s.countries, s.great, limit, today)
  {
    var half;
    half, staying := DemoteGreatPowers(s.countries, s.great, limit, today);
    mid := DemoteSecondaryPowers(half, s.secondary);
  }

  lemma DemotedRanking(s: Powers, limit: nat, today: int, mid: seq<Country>, r: seq<nat>)
    requires RankingOf(r, s.countries) && Lists(r, s.countries) && DemotedFrom(s, limit, today, mid)
    ensures RankingOf(r, mid) && Lists(r, mid)
  {
  }

  /** The great powers of the demoted state are those that stay. */
  lemma StayingAreGreat(s: Powers, limit: nat, today: int, mid: seq<Country>, c: nat)
    requires Covered(s) && DemotedFrom(s, limit, today, mid)
    ensures c in Kept(s.countries, s.great, limit, today) <==> c < |mid| && mid[c].status == GreatPower
    ensures c in Kept(s.countries, s.great, limit, today) <==> Stays(s.countries, s.great, limit, today, c)
  {
    KeptAre(s.countries, s.great, limit, today, c);
  }

  lemma {:induction false} NewGreatGrows(cs: seq<Country>, r: seq<nat>, s: Slots, i: nat, n: nat)
    requires i <= n <= |r|
    ensures NewGreat(cs, r, s, i) <= NewGreat(cs, r, s, n)
    ensures s.taken <= s.limit ==> s.taken + NewGreat(cs, r, s, n) <= s.limit
    decreases n
  {
    if i < n {
      NewGreatGrows(cs, r, s, i, n - 1);
    } else if n > 0 {
      NewGreatGrows(cs, r, s, n - 1, n - 1);
    }
  }

  /** Where a country ends up after the promotions. */
  lemma AfterPromotion(mid: seq<Country>, after: seq<Country>, r: seq<nat>, s: Slots, c: nat) returns (i: nat)
    requires RankingOf(r, mid) && Lists(r, mid) && Promoted(mid, after, r, s, |r|) && c < |mid|
    ensures mid[c].present ==>
            i < |r| && r[i] == c && mid[c].totalRank == i + 1 && after[c] == mid[c].(status := NewStatus(mid, r, s, i))
    ensures !mid[c].present ==> after[c] == mid[c]
  {
    assert r[..|r|] == r;
    if mid[c].present {
      i :| 0 <= i < |r| && r[i] == c;
    } else {
      i := 0;
      assert c !in r;
    }
  }

  /** Exactly the great powers after the promotions are on the list. */
  lemma GreatMembers(mid: seq<Country>, after: seq<Country>, r: seq<nat>, s: Slots, staying: seq<nat>, c: nat)
    requires RankingOf(r, mid) && Lists(r, mid) && Promoted(mid, after, r, s, |r|)
    requires forall x: nat :: x in staying <==> x < |mid| && mid[x].status == GreatPower
    ensures c in staying + Promotions(mid, r, s, |r|) <==> c < |mid| && after[c].status == GreatPower
    ensures c in Promotions(mid, r, s, |r|) ==> c < |mid| && mid[c].status != GreatPower
  {
    PromotionsAre(mid, r, s, |r|, c);
    if c < |mid| {
      var i := AfterPromotion(mid, after, r, s, c);
      if mid[c].present && after[c].status == GreatPower && mid[c].status != GreatPower {
        assert BecomesGreat(mid, r, s, i);
      }
    }
  }

  function RankKey(cs: seq<Country>): nat -> Key {
    (c: nat) => if c < |cs| then (cs[c].totalRank as int, 0) else (0, 0)
  }

  /** The intermediate results of an update, from the state with the new ranks and the ranking r. */
  datatype Stages = Stages(ranking: seq<nat>, staying: seq<nat>, demoted: seq<Country>, slots: Slots,
                           promoted: seq<Country>)

  ghost predicate StagesOf(s: Powers, today: int, d: Defines, x: Stages) {
    && Covered(s) && RankingOf(x.ranking, x.demoted) && Lists(x.ranking, x.demoted)
    && DemotedFrom(s, d.greatPowerRank, today, x.demoted)
      && x.staying == Kept(s.countries, s.great, d.greatPowerRank, today)
    && x.slots == Slots(d.greatPowerRank, d.secondaryPowerRank, |x.staying|)
    && Promoted(x.demoted, x.promoted, x.ranking, x.slots, |x.ranking|)
  }

  ghost predicate ListedFrom(x: Stages, great: seq<nat>) {
    && multiset(great) == multiset(x.staying + Promotions(x.demoted, x.ranking, x.slots, |x.ranking|))
    && SortedBy(great, RankKey(x.promoted))
  }

  lemma GreatAre(s: Powers, today: int, d: Defines, x: Stages, great: seq<nat>, c: nat)
    requires StagesOf(s, today, d, x) && ListedFrom(x, great)
    ensures c in great <==> c < |s.countries| && x.promoted[c].status == GreatPower
  {
    SameMembers(great, x.staying + Promotions(x.demoted, x.ranking, x.slots, |x.ranking|));
    forall e: nat ensures e in x.staying <==> e < |x.demoted| && x.demoted[e].status == GreatPower {
      StayingAreGreat(s, d.greatPowerRank, today, x.demoted, e);
    }
    GreatMembers(x.demoted, x.promoted, x.ranking, x.slots, x.staying, c);
  }

  lemma {:induction false} PromotionsDifferent(cs: seq<Country>, r: seq<nat>, s: Slots, n: nat)
    requires n <= |r| && forall j, k :: 0 <= j < k < |r| ==> r[j] != r[k]
    ensures AllDifferent(Promotions(cs, r, s, n))
  {
    if n > 0 {
      PromotionsDifferent(cs, r, s, n - 1);
      PromotionsAre(cs, r, s, n - 1, r[n - 1]);
    }
  }

  lemma ConcatDifferent(a: seq<nat>, b: seq<nat>)
    requires AllDifferent(a) && AllDifferent(b) && forall c: nat :: c in b ==> c !in a
    ensures AllDifferent(a + b)
  {
    forall i, j | 0 <= i < j < |a + b| ensures (a + b)[i] != (a + b)[j] {
      if i < |a| <= j {
        assert b[j - |a|] in b && a[i] in a;
      }
    }
  }

  lemma GreatDifferent(s: Powers, today: int, d: Defines, x: Stages, great: seq<nat>)
    requires StagesOf(s, today, d, x) && ListedFrom(x, great)
    ensures AllDifferent(great)
    ensures |great| == |x.staying| + NewGreat(x.demoted, x.ranking, x.slots, |x.ranking|)
  {
    var p := Promotions(x.demoted, x.ranking, x.slots, |x.ranking|);
    PromotionsDifferent(x.demoted, x.ranking, x.slots, |x.ranking|);
    KeptDifferent(s.countries, s.great, d.greatPowerRank, today);
    forall c: nat ensures c in x.staying <==> c < |x.demoted| && x.demoted[c].status == GreatPower {
      StayingAreGreat(s, d.greatPowerRank, today, x.demoted, c);
    }
    forall c: nat | c in p ensures c !in x.staying {
      GreatMembers(x.demoted, x.promoted, x.ranking, x.slots, x.staying, c);
    }
    ConcatDifferent(x.staying, p);
    PermutationDifferent(x.staying + p, great);
    SameMembers(great, x.staying + p);
  }

  // ----- the outcome, clause by clause -----

  /** t is made of the last stage, a great power list and the dates. */
  ghost predicate MadeFrom(s: Powers, today: int, d: Defines, x: Stages, t: Powers) {
    && StagesOf(s, today, d, x) && ListedFrom(x, t.great)
    && Redated(x.promoted, t.great, d.greatPowerRank, today + d.graceDays, t.countries)
    && t.secondary == SecondaryPromotions(x.demoted, x.ranking, x.slots, |x.ranking|)
  }

  lemma StatusOf(s: Powers, today: int, d: Defines, x: Stages, t: Powers, c: nat)
    requires MadeFrom(s, today, d, x, t) && c < |s.countries|
    ensures |t.countries| == |s.countries| && StatusFollows(s.countries, today, d, t, c)
  {
    GreatAre(s, today, d, x, t.great, c);
    var i := AfterPromotion(x.demoted, x.promoted, x.ranking, x.slots, c);
  }

  lemma GreatIsListed(s: Powers, today: int, d: Defines, x: Stages, t: Powers)
    requires MadeFrom(s, today, d, x, t)
    ensures GreatListed(t)
  {
    forall c: nat ensures c in t.great <==> c < |t.countries| && t.countries[c].status == GreatPower {
      GreatAre(s, today, d, x, t.great, c);
    }
    GreatDifferent(s, today, d, x, t.great);
    forall j, k | 0 <= j < k < |t.great| && t.great[j] < |t.countries| && t.great[k] < |t.countries|
      ensures t.countries[t.great[j]].totalRank <= t.countries[t.great[k]].totalRank
    {
      assert KeyLe(RankKey(x.promoted)(t.great[j]), RankKey(x.promoted)(t.great[k]));
    }
  }

  /** p lists countries of ranks up to n in rank order. */
  ghost predicate RankOrdered(cs: seq<Country>, p: seq<nat>, n: nat) {
    && (forall j :: 0 <= j < |p| ==> p[j] < |cs| && cs[p[j]].totalRank <= n)
    && (forall j, k :: 0 <= j < k < |p| ==> cs[p[j]].totalRank < cs[p[k]].totalRank)
  }

  lemma RankOrderedSnoc(cs: seq<Country>, p: seq<nat>, n: nat, c: nat)
    requires RankOrdered(cs, p, n) && c < |cs| && cs[c].totalRank == n + 1
    ensures RankOrdered(cs, p, n + 1) && RankOrdered(cs, p + [c], n + 1)
  {
  }

  lemma {:induction false} SecondaryInOrder(cs: seq<Country>, r: seq<nat>, s: Slots, n: nat)
    requires n <= |r| && RankingOf(r, cs)
    ensures RankOrdered(cs, SecondaryPromotions(cs, r, s, n), n)
  {
    if n > 0 {
      SecondaryInOrder(cs, r, s, n - 1);
      RankOrderedSnoc(cs, SecondaryPromotions(cs, r, s, n - 1), n - 1, r[n - 1]);
    }
  }

  lemma SecondaryMembers(mid: seq<Country>, after: seq<Country>, r: seq<nat>, s: Slots, c: nat)
    requires RankingOf(r, mid) && Lists(r, mid) && Promoted(mid, after, r, s, |r|)
    requires forall e: nat :: e < |mid| ==> mid[e].status != SecondaryPower
    ensures c in SecondaryPromotions(mid, r, s, |r|) <==> c < |mid| && after[c].status == SecondaryPower
    ensures c < |mid| ==> after[c].totalRank == mid[c].totalRank
  {
    SecondaryPromotionsAre(mid, r, s, |r|, c);
    if c < |mid| {
      var i := AfterPromotion(mid, after, r, s, c);
      if mid[c].present && after[c].status == SecondaryPower {
        assert BecomesSecondary(mid, r, s, i);
      }
    }
  }

  lemma SecondaryAre(s: Powers, today: int, d: Defines, x: Stages, t: Powers, c: nat)
    requires MadeFrom(s, today, d, x, t)
    ensures c in t.secondary <==> c < |t.countries| && t.countries[c].status == SecondaryPower
    ensures c < |t.countries| ==> t.countries[c].totalRank == x.demoted[c].totalRank
  {
    SecondaryMembers(x.demoted, x.promoted, x.ranking, x.slots, c);
  }

  lemma SecondaryIsListed(s: Powers, today: int, d: Defines, x: Stages, t: Powers)
    requires MadeFrom(s, today, d, x, t)
    ensures SecondaryListed(t)
  {
    SecondaryInOrder(x.demoted, x.ranking, x.slots, |x.ranking|);
    assert RankOrdered(x.demoted, t.secondary, |x.ranking|);
    forall c: nat
      ensures c in t.secondary <==> c < |t.countries| && t.countries[c].status == SecondaryPower
      ensures c < |t.countries| ==> t.countries[c].totalRank == x.demoted[c].totalRank
    {
      SecondaryAre(s, today, d, x, t, c);
    }
  }

  lemma GreatAreChosen(s: Powers, today: int, d: Defines, x: Stages, t: Powers, c: nat)
    requires MadeFrom(s, today, d, x, t)
    ensures c in t.great ==>
            Stays(s.countries, s.great, d.greatPowerRank, today, c) || Candidate(s.countries, d.greatPowerRank, c)
    ensures Stays(s.countries, s.great, d.greatPowerRank, today, c) ==> c in t.great
  {
    GreatAre(s, today, d, x, t.great, c);
    StayingAreGreat(s, d.greatPowerRank, today, x.demoted, c);
    if c < |s.countries| {
      var i := AfterPromotion(x.demoted, x.promoted, x.ranking, x.slots, c);
    }
  }

  /** A candidate that was not promoted met a full list. */
  lemma MetFullList(s: Powers, today: int, d: Defines, x: Stages, t: Powers, c: nat)
    requires MadeFrom(s, today, d, x, t) && Candidate(s.countries, d.greatPowerRank, c) && c !in t.great
    ensures PassedOver(s.countries, s.great, today, d, t, c)
  {
    var n := |x.ranking|;
    GreatAre(s, today, d, x, t.great, c);
    var i := AfterPromotion(x.demoted, x.promoted, x.ranking, x.slots, c);
    assert x.slots.taken + NewGreat(x.demoted, x.ranking, x.slots, i) >= x.slots.limit;
    GreatDifferent(s, today, d, x, t.great);
    NewGreatGrows(x.demoted, x.ranking, x.slots, i, n);
    forall e: nat | e in t.great && e < |s.countries|
      ensures Stays(s.countries, s.great, d.greatPowerRank, today, e)
              || s.countries[e].totalRank < s.countries[c].totalRank
    {
      PromotedBefore(s, today, d, x, t.great, i, e);
    }
  }

  /** Once the list is full nobody else is promoted. */
  lemma PromotedBefore(s: Powers, today: int, d: Defines, x: Stages, great: seq<nat>, i: nat, e: nat)
    requires StagesOf(s, today, d, x) && ListedFrom(x, great) && e in great && e < |s.countries| && i < |x.ranking|
    requires x.slots.taken + NewGreat(x.demoted, x.ranking, x.slots, i) >= x.slots.limit
    ensures Stays(s.countries, s.great, d.greatPowerRank, today, e) || s.countries[e].totalRank <= i
  {
    GreatAre(s, today, d, x, great, e);
    StayingAreGreat(s, d.greatPowerRank, today, x.demoted, e);
    var k := AfterPromotion(x.demoted, x.promoted, x.ranking, x.slots, e);
    if x.demoted[e].status != GreatPower && k >= i {
      NewGreatGrows(x.demoted, x.ranking, x.slots, i, k);
    }
  }

  lemma OutcomeOf(s: Powers, today: int, d: Defines, x: Stages, t: Powers)
    requires MadeFrom(s, today, d, x, t)
    ensures Outcome(s, today, d, t)
  {
    forall c: nat | c < |s.countries| ensures StatusFollows(s.countries, today, d, t, c) {
      StatusOf(s, today, d, x, t, c);
    }
    GreatIsListed(s, today, d, x, t);
    SecondaryIsListed(s, today, d, x, t);
    forall c: nat
      ensures c in t.great ==>
              Stays(s.countries, s.great, d.greatPowerRank, today, c) || Candidate(s.countries, d.greatPowerRank, c)
      ensures Stays(s.countries, s.great, d.greatPowerRank, today, c) ==> c in t.great
    {
      GreatAreChosen(s, today, d, x, t, c);
    }
    forall c: nat | Candidate(s.countries, d.greatPowerRank, c) && c !in t.great
      ensures PassedOver(s.countries, s.great, today, d, t, c)
    {
      MetFullList(s, today, d, x, t, c);
    }
    GreatDifferent(s, today, d, x, t.great);
    NewGreatGrows(x.demoted, x.ranking, x.slots, 0, |x.ranking|);
  }

  // ----- the update -----

  /** Everything after the ranks.  The clamp of the power index needs as many existing countries
      as there are great power ranks. */
  lemma GreatInRange(s: Powers, today: int, d: Defines, x: Stages, great: seq<nat>)
    requires StagesOf(s, today, d, x) && ListedFrom(x, great)
    ensures forall k :: 0 <= k < |great| ==> great[k] < |x.promoted|
  {
    forall k | 0 <= k < |great| ensures great[k] < |x.promoted| {
      assert great[k] in great;
      GreatAre(s, today, d, x, great, great[k]);
    }
  }

  /** The end of the update: the great powers sorted by rank, and redated. */
  method SortAndRedate(s: Powers, today: int, d: Defines, promoted: seq<Country>, all: seq<nat>, ghost x: Stages)
    returns (great: seq<nat>, dated: seq<Country>)
    requires StagesOf(s, today, d, x) && promoted == x.promoted
    requires all == x.staying + Promotions(x.demoted, x.ranking, x.slots, |x.ranking|)
    ensures ListedFrom(x, great) && Redated(x.promoted, great, d.greatPowerRank, today + d.graceDays, dated)
  {
    great := StableSort(all, RankKey(promoted));
    GreatInRange(s, today, d, x, great);
    dated := RedateAll(promoted, great, d.greatPowerRank, today + d.graceDays);
  }

  method UpdatePowers(s: Powers, r: seq<nat>, today: int, d: Defines) returns (t: Powers)
    requires Covered(s) && RankingOf(r, s.countries) && Lists(r, s.countries) && d.greatPowerRank <= |r|
    ensures Outcome(s, today, d, t)
  {
    var mid, staying := DemoteAll(s, d.greatPowerRank, today);
    DemotedRanking(s, d.greatPowerRank, today, mid, r);
    var slots := Slots(d.greatPowerRank, d.secondaryPowerRank, |staying|);
    var promoted, all, secondary := PromoteAll(mid, r, slots, staying);
    ghost var x := Stages(r, staying, mid, slots, promoted);
    var great, dated := SortAndRedate(s, today, d, promoted, all, x);
    t := Powers(dated, great, secondary);
    OutcomeOf(s, today, d, x, t);
  }

  /** The whole update: some state with exactly the new ranks leads to the outcome. */
  ghost predicate Updated(s: Powers, today: int, d: Defines, ranked: seq<Country>, t: Powers) {
    AllRanked(s.countries, ranked) && Outcome(s.(countries := ranked), today, d, t)
  }

  lemma RankedCovered(s: Powers, ranked: seq<Country>)
    requires Covered(s) && SameButRanks(s.countries, ranked)
    ensures Covered(s.(countries := ranked))
  {
    forall c: nat | c < |ranked| ensures ranked[c].status == s.countries[c].status {
      assert ranked[c] == s.countries[c].(totalRank := ranked[c].totalRank, prestigeRank := ranked[c].prestigeRank,
                                          industrialRank := ranked[c].industrialRank,
                                          militaryRank := ranked[c].militaryRank);
    }
  }

  /** The ranks, in the form in which the rest of the update needs them. */
  method RankCountries(s: Powers)
    returns (ranked: seq<Country>, total: seq<nat>, prestige: seq<nat>, industrial: seq<nat>, military: seq<nat>)
    requires Covered(s)
    ensures AllRanked(s.countries, ranked) && RanksCompare(s.countries, ranked)
    ensures RankingsStored(s.countries, ranked, total, prestige, industrial, military)
    ensures Covered(s.(countries := ranked)) && RankingOf(total, ranked) && Lists(total, ranked)
    ensures |total| == |Existing(s.countries)|
  {
    ranked, total, prestige, industrial, military := ComputeRanks(s.countries);
    RankedRanking(s.countries, ranked, total);
    RankedCovered(s, ranked);
  }

  class CountryInstanceManager {
    var powers: Powers
    var totalRanking: seq<nat>
    var prestigeRanking: seq<nat>
    var industrialPowerRanking: seq<nat>
    var militaryPowerRanking: seq<nat>
    const defines: Defines

    constructor (countries: seq<Country>, defines: Defines)
      ensures powers == Powers(countries, [], []) && this.defines == defines
    {
      powers, this.defines := Powers(countries, [], []), defines;
      totalRanking, prestigeRanking, industrialPowerRanking, militaryPowerRanking := [], [], [], [];
    }

    method UpdateRankings(today: int) returns (ghost ranked: seq<Country>)
      requires Covered(powers) && defines.greatPowerRank <= |Existing(powers.countries)|
      modifies this
      ensures Updated(old(powers), today, defines, ranked, powers)
      ensures RanksCompare(old(powers).countries, ranked)
      ensures RankingsStored(old(powers).countries, ranked, totalRanking, prestigeRanking, industrialPowerRanking,
                             militaryPowerRanking)
    {
      var now, t, p, i, m := RankCountries(powers);
      ranked := now;
      totalRanking, prestigeRanking, industrialPowerRanking, militaryPowerRanking := t, p, i, m;
      powers := UpdatePowers(powers.(countries := now), t, today, defines);
    }
  }

  // ----- runs -----

  /** What the rest of the game may do between updates: change scores, let countries come and go,
      and take a status away, but neither grant one of the two nor touch lists and dates. */
  ghost predicate Drift(t: Powers, s: Powers) {
    && |s.countries| == |t.countries| && s.great == t.great && s.secondary == t.secondary
    && forall c: nat :: c < |s.countries| ==> DriftOne(t.countries[c], s.countries[c])
  }

  predicate DriftOne(x: Country, y: Country) {
    && y.loseGreatPowerDate == x.loseGreatPowerDate
    && (y.status == x.status || (y.status != GreatPower && y.status != SecondaryPower))
  }

  /** An update, with the state it starts from, the new ranks, and the state it leaves. */
  datatype Day = Day(today: int, before: Powers, ranked: seq<Country>, after: Powers)

  ghost function Yesterday(start: Powers, days: seq<Day>, k: nat): Powers
    requires k < |days|
  {
    if k == 0 then start else days[k - 1].after
  }

  /** Day k goes on from what the day before left. */
  ghost predicate Follows(start: Powers, d: Defines, days: seq<Day>, k: nat)
    requires k < |days|
  {
    && Drift(Yesterday(start, days, k), days[k].before)
    && Updated(days[k].before, days[k].today, d, days[k].ranked, days[k].after)
  }

  ghost predicate IsHistory(start: Powers, d: Defines, days: seq<Day>) {
    && (forall k: nat :: k < |days| ==> Follows(start, d, days, k))
    && (forall j, k :: 0 <= j < k < |days| ==> days[j].today <= days[k].today)
  }

  lemma DriftCovered(t: Powers, s: Powers)
    requires GreatListed(t) && SecondaryListed(t) && Drift(t, s)
    ensures Covered(s)
  {
    forall c: nat | c < |s.countries| ensures DriftOne(t.countries[c], s.countries[c]) {
    }
    forall k | 0 <= k < |s.great| ensures s.great[k] < |s.countries| {
      assert s.great[k] in t.great;
    }
    forall k | 0 <= k < |s.secondary| ensures s.secondary[k] < |s.countries| {
      assert s.secondary[k] in t.secondary;
    }
  }

  lemma ListsAfter(s: Powers, today: int, d: Defines, ranked: seq<Country>, t: Powers)
    requires Updated(s, today, d, ranked, t)
    ensures GreatListed(t) && SecondaryListed(t) && (|s.great| <= d.greatPowerRank ==> |t.great| <= d.greatPowerRank)
  {
  }

  /** What the induction over a run carries. */
  ghost predicate ExactAfter(d: Defines, day: Day) {
    Covered(day.before) && GreatListed(day.after) && SecondaryListed(day.after) && |day.after.great| <= d.greatPowerRank
  }

  lemma FirstDay(start: Powers, d: Defines, days: seq<Day>)
    requires days != [] && Follows(start, d, days, 0) && Covered(days[0].before) && |start.great| <= d.greatPowerRank
    ensures ExactAfter(d, days[0])
  {
    ListsAfter(days[0].before, days[0].today, d, days[0].ranked, days[0].after);
  }

  lemma NextDay(start: Powers, d: Defines, days: seq<Day>, k: nat)
    requires 0 < k < |days| && Follows(start, d, days, k) && ExactAfter(d, days[k - 1])
    ensures ExactAfter(d, days[k])
  {
    DriftCovered(days[k - 1].after, days[k].before);
    ListsAfter(days[k].before, days[k].today, d, days[k].ranked, days[k].after);
  }

  /** In every run, after every update, the two lists hold exactly the countries with those statuses
      in rank order, and there are no more great powers than slots. */
  lemma {:induction false} ListsExact(start: Powers, d: Defines, days: seq<Day>, k: nat)
    requires IsHistory(start, d, days) && k < |days| && Covered(days[0].before) && |start.great| <= d.greatPowerRank
    ensures ExactAfter(d, days[k])
  {
    if k == 0 {
      FirstDay(start, d, days);
    } else {
      ListsExact(start, d, days, k - 1);
      NextDay(start, d, days, k);
    }
  }

  /** Of two existing civilised countries within the limit, one that is passed over scores no better
      than one that is newly made a great power, and at equal scores has the higher index. */
  lemma NewcomersScoreBetter(s: Powers, today: int, d: Defines, ranked: seq<Country>, t: Powers, c: nat, e: nat)
    requires Covered(s) && Updated(s, today, d, ranked, t) && c < |s.countries| && e < |s.countries|
             && |ranked| == |s.countries|
    requires s.countries[c].present && !Uncivil(s.countries[c].status) && ranked[c].totalRank <= d.greatPowerRank
    requires s.countries[e].status != GreatPower && e in t.great && c !in t.great
    ensures s.countries[e].present && !Uncivil(s.countries[e].status) && ranked[e].totalRank < ranked[c].totalRank
    ensures Ahead(s.countries[e].totalScore, s.countries[c].totalScore, e, c)
  {
    RanksByFields(s.countries, ranked);
    SameStatus(s.countries, ranked, c);
    SameStatus(s.countries, ranked, e);
    assert Candidate(ranked, d.greatPowerRank, c) && PassedOver(ranked, s.great, today, d, t, c);
    assert Candidate(ranked, d.greatPowerRank, e);
    assert PairRanked(s.countries, ranked, e, c);
  }

  lemma SameStatus(a: seq<Country>, b: seq<Country>, c: nat)
    requires SameButRanks(a, b) && c < |a|
    ensures b[c].status == a[c].status && b[c].present == a[c].present
  {
    assert b[c] == a[c].(totalRank := b[c].totalRank, prestigeRank := b[c].prestigeRank,
                         industrialRank := b[c].industrialRank, militaryRank := b[c].militaryRank);
  }

  /** A great power loses its status in an update exactly if it is ranked below the limit and its
      grace period is over. */
  lemma DemotedExactly(s: Powers, today: int, d: Defines, ranked: seq<Country>, t: Powers, c: nat)
    requires Covered(s) && Updated(s, today, d, ranked, t) && c < |s.countries| && s.countries[c].status == GreatPower
    ensures |ranked| == |t.countries| == |s.countries|
    ensures t.countries[c].status != GreatPower <==>
            ranked[c].totalRank > d.greatPowerRank && s.countries[c].loseGreatPowerDate < today
  {
    RankedCovered(s, ranked);
    assert ranked[c] == s.countries[c].(totalRank := ranked[c].totalRank, prestigeRank := ranked[c].prestigeRank,
                                        industrialRank := ranked[c].industrialRank,
                                        militaryRank := ranked[c].militaryRank);
    assert StatusFollows(ranked, today, d, t, c);
    assert Stays(ranked, s.great, d.greatPowerRank, today, c) <==> !Overdue(ranked[c], d.greatPowerRank, today);
    assert c in t.great ==>
      Stays(ranked, s.great, d.greatPowerRank, today, c) || Candidate(ranked, d.greatPowerRank, c);
  }

  /** Great power c on day i is within the limit, and on the days up to j nothing else takes its status. */
  ghost predicate UndisturbedGrace(d: Defines, days: seq<Day>, i: nat, j: nat, c: nat)
    requires i <= j < |days| && c < |days[i].after.countries|
  {
    && days[i].after.countries[c].status == GreatPower && days[i].after.countries[c].totalRank <= d.greatPowerRank
    && forall k :: i < k <= j ==>
         days[k].today <= days[i].today + d.graceDays
         && c < |days[k].before.countries| && days[k].before.countries[c].status == GreatPower
  }

  /** A great power within the limit at one update is not demoted by any update in the grace days
      after it, whatever its rank does. */
  lemma {:induction false} GraceHolds(start: Powers, d: Defines, days: seq<Day>, i: nat, j: nat, c: nat)
    requires IsHistory(start, d, days) && i <= j < |days| && Covered(days[0].before)
             && |start.great| <= d.greatPowerRank
    requires c < |days[i].after.countries| && UndisturbedGrace(d, days, i, j, c)
    ensures c < |days[j].after.countries| && days[j].after.countries[c].status == GreatPower
    ensures days[j].after.countries[c].loseGreatPowerDate >= days[i].today + d.graceDays
    decreases j
  {
    ListsExact(start, d, days, j);
    if i == j {
      GraceStarts(start, d, days, i, c);
    } else {
      GraceHolds(start, d, days, i, j - 1, c);
      GraceGoesOn(start, d, days, j, days[i].today + d.graceDays, c);
    }
  }

  lemma GraceStarts(start: Powers, d: Defines, days: seq<Day>, i: nat, c: nat)
    requires i < |days| && Follows(start, d, days, i) && c < |days[i].after.countries|
    requires days[i].after.countries[c].status == GreatPower && days[i].after.countries[c].totalRank <= d.greatPowerRank
    ensures days[i].after.countries[c].loseGreatPowerDate == days[i].today + d.graceDays
  {
    WithinLimitRenewed(days[i].before, days[i].today, d, days[i].ranked, days[i].after, c);
  }

  lemma GraceGoesOn(start: Powers, d: Defines, days: seq<Day>, j: nat, end: int, c: nat)
    requires 0 < j < |days| && Follows(start, d, days, j) && ExactAfter(d, days[j])
             && end <= days[j].today + d.graceDays
    requires c < |days[j - 1].after.countries|
             && days[j - 1].after.countries[c].loseGreatPowerDate >= end >= days[j].today
    requires c < |days[j].before.countries| && days[j].before.countries[c].status == GreatPower
    ensures c < |days[j].after.countries| && days[j].after.countries[c].status == GreatPower
    ensures days[j].after.countries[c].loseGreatPowerDate >= end
  {
    GraceDay(days[j - 1].after, days[j], d, end, c);
  }

  lemma WithinLimitRenewed(s: Powers, today: int, d: Defines, ranked: seq<Country>, t: Powers, c: nat)
    requires Updated(s, today, d, ranked, t) && c < |t.countries|
    requires t.countries[c].status == GreatPower && t.countries[c].totalRank <= d.greatPowerRank
    ensures t.countries[c].loseGreatPowerDate == today + d.graceDays
  {
    assert StatusFollows(ranked, today, d, t, c);
  }

  /** One more day within the grace period. */
  lemma GraceDay(yesterday: Powers, day: Day, d: Defines, end: int, c: nat)
    requires Drift(yesterday, day.before) && Updated(day.before, day.today, d, day.ranked, day.after)
             && Covered(day.before)
    requires c < |yesterday.countries| && yesterday.countries[c].loseGreatPowerDate >= end >= day.today
    requires c < |day.before.countries| && day.before.countries[c].status == GreatPower
    ensures c < |day.after.countries| && day.after.countries[c].status == GreatPower
    ensures day.after.countries[c].loseGreatPowerDate >= end
            || day.after.countries[c].loseGreatPowerDate == day.today + d.graceDays
  {
    assert DriftOne(yesterday.countries[c], day.before.countries[c]);
    DemotedExactly(day.before, day.today, d, day.ranked, day.after, c);
    DatesMove(day.before, day.today, d, day.ranked, day.after, c);
  }

  /** The date only moves to the end of a grace period that starts now. */
  lemma DatesMove(s: Powers, today: int, d: Defines, ranked: seq<Country>, t: Powers, c: nat)
    requires Updated(s, today, d, ranked, t) && c < |s.countries|
    ensures |t.countries| == |s.countries|
    ensures t.countries[c].loseGreatPowerDate == s.countries[c].loseGreatPowerDate
            || t.countries[c].loseGreatPowerDate == today + d.graceDays
  {
    assert ranked[c] == s.countries[c].(totalRank := ranked[c].totalRank, prestigeRank := ranked[c].prestigeRank,
                                        industrialRank := ranked[c].industrialRank,
                                        militaryRank := ranked[c].militaryRank);
    assert StatusFollows(ranked, today, d, t, c);
  }

  /** A great power that has ceased to exist keeps its last rank, so one that was within the limit
      is never demoted: every update renews its date, and it keeps its slot. */
  lemma ExtinctGreatPowerStays(s: Powers, today: int, d: Defines, ranked: seq<Country>, t: Powers, c: nat)
    requires Covered(s) && Updated(s, today, d, ranked, t) && c < |s.countries| && s.countries[c].status == GreatPower
    requires !s.countries[c].present && s.countries[c].totalRank <= d.greatPowerRank
    ensures |t.countries| == |s.countries| && c in t.great
    ensures t.countries[c] == s.countries[c].(loseGreatPowerDate := today + d.graceDays)
  {
    DemotedExactly(s, today, d, ranked, t, c);
    assert ranked[c] == s.countries[c];
    assert StatusFollows(ranked, today, d, t, c);
  }
}
