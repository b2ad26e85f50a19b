/** How a country divides its funds among the goods it wants to stockpile.  Amounts are raw
    fixed-point values (16 fraction bits) in unbounded integers. */
module Stockpile {

  /** A good to buy: the most it may cost, its weight, and the lowest price it may fetch next. */
  datatype Good = Good(cap: int, weight: int, minPrice: int)

  predicate Sensible(g: Good) {
    g.cap > 0 && g.weight >= 0 && g.minPrice > 0
  }

  predicate AllSensible(goods: seq<Good>) {
    forall i :: 0 <= i < |goods| ==> Sensible(goods[i])
  }

  // ----- sums -----

  function Sum(s: seq<int>): int {
    if s == [] then 0 else Sum(s[..|s| - 1]) + s[|s| - 1]
  }

  lemma {:induction false} SumUpdate(s: seq<int>, i: nat, x: int)
    requires i < |s|
    ensures Sum(s[i := x]) == Sum(s) - s[i] + x
  {
    var n := |s| - 1;
    if i < n {
      SumUpdate(s[..n], i, x);
      assert s[i := x][..n] == s[..n][i := x];
    } else {
      assert s[i := x][..n] == s[..n];
    }
  }

  lemma {:induction false} SumNonNegative(s: seq<int>)
    requires forall i :: 0 <= i < |s| ==> s[i] >= 0
    ensures Sum(s) >= 0 && forall i :: 0 <= i < |s| ==> s[i] <= Sum(s)
  {
    if s != [] {
      SumNonNegative(s[..|s| - 1]);
      forall i | 0 <= i < |s| ensures s[i] <= Sum(s) {
        assert i < |s| - 1 ==> s[i] == s[..|s| - 1][i];
      }
    }
  }

  lemma {:induction false} SumZero(s: seq<int>)
    requires (forall i :: 0 <= i < |s| ==> s[i] >= 0) && Sum(s) <= 0
    ensures forall i :: 0 <= i < |s| ==> s[i] == 0
  {
    SumNonNegative(s);
  }

  lemma {:induction false} SumMonotone(s: seq<int>, t: seq<int>)
    requires |s| == |t| && forall i :: 0 <= i < |s| ==> s[i] <= t[i]
    ensures Sum(s) <= Sum(t)
    ensures (exists i :: 0 <= i < |s| && s[i] < t[i]) ==> Sum(s) < Sum(t)
  {
    if s != [] {
      var n := |s| - 1;
      SumMonotone(s[..n], t[..n]);
      if i :| 0 <= i < |s| && s[i] < t[i] && i < n {
        assert s[..n][i] < t[..n][i];
      }
    }
  }

  lemma {:induction false} SumScale(s: seq<int>, t: seq<int>, c: int)
    requires |s| == |t| && forall i :: 0 <= i < |s| ==> t[i] == c * s[i]
    ensures Sum(t) == c * Sum(s)
  {
    if s != [] {
      var n := |s| - 1;
      SumScale(s[..n], t[..n], c);
      assert c * (Sum(s[..n]) + s[n]) == c * Sum(s[..n]) + c * s[n];
    }
  }

  lemma {:induction false} SumAdd(s: seq<int>, t: seq<int>, u: seq<int>)
    requires |s| == |t| == |u| && forall i :: 0 <= i < |s| ==> u[i] == s[i] + t[i]
    ensures Sum(u) == Sum(s) + Sum(t)
  {
    if s != [] {
      SumAdd(s[..|s| - 1], t[..|s| - 1], u[..|s| - 1]);
    }
  }

  // ----- settled and open goods -----

  /** Weights of the goods that still want more; the others count zero. */
  function OpenWeights(goods: seq<Good>, open_: seq<bool>): (ws: seq<int>)
    requires |open_| == |goods|
    ensures |ws| == |goods|
  {
    seq(|goods|, i requires 0 <= i < |goods| => if open_[i] then goods[i].weight else 0)
  }

  function SettledCaps(goods: seq<Good>, open_: seq<bool>): (cs: seq<int>)
    requires |open_| == |goods|
    ensures |cs| == |goods|
  {
    seq(|goods|, i requires 0 <= i < |goods| => if open_[i] then 0 else goods[i].cap)
  }

  /** What a share buys less than the smallest quantity of is not spent at all. */
  function Spend(g: Good, share: int): int
    requires g.minPrice > 0
  {
    if share * 65536 / g.minPrice < 1 then 0 else share
  }

  function Share(g: Good, cash: int, total: int): int
    requires total > 0
  {
    cash * g.weight / total
  }

  /** The water level cash / total: settled goods fit below it, open ones stick out. */
  ghost predicate Level(goods: seq<Good>, open_: seq<bool>, cash: int, total: int)
    requires |open_| == |goods|
  {
    && cash >= 0 && total == Sum(OpenWeights(goods, open_))
    && (forall i :: 0 <= i < |goods| && !open_[i] ==> goods[i].cap * total <= cash * goods[i].weight)
  }

  /** The outcome, by cases: everybody settled who could be, or a level that the open goods do not
      reach, shared out in proportion to weight and rounded down. */
  ghost predicate Divided(goods: seq<Good>, funds: int, open_: seq<bool>, money: seq<int>)
    requires AllSensible(goods) && |open_| == |goods| == |money|
  {
    var cash, total := funds - Sum(SettledCaps(goods, open_)), Sum(OpenWeights(goods, open_));
    && Level(goods, open_, cash, total)
    && forall i :: 0 <= i < |goods| ==>
      if !open_[i] then goods[i].weight > 0 && money[i] == goods[i].cap
      else if total <= 0 then goods[i].weight == 0 && money[i] == 0
      else cash * goods[i].weight < goods[i].cap * total && money[i] == Spend(goods[i], Share(goods[i], cash, total))
  }

  lemma ShareReaches(g: Good, cash: int, total: int)
    requires total > 0
    ensures Share(g, cash, total) >= g.cap <==> cash * g.weight >= g.cap * total
  {
    var x := cash * g.weight;
    var q := x / total;
    assert x == q * total + x % total;
    if q >= g.cap {
      assert q * total >= g.cap * total;
    } else {
      assert (q + 1) * total <= g.cap * total;
    }
  }

  /** Settling a good raises the level, so that what fitted below it still does. */
  lemma LevelRises(cap: int, weight: int, cash: int, total: int, goodCap: int, goodWeight: int)
    requires 0 <= goodWeight <= total && total > 0 && weight >= 0
    requires cap * total <= cash * weight && goodCap * total <= cash * goodWeight
    ensures cap * (total - goodWeight) <= (cash - goodCap) * weight
  {
    var rest := total - goodWeight;
    assert cap * total * rest <= cash * weight * rest by {
      MulMono(cap * total, cash * weight, rest);
    }
    assert cash * rest <= (cash - goodCap) * total by {
      assert cash * rest == cash * total - cash * goodWeight;
      assert (cash - goodCap) * total == cash * total - goodCap * total;
    }
    assert cash * rest * weight <= (cash - goodCap) * total * weight by {
      MulMono(cash * rest, (cash - goodCap) * total, weight);
    }
    assert (cap * rest) * total <= ((cash - goodCap) * weight) * total by {
      assert cap * total * rest == (cap * rest) * total;
      assert cash * weight * rest == cash * rest * weight;
      assert (cash - goodCap) * total * weight == ((cash - goodCap) * weight) * total;
    }
    MulCancel(cap * rest, (cash - goodCap) * weight, total);
  }

  lemma MulMono(a: int, b: int, c: int)
    requires a <= b && c >= 0
    ensures a * c <= b * c
  {
  }

  lemma MulStrict(a: int, b: int, c: int)
    requires a < b && c > 0
    ensures a * c < b * c
  {
  }

  lemma MulCancel(a: int, b: int, c: int)
    requires a * c <= b * c && c > 0
    ensures a <= b
  {
    if b < a {
      MulStrict(b, a, c);
    }
  }

  lemma SettleSums(goods: seq<Good>, open_: seq<bool>, i: nat)
    requires AllSensible(goods) && |open_| == |goods| && i < |goods| && open_[i]
    ensures var after := open_[i := false];
            && Sum(OpenWeights(goods, after)) == Sum(OpenWeights(goods, open_)) - goods[i].weight
            && Sum(SettledCaps(goods, after)) == Sum(SettledCaps(goods, open_)) + goods[i].cap
            && goods[i].weight <= Sum(OpenWeights(goods, open_))
  {
    var after := open_[i := false];
    assert OpenWeights(goods, after) == OpenWeights(goods, open_)[i := 0];
    SumUpdate(OpenWeights(goods, open_), i, 0);
    assert SettledCaps(goods, after) == SettledCaps(goods, open_)[i := goods[i].cap];
    SumUpdate(SettledCaps(goods, open_), i, goods[i].cap);
    SumNonNegative(OpenWeights(goods, open_));
    assert goods[i].weight == OpenWeights(goods, open_)[i];
  }

  lemma CashSuffices(cap: int, weight: int, cash: int, total: int)
    requires 0 <= weight <= total && total > 0 && cash >= 0 && cap * total <= cash * weight
    ensures cap <= cash
  {
    MulMono(weight, total, cash);
    MulCancel(cap, cash, total);
  }

  /** What settling good i does to the books. */
  lemma SettleOne(goods: seq<Good>, open_: seq<bool>, cash: int, total: int, i: nat)
    requires AllSensible(goods) && |open_| == |goods| && Level(goods, open_, cash, total)
    requires i < |goods| && open_[i] && total > 0 && goods[i].cap * total <= cash * goods[i].weight
    ensures var after := open_[i := false];
            && Level(goods, after, cash - goods[i].cap, total - goods[i].weight)
            && Sum(SettledCaps(goods, after)) == Sum(SettledCaps(goods, open_)) + goods[i].cap
  {
    var after := open_[i := false];
    var g := goods[i];
    SettleSums(goods, open_, i);
    CashSuffices(g.cap, g.weight, cash, total);
    forall j | 0 <= j < |goods| && !after[j]
      ensures goods[j].cap * (total - g.weight) <= (cash - g.cap) * goods[j].weight
    {
      LevelRises(goods[j].cap, goods[j].weight, cash, total, g.cap, g.weight);
    }
  }

  // ----- the redistribution loop -----

  /** The goods of one pass up to i, whose provisional money is for the current level. */
  ghost predicate PassDone(goods: seq<Good>, open_: seq<bool>, money: seq<int>, cash: int, total: int, i: nat)
    requires AllSensible(goods) && |open_| == |goods| == |money| && i <= |goods| && total > 0
  {
    forall j :: 0 <= j < i && open_[j] ==>
      cash * goods[j].weight < goods[j].cap * total && money[j] == Spend(goods[j], Share(goods[j], cash, total))
  }

  ghost predicate CapsPaid(goods: seq<Good>, open_: seq<bool>, money: seq<int>)
    requires |open_| == |goods| == |money|
  {
    forall j :: 0 <= j < |goods| && !open_[j] ==> money[j] == goods[j].cap
  }

  /** Goods of weight zero never get anything. */
  ghost predicate WeightlessUnpaid(goods: seq<Good>, open_: seq<bool>, money: seq<int>)
    requires |open_| == |goods| == |money|
  {
    forall j :: 0 <= j < |goods| && goods[j].weight == 0 ==> open_[j] && money[j] == 0
  }

  function OpenCount(open_: seq<bool>): nat {
    if open_ == [] then 0 else OpenCount(open_[..|open_| - 1]) + if open_[|open_| - 1] then 1 else 0
  }

  lemma {:induction false} OpenCountDrops(open_: seq<bool>, i: nat)
    requires i < |open_| && open_[i]
    ensures OpenCount(open_[i := false]) == OpenCount(open_) - 1
  {
    var n := |open_| - 1;
    if i < n {
      OpenCountDrops(open_[..n], i);
      assert open_[i := false][..n] == open_[..n][i := false];
    } else {
      assert open_[i := false][..n] == open_[..n];
    }
  }

  /** What one good is given at the current level, and whether that settles it. */
  method ShareOut(g: Good, cash: int, total: int) returns (reached: bool, spend: int)
    requires Sensible(g) && total > 0 && cash >= 0
    ensures reached <==> g.cap * total <= cash * g.weight
    ensures spend == if reached then g.cap else Spend(g, Share(g, cash, total))
    ensures g.weight == 0 ==> !reached && spend == 0
  {
    var share := cash * g.weight / total;
    ShareReaches(g, cash, total);
    SpendBounds(g, cash, total);
    if share >= g.cap {
      return true, g.cap;
    }
    reached := false;
    spend := if share * 65536 / g.minPrice < 1 then 0 else share;
  }

  /** One pass over the goods: stops at the first one whose share reaches its cap. */
  method Pass(goods: seq<Good>, wantsMore: array<bool>, money: array<int>, cash: int, total: int)
    returns (settled: bool, at: nat)
    requires AllSensible(goods) && wantsMore.Length == money.Length == |goods| && total > 0
    requires Level(goods, wantsMore[..], cash, total) && CapsPaid(goods, wantsMore[..], money[..])
    requires WeightlessUnpaid(goods, wantsMore[..], money[..])
    modifies wantsMore, money
    ensures settled ==> at < |goods| && old(wantsMore[at]) && wantsMore[..] == old(wantsMore[..])[at := false]
    ensures settled ==> goods[at].cap * total <= cash * goods[at].weight
    ensures !settled ==>
            wantsMore[..] == old(wantsMore[..]) && PassDone(goods, wantsMore[..], money[..], cash, total, |goods|)
    ensures CapsPaid(goods, wantsMore[..], money[..]) && WeightlessUnpaid(goods, wantsMore[..], money[..])
  {
    at := 0;
    while at < |goods|
      invariant 0 <= at <= |goods| && wantsMore[..] == old(wantsMore[..])
      invariant PassDone(goods, wantsMore[..], money[..], cash, total, at)
      invariant CapsPaid(goods, wantsMore[..], money[..]) && WeightlessUnpaid(goods, wantsMore[..], money[..])
    {
      if wantsMore[at] {
        var reached, spend := ShareOut(goods[at], cash, total);
        money[at] := spend;
        if reached {
          wantsMore[at] := false;
          return true, at;
        }
      }
      at := at + 1;
    }
    settled := false;
  }

  /** One round of the redistribution: a pass, and the books after it. */
  method SettleOrShare(goods: seq<Good>, wantsMore: array<bool>, money: array<int>, ghost funds: int, cash: int,
                       total: int,
                       ghost open_: seq<bool>)
    returns (cashLeft: int, totalLeft: int, again: bool, ghost stillOpen: seq<bool>)
    requires AllSensible(goods) && wantsMore.Length == money.Length == |goods| && total > 0 && wantsMore[..] == open_
    requires Books(goods, open_, money[..], funds, cash, total)
    modifies wantsMore, money
    ensures |stillOpen| == |goods| && wantsMore[..] == stillOpen
    ensures Books(goods, stillOpen, money[..], funds, cashLeft, totalLeft)
    ensures again ==> totalLeft > 0 && OpenCount(stillOpen) < OpenCount(open_)
    ensures !again ==> OpenCount(stillOpen) <= OpenCount(open_)
    ensures !again && totalLeft > 0 ==> PassDone(goods, stillOpen, money[..], cashLeft, totalLeft, |goods|)
  {
    var settled, at := Pass(goods, wantsMore, money, cash, total);
    cashLeft, totalLeft, again, stillOpen := cash, total, false, wantsMore[..];
    if settled {
      SettledBooks(goods, open_, money[..], funds, cash, total, at);
      cashLeft := cash - goods[at].cap;
      totalLeft := total - goods[at].weight;
      again := totalLeft > 0;
    }
  }

  /** The money of a good that did not reach its cap: the whole part q of cash * weight / total, if that
      buys at least the smallest quantity, 1 / 65536, at the lowest price, and otherwise nothing. */
  ghost predicate SharePaid(g: Good, cash: int, total: int, money: int) {
    exists q: int ::
      q * total <= cash * g.weight < (q + 1) * total && money == if q * 65536 >= g.minPrice then q else 0
  }

  lemma SpendIsShare(g: Good, cash: int, total: int)
    requires Sensible(g) && total > 0
    ensures SharePaid(g, cash, total, Spend(g, Share(g, cash, total)))
  {
    var x, q := cash * g.weight, Share(g, cash, total);
    assert x == q * total + x % total;
    var y := q * 65536;
    assert y == (y / g.minPrice) * g.minPrice + y % g.minPrice;
    Quotient(y, g.minPrice);
    assert q * total <= x < (q + 1) * total;
  }

  lemma Quotient(y: int, p: int)
    requires p > 0
    ensures y / p < 1 <==> y < p
  {
    var q := y / p;
    assert y == q * p + y % p;
    if q >= 1 {
      MulMono(1, q, p);
    } else {
      MulMono(q, 0, p);
    }
  }

  /** Every good of positive weight gets its cap or its share. */
  ghost predicate AllPaid(goods: seq<Good>, funds: int, open_: seq<bool>, money: seq<int>)
    requires |open_| == |goods| == |money|
  {
    forall i :: 0 <= i < |goods| && open_[i] && goods[i].weight > 0 ==>
      SharePaid(goods[i], funds - Sum(SettledCaps(goods, open_)), Sum(OpenWeights(goods, open_)), money[i])
  }

  lemma DividedIsPaid(goods: seq<Good>, funds: int, open_: seq<bool>, money: seq<int>)
    requires AllSensible(goods) && |open_| == |goods| == |money| && Divided(goods, funds, open_, money)
    ensures AllPaid(goods, funds, open_, money)
  {
    var cash, total := funds - Sum(SettledCaps(goods, open_)), Sum(OpenWeights(goods, open_));
    forall i | 0 <= i < |goods| && open_[i] && goods[i].weight > 0 ensures SharePaid(goods[i], cash, total, money[i]) {
      assert total > 0;
      SpendIsShare(goods[i], cash, total);
    }
  }

  method Redistribute(goods: seq<Good>, funds: int) returns (money: array<int>, ghost open_: seq<bool>)
    requires AllSensible(goods) && funds >= 0
    ensures fresh(money) && money.Length == |goods| == |open_|
    ensures Divided(goods, funds, open_, money[..]) && AllPaid(goods, funds, open_, money[..])
  {
    money := new int[|goods|](_ => 0);
    var wantsMore := new bool[|goods|](_ => true);
    open_ := wantsMore[..];
    var weightsSum := SumWeights(goods);
    StartBooks(goods, open_, funds);
    var cash := funds;
    var needsRedistribution := weightsSum > 0;
    while needsRedistribution
      invariant |open_| == |goods| && wantsMore[..] == open_ && fresh(wantsMore)
      invariant Books(goods, open_, money[..], funds, cash, weightsSum)
      invariant needsRedistribution ==> weightsSum > 0
      invariant !needsRedistribution && weightsSum > 0 ==> PassDone(goods, open_, money[..], cash, weightsSum, |goods|)
      decreases OpenCount(open_), needsRedistribution
    {
      cash, weightsSum, needsRedistribution, open_ := SettleOrShare(goods, wantsMore, money, funds, cash, weightsSum,
                                                                    open_);
    }
    BooksClosed(goods, open_, money[..], funds, cash, weightsSum);
    DividedIsPaid(goods, funds, open_, money[..]);
  }

  ghost predicate Books(goods: seq<Good>, open_: seq<bool>, money: seq<int>, funds: int, cash: int, total: int)
    requires |open_| == |goods| == |money|
  {
    && Level(goods, open_, cash, total) && cash == funds - Sum(SettledCaps(goods, open_))
    && CapsPaid(goods, open_, money) && WeightlessUnpaid(goods, open_, money)
  }

  lemma SettledBooks(goods: seq<Good>, open_: seq<bool>, money: seq<int>, funds: int, cash: int, total: int, at: nat)
    requires AllSensible(goods) && |open_| == |goods| == |money| && at < |goods| && open_[at] && total > 0
    requires Level(goods, open_, cash, total) && cash == funds - Sum(SettledCaps(goods, open_))
    requires goods[at].cap * total <= cash * goods[at].weight
    requires CapsPaid(goods, open_[at := false], money) && WeightlessUnpaid(goods, open_[at := false], money)
    ensures Books(goods, open_[at := false], money, funds, cash - goods[at].cap, total - goods[at].weight)
    ensures OpenCount(open_[at := false]) < OpenCount(open_)
  {
    SettleOne(goods, open_, cash, total, at);
    OpenCountDrops(open_, at);
  }

  lemma StartBooks(goods: seq<Good>, open_: seq<bool>, funds: int)
    requires AllSensible(goods) && funds >= 0 && |open_| == |goods| && forall i :: 0 <= i < |goods| ==> open_[i]
    ensures Books(goods, open_, seq(|goods|, _ => 0), funds, funds, Sum(Weights(goods)))
  {
    assert OpenWeights(goods, open_) == Weights(goods);
    SumZeros(SettledCaps(goods, open_));
  }

  lemma BooksClosed(goods: seq<Good>, open_: seq<bool>, money: seq<int>, funds: int, cash: int, total: int)
    requires AllSensible(goods) && |open_| == |goods| == |money| && Books(goods, open_, money, funds, cash, total)
    requires total > 0 ==> PassDone(goods, open_, money, cash, total, |goods|)
    ensures Divided(goods, funds, open_, money)
  {
    if total <= 0 {
      SumZero(OpenWeights(goods, open_));
      forall j | 0 <= j < |goods| && open_[j] ensures goods[j].weight == 0 {
        assert OpenWeights(goods, open_)[j] == 0;
      }
    }
  }

  function Weights(goods: seq<Good>): (ws: seq<int>)
    ensures |ws| == |goods|
  {
    seq(|goods|, i requires 0 <= i < |goods| => goods[i].weight)
  }

  method SumWeights(goods: seq<Good>) returns (sum: int)
    ensures sum == Sum(Weights(goods))
  {
    sum := 0;
    var i := 0;
    while i < |goods|
      invariant 0 <= i <= |goods| && sum == Sum(Weights(goods)[..i])
    {
      assert Weights(goods)[..i + 1][..i] == Weights(goods)[..i];
      sum := sum + goods[i].weight;
      i := i + 1;
    }
    assert Weights(goods)[..i] == Weights(goods);
  }

  lemma {:induction false} SumZeros(s: seq<int>)
    requires forall i :: 0 <= i < |s| ==> s[i] == 0
    ensures Sum(s) == 0
  {
    if s != [] {
      SumZeros(s[..|s| - 1]);
    }
  }

  // ----- what the division guarantees -----

  lemma SpendBounds(g: Good, cash: int, total: int)
    requires Sensible(g) && cash >= 0 && total > 0
    ensures 0 <= Spend(g, Share(g, cash, total)) <= Share(g, cash, total)
    ensures Share(g, cash, total) * total <= cash * g.weight
  {
    var x := cash * g.weight;
    assert x >= 0;
    assert x == (x / total) * total + x % total;
    if x / total < 0 {
      MulMono(x / total, -1, total);
    }
  }

  /** Nobody gets more than it may cost, nothing is negative, and the total stays within funds. */
  lemma WithinFunds(goods: seq<Good>, funds: int, open_: seq<bool>, money: seq<int>)
    requires AllSensible(goods) && |open_| == |goods| == |money| && Divided(goods, funds, open_, money)
    ensures forall i :: 0 <= i < |goods| ==> 0 <= money[i] <= goods[i].cap
    ensures Sum(money) <= funds
  {
    var caps, ws := SettledCaps(goods, open_), OpenWeights(goods, open_);
    var cash, total := funds - Sum(caps), Sum(ws);
    SumNonNegative(ws);
    forall i | 0 <= i < |goods| ensures 0 <= money[i] <= goods[i].cap {
      if open_[i] && total > 0 {
        SpendBounds(goods[i], cash, total);
        ShareReaches(goods[i], cash, total);
      }
    }
    var rest := seq(|goods|, i requires 0 <= i < |goods| => money[i] - caps[i]);
    SumAdd(caps, rest, money);
    OpenTotal(goods, open_, money, cash, total, rest);
  }

  /** The open goods together get no more than is left for them. */
  lemma OpenTotal(goods: seq<Good>, open_: seq<bool>, money: seq<int>, cash: int, total: int, rest: seq<int>)
    requires AllSensible(goods) && |open_| == |goods| == |money| == |rest|
    requires cash >= 0 && total == Sum(OpenWeights(goods, open_)) >= 0
    requires forall i :: 0 <= i < |goods| ==>
      rest[i] == if !open_[i] || total <= 0 then 0 else Spend(goods[i], Share(goods[i], cash, total))
    ensures Sum(rest) <= cash
  {
    var ws := OpenWeights(goods, open_);
    if total <= 0 {
      SumZeros(rest);
    } else {
      forall i | 0 <= i < |goods| ensures Scaled(rest, total)[i] <= Scaled(ws, cash)[i] {
        if open_[i] {
          ScaledShare(goods[i], cash, total);
        }
      }
      SumMonotone(Scaled(rest, total), Scaled(ws, cash));
      SumScale(rest, Scaled(rest, total), total);
      SumScale(ws, Scaled(ws, cash), cash);
      TotalFits(Sum(rest), cash, total);
    }
  }

  function Scaled(s: seq<int>, c: int): (t: seq<int>)
    ensures |t| == |s|
  {
    seq(|s|, i requires 0 <= i < |s| => c * s[i])
  }

  lemma ScaledShare(g: Good, cash: int, total: int)
    requires Sensible(g) && cash >= 0 && total > 0
    ensures total * Spend(g, Share(g, cash, total)) <= cash * g.weight
  {
    SpendBounds(g, cash, total);
    MulMono(Spend(g, Share(g, cash, total)), Share(g, cash, total), total);
  }

  lemma TotalFits(sum: int, cash: int, total: int)
    requires total > 0 && total * sum <= cash * total
    ensures sum <= cash
  {
    MulCancel(sum, cash, total);
  }

  // ----- the order of the goods does not matter -----

  function Min(a: int, b: int): int {
    if a <= b then a else b
  }

  /** What each good takes at level x / y, scaled by y. */
  function Fills(goods: seq<Good>, x: int, y: int): (fs: seq<int>)
    ensures |fs| == |goods|
  {
    seq(|goods|, i requires 0 <= i < |goods| => Min(goods[i].cap * y, x * goods[i].weight))
  }

  lemma {:induction false} SumConcat(a: seq<int>, b: seq<int>)
    ensures Sum(a + b) == Sum(a) + Sum(b)
  {
    if b == [] {
      assert a + b == a;
    } else {
      assert (a + b)[..|a + b| - 1] == a + b[..|b| - 1];
      SumConcat(a, b[..|b| - 1]);
    }
  }

  lemma FillsConcat(a: seq<Good>, b: seq<Good>, x: int, y: int)
    ensures Sum(Fills(a + b, x, y)) == Sum(Fills(a, x, y)) + Sum(Fills(b, x, y))
  {
    assert Fills(a + b, x, y) == Fills(a, x, y) + Fills(b, x, y);
    SumConcat(Fills(a, x, y), Fills(b, x, y));
  }

  lemma {:induction false} FillsPermuted(a: seq<Good>, b: seq<Good>, x: int, y: int)
    requires multiset(a) == multiset(b)
    ensures Sum(Fills(a, x, y)) == Sum(Fills(b, x, y))
    decreases |a|
  {
    if a == [] {
      assert |multiset(b)| == 0 && b == [];
    } else {
      var front, g := a[..|a| - 1], a[|a| - 1];
      assert a == front + [g];
      var before, behind := TakeOut(b, g);
      assert b == before + [g] + behind;
      SameRest(front, before + behind, g);
      FillsPermuted(front, before + behind, x, y);
      FillsConcat(front, [g], x, y);
      FillsConcat(before, behind, x, y);
      FillsConcat(before, [g], x, y);
      FillsConcat(before + [g], behind, x, y);
    }
  }

  lemma TakeOut(b: seq<Good>, g: Good) returns (before: seq<Good>, behind: seq<Good>)
    requires g in multiset(b)
    ensures b == before + [g] + behind && multiset(b) == multiset(before + behind) + multiset{g}
  {
    var k :| 0 <= k < |b| && b[k] == g;
    before, behind := b[..k], b[k + 1..];
    assert b == before + [g] + behind;
  }

  lemma SameRest(front: seq<Good>, rest: seq<Good>, g: Good)
    requires multiset(front + [g]) == multiset(rest) + multiset{g}
    ensures multiset(front) == multiset(rest)
  {
    forall h ensures multiset(front)[h] == multiset(rest)[h] {
      assert multiset(front + [g])[h] == multiset(front)[h] + multiset{g}[h];
      assert (multiset(rest) + multiset{g})[h] == multiset(rest)[h] + multiset{g}[h];
    }
  }

  lemma FillTerm(g: Good, isOpen: bool, cash: int, total: int, m: int)
    requires total > 0 && m > 0
    requires if isOpen then cash * g.weight < g.cap * total else g.cap * total <= cash * g.weight
    ensures Min(g.cap * (total * m), (cash * m) * g.weight) == if isOpen
            then (cash * m) * g.weight else (total * m) * g.cap
  {
    var p, q := g.cap * total, cash * g.weight;
    assert g.cap * (total * m) == p * m && (cash * m) * g.weight == q * m;
    if isOpen {
      MulMono(q, p, m);
      MulStrict(q, p, m);
    } else {
      MulMono(p, q, m);
    }
  }

  /** At the level of the outcome, the goods together take exactly the funds. */
  lemma LevelTakesFunds(goods: seq<Good>, funds: int, open_: seq<bool>, money: seq<int>, m: int)
    requires AllSensible(goods) && |open_| == |goods| == |money| && Divided(goods, funds, open_, money) && m > 0
    requires Sum(OpenWeights(goods, open_)) > 0
    ensures var cash, total := funds - Sum(SettledCaps(goods, open_)), Sum(OpenWeights(goods, open_));
            Sum(Fills(goods, cash * m, total * m)) == (total * m) * funds
  {
    var caps, ws := SettledCaps(goods, open_), OpenWeights(goods, open_);
    var cash, total := funds - Sum(caps), Sum(ws);
    var x, y := cash * m, total * m;
    forall i | 0 <= i < |goods| ensures Fills(goods, x, y)[i] == Scaled(caps, y)[i] + Scaled(ws, x)[i] {
      FillTerm(goods[i], open_[i], cash, total, m);
    }
    SumAdd(Scaled(caps, y), Scaled(ws, x), Fills(goods, x, y));
    SumScale(caps, Scaled(caps, y), y);
    SumScale(ws, Scaled(ws, x), x);
    TakesAll(Sum(caps), cash, total, m, funds);
  }

  lemma TakesAll(settled: int, cash: int, total: int, m: int, funds: int)
    requires funds == settled + cash
    ensures (total * m) * settled + (cash * m) * total == (total * m) * funds
  {
    assert (cash * m) * total == (total * m) * cash;
  }

  /** A good that is open at the lower level takes strictly more at the higher one. */
  lemma HigherTakesMore(goods: seq<Good>, x: int, z: int, y: int, i: nat)
    requires AllSensible(goods) && x < z && y > 0
    requires i < |goods| && goods[i].weight > 0 && x * goods[i].weight < goods[i].cap * y
    ensures Sum(Fills(goods, x, y)) < Sum(Fills(goods, z, y))
  {
    forall j | 0 <= j < |goods| ensures Fills(goods, x, y)[j] <= Fills(goods, z, y)[j] {
      MulMono(x, z, goods[j].weight);
    }
    MulStrict(x, z, goods[i].weight);
    assert Fills(goods, x, y)[i] < Fills(goods, z, y)[i];
    SumMonotone(Fills(goods, x, y), Fills(goods, z, y));
  }

  lemma {:induction false} SomePositive(s: seq<int>) returns (i: nat)
    requires Sum(s) > 0
    ensures i < |s| && s[i] > 0
  {
    if s[|s| - 1] > 0 {
      i := |s| - 1;
    } else {
      i := SomePositive(s[..|s| - 1]);
    }
  }

  ghost function CashLeft(goods: seq<Good>, funds: int, open_: seq<bool>): int
    requires |open_| == |goods|
  {
    funds - Sum(SettledCaps(goods, open_))
  }

  ghost function OpenTotalWeight(goods: seq<Good>, open_: seq<bool>): int
    requires |open_| == |goods|
  {
    Sum(OpenWeights(goods, open_))
  }

  /** While weight is open, some good sticks out of the level. */
  lemma OpenGood(goods: seq<Good>, funds: int, open_: seq<bool>, money: seq<int>, m: int) returns (i: nat)
    requires AllSensible(goods) && |open_| == |goods| == |money| && Divided(goods, funds, open_, money) && m > 0
    requires OpenTotalWeight(goods, open_) > 0
    ensures i < |goods| && goods[i].weight > 0
    ensures (CashLeft(goods, funds, open_) * m) * goods[i].weight < goods[i].cap * (OpenTotalWeight(goods, open_) * m)
  {
    i := SomePositive(OpenWeights(goods, open_));
    BelowScaled(goods[i], CashLeft(goods, funds, open_), OpenTotalWeight(goods, open_), m);
  }

  lemma BelowScaled(g: Good, cash: int, total: int, m: int)
    requires cash * g.weight < g.cap * total && m > 0
    ensures (cash * m) * g.weight < g.cap * (total * m)
  {
    MulStrict(cash * g.weight, g.cap * total, m);
    assert cash * g.weight * m == (cash * m) * g.weight && g.cap * total * m == g.cap * (total * m);
  }

  lemma NotHigher(a: seq<Good>, b: seq<Good>, funds: int, oa: seq<bool>, ma: seq<int>, ob: seq<bool>, mb: seq<int>)
    requires AllSensible(a) && AllSensible(b) && multiset(a) == multiset(b)
    requires |oa| == |a| == |ma| && |ob| == |b| == |mb| && Divided(a, funds, oa, ma) && Divided(b, funds, ob, mb)
    requires OpenTotalWeight(a, oa) > 0 && OpenTotalWeight(b, ob) > 0
    ensures CashLeft(b, funds, ob) * OpenTotalWeight(a, oa) <= CashLeft(a, funds, oa) * OpenTotalWeight(b, ob)
  {
    var c, t, d, u := CashLeft(a, funds, oa), OpenTotalWeight(a, oa), CashLeft(b, funds, ob), OpenTotalWeight(b, ob);
    if c * u < d * t {
      var y := t * u;
      MulStrict(0, t, u);
      LevelTakesFunds(a, funds, oa, ma, u);
      LevelTakesFunds(b, funds, ob, mb, t);
      assert u * t == y;
      FillsPermuted(a, b, d * t, y);
      var i := OpenGood(a, funds, oa, ma, u);
      HigherTakesMore(a, c * u, d * t, y, i);
    }
  }

  /** If one order leaves nothing open to share, so does every other. */
  lemma BothSettle(a: seq<Good>, b: seq<Good>, funds: int, oa: seq<bool>, ma: seq<int>, ob: seq<bool>, mb: seq<int>)
    requires AllSensible(a) && AllSensible(b) && multiset(a) == multiset(b)
    requires |oa| == |a| == |ma| && |ob| == |b| == |mb| && Divided(a, funds, oa, ma) && Divided(b, funds, ob, mb)
    requires OpenTotalWeight(b, ob) <= 0
    ensures OpenTotalWeight(a, oa) <= 0
  {
    var c, t := CashLeft(a, funds, oa), OpenTotalWeight(a, oa);
    if t > 0 {
      LevelTakesFunds(a, funds, oa, ma, 1);
      assert c * 1 == c && t * 1 == t;
      FillsPermuted(a, b, c, t);
      var i := OpenGood(a, funds, oa, ma, 1);
      assert a[i] in multiset(b);
      var k :| 0 <= k < |b| && b[k] == a[i];
      FullBelow(b, funds, ob, mb, c, t, k);
    }
  }

  /** What is settled in full takes at least what any level gives it. */
  lemma FullBelow(b: seq<Good>, funds: int, ob: seq<bool>, mb: seq<int>, x: int, y: int, k: nat)
    requires AllSensible(b) && |ob| == |b| == |mb| && Divided(b, funds, ob, mb) && OpenTotalWeight(b, ob) <= 0
    requires y > 0 && k < |b| && b[k].weight > 0 && x * b[k].weight < b[k].cap * y
    ensures Sum(Fills(b, x, y)) < y * funds
  {
    var caps := SettledCaps(b, ob);
    forall j | 0 <= j < |b| ensures Fills(b, x, y)[j] <= Scaled(caps, y)[j] {
      FullTerm(b[j], ob[j], x, y);
    }
    assert !ob[k];
    FullTermStrict(b[k], x, y);
    assert Fills(b, x, y)[k] < Scaled(caps, y)[k];
    SumMonotone(Fills(b, x, y), Scaled(caps, y));
    SumScale(caps, Scaled(caps, y), y);
    ScaleMono(Sum(caps), funds, y);
  }

  lemma FullTerm(g: Good, isOpen: bool, x: int, y: int)
    requires isOpen ==> g.weight == 0
    ensures Min(g.cap * y, x * g.weight) <= y * if isOpen then 0 else g.cap
  {
  }

  lemma FullTermStrict(g: Good, x: int, y: int)
    requires x * g.weight < g.cap * y
    ensures Min(g.cap * y, x * g.weight) < y * g.cap
  {
  }

  lemma ScaleMono(a: int, b: int, c: int)
    requires a <= b && c >= 0
    ensures c * a <= c * b
  {
    MulMono(a, b, c);
  }

  /** At equal levels a good fares alike. */
  lemma EqualLevels(g: Good, c: int, t: int, d: int, u: int)
    requires Sensible(g) && t > 0 && u > 0 && c * u == d * t
    ensures c * g.weight < g.cap * t <==> d * g.weight < g.cap * u
    ensures Share(g, c, t) == Share(g, d, u)
  {
    var p, q := c * g.weight, d * g.weight;
    assert p * u == q * t by {
      assert p * u == (c * u) * g.weight && q * t == (d * t) * g.weight;
    }
    CrossLess(p, t, q, u, g.cap);
    SameQuotient(p, t, q, u);
  }

  lemma CrossLess(p: int, t: int, q: int, u: int, cap: int)
    requires t > 0 && u > 0 && p * u == q * t
    ensures p < cap * t <==> q < cap * u
  {
    if p < cap * t {
      MulStrict(p, cap * t, u);
      assert cap * t * u == (cap * u) * t;
      if q >= cap * u {
        MulMono(cap * u, q, t);
      }
    } else {
      MulMono(cap * t, p, u);
      assert cap * t * u == (cap * u) * t;
      MulCancel(cap * u, q, t);
    }
  }

  lemma SameQuotient(p: int, t: int, q: int, u: int)
    requires t > 0 && u > 0 && p * u == q * t
    ensures p / t == q / u
  {
    var k := p / t;
    assert p == k * t + p % t;
    assert k * t <= p < (k + 1) * t;
    CrossLess(p, t, q, u, k);
    CrossLess(p, t, q, u, k + 1);
    assert k * u <= q < (k + 1) * u;
    QuotientIs(q, u, k);
  }

  lemma QuotientIs(q: int, u: int, k: int)
    requires u > 0 && k * u <= q < (k + 1) * u
    ensures q / u == k
  {
    var r := q / u;
    assert q == r * u + q % u;
    if r < k {
      MulMono(r + 1, k, u);
    } else if r > k {
      MulMono(k + 1, r, u);
    }
  }

  /** The same goods in another order: every good gets the same money. */
  lemma OrderIrrelevant(a: seq<Good>, b: seq<Good>, funds: int, oa: seq<bool>, ma: seq<int>, ob: seq<bool>,
                        mb: seq<int>, i: nat, j: nat)
    requires AllSensible(a) && AllSensible(b) && multiset(a) == multiset(b)
    requires |oa| == |a| == |ma| && |ob| == |b| == |mb| && Divided(a, funds, oa, ma) && Divided(b, funds, ob, mb)
    requires i < |a| && j < |b| && a[i] == b[j]
    ensures ma[i] == mb[j]
  {
    var t, u := OpenTotalWeight(a, oa), OpenTotalWeight(b, ob);
    if t <= 0 || u <= 0 {
      if t <= 0 {
        BothSettle(b, a, funds, ob, mb, oa, ma);
      } else {
        BothSettle(a, b, funds, oa, ma, ob, mb);
      }
    } else {
      NotHigher(a, b, funds, oa, ma, ob, mb);
      NotHigher(b, a, funds, ob, mb, oa, ma);
      EqualLevels(a[i], CashLeft(a, funds, oa), t, CashLeft(b, funds, ob), u);
    }
  }
}
