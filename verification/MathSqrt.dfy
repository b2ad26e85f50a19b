/** The 64-bit ceiling square root. */
module MathSqrt {
  import opened Fnv

  /** d is a power of four, b its root. */
  ghost predicate PowerOfFour(d: nat, b: nat) {
    d == b * b && exists k: nat :: b == Pow2(k)
  }

  lemma QuarterPower(d: nat, b: nat)
    requires PowerOfFour(d, b) && b > 1
    ensures b % 2 == 0 && PowerOfFour(d / 4, b / 2) && d % 4 == 0
  {
    var k: nat :| b == Pow2(k);
    assert k > 0 && b / 2 == Pow2(k - 1);
    var h := b / 2;
    assert b == 2 * h;
    assert d == 4 * (h * h);
  }

  /** The root found so far: everything of n above bit b is accounted for. */
  ghost predicate Partial(n: nat, root: nat, b: nat, x: nat, c: nat) {
    && x == n - root * root && root * root <= n < (root + 2 * b) * (root + 2 * b)
    && c == 2 * root * b && root + 2 * b <= 0x1_0000_0000
  }

  lemma SquareOfSum(a: nat, b: nat)
    ensures (a + b) * (a + b) == a * a + 2 * a * b + b * b
  {
  }

  lemma SquareBelow(s: nat)
    requires s < 0x1_0000_0000
    ensures s * s < TWO_64
  {
    SquareGrows(s, 0x1_0000_0000);
  }

  lemma TestFits(n: nat, root: nat, b: nat, x: nat, c: nat)
    requires Partial(n, root, b, x, c)
    ensures c + b * b == (root + b) * (root + b) - root * root
    ensures b >= 1 ==> c + b * b < TWO_64
  {
    SquareOfSum(root, b);
    if b >= 1 {
      SquareBelow(root + b);
    }
  }

  lemma TakeBit(n: nat, root: nat, b: nat, x: nat, c: nat)
    requires Partial(n, root, b, x, c) && b >= 1 && x >= c + b * b
    ensures x - (c + b * b) == n - (root + b) * (root + b) && (root + b) * (root + b) <= n
    ensures c / 2 + b * b == (root + b) * b
  {
    TestFits(n, root, b, x, c);
    assert c == 2 * (root * b);
  }

  lemma LeaveBit(n: nat, root: nat, b: nat, x: nat, c: nat)
    requires Partial(n, root, b, x, c) && b >= 1 && x < c + b * b
    ensures n < (root + b) * (root + b) && c / 2 == root * b
  {
    TestFits(n, root, b, x, c);
    assert c == 2 * (root * b);
  }

  /** The loop state: before the last bit is decided as above, afterwards c is the root itself. */
  ghost predicate LoopState(n: nat, root: nat, b: nat, x: nat, c: nat, d: nat) {
    if d == 0 then x == n - root * root && root * root <= n < (root + 1) * (root + 1) && c == root <= 0xffff_ffff
    else PowerOfFour(d, b) && Partial(n, root, b, x, c)
  }

  lemma Halved(root: nat, b: nat, h: nat)
    requires b == 2 * h
    ensures root * b == 2 * root * h && (root + b) * (root + b) == (root + 2 * h) * (root + 2 * h)
  {
  }

  /** Deciding bit b leaves a loop state for the next bit. */
  lemma NextState(n: nat, root: nat, b: nat, x: nat, c: nat, d: nat)
    requires PowerOfFour(d, b) && root + b <= 0x1_0000_0000
    requires x == n - root * root && root * root <= n < (root + b) * (root + b) && c == root * b
    ensures LoopState(n, root, b / 2, x, c, d / 4)
  {
    if b > 1 {
      QuarterPower(d, b);
      var h := b / 2;
      Halved(root, b, h);
      assert d / 4 > 0 by {
        PowerPositive(h * h, h);
      }
    } else {
      PowerPositive(d, b);
      assert b == 1 && d == 1;
    }
  }

  lemma Pow2Positive(k: nat)
    ensures Pow2(k) >= 1
  {
  }

  lemma PowerPositive(d: nat, b: nat)
    requires PowerOfFour(d, b)
    ensures b >= 1 && d >= 1
  {
    var k: nat :| b == Pow2(k);
    Pow2Positive(k);
    SquareGrows(0, b);
  }

  /** One round of the loop, as a step on its state. */
  lemma Round(n: nat, root: nat, b: nat, x: nat, c: nat, d: nat) returns (next: nat)
    requires d > 0 && LoopState(n, root, b, x, c, d)
    ensures c + d < TWO_64 && c / 2 + d < TWO_64
    ensures x >= c + d ==> LoopState(n, next, b / 2, x - (c + d), c / 2 + d, d / 4)
    ensures x < c + d ==> LoopState(n, next, b / 2, x, c / 2, d / 4)
  {
    PowerPositive(d, b);
    TestFits(n, root, b, x, c);
    if x >= c + d {
      TakeBit(n, root, b, x, c);
      next := root + b;
      NextState(n, next, b, x - (c + d), c / 2 + d, d);
    } else {
      LeaveBit(n, root, b, x, c);
      next := root;
      NextState(n, next, b, x, c / 2, d);
    }
  }

  /** Rounds up: the least r with r * r >= n, and no intermediate value leaves 64 bits. */
  method Sqrt(n: Word) returns (r: Word)
    ensures n <= r * r
    ensures forall s: nat :: n <= s * s ==> r <= s
  {
    var x: Word := n;
    var c: Word := 0;
    var d: Word := 0x4000_0000_0000_0000;
    ghost var b: nat := 0x8000_0000;
    FirstPower();
    while d > n
      invariant d == 0 ==> n == 0
      invariant d > 0 ==> PowerOfFour(d, b) && n < 4 * d && b <= 0x8000_0000
      decreases d
    {
      PowerPositive(d, b);
      if b > 1 {
        QuarterPower(d, b);
      }
      d := d / 4;
      b := b / 2;
    }
    ghost var root: nat := 0;
    if d > 0 {
      assert (2 * b) * (2 * b) == 4 * d;
    }
    while d != 0
      invariant LoopState(n, root, b, x, c, d)
      decreases d
    {
      root := Round(n, root, b, x, c, d);
      var sum: Word := c + d;
      if x >= sum {
        x := x - sum;
        c := c / 2 + d;
      } else {
        c := c / 2;
      }
      d := d / 4;
      b := b / 2;
    }
    if x > 0 {
      c := c + 1;
    }
    r := c;
    LeastRoot(n, root, r);
  }

  lemma FirstPower()
    ensures PowerOfFour(0x4000_0000_0000_0000, 0x8000_0000)
  {
    assert 0x8000_0000 * 0x8000_0000 == 0x4000_0000_0000_0000;
    assert Pow2(8) == 256;
    Pow2Add(8, 8);
    Pow2Add(16, 8);
    Pow2Add(24, 7);
    assert Pow2(7) == 128;
    assert Pow2(31) == 0x8000_0000;
  }

  lemma LeastRoot(n: nat, root: nat, r: nat)
    requires root * root <= n < (root + 1) * (root + 1)
    requires r == if n == root * root then root else root + 1
    ensures n <= r * r && forall s: nat :: n <= s * s ==> r <= s
  {
    forall s: nat | n <= s * s ensures r <= s {
      SquareGrows(s, root);
      SquareGrows(root, s);
    }
  }

  lemma NextSquare(t: int)
    ensures (t + 1) * (t + 1) == t * t + 2 * t + 1
  {
  }

  lemma {:induction false} SquareGrows(s: nat, t: nat)
    ensures s < t ==> s * s < t * t
    decreases t
  {
    if s < t {
      NextSquare(t - 1);
      SquareGrows(s, t - 1);
    }
  }
}
