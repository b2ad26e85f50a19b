/** The 64-bit FNV-1a fold used by the schedule hash and the state checksum, with the exact
    modular arithmetic of 64-bit words. */
module Fnv {

  const TWO_64: nat := 0x1_0000_0000_0000_0000
  const FNV_PRIME: nat := 0x100000001b3
  const CHECKSUM_SEED: Word := 0xcbf29ce484222325

  /** The multiplicative inverse of the prime modulo 2^64. */
  const FNV_INVERSE: nat := 0xce965057aff6957b
  const INVERSE_QUOTIENT: nat := (FNV_PRIME * FNV_INVERSE - 1) / TWO_64

  type Word = x: nat | x < 0x1_0000_0000_0000_0000
  type Byte = x: nat | x < 256

  /** Bitwise exclusive or. */
  function Xor(a: nat, b: nat): nat {
    if a == 0 && b == 0 then 0 else (if a % 2 == b % 2 then 0 else 1) + 2 * Xor(a / 2, b / 2)
  }

  lemma XorHalves(a: nat, b: nat)
    ensures Xor(a, b) / 2 == Xor(a / 2, b / 2)
    ensures Xor(a, b) % 2 == (if a % 2 == b % 2 then 0 else 1)
  {
  }

  lemma {:induction false} XorUndo(a: nat, b: nat)
    ensures Xor(Xor(a, b), b) == a
  {
    if a != 0 || b != 0 {
      XorUndo(a / 2, b / 2);
      XorHalves(a, b);
      XorHalves(Xor(a, b), b);
    }
  }

  lemma {:induction false} XorInverse(a: nat, b: nat)
    ensures Xor(a, Xor(a, b)) == b
  {
    if a != 0 || b != 0 {
      XorInverse(a / 2, b / 2);
      XorHalves(a, b);
      XorHalves(a, Xor(a, b));
    }
  }

  function Pow2(n: nat): nat {
    if n == 0 then 1 else 2 * Pow2(n - 1)
  }

  lemma {:induction false} XorBound(a: nat, b: nat, n: nat)
    requires a < Pow2(n) && b < Pow2(n)
    ensures Xor(a, b) < Pow2(n)
  {
    if n > 0 {
      XorBound(a / 2, b / 2, n - 1);
      XorHalves(a, b);
    }
  }

  lemma Pow2Of64()
    ensures Pow2(64) == TWO_64
  {
    assert Pow2(4) == 16;
    Pow2Add(4, 4);
    Pow2Add(8, 8);
    Pow2Add(16, 16);
    Pow2Add(32, 32);
  }

  lemma {:induction false} Pow2Add(m: nat, n: nat)
    ensures Pow2(m + n) == Pow2(m) * Pow2(n)
  {
    if m > 0 {
      Pow2Add(m - 1, n);
      assert 2 * Pow2(m - 1) * Pow2(n) == Pow2(m) * Pow2(n);
    }
  }

  function XorByte(h: Word, b: Byte): Word {
    Pow2Of64();
    XorBound(h, b, 64);
    Xor(h, b)
  }

  function Times(x: Word): Word {
    (x * FNV_PRIME) % TWO_64
  }

  /** One round: xor the byte in, multiply by the FNV prime modulo 2^64. */
  function Round(h: Word, b: Byte): Word {
    Times(XorByte(h, b))
  }

  /** The prime is odd, so multiplying by it is undone by multiplying with its inverse. */
  lemma TimesUndo(x: Word)
    ensures (Times(x) * FNV_INVERSE) % TWO_64 == x
  {
    var q, r := (x * FNV_PRIME) / TWO_64, Times(x);
    assert r * FNV_INVERSE == x * FNV_PRIME * FNV_INVERSE - q * TWO_64 * FNV_INVERSE;
    assert FNV_PRIME * FNV_INVERSE == 1 + INVERSE_QUOTIENT * TWO_64;
    assert x * (FNV_PRIME * FNV_INVERSE) == x + x * INVERSE_QUOTIENT * TWO_64;
    assert r * FNV_INVERSE == x + TWO_64 * (x * INVERSE_QUOTIENT - q * FNV_INVERSE);
    Remainder(r * FNV_INVERSE, x, x * INVERSE_QUOTIENT - q * FNV_INVERSE);
  }

  lemma Remainder(a: int, x: int, t: int)
    requires a == x + TWO_64 * t && 0 <= x < TWO_64
    ensures a % TWO_64 == x
  {
  }

  lemma {:induction false} XorZero(a: nat)
    ensures Xor(a, 0) == a
  {
    if a != 0 {
      XorZero(a / 2);
    }
  }

  /** The byte is folded in before the multiplication: a round with b is a round without data from the
      word whose low byte has been exclusive-ored with b. */
  lemma XorComesFirst(h: Word, b: Byte)
    ensures Fnv([b], h) == Fnv([0], XorByte(h, b))
  {
    FnvSnoc([], b, h);
    FnvSnoc([], 0, XorByte(h, b));
    assert [] + [b] == [b] && [] + [0 as Byte] == [0];
    XorZero(XorByte(h, b));
  }

  /** Exclusive or with less than 2^n leaves the higher bits alone. */
  lemma {:induction false} XorSplits(q: nat, r: nat, b: nat, n: nat)
    requires r < Pow2(n) && b < Pow2(n)
    ensures Xor(q * Pow2(n) + r, b) == q * Pow2(n) + Xor(r, b)
  {
    if n == 0 {
      XorZero(q);
    } else {
      var p := Pow2(n - 1);
      assert q * Pow2(n) == 2 * (q * p);
      XorHalves(q * Pow2(n) + r, b);
      XorHalves(r, b);
      assert (q * Pow2(n) + r) / 2 == q * p + r / 2;
      XorSplits(q, r / 2, b / 2, n - 1);
    }
  }

  lemma XorExample()
    ensures Xor(0x25, 0x61) == 0x44
  {
    assert Xor(0, 1) == 1 && Xor(1, 3) == 2 && Xor(2, 6) == 4 && Xor(4, 12) == 8;
    assert Xor(9, 24) == 17;
    assert Xor(18, 48) == 34;
  }

  lemma TimesExample()
    ensures Times(0xcbf29ce484222344) == 0xaf63dc4c8601ec8c
  {
  }

  /** The seed differs from a word that ends in zeros by its low byte only. */
  lemma SeedExample()
    ensures XorByte(CHECKSUM_SEED, 0x61) == 0xcbf29ce484222344
  {
    var q := CHECKSUM_SEED / 256;
    assert Pow2(8) == 256;
    assert CHECKSUM_SEED == q * 256 + 0x25;
    XorSplits(q, 0x25, 0x61, 8);
    XorExample();
  }

  /** The published 64-bit FNV-1a values of the empty string and of "a". */
  lemma PublishedValues()
    ensures Fnv([], CHECKSUM_SEED) == 0xcbf29ce484222325
    ensures Fnv([0x61], CHECKSUM_SEED) == 0xaf63dc4c8601ec8c
  {
    SeedExample();
    TimesExample();
    FnvSnoc([], 0x61, CHECKSUM_SEED);
    assert [] + [0x61 as Byte] == [0x61];
  }

  lemma RoundInjective(h: Word, g: Word, b: Byte)
    requires Round(h, b) == Round(g, b)
    ensures h == g
  {
    TimesUndo(XorByte(h, b));
    TimesUndo(XorByte(g, b));
    XorUndo(h, b);
    XorUndo(g, b);
  }

  lemma RoundSeparatesBytes(h: Word, a: Byte, b: Byte)
    requires Round(h, a) == Round(h, b)
    ensures a == b
  {
    TimesUndo(XorByte(h, a));
    TimesUndo(XorByte(h, b));
    XorInverse(h, a);
    XorInverse(h, b);
  }

  function Fnv(bytes: seq<Byte>, seed: Word): Word {
    if bytes == [] then seed else Round(Fnv(bytes[..|bytes| - 1], seed), bytes[|bytes| - 1])
  }

  lemma FnvSnoc(bytes: seq<Byte>, b: Byte, seed: Word)
    ensures Fnv(bytes + [b], seed) == Round(Fnv(bytes, seed), b)
  {
    assert (bytes + [b])[..|bytes|] == bytes;
  }

  method Fnv1a64Bytes(data: seq<Byte>, seed: Word) returns (h: Word)
    ensures h == Fnv(data, seed)
  {
    h := seed;
    var i := 0;
    while i < |data|
      invariant 0 <= i <= |data| && h == Fnv(data[..i], seed)
    {
      assert data[..i + 1] == data[..i] + [data[i]];
      FnvSnoc(data[..i], data[i], seed);
      h := XorByte(h, data[i]);
      h := Times(h);
      i := i + 1;
    }
    assert data[..i] == data;
  }

  /** Hashing is byte-sequential: a slab hashed at once equals its pieces hashed in turn. */
  lemma {:induction false} FnvAppend(a: seq<Byte>, b: seq<Byte>, seed: Word)
    ensures Fnv(a + b, seed) == Fnv(b, Fnv(a, seed))
  {
    if b == [] {
      assert a + b == a;
    } else {
      var front := b[..|b| - 1];
      assert (a + b)[..|a + b| - 1] == a + front;
      FnvAppend(a, front, seed);
    }
  }

  lemma {:induction false} FnvSeedInjective(bytes: seq<Byte>, s: Word, t: Word)
    requires Fnv(bytes, s) == Fnv(bytes, t)
    ensures s == t
  {
    if bytes != [] {
      var front := bytes[..|bytes| - 1];
      RoundInjective(Fnv(front, s), Fnv(front, t), bytes[|bytes| - 1]);
      FnvSeedInjective(front, s, t);
    }
  }

  /** Inputs of equal length that differ in exactly one byte never collide, from any seed. */
  lemma OneByteNeverCollides(a: seq<Byte>, i: nat, b: Byte, seed: Word)
    requires i < |a| && a[i] != b
    ensures Fnv(a, seed) != Fnv(a[i := b], seed)
  {
    var front, back := a[..i], a[i + 1..];
    assert a == (front + [a[i]]) + back;
    assert a[i := b] == (front + [b]) + back;
    FnvAppend(front + [a[i]], back, seed);
    FnvAppend(front + [b], back, seed);
    FnvSnoc(front, a[i], seed);
    FnvSnoc(front, b, seed);
    if Fnv(a, seed) == Fnv(a[i := b], seed) {
      FnvSeedInjective(back, Fnv(front + [a[i]], seed), Fnv(front + [b], seed));
      RoundSeparatesBytes(Fnv(front, seed), a[i], b);
    }
  }

  // ----- folding one 64-bit value -----

  /** The n low bytes of v, lowest first. */
  function LittleEndian(v: nat, n: nat): (s: seq<Byte>)
    ensures |s| == n
  {
    if n == 0 then [] else [v % 256] + LittleEndian(v / 256, n - 1)
  }

  /** Byte i of the list is byte i of the number. */
  lemma {:induction false} LittleEndianAt(v: nat, n: nat, i: nat)
    requires i < n
    ensures Pow2(8 * i) > 0 && LittleEndian(v, n)[i] == v / Pow2(8 * i) % 256
  {
    if i > 0 {
      var p := Pow2(8 * (i - 1));
      Pow2Add(8, 8 * (i - 1));
      assert Pow2(8) == 256;
      LittleEndianAt(v / 256, n - 1, i - 1);
      QuotientTwice(v, p);
    }
  }

  lemma QuotientTwice(v: nat, p: nat)
    requires p > 0
    ensures v / 256 / p == v / (256 * p)
  {
    var q, r := v / 256, v % 256;
    var a, b := q / p, q % p;
    assert v == 256 * q + r && q == p * a + b;
    assert v == (256 * p) * a + (256 * b + r);
    assert 256 * b + r < 256 * p;
    QuotientIs(v, 256 * p, a, 256 * b + r);
  }

  lemma QuotientIs(v: nat, d: nat, a: nat, r: nat)
    requires d > 0 && v == d * a + r && r < d
    ensures v / d == a
  {
    var q, m := v / d, v % d;
    assert v == d * q + m;
    if q > a {
      Multiple(d, a, q);
    } else if q < a {
      Multiple(d, q, a);
    }
  }

  lemma Multiple(d: nat, a: nat, b: nat)
    requires a < b
    ensures d * a + d <= d * b
  {
    assert d * b == d * a + d * (b - a);
    assert d * (b - a) == d * (b - a - 1) + d;
  }

  /** bytes are the eight bytes of the value, the lowest one first. */
  ghost predicate BytesOf(value: Word, bytes: seq<Byte>) {
    |bytes| == 8 && forall i: nat :: i < 8 ==> Pow2(8 * i) > 0 && bytes[i] == value / Pow2(8 * i) % 256
  }

  lemma FoldsItsBytes(value: Word, seed: Word, bytes: seq<Byte>)
    requires BytesOf(value, bytes)
    ensures FoldU64(value, seed) == Fnv(bytes, seed)
  {
    forall i: nat | i < 8 ensures LittleEndian(value, 8)[i] == bytes[i] {
      LittleEndianAt(value, 8, i);
    }
    assert LittleEndian(value, 8) == bytes;
  }

  function FoldU64(value: Word, seed: Word): Word {
    Fnv(LittleEndian(value, 8), seed)
  }

  /** The shift (value >> 8i) & 0xFF of the source, kept as a running quotient. */
  method FoldUint64(value: Word, seed: Word) returns (h: Word)
    ensures h == FoldU64(value, seed)
    ensures forall bytes :: BytesOf(value, bytes) ==> h == Fnv(bytes, seed)
  {
    h := seed;
    var rest: nat := value;
    var i := 0;
    while i < 8
      invariant 0 <= i <= 8
      invariant Fnv(LittleEndian(rest, 8 - i), h) == FoldU64(value, seed)
    {
      FnvAppend([rest % 256], LittleEndian(rest / 256, 7 - i), h);
      FnvSnoc([], rest % 256, h);
      assert [] + [rest % 256] == [rest % 256];
      h := XorByte(h, rest % 256);
      h := Times(h);
      rest := rest / 256;
      i := i + 1;
    }
    forall bytes | BytesOf(value, bytes) ensures h == Fnv(bytes, seed) {
      FoldsItsBytes(value, seed, bytes);
    }
  }

  lemma LowByteFirst(v: nat, n: nat)
    requires n > 0
    ensures LittleEndian(v, n)[0] == v % 256 && LittleEndian(v, n)[1..] == LittleEndian(v / 256, n - 1)
  {
  }

  lemma ByteShorter(v: nat, n: nat)
    requires n > 0 && v < Pow2(8 * n)
    ensures v / 256 < Pow2(8 * (n - 1))
  {
    Pow2Add(8, 8 * (n - 1));
    assert Pow2(8) == 256;
  }

  lemma {:induction false} LittleEndianInjective(v: nat, w: nat, n: nat)
    requires v < Pow2(8 * n) && w < Pow2(8 * n) && LittleEndian(v, n) == LittleEndian(w, n)
    ensures v == w
  {
    if n > 0 {
      LowByteFirst(v, n);
      LowByteFirst(w, n);
      ByteShorter(v, n);
      ByteShorter(w, n);
      LittleEndianInjective(v / 256, w / 256, n - 1);
    }
  }

  // ----- folding a list of words -----

  function FoldAll(values: seq<Word>, seed: Word): Word {
    if values == [] then seed else FoldU64(values[|values| - 1], FoldAll(values[..|values| - 1], seed))
  }

  /** Eight bytes per word, lowest first. */
  function Words(vs: seq<Word>): (r: seq<Byte>)
    ensures |r| == 8 * |vs|
  {
    if vs == [] then [] else Words(vs[..|vs| - 1]) + LittleEndian(vs[|vs| - 1], 8)
  }

  /** Folding words one by one is hashing their bytes. */
  lemma {:induction false} FoldIsFnv(vs: seq<Word>, seed: Word)
    ensures FoldAll(vs, seed) == Fnv(Words(vs), seed)
  {
    if vs != [] {
      var n := |vs| - 1;
      FoldIsFnv(vs[..n], seed);
      FnvAppend(Words(vs[..n]), LittleEndian(vs[n], 8), seed);
    }
  }

  lemma {:induction false} WordsConcat(a: seq<Word>, b: seq<Word>)
    ensures Words(a + b) == Words(a) + Words(b)
  {
    if b == [] {
      assert a + b == a;
    } else {
      var n := |b| - 1;
      assert (a + b)[..|a + b| - 1] == a + b[..n];
      WordsConcat(a, b[..n]);
    }
  }

  lemma SplitEqual(a: seq<Byte>, b: seq<Byte>, c: seq<Byte>, d: seq<Byte>)
    requires a + b == c + d && |a| == |c|
    ensures a == c && b == d
  {
    assert (a + b)[..|a|] == a && (c + d)[..|c|] == c;
    assert (a + b)[|a|..] == b && (c + d)[|c|..] == d;
  }

  lemma {:induction false} WordsInjective(a: seq<Word>, b: seq<Word>)
    requires Words(a) == Words(b)
    ensures a == b
  {
    if a != [] {
      var n := |a| - 1;
      SplitEqual(Words(a[..n]), LittleEndian(a[n], 8), Words(b[..n]), LittleEndian(b[n], 8));
      WordsInjective(a[..n], b[..n]);
      Pow2Of64();
      LittleEndianInjective(a[n], b[n], 8);
      assert a == a[..n] + [a[n]] && b == b[..n] + [b[n]];
    }
  }
}
