/** The bytes that the checksum folds, and exactly when two states feed it the same bytes: what
    the digest can tell apart, collisions of the hash function aside. */
module ChecksumStreams {
  import opened Fnv
  import opened Checksum

  // ----- the bytes of an archetype -----

  function ColumnBytes(k: Hashing, column: seq<Element>): seq<Byte> {
    if k.Plain? then Flatten(column) else []
  }

  function ColumnsBytes(ks: seq<Hashing>, columns: seq<seq<Element>>): seq<Byte>
    requires |ks| == |columns|
  {
    if ks == [] then []
    else
      var n := |ks| - 1;
      ColumnsBytes(ks[..n], columns[..n]) + ColumnBytes(ks[n], columns[n])
  }

  function ChunkBytes(ks: seq<Hashing>, x: Chunk): seq<Byte>
    requires |ks| == |x.columns|
  {
    Words(x.eids) + ColumnsBytes(ks, x.columns)
  }

  function RowBytes(ks: seq<Hashing>, chunks: seq<Chunk>): seq<Byte>
    requires forall i :: 0 <= i < |chunks| ==> |chunks[i].columns| == |ks|
  {
    if chunks == [] then []
    else
      var n := |chunks| - 1;
      RowBytes(ks, chunks[..n]) + ChunkBytes(ks, chunks[n])
  }

  function Stream(a: Archetype): seq<Byte>
    requires WellFormed(a)
  {
    Words(a.signature) + RowBytes(a.hashing, a.chunks)
  }

  predicate NoCustom(ks: seq<Hashing>) {
    forall i :: 0 <= i < |ks| ==> !ks[i].Custom?
  }

  lemma ColumnIsFnv(k: Hashing, column: seq<Element>, seed: Word)
    requires !k.Custom?
    ensures ColumnHash(k, column, seed) == Fnv.Fnv(ColumnBytes(k, column), seed)
  {
    if k.Plain? {
      SlabIsElementwise(column, seed);
    } else {
      TagColumnSilent(column, seed);
    }
  }

  lemma {:induction false} ColumnsAreFnv(ks: seq<Hashing>, columns: seq<seq<Element>>, seed: Word)
    requires |ks| == |columns| && NoCustom(ks)
    ensures ColumnsHash(ks, columns, seed) == Fnv.Fnv(ColumnsBytes(ks, columns), seed)
  {
    if ks != [] {
      var n := |ks| - 1;
      ColumnsAreFnv(ks[..n], columns[..n], seed);
      ColumnIsFnv(ks[n], columns[n], ColumnsHash(ks[..n], columns[..n], seed));
      FnvAppend(ColumnsBytes(ks[..n], columns[..n]), ColumnBytes(ks[n], columns[n]), seed);
    }
  }

  lemma ChunkIsFnv(ks: seq<Hashing>, x: Chunk, seed: Word)
    requires |ks| == |x.columns| && NoCustom(ks)
    ensures ColumnsHash(ks, x.columns, FoldAll(x.eids, seed)) == Fnv.Fnv(ChunkBytes(ks, x), seed)
  {
    FoldIsFnv(x.eids, seed);
    ColumnsAreFnv(ks, x.columns, FoldAll(x.eids, seed));
    FnvAppend(Words(x.eids), ColumnsBytes(ks, x.columns), seed);
  }

  lemma {:induction false} ChunksAreFnv(ks: seq<Hashing>, chunks: seq<Chunk>, seed: Word)
    requires (forall i :: 0 <= i < |chunks| ==> |chunks[i].columns| == |ks|) && NoCustom(ks)
    ensures ChunksHash(ks, chunks, seed) == Fnv.Fnv(RowBytes(ks, chunks), seed)
  {
    if chunks != [] {
      var n := |chunks| - 1;
      ChunksAreFnv(ks, chunks[..n], seed);
      ChunkIsFnv(ks, chunks[n], ChunksHash(ks, chunks[..n], seed));
      FnvAppend(RowBytes(ks, chunks[..n]), ChunkBytes(ks, chunks[n]), seed);
    }
  }

  /** The hash of an archetype is the plain FNV-1a hash of its stream. */
  lemma HashOfStream(a: Archetype)
    requires WellFormed(a) && NoCustom(a.hashing)
    ensures ArchetypeHash(a) == Fnv.Fnv(Stream(a), CHECKSUM_SEED)
  {
    FoldIsFnv(a.signature, CHECKSUM_SEED);
    ChunksAreFnv(a.hashing, a.chunks, FoldAll(a.signature, CHECKSUM_SEED));
    FnvAppend(Words(a.signature), RowBytes(a.hashing, a.chunks), CHECKSUM_SEED);
  }

  // ----- the archetypes a world can hold -----

  /** What the ids alone fix: the size of a component (0 for a tag) and the rows per chunk. */
  datatype Layout = Layout(size: Word -> nat, capacity: seq<Word> -> nat)

  function Sizes(l: Layout, signature: seq<Word>): (zs: seq<nat>)
    ensures |zs| == |signature| && forall i :: 0 <= i < |zs| ==> zs[i] == l.size(signature[i])
  {
    seq(|signature|, i requires 0 <= i < |signature| => l.size(signature[i]))
  }

  function HashingOf(zs: seq<nat>): (ks: seq<Hashing>)
    ensures |ks| == |zs| && forall i :: 0 <= i < |ks| ==> ks[i] == if zs[i] == 0 then Tag else Plain
  {
    seq(|zs|, i requires 0 <= i < |zs| => if zs[i] == 0 then Tag else Plain)
  }

  /** One value of z bytes per row; a tag has no column data. */
  predicate ColumnShaped(z: nat, column: seq<Element>, rows: nat) {
    if z == 0 then column == [] else |column| == rows && forall r :: 0 <= r < rows ==> |column[r]| == z
  }

  predicate ChunkShaped(zs: seq<nat>, x: Chunk) {
    |x.columns| == |zs| && forall c :: 0 <= c < |zs| ==> ColumnShaped(zs[c], x.columns[c], |x.eids|)
  }

  /** Only the last chunk is partial, and none is empty. */
  predicate PackedChunks(chunks: seq<Chunk>, cap: nat) {
    forall i :: 0 <= i < |chunks| ==> 0 < |chunks[i].eids| <= cap && (i < |chunks| - 1 ==> |chunks[i].eids| == cap)
  }

  ghost predicate Proper(l: Layout, a: Archetype) {
    && (forall i, j :: 0 <= i < j < |a.signature| ==> a.signature[i] < a.signature[j])
    && a.signature != [] && a.hashing == HashingOf(Sizes(l, a.signature))
    && PackedChunks(a.chunks, l.capacity(a.signature))
    && Shaped(Sizes(l, a.signature), a.chunks)
  }

  // ----- lengths -----

  /** Bytes per row: the entity id and the components. */
  function Stride(zs: seq<nat>): (n: nat)
    ensures n >= 8
  {
    if zs == [] then 8 else Stride(zs[..|zs| - 1]) + zs[|zs| - 1]
  }

  lemma {:induction false} FlatLength(column: seq<Element>, z: nat)
    requires forall r :: 0 <= r < |column| ==> |column[r]| == z
    ensures |Flatten(column)| == |column| * z
  {
    if column != [] {
      FlatLength(column[..|column| - 1], z);
      AddOne(|column| - 1, z);
    }
  }

  lemma AddOne(n: int, z: int)
    ensures n * z + z == (n + 1) * z
  {
  }

  lemma AddRows(x: int, y: int, m: int, n: int, stride: int)
    requires x == m * stride && y == n * stride
    ensures x + y == (m + n) * stride
  {
  }

  lemma ColumnLength(z: nat, column: seq<Element>, rows: nat)
    requires ColumnShaped(z, column, rows)
    ensures |ColumnBytes(HashingOf([z])[0], column)| == rows * z
  {
    if z > 0 {
      FlatLength(column, z);
    }
  }

  lemma HashingPrefix(zs: seq<nat>, n: nat)
    requires n <= |zs|
    ensures HashingOf(zs)[..n] == HashingOf(zs[..n])
  {
  }

  lemma AddColumn(x: int, y: int, total: int, rows: int, stride: int, z: int, wider: int)
    requires x + 8 * rows == rows * stride && y == rows * z && total == x + y && wider == stride + z
    ensures total + 8 * rows == rows * wider
  {
    Distribute(rows, stride, z);
  }

  lemma LastColumn(zs: seq<nat>, columns: seq<seq<Element>>, n: nat)
    requires |columns| == |zs| == n + 1
    ensures |ColumnsBytes(HashingOf(zs), columns)| ==
            |ColumnsBytes(HashingOf(zs[..n]), columns[..n])| + |ColumnBytes(HashingOf(zs)[n], columns[n])|
  {
    HashingPrefix(zs, n);
  }

  lemma {:induction false} ColumnsLength(zs: seq<nat>, columns: seq<seq<Element>>, rows: nat)
    requires |columns| == |zs| && forall c :: 0 <= c < |zs| ==> ColumnShaped(zs[c], columns[c], rows)
    ensures |ColumnsBytes(HashingOf(zs), columns)| + 8 * rows == rows * Stride(zs)
  {
    if zs != [] {
      var n := |zs| - 1;
      ColumnsLength(zs[..n], columns[..n], rows);
      LastColumn(zs, columns, n);
      ColumnLength(zs[n], columns[n], rows);
      AddColumn(|ColumnsBytes(HashingOf(zs[..n]), columns[..n])|, |ColumnBytes(HashingOf(zs)[n], columns[n])|,
                |ColumnsBytes(HashingOf(zs), columns)|, rows, Stride(zs[..n]), zs[n], Stride(zs));
    }
  }

  lemma Distribute(a: int, b: int, c: int)
    ensures a * b + a * c == a * (b + c)
  {
  }

  lemma ChunkLength(zs: seq<nat>, x: Chunk)
    requires ChunkShaped(zs, x)
    ensures |ChunkBytes(HashingOf(zs), x)| == |x.eids| * Stride(zs)
  {
    ColumnsLength(zs, x.columns, |x.eids|);
  }

  predicate Shaped(zs: seq<nat>, chunks: seq<Chunk>) {
    forall i :: 0 <= i < |chunks| ==> ChunkShaped(zs, chunks[i]) && |chunks[i].columns| == |HashingOf(zs)|
  }

  lemma {:induction false} RowsLength(zs: seq<nat>, chunks: seq<Chunk>)
    requires Shaped(zs, chunks)
    ensures |RowBytes(HashingOf(zs), chunks)| == RowCount(chunks) * Stride(zs)
  {
    if chunks == [] {
      assert RowCount(chunks) == 0;
    } else {
      var n := |chunks| - 1;
      RowsLength(zs, chunks[..n]);
      ChunkLength(zs, chunks[n]);
      AddRows(|RowBytes(HashingOf(zs), chunks[..n])|, |ChunkBytes(HashingOf(zs), chunks[n])|, RowCount(chunks[..n]),
              |chunks[n].eids|, Stride(zs));
    }
  }

  lemma {:induction false} PackedRows(chunks: seq<Chunk>, cap: nat)
    requires PackedChunks(chunks, cap) && chunks != []
    ensures RowCount(chunks) == (|chunks| - 1) * cap + |chunks[|chunks| - 1].eids|
  {
    var n := |chunks| - 1;
    if n > 0 {
      PackedRows(chunks[..n], cap);
      AddOne(n - 1, cap);
    } else {
      assert RowCount(chunks[..0]) == 0;
    }
  }

  lemma SameQuotient(n: int, l: int, m: int, k: int, cap: int)
    requires 1 <= l <= cap && 1 <= k <= cap && n * cap + l == m * cap + k
    ensures n == m && l == k
  {
    if n < m {
      Below(n, l, m, k, cap);
    }
    if m < n {
      Below(m, k, n, l, cap);
    }
  }

  lemma Below(n: int, l: int, m: int, k: int, cap: int)
    requires 0 <= l <= cap && 1 <= k && n < m
    ensures n * cap + l < m * cap + k
  {
    AddRows(n * cap, (m - n) * cap, n, m - n, cap);
    AtLeastOne(m - n, cap);
  }

  lemma AtLeastOne(d: int, cap: int)
    requires d >= 1 && cap >= 0
    ensures d * cap >= cap
  {
    AddRows((d - 1) * cap, cap, d - 1, 1, cap);
    assert (d - 1) * cap >= 0;
  }

  predicate Alike(a: seq<Chunk>, b: seq<Chunk>) {
    |a| == |b| && forall i :: 0 <= i < |a| ==> |a[i].eids| == |b[i].eids|
  }

  /** The row count of a packed archetype fixes how its chunks are filled. */
  lemma PackedAlike(a: seq<Chunk>, b: seq<Chunk>, cap: nat)
    requires PackedChunks(a, cap) && PackedChunks(b, cap) && RowCount(a) == RowCount(b)
    ensures Alike(a, b)
  {
    if a != [] {
      PackedRows(a, cap);
    }
    if b != [] {
      PackedRows(b, cap);
    }
    if a != [] && b != [] {
      SameQuotient(|a| - 1, |a[|a| - 1].eids|, |b| - 1, |b[|b| - 1].eids|, cap);
    }
  }

  // ----- equal streams of equal length -----

  lemma {:induction false} FlattenInjective(a: seq<Element>, b: seq<Element>, z: nat)
    requires |a| == |b| && forall r :: 0 <= r < |a| ==> |a[r]| == |b[r]| == z
    requires Flatten(a) == Flatten(b)
    ensures a == b
  {
    if a != [] {
      var n := |a| - 1;
      FlatLength(a[..n], z);
      FlatLength(b[..n], z);
      SplitEqual(Flatten(a[..n]), a[n], Flatten(b[..n]), b[n]);
      FlattenInjective(a[..n], b[..n], z);
      assert a == a[..n] + [a[n]] && b == b[..n] + [b[n]];
    }
  }

  lemma {:induction false} EqualColumns(zs: seq<nat>, a: seq<seq<Element>>, b: seq<seq<Element>>, rows: nat)
    requires |a| == |b| == |zs|
    requires forall c :: 0 <= c < |zs| ==> ColumnShaped(zs[c], a[c], rows) && ColumnShaped(zs[c], b[c], rows)
    requires ColumnsBytes(HashingOf(zs), a) == ColumnsBytes(HashingOf(zs), b)
    ensures a == b
  {
    if zs != [] {
      var n := |zs| - 1;
      HashingPrefix(zs, n);
      ColumnsLength(zs[..n], a[..n], rows);
      ColumnsLength(zs[..n], b[..n], rows);
      var k := HashingOf(zs)[n];
      SplitEqual(ColumnsBytes(HashingOf(zs[..n]), a[..n]), ColumnBytes(k, a[n]),
                 ColumnsBytes(HashingOf(zs[..n]), b[..n]), ColumnBytes(k, b[n]));
      EqualColumns(zs[..n], a[..n], b[..n], rows);
      if zs[n] > 0 {
        FlattenInjective(a[n], b[n], zs[n]);
      }
      assert a == a[..n] + [a[n]] && b == b[..n] + [b[n]];
    }
  }

  lemma EqualChunks(zs: seq<nat>, x: Chunk, y: Chunk)
    requires ChunkShaped(zs, x) && ChunkShaped(zs, y) && |x.eids| == |y.eids|
    requires ChunkBytes(HashingOf(zs), x) == ChunkBytes(HashingOf(zs), y)
    ensures x == y
  {
    SplitEqual(Words(x.eids), ColumnsBytes(HashingOf(zs), x.columns), Words(y.eids),
               ColumnsBytes(HashingOf(zs), y.columns));
    WordsInjective(x.eids, y.eids);
    EqualColumns(zs, x.columns, y.columns, |x.eids|);
  }

  lemma LastChunksEqual(zs: seq<nat>, a: seq<Chunk>, b: seq<Chunk>)
    requires Alike(a, b) && Shaped(zs, a) && Shaped(zs, b) && a != []
    requires RowBytes(HashingOf(zs), a) == RowBytes(HashingOf(zs), b)
    ensures RowBytes(HashingOf(zs), a[..|a| - 1]) == RowBytes(HashingOf(zs), b[..|b| - 1]) && a[|a| - 1] == b[|b| - 1]
  {
    var n, ks := |a| - 1, HashingOf(zs);
    SameLength(zs, a[..n], b[..n]);
    SplitEqual(RowBytes(ks, a[..n]), ChunkBytes(ks, a[n]), RowBytes(ks, b[..n]), ChunkBytes(ks, b[n]));
    EqualChunks(zs, a[n], b[n]);
  }

  lemma FrontsAlike(zs: seq<nat>, a: seq<Chunk>, b: seq<Chunk>)
    requires Alike(a, b) && Shaped(zs, a) && Shaped(zs, b) && a != []
    ensures Alike(a[..|a| - 1], b[..|b| - 1]) && Shaped(zs, a[..|a| - 1]) && Shaped(zs, b[..|b| - 1])
  {
  }

  lemma FrontAndLast(a: seq<Chunk>, b: seq<Chunk>)
    requires |a| == |b| > 0 && a[..|a| - 1] == b[..|b| - 1] && a[|a| - 1] == b[|b| - 1]
    ensures a == b
  {
    assert a == a[..|a| - 1] + [a[|a| - 1]] && b == b[..|b| - 1] + [b[|b| - 1]];
  }

  lemma {:induction false} EqualRows(zs: seq<nat>, a: seq<Chunk>, b: seq<Chunk>)
    requires Alike(a, b) && Shaped(zs, a) && Shaped(zs, b)
    requires RowBytes(HashingOf(zs), a) == RowBytes(HashingOf(zs), b)
    ensures a == b
  {
    if a != [] {
      LastChunksEqual(zs, a, b);
      FrontsAlike(zs, a, b);
      EqualRows(zs, a[..|a| - 1], b[..|b| - 1]);
      FrontAndLast(a, b);
    }
  }

  lemma SameLength(zs: seq<nat>, a: seq<Chunk>, b: seq<Chunk>)
    requires Alike(a, b) && Shaped(zs, a) && Shaped(zs, b)
    ensures |RowBytes(HashingOf(zs), a)| == |RowBytes(HashingOf(zs), b)|
  {
    SameRowCount(a, b);
    RowsLength(zs, a);
    RowsLength(zs, b);
  }

  lemma {:induction false} SameRowCount(a: seq<Chunk>, b: seq<Chunk>)
    requires Alike(a, b)
    ensures RowCount(a) == RowCount(b)
  {
    if a != [] {
      SameRowCount(a[..|a| - 1], b[..|b| - 1]);
    }
  }

  lemma EqualLengthRows(n: int, m: int, stride: int)
    requires n * stride == m * stride && stride > 0
    ensures n == m
  {
  }

  /** Among archetypes with as many components, the stream is faithful. */
  lemma SameLengthSeparates(l: Layout, a: Archetype, b: Archetype)
    requires Proper(l, a) && Proper(l, b) && |a.signature| == |b.signature|
    ensures Stream(a) == Stream(b) <==> a == b
  {
    if Stream(a) == Stream(b) {
      SplitEqual(Words(a.signature), RowBytes(a.hashing, a.chunks), Words(b.signature), RowBytes(b.hashing, b.chunks));
      WordsInjective(a.signature, b.signature);
      var zs := Sizes(l, a.signature);
      RowsLength(zs, a.chunks);
      RowsLength(zs, b.chunks);
      EqualLengthRows(RowCount(a.chunks), RowCount(b.chunks), Stride(zs));
      PackedAlike(a.chunks, b.chunks, l.capacity(a.signature));
      EqualRows(zs, a.chunks, b.chunks);
    }
  }

  // ----- the shift -----

  /** The longer signature continues the shorter one, and what its last ids and its rows spell is
      what the rows of the shorter one spell. */
  ghost predicate Shift(long: Archetype, short: Archetype)
    requires WellFormed(long) && WellFormed(short)
  {
    var n := |short.signature|;
    && n < |long.signature| && long.signature[..n] == short.signature
    && Words(long.signature[n..]) + RowBytes(long.hashing, long.chunks) == RowBytes(short.hashing, short.chunks)
  }

  lemma LongerCoincides(long: Archetype, short: Archetype)
    requires WellFormed(long) && WellFormed(short) && |short.signature| < |long.signature|
    ensures Stream(long) == Stream(short) <==> Shift(long, short)
  {
    var n := |short.signature|;
    var front, rest := long.signature[..n], long.signature[n..];
    assert long.signature == front + rest;
    WordsConcat(front, rest);
    var tail := Words(rest) + RowBytes(long.hashing, long.chunks);
    assert Stream(long) == Words(front) + tail;
    if Stream(long) == Stream(short) {
      SplitEqual(Words(front), tail, Words(short.signature), RowBytes(short.hashing, short.chunks));
      WordsInjective(front, short.signature);
    }
  }

  /** Exactly when two archetypes have one stream: they are equal, or one is the other shifted. */
  lemma StreamsCoincide(l: Layout, a: Archetype, b: Archetype)
    requires Proper(l, a) && Proper(l, b)
    ensures Stream(a) == Stream(b) <==> a == b || Shift(a, b) || Shift(b, a)
  {
    if |a.signature| == |b.signature| {
      SameLengthSeparates(l, a, b);
    } else if |a.signature| > |b.signature| {
      LongerCoincides(a, b);
    } else {
      LongerCoincides(b, a);
    }
  }

  lemma {:induction false} FirstWord(vs: seq<Word>)
    requires vs != []
    ensures LittleEndian(vs[0], 8) <= Words(vs)
  {
    if |vs| > 1 {
      FirstWord(vs[..|vs| - 1]);
    } else {
      assert Words(vs[..0]) == [];
    }
  }

  lemma {:induction false} FirstChunk(ks: seq<Hashing>, chunks: seq<Chunk>)
    requires (forall i :: 0 <= i < |chunks| ==> |chunks[i].columns| == |ks|) && chunks != []
    ensures ChunkBytes(ks, chunks[0]) <= RowBytes(ks, chunks)
  {
    if |chunks| == 1 {
      assert RowBytes(ks, chunks[..0]) == [];
    } else {
      FirstChunk(ks, chunks[..|chunks| - 1]);
    }
  }

  lemma FirstId(ks: seq<Hashing>, chunks: seq<Chunk>)
    requires (forall i :: 0 <= i < |chunks| ==> |chunks[i].columns| == |ks|) && chunks != [] && chunks[0].eids != []
    ensures LittleEndian(chunks[0].eids[0], 8) <= RowBytes(ks, chunks)
  {
    FirstChunk(ks, chunks);
    FirstWord(chunks[0].eids);
    assert LittleEndian(chunks[0].eids[0], 8) <= ChunkBytes(ks, chunks[0]);
  }

  lemma SamePrefix(a: seq<Byte>, b: seq<Byte>, c: seq<Byte>)
    requires a <= c && b <= c && |a| == |b|
    ensures a == b
  {
    assert a == c[..|a|] && b == c[..|b|];
  }

  /** A shift needs an entity whose id, as a word, is a component id of the other archetype. */
  lemma ShiftNeedsClash(l: Layout, long: Archetype, short: Archetype)
    requires Proper(l, long) && Proper(l, short) && Shift(long, short)
    ensures short.chunks != [] && short.chunks[0].eids[0] == long.signature[|short.signature|]
  {
    var rest := long.signature[|short.signature|..];
    FirstWord(rest);
    assert LittleEndian(rest[0], 8) <= RowBytes(short.hashing, short.chunks);
    assert short.chunks != [];
    FirstId(short.hashing, short.chunks);
    SamePrefix(LittleEndian(rest[0], 8), LittleEndian(short.chunks[0].eids[0], 8),
               RowBytes(short.hashing, short.chunks));
    Pow2Of64();
    LittleEndianInjective(rest[0], short.chunks[0].eids[0], 8);
  }
}
