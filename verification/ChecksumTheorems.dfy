/** What the digest of a state can and cannot tell apart. */
module ChecksumTheorems {
  import opened Fnv
  import opened Checksum

  // ----- drained archetypes -----

  ghost predicate AllWellFormed(archs: seq<Archetype>) {
    forall i :: 0 <= i < |archs| ==> WellFormed(archs[i])
  }

  /** What the n-th archetype adds to the entries. */
  function EntryOf(a: Archetype, n: nat): seq<ArchetypeEntry>
    requires WellFormed(a)
  {
    if RowCount(a.chunks) == 0 then [] else [ArchetypeEntry(n, a.signature, ArchetypeHash(a))]
  }

  lemma EntriesSnoc(archs: seq<Archetype>, a: Archetype)
    requires AllWellFormed(archs) && WellFormed(a)
    ensures AllWellFormed(archs + [a])
    ensures ArchetypeEntries(archs + [a]) == ArchetypeEntries(archs) + EntryOf(a, |archs|)
  {
    assert (archs + [a])[..|archs|] == archs;
  }

  /** The hashes that the total is folded from. */
  function Hashes(archs: seq<Archetype>): seq<Word>
    requires AllWellFormed(archs)
  {
    ArchetypeHashes(ArchetypeEntries(archs))
  }

  lemma HashesSnoc(archs: seq<Archetype>, a: Archetype)
    requires AllWellFormed(archs) && WellFormed(a)
    ensures AllWellFormed(archs + [a])
    ensures Hashes(archs + [a]) == Hashes(archs) + if RowCount(a.chunks) == 0 then [] else [ArchetypeHash(a)]
  {
    EntriesSnoc(archs, a);
  }

  /** An archetype without rows leaves no trace, wherever it was created. */
  lemma {:induction false} DrainedInvisible(before: seq<Archetype>, drained: Archetype, later: seq<Archetype>)
    requires RowCount(drained.chunks) == 0 && WellFormed(drained) && AllWellFormed(before) && AllWellFormed(later)
    ensures AllWellFormed(before + [drained] + later) && AllWellFormed(before + later)
    ensures Hashes(before + [drained] + later) == Hashes(before + later)
  {
    if later == [] {
      assert before + [drained] + later == before + [drained] && before + later == before;
      HashesSnoc(before, drained);
    } else {
      var front, x := later[..|later| - 1], later[|later| - 1];
      DrainedInvisible(before, drained, front);
      assert before + [drained] + later == (before + [drained] + front) + [x]
        && before + later == (before + front) + [x];
      HashesSnoc(before + [drained] + front, x);
      HashesSnoc(before + front, x);
    }
  }

  // ----- one flipped byte -----

  /** The hash function loses nothing of the digest so far. */
  ghost predicate Transparent(k: Hashing) {
    k.Custom? ==> forall e, s, t :: k.hash(e, s) == k.hash(e, t) ==> s == t
  }

  lemma ElementInjective(k: Hashing, e: Element, s: Word, t: Word)
    requires Transparent(k) && ElementHash(k, e, s) == ElementHash(k, e, t)
    ensures s == t
  {
    if k.Plain? {
      FnvSeedInjective(e, s, t);
    }
  }

  lemma {:induction false} ColumnInjective(k: Hashing, column: seq<Element>, s: Word, t: Word)
    requires Transparent(k) && ColumnHash(k, column, s) == ColumnHash(k, column, t)
    ensures s == t
  {
    if column != [] {
      var front := column[..|column| - 1];
      ElementInjective(k, column[|column| - 1], ColumnHash(k, front, s), ColumnHash(k, front, t));
      ColumnInjective(k, front, s, t);
    }
  }

  lemma {:induction false} ColumnsInjective(ks: seq<Hashing>, columns: seq<seq<Element>>, s: Word, t: Word)
    requires |ks| == |columns| && (forall i :: 0 <= i < |ks| ==> Transparent(ks[i]))
    requires ColumnsHash(ks, columns, s) == ColumnsHash(ks, columns, t)
    ensures s == t
  {
    if ks != [] {
      var n := |ks| - 1;
      ColumnInjective(ks[n], columns[n], ColumnsHash(ks[..n], columns[..n], s), ColumnsHash(ks[..n], columns[..n], t));
      ColumnsInjective(ks[..n], columns[..n], s, t);
    }
  }

  lemma {:induction false} FoldInjective(values: seq<Word>, s: Word, t: Word)
    requires FoldAll(values, s) == FoldAll(values, t)
    ensures s == t
  {
    if values != [] {
      var n := |values| - 1;
      FnvSeedInjective(LittleEndian(values[n], 8), FoldAll(values[..n], s), FoldAll(values[..n], t));
      FoldInjective(values[..n], s, t);
    }
  }

  function FlipByte(e: Element, k: nat, b: Byte): Element
    requires k < |e|
  {
    e[..k] + [b] + e[k + 1..]
  }

  lemma {:induction false} ColumnFlip(column: seq<Element>, r: nat, k: nat, b: Byte, seed: Word)
    requires r < |column| && k < |column[r]| && column[r][k] != b
    ensures ColumnHash(Plain, column, seed) != ColumnHash(Plain, column[r := FlipByte(column[r], k, b)], seed)
  {
    var n := |column| - 1;
    var flipped := column[r := FlipByte(column[r], k, b)];
    if r == n {
      assert flipped[..n] == column[..n];
      assert column[n][k := b] == FlipByte(column[n], k, b);
      OneByteNeverCollides(column[n], k, b, ColumnHash(Plain, column[..n], seed));
    } else {
      assert flipped[..n] == column[..n][r := FlipByte(column[..n][r], k, b)];
      ColumnFlip(column[..n], r, k, b, seed);
      if ColumnHash(Plain, column, seed) == ColumnHash(Plain, flipped, seed) {
        ElementInjective(Plain, column[n], ColumnHash(Plain, column[..n], seed), ColumnHash(Plain, flipped[..n], seed));
      }
    }
  }

  lemma {:induction false} ColumnsFlip(ks: seq<Hashing>, columns: seq<seq<Element>>, c: nat, r: nat, k: nat, b: Byte,
                                       seed: Word)
    requires |ks| == |columns| && (forall i :: 0 <= i < |ks| ==> Transparent(ks[i]))
    requires c < |ks| && ks[c].Plain? && r < |columns[c]| && k < |columns[c][r]| && columns[c][r][k] != b
    ensures ColumnsHash(ks, columns, seed) !=
            ColumnsHash(ks, columns[c := columns[c][r := FlipByte(columns[c][r], k, b)]], seed)
  {
    var n := |ks| - 1;
    var flipped := columns[c := columns[c][r := FlipByte(columns[c][r], k, b)]];
    if c == n {
      assert flipped[..n] == columns[..n];
      ColumnFlip(columns[n], r, k, b, ColumnsHash(ks[..n], columns[..n], seed));
    } else {
      assert flipped[..n] == columns[..n][c := columns[..n][c][r := FlipByte(columns[..n][c][r], k, b)]];
      ColumnsFlip(ks[..n], columns[..n], c, r, k, b, seed);
      if ColumnsHash(ks, columns, seed) == ColumnsHash(ks, flipped, seed) {
        ColumnInjective(ks[n], columns[n], ColumnsHash(ks[..n], columns[..n], seed),
                        ColumnsHash(ks[..n], flipped[..n], seed));
      }
    }
  }

  function FlipChunk(x: Chunk, c: nat, r: nat, k: nat, b: Byte): Chunk
    requires c < |x.columns| && r < |x.columns[c]| && k < |x.columns[c][r]|
  {
    x.(columns := x.columns[c := x.columns[c][r := FlipByte(x.columns[c][r], k, b)]])
  }

  lemma {:induction false} ChunksFlip(ks: seq<Hashing>, chunks: seq<Chunk>, i: nat, c: nat, r: nat, k: nat, b: Byte,
                                      seed: Word)
    requires (forall j :: 0 <= j < |chunks| ==> |chunks[j].columns| == |ks|)
             && (forall j :: 0 <= j < |ks| ==> Transparent(ks[j]))
    requires i < |chunks| && c < |ks| && ks[c].Plain? && r < |chunks[i].columns[c]|
    requires k < |chunks[i].columns[c][r]| && chunks[i].columns[c][r][k] != b
    ensures ChunksHash(ks, chunks, seed) != ChunksHash(ks, chunks[i := FlipChunk(chunks[i], c, r, k, b)], seed)
  {
    var n := |chunks| - 1;
    var flipped := chunks[i := FlipChunk(chunks[i], c, r, k, b)];
    if i == n {
      assert flipped[..n] == chunks[..n];
      ColumnsFlip(ks, chunks[n].columns, c, r, k, b, FoldAll(chunks[n].eids, ChunksHash(ks, chunks[..n], seed)));
    } else {
      assert flipped[..n] == chunks[..n][i := FlipChunk(chunks[..n][i], c, r, k, b)];
      ChunksFlip(ks, chunks[..n], i, c, r, k, b, seed);
      var s, t := ChunksHash(ks, chunks[..n], seed), ChunksHash(ks, flipped[..n], seed);
      if ChunksHash(ks, chunks, seed) == ChunksHash(ks, flipped, seed) {
        ColumnsInjective(ks, chunks[n].columns, FoldAll(chunks[n].eids, s), FoldAll(chunks[n].eids, t));
        FoldInjective(chunks[n].eids, s, t);
      }
    }
  }

  function Flip(a: Archetype, i: nat, c: nat, r: nat, k: nat, b: Byte): Archetype
    requires i < |a.chunks| && c < |a.chunks[i].columns| && r < |a.chunks[i].columns[c]|
             && k < |a.chunks[i].columns[c][r]|
  {
    a.(chunks := a.chunks[i := FlipChunk(a.chunks[i], c, r, k, b)])
  }

  lemma {:induction false} FlipRowCount(chunks: seq<Chunk>, i: nat, x: Chunk)
    requires i < |chunks| && |x.eids| == |chunks[i].eids|
    ensures RowCount(chunks[i := x]) == RowCount(chunks)
  {
    var n := |chunks| - 1;
    if i < n {
      FlipRowCount(chunks[..n], i, x);
      assert chunks[i := x][..n] == chunks[..n][i := x];
    } else {
      assert chunks[i := x][..n] == chunks[..n];
    }
  }

  /** Byte k of the value in row r of plain column c of chunk i, which is to become b. */
  ghost predicate CanFlip(a: Archetype, i: nat, c: nat, r: nat, k: nat, b: Byte) {
    && WellFormed(a) && RowCount(a.chunks) > 0 && (forall j :: 0 <= j < |a.hashing| ==> Transparent(a.hashing[j]))
    && i < |a.chunks| && c < |a.signature| && a.hashing[c].Plain?
    && r < |a.chunks[i].columns[c]| && k < |a.chunks[i].columns[c][r]| && a.chunks[i].columns[c][r][k] != b
  }

  lemma FlipArchetype(a: Archetype, i: nat, c: nat, r: nat, k: nat, b: Byte)
    requires CanFlip(a, i, c, r, k, b)
    ensures var f := Flip(a, i, c, r, k, b);
            WellFormed(f) && RowCount(f.chunks) == RowCount(a.chunks) && ArchetypeHash(f) != ArchetypeHash(a)
  {
    FlipRowCount(a.chunks, i, FlipChunk(a.chunks[i], c, r, k, b));
    ChunksFlip(a.hashing, a.chunks, i, c, r, k, b, FoldAll(a.signature, CHECKSUM_SEED));
  }

  /** Same entries except for the one of archetype `at`, which both lists have. */
  ghost predicate DifferOnlyAt(es: seq<ArchetypeEntry>, fs: seq<ArchetypeEntry>, at: nat) {
    && |es| == |fs| && (exists m :: 0 <= m < |es| && es[m].index == at)
    && forall m :: 0 <= m < |es| ==> es[m].index == fs[m].index && (es[m] != fs[m] <==> es[m].index == at)
  }

  lemma DifferSnoc(es: seq<ArchetypeEntry>, fs: seq<ArchetypeEntry>, at: nat, more: seq<ArchetypeEntry>)
    requires DifferOnlyAt(es, fs, at) && forall m :: 0 <= m < |more| ==> more[m].index != at
    ensures DifferOnlyAt(es + more, fs + more, at)
  {
    var m :| 0 <= m < |es| && es[m].index == at;
    assert (es + more)[m].index == at;
  }

  /** Changing one byte of one component's value changes the entry of that archetype, and the
      entry of no other. */
  lemma {:induction false} FlipChangesOneEntry(archs: seq<Archetype>, at: nat, i: nat, c: nat, r: nat, k: nat, b: Byte)
    requires AllWellFormed(archs) && at < |archs| && CanFlip(archs[at], i, c, r, k, b)
    ensures AllWellFormed(archs[at := Flip(archs[at], i, c, r, k, b)])
    ensures DifferOnlyAt(ArchetypeEntries(archs), ArchetypeEntries(archs[at := Flip(archs[at], i, c, r, k, b)]), at)
  {
    var front, x := archs[..|archs| - 1], archs[|archs| - 1];
    var changed := Flip(archs[at], i, c, r, k, b);
    FlipArchetype(archs[at], i, c, r, k, b);
    assert archs == front + [x];
    if at == |front| {
      assert archs[at := changed] == front + [changed];
      LastChanged(front, x, changed);
    } else {
      assert archs[at := changed] == front[at := changed] + [x];
      FlipChangesOneEntry(front, at, i, c, r, k, b);
      EarlierChanged(front, front[at := changed], x, at);
    }
  }

  lemma {:induction false} LastChanged(front: seq<Archetype>, x: Archetype, y: Archetype)
    requires AllWellFormed(front) && WellFormed(x) && WellFormed(y) && RowCount(x.chunks) == RowCount(y.chunks) > 0
    requires ArchetypeHash(x) != ArchetypeHash(y)
    ensures AllWellFormed(front + [y]) && AllWellFormed(front + [x])
    ensures DifferOnlyAt(ArchetypeEntries(front + [x]), ArchetypeEntries(front + [y]), |front|)
  {
    EntriesSnoc(front, x);
    EntriesSnoc(front, y);
    EntryIndices(front);
    LastDiffers(ArchetypeEntries(front), EntryOf(x, |front|)[0], EntryOf(y, |front|)[0]);
  }

  lemma {:induction false} EarlierChanged(front: seq<Archetype>, changed: seq<Archetype>, x: Archetype, at: nat)
    requires AllWellFormed(front) && AllWellFormed(changed) && WellFormed(x) && at < |front| == |changed|
    requires DifferOnlyAt(ArchetypeEntries(front), ArchetypeEntries(changed), at)
    ensures AllWellFormed(front + [x]) && AllWellFormed(changed + [x])
    ensures DifferOnlyAt(ArchetypeEntries(front + [x]), ArchetypeEntries(changed + [x]), at)
  {
    EntriesSnoc(front, x);
    EntriesSnoc(changed, x);
    DifferSnoc(ArchetypeEntries(front), ArchetypeEntries(changed), at, EntryOf(x, |front|));
  }

  lemma LastDiffers(es: seq<ArchetypeEntry>, e: ArchetypeEntry, f: ArchetypeEntry)
    requires (forall m :: 0 <= m < |es| ==> es[m].index < e.index) && e.index == f.index && e != f
    ensures DifferOnlyAt(es + [e], es + [f], e.index)
  {
    assert (es + [e])[|es|].index == e.index;
  }

  lemma {:induction false} EntryIndices(archs: seq<Archetype>)
    requires AllWellFormed(archs)
    ensures forall m :: 0 <= m < |ArchetypeEntries(archs)| ==> ArchetypeEntries(archs)[m].index < |archs|
  {
    if archs != [] {
      EntryIndices(archs[..|archs| - 1]);
    }
  }
}
