/** The full-state checksum walk: what it hashes, and what the digest can and cannot tell apart. */
module Checksum {
  import opened Fnv
  import opened Sorting

  /** The bytes of one component value. */
  type Element = seq<Byte>

  /** Tag columns have no data; plain ones are hashed as raw bytes; the others bring their own
      hash function. */
  datatype Hashing = Tag | Plain | Custom(hash: (Element, Word) -> Word)

  /** columns[c][r] is the value of row r in column c. */
  datatype Chunk = Chunk(eids: seq<Word>, columns: seq<seq<Element>>)

  datatype Archetype = Archetype(signature: seq<Word>, hashing: seq<Hashing>, chunks: seq<Chunk>)

  predicate WellFormed(a: Archetype) {
    && |a.hashing| == |a.signature|
    && forall i :: 0 <= i < |a.chunks| ==> |a.chunks[i].columns| == |a.signature|
  }

  function RowCount(chunks: seq<Chunk>): nat {
    if chunks == [] then 0 else RowCount(chunks[..|chunks| - 1]) + |chunks[|chunks| - 1].eids|
  }

  // ----- specification -----

  /** checksum_value. */
  function ElementHash(k: Hashing, e: Element, seed: Word): Word {
    match k
    case Tag => seed
    case Plain => Fnv.Fnv(e, seed)
    case Custom(hash) => hash(e, seed)
  }

  /** A column element by element. */
  function ColumnHash(k: Hashing, column: seq<Element>, seed: Word): Word {
    if column == [] then seed
    else ElementHash(k, column[|column| - 1], ColumnHash(k, column[..|column| - 1], seed))
  }

  function ColumnsHash(ks: seq<Hashing>, columns: seq<seq<Element>>, seed: Word): Word
    requires |ks| == |columns|
  {
    if ks == [] then seed
    else
      var n := |ks| - 1;
      ColumnHash(ks[n], columns[n], ColumnsHash(ks[..n], columns[..n], seed))
  }

  function ChunksHash(ks: seq<Hashing>, chunks: seq<Chunk>, seed: Word): Word
    requires forall i :: 0 <= i < |chunks| ==> |chunks[i].columns| == |ks|
  {
    if chunks == [] then seed
    else
      var n := |chunks| - 1;
      ColumnsHash(ks, chunks[n].columns, FoldAll(chunks[n].eids, ChunksHash(ks, chunks[..n], seed)))
  }

  function ArchetypeHash(a: Archetype): Word
    requires WellFormed(a)
  {
    ChunksHash(a.hashing, a.chunks, FoldAll(a.signature, CHECKSUM_SEED))
  }

  datatype ArchetypeEntry = ArchetypeEntry(index: nat, signature: seq<Word>, hash: Word)

  /** The entries of the archetypes that hold rows, in index order. */
  function ArchetypeEntries(archs: seq<Archetype>): seq<ArchetypeEntry>
    requires forall i :: 0 <= i < |archs| ==> WellFormed(archs[i])
  {
    if archs == [] then []
    else
      var n := |archs| - 1;
      ArchetypeEntries(archs[..n]) +
      if RowCount(archs[n].chunks) == 0 then [] else [ArchetypeEntry(n, archs[n].signature, ArchetypeHash(archs[n]))]
  }

  /** A singleton is known to the walk by its id and its hash function applied to its value. */
  type Singleton = Word -> Word

  datatype SingletonEntry = SingletonEntry(id: Word, hash: Word)

  function SingletonHash(id: Word, value: Singleton): Word {
    value(FoldU64(id, CHECKSUM_SEED))
  }

  /** The ids of all singletons in ascending order. */
  ghost predicate SortedIds(ids: seq<Word>, singletons: map<Word, Singleton>) {
    (forall i, j :: 0 <= i < j < |ids| ==> ids[i] < ids[j]) && forall id: Word :: id in ids <==> id in singletons
  }

  function SingletonEntries(ids: seq<Word>, singletons: map<Word, Singleton>): seq<SingletonEntry>
    requires forall i :: 0 <= i < |ids| ==> ids[i] in singletons
  {
    seq(|ids|, i requires 0 <= i < |ids| => SingletonEntry(ids[i], SingletonHash(ids[i], singletons[ids[i]])))
  }

  datatype Breakdown = Breakdown(archetypes: seq<ArchetypeEntry>, singletons: seq<SingletonEntry>, total: Word)

  function ArchetypeHashes(es: seq<ArchetypeEntry>): (hs: seq<Word>)
    ensures |hs| == |es|
  {
    seq(|es|, i requires 0 <= i < |es| => es[i].hash)
  }

  function SingletonHashes(es: seq<SingletonEntry>): (hs: seq<Word>)
    ensures |hs| == |es|
  {
    seq(|es|, i requires 0 <= i < |es| => es[i].hash)
  }

  /** The digest as a function of the breakdown's entries. */
  function Total(archetypes: seq<ArchetypeEntry>, singletons: seq<SingletonEntry>): Word {
    FoldAll(SingletonHashes(singletons), FoldAll(ArchetypeHashes(archetypes), CHECKSUM_SEED))
  }

  // ----- hashing a column -----

  function Flatten(column: seq<Element>): seq<Byte> {
    if column == [] then [] else Flatten(column[..|column| - 1]) + column[|column| - 1]
  }

  /** A slab hashed in one call is its elements hashed in turn. */
  lemma {:induction false} SlabIsElementwise(column: seq<Element>, seed: Word)
    ensures Fnv.Fnv(Flatten(column), seed) == ColumnHash(Plain, column, seed)
  {
    if column != [] {
      SlabIsElementwise(column[..|column| - 1], seed);
      FnvAppend(Flatten(column[..|column| - 1]), column[|column| - 1], seed);
    }
  }

  lemma {:induction false} TagColumnSilent(column: seq<Element>, seed: Word)
    ensures ColumnHash(Tag, column, seed) == seed
  {
    if column != [] {
      TagColumnSilent(column[..|column| - 1], seed);
    }
  }

  /** hash_rows: the whole slab at once on the byte path, row by row otherwise. */
  method HashRows(k: Hashing, column: seq<Element>, seed: Word) returns (h: Word)
    requires !k.Tag?
    ensures h == ColumnHash(k, column, seed)
  {
    if k.Plain? {
      SlabIsElementwise(column, seed);
      h := Fnv1a64Bytes(Flatten(column), seed);
      return;
    }
    h := seed;
    var i := 0;
    while i < |column|
      invariant 0 <= i <= |column| && h == ColumnHash(k, column[..i], seed)
    {
      assert column[..i + 1][..i] == column[..i];
      h := k.hash(column[i], h);
      i := i + 1;
    }
    assert column[..i] == column;
  }

  method FoldValues(values: seq<Word>, seed: Word) returns (h: Word)
    ensures h == FoldAll(values, seed)
  {
    h := seed;
    var i := 0;
    while i < |values|
      invariant 0 <= i <= |values| && h == FoldAll(values[..i], seed)
    {
      assert values[..i + 1][..i] == values[..i];
      h := FoldUint64(values[i], h);
      i := i + 1;
    }
    assert values[..i] == values;
  }

  method HashColumns(ks: seq<Hashing>, columns: seq<seq<Element>>, seed: Word) returns (h: Word)
    requires |ks| == |columns|
    ensures h == ColumnsHash(ks, columns, seed)
  {
    h := seed;
    var c := 0;
    while c < |ks|
      invariant 0 <= c <= |ks| && h == ColumnsHash(ks[..c], columns[..c], seed)
    {
      assert ks[..c + 1][..c] == ks[..c] && columns[..c + 1][..c] == columns[..c];
      if ks[c].Tag? {
        TagColumnSilent(columns[c], h);
      } else {
        h := HashRows(ks[c], columns[c], h);
      }
      c := c + 1;
    }
    assert ks[..c] == ks && columns[..c] == columns;
  }

  method HashArchetype(a: Archetype) returns (h: Word)
    requires WellFormed(a)
    ensures h == ArchetypeHash(a)
  {
    h := FoldValues(a.signature, CHECKSUM_SEED);
    ghost var seed := h;
    var i := 0;
    while i < |a.chunks|
      invariant 0 <= i <= |a.chunks| && h == ChunksHash(a.hashing, a.chunks[..i], seed)
    {
      assert a.chunks[..i + 1][..i] == a.chunks[..i];
      h := FoldValues(a.chunks[i].eids, h);
      h := HashColumns(a.hashing, a.chunks[i].columns, h);
      i := i + 1;
    }
    assert a.chunks[..i] == a.chunks;
  }

  // ----- the walk -----

  lemma FoldSnoc(values: seq<Word>, v: Word, seed: Word)
    ensures FoldAll(values + [v], seed) == FoldU64(v, FoldAll(values, seed))
  {
    assert (values + [v])[..|values|] == values;
  }

  method WalkArchetypes(archs: seq<Archetype>) returns (total: Word, entries: seq<ArchetypeEntry>)
    requires forall i :: 0 <= i < |archs| ==> WellFormed(archs[i])
    ensures entries == ArchetypeEntries(archs) && total == FoldAll(ArchetypeHashes(entries), CHECKSUM_SEED)
  {
    total, entries := CHECKSUM_SEED, [];
    var i := 0;
    while i < |archs|
      invariant 0 <= i <= |archs| && entries == ArchetypeEntries(archs[..i])
      invariant total == FoldAll(ArchetypeHashes(entries), CHECKSUM_SEED)
    {
      assert archs[..i + 1][..i] == archs[..i];
      if RowCount(archs[i].chunks) > 0 {
        var h := HashArchetype(archs[i]);
        FoldSnoc(ArchetypeHashes(entries), h, CHECKSUM_SEED);
        total := FoldUint64(h, total);
        assert ArchetypeHashes(entries + [ArchetypeEntry(i, archs[i].signature, h)]) == ArchetypeHashes(entries) + [h];
        entries := entries + [ArchetypeEntry(i, archs[i].signature, h)];
      }
      i := i + 1;
    }
    assert archs[..i] == archs;
  }

  /** Collects the keys in whatever order the map yields them, and sorts them. */
  method SortSingletons(singletons: map<Word, Singleton>) returns (ids: seq<Word>)
    ensures SortedIds(ids, singletons)
  {
    var rest := singletons.Keys;
    var found: seq<Word> := [];
    while rest != {}
      invariant rest <= singletons.Keys
      invariant forall id: Word :: id in found <==> id in singletons && id !in rest
      invariant AllDifferent(found)
      decreases |rest|
    {
      var id :| id in rest;
      found := found + [id];
      rest := rest - {id};
    }
    ids := Sort(found, (w: Word) => (w as int, 0));
    SortedDistinct(ids, found);
  }

  lemma SortedDistinct(ids: seq<Word>, found: seq<Word>)
    requires multiset(ids) == multiset(found) && SortedBy(ids, (w: Word) => (w as int, 0)) && AllDifferent(found)
    ensures forall i, j :: 0 <= i < j < |ids| ==> ids[i] < ids[j]
  {
    PermutationDifferent(found, ids);
    forall i, j | 0 <= i < j < |ids| ensures ids[i] < ids[j] {
      assert KeyLe((ids[i] as int, 0), (ids[j] as int, 0));
    }
  }

  /** Whatever order the map is iterated in, the sorted id list is the same. */
  lemma SortedIdsUnique(a: seq<Word>, b: seq<Word>, singletons: map<Word, Singleton>)
    requires SortedIds(a, singletons) && SortedIds(b, singletons)
    ensures a == b
  {
    StrictlySortedUnique(a, b, (w: Word) => (w as int, 0));
  }

  lemma NextSingleton(ids: seq<Word>, i: nat, singletons: map<Word, Singleton>)
    requires i < |ids| && forall k :: 0 <= k < |ids| ==> ids[k] in singletons
    ensures var e := SingletonEntry(ids[i], SingletonHash(ids[i], singletons[ids[i]]));
            && SingletonEntries(ids[..i + 1], singletons) == SingletonEntries(ids[..i], singletons) + [e]
            && SingletonHashes(SingletonEntries(ids[..i], singletons) + [e]) ==
              SingletonHashes(SingletonEntries(ids[..i], singletons)) + [e.hash]
  {
  }

  method WalkSingletons(singletons: map<Word, Singleton>, start: Word)
    returns (total: Word, entries: seq<SingletonEntry>, ghost ids: seq<Word>)
    ensures SortedIds(ids, singletons) && entries == SingletonEntries(ids, singletons)
    ensures total == FoldAll(SingletonHashes(entries), start)
  {
    var sorted := SortSingletons(singletons);
    ids := sorted;
    total, entries := start, [];
    var i := 0;
    while i < |sorted|
      invariant 0 <= i <= |sorted| && entries == SingletonEntries(sorted[..i], singletons)
      invariant total == FoldAll(SingletonHashes(entries), start)
    {
      var id := sorted[i];
      assert id in sorted;
      var h := FoldUint64(id, CHECKSUM_SEED);
      h := singletons[id](h);
      FoldSnoc(SingletonHashes(entries), h, start);
      NextSingleton(sorted, i, singletons);
      total := FoldUint64(h, total);
      entries := entries + [SingletonEntry(id, h)];
      i := i + 1;
    }
    assert sorted[..i] == sorted;
  }

  /** world_checksum_breakdown; world_checksum returns the total of the same walk. */
  method Walk(archs: seq<Archetype>, singletons: map<Word, Singleton>) returns (out: Breakdown, ghost ids: seq<Word>)
    requires forall i :: 0 <= i < |archs| ==> WellFormed(archs[i])
    ensures SortedIds(ids, singletons)
    ensures out.archetypes == ArchetypeEntries(archs) && out.singletons == SingletonEntries(ids, singletons)
    ensures out.total == Total(out.archetypes, out.singletons)
  {
    var total, archetypes := WalkArchetypes(archs);
    var sum, entries;
    sum, entries, ids := WalkSingletons(singletons, total);
    out := Breakdown(archetypes, entries, sum);
  }

  /** fold_checksum_breakdown. */
  method FoldBreakdown(b: Breakdown) returns (total: Word)
    ensures total == Total(b.archetypes, b.singletons)
  {
    total := FoldValues(ArchetypeHashes(b.archetypes), CHECKSUM_SEED);
    total := FoldValues(SingletonHashes(b.singletons), total);
  }

  /** Two walks of the same state agree with each other and with the re-folded breakdown, whatever
      order the singleton map was iterated in. */
  method WalksAgree(archs: seq<Archetype>, singletons: map<Word, Singleton>)
    returns (first: Breakdown, second: Breakdown, refolded: Word)
    requires forall i :: 0 <= i < |archs| ==> WellFormed(archs[i])
    ensures first == second && refolded == first.total
  {
    ghost var a, b;
    first, a := Walk(archs, singletons);
    second, b := Walk(archs, singletons);
    SortedIdsUnique(a, b, singletons);
    refolded := FoldBreakdown(second);
  }
}
