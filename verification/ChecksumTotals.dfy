/** When two live states have one total: exactly, collisions of the hash function aside. */
module ChecksumTotals {
  import opened Fnv
  import opened Checksum
  import opened ChecksumTheorems
  import opened ChecksumStreams

  // ----- singletons, and whole states -----

  /** What the total folds, one entry at a time. */
  datatype Entry = Rows(arch: Archetype) | Single(id: Word, value: seq<Byte>)

  ghost predicate ProperEntry(l: Layout, e: Entry) {
    e.Rows? ==> Proper(l, e.arch) && e.arch.chunks != []
  }

  function EntryStream(e: Entry): seq<Byte>
    requires e.Rows? ==> WellFormed(e.arch)
  {
    match e
    case Rows(a) => Stream(a)
    case Single(id, value) => LittleEndian(id, 8) + value
  }

  /** An archetype and a singleton coincide if the singleton has the first component's id and its
      value spells the rest of the archetype. */
  ghost predicate Disguise(a: Archetype, id: Word, value: seq<Byte>)
    requires WellFormed(a) && a.signature != []
  {
    a.signature[0] == id && value == Words(a.signature[1..]) + RowBytes(a.hashing, a.chunks)
  }

  ghost predicate Coincide(l: Layout, e: Entry, f: Entry)
    requires ProperEntry(l, e) && ProperEntry(l, f)
  {
    match (e, f)
    case (Rows(a), Rows(b)) => a == b || Shift(a, b) || Shift(b, a)
    case (Rows(a), Single(id, value)) => Disguise(a, id, value)
    case (Single(id, value), Rows(b)) => Disguise(b, id, value)
    case (Single(_, _), Single(_, _)) => e == f
  }

  lemma HeadWord(vs: seq<Word>)
    requires vs != []
    ensures Words(vs) == LittleEndian(vs[0], 8) + Words(vs[1..])
  {
    assert vs == [vs[0]] + vs[1..];
    WordsConcat([vs[0]], vs[1..]);
    assert Words([vs[0]]) == LittleEndian(vs[0], 8) by {
      assert [vs[0]][..0] == [];
    }
  }

  lemma SameIdAndRest(id: Word, rest: seq<Byte>, jd: Word, other: seq<Byte>)
    ensures LittleEndian(id, 8) + rest == LittleEndian(jd, 8) + other <==> id == jd && rest == other
  {
    if LittleEndian(id, 8) + rest == LittleEndian(jd, 8) + other {
      SplitEqual(LittleEndian(id, 8), rest, LittleEndian(jd, 8), other);
      Pow2Of64();
      LittleEndianInjective(id, jd, 8);
    }
  }

  lemma StreamHead(a: Archetype)
    requires WellFormed(a) && a.signature != []
    ensures Stream(a) == LittleEndian(a.signature[0], 8) + (Words(a.signature[1..]) + RowBytes(a.hashing, a.chunks))
  {
    HeadWord(a.signature);
    Reassociate(LittleEndian(a.signature[0], 8), Words(a.signature[1..]), RowBytes(a.hashing, a.chunks));
  }

  lemma Reassociate(a: seq<Byte>, b: seq<Byte>, c: seq<Byte>)
    ensures (a + b) + c == a + (b + c)
  {
  }

  lemma DisguiseExactly(a: Archetype, id: Word, value: seq<Byte>)
    requires WellFormed(a) && a.signature != []
    ensures Stream(a) == LittleEndian(id, 8) + value <==> Disguise(a, id, value)
  {
    StreamHead(a);
    SameIdAndRest(a.signature[0], Words(a.signature[1..]) + RowBytes(a.hashing, a.chunks), id, value);
  }

  lemma CoincideExactly(l: Layout, e: Entry, f: Entry)
    requires ProperEntry(l, e) && ProperEntry(l, f)
    ensures EntryStream(e) == EntryStream(f) <==> Coincide(l, e, f)
  {
    match (e, f)
    case (Rows(a), Rows(b)) => StreamsCoincide(l, a, b);
    case (Rows(a), Single(id, value)) => DisguiseExactly(a, id, value);
    case (Single(id, value), Rows(b)) => DisguiseExactly(b, id, value);
    case (Single(i, v), Single(j, w)) =>
      SameIdAndRest(i, v, j, w);
  }

  /** The word e spells as a component id, and those it spells as entity ids. */
  predicate IsComponentOf(c: Word, e: Entry) {
    match e
    case Rows(a) => c in a.signature
    case Single(id, _) => c == id
  }

  predicate HasRow(a: Archetype, i: int, r: int) {
    0 <= i < |a.chunks| && 0 <= r < |a.chunks[i].eids|
  }

  ghost predicate IsEntityOf(x: Word, e: Entry) {
    e.Rows? && exists i, r :: HasRow(e.arch, i, r) && e.arch.chunks[i].eids[r] == x
  }

  /** No entity's id is a component id of the other entry, and no component id is both an
      archetype's and a singleton's. */
  ghost predicate KeptApart(e: Entry, f: Entry) {
    && (forall x: Word :: IsEntityOf(x, e) ==> !IsComponentOf(x, f))
    && (forall x: Word :: IsEntityOf(x, f) ==> !IsComponentOf(x, e))
    && (e.Rows? != f.Rows? ==> forall c: Word :: IsComponentOf(c, e) ==> !IsComponentOf(c, f))
  }

  /** A condition on ids alone under which entries are told apart. */
  lemma ApartSeparates(l: Layout, e: Entry, f: Entry)
    requires ProperEntry(l, e) && ProperEntry(l, f) && KeptApart(e, f)
    ensures Coincide(l, e, f) <==> e == f
  {
    match (e, f)
    case (Rows(a), Rows(b)) =>
      if Shift(a, b) {
        ShiftNeedsClash(l, a, b);
        assert HasRow(b, 0, 0) && IsEntityOf(b.chunks[0].eids[0], f) && IsComponentOf(b.chunks[0].eids[0], e);
      }
      if Shift(b, a) {
        ShiftNeedsClash(l, b, a);
        assert HasRow(a, 0, 0) && IsEntityOf(a.chunks[0].eids[0], e) && IsComponentOf(a.chunks[0].eids[0], f);
      }
    case (Rows(a), Single(id, value)) =>
      if Disguise(a, id, value) {
        assert IsComponentOf(id, e) && IsComponentOf(id, f);
      }
    case (Single(id, value), Rows(b)) =>
      if Disguise(b, id, value) {
        assert IsComponentOf(id, f) && IsComponentOf(id, e);
      }
    case (Single(_, _), Single(_, _)) =>
  }

  /** The live state that the walk sees: archetypes in index order, and byte-hashed singletons. */
  datatype Live = Live(archs: seq<Archetype>, singles: map<Word, seq<Byte>>)

  ghost predicate AllProper(l: Layout, archs: seq<Archetype>) {
    forall i :: 0 <= i < |archs| ==> Proper(l, archs[i])
  }

  function ByteSingleton(value: seq<Byte>): Singleton {
    (seed: Word) => Fnv.Fnv(value, seed)
  }

  function Hashers(singles: map<Word, seq<Byte>>): map<Word, Singleton> {
    map id | id in singles :: ByteSingleton(singles[id])
  }

  ghost predicate Walkable(s: Live, ids: seq<Word>) {
    AllWellFormed(s.archs) && forall i :: 0 <= i < |ids| ==> ids[i] in s.singles
  }

  /** The digest that the walk computes when it finds the singletons in the order ids. */
  function TotalOf(s: Live, ids: seq<Word>): Word
    requires Walkable(s, ids)
  {
    Total(ArchetypeEntries(s.archs), SingletonEntries(ids, Hashers(s.singles)))
  }

  function LiveRows(archs: seq<Archetype>): (es: seq<Entry>)
    ensures forall k :: 0 <= k < |es| ==>
            es[k].Rows? && exists i :: 0 <= i < |archs| && archs[i] == es[k].arch && RowCount(archs[i].chunks) > 0
  {
    if archs == [] then []
    else
      var n := |archs| - 1;
      LiveRows(archs[..n]) + if RowCount(archs[n].chunks) == 0 then [] else [Rows(archs[n])]
  }

  function LiveSingles(ids: seq<Word>, singles: map<Word, seq<Byte>>): (es: seq<Entry>)
    requires forall i :: 0 <= i < |ids| ==> ids[i] in singles
    ensures |es| == |ids| && forall k :: 0 <= k < |es| ==> es[k] == Single(ids[k], singles[ids[k]])
  {
    seq(|ids|, i requires 0 <= i < |ids| => Single(ids[i], singles[ids[i]]))
  }

  function Entries(s: Live, ids: seq<Word>): seq<Entry>
    requires forall i :: 0 <= i < |ids| ==> ids[i] in s.singles
  {
    LiveRows(s.archs) + LiveSingles(ids, s.singles)
  }

  ghost predicate ProperEntries(l: Layout, es: seq<Entry>) {
    forall k :: 0 <= k < |es| ==> ProperEntry(l, es[k])
  }

  function StreamHashes(es: seq<Entry>): (hs: seq<Word>)
    requires forall k :: 0 <= k < |es| ==> es[k].Rows? ==> WellFormed(es[k].arch)
    ensures |hs| == |es| && forall k :: 0 <= k < |es| ==> hs[k] == Fnv.Fnv(EntryStream(es[k]), CHECKSUM_SEED)
  {
    seq(|es|, k requires 0 <= k < |es| => Fnv.Fnv(EntryStream(es[k]), CHECKSUM_SEED))
  }

  /** A state as the walk meets it, with its singletons in the order of the walk. */
  ghost predicate Good(l: Layout, s: Live, ids: seq<Word>) {
    AllProper(l, s.archs) && Walkable(s, ids) && SortedIds(ids, Hashers(s.singles)) && ProperEntries(l, Entries(s, ids))
  }

  lemma RowsProper(l: Layout, archs: seq<Archetype>)
    requires AllProper(l, archs)
    ensures ProperEntries(l, LiveRows(archs)) && AllWellFormed(archs)
  {
    var es := LiveRows(archs);
    forall k | 0 <= k < |es| ensures ProperEntry(l, es[k]) {
      var i :| 0 <= i < |archs| && archs[i] == es[k].arch && RowCount(archs[i].chunks) > 0;
      assert Proper(l, archs[i]);
    }
  }

  /** Every proper state with its singletons sorted is good. */
  lemma GoodState(l: Layout, s: Live, ids: seq<Word>)
    requires AllProper(l, s.archs) && SortedIds(ids, Hashers(s.singles))
    ensures Good(l, s, ids)
  {
    RowsProper(l, s.archs);
    assert forall i :: 0 <= i < |ids| ==> ids[i] in Hashers(s.singles);
  }

  ghost predicate Streamable(es: seq<Entry>) {
    forall k :: 0 <= k < |es| ==> es[k].Rows? ==> WellFormed(es[k].arch)
  }

  lemma HashesConcat(es: seq<Entry>, fs: seq<Entry>)
    requires Streamable(es) && Streamable(fs)
    ensures Streamable(es + fs) && StreamHashes(es + fs) == StreamHashes(es) + StreamHashes(fs)
  {
  }

  lemma RowJoins(l: Layout, es: seq<Entry>, a: Archetype)
    requires Proper(l, a) && Streamable(es)
    ensures Streamable(es + [Rows(a)]) && StreamHashes(es + [Rows(a)]) == StreamHashes(es) + [ArchetypeHash(a)]
  {
    HashOfStream(a);
  }

  ghost predicate RowsMatch(archs: seq<Archetype>) {
    AllWellFormed(archs) && Streamable(LiveRows(archs)) && Hashes(archs) == StreamHashes(LiveRows(archs))
  }

  lemma ProperFront(l: Layout, archs: seq<Archetype>)
    requires AllProper(l, archs) && archs != []
    ensures AllProper(l, archs[..|archs| - 1])
  {
  }

  lemma RowHashesStep(l: Layout, archs: seq<Archetype>)
    requires AllProper(l, archs) && archs != [] && RowsMatch(archs[..|archs| - 1])
    ensures RowsMatch(archs)
  {
    assert archs == archs[..|archs| - 1] + [archs[|archs| - 1]];
    RowHashesSnoc(l, archs[..|archs| - 1], archs[|archs| - 1]);
  }

  lemma NoRowHashes()
    ensures RowsMatch([])
  {
    var none: seq<Archetype> := [];
    assert Hashes(none) == [];
  }

  lemma {:induction false} RowHashes(l: Layout, archs: seq<Archetype>)
    requires AllProper(l, archs)
    ensures RowsMatch(archs)
  {
    if archs == [] {
      NoRowHashes();
    } else {
      ProperFront(l, archs);
      RowHashes(l, archs[..|archs| - 1]);
      RowHashesStep(l, archs);
    }
  }

  lemma LiveRowsSnoc(l: Layout, front: seq<Archetype>, a: Archetype)
    requires AllProper(l, front + [a])
    ensures LiveRows(front + [a]) == LiveRows(front) + if RowCount(a.chunks) == 0 then [] else [Rows(a)]
    ensures AllWellFormed(front + [a]) && Streamable(LiveRows(front + [a])) && Proper(l, a)
  {
    assert (front + [a])[..|front|] == front && (front + [a])[|front|] == a;
    RowsProper(l, front + [a]);
  }

  lemma RowHashesSnoc(l: Layout, front: seq<Archetype>, a: Archetype)
    requires AllProper(l, front + [a]) && RowsMatch(front)
    ensures RowsMatch(front + [a])
  {
    LiveRowsSnoc(l, front, a);
    HashesSnoc(front, a);
    RowJoins(l, LiveRows(front), a);
  }

  lemma SingleHashes(ids: seq<Word>, singles: map<Word, seq<Byte>>)
    requires forall i :: 0 <= i < |ids| ==> ids[i] in singles
    ensures SingletonHashes(SingletonEntries(ids, Hashers(singles))) == StreamHashes(LiveSingles(ids, singles))
  {
    forall k | 0 <= k < |ids|
      ensures SingletonHash(ids[k], ByteSingleton(singles[ids[k]])) ==
              Fnv.Fnv(LittleEndian(ids[k], 8) + singles[ids[k]], CHECKSUM_SEED)
    {
      FnvAppend(LittleEndian(ids[k], 8), singles[ids[k]], CHECKSUM_SEED);
    }
  }

  lemma {:induction false} FoldConcat(a: seq<Word>, b: seq<Word>, seed: Word)
    ensures FoldAll(a + b, seed) == FoldAll(b, FoldAll(a, seed))
  {
    FoldIsFnv(a + b, seed);
    FoldIsFnv(a, seed);
    FoldIsFnv(b, FoldAll(a, seed));
    WordsConcat(a, b);
    FnvAppend(Words(a), Words(b), seed);
  }

  lemma TwoFolds(a: seq<Word>, b: seq<Word>)
    ensures FoldAll(b, FoldAll(a, CHECKSUM_SEED)) == Fnv.Fnv(Words(a + b), CHECKSUM_SEED)
  {
    FoldConcat(a, b, CHECKSUM_SEED);
    FoldIsFnv(a + b, CHECKSUM_SEED);
  }

  lemma TotalFolds(s: Live, ids: seq<Word>)
    requires Walkable(s, ids)
    ensures TotalOf(s, ids) ==
            FoldAll(SingletonHashes(SingletonEntries(ids, Hashers(s.singles))), FoldAll(Hashes(s.archs), CHECKSUM_SEED))
  {
  }

  /** The total is the hash of the words that are the hashes of the entries' streams. */
  lemma TotalOfStreams(l: Layout, s: Live, ids: seq<Word>)
    requires Good(l, s, ids)
    ensures TotalOf(s, ids) == Fnv.Fnv(Words(StreamHashes(Entries(s, ids))), CHECKSUM_SEED)
  {
    var es, fs := LiveRows(s.archs), LiveSingles(ids, s.singles);
    RowHashes(l, s.archs);
    SingleHashes(ids, s.singles);
    TotalFolds(s, ids);
    TwoFolds(StreamHashes(es), StreamHashes(fs));
    HashesConcat(es, fs);
  }

  ghost predicate AllCoincide(l: Layout, es: seq<Entry>, fs: seq<Entry>)
    requires ProperEntries(l, es) && ProperEntries(l, fs)
  {
    |es| == |fs| && forall k :: 0 <= k < |es| ==> Coincide(l, es[k], fs[k])
  }

  /** FNV-1a has no collision among the byte strings that the two walks hash. */
  ghost predicate NoCollision(l: Layout, es: seq<Entry>, fs: seq<Entry>)
    requires ProperEntries(l, es) && ProperEntries(l, fs)
  {
    && (forall k :: 0 <= k < |es| && k < |fs| ==> Separated(EntryStream(es[k]), EntryStream(fs[k])))
    && Separated(Words(StreamHashes(es)), Words(StreamHashes(fs)))
  }

  predicate Separated(a: seq<Byte>, b: seq<Byte>) {
    Fnv.Fnv(a, CHECKSUM_SEED) == Fnv.Fnv(b, CHECKSUM_SEED) ==> a == b
  }

  lemma CoincidingHashes(l: Layout, es: seq<Entry>, fs: seq<Entry>)
    requires ProperEntries(l, es) && ProperEntries(l, fs) && AllCoincide(l, es, fs)
    ensures StreamHashes(es) == StreamHashes(fs)
  {
    forall k | 0 <= k < |es| ensures StreamHashes(es)[k] == StreamHashes(fs)[k] {
      CoincideExactly(l, es[k], fs[k]);
    }
  }

  lemma SameHashAt(l: Layout, es: seq<Entry>, fs: seq<Entry>, k: nat)
    requires ProperEntries(l, es) && ProperEntries(l, fs) && StreamHashes(es) == StreamHashes(fs) && k < |es|
    ensures |es| == |fs| && SameHash(l, es[k], fs[k])
  {
    assert |StreamHashes(es)| == |es| && |StreamHashes(fs)| == |fs|;
    assert StreamHashes(es)[k] == StreamHashes(fs)[k];
  }

  ghost predicate SameHash(l: Layout, e: Entry, f: Entry) {
    ProperEntry(l, e) && ProperEntry(l, f)
      && Fnv.Fnv(EntryStream(e), CHECKSUM_SEED) == Fnv.Fnv(EntryStream(f), CHECKSUM_SEED)
  }

  lemma PairSeparated(l: Layout, es: seq<Entry>, fs: seq<Entry>, k: nat)
    requires ProperEntries(l, es) && ProperEntries(l, fs) && NoCollision(l, es, fs) && k < |es| && k < |fs|
    ensures ApartOrSame(l, es[k], fs[k])
  {
  }

  ghost predicate ApartOrSame(l: Layout, e: Entry, f: Entry) {
    ProperEntry(l, e) && ProperEntry(l, f) && Separated(EntryStream(e), EntryStream(f))
  }

  lemma StreamsEqualAt(l: Layout, es: seq<Entry>, fs: seq<Entry>, k: nat)
    requires ProperEntries(l, es) && ProperEntries(l, fs) && NoCollision(l, es, fs) && k < |es|
    requires StreamHashes(es) == StreamHashes(fs)
    ensures |es| == |fs| && Coincide(l, es[k], fs[k])
  {
    SameHashAt(l, es, fs, k);
    PairSeparated(l, es, fs, k);
    SameStreamsCoincide(l, es[k], fs[k]);
  }

  lemma SameStreamsCoincide(l: Layout, e: Entry, f: Entry)
    requires ApartOrSame(l, e, f) && SameHash(l, e, f)
    ensures Coincide(l, e, f)
  {
    CoincideExactly(l, e, f);
  }

  lemma CoincideFromHashes(l: Layout, es: seq<Entry>, fs: seq<Entry>)
    requires ProperEntries(l, es) && ProperEntries(l, fs) && NoCollision(l, es, fs)
    requires StreamHashes(es) == StreamHashes(fs)
    ensures AllCoincide(l, es, fs)
  {
    assert |StreamHashes(es)| == |es| && |StreamHashes(fs)| == |fs|;
    forall k | 0 <= k < |es| ensures Coincide(l, es[k], fs[k]) {
      StreamsEqualAt(l, es, fs, k);
    }
  }

  /** States whose entries coincide have one total, whatever the hash function. */
  lemma CoincidingTotals(l: Layout, s: Live, ids: seq<Word>, t: Live, jds: seq<Word>)
    requires Good(l, s, ids) && Good(l, t, jds) && AllCoincide(l, Entries(s, ids), Entries(t, jds))
    ensures TotalOf(s, ids) == TotalOf(t, jds)
  {
    TotalOfStreams(l, s, ids);
    TotalOfStreams(l, t, jds);
    CoincidingHashes(l, Entries(s, ids), Entries(t, jds));
  }

  lemma WordsSeparated(a: seq<Word>, b: seq<Word>)
    requires Separated(Words(a), Words(b)) && Fnv.Fnv(Words(a), CHECKSUM_SEED) == Fnv.Fnv(Words(b), CHECKSUM_SEED)
    ensures a == b
  {
    WordsInjective(a, b);
  }

  lemma EqualHashesCoincide(l: Layout, es: seq<Entry>, fs: seq<Entry>)
    requires ProperEntries(l, es) && ProperEntries(l, fs) && NoCollision(l, es, fs)
    requires Fnv.Fnv(Words(StreamHashes(es)), CHECKSUM_SEED) == Fnv.Fnv(Words(StreamHashes(fs)), CHECKSUM_SEED)
    ensures AllCoincide(l, es, fs)
  {
    WordsSeparated(StreamHashes(es), StreamHashes(fs));
    CoincideFromHashes(l, es, fs);
  }

  /** Collisions of FNV-1a aside, two states have one total exactly when their entries coincide
      one by one. */
  lemma TotalsAgreeExactly(l: Layout, s: Live, ids: seq<Word>, t: Live, jds: seq<Word>)
    requires Good(l, s, ids) && Good(l, t, jds) && NoCollision(l, Entries(s, ids), Entries(t, jds))
    ensures TotalOf(s, ids) == TotalOf(t, jds) <==> AllCoincide(l, Entries(s, ids), Entries(t, jds))
  {
    if TotalOf(s, ids) == TotalOf(t, jds) {
      TotalOfStreams(l, s, ids);
      TotalOfStreams(l, t, jds);
      EqualHashesCoincide(l, Entries(s, ids), Entries(t, jds));
    }
    if AllCoincide(l, Entries(s, ids), Entries(t, jds)) {
      CoincidingTotals(l, s, ids, t, jds);
    }
  }

  ghost predicate AllApart(es: seq<Entry>, fs: seq<Entry>) {
    forall k :: 0 <= k < |es| && k < |fs| ==> KeptApart(es[k], fs[k])
  }

  /** If no component id is an entity id or names both a component and a singleton, and collisions
      aside, the total does tell live states apart. */
  lemma TotalSeparates(l: Layout, s: Live, ids: seq<Word>, t: Live, jds: seq<Word>)
    requires Good(l, s, ids) && Good(l, t, jds)
    requires NoCollision(l, Entries(s, ids), Entries(t, jds)) && AllApart(Entries(s, ids), Entries(t, jds))
    ensures TotalOf(s, ids) == TotalOf(t, jds) <==> LiveRows(s.archs) == LiveRows(t.archs) && s.singles == t.singles
  {
    TotalsAgreeExactly(l, s, ids, t, jds);
    if AllCoincide(l, Entries(s, ids), Entries(t, jds)) {
      ApartEqual(l, Entries(s, ids), Entries(t, jds));
      SplitEntries(s, ids, t, jds);
    }
    if LiveRows(s.archs) == LiveRows(t.archs) && s.singles == t.singles {
      SortedIdsUnique(ids, jds, Hashers(s.singles));
      ApartEqual(l, Entries(s, ids), Entries(t, jds));
    }
  }

  lemma ApartEqual(l: Layout, es: seq<Entry>, fs: seq<Entry>)
    requires ProperEntries(l, es) && ProperEntries(l, fs) && AllApart(es, fs)
    ensures AllCoincide(l, es, fs) <==> es == fs
  {
    forall k | 0 <= k < |es| && k < |fs| ensures Coincide(l, es[k], fs[k]) <==> es[k] == fs[k] {
      ApartSeparates(l, es[k], fs[k]);
    }
    if AllCoincide(l, es, fs) {
      assert forall k :: 0 <= k < |es| ==> es[k] == fs[k];
      assert es == fs;
    }
  }

  /** The entries are rows up to the number of live archetypes. */
  lemma RowsFirst(s: Live, ids: seq<Word>)
    requires Walkable(s, ids)
    ensures |LiveRows(s.archs)| <= |Entries(s, ids)|
    ensures forall k :: 0 <= k < |Entries(s, ids)| ==> (Entries(s, ids)[k].Rows? <==> k < |LiveRows(s.archs)|)
  {
  }

  lemma SameBoundary(es: seq<Entry>, m: nat, n: nat)
    requires m <= |es| && n <= |es|
    requires (forall k :: 0 <= k < |es| ==> (es[k].Rows? <==> k < m))
             && forall k :: 0 <= k < |es| ==> (es[k].Rows? <==> k < n)
    ensures m == n
  {
    assert m < |es| ==> !es[m].Rows?;
    assert n < |es| ==> !es[n].Rows?;
  }

  lemma SplitEntries(s: Live, ids: seq<Word>, t: Live, jds: seq<Word>)
    requires Walkable(s, ids) && SortedIds(ids, Hashers(s.singles)) && Walkable(t, jds)
             && SortedIds(jds, Hashers(t.singles))
    requires Entries(s, ids) == Entries(t, jds)
    ensures LiveRows(s.archs) == LiveRows(t.archs) && s.singles == t.singles
  {
    var es, fs, m, n := Entries(s, ids), Entries(t, jds), |LiveRows(s.archs)|, |LiveRows(t.archs)|;
    RowsFirst(s, ids);
    RowsFirst(t, jds);
    SameBoundary(es, m, n);
    assert LiveRows(s.archs) == es[..m] == fs[..m] == LiveRows(t.archs);
    assert LiveSingles(ids, s.singles) == es[m..] == fs[m..] == LiveSingles(jds, t.singles);
    SameSingles(ids, s.singles, jds, t.singles);
  }

  lemma SameSingles(ids: seq<Word>, a: map<Word, seq<Byte>>, jds: seq<Word>, b: map<Word, seq<Byte>>)
    requires (forall id: Word :: id in ids <==> id in a) && forall id: Word :: id in jds <==> id in b
    requires LiveSingles(ids, a) == LiveSingles(jds, b)
    ensures a == b
  {
    var es := LiveSingles(ids, a);
    forall k | 0 <= k < |es| ensures ids[k] == jds[k] && a[ids[k]] == b[ids[k]] {
      assert es[k] == Single(ids[k], a[ids[k]]) == Single(jds[k], b[jds[k]]);
    }
    assert ids == jds;
    forall id: Word | id in a ensures id in b && a[id] == b[id] {
      var k :| 0 <= k < |ids| && ids[k] == id;
    }
  }

  // ----- states that share a total -----

  const TWO_32: nat := 0x1_0000_0000

  /** (generation << 32) | index of an id that the World hands out. */
  predicate ValidId(x: Word) {
    1 <= x / TWO_32 < 0x8000_0000
  }

  /** Rows as the World keeps them: valid ids, no slot twice. */
  ghost predicate ValidRows(a: Archetype) {
    && (forall i, r :: HasRow(a, i, r) ==> ValidId(a.chunks[i].eids[r]))
    && (forall i, r, j, q :: HasRow(a, i, r) && HasRow(a, j, q) && (i, r) != (j, q) ==>
                               a.chunks[i].eids[r] % TWO_32 != a.chunks[j].eids[q] % TWO_32)
  }

  ghost predicate Holdable(l: Layout, a: Archetype, signature: seq<Word>) {
    Proper(l, a) && ValidRows(a) && a.signature == signature && a.chunks != []
  }

  /** One entity with two tags. */
  function BothTags(c: Word, x: Word, e: Word): Archetype {
    Archetype([c, x], [Tag, Tag], [Chunk([e], [[], []])])
  }

  /** Two entities with the first tag, the first of which has the other tag's id. */
  function OneTag(c: Word, x: Word, e: Word): Archetype {
    Archetype([c], [Tag], [Chunk([x, e], [[]])])
  }

  lemma TagPairStreams(c: Word, x: Word, e: Word)
    ensures Stream(BothTags(c, x, e)) == Words([c, x, e]) == Stream(OneTag(c, x, e))
  {
    var both, one := BothTags(c, x, e), OneTag(c, x, e);
    OneChunk(both);
    OneChunk(one);
    TagBytes(both.hashing, both.chunks[0].columns);
    TagBytes(one.hashing, one.chunks[0].columns);
    WordsConcat([c, x], [e]);
    WordsConcat([c], [x, e]);
    assert [c, x] + [e] == [c, x, e] && [c] + [x, e] == [c, x, e];
  }

  lemma OneChunk(a: Archetype)
    requires WellFormed(a) && |a.chunks| == 1
    ensures Stream(a) == Words(a.signature) + ChunkBytes(a.hashing, a.chunks[0])
  {
    assert RowBytes(a.hashing, a.chunks[..0]) == [];
  }

  lemma {:induction false} TagBytes(ks: seq<Hashing>, columns: seq<seq<Element>>)
    requires |ks| == |columns| && forall i :: 0 <= i < |ks| ==> ks[i].Tag?
    ensures ColumnsBytes(ks, columns) == []
  {
    if ks != [] {
      TagBytes(ks[..|ks| - 1], columns[..|ks| - 1]);
    }
  }

  lemma TagPairHoldable(l: Layout, c: Word, x: Word, e: Word)
    requires c < x && l.size(c) == 0 && l.size(x) == 0 && l.capacity([c]) >= 2 && l.capacity([c, x]) >= 1
    requires ValidId(x) && ValidId(e) && x % TWO_32 != e % TWO_32
    ensures Holdable(l, BothTags(c, x, e), [c, x]) && Holdable(l, OneTag(c, x, e), [c])
  {
    var both, one := BothTags(c, x, e), OneTag(c, x, e);
    assert HashingOf(Sizes(l, [c, x])) == [Tag, Tag];
    assert HashingOf(Sizes(l, [c])) == [Tag];
    assert ChunkShaped(Sizes(l, [c, x]), both.chunks[0]);
    assert ChunkShaped(Sizes(l, [c]), one.chunks[0]);
  }

  lemma ClashIsId(l: Layout, c: Word, x: Word, a: Archetype, b: Archetype)
    requires Holdable(l, a, [c, x]) && Holdable(l, b, [c]) && Stream(a) == Stream(b)
    ensures ValidId(x)
  {
    LongerCoincides(a, b);
    ShiftNeedsClash(l, a, b);
    assert HasRow(b, 0, 0) && b.chunks[0].eids[0] == x;
  }

  /** For two tags c < x of which one archetype has both and another only c: the two can feed the
      walk the same bytes exactly when x is, as a word, an id that an entity can have. */
  lemma TagsClashExactly(l: Layout, c: Word, x: Word)
    requires c < x && l.size(c) == 0 && l.size(x) == 0 && l.capacity([c]) >= 2 && l.capacity([c, x]) >= 1
    ensures (exists a, b :: Holdable(l, a, [c, x]) && Holdable(l, b, [c]) && Stream(a) == Stream(b)) <==> ValidId(x)
  {
    if ValidId(x) {
      var e: Word := if x % TWO_32 == 0 then x + 1 else x - 1;
      OtherSlot(x);
      TagPairHoldable(l, c, x, e);
      TagPairStreams(c, x, e);
    }
    forall a, b | Holdable(l, a, [c, x]) && Holdable(l, b, [c]) && Stream(a) == Stream(b) ensures ValidId(x) {
      ClashIsId(l, c, x, a, b);
    }
  }

  lemma OtherSlot(x: Word)
    requires ValidId(x)
    ensures var e: int := if x % TWO_32 == 0 then x + 1 else x - 1;
            0 <= e < TWO_64 && e / TWO_32 == x / TWO_32 && e % TWO_32 != x % TWO_32
  {
  }

  /** Two live states that a World can hold, different, with the same total, for every such pair of
      tags: neither the signature's length nor the number of rows is hashed.  So equal totals do not
      imply equal states, even if FNV-1a had no collisions. */
  lemma DigestWithoutFraming(l: Layout, c: Word, x: Word, e: Word)
    requires c < x && l.size(c) == 0 && l.size(x) == 0 && l.capacity([c]) >= 2 && l.capacity([c, x]) >= 1
    requires ValidId(x) && ValidId(e) && x % TWO_32 != e % TWO_32
    ensures Holdable(l, BothTags(c, x, e), [c, x]) && Holdable(l, OneTag(c, x, e), [c])
    ensures var s, t := Live([BothTags(c, x, e)], map[]), Live([OneTag(c, x, e)], map[]);
            LiveRows(s.archs) != LiveRows(t.archs) && TotalOf(s, []) == TotalOf(t, [])
  {
    TagPairHoldable(l, c, x, e);
    TagPairStreams(c, x, e);
    SoleTotals(l, BothTags(c, x, e), OneTag(c, x, e));
  }

  lemma SoleState(l: Layout, a: Archetype)
    requires Proper(l, a) && |a.chunks| == 1
    ensures Good(l, Live([a], map[]), []) && Entries(Live([a], map[]), []) == [Rows(a)] && LiveRows([a]) == [Rows(a)]
  {
    SoleEntry(a);
    GoodState(l, Live([a], map[]), []);
  }

  lemma SoleCoincide(l: Layout, a: Archetype, b: Archetype)
    requires ProperEntry(l, Rows(a)) && ProperEntry(l, Rows(b)) && Stream(a) == Stream(b)
    ensures ProperEntries(l, [Rows(a)]) && ProperEntries(l, [Rows(b)]) && AllCoincide(l, [Rows(a)], [Rows(b)])
  {
    CoincideExactly(l, Rows(a), Rows(b));
  }

  /** Two worlds of one archetype each, with one stream. */
  lemma SoleTotals(l: Layout, a: Archetype, b: Archetype)
    requires Proper(l, a) && Proper(l, b) && |a.chunks| == 1 && |b.chunks| == 1 && Stream(a) == Stream(b)
    ensures LiveRows([a]) == [Rows(a)] && LiveRows([b]) == [Rows(b)]
    ensures TotalOf(Live([a], map[]), []) == TotalOf(Live([b], map[]), [])
  {
    SoleState(l, a);
    SoleState(l, b);
    SoleCoincide(l, a, b);
    CoincidingTotals(l, Live([a], map[]), [], Live([b], map[]), []);
  }

  lemma SoleEntry(a: Archetype)
    requires |a.chunks| == 1 && a.chunks[0].eids != []
    ensures LiveRows([a]) == [Rows(a)]
  {
    assert RowCount(a.chunks[..0]) == 0;
    assert LiveRows([a][..0]) == [];
  }
}
