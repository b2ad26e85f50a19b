/** What the schedule hash is taken over, and what it tells apart. */
module ScheduleHash {
  import opened Fnv
  import opened Schedule

  // ----- the hash as one pass over bytes -----

  /** The words of a schedule: stage after stage, its number and then its type ids. */
  function WordsOf(ids: seq<seq<Word>>): seq<Word>
  {
    if ids == [] then []
    else
      var s := |ids| - 1;
      WordsOf(ids[..s]) + [s % TWO_64] + ids[s]
  }

  lemma OneWord(x: Word)
    ensures Words([x]) == LittleEndian(x, 8)
  {
    assert [x][..0] == [];
  }

  /** The schedule hash is 64-bit FNV-1a over the bytes of those words. */
  lemma {:induction false} HashIsFnv(ids: seq<seq<Word>>)
    ensures HashOfIds(ids) == Fnv.Fnv(Words(WordsOf(ids)), CHECKSUM_SEED)
  {
    if ids != [] {
      var s := |ids| - 1;
      var before, mark := WordsOf(ids[..s]), s % TWO_64;
      HashIsFnv(ids[..s]);
      OneWord(mark);
      WordsConcat(before, [mark]);
      WordsConcat(before + [mark], ids[s]);
      FnvAppend(Words(before), LittleEndian(mark, 8), CHECKSUM_SEED);
      FoldIsFnv(ids[s], FoldU64(mark, HashOfIds(ids[..s])));
      FnvAppend(Words(before + [mark]), Words(ids[s]), CHECKSUM_SEED);
    }
  }

  // ----- what the bytes determine -----

  /** No type id looks like the number of a stage. */
  predicate IdsAbove(ids: seq<seq<Word>>, bound: nat) {
    |ids| <= bound <= TWO_64 && forall s, k :: 0 <= s < |ids| && 0 <= k < |ids[s]| ==> ids[s][k] >= bound
  }

  /** The last stage number among the words is where the last stage begins. */
  lemma LastMark(ids: seq<seq<Word>>, bound: nat) returns (at: nat)
    requires ids != [] && IdsAbove(ids, bound)
    ensures at < |WordsOf(ids)| && WordsOf(ids)[at] == |ids| - 1 && WordsOf(ids)[..at] == WordsOf(ids[..|ids| - 1])
    ensures WordsOf(ids)[at + 1..] == ids[|ids| - 1]
    ensures forall k :: at < k < |WordsOf(ids)| ==> WordsOf(ids)[k] >= bound
  {
    var s := |ids| - 1;
    at := |WordsOf(ids[..s])|;
    forall k | at < k < |WordsOf(ids)| ensures WordsOf(ids)[k] >= bound {
      assert WordsOf(ids)[k] == ids[s][k - at - 1];
    }
  }

  lemma SameMark(w: seq<Word>, bound: nat, i: nat, j: nat)
    requires i < |w| && j < |w| && w[i] < bound && w[j] < bound
    requires forall k :: i < k < |w| ==> w[k] >= bound
    requires forall k :: j < k < |w| ==> w[k] >= bound
    ensures i == j
  {
  }

  /** Schedules whose type ids are not stage numbers are told apart by their bytes. */
  lemma {:induction false} WordsDetermine(a: seq<seq<Word>>, b: seq<seq<Word>>, bound: nat)
    requires IdsAbove(a, bound) && IdsAbove(b, bound) && WordsOf(a) == WordsOf(b)
    ensures a == b
    decreases |a|
  {
    if a == [] {
      if b != [] {
        var j := LastMark(b, bound);
      }
    } else {
      var i := LastMark(a, bound);
      var j := LastMark(b, bound);
      SameMark(WordsOf(a), bound, i, j);
      WordsDetermine(a[..|a| - 1], b[..|b| - 1], bound);
      assert a == a[..|a| - 1] + [a[|a| - 1]] && b == b[..|b| - 1] + [b[|b| - 1]];
    }
  }

  lemma BytesDetermine(a: seq<seq<Word>>, b: seq<seq<Word>>, bound: nat)
    requires IdsAbove(a, bound) && IdsAbove(b, bound)
    ensures Words(WordsOf(a)) == Words(WordsOf(b)) <==> a == b
  {
    if Words(WordsOf(a)) == Words(WordsOf(b)) {
      WordsInjective(WordsOf(a), WordsOf(b));
      WordsDetermine(a, b, bound);
    }
  }

  /** Without that, they need not be: a type id 1 reads like the beginning of stage 1. */
  lemma StageOneId(x: Word, y: Word)
    ensures [[x], [y]] != [[x, 1, y]] && HashOfIds([[x], [y]]) == HashOfIds([[x, 1, y]])
  {
    assert WordsOf([]) == [];
    assert [[x]][..0] == [] && [[x], [y]][..1] == [[x]] && [[x, 1, y]][..0] == [];
    assert WordsOf([[x]]) == [0, x];
    assert WordsOf([[x], [y]]) == [0, x, 1, y] && WordsOf([[x, 1, y]]) == [0, x, 1, y];
    HashIsFnv([[x], [y]]);
    HashIsFnv([[x, 1, y]]);
  }

  // ----- what the hash separates for certain -----

  /** Two schedules whose bytes differ in exactly one place. */
  predicate OneByteApart(a: seq<seq<Word>>, b: seq<seq<Word>>, i: nat) {
    && i < |Words(WordsOf(a))| && |Words(WordsOf(b))| == |Words(WordsOf(a))|
    && Words(WordsOf(b)) == Words(WordsOf(a))[i := Words(WordsOf(b))[i]]
    && Words(WordsOf(b))[i] != Words(WordsOf(a))[i]
  }

  /** They never have the same hash. */
  lemma OneByteSeparates(a: seq<seq<Word>>, b: seq<seq<Word>>, i: nat)
    requires OneByteApart(a, b, i)
    ensures HashOfIds(a) != HashOfIds(b)
  {
    HashIsFnv(a);
    HashIsFnv(b);
    OneByteNeverCollides(Words(WordsOf(a)), i, Words(WordsOf(b))[i], CHECKSUM_SEED);
  }
}
