/** The deterministic parallel folds: per-chunk buffers filled in any order of execution, folded
    in chunk order afterwards. */
module Reductions {

  type Plus<!T> = (T, T) -> T

  ghost predicate Associative<T(!new)>(plus: Plus<T>) {
    forall a, b, c {:trigger plus(plus(a, b), c)} :: plus(plus(a, b), c) == plus(a, plus(b, c))
  }

  /** init + values[0] + values[1] + ... from the left. */
  function FoldLeft<T>(plus: Plus<T>, init: T, values: seq<T>): T {
    if values == [] then init else plus(FoldLeft(plus, init, values[..|values| - 1]), values[|values| - 1])
  }

  /** The values emitted for key k, in order. */
  function ValuesOf<T>(emitted: seq<(nat, T)>, k: nat): seq<T> {
    if emitted == [] then []
    else
      var last := emitted[|emitted| - 1];
      ValuesOf(emitted[..|emitted| - 1], k) + if last.0 == k then [last.1] else []
  }

  /** All values for key k in chunk order, then emission order. */
  function AllValuesOf<T>(chunks: seq<seq<(nat, T)>>, k: nat): seq<T> {
    if chunks == [] then [] else AllValuesOf(chunks[..|chunks| - 1], k) + ValuesOf(chunks[|chunks| - 1], k)
  }

  lemma ValuesSnoc<T>(emitted: seq<(nat, T)>, x: (nat, T), k: nat)
    ensures ValuesOf(emitted + [x], k) == ValuesOf(emitted, k) + if x.0 == k then [x.1] else []
  {
    assert (emitted + [x])[..|emitted|] == emitted;
  }

  lemma FoldSnoc<T>(plus: Plus<T>, init: T, values: seq<T>, x: T)
    ensures FoldLeft(plus, init, values + [x]) == plus(FoldLeft(plus, init, values), x)
  {
    assert (values + [x])[..|values|] == values;
  }

  lemma {:induction false} FoldConcat<T>(plus: Plus<T>, init: T, a: seq<T>, b: seq<T>)
    ensures FoldLeft(plus, init, a + b) == FoldLeft(plus, FoldLeft(plus, init, a), b)
  {
    if b == [] {
      assert a + b == a;
    } else {
      var c, x := b[..|b| - 1], b[|b| - 1];
      FoldConcat(plus, init, a, c);
      assert a + b == a + c + [x];
      FoldSnoc(plus, init, a + c, x);
    }
  }

  /** Adding a pre-folded group is adding its members one by one: associativity is all it takes. */
  lemma {:induction false} FoldGroup<T(!new)>(plus: Plus<T>, init: T, x: T, rest: seq<T>)
    requires Associative(plus)
    ensures plus(init, FoldLeft(plus, x, rest)) == FoldLeft(plus, init, [x] + rest)
  {
    if rest == [] {
      assert [x] + rest == [x] && [x][..0] == [];
    } else {
      var front, y := rest[..|rest| - 1], rest[|rest| - 1];
      FoldGroup(plus, init, x, front);
      assert [x] + rest == [x] + front + [y];
      FoldSnoc(plus, init, [x] + front, y);
    }
  }

  // ----- one chunk's buffer -----

  ghost predicate DistinctKeys<T>(entries: seq<(nat, T)>) {
    forall i, j :: 0 <= i < j < |entries| ==> entries[i].0 != entries[j].0
  }

  /** Each key emitted so far has one entry, holding the sum of its values from the first one on. */
  ghost predicate Holds<T>(plus: Plus<T>, entries: seq<(nat, T)>, emitted: seq<(nat, T)>) {
    && DistinctKeys(entries)
    && (forall i :: 0 <= i < |entries| ==> EntrySum(plus, entries[i], emitted))
    && (forall k: nat :: ValuesOf(emitted, k) != [] ==> exists i :: 0 <= i < |entries| && entries[i].0 == k)
  }

  ghost predicate EntrySum<T>(plus: Plus<T>, entry: (nat, T), emitted: seq<(nat, T)>) {
    var values := ValuesOf(emitted, entry.0);
    values != [] && entry.1 == FoldLeft(plus, values[0], values[1..])
  }

  lemma SumGrows<T>(plus: Plus<T>, entry: (nat, T), emitted: seq<(nat, T)>, x: (nat, T))
    requires EntrySum(plus, entry, emitted)
    ensures EntrySum(plus, if x.0 == entry.0 then (entry.0, plus(entry.1, x.1)) else entry, emitted + [x])
  {
    var values := ValuesOf(emitted, entry.0);
    ValuesSnoc(emitted, x, entry.0);
    if x.0 == entry.0 {
      var more := values + [x.1];
      assert more[0] == values[0] && more[1..] == values[1..] + [x.1];
      FoldSnoc(plus, values[0], values[1..], x.1);
    } else {
      assert values + [] == values;
    }
  }

  lemma AccumulateHolds<T>(plus: Plus<T>, entries: seq<(nat, T)>, emitted: seq<(nat, T)>, i: nat, value: T)
    requires Holds(plus, entries, emitted) && i < |entries|
    ensures Holds(plus, entries[i := (entries[i].0, plus(entries[i].1, value))], emitted + [(entries[i].0, value)])
  {
    var key := entries[i].0;
    var x := (key, value);
    var after := entries[i := (key, plus(entries[i].1, value))];
    forall j | 0 <= j < |after| ensures EntrySum(plus, after[j], emitted + [x]) {
      SumGrows(plus, entries[j], emitted, x);
    }
    forall k: nat | ValuesOf(emitted + [x], k) != [] ensures exists j :: 0 <= j < |after| && after[j].0 == k {
      ValuesSnoc(emitted, x, k);
      if k == key {
        assert after[i].0 == k;
      } else {
        var j :| 0 <= j < |entries| && entries[j].0 == k;
        assert after[j].0 == k;
      }
    }
  }

  lemma AppendHolds<T>(plus: Plus<T>, entries: seq<(nat, T)>, emitted: seq<(nat, T)>, x: (nat, T))
    requires Holds(plus, entries, emitted) && forall i :: 0 <= i < |entries| ==> entries[i].0 != x.0
    ensures Holds(plus, entries + [x], emitted + [x])
  {
    var after := entries + [x];
    ValuesSnoc(emitted, x, x.0);
    assert ValuesOf(emitted, x.0) == [];
    forall j | 0 <= j < |after| ensures EntrySum(plus, after[j], emitted + [x]) {
      if j < |entries| {
        SumGrows(plus, entries[j], emitted, x);
      }
    }
    forall k: nat | ValuesOf(emitted + [x], k) != [] ensures exists j :: 0 <= j < |after| && after[j].0 == k {
      ValuesSnoc(emitted, x, k);
      if k == x.0 {
        assert after[|entries|].0 == k;
      } else {
        var j :| 0 <= j < |entries| && entries[j].0 == k;
        assert after[j].0 == k;
      }
    }
  }

  class KeyedEmitter<!T> {
    var entries: seq<(nat, T)>

    constructor ()
      ensures entries == []
    {
      entries := [];
    }

    method Accumulate(plus: Plus<T>, i: nat, key: nat, value: T, ghost emitted: seq<(nat, T)>)
      requires i < |entries| && entries[i].0 == key && Holds(plus, entries, emitted)
      modifies this
      ensures Holds(plus, entries, emitted + [(key, value)])
    {
      AccumulateHolds(plus, entries, emitted, i, value);
      entries := entries[i := (entries[i].0, plus(entries[i].1, value))];
    }

    method Append(plus: Plus<T>, key: nat, value: T, ghost emitted: seq<(nat, T)>)
      requires Holds(plus, entries, emitted) && forall j :: 0 <= j < |entries| ==> entries[j].0 != key
      modifies this
      ensures Holds(plus, entries, emitted + [(key, value)])
    {
      AppendHolds(plus, entries, emitted, (key, value));
      entries := entries + [(key, value)];
    }

    /** The scan for a key. */
    method Find(key: nat) returns (i: nat)
      ensures i <= |entries| && (i < |entries| ==> entries[i].0 == key)
      ensures forall j :: 0 <= j < i ==> entries[j].0 != key
    {
      i := 0;
      while i < |entries| && entries[i].0 != key
        invariant i <= |entries| && forall j :: 0 <= j < i ==> entries[j].0 != key
      {
        i := i + 1;
      }
    }

    method Add(plus: Plus<T>, key: nat, value: T, ghost emitted: seq<(nat, T)>)
      requires Holds(plus, entries, emitted)
      modifies this
      ensures Holds(plus, entries, emitted + [(key, value)])
    {
      if |entries| > 0 && entries[|entries| - 1].0 == key {
        Accumulate(plus, |entries| - 1, key, value, emitted);
        return;
      }
      var i := Find(key);
      if i < |entries| {
        Accumulate(plus, i, key, value, emitted);
      } else {
        Append(plus, key, value, emitted);
      }
    }
  }

  // ----- the keyed sum -----

  /** One chunk's body: it emits into its own buffer and nowhere else. */
  method RunBody<T>(plus: Plus<T>, emit: KeyedEmitter<T>, values: seq<(nat, T)>)
    requires emit.entries == []
    modifies emit
    ensures Holds(plus, emit.entries, values)
  {
    var i := 0;
    assert values[..0] == [];
    while i < |values|
      invariant 0 <= i <= |values| && Holds(plus, emit.entries, values[..i])
    {
      emit.Add(plus, values[i].0, values[i].1, values[..i]);
      assert values[..i] + [(values[i].0, values[i].1)] == values[..i + 1];
      i := i + 1;
    }
    assert values[..i] == values;
  }

  /** Every chunk index once, in some order: the order in which the pool happens to run them. */
  ghost predicate Execution(order: seq<nat>, n: nat) {
    && (forall i :: 0 <= i < |order| ==> order[i] < n)
    && (forall c: nat :: c < n ==> c in order)
    && (forall i, j :: 0 <= i < j < |order| ==> order[i] != order[j])
  }

  ghost predicate KeysBelow<T>(emitted: seq<(nat, T)>, n: nat) {
    forall i :: 0 <= i < |emitted| ==> emitted[i].0 < n
  }

  ghost predicate FoldedInto<T(!new)>(plus: Plus<T>, before: seq<T>, after: seq<T>, chunks: seq<seq<(nat, T)>>) {
    |after| == |before| && forall k: nat :: k < |before| ==>
      after[k] == FoldLeft(plus, before[k], AllValuesOf(chunks, k))
  }

  /** The pool runs the bodies, in any order. */
  method RunAll<T>(plus: Plus<T>, chunks: seq<seq<(nat, T)>>, order: seq<nat>, emitters: seq<KeyedEmitter<T>>)
    requires |emitters| == |chunks| && Execution(order, |chunks|)
    requires (forall c :: 0 <= c < |emitters| ==> emitters[c].entries == [])
             && forall c, e :: 0 <= c < e < |emitters| ==> emitters[c] != emitters[e]
    modifies emitters
    ensures forall c :: 0 <= c < |chunks| ==> Holds(plus, emitters[c].entries, chunks[c])
  {
    var i := 0;
    while i < |order|
      invariant 0 <= i <= |order|
      invariant forall j :: 0 <= j < i ==> Holds(plus, emitters[order[j]].entries, chunks[order[j]])
      invariant forall j :: i <= j < |order| ==> emitters[order[j]].entries == []
    {
      RunBody(plus, emitters[order[i]], chunks[order[i]]);
      i := i + 1;
    }
    forall c: nat | c < |chunks| ensures Holds(plus, emitters[c].entries, chunks[c]) {
      assert c in order;
    }
  }

  /** What is still to be added for key k from a chunk's entries i, i + 1, ... */
  ghost function PendingFor<T>(plus: Plus<T>, entries: seq<(nat, T)>, i: nat, k: nat, so: T): T
    requires i <= |entries|
    decreases |entries| - i
  {
    if i == |entries| then so
    else PendingFor(plus, entries, i + 1, k, if entries[i].0 == k then plus(so, entries[i].1) else so)
  }

  /** With distinct keys, the entries add the one sum for k, if there is one. */
  lemma {:induction false} PendingSum<T>(plus: Plus<T>, entries: seq<(nat, T)>, i: nat, k: nat, so: T)
    requires DistinctKeys(entries) && i <= |entries|
    ensures (forall j :: i <= j < |entries| ==> entries[j].0 != k) ==> PendingFor(plus, entries, i, k, so) == so
    ensures forall j :: i <= j < |entries| && entries[j].0 == k ==>
            PendingFor(plus, entries, i, k, so) == plus(so, entries[j].1)
    decreases |entries| - i
  {
    if i < |entries| {
      PendingSum(plus, entries, i + 1, k, if entries[i].0 == k then plus(so, entries[i].1) else so);
    }
  }

  lemma FoldOnto<T(!new)>(plus: Plus<T>, so: T, values: seq<T>)
    requires Associative(plus) && values != []
    ensures plus(so, FoldLeft(plus, values[0], values[1..])) == FoldLeft(plus, so, values)
  {
    FoldGroup(plus, so, values[0], values[1..]);
    assert [values[0]] + values[1..] == values;
  }

  lemma ChunkSum<T>(plus: Plus<T>, entries: seq<(nat, T)>, emitted: seq<(nat, T)>, k: nat, so: T)
    requires Holds(plus, entries, emitted)
    ensures var values := ValuesOf(emitted, k);
            PendingFor(plus, entries, 0, k, so) == if values == []
              then so else plus(so, FoldLeft(plus, values[0], values[1..]))
  {
    PendingSum(plus, entries, 0, k, so);
    if ValuesOf(emitted, k) != [] {
      var i :| 0 <= i < |entries| && entries[i].0 == k;
      assert EntrySum(plus, entries[i], emitted);
    } else {
      forall j | 0 <= j < |entries| ensures entries[j].0 != k {
        assert EntrySum(plus, entries[j], emitted);
      }
    }
  }

  lemma EntryKeys<T>(plus: Plus<T>, entries: seq<(nat, T)>, emitted: seq<(nat, T)>, n: nat)
    requires Holds(plus, entries, emitted) && KeysBelow(emitted, n)
    ensures KeysBelow(entries, n)
  {
    forall i | 0 <= i < |entries| ensures entries[i].0 < n {
      assert EntrySum(plus, entries[i], emitted);
      ValueHasKey(emitted, entries[i].0);
    }
  }

  lemma {:induction false} ValueHasKey<T>(emitted: seq<(nat, T)>, k: nat)
    requires ValuesOf(emitted, k) != []
    ensures exists i :: 0 <= i < |emitted| && emitted[i].0 == k
  {
    var n := |emitted| - 1;
    if emitted[n].0 != k {
      ValueHasKey(emitted[..n], k);
      var i :| 0 <= i < n && emitted[..n][i].0 == k;
      assert emitted[i].0 == k;
    }
  }

  /** Adds one chunk's buffer onto the result. */
  method FoldChunk<T(!new)>(plus: Plus<T>, out: array<T>, entries: seq<(nat, T)>, ghost emitted: seq<(nat, T)>)
    requires Associative(plus) && Holds(plus, entries, emitted) && KeysBelow(entries, out.Length)
    modifies out
    ensures forall k: nat :: k < out.Length ==> out[k] == FoldLeft(plus, old(out[k]), ValuesOf(emitted, k))
  {
    ghost var start := out[..];
    var i := 0;
    while i < |entries|
      invariant 0 <= i <= |entries|
      invariant forall k: nat :: k < out.Length ==>
                PendingFor(plus, entries, i, k, out[k]) == PendingFor(plus, entries, 0, k, start[k])
    {
      out[entries[i].0] := plus(out[entries[i].0], entries[i].1);
      i := i + 1;
    }
    forall k: nat | k < out.Length ensures out[k] == FoldLeft(plus, start[k], ValuesOf(emitted, k)) {
      ChunkSum(plus, entries, emitted, k, start[k]);
      if ValuesOf(emitted, k) != [] {
        FoldOnto(plus, start[k], ValuesOf(emitted, k));
      }
    }
  }

  lemma FoldedChunk<T(!new)>(plus: Plus<T>, start: seq<T>, before: seq<T>, after: seq<T>, chunks: seq<seq<(nat, T)>>,
                             c: nat)
    requires c < |chunks| && FoldedInto(plus, start, before, chunks[..c]) && |after| == |before|
    requires forall k: nat :: k < |before| ==> after[k] == FoldLeft(plus, before[k], ValuesOf(chunks[c], k))
    ensures FoldedInto(plus, start, after, chunks[..c + 1])
  {
    assert chunks[..c + 1][..c] == chunks[..c];
    forall k: nat | k < |start| ensures after[k] == FoldLeft(plus, start[k], AllValuesOf(chunks[..c + 1], k)) {
      FoldConcat(plus, start[k], AllValuesOf(chunks[..c], k), ValuesOf(chunks[c], k));
    }
  }

  /** The sequential fold after the join. */
  method FoldBuffers<T(!new)>(plus: Plus<T>, out: array<T>, chunks: seq<seq<(nat, T)>>, emitters: seq<KeyedEmitter<T>>)
    requires Associative(plus) && |emitters| == |chunks|
    requires forall c :: 0 <= c < |chunks| ==>
             Holds(plus, emitters[c].entries, chunks[c]) && KeysBelow(chunks[c], out.Length)
    modifies out
    ensures FoldedInto(plus, old(out[..]), out[..], chunks)
  {
    ghost var start := out[..];
    var c := 0;
    while c < |chunks|
      invariant 0 <= c <= |chunks|
      invariant forall e :: 0 <= e < |chunks| ==> Holds(plus, emitters[e].entries, chunks[e])
      invariant FoldedInto(plus, start, out[..], chunks[..c])
    {
      EntryKeys(plus, emitters[c].entries, chunks[c], out.Length);
      ghost var before := out[..];
      FoldChunk(plus, out, emitters[c].entries, chunks[c]);
      FoldedChunk(plus, start, before, out[..], chunks, c);
      c := c + 1;
    }
    assert chunks[..c] == chunks;
  }

  /** parallel_keyed_sum.  Whatever the order of execution, each key ends with its initial value
      plus all values emitted for it, in chunk order and then emission order. */
  method ParallelKeyedSum<T(!new)>(plus: Plus<T>, out: array<T>, chunks: seq<seq<(nat, T)>>, order: seq<nat>,
                                   emitters: seq<KeyedEmitter<T>>)
    requires Associative(plus) && Execution(order, |chunks|) && |emitters| >= |chunks|
    requires forall c, e :: 0 <= c < e < |emitters| ==> emitters[c] != emitters[e]
    requires forall c :: 0 <= c < |chunks| ==> KeysBelow(chunks[c], out.Length)
    modifies out, emitters
    ensures FoldedInto(plus, old(out[..]), out[..], chunks)
    ensures forall c :: 0 <= c < |chunks| ==> DistinctKeys(emitters[c].entries)
  {
    ghost var start := out[..];
    var c := 0;
    while c < |chunks|
      invariant 0 <= c <= |chunks| && out[..] == start
      invariant forall e :: 0 <= e < c ==> emitters[e].entries == []
    {
      emitters[c].entries := [];
      c := c + 1;
    }
    RunAll(plus, chunks, order, emitters[..|chunks|]);
    assert forall e :: 0 <= e < |chunks| ==> Holds(plus, emitters[..|chunks|][e].entries, chunks[e]);
    FoldBuffers(plus, out, chunks, emitters[..|chunks|]);
  }

  /** parallel_sum: per-chunk results in any order of execution, added in chunk order. */
  method ParallelSum<T(0)>(plus: Plus<T>, init: T, results: seq<T>, order: seq<nat>) returns (acc: T)
    requires Execution(order, |results|)
    ensures acc == FoldLeft(plus, init, results)
  {
    var perChunk := new T[|results|];
    var i := 0;
    while i < |order|
      invariant 0 <= i <= |order|
      invariant forall j :: 0 <= j < i ==> perChunk[order[j]] == results[order[j]]
    {
      perChunk[order[i]] := results[order[i]];
      i := i + 1;
    }
    forall c: nat | c < |results| ensures perChunk[c] == results[c] {
      assert c in order;
    }
    acc := init;
    i := 0;
    assert results[..0] == [];
    while i < |results|
      invariant 0 <= i <= |results| && acc == FoldLeft(plus, init, results[..i])
      invariant forall c: nat :: c < |results| ==> perChunk[c] == results[c]
    {
      assert results[..i + 1][..i] == results[..i];
      acc := plus(acc, perChunk[i]);
      i := i + 1;
    }
    assert results[..i] == results;
  }
}
