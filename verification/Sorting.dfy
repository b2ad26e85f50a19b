/** Sorting by a two-component key.  `StableSort` specifies a stable sort; `Sort` promises no
    more than the C++ standard sort does: some sorted permutation. */
module Sorting {

  type Key = (int, int)

  predicate KeyLe(a: Key, b: Key) {
    a.0 < b.0 || (a.0 == b.0 && a.1 <= b.1)
  }

  predicate KeyLt(a: Key, b: Key) {
    a.0 < b.0 || (a.0 == b.0 && a.1 < b.1)
  }

  ghost predicate SortedBy<T>(s: seq<T>, key: T -> Key) {
    forall i, j :: 0 <= i < j < |s| ==> KeyLe(key(s[i]), key(s[j]))
  }

  ghost predicate StrictlySortedBy<T>(s: seq<T>, key: T -> Key) {
    forall i, j :: 0 <= i < j < |s| ==> KeyLt(key(s[i]), key(s[j]))
  }

  ghost predicate Ascending(s: seq<nat>) {
    forall i, j :: 0 <= i < j < |s| ==> s[i] < s[j]
  }

  /** Inserts x before the first element with a strictly larger key. */
  function Insert<T>(s: seq<T>, x: T, key: T -> Key): (r: seq<T>)
    ensures multiset(r) == multiset(s) + multiset{x}
    ensures SortedBy(s, key) ==> SortedBy(r, key)
  {
    if s == [] then [x]
    else
      var last := s[|s| - 1];
      var front := s[..|s| - 1];
      assert s == front + [last];
      if KeyLe(key(last), key(x)) then
        SortedAppend(s, x, key);
        s + [x]
      else
        var r := Insert(front, x, key);
        InsertMembers(r, front, x, last, key);
        r + [last]
  }

  lemma SortedAppend<T>(s: seq<T>, x: T, key: T -> Key)
    requires s != [] && KeyLe(key(s[|s| - 1]), key(x))
    ensures SortedBy(s, key) ==> SortedBy(s + [x], key)
  {
  }

  lemma InsertMembers<T>(r: seq<T>, front: seq<T>, x: T, last: T, key: T -> Key)
    requires multiset(r) == multiset(front) + multiset{x} && KeyLe(key(x), key(last))
    ensures SortedBy(front + [last], key) && SortedBy(r, key) ==> SortedBy(r + [last], key)
  {
    if SortedBy(front + [last], key) && SortedBy(r, key) {
      forall i | 0 <= i < |r| ensures KeyLe(key(r[i]), key(last)) {
        assert r[i] in multiset(r);
        if r[i] != x {
          assert r[i] in front;
          var j :| 0 <= j < |front| && front[j] == r[i];
          assert KeyLe(key((front + [last])[j]), key((front + [last])[|front|]));
        }
      }
    }
  }

  function StableSort<T>(s: seq<T>, key: T -> Key): (r: seq<T>)
    ensures multiset(r) == multiset(s)
    ensures SortedBy(r, key)
  {
    if s == [] then []
    else
      assert s == s[..|s| - 1] + [s[|s| - 1]];
      Insert(StableSort(s[..|s| - 1], key), s[|s| - 1], key)
  }

  method Sort<T>(s: seq<T>, key: T -> Key) returns (r: seq<T>)
    ensures multiset(r) == multiset(s) && SortedBy(r, key)
    ensures |r| == |s| && forall x :: x in r <==> x in s
  {
    r := StableSort(s, key);
    SameMembers(r, s);
  }

  lemma SameMembers<T>(a: seq<T>, b: seq<T>)
    requires multiset(a) == multiset(b)
    ensures |a| == |b| && forall x :: x in a <==> x in b
  {
    assert |multiset(a)| == |a| && |multiset(b)| == |b|;
    assert forall x :: x in a <==> x in multiset(a);
    assert forall x :: x in b <==> x in multiset(b);
  }

  ghost predicate AllDifferent<T>(s: seq<T>) {
    forall i, j :: 0 <= i < j < |s| ==> s[i] != s[j]
  }

  lemma {:induction false} CountedOnce<T>(s: seq<T>, x: T)
    requires AllDifferent(s)
    ensures multiset(s)[x] <= 1
  {
    if s != [] {
      var front, last := s[..|s| - 1], s[|s| - 1];
      CountedOnce(front, x);
      assert s == front + [last];
      if last == x {
        assert x !in front;
      }
    }
  }

  lemma CountedTwice<T>(s: seq<T>, i: nat, j: nat)
    requires i < j < |s| && s[i] == s[j]
    ensures multiset(s)[s[i]] >= 2
  {
    assert s == s[..i] + [s[i]] + s[i + 1..j] + [s[j]] + s[j + 1..];
  }

  lemma PermutationDifferent<T>(a: seq<T>, b: seq<T>)
    requires multiset(a) == multiset(b) && AllDifferent(a)
    ensures AllDifferent(b)
  {
    forall i, j | 0 <= i < j < |b| ensures b[i] != b[j] {
      if b[i] == b[j] {
        CountedTwice(b, i, j);
        CountedOnce(a, b[i]);
      }
    }
  }

  lemma HeadNotInTail<T>(a: seq<T>, x: T, key: T -> Key)
    requires StrictlySortedBy(a, key) && a != []
    ensures x in a[1..] <==> x in a && x != a[0]
  {
    assert a == [a[0]] + a[1..];
    if x in a[1..] {
      var i :| 0 <= i < |a[1..]| && a[1..][i] == x;
      assert a[i + 1] == x && KeyLt(key(a[0]), key(a[i + 1]));
    }
  }

  lemma HasMember<T>(b: seq<T>)
    requires b != []
    ensures exists x :: x in b
  {
    assert b[0] in b;
  }

  /** Two strictly sorted lists with the same members are the same list. */
  lemma {:induction false} StrictlySortedUnique<T>(a: seq<T>, b: seq<T>, key: T -> Key)
    requires StrictlySortedBy(a, key) && StrictlySortedBy(b, key)
    requires forall x :: x in a <==> x in b
    ensures a == b
    decreases |a|
  {
    if a == [] {
      if b != [] {
        HasMember(b);
        assert false;
      }
    } else {
      assert a[0] in b && b != [];
      assert b[0] in a;
      assert a[0] == b[0];
      forall x ensures x in a[1..] <==> x in b[1..] {
        HeadNotInTail(a, x, key);
        HeadNotInTail(b, x, key);
      }
      StrictlySortedUnique(a[1..], b[1..], key);
    }
  }

  lemma AscendingUnique(a: seq<nat>, b: seq<nat>)
    requires Ascending(a) && Ascending(b)
    requires forall x: nat :: x in a <==> x in b
    ensures a == b
  {
    StrictlySortedUnique(a, b, (x: nat) => (x as int, 0));
  }

  /** Drops adjacent repetitions: the standard `unique` on a sorted list of ids. */
  method SortUnique(s: seq<nat>) returns (r: seq<nat>)
    ensures Ascending(r)
    ensures forall x: nat :: x in r <==> x in s
  {
    var t := Sort(s, (x: nat) => (x as int, 0));
    r := [];
    var i := 0;
    while i < |t|
      invariant 0 <= i <= |t|
      invariant Ascending(r)
      invariant forall x: nat :: x in r <==> x in t[..i]
      invariant r == [] <==> i == 0
      invariant i > 0 ==> r[|r| - 1] == t[i - 1]
    {
      assert t[..i + 1] == t[..i] + [t[i]];
      if r == [] || r[|r| - 1] != t[i] {
        assert i > 0 ==> KeyLe((t[i - 1] as int, 0), (t[i] as int, 0));
        r := r + [t[i]];
      }
      i := i + 1;
    }
    assert t[..i] == t;
  }
}
