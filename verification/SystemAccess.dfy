/** Component access sets: how a system's declared accesses are folded into its registration,
    and when two registrations conflict. */
module SystemAccess {
  import opened Fnv
  import opened Sorting

  datatype AccessMode = Read | Write

  datatype ComponentAccess = ComponentAccess(id: nat, mode: AccessMode)

  /** What a system type declares: the tick parameters (the iteration query and the access
      to iterated rows), the exclude filter, access beyond the iterated rows, and ordering. */
  datatype SystemDecl = SystemDecl(
    typeId: Word, threaded: bool, tick: seq<ComponentAccess>, filter: seq<nat>,
    extraReads: seq<nat>, extraWrites: seq<nat>, after: seq<Word>, before: seq<Word>)

  datatype Registration = Registration(
    typeId: Word, alive: bool, threaded: bool, access: seq<ComponentAccess>,
    runAfter: seq<Word>, runBefore: seq<Word>,
    extraReads: seq<nat>, extraWrites: seq<nat>, requireIds: seq<nat>, excludeIds: seq<nat>)

  predicate Mentions(s: seq<ComponentAccess>, c: nat) {
    ComponentAccess(c, Read) in s || ComponentAccess(c, Write) in s
  }

  /** Both sides mention c and at least one of them writes it. */
  predicate ConflictOn(a: seq<ComponentAccess>, b: seq<ComponentAccess>, c: nat) {
    && Mentions(a, c) && Mentions(b, c)
    && (ComponentAccess(c, Write) in a || ComponentAccess(c, Write) in b)
  }

  ghost predicate Overlap(a: seq<ComponentAccess>, b: seq<ComponentAccess>) {
    exists c: nat :: ConflictOn(a, b, c)
  }

  predicate Clash(x: ComponentAccess, y: ComponentAccess) {
    x.id == y.id && (x.mode == Write || y.mode == Write)
  }

  lemma MemberMentions(a: seq<ComponentAccess>, i: nat)
    requires i < |a|
    ensures Mentions(a, a[i].id)
    ensures a[i].mode == Write ==> ComponentAccess(a[i].id, Write) in a
  {
    assert a[i] in a;
    match a[i] {
      case ComponentAccess(c, Read) =>
      case ComponentAccess(c, Write) =>
    }
  }

  lemma ClashIsConflict(a: seq<ComponentAccess>, b: seq<ComponentAccess>, c: nat)
    ensures ConflictOn(a, b, c) <==> exists i, j :: 0 <= i < |a| && 0 <= j < |b| && a[i].id == c && Clash(a[i], b[j])
  {
    if ConflictOn(a, b, c) {
      var x := if ComponentAccess(c, Write) in a then ComponentAccess(c, Write) else ComponentAccess(c, Read);
      var y := if ComponentAccess(c, Write) in b then ComponentAccess(c, Write) else ComponentAccess(c, Read);
      var i :| 0 <= i < |a| && a[i] == x;
      var j :| 0 <= j < |b| && b[j] == y;
      assert Clash(a[i], b[j]);
    }
    if i, j :| 0 <= i < |a| && 0 <= j < |b| && a[i].id == c && Clash(a[i], b[j]) {
      MemberMentions(a, i);
      MemberMentions(b, j);
    }
  }

  method AccessOverlaps(a: seq<ComponentAccess>, b: seq<ComponentAccess>) returns (r: bool)
    ensures r <==> Overlap(a, b)
  {
    var i := 0;
    while i < |a|
      invariant 0 <= i <= |a|
      invariant forall k, l :: 0 <= k < i && 0 <= l < |b| ==> !Clash(a[k], b[l])
    {
      var j := 0;
      while j < |b|
        invariant 0 <= j <= |b|
        invariant forall l :: 0 <= l < j ==> !Clash(a[i], b[l])
      {
        if a[i].id == b[j].id && (a[i].mode == Write || b[j].mode == Write) {
          assert Clash(a[i], b[j]);
          ClashIsConflict(a, b, a[i].id);
          return true;
        }
        j := j + 1;
      }
      i := i + 1;
    }
    forall c: nat ensures !ConflictOn(a, b, c) {
      ClashIsConflict(a, b, c);
    }
    r := false;
  }

  /** Two-pointer walk over ascending lists. */
  method SortedIntersects(a: seq<nat>, b: seq<nat>) returns (r: bool)
    requires Ascending(a) && Ascending(b)
    ensures r <==> exists c: nat :: c in a && c in b
  {
    var i, j := 0, 0;
    while i < |a| && j < |b|
      invariant 0 <= i <= |a| && 0 <= j <= |b|
      invariant forall k, l :: 0 <= k < |a| && 0 <= l < |b| && (k < i || l < j) ==> a[k] != b[l]
      decreases |a| - i + |b| - j
    {
      if a[i] == b[j] {
        assert a[i] in a && a[i] in b;
        return true;
      }
      if a[i] < b[j] {
        i := i + 1;
      } else {
        j := j + 1;
      }
    }
    r := false;
  }

  /** The components on which two access lists conflict, ascending. */
  method AccessConflictComponents(a: seq<ComponentAccess>, b: seq<ComponentAccess>) returns (out: seq<nat>)
    ensures Ascending(out)
    ensures forall c: nat :: c in out <==> ConflictOn(a, b, c)
  {
    out := [];
    var i := 0;
    while i < |a|
      invariant 0 <= i <= |a|
      invariant forall c: nat :: c in out <==>
                exists k, l :: 0 <= k < i && 0 <= l < |b| && a[k].id == c && Clash(a[k], b[l])
    {
      ghost var before := out;
      var j := 0;
      while j < |b| && !Clash(a[i], b[j])
        invariant 0 <= j <= |b|
        invariant forall l :: 0 <= l < j ==> !Clash(a[i], b[l])
      {
        j := j + 1;
      }
      if j < |b| {
        out := out + [a[i].id];
      }
      i := i + 1;
    }
    forall c: nat ensures c in out <==> ConflictOn(a, b, c) {
      ClashIsConflict(a, b, c);
    }
    out := SortUnique(out);
  }

  // ----- folding declarations into one access set -----

  /** An extra read is added unless the component is already written. */
  method MergeExtraReads(dest: seq<ComponentAccess>, extra: seq<nat>) returns (r: seq<ComponentAccess>)
    ensures forall c: nat :: ComponentAccess(c, Write) in r <==> ComponentAccess(c, Write) in dest
    ensures forall c: nat :: ComponentAccess(c, Read) in r <==>
      ComponentAccess(c, Read) in dest || (c in extra && ComponentAccess(c, Write) !in dest)
  {
    r := dest;
    var i := 0;
    while i < |extra|
      invariant 0 <= i <= |extra|
      invariant forall c: nat :: ComponentAccess(c, Write) in r <==> ComponentAccess(c, Write) in dest
      invariant forall c: nat :: ComponentAccess(c, Read) in r <==>
        ComponentAccess(c, Read) in dest || (c in extra[..i] && ComponentAccess(c, Write) !in dest)
    {
      assert extra[..i + 1] == extra[..i] + [extra[i]];
      var foundWrite := ComponentAccess(extra[i], Write) in r;
      if !foundWrite {
        r := r + [ComponentAccess(extra[i], Read)];
      }
      i := i + 1;
    }
    assert extra[..i] == extra;
  }

  method MergeExtraWrites(dest: seq<ComponentAccess>, extra: seq<nat>) returns (r: seq<ComponentAccess>)
    ensures forall c: nat :: ComponentAccess(c, Read) in r <==> ComponentAccess(c, Read) in dest
    ensures forall c: nat :: ComponentAccess(c, Write) in r <==> ComponentAccess(c, Write) in dest || c in extra
  {
    r := dest;
    var i := 0;
    while i < |extra|
      invariant 0 <= i <= |extra|
      invariant forall c: nat :: ComponentAccess(c, Read) in r <==> ComponentAccess(c, Read) in dest
      invariant forall c: nat :: ComponentAccess(c, Write) in r <==>
                ComponentAccess(c, Write) in dest || c in extra[..i]
    {
      assert extra[..i + 1] == extra[..i] + [extra[i]];
      r := r + [ComponentAccess(extra[i], Write)];
      i := i + 1;
    }
    assert extra[..i] == extra;
  }

  function AccessKey(x: ComponentAccess): Key {
    (x.id, if x.mode == Write then 0 else 1)
  }

  /** At most one entry per component, in ascending component order. */
  ghost predicate Canonical(s: seq<ComponentAccess>) {
    forall i, j :: 0 <= i < j < |s| ==> s[i].id < s[j].id
  }

  /** r keeps the first entry of every component among the first i entries of t. */
  ghost predicate FirstEntries(t: seq<ComponentAccess>, i: nat, r: seq<ComponentAccess>)
    requires i <= |t|
  {
    && Canonical(r)
    && (r == [] <==> i == 0)
    && (i > 0 ==> r[|r| - 1].id == t[i - 1].id)
    && (forall x :: x in r ==> x in t[..i])
    && (forall k :: 0 <= k < i ==> t[k] in r || (t[k].mode == Read && ComponentAccess(t[k].id, Write) in r))
    && (forall j :: 0 <= j < |r| && r[j].mode == Read ==> ComponentAccess(r[j].id, Write) !in t)
  }

  /** A group that starts with a read contains no write, because writes sort first. */
  lemma ReadGroup(t: seq<ComponentAccess>, i: nat)
    requires i < |t| && SortedBy(t, AccessKey) && t[i].mode == Read
    requires i > 0 ==> t[i - 1].id != t[i].id
    ensures ComponentAccess(t[i].id, Write) !in t
  {
    var w := ComponentAccess(t[i].id, Write);
    forall k | 0 <= k < |t| ensures t[k] != w {
      if k < i {
        assert k < i - 1 ==> KeyLe(AccessKey(t[k]), AccessKey(t[i - 1]));
        assert KeyLe(AccessKey(t[i - 1]), AccessKey(t[i]));
      } else if k > i {
        assert KeyLe(AccessKey(t[i]), AccessKey(t[k]));
      }
    }
  }

  lemma EntriesBelow(t: seq<ComponentAccess>, i: nat, r: seq<ComponentAccess>)
    requires i < |t| && SortedBy(t, AccessKey) && FirstEntries(t, i, r) && (r == [] || r[|r| - 1].id != t[i].id)
    ensures forall j :: 0 <= j < |r| ==> r[j].id < t[i].id
  {
    forall j | 0 <= j < |r| ensures r[j].id < t[i].id {
      assert KeyLe(AccessKey(t[i - 1]), AccessKey(t[i]));
      assert j < |r| - 1 ==> r[j].id < r[|r| - 1].id;
    }
  }

  lemma NewEntry(t: seq<ComponentAccess>, i: nat, r: seq<ComponentAccess>)
    requires i < |t| && SortedBy(t, AccessKey) && FirstEntries(t, i, r) && (r == [] || r[|r| - 1].id != t[i].id)
    ensures FirstEntries(t, i + 1, r + [t[i]])
  {
    assert t[..i + 1] == t[..i] + [t[i]];
    if t[i].mode == Read {
      ReadGroup(t, i);
    }
    EntriesBelow(t, i, r);
  }

  lemma SameEntry(t: seq<ComponentAccess>, i: nat, r: seq<ComponentAccess>)
    requires i < |t| && SortedBy(t, AccessKey) && FirstEntries(t, i, r) && r != [] && r[|r| - 1].id == t[i].id
    ensures FirstEntries(t, i + 1, r)
  {
    assert t[..i + 1] == t[..i] + [t[i]];
    var last := r[|r| - 1];
    assert last in r && t[i] in t;
    match (last.mode, t[i].mode) {
      case (Read, Write) =>
        assert false;
      case (Read, Read) =>
        assert t[i] == last;
      case (Write, Read) =>
        assert last == ComponentAccess(t[i].id, Write);
      case (Write, Write) =>
        assert t[i] == last;
    }
  }

  /** The sorted list has the members of the list itself. */
  lemma AllEntries(s: seq<ComponentAccess>, t: seq<ComponentAccess>, r: seq<ComponentAccess>)
    requires multiset(s) == multiset(t) && FirstEntries(t, |t|, r)
    ensures Canonical(r)
    ensures forall c: nat :: ComponentAccess(c, Write) in r <==> ComponentAccess(c, Write) in s
    ensures forall c: nat :: ComponentAccess(c, Read) in r <==>
            ComponentAccess(c, Read) in s && ComponentAccess(c, Write) !in s
  {
    assert t[..|t|] == t;
    assert forall x :: x in s <==> x in multiset(s);
    assert forall x :: x in t <==> x in multiset(t);
  }

  /** Write plus read of one component coalesces to write. */
  method CanonicaliseAccessSet(s: seq<ComponentAccess>) returns (r: seq<ComponentAccess>)
    ensures Canonical(r)
    ensures forall c: nat :: ComponentAccess(c, Write) in r <==> ComponentAccess(c, Write) in s
    ensures forall c: nat :: ComponentAccess(c, Read) in r <==>
            ComponentAccess(c, Read) in s && ComponentAccess(c, Write) !in s
  {
    var t := Sort(s, AccessKey);
    r := [];
    var i := 0;
    while i < |t|
      invariant 0 <= i <= |t| && FirstEntries(t, i, r)
    {
      if r == [] || r[|r| - 1].id != t[i].id {
        NewEntry(t, i, r);
        r := r + [t[i]];
      } else {
        SameEntry(t, i, r);
      }
      i := i + 1;
    }
    AllEntries(s, t, r);
  }

  /** The registration r faithfully summarises the declaration d. */
  ghost predicate RegistrationOf(d: SystemDecl, r: Registration) {
    && r.typeId == d.typeId && r.threaded == d.threaded && r.runAfter == d.after && r.runBefore == d.before
    && Ascending(r.requireIds) && (forall c: nat :: c in r.requireIds <==> Mentions(d.tick, c))
    && Ascending(r.excludeIds) && (forall c: nat :: c in r.excludeIds <==> c in d.filter)
    && Ascending(r.extraReads) && (forall c: nat :: c in r.extraReads <==> c in d.extraReads)
    && Ascending(r.extraWrites) && (forall c: nat :: c in r.extraWrites <==> c in d.extraWrites)
    && Canonical(r.access)
    && (forall c: nat :: ComponentAccess(c, Write) in r.access <==>
        ComponentAccess(c, Write) in d.tick || c in d.extraWrites)
    && (forall c: nat :: ComponentAccess(c, Read) in r.access <==>
          (ComponentAccess(c, Read) in d.tick || c in d.extraReads)
          && !(ComponentAccess(c, Write) in d.tick || c in d.extraWrites))
  }

  /** Registration of a system type: the static metadata is copied, sorted and merged. */
  method Register(d: SystemDecl) returns (r: Registration)
    requires !(d.threaded && d.extraWrites != [])
    ensures RegistrationOf(d, r) && r.alive
  {
    var access := CanonicaliseAccessSet(d.tick);
    var extraReads := SortUnique(d.extraReads);
    var extraWrites := SortUnique(d.extraWrites);
    access := MergeExtraReads(access, extraReads);
    access := MergeExtraWrites(access, extraWrites);
    access := CanonicaliseAccessSet(access);
    var required := seq(|d.tick|, i requires 0 <= i < |d.tick| => d.tick[i].id);
    assert forall c: nat :: c in required <==> Mentions(d.tick, c) by {
      forall c: nat ensures c in required <==> Mentions(d.tick, c) {
        if Mentions(d.tick, c) {
          var i :| 0 <= i < |d.tick| && d.tick[i].id == c;
          assert required[i] == c;
        }
        if c in required {
          var i :| 0 <= i < |required| && required[i] == c;
          MemberMentions(d.tick, i);
        }
      }
    }
    var requireIds := SortUnique(required);
    var excludeIds := SortUnique(d.filter);
    r := Registration(d.typeId, true, d.threaded, access, d.after, d.before, extraReads, extraWrites, requireIds,
                      excludeIds);
  }
}
