/** When two systems must be ordered.  The syntactic test of the scheduler is related to what
    systems actually touch: a system reaches its tick components on the rows its query
    matches, and its extra components on every row (and on singletons). */
module Conflicts {
  import opened Sorting
  import opened SystemAccess

  // ----- the scheduler's test -----

  ghost predicate Shares(a: seq<nat>, b: seq<nat>) {
    exists c: nat :: c in a && c in b
  }

  /** Rule 1: one side requires a component the other side excludes. */
  ghost predicate DisjointIteration(a: Registration, b: Registration) {
    Shares(a.requireIds, b.excludeIds) || Shares(b.requireIds, a.excludeIds)
  }

  /** Rule 2 for one component: both sides reach it by iteration only. */
  predicate IteratedOnly(a: Registration, b: Registration, c: nat) {
    && c in a.requireIds && c in b.requireIds
    && c !in a.extraReads && c !in a.extraWrites && c !in b.extraReads && c !in b.extraWrites
  }

  ghost predicate Separable(a: Registration, b: Registration) {
    && DisjointIteration(a, b)
    && forall c: nat :: ConflictOn(a.access, b.access, c) ==> IteratedOnly(a, b, c)
  }

  /** The pair gets an ordering edge. */
  ghost predicate NeedsOrder(a: Registration, b: Registration) {
    Overlap(a.access, b.access) && !Separable(a, b)
  }

  lemma NeedsOrderSymmetric(a: Registration, b: Registration)
    ensures NeedsOrder(a, b) == NeedsOrder(b, a)
  {
    assert forall c: nat :: ConflictOn(a.access, b.access, c) <==> ConflictOn(b.access, a.access, c);
    assert forall c: nat :: IteratedOnly(a, b, c) <==> IteratedOnly(b, a, c);
  }

  ghost predicate SortedLists(r: Registration) {
    Ascending(r.requireIds) && Ascending(r.excludeIds) && Ascending(r.extraReads) && Ascending(r.extraWrites)
  }

  method ProvablyDisjoint(a: Registration, b: Registration) returns (r: bool)
    requires SortedLists(a) && SortedLists(b)
    ensures r <==> Separable(a, b)
  {
    var ab := SortedIntersects(a.requireIds, b.excludeIds);
    var ba := SortedIntersects(b.requireIds, a.excludeIds);
    if !(ab || ba) {
      return false;
    }
    var cs := AccessConflictComponents(a.access, b.access);
    var i := 0;
    while i < |cs|
      invariant 0 <= i <= |cs|
      invariant forall k :: 0 <= k < i ==> IteratedOnly(a, b, cs[k])
    {
      var c := cs[i];
      assert ConflictOn(a.access, b.access, c) by { assert c in cs; }
      if c !in a.requireIds || c !in b.requireIds {
        return false;
      }
      if c in a.extraReads || c in a.extraWrites || c in b.extraReads || c in b.extraWrites {
        return false;
      }
      i := i + 1;
    }
    r := true;
  }

  // ----- what systems touch -----

  /** The archetype signature sig is iterated by d. */
  ghost predicate Matches(d: SystemDecl, sig: set<nat>) {
    (forall c: nat :: Mentions(d.tick, c) ==> c in sig) && (forall c: nat :: c in d.filter ==> c !in sig)
  }

  ghost predicate ByIteration(d: SystemDecl, c: nat, write: bool) {
    ComponentAccess(c, Write) in d.tick || (!write && ComponentAccess(c, Read) in d.tick)
  }

  ghost predicate ByExtra(d: SystemDecl, c: nat, write: bool) {
    c in d.extraWrites || (!write && c in d.extraReads)
  }

  /** d may access component c of a row whose entity carries the components sig. */
  ghost predicate MayTouch(d: SystemDecl, sig: set<nat>, c: nat, write: bool) {
    (Matches(d, sig) && ByIteration(d, c, write)) || ByExtra(d, c, write)
  }

  ghost predicate RaceOn(a: SystemDecl, b: SystemDecl, sig: set<nat>, c: nat) {
    || (MayTouch(a, sig, c, true) && MayTouch(b, sig, c, false))
    || (MayTouch(a, sig, c, false) && MayTouch(b, sig, c, true))
  }

  ghost predicate Contradictory(d: SystemDecl) {
    exists c: nat :: Mentions(d.tick, c) && c in d.filter
  }

  /** Soundness: a pair the scheduler leaves unordered shares no cell with a write, whatever
      archetypes exist. */
  lemma UnorderedNeverRaces(da: SystemDecl, a: Registration, db: SystemDecl, b: Registration, sig: set<nat>, c: nat)
    requires RegistrationOf(da, a) && RegistrationOf(db, b)
    requires !NeedsOrder(a, b)
    ensures !RaceOn(da, db, sig, c)
  {
    if RaceOn(da, db, sig, c) {
      assert ConflictOn(a.access, b.access, c);
    }
  }

  /** Rule 1 is complete: no signature matches both queries exactly when it fires or one query
      contradicts itself. */
  lemma Rule1Complete(da: SystemDecl, a: Registration, db: SystemDecl, b: Registration)
    requires RegistrationOf(da, a) && RegistrationOf(db, b)
    ensures (exists sig :: Matches(da, sig) && Matches(db, sig)) <==>
            !DisjointIteration(a, b) && !Contradictory(da) && !Contradictory(db)
  {
    if !DisjointIteration(a, b) && !Contradictory(da) && !Contradictory(db) {
      var sig := JointSignature(a, b);
      assert Matches(da, sig) && Matches(db, sig);
    }
  }

  ghost function JointSignature(a: Registration, b: Registration): (sig: set<nat>)
    ensures forall c: nat :: c in sig <==> c in a.requireIds || c in b.requireIds
  {
    set c | c in a.requireIds + b.requireIds
  }

  // ----- when the order is needed -----

  /** d reaches c on rows that some signature gives it, or on all rows. */
  ghost predicate Reaches(d: SystemDecl, c: nat, write: bool) {
    ByExtra(d, c, write) || (!Contradictory(d) && ByIteration(d, c, write))
  }

  /** An extra access of one system meets an access of the other, and one of them writes. */
  ghost predicate Collide(da: SystemDecl, db: SystemDecl, c: nat, write: bool) {
    || (ByExtra(da, c, write) && Reaches(db, c, !write))
    || (ByExtra(db, c, write) && Reaches(da, c, !write))
  }

  ghost predicate ShareSignature(da: SystemDecl, a: Registration, db: SystemDecl, b: Registration) {
    !DisjointIteration(a, b) && !Contradictory(da) && !Contradictory(db)
  }

  lemma OwnSignature(d: SystemDecl, r: Registration)
    requires RegistrationOf(d, r) && !Contradictory(d)
    ensures Matches(d, JointSignature(r, r))
  {
  }

  lemma CollisionRaces(da: SystemDecl, a: Registration, db: SystemDecl, b: Registration, c: nat, write: bool)
    requires RegistrationOf(da, a) && RegistrationOf(db, b) && Collide(da, db, c, write)
    ensures exists sig :: RaceOn(da, db, sig, c)
  {
    if !Contradictory(da) {
      OwnSignature(da, a);
    }
    if !Contradictory(db) {
      OwnSignature(db, b);
    }
    if ByExtra(da, c, write) && Reaches(db, c, !write) {
      assert RaceOn(da, db, JointSignature(b, b), c);
    } else {
      assert RaceOn(da, db, JointSignature(a, a), c);
    }
  }

  lemma SharedSignatureRaces(da: SystemDecl, a: Registration, db: SystemDecl, b: Registration)
    requires RegistrationOf(da, a) && RegistrationOf(db, b)
    requires ShareSignature(da, a, db, b) && Overlap(a.access, b.access)
    ensures exists sig, c :: RaceOn(da, db, sig, c)
  {
    Rule1Complete(da, a, db, b);
    var sig :| Matches(da, sig) && Matches(db, sig);
    var c: nat :| ConflictOn(a.access, b.access, c);
    assert RaceOn(da, db, sig, c);
  }

  lemma RaceHasCause(da: SystemDecl, a: Registration, db: SystemDecl, b: Registration, sig: set<nat>, c: nat)
    requires RegistrationOf(da, a) && RegistrationOf(db, b) && RaceOn(da, db, sig, c)
    ensures (ShareSignature(da, a, db, b) && Overlap(a.access, b.access)) || exists write :: Collide(da, db, c, write)
  {
    if Matches(da, sig) && Matches(db, sig) {
      Rule1Complete(da, a, db, b);
      assert ConflictOn(a.access, b.access, c);
    } else {
      assert Matches(da, sig) ==> !Contradictory(da);
      assert Matches(db, sig) ==> !Contradictory(db);
      assert Collide(da, db, c, true) || Collide(da, db, c, false);
    }
  }

  /** Two systems can race exactly if they conflict and some signature matches both queries, or an
      extra access of one collides with any access of the other. */
  lemma RaceExactly(da: SystemDecl, a: Registration, db: SystemDecl, b: Registration)
    requires RegistrationOf(da, a) && RegistrationOf(db, b)
    ensures (exists sig, c :: RaceOn(da, db, sig, c)) <==>
            (ShareSignature(da, a, db, b) && Overlap(a.access, b.access))
              || exists c, write :: Collide(da, db, c, write)
  {
    if sig, c :| RaceOn(da, db, sig, c) {
      RaceHasCause(da, a, db, b, sig, c);
    }
    if c, write :| Collide(da, db, c, write) {
      CollisionRaces(da, a, db, b, c, write);
    }
    if ShareSignature(da, a, db, b) && Overlap(a.access, b.access) {
      SharedSignatureRaces(da, a, db, b);
    }
  }

  // ----- the same from the declared lists -----

  ghost predicate Touches(d: SystemDecl, c: nat, write: bool) {
    ByIteration(d, c, write) || ByExtra(d, c, write)
  }

  /** Both declare an access of c, and one of them writes. */
  ghost predicate DeclaredClash(da: SystemDecl, db: SystemDecl, c: nat) {
    (Touches(da, c, true) && Touches(db, c, false)) || (Touches(da, c, false) && Touches(db, c, true))
  }

  /** A component is a tick parameter of one system and filtered out by the other. */
  ghost predicate QueriesApart(da: SystemDecl, db: SystemDecl) {
    exists c: nat :: (Mentions(da.tick, c) && c in db.filter) || (Mentions(db.tick, c) && c in da.filter)
  }

  predicate TickOnly(d: SystemDecl, c: nat) {
    Mentions(d.tick, c) && c !in d.extraReads && c !in d.extraWrites
  }

  lemma QueriesDeclared(da: SystemDecl, a: Registration, db: SystemDecl, b: Registration)
    requires RegistrationOf(da, a) && RegistrationOf(db, b)
    ensures DisjointIteration(a, b) <==> QueriesApart(da, db)
  {
    if DisjointIteration(a, b) {
      var c: nat :| (c in a.requireIds && c in b.excludeIds) || (c in b.requireIds && c in a.excludeIds);
      assert (Mentions(da.tick, c) && c in db.filter) || (Mentions(db.tick, c) && c in da.filter);
    }
    if QueriesApart(da, db) {
      var c: nat :| (Mentions(da.tick, c) && c in db.filter) || (Mentions(db.tick, c) && c in da.filter);
      assert (c in a.requireIds && c in b.excludeIds) || (c in b.requireIds && c in a.excludeIds);
    }
  }

  lemma AccessDeclared(d: SystemDecl, r: Registration, c: nat)
    requires RegistrationOf(d, r)
    ensures ComponentAccess(c, Write) in r.access <==> Touches(d, c, true)
    ensures ComponentAccess(c, Write) in r.access || ComponentAccess(c, Read) in r.access <==> Touches(d, c, false)
  {
  }

  lemma ClashDeclared(da: SystemDecl, a: Registration, db: SystemDecl, b: Registration, c: nat)
    requires RegistrationOf(da, a) && RegistrationOf(db, b)
    ensures ConflictOn(a.access, b.access, c) <==> DeclaredClash(da, db, c)
    ensures IteratedOnly(a, b, c) <==> TickOnly(da, c) && TickOnly(db, c)
  {
    AccessDeclared(da, a, c);
    AccessDeclared(db, b, c);
  }

  /** Where the scheduler is too careful: no extra access collides, and some component clashes
      although no signature matches both queries.  If the queries exclude each other, it misses that a
      component is harmless in one of two roles; if not, that a query contradicts itself. */
  ghost predicate TooCareful(da: SystemDecl, db: SystemDecl) {
    && (forall c, write :: !Collide(da, db, c, write))
    && exists c: nat :: DeclaredClash(da, db, c) &&
         if QueriesApart(da, db) then !(TickOnly(da, c) && TickOnly(db, c)) else Contradictory(da) || Contradictory(db)
  }

  lemma RacingIsOrdered(da: SystemDecl, a: Registration, db: SystemDecl, b: Registration)
    requires RegistrationOf(da, a) && RegistrationOf(db, b) && exists sig, c :: RaceOn(da, db, sig, c)
    ensures NeedsOrder(a, b)
  {
    var sig, c :| RaceOn(da, db, sig, c);
    if !NeedsOrder(a, b) {
      UnorderedNeverRaces(da, a, db, b, sig, c);
    }
  }

  lemma CarefulIsOrdered(da: SystemDecl, a: Registration, db: SystemDecl, b: Registration)
    requires RegistrationOf(da, a) && RegistrationOf(db, b) && TooCareful(da, db)
    ensures NeedsOrder(a, b) && !exists sig, c :: RaceOn(da, db, sig, c)
  {
    RaceExactly(da, a, db, b);
    QueriesDeclared(da, a, db, b);
    var c: nat :| DeclaredClash(da, db, c) &&
      if QueriesApart(da, db) then !(TickOnly(da, c) && TickOnly(db, c)) else Contradictory(da) || Contradictory(db);
    ClashDeclared(da, a, db, b, c);
  }

  lemma HarmlessIsCareful(da: SystemDecl, a: Registration, db: SystemDecl, b: Registration)
    requires RegistrationOf(da, a) && RegistrationOf(db, b) && NeedsOrder(a, b)
             && !exists sig, c :: RaceOn(da, db, sig, c)
    ensures TooCareful(da, db)
  {
    RaceExactly(da, a, db, b);
    QueriesDeclared(da, a, db, b);
    var c: nat :| ConflictOn(a.access, b.access, c) && (QueriesApart(da, db) ==> !IteratedOnly(a, b, c));
    ClashDeclared(da, a, db, b, c);
  }

  /** Precision: a pair is ordered exactly when it can race or the scheduler is too careful with it,
      and never both; and it is too careful only with a query that contradicts itself or a system
      that lists a tick parameter again as an extra. */
  lemma OrderedExactlyWhenRacing(da: SystemDecl, a: Registration, db: SystemDecl, b: Registration)
    requires RegistrationOf(da, a) && RegistrationOf(db, b)
    ensures NeedsOrder(a, b) <==> (exists sig, c :: RaceOn(da, db, sig, c)) || TooCareful(da, db)
    ensures TooCareful(da, db) ==> !exists sig, c :: RaceOn(da, db, sig, c)
    ensures TooCareful(da, db) ==> Contradictory(da) || Contradictory(db) || RepeatsExtra(da) || RepeatsExtra(db)
  {
    if exists sig, c :: RaceOn(da, db, sig, c) {
      RacingIsOrdered(da, a, db, b);
    } else if NeedsOrder(a, b) {
      HarmlessIsCareful(da, a, db, b);
    }
    if TooCareful(da, db) {
      CarefulIsOrdered(da, a, db, b);
      if !RepeatsExtra(da) && !RepeatsExtra(db) {
        CarefulContradiction(da, db);
      }
    }
  }

  /** A component is declared both as a tick parameter and as an extra. */
  ghost predicate RepeatsExtra(d: SystemDecl) {
    exists c: nat :: Mentions(d.tick, c) && (c in d.extraReads || c in d.extraWrites)
  }

  lemma CarefulContradiction(da: SystemDecl, db: SystemDecl)
    requires TooCareful(da, db) && !RepeatsExtra(da) && !RepeatsExtra(db)
    ensures Contradictory(da) || Contradictory(db)
  {
    if QueriesApart(da, db) {
      var c: nat :| DeclaredClash(da, db, c) && !(TickOnly(da, c) && TickOnly(db, c));
      assert !Collide(da, db, c, true) && !Collide(da, db, c, false);
    }
  }
}
