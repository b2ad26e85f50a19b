/** Which archetypes and chunks a system's query iterates. */
module Queries {
  import opened Chunks
  import opened Sorting
  import opened WorldStore

  // ----- matching one signature -----

  predicate ContainsAll(sig: seq<nat>, ids: seq<nat>) {
    forall k :: 0 <= k < |ids| ==> ids[k] in sig
  }

  predicate ContainsNone(sig: seq<nat>, ids: seq<nat>) {
    forall k :: 0 <= k < |ids| ==> ids[k] !in sig
  }

  /** Archetype::matches_all, a merge of two sorted lists. */
  method MatchesAll(signature: seq<nat>, required: seq<nat>) returns (ok: bool)
    requires Ascending(signature) && Ascending(required)
    ensures ok <==> ContainsAll(signature, required)
  {
    var i, j := 0, 0;
    while i < |required| && j < |signature|
      invariant 0 <= i <= |required| && 0 <= j <= |signature|
      invariant forall k :: 0 <= k < i ==> required[k] in signature
      invariant i < |required| ==> forall l :: 0 <= l < j ==> signature[l] < required[i]
      decreases |required| + |signature| - i - j
    {
      if required[i] == signature[j] {
        i := i + 1;
        j := j + 1;
      } else if signature[j] < required[i] {
        j := j + 1;
      } else {
        assert required[i] !in signature;
        return false;
      }
    }
    ok := i == |required|;
    if !ok {
      assert required[i] !in signature;
    }
  }

  /** Archetype::matches_none. */
  method MatchesNone(signature: seq<nat>, excluded: seq<nat>) returns (ok: bool)
    requires Ascending(signature) && Ascending(excluded)
    ensures ok <==> ContainsNone(signature, excluded)
  {
    var i, j := 0, 0;
    while i < |excluded| && j < |signature|
      invariant 0 <= i <= |excluded| && 0 <= j <= |signature|
      invariant forall k :: 0 <= k < i ==> excluded[k] !in signature
      invariant forall k, l :: i <= k < |excluded| && 0 <= l < j ==> signature[l] < excluded[k]
      decreases |excluded| + |signature| - i - j
    {
      if excluded[i] == signature[j] {
        return false;
      } else if signature[j] < excluded[i] {
        j := j + 1;
      } else {
        assert excluded[i] !in signature;
        i := i + 1;
      }
    }
    ok := true;
  }

  // ----- the bitfield prefilter -----

  /** The set bits of a matcher hash: one of 63 per component id. */
  function MatcherBits(ids: seq<nat>): (bits: set<nat>)
    ensures forall id: nat :: id in ids ==> id % 63 in bits
    ensures forall b: nat :: b in bits ==> exists k :: 0 <= k < |ids| && ids[k] % 63 == b
  {
    var bits := set k: nat | k < |ids| :: ids[k] % 63;
    assert forall k: nat :: k < |ids| ==> ids[k] % 63 in bits;
    bits
  }

  lemma RequiredBits(sig: seq<nat>, required: seq<nat>)
    requires ContainsAll(sig, required)
    ensures MatcherBits(required) <= MatcherBits(sig)
  {
  }

  lemma DisjointBits(sig: seq<nat>, excluded: seq<nat>)
    requires MatcherBits(sig) !! MatcherBits(excluded)
    ensures ContainsNone(sig, excluded)
  {
    forall k | 0 <= k < |excluded| ensures excluded[k] !in sig {
      assert excluded[k] in excluded;
      assert excluded[k] % 63 in MatcherBits(excluded);
    }
  }

  // ----- the archetypes of a query -----

  predicate Matches(sig: seq<nat>, required: seq<nat>, excluded: seq<nat>) {
    ContainsAll(sig, required) && ContainsNone(sig, excluded)
  }

  /** World::resolve_query_cache, on a miss.  The hash test only ever saves work: the result is
      the archetypes with all required and no excluded components, in index order. */
  method ResolveQuery(archs: seq<Archetype>, required: seq<nat>, excluded: seq<nat>) returns (indices: seq<nat>)
    requires forall a :: 0 <= a < |archs| ==> Ascending(archs[a].sig)
    requires Ascending(required) && Ascending(excluded)
    ensures Ascending(indices)
    ensures forall a: nat :: a in indices <==> a < |archs| && Matches(archs[a].sig, required, excluded)
  {
    var requireMatcher, excludeMatcher := MatcherBits(required), MatcherBits(excluded);
    indices := [];
    var i := 0;
    while i < |archs|
      invariant 0 <= i <= |archs| && Ascending(indices) && forall k :: 0 <= k < |indices| ==> indices[k] < i
      invariant forall a: nat :: a in indices <==> a < i && Matches(archs[a].sig, required, excluded)
    {
      var ok := MatchOne(archs[i].sig, required, excluded, requireMatcher, excludeMatcher);
      if ok {
        indices := indices + [i];
      }
      i := i + 1;
    }
  }

  method MatchOne(sig: seq<nat>, required: seq<nat>, excluded: seq<nat>, requireMatcher: set<nat>,
                  excludeMatcher: set<nat>)
    returns (ok: bool)
    requires Ascending(sig) && Ascending(required) && Ascending(excluded)
    requires requireMatcher == MatcherBits(required) && excludeMatcher == MatcherBits(excluded)
    ensures ok <==> Matches(sig, required, excluded)
  {
    var hash := MatcherBits(sig);
    if !(requireMatcher <= hash) {
      if ContainsAll(sig, required) {
        RequiredBits(sig, required);
      }
      return false;
    }
    if hash !! excludeMatcher {
      DisjointBits(sig, excluded);
    } else {
      var none := MatchesNone(sig, excluded);
      if !none {
        return false;
      }
    }
    ok := MatchesAll(sig, required);
  }

  // ----- the chunks of a query -----

  datatype ChunkLocation = ChunkLocation(arch: nat, chunk: nat)

  predicate Before(x: ChunkLocation, y: ChunkLocation) {
    x.arch < y.arch || (x.arch == y.arch && x.chunk < y.chunk)
  }

  ghost predicate InOrder(locs: seq<ChunkLocation>) {
    forall i, j :: 0 <= i < j < |locs| ==> Before(locs[i], locs[j])
  }

  predicate IteratedChunk(archs: seq<Archetype>, required: seq<nat>, excluded: seq<nat>, l: ChunkLocation) {
    && l.arch < |archs| && Matches(archs[l.arch].sig, required, excluded)
    && l.chunk < |archs[l.arch].chunks| && archs[l.arch].chunks[l.chunk] != []
  }

  /** collect_matching_chunks: exactly the nonempty chunks of matching archetypes, each once, in
      ascending (archetype, chunk) order. */
  method CollectMatchingChunks(archs: seq<Archetype>, required: seq<nat>, excluded: seq<nat>)
    returns (out: seq<ChunkLocation>)
    requires forall a :: 0 <= a < |archs| ==> Ascending(archs[a].sig)
    requires Ascending(required) && Ascending(excluded)
    ensures InOrder(out)
    ensures forall l :: l in out <==> IteratedChunk(archs, required, excluded, l)
  {
    var matched := ResolveQuery(archs, required, excluded);
    out := [];
    var m := 0;
    while m < |matched|
      invariant 0 <= m <= |matched| && InOrder(out)
      invariant m < |matched| ==> forall l :: l in out ==> l.arch < matched[m]
      invariant forall l :: l in out <==> IteratedChunk(archs, required, excluded, l) && l.arch in matched[..m]
    {
      var a := matched[m];
      assert a in matched;
      var c, start := 0, out;
      while c < |archs[a].chunks|
        invariant 0 <= c <= |archs[a].chunks| && InOrder(out)
        invariant forall l :: l in out ==> Before(l, ChunkLocation(a, c))
        invariant forall l :: l in out <==>
                  l in start || (IteratedChunk(archs, required, excluded, l) && l.arch == a && l.chunk < c)
      {
        if |archs[a].chunks[c]| > 0 {
          out := out + [ChunkLocation(a, c)];
        }
        c := c + 1;
      }
      assert matched[..m + 1] == matched[..m] + [a];
      m := m + 1;
    }
    assert matched[..m] == matched;
  }

  /** The work items of a threaded system partition the rows it iterates: every row of a matching
      archetype lies in exactly one collected chunk. */
  lemma ChunksCoverRows(archs: seq<Archetype>, required: seq<nat>, excluded: seq<nat>, out: seq<ChunkLocation>, a: nat,
                        at: RowLocation)
    requires InOrder(out) && forall l :: l in out <==> IteratedChunk(archs, required, excluded, l)
    requires a < |archs| && Has(archs[a].chunks, at)
    ensures Matches(archs[a].sig, required, excluded) <==>
            exists k :: 0 <= k < |out| && out[k] == ChunkLocation(a, at.chunk)
    ensures forall j, k :: 0 <= j < k < |out| ==> out[j] != out[k]
  {
    var l := ChunkLocation(a, at.chunk);
    assert l in out <==> IteratedChunk(archs, required, excluded, l);
    forall j, k | 0 <= j < k < |out| ensures out[j] != out[k] {
      assert Before(out[j], out[k]);
    }
  }
}
