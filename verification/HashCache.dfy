/**
 The target hash table as one caller sees it (pkg/hash_cache.go: TargetHashCache).
 Interleavings of several callers are the subject of modules MemoTable and Prefill.
 */
module HashCache {
  import opened Wrappers
  import opened Workspace
  import opened Hashing
  import opened HashCalls

  /** Cache entries by label. An entry without a hash has been requested but not computed. */
  type Entries = map<Label, Option<Hash>>

  function ComputedIn(entries: Entries): map<Label, Hash> {
    map l | l in entries && entries[l].Some? :: entries[l].value
  }

  /** Every stored hash is what the recursive definition returns. */
  ghost predicate Agrees(query: Query, computed: map<Label, Hash>) {
    Acyclic(query.graph) && forall l | l in computed :: ResultOf(query, l) == Ok(computed[l])
  }

  /** Nothing that was stored changes. */
  ghost predicate Grows(before: map<Label, Hash>, after: map<Label, Hash>) {
    forall l | l in before :: l in after && after[l] == before[l]
  }

  lemma StoreAgrees(query: Query, entries: Entries, l: Label, hash: Hash)
    requires Agrees(query, ComputedIn(entries)) && ResultOf(query, l) == Ok(hash)
    ensures Agrees(query, ComputedIn(entries[l := Some(hash)]))
    ensures Grows(ComputedIn(entries), ComputedIn(entries[l := Some(hash)]))
    ensures l in ComputedIn(entries[l := Some(hash)]) && ComputedIn(entries[l := Some(hash)])[l] == hash
  {
    assert ComputedIn(entries[l := Some(hash)]) == ComputedIn(entries)[l := hash];
  }

  class TargetHashCache {
    const hasher: Hasher
    const context: Graph
    /** Source files that exist but cannot be read. */
    const unreadable: set<Label>

    var cache: Entries
    var frozen: bool

    /** The hashes the table was last populated with. */
    ghost var seeds: map<Label, Hash>

    constructor (hasher: Hasher, context: Graph, unreadable: set<Label>)
      requires Acyclic(context)
      ensures this.hasher == hasher && this.context == context && this.unreadable == unreadable
      ensures Valid() && !frozen && cache == map[] && seeds == map[]
    {
      this.hasher, this.context, this.unreadable := hasher, context, unreadable;
      cache, frozen, seeds := map[], false, map[];
    }

    ghost function AsQuery(): Query
      reads this`seeds
    {
      Query(hasher, context, unreadable, seeds)
    }

    /** The computed entries. */
    function Computed(): map<Label, Hash>
      reads this`cache
    {
      ComputedIn(cache)
    }

    ghost predicate Valid()
      reads this`cache, this`seeds
    {
      Agrees(AsQuery(), Computed()) && Grows(seeds, Computed())
    }

    /**
     Returns the memoised hash, computing it first unless the table is frozen.
     A computed entry is never changed, and an error leaves its entry empty.
     */
    method Hash(l: Label) returns (result: HashResult)
      requires Valid()
      modifies this
      ensures Valid() && frozen == old(frozen) && seeds == old(seeds)
      ensures Grows(old(Computed()), Computed())
      ensures result.Ok? ==> l in Computed() && Computed()[l] == result.value
      ensures !old(frozen) ==> result == ResultOf(AsQuery(), l)
      ensures old(frozen) ==> Computed() == old(Computed())
      ensures old(frozen) ==>
                result == if l in old(Computed()) then Ok(old(Computed())[l]) else Err(NotComputedBeforeFrozen)
      decreases Rank(context, l), 1, 0
    {
      if l !in cache {
        if frozen {
          return Err(NotComputedBeforeFrozen);
        }
        assert ComputedIn(cache[l := None]) == ComputedIn(cache);
        cache := cache[l := None];
      }
      if cache[l].Some? {
        return Ok(cache[l].value);
      }
      if frozen {
        return Err(NotComputedBeforeFrozen);
      }
      result := HashTarget(l);
      if result.Ok? {
        StoreAgrees(AsQuery(), cache, l, result.value);
        cache := cache[l := Some(result.value)];
      }
    }

    /** Hashes the dependencies of `l` in order, then `l` itself. */
    method HashTarget(l: Label) returns (result: HashResult)
      requires Valid() && !frozen && l !in Computed()
      modifies this
      ensures Valid() && !frozen && seeds == old(seeds)
      ensures Grows(old(Computed()), Computed())
      ensures result == ResultOf(AsQuery(), l)
      decreases Rank(context, l), 0, 0
    {
      if l !in context {
        return Err(LabelNotFound);
      }
      ghost var query := AsQuery();
      var calls := Calls(Query(hasher, context, unreadable, map[]), l);
      var found: map<Label, Hash> := map[];
      var i := 0;
      StartsOnTrack(query, l);
      hide ResultOf, Finish, Agrees;
      while i < |calls|
        invariant 0 <= i <= |calls|
        invariant Valid() && !frozen && AsQuery() == query
        invariant Grows(old(Computed()), Computed())
        invariant OnTrack(query, l, calls[i..], found)
      {
        RankDecreases(context, l, calls[i]);
        var hash := Hash(calls[i]);
        StaysOnTrack(query, l, calls[i..], found);
        assert calls[i..][1..] == calls[i + 1..];
        if hash.Ok? {
          found := found[calls[i] := hash.value];
        } else if !Skips(context[l], hash.error) {
          return Err(hash.error);
        }
        i := i + 1;
      }
      assert calls[i..] == [];
      EndsOnTrack(query, l, found);
      result := Compute(Query(hasher, context, unreadable, map[]), l, found);
    }

    method Freeze()
      requires Valid()
      modifies this`frozen
      ensures Valid() && frozen && cache == old(cache) && seeds == old(seeds)
    {
      frozen := true;
    }

    /** Leaves out labels that were asked for without success. */
    method ExtractHashes() returns (hashes: map<Label, Hash>)
      ensures hashes == Computed()
    {
      hashes := map[];
      var rest := cache.Keys;
      while rest != {}
        invariant rest <= cache.Keys
        invariant hashes == map l | l in cache && l !in rest && cache[l].Some? :: cache[l].value
        decreases rest
      {
        var l :| l in rest;
        rest := rest - {l};
        if cache[l].Some? {
          hashes := hashes[l := cache[l].value];
        }
      }
    }

    /** Whatever is stored after this counts as seeded. */
    method PopulateHashes(hashes: map<Label, Hash>, freeze: bool)
      requires Valid()
      modifies this
      ensures Valid() && frozen == freeze
      ensures Computed() == old(Computed()) + hashes && seeds == Computed()
    {
      cache := Overwrite(cache, hashes);
      frozen := freeze;
      seeds := Computed();
    }

    method SeedHashes(hashes: map<Label, Hash>)
      requires Valid()
      modifies this
      ensures Valid() && !frozen
      ensures Computed() == old(Computed()) + hashes && seeds == Computed()
    {
      PopulateHashes(hashes, false);
    }

    method RestoreHashes(hashes: map<Label, Hash>)
      requires Valid()
      modifies this
      ensures Valid() && frozen
      ensures Computed() == old(Computed()) + hashes && seeds == Computed()
    {
      PopulateHashes(hashes, true);
    }
  }

  method Overwrite(entries: Entries, hashes: map<Label, Hash>) returns (result: Entries)
    ensures ComputedIn(result) == ComputedIn(entries) + hashes
  {
    result := entries;
    var rest := hashes.Keys;
    while rest != {}
      invariant rest <= hashes.Keys
      invariant forall l | l in hashes && l !in rest :: l in result && result[l] == Some(hashes[l])
      invariant forall l | l !in hashes || l in rest :: l in result <==> l in entries
      invariant forall l | (l !in hashes || l in rest) && l in entries :: result[l] == entries[l]
      decreases rest
    {
      var l :| l in rest;
      rest := rest - {l};
      result := result[l := Some(hashes[l])];
    }
  }

  /** A restored copy answers exactly as the frozen original: the computed entries, and a refusal for every other label. */
  method RestoreCopy(original: TargetHashCache) returns (copy: TargetHashCache)
    requires original.Valid()
    ensures fresh(copy) && copy.Valid() && copy.frozen && copy.Computed() == original.Computed()
  {
    var hashes := original.ExtractHashes();
    copy := new TargetHashCache(original.hasher, original.context, original.unreadable);
    copy.RestoreHashes(hashes);
    assert map[] + hashes == hashes;
  }

  /** Hashes every label in turn and then freezes the table, stopping at the first error. */
  method HashAll(table: TargetHashCache, labels: set<Label>) returns (error: Option<HashError>)
    requires table.Valid() && !table.frozen
    modifies table
    ensures table.Valid() && table.seeds == old(table.seeds)
    ensures error.None? ==> table.frozen && forall l | l in labels :: ResultOf(table.AsQuery(), l).Ok? && l in table.Computed()
    ensures error.Some? ==> exists l :: l in labels && ResultOf(table.AsQuery(), l) == Err(error.value)
  {
    var rest := labels;
    while rest != {}
      invariant rest <= labels && table.Valid() && !table.frozen && table.seeds == old(table.seeds)
      invariant forall l | l in labels && l !in rest :: l in table.Computed()
      decreases rest
    {
      var l :| l in rest;
      rest := rest - {l};
      var result := table.Hash(l);
      if result.Err? {
        return Some(result.error);
      }
    }
    table.Freeze();
    return None;
  }

  /** Reads the hashes of labels that a frozen table holds. */
  method ReadAll(table: TargetHashCache, labels: set<Label>) returns (hashes: map<Label, Hash>)
    requires table.Valid() && table.frozen && labels <= table.Computed().Keys
    modifies table
    ensures table.Valid() && table.seeds == old(table.seeds) && table.Computed() == old(table.Computed())
    ensures hashes == map l | l in labels :: table.Computed()[l]
  {
    hashes := map[];
    var rest := labels;
    while rest != {}
      invariant rest <= labels && table.Valid() && table.frozen
      invariant table.seeds == old(table.seeds) && table.Computed() == old(table.Computed())
      invariant hashes == map l | l in labels && l !in rest :: table.Computed()[l]
      decreases rest
    {
      var l :| l in rest;
      rest := rest - {l};
      var hash := table.Hash(l);
      hashes := hashes[l := hash.value];
    }
  }
}
