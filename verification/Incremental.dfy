/**
 Incremental runs equal full runs: the merged target hashes of a seeded run are
 those a full run would persist (hash-persister/hash-persister.go: runSeeded,
 carriedScopedLabels, decodeSeedHashes, mergePersistedData, mergePersistedEntries).
 */
module Incremental {
  import opened Workspace
  import opened Propagation
  import opened Hashing
  import opened Revisions
  import opened DirtySet
  import opened Pruning
  import opened TargetPatterns

  // ---------- The pieces of a seeded run ----------

  function Matching(pattern: Pattern, graph: Graph): set<Label> {
    Matches(pattern, graph, AllRules(graph))
  }

  /** Dirty* targets that must be named explicitly: seeded targets whose package is neither re-listed nor removed. */
  function Carried(star: set<Label>, seed: Seed, dirty: set<Path>): set<Label> {
    set l | l in star && l in seed.targetHashes && l.pkg !in dirty
  }

  /** `//pkg:all` for every re-listed package, and the carried labels. */
  function Scope(graph: Graph, relisted: set<Path>, carried: set<Label>): set<Label> {
    (set l | l in AllRules(graph) && l.pkg in relisted) + carried
  }

  /** The seed hashes a run may reuse: those of labels that are not dirty*. */
  function ReusableHashes(seed: Seed, star: set<Label>): map<Label, Hash> {
    HashesExcept(seed, (l: Label) => l in star)
  }

  /** Entries of the seed outside dirty*, overwritten by the recomputed ones. */
  function Merge<V>(seed: map<Label, V>, star: set<Label>, recomputed: map<Label, V>): map<Label, V> {
    (map l | l in seed && l !in star :: seed[l]) + recomputed
  }

  method MergePersistedEntries<V>(seed: map<Label, V>, star: set<Label>, recomputed: map<Label, V>)
    returns (merged: map<Label, V>)
    ensures merged == Merge(seed, star, recomputed)
    ensures forall l :: l in merged <==> l in recomputed || (l in seed && l !in star)
    ensures forall l | l in merged :: merged[l] == if l in recomputed then recomputed[l] else seed[l]
  {
    merged := map[];
    var rest := seed.Keys;
    while rest != {}
      invariant rest <= seed.Keys
      invariant merged == map l | l in seed && l !in rest && l !in star :: seed[l]
      decreases rest
    {
      var l :| l in rest;
      rest := rest - {l};
      if l !in star {
        merged := merged[l := seed[l]];
      }
    }
    merged := Overlay(merged, recomputed);
  }

  method Overlay<V>(start: map<Label, V>, recomputed: map<Label, V>) returns (merged: map<Label, V>)
    ensures merged == start + recomputed
  {
    merged := start;
    var rest := recomputed.Keys;
    while rest != {}
      invariant rest <= recomputed.Keys
      invariant merged == start + map l | l in recomputed && l !in rest :: recomputed[l]
      decreases rest
    {
      var l :| l in rest;
      rest := rest - {l};
      merged := merged[l := recomputed[l]];
    }
  }

  method CarriedScopedLabels(star: set<Label>, seed: Seed, relisted: set<Path>, removed: set<Path>)
    returns (carried: set<Label>)
    ensures carried == Carried(star, seed, relisted + removed)
    ensures forall l :: l in carried <==> l in star && l in seed.targetHashes && l.pkg !in relisted && l.pkg !in removed
  {
    carried := {};
    var skip := relisted + removed;
    var rest := star;
    while rest != {}
      invariant rest <= star
      invariant carried == set l | l in star && l !in rest && l in seed.targetHashes && l.pkg !in skip
      decreases rest
    {
      var l :| l in rest;
      rest := rest - {l};
      if l in seed.targetHashes && l.pkg !in skip {
        carried := carried + {l};
      }
    }
  }

  // ---------- A step between two revisions ----------

  /**
   Everything a seeded run knows or relies on: two revisions related by a diff
   without fallback, a true seed of the first, and the labels taken as changed.
   */
  datatype Step = Step(
    hasher: Hasher, pattern: Pattern, before: Graph, after: Graph, seed: Seed,
    dirty: set<Path>, removed: set<Path>, changedFiles: map<Path, string>,
    probeSeeds: map<Label, Hash>, changed: set<Label>)
  {
    function DirtyLabels(): set<Label> {
      LabelsIn(SeedLabels(seed), dirty)
    }

    ghost function Star(): set<Label> {
      DirtyStar(DirtyLabels(), changed, seed.edges)
    }

    ghost function Relisted(): set<Path> {
      dirty - removed
    }

    ghost function ScopeAfter(): set<Label> {
      Scope(after, Relisted(), Carried(Star(), seed, dirty))
    }

    ghost predicate Valid() {
      ScopesExactly(pattern) && IsSeeded()
    }

    /** The least that is asked of a seed. */
    ghost predicate IsTold() {
      && Injective(hasher) && removed <= dirty
      && Transition(before, after, dirty, removed, changedFiles)
      && TellsTruth(hasher, before, Matching(pattern, before), seed)
    }

    /** Everything but the condition on the pattern. */
    ghost predicate IsSeeded() {
      && Injective(hasher) && removed <= dirty
      && Transition(before, after, dirty, removed, changedFiles)
      && ValidSeed(hasher, before, Matching(pattern, before), seed)
      && changed <= DirtyLabels()
      && Justified(hasher, before, after, seed, dirty, changedFiles, probeSeeds, changed)
    }
  }

  lemma MatchesExist(pattern: Pattern, graph: Graph, universe: set<Label>)
    ensures Matches(pattern, graph, universe) <= graph.Keys
  {
    forall l | l in Matches(pattern, graph, universe)
      ensures l in graph
    {
      MatchingIsLocal(pattern, graph, universe, l);
    }
  }

  lemma MatchingExists(pattern: Pattern, graph: Graph)
    ensures Matching(pattern, graph) <= graph.Keys
  {
    MatchesExist(pattern, graph, AllRules(graph));
  }

  lemma SeededIsTold(step: Step)
    requires step.IsSeeded()
    ensures step.IsTold()
  {
    hide Transition, ValidSeed, TellsTruth, Justified, Matching;
    ValidSeedTellsTruth(step.hasher, step.before, Matching(step.pattern, step.before), step.seed);
  }

  lemma MatchingTargetsExist(step: Step)
    requires step.IsTold()
    ensures WellFormed(step.after) && Matching(step.pattern, step.after) <= step.after.Keys
  {
    MatchingExists(step.pattern, step.after);
  }

  /** A label of the seed that is not dirty* is untouched in every respect. */
  lemma CleanLabelKeepsItsHash(step: Step, l: Label)
    requires step.IsSeeded() && l in SeedLabels(step.seed) && l !in step.Star()
    ensures SameTarget(step.before, step.after, l) && l in step.after
    ensures HashOf(step.hasher, step.before, l) == HashOf(step.hasher, step.after, l)
  {
    assert l !in step.DirtyLabels();
    assert SameTarget(step.before, step.after, l);
    assert l !in Visited(step.seed.edges, step.changed);
    UnvisitedHashesAgree(step.hasher, step.before, step.after, Matching(step.pattern, step.before), step.seed,
                         step.dirty, step.removed, step.changedFiles, step.probeSeeds, step.changed, l);
  }

  /** Everything the run seeds its cache with is the true hash at the target. */
  lemma SeedsAreCurrent(step: Step, l: Label)
    requires step.IsSeeded() && l in ReusableHashes(step.seed, step.Star())
    ensures l in step.after && ReusableHashes(step.seed, step.Star())[l] == HashOf(step.hasher, step.after, l)
  {
    hide Transition, Justified, Injective, Matching, FullHashes, Step.Star, AccurateEdges, HashOf;
    SeedHashIsTrue(step.hasher, step.before, Matching(step.pattern, step.before), step.seed, l);
    CleanLabelKeepsItsHash(step, l);
  }

  /** So every hash computed on the loaded part of the graph is the full run's. */
  lemma FreshHashIsCurrent(step: Step, loaded: Graph, l: Label)
    requires step.IsSeeded() && WellFormed(loaded) && PartOf(loaded, step.after) && l in loaded
    ensures SeededHash(step.hasher, loaded, ReusableHashes(step.seed, step.Star()), l) == HashOf(step.hasher, step.after, l)
  {
    var seeds := ReusableHashes(step.seed, step.Star());
    PartHashesAgree(step.hasher, loaded, step.after, seeds, l);
    forall s | s in seeds && s in step.after
      ensures seeds[s] == HashOf(step.hasher, step.after, s)
    {
      SeedsAreCurrent(step, s);
    }
    SeedingRefines(step.hasher, step.after, seeds, l);
  }

  /** A target that is the same at both revisions matches at both or at neither. */
  lemma MatchingIsStable(pattern: Pattern, before: Graph, after: Graph, l: Label)
    requires SameTarget(before, after, l)
    ensures l in Matching(pattern, before) <==> l in Matching(pattern, after)
  {
    MatchingIsLocal(pattern, before, AllRules(before), l);
    MatchingIsLocal(pattern, after, AllRules(after), l);
  }

  /** A carried label names a target of the new revision, and one that matches. */
  lemma CarriedLabelsExist(step: Step, l: Label)
    requires step.IsTold() && l in Carried(step.Star(), step.seed, step.dirty)
    ensures l in step.after && l in Matching(step.pattern, step.after)
  {
    assert SameTarget(step.before, step.after, l);
    assert l in Matching(step.pattern, step.before);
    MatchingIsStable(step.pattern, step.before, step.after, l);
    MatchesExist(step.pattern, step.after, AllRules(step.after));
  }

  /** A label outside the dirty packages is the same at both revisions, and so is any label that a run without re-listing meets. */
  lemma UnlistedIsSame(step: Step, l: Label)
    requires step.IsTold() && l in step.after && (l.repo == "" ==> l.pkg !in step.Relisted())
    ensures SameTarget(step.before, step.after, l) && (l.repo == "" ==> l.pkg !in step.dirty)
  {
  }

  lemma NeverItsOwnDependency(graph: Graph, l: Label)
    requires WellFormed(graph) && l in graph
    ensures l !in Deps(graph[l])
  {
    if l in Deps(graph[l]) {
      RankDecreases(graph, l, l);
    }
  }

  /** A carried label is above a changed one, so it has dependencies. */
  lemma CarriedLabelsDepend(step: Step, l: Label)
    requires step.IsTold() && l in Carried(step.Star(), step.seed, step.dirty)
    ensures l in step.after && Deps(step.after[l]) != {}
  {
    hide Upstream, Justified, Injective, FullHashes, Matching, Acyclic, HashOf;
    assert SameTarget(step.before, step.after, l);
    var dep := UpstreamHasEdge(step.seed.edges, step.changed, l);
    assert dep in EdgeSet(step.seed.edges, l);
  }

  // ---------- Targets that the scoped query misjudges ----------

  /**
   Targets that the pattern selects only outside the universe, and that are in one
   of the universes of the full and the scoped query: re-listable rules that are
   not re-listed, and carried targets that are no such rules.
   */
  ghost function Misjudged(step: Step): set<Label> {
    set l | l in step.after && OnlyOutside(step.pattern, l, step.after[l])
            && (l in AllRules(step.after) <==> l !in step.ScopeAfter())
  }

  /** Every other target is judged by the scoped query as by the full one, or its seed entry is retained. */
  lemma JudgedAlike(step: Step, l: Label)
    requires step.IsTold() && l in step.after && l !in Misjudged(step)
    ensures l in Matches(step.pattern, step.after, step.ScopeAfter()) ==> l in Matching(step.pattern, step.after)
    ensures l in Matching(step.pattern, step.after) ==>
              l in Matches(step.pattern, step.after, step.ScopeAfter()) || (l in step.seed.targetHashes && l !in step.Star())
  {
    MatchingIsLocal(step.pattern, step.after, step.ScopeAfter(), l);
    MatchingIsLocal(step.pattern, step.after, AllRules(step.after), l);
    if l in AllRules(step.after) && l !in step.ScopeAfter() {
      UnlistedIsSame(step, l);
      MatchingIsStable(step.pattern, step.before, step.after, l);
    } else if l !in AllRules(step.after) && l in step.ScopeAfter() {
      CarriedLabelsExist(step, l);
    }
  }

  /** A misjudged target is a rule that is hashed although it does not match, or a target that is not although it does. */
  lemma MisjudgedIsExtraOrMissing(step: Step, l: Label)
    requires l in Misjudged(step)
    ensures if l in AllRules(step.after)
            then l in Matches(step.pattern, step.after, step.ScopeAfter()) && l !in Matching(step.pattern, step.after)
            else l !in Matches(step.pattern, step.after, step.ScopeAfter()) && l in Matching(step.pattern, step.after)
                 && l in step.Star()
  {
    MatchingIsLocal(step.pattern, step.after, step.ScopeAfter(), l);
    MatchingIsLocal(step.pattern, step.after, AllRules(step.after), l);
  }

  /** A pattern that scopes exactly misjudges nothing. */
  lemma ScopesExactlyMisjudgesNone(step: Step)
    requires step.IsTold() && ScopesExactly(step.pattern)
    ensures Misjudged(step) == {}
  {
    forall l | l in Misjudged(step)
      ensures false
    {
      if l !in AllRules(step.after) {
        CarriedLabelsDepend(step, l);
      }
      NeverItsOwnDependency(step.after, l);
    }
  }

  /** The scoped query selects nothing that the full pattern would not. */
  lemma ScopedTargetMatches(step: Step, l: Label)
    requires step.Valid() && l in Matches(step.pattern, step.after, step.ScopeAfter())
    ensures l in Matching(step.pattern, step.after)
  {
    SeededIsTold(step);
    ScopesExactlyMisjudgesNone(step);
    MatchesExist(step.pattern, step.after, step.ScopeAfter());
    JudgedAlike(step, l);
  }

  /** It misses a matching target only if the seed's entry for it is retained. */
  lemma EveryTargetIsFreshOrRetained(step: Step, l: Label)
    requires step.Valid() && l in Matching(step.pattern, step.after)
    ensures l in Matches(step.pattern, step.after, step.ScopeAfter()) || (l in step.seed.targetHashes && l !in step.Star())
  {
    SeededIsTold(step);
    ScopesExactlyMisjudgesNone(step);
    MatchesExist(step.pattern, step.after, AllRules(step.after));
    JudgedAlike(step, l);
  }

  lemma RetainedTargetStillMatches(step: Step, l: Label)
    requires step.IsSeeded() && l in step.seed.targetHashes && l !in step.Star()
    ensures l in Matching(step.pattern, step.after)
    ensures step.seed.targetHashes[l] == HashOf(step.hasher, step.after, l)
  {
    CleanLabelKeepsItsHash(step, l);
    MatchingIsStable(step.pattern, step.before, step.after, l);
  }

  /** The hashes a seeded run reads for its scoped matching targets. */
  ghost function FreshHashes(step: Step, loaded: Graph): map<Label, Hash>
    requires WellFormed(loaded) && Matches(step.pattern, step.after, step.ScopeAfter()) <= loaded.Keys
  {
    var seeds := ReusableHashes(step.seed, step.Star());
    map l | l in Matches(step.pattern, step.after, step.ScopeAfter()) :: SeededHash(step.hasher, loaded, seeds, l)
  }

  /** A loaded graph that answers the scoped query of a step. */
  ghost predicate CanLoad(step: Step, loaded: Graph) {
    && WellFormed(loaded) && PartOf(loaded, step.after)
    && Matches(step.pattern, step.after, step.ScopeAfter()) <= loaded.Keys
  }

  /** The merged hashes of a step are those of a full run. */
  ghost predicate MergesExactly(step: Step, loaded: Graph)
    requires CanLoad(step, loaded) && WellFormed(step.after)
  {
    && Matching(step.pattern, step.after) <= step.after.Keys
    && Merge(step.seed.targetHashes, step.Star(), FreshHashes(step, loaded))
       == FullHashes(step.hasher, step.after, Matching(step.pattern, step.after))
  }

  lemma NoneMisjudgedMergesExactly(step: Step, loaded: Graph)
    requires step.IsSeeded() && CanLoad(step, loaded) && Misjudged(step) == {}
    ensures WellFormed(step.after) && MergesExactly(step, loaded)
  {
    hide Step.IsSeeded, Step.Star, Step.ScopeAfter, WellFormed, PartOf, ReusableHashes, SeededHash, HashOf, AllRules,
         Matches, Misjudged;
    SeededIsTold(step);
    MatchingTargetsExist(step);
    MatchesExist(step.pattern, step.after, step.ScopeAfter());
    var recomputed := FreshHashes(step, loaded);
    var merged := Merge(step.seed.targetHashes, step.Star(), recomputed);
    forall l | l in merged
      ensures l in Matching(step.pattern, step.after) && merged[l] == HashOf(step.hasher, step.after, l)
    {
      if l in recomputed {
        FreshHashIsCurrent(step, loaded, l);
        JudgedAlike(step, l);
      } else {
        RetainedTargetStillMatches(step, l);
      }
    }
    forall l | l in Matching(step.pattern, step.after)
      ensures l in merged
    {
      JudgedAlike(step, l);
    }
  }

  lemma MisjudgedMergesWrongly(step: Step, loaded: Graph, l: Label)
    requires CanLoad(step, loaded) && WellFormed(step.after) && l in Misjudged(step)
    ensures !MergesExactly(step, loaded)
  {
    hide WellFormed, Matches, Matching, SeededHash, HashOf, Step.Star, Step.ScopeAfter, Misjudged;
    MisjudgedIsExtraOrMissing(step, l);
    assert l in Merge(step.seed.targetHashes, step.Star(), FreshHashes(step, loaded))
           <==> l in Matches(step.pattern, step.after, step.ScopeAfter()) || (l in step.seed.targetHashes && l !in step.Star());
  }

  /**
   Exactly when a seeded step gives the full run's hashes, whatever the pattern: the
   merged map is the full map, added and deleted targets included, with and without
   pruning, if and only if the scoped query misjudges no target.
   */
  lemma MergesExactlyIff(step: Step, loaded: Graph)
    requires step.IsSeeded() && CanLoad(step, loaded)
    ensures WellFormed(step.after)
    ensures MergesExactly(step, loaded) <==> Misjudged(step) == {}
  {
    SeededIsTold(step);
    MatchingTargetsExist(step);
    hide Step.IsSeeded, CanLoad, WellFormed, MergesExactly, Misjudged;
    if Misjudged(step) == {} {
      NoneMisjudgedMergesExactly(step, loaded);
    } else {
      var l :| l in Misjudged(step);
      MisjudgedMergesWrongly(step, loaded, l);
    }
  }

  /**
   Incremental equals full: for a pattern that scopes exactly, the merged map is
   exactly the map a full run persists.
   */
  lemma IncrementalEqualsFull(step: Step, loaded: Graph)
    requires step.Valid() && CanLoad(step, loaded)
    ensures Matching(step.pattern, step.after) <= step.after.Keys
    ensures Merge(step.seed.targetHashes, step.Star(), FreshHashes(step, loaded))
            == FullHashes(step.hasher, step.after, Matching(step.pattern, step.after))
  {
    hide Step.IsSeeded, Step.Star, Step.ScopeAfter, WellFormed, Matches, Matching, Misjudged, Merge, FreshHashes, FullHashes,
         ScopesExactly;
    SeededIsTold(step);
    ScopesExactlyMisjudgesNone(step);
    NoneMisjudgedMergesExactly(step, loaded);
  }

  /** With nothing re-listed and nothing dirty*, the seed's own hashes are the full run's. */
  lemma UntouchedSeedIsCurrent(step: Step)
    requires step.IsSeeded() && step.Relisted() == {} && step.Star() == {}
    ensures Matching(step.pattern, step.after) <= step.after.Keys
    ensures step.seed.targetHashes == FullHashes(step.hasher, step.after, Matching(step.pattern, step.after))
  {
    SeededIsTold(step);
    MatchingTargetsExist(step);
    var matching := Matching(step.pattern, step.after);
    forall l | l in matching
      ensures l in step.seed.targetHashes
    {
      UnlistedIsSame(step, l);
      MatchingIsStable(step.pattern, step.before, step.after, l);
    }
    forall l | l in step.seed.targetHashes
      ensures l in matching && step.seed.targetHashes[l] == HashOf(step.hasher, step.after, l)
    {
      RetainedTargetStillMatches(step, l);
    }
    hide Step.IsSeeded, Step.Star, HashOf, Matching, WellFormed;
  }
}
