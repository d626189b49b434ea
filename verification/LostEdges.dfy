/**
 Which lost edges matter to the next run (hash-persister/hash-persister.go:695-711,
 741-752).

 The output of a run that lost edges is no true seed, yet a next run may never
 miss them. Here the next run takes every dirty label as changed. Its hashes are
 right for every change between the revisions exactly if each recorded hash is
 dirty* whenever a package with something that influences it is dirty.
 */
module LostEdges {
  import opened Workspace
  import opened Propagation
  import opened Hashing
  import opened Revisions
  import opened DirtySet
  import opened Pruning
  import opened TargetPatterns
  import opened Incremental
  import opened Chain
  import opened MergedRuns

  // ---------- Coverage ----------

  /** `chain` leads from a label down to one whose definition its hash depends on. */
  ghost predicate Leads(hasher: Hasher, graph: Graph, chain: seq<Label>) {
    && chain != [] && chain[0] in graph && DescendsFrom(graph, chain)
    && forall i | 0 <= i < |chain| - 1 :: !IsOpaque(hasher, chain[i])
  }

  ghost predicate Influences(hasher: Hasher, graph: Graph, y: Label, r: Label) {
    exists chain: seq<Label> :: Leads(hasher, graph, chain) && chain[0] == r && chain[|chain| - 1] == y
  }

  /**
   Every recorded hash is dirty* when a package is dirty in which something
   influences it, unless so much is dirty* then that no run merges.
   */
  ghost predicate Covers(hasher: Hasher, percent: nat, graph: Graph, seed: Seed) {
    forall r, y: Label | SeedHash(seed, r).Some? && y.repo == "" && Influences(hasher, graph, y, r) ::
      r in StarOf(seed, y.pkg) || !MayMerge(seed, StarOf(seed, y.pkg), percent)
  }

  /** An unpruned run from this revision with this seed, as far as its merge. */
  ghost predicate IsNextRun(hasher: Hasher, pattern: Pattern, percent: nat, graph: Graph, seed: Seed,
                            step: Step, loaded: Graph) {
    && step.hasher == hasher && step.pattern == pattern && step.before == graph && step.seed == seed
    && step.removed <= step.dirty
    && Transition(step.before, step.after, step.dirty, step.removed, step.changedFiles)
    && step.changed == step.DirtyLabels() && CanLoad(step, loaded) && MayMerge(step.seed, step.Star(), percent)
    && (step.Relisted() != {} || step.Star() != {})
  }

  // ---------- Covered hashes stay right ----------

  lemma InfluencesItself(hasher: Hasher, graph: Graph, r: Label)
    requires r in graph
    ensures Influences(hasher, graph, r, r)
  {
    assert Leads(hasher, graph, [r]) && [r][0] == r;
  }

  lemma InfluencePassesUp(hasher: Hasher, graph: Graph, r: Label, d: Label, y: Label)
    requires r in graph && d in Deps(graph[r]) && !IsOpaque(hasher, r) && Influences(hasher, graph, y, d)
    ensures Influences(hasher, graph, y, r)
  {
    var chain: seq<Label> :| Leads(hasher, graph, chain) && chain[0] == d && chain[|chain| - 1] == y;
    var longer := [r] + chain;
    forall i | 0 < i < |longer|
      ensures DependsOn(graph, longer[i - 1], longer[i])
    {
      if i > 1 {
        assert longer[i - 1] == chain[i - 2] && longer[i] == chain[i - 1];
      }
    }
    assert longer[|longer| - 1] == y;
    assert Leads(hasher, graph, longer);
  }

  /** If everything that influences a hash is the same, so is the hash. */
  lemma {:induction false} SameInfluencesSameHash(hasher: Hasher, before: Graph, after: Graph, r: Label)
    requires WellFormed(before) && WellFormed(after) && r in before
    requires forall y | Influences(hasher, before, y, r) :: SameTarget(before, after, y)
    ensures r in after && HashOf(hasher, before, r) == HashOf(hasher, after, r)
    decreases Rank(before, r)
  {
    hide Acyclic, Influences;
    InfluencesItself(hasher, before, r);
    if !IsOpaque(hasher, r) {
      forall d | d in Deps(before[r])
        ensures d in after && HashOf(hasher, before, d) == HashOf(hasher, after, d)
      {
        RankDecreases(before, r, d);
        forall y | Influences(hasher, before, y, d)
          ensures SameTarget(before, after, y)
        {
          InfluencePassesUp(hasher, before, r, d, y);
        }
        SameInfluencesSameHash(hasher, before, after, d);
      }
      assert DepHashes(hasher, before, map[], r) == DepHashes(hasher, after, map[], r);
    }
  }

  lemma StarOfStep(step: Step, pkg: Path)
    requires step.changed == step.DirtyLabels() && pkg in step.dirty
    ensures StarOf(step.seed, pkg) <= step.Star()
  {
    hide DirtyStar, SeedLabels, LabelsIn;
    StarOfPackageIsSmaller(step.seed, step.dirty, pkg);
  }

  /** A recorded hash that the run keeps is the hash at the target. */
  lemma KeptHashIsCurrent(hasher: Hasher, pattern: Pattern, percent: nat, graph: Graph, seed: Seed, step: Step,
                          loaded: Graph, r: Label)
    requires TellsTruth(hasher, graph, Matching(pattern, graph), seed) && Covers(hasher, percent, graph, seed)
    requires IsNextRun(hasher, pattern, percent, graph, seed, step, loaded)
    requires SeedHash(seed, r).Some? && r !in step.Star()
    ensures SameTarget(graph, step.after, r) && WellFormed(step.after) && r in step.after
    ensures SeedHash(seed, r).value == HashOf(hasher, step.after, r) == HashOf(hasher, graph, r)
  {
    hide Influences, CanLoad, StarOf, MayMerge, Step.Star, Step.DirtyLabels, Acyclic, Matching, Closed;
    assert r in graph;
    forall y | Influences(hasher, graph, y, r)
      ensures SameTarget(graph, step.after, y)
    {
      if y.repo == "" && y.pkg in step.dirty {
        StarOfStep(step, y.pkg);
        FewerMayMerge(seed, StarOf(seed, y.pkg), step.Star(), percent);
        assert false;
      }
    }
    InfluencesItself(hasher, graph, r);
    SameInfluencesSameHash(hasher, graph, step.after, r);
  }

  lemma ReusableIsRecorded(hasher: Hasher, graph: Graph, matching: set<Label>, seed: Seed, star: set<Label>, r: Label)
    requires TellsTruth(hasher, graph, matching, seed) && r in ReusableHashes(seed, star)
    ensures SeedHash(seed, r).Some? && r !in star && ReusableHashes(seed, star)[r] == SeedHash(seed, r).value
  {
    hide HashOf;
  }

  lemma NextRunIsTold(hasher: Hasher, pattern: Pattern, percent: nat, graph: Graph, seed: Seed, step: Step, loaded: Graph)
    requires Injective(hasher) && TellsTruth(hasher, graph, Matching(pattern, graph), seed)
    requires IsNextRun(hasher, pattern, percent, graph, seed, step, loaded)
    ensures step.IsTold()
  {
    hide Transition, TellsTruth, Injective, CanLoad, MayMerge, Matching;
  }

  /** With a seed that covers, every next run is right. */
  lemma CoveredRunMergesExactly(hasher: Hasher, pattern: Pattern, percent: nat, graph: Graph, seed: Seed,
                                step: Step, loaded: Graph)
    requires Injective(hasher) && ScopesExactly(pattern)
    requires TellsTruth(hasher, graph, Matching(pattern, graph), seed) && Covers(hasher, percent, graph, seed)
    requires IsNextRun(hasher, pattern, percent, graph, seed, step, loaded)
    ensures WellFormed(step.after) && CanLoad(step, loaded) && MergesExactly(step, loaded)
  {
    hide Injective, ScopesExactly, TellsTruth, Covers, Transition, Matching, Matches, HashOf, SeededHash, Step.Star, WellFormed,
         MayMerge, Step.IsTold, Misjudged, Step.ScopeAfter, ReusableHashes, PartOf;
    NextRunIsTold(hasher, pattern, percent, graph, seed, step, loaded);
    ScopesExactlyMisjudgesNone(step);
    MatchingTargetsExist(step);
    MatchesExist(pattern, step.after, step.ScopeAfter());
    var matching, seeds := Matching(pattern, graph), ReusableHashes(seed, step.Star());
    forall s | s in seeds
      ensures s in step.after && seeds[s] == HashOf(hasher, step.after, s)
    {
      ReusableIsRecorded(hasher, graph, matching, seed, step.Star(), s);
      KeptHashIsCurrent(hasher, pattern, percent, graph, seed, step, loaded, s);
    }
    var merged := Merge(seed.targetHashes, step.Star(), FreshHashes(step, loaded));
    forall l | l in merged
      ensures l in Matching(pattern, step.after) && merged[l] == HashOf(hasher, step.after, l)
    {
      if l in FreshHashes(step, loaded) {
        PartHashesAgree(hasher, loaded, step.after, seeds, l);
        SeedingRefines(hasher, step.after, seeds, l);
        JudgedAlike(step, l);
      } else {
        KeptHashIsCurrent(hasher, pattern, percent, graph, seed, step, loaded, l);
        RecordedTargetMatches(hasher, graph, matching, seed, l);
        MatchingIsStable(pattern, graph, step.after, l);
      }
    }
    forall l | l in Matching(pattern, step.after)
      ensures l in merged
    {
      JudgedAlike(step, l);
    }
  }

  lemma RecordedTargetMatches(hasher: Hasher, graph: Graph, matching: set<Label>, seed: Seed, l: Label)
    requires TellsTruth(hasher, graph, matching, seed) && l in seed.targetHashes
    ensures l in matching
  {
  }

  // ---------- A change that is missed ----------

  /** y is altered, and the new target t of the same package depends on r. */
  function NextGraph(graph: Graph, y: Label, t: Label, r: Label, own: string): Graph
    requires y in graph
  {
    AlteredGraph(graph, y)[t := Rule(own, [r])]
  }

  ghost predicate IsNewBeside(graph: Graph, y: Label, t: Label) {
    t !in graph && y in graph && t.repo == y.repo == "" && t.pkg == y.pkg
  }

  lemma NextGraphIsWellFormed(graph: Graph, y: Label, t: Label, r: Label, own: string)
    requires WellFormed(graph) && r in graph && IsNewBeside(graph, y, t)
    ensures WellFormed(NextGraph(graph, y, t, r, own)) && Deps(NextGraph(graph, y, t, r, own)[t]) == {r}
  {
    var next := NextGraph(graph, y, t, r, own);
    assert [r][0] == r && Deps(Rule(own, [r])) == {r};
    assert Deps(Altered(graph[y])) == {};
    var rank :| IsRanking(graph, rank);
    assert IsRanking(next, rank[t := rank[r] + 1]);
  }

  lemma NextTransition(graph: Graph, y: Label, t: Label, r: Label, own: string, changedFiles: map<Path, string>)
    requires WellFormed(graph) && r in graph && IsNewBeside(graph, y, t)
    ensures Transition(graph, NextGraph(graph, y, t, r, own), {y.pkg}, {}, changedFiles)
  {
    hide WellFormed;
    NextGraphIsWellFormed(graph, y, t, r, own);
  }

  lemma AlteredHashDiffers(hasher: Hasher, graph: Graph, y: Label, t: Label, r: Label, own: string)
    requires Injective(hasher) && WellFormed(graph) && r in graph && IsNewBeside(graph, y, t)
    requires WellFormed(NextGraph(graph, y, t, r, own))
    ensures HashOf(hasher, NextGraph(graph, y, t, r, own), y) != HashOf(hasher, graph, y)
  {
    hide Acyclic, Closed, Deps, Altered;
    var next := NextGraph(graph, y, t, r, own);
    var hashes, others := DepHashes(hasher, graph, map[], y), DepHashes(hasher, next, map[], y);
    AlteredCombinesDifferently(hasher, y, graph[y], hashes, others);
  }

  /** The change reaches everything on the way up from y. */
  lemma {:induction false} HashesAboveDiffer(hasher: Hasher, graph: Graph, y: Label, t: Label, r: Label,
                                             own: string, chain: seq<Label>, k: nat)
    requires Injective(hasher) && WellFormed(graph) && r in graph && IsNewBeside(graph, y, t)
    requires WellFormed(NextGraph(graph, y, t, r, own))
    requires Leads(hasher, graph, chain) && chain[|chain| - 1] == y && k < |chain|
    ensures chain[k] in graph && HashOf(hasher, NextGraph(graph, y, t, r, own), chain[k]) != HashOf(hasher, graph, chain[k])
    decreases |chain| - k
  {
    hide Injective, HashOf, Acyclic;
    var next := NextGraph(graph, y, t, r, own);
    if chain[k] == y {
      AlteredHashDiffers(hasher, graph, y, t, r, own);
    } else {
      HashesAboveDiffer(hasher, graph, y, t, r, own, chain, k + 1);
      assert DependsOn(graph, chain[k], chain[k + 1]);
      assert next[chain[k]] == graph[chain[k]] && !IsOpaque(hasher, chain[k]);
      if HashOf(hasher, next, chain[k]) == HashOf(hasher, graph, chain[k]) {
        SameHashSameDependency(hasher, graph, next, chain[k], chain[k + 1]);
        assert false;
      }
    }
  }

  lemma InfluencedHashDiffers(hasher: Hasher, graph: Graph, y: Label, t: Label, r: Label, own: string)
    requires Injective(hasher) && WellFormed(graph) && Influences(hasher, graph, y, r) && IsNewBeside(graph, y, t)
    ensures r in graph && WellFormed(NextGraph(graph, y, t, r, own))
    ensures HashOf(hasher, NextGraph(graph, y, t, r, own), r) != HashOf(hasher, graph, r)
  {
    hide WellFormed, HashOf, Injective;
    var chain: seq<Label> :| Leads(hasher, graph, chain) && chain[0] == r && chain[|chain| - 1] == y;
    NextGraphIsWellFormed(graph, y, t, r, own);
    HashesAboveDiffer(hasher, graph, y, t, r, own, chain, 0);
  }

  ghost function MissingStep(hasher: Hasher, pattern: Pattern, graph: Graph, seed: Seed, y: Label, t: Label,
                             r: Label, own: string): Step
    requires y in graph
  {
    Step(hasher, pattern, graph, NextGraph(graph, y, t, r, own), seed, {y.pkg}, {}, map[y.pkg + ["BUILD"] := "M"], map[],
         LabelsIn(SeedLabels(seed), {y.pkg}))
  }

  /** A recorded hash that the change makes outdated, and that the run reuses. */
  ghost predicate IsUncovered(hasher: Hasher, percent: nat, graph: Graph, seed: Seed, r: Label, y: Label) {
    && SeedHash(seed, r).Some? && y.repo == "" && Influences(hasher, graph, y, r)
    && r !in StarOf(seed, y.pkg) && MayMerge(seed, StarOf(seed, y.pkg), percent)
  }

  lemma InfluenceExists(hasher: Hasher, graph: Graph, y: Label, r: Label)
    requires WellFormed(graph) && Influences(hasher, graph, y, r)
    ensures y in graph && r in graph
  {
    var chain: seq<Label> :| Leads(hasher, graph, chain) && chain[0] == r && chain[|chain| - 1] == y;
    if |chain| > 1 {
      assert DependsOn(graph, chain[|chain| - 2], chain[|chain| - 1]);
    }
  }

  lemma StarOfMissingStep(hasher: Hasher, pattern: Pattern, graph: Graph, seed: Seed, y: Label, t: Label,
                          r: Label, own: string)
    requires y in graph
    ensures var step := MissingStep(hasher, pattern, graph, seed, y, t, r, own);
            step.Star() == StarOf(seed, y.pkg) && step.changed == step.DirtyLabels() && step.Relisted() == {y.pkg}
  {
  }

  lemma MissingStepIsNextRun(hasher: Hasher, pattern: Pattern, percent: nat, graph: Graph, seed: Seed,
                             r: Label, y: Label, t: Label, own: string)
    requires TellsTruth(hasher, graph, Matching(pattern, graph), seed)
    requires IsUncovered(hasher, percent, graph, seed, r, y) && IsNewBeside(graph, y, t)
    ensures var step := MissingStep(hasher, pattern, graph, seed, y, t, r, own);
            IsNextRun(hasher, pattern, percent, graph, seed, step, step.after)
  {
    hide TellsTruth, Influences, Matching, Transition, MayMerge, WellFormed, Step.Star, StarOf, Matches, Step.ScopeAfter,
         NextGraph, SeedHash;
    assert WellFormed(graph) by {
      TruthIsWellFormed(hasher, graph, Matching(pattern, graph), seed);
    }
    InfluenceExists(hasher, graph, y, r);
    var step := MissingStep(hasher, pattern, graph, seed, y, t, r, own);
    StarOfMissingStep(hasher, pattern, graph, seed, y, t, r, own);
    NextTransition(graph, y, t, r, own, step.changedFiles);
    NextGraphIsWellFormed(graph, y, t, r, own);
    MatchesExist(pattern, step.after, step.ScopeAfter());
    assert y.pkg in step.Relisted();
  }

  lemma TruthIsWellFormed(hasher: Hasher, graph: Graph, matching: set<Label>, seed: Seed)
    requires TellsTruth(hasher, graph, matching, seed)
    ensures WellFormed(graph) && SeedLabels(seed) <= graph.Keys && matching <= graph.Keys
    ensures seed.targetHashes == FullHashes(hasher, graph, matching)
  {
  }

  /** What the outdated hash is reused as. */
  lemma UncoveredIsReused(hasher: Hasher, pattern: Pattern, percent: nat, graph: Graph, seed: Seed, r: Label,
                          y: Label, t: Label, own: string)
    requires Injective(hasher) && TellsTruth(hasher, graph, Matching(pattern, graph), seed)
    requires IsUncovered(hasher, percent, graph, seed, r, y) && IsNewBeside(graph, y, t)
    ensures var step := MissingStep(hasher, pattern, graph, seed, y, t, r, own);
            && WellFormed(step.after) && r in step.after && r != y && r != t && r in ReusableHashes(seed, step.Star())
            && ReusableHashes(seed, step.Star())[r] == HashOf(hasher, graph, r) != HashOf(hasher, step.after, r)
  {
    hide Influences, Injective, Matching, MayMerge, WellFormed, Step.Star, HashOf, Upstream;
    InfluenceExists(hasher, graph, y, r);
    StarOfMissingStep(hasher, pattern, graph, seed, y, t, r, own);
    InfluencedHashDiffers(hasher, graph, y, t, r, own);
  }

  /** A recorded target that is not covered keeps an outdated hash. */
  lemma UncoveredTargetIsWrong(hasher: Hasher, pattern: Pattern, percent: nat, graph: Graph, seed: Seed,
                               r: Label, y: Label, t: Label, own: string)
    requires Injective(hasher) && TellsTruth(hasher, graph, Matching(pattern, graph), seed)
    requires IsUncovered(hasher, percent, graph, seed, r, y) && IsNewBeside(graph, y, t) && r in seed.targetHashes
    ensures var step := MissingStep(hasher, pattern, graph, seed, y, t, r, own);
            CanLoad(step, step.after) && WellFormed(step.after) && !MergesExactly(step, step.after)
  {
    hide TellsTruth, IsUncovered, Injective, Matching, WellFormed, Step.Star, HashOf, ReusableHashes, Step.ScopeAfter, Matches,
         Transition, MayMerge;
    var step := MissingStep(hasher, pattern, graph, seed, y, t, r, own);
    MissingStepIsNextRun(hasher, pattern, percent, graph, seed, r, y, t, own);
    UncoveredIsReused(hasher, pattern, percent, graph, seed, r, y, t, own);
    TruthIsWellFormed(hasher, graph, Matching(pattern, graph), seed);
    assert SameTarget(graph, step.after, r);
    MatchingIsStable(pattern, graph, step.after, r);
    var merged := Merge(seed.targetHashes, step.Star(), FreshHashes(step, step.after));
    assert r in merged ==> merged[r] == HashOf(hasher, graph, r);
    assert r in Matching(pattern, step.after);
  }

  /** And a new target that the pattern selects is hashed from it, whatever kind of label it belongs to. */
  lemma UncoveredDependencyIsWrong(hasher: Hasher, pattern: Pattern, percent: nat, graph: Graph, seed: Seed,
                                   r: Label, y: Label, t: Label, own: string)
    requires Injective(hasher) && TellsTruth(hasher, graph, Matching(pattern, graph), seed)
    requires IsUncovered(hasher, percent, graph, seed, r, y) && IsNewBeside(graph, y, t)
    requires Selects(pattern, t, Rule(own, [r]), true)
    ensures var step := MissingStep(hasher, pattern, graph, seed, y, t, r, own);
            CanLoad(step, step.after) && WellFormed(step.after) && !MergesExactly(step, step.after)
  {
    hide TellsTruth, IsUncovered, Injective, WellFormed, Step.Star, HashOf, ReusableHashes, Matches, Transition, MayMerge,
         SeededHash, Selects, SeedLabels;
    var step := MissingStep(hasher, pattern, graph, seed, y, t, r, own);
    MissingStepIsNextRun(hasher, pattern, percent, graph, seed, r, y, t, own);
    UncoveredIsReused(hasher, pattern, percent, graph, seed, r, y, t, own);
    assert t in step.ScopeAfter() && t in AllRules(step.after);
    MatchingIsLocal(pattern, step.after, step.ScopeAfter(), t);
    MatchingIsLocal(pattern, step.after, AllRules(step.after), t);
    NewTargetReadsIt(hasher, pattern, percent, graph, seed, r, y, t, own);
    hide Step.ScopeAfter;
    assert t in FreshHashes(step, step.after);
  }

  /** A hash computed from an outdated one is wrong. */
  lemma OutdatedInputSpoilsHash(hasher: Hasher, graph: Graph, seeds: map<Label, Hash>, t: Label, r: Label)
    requires Injective(hasher) && WellFormed(graph) && t in graph && t !in seeds && !IsOpaque(hasher, t)
    requires r in Deps(graph[t]) && r in graph && SeededHash(hasher, graph, seeds, r) != HashOf(hasher, graph, r)
    ensures SeededHash(hasher, graph, seeds, t) != HashOf(hasher, graph, t)
  {
    hide Injective, Acyclic, Closed, Combine;
    if SeededHash(hasher, graph, seeds, t) == HashOf(hasher, graph, t) {
      var hashes, others := DepHashes(hasher, graph, seeds, t), DepHashes(hasher, graph, map[], t);
      EqualHashesMeanEqualInputs(hasher, t, graph[t], graph[t], hashes, others);
      assert false;
    }
  }

  lemma NewTargetReadsIt(hasher: Hasher, pattern: Pattern, percent: nat, graph: Graph, seed: Seed, r: Label,
                         y: Label, t: Label, own: string)
    requires Injective(hasher) && TellsTruth(hasher, graph, Matching(pattern, graph), seed)
    requires IsUncovered(hasher, percent, graph, seed, r, y) && IsNewBeside(graph, y, t)
    ensures var step := MissingStep(hasher, pattern, graph, seed, y, t, r, own);
            && WellFormed(step.after)
            && SeededHash(hasher, step.after, ReusableHashes(seed, step.Star()), t) != HashOf(hasher, step.after, t)
  {
    hide TellsTruth, IsUncovered, Injective, Acyclic, Closed, Step.Star, ReusableHashes, Matching, Deps, HashOf;
    var step := MissingStep(hasher, pattern, graph, seed, y, t, r, own);
    UncoveredIsReused(hasher, pattern, percent, graph, seed, r, y, t, own);
    ReusableExists(hasher, graph, Matching(pattern, graph), seed, step.Star());
    TruthIsWellFormed(hasher, graph, Matching(pattern, graph), seed);
    assert r in graph;
    NextGraphIsWellFormed(graph, y, t, r, own);
    OutdatedInputSpoilsHash(hasher, step.after, ReusableHashes(seed, step.Star()), t, r);
  }

  lemma ReusableExists(hasher: Hasher, graph: Graph, matching: set<Label>, seed: Seed, star: set<Label>)
    requires TellsTruth(hasher, graph, matching, seed)
    ensures ReusableHashes(seed, star).Keys <= graph.Keys
  {
    hide HashOf;
  }

  // ---------- Exactly ----------

  /** Some rule that depends on r can be added to the package under a new name and is selected. */
  ghost predicate SelectsNewRule(pattern: Pattern, pkg: Path, r: Label, n: nat) {
    exists name: Path, own :: |name| >= n && Selects(pattern, Label("", pkg, name), Rule(own, [r]), true)
  }

  /** Whatever a package holds, and however many rules the pattern filters out, it can gain one that the pattern keeps. */
  ghost predicate SelectsNewRules(pattern: Pattern) {
    forall pkg, r, n :: SelectsNewRule(pattern, pkg, r, n)
  }

  lemma {:induction false} NamesAreBounded(labels: set<Label>) returns (n: nat)
    ensures forall l | l in labels :: |l.name| < n
    decreases labels
  {
    if labels == {} {
      n := 0;
    } else {
      var l :| l in labels;
      var others := NamesAreBounded(labels - {l});
      n := others + |l.name| + 1;
    }
  }

  lemma NewRuleExists(pattern: Pattern, graph: Graph, y: Label, r: Label) returns (t: Label, own: string)
    requires SelectsNewRules(pattern) && y in graph && y.repo == ""
    ensures IsNewBeside(graph, y, t) && Selects(pattern, t, Rule(own, [r]), true)
  {
    hide Selects;
    var n := NamesAreBounded(graph.Keys);
    assert SelectsNewRule(pattern, y.pkg, r, n);
    var name: Path, chosen :| |name| >= n && Selects(pattern, Label("", y.pkg, name), Rule(chosen, [r]), true);
    t, own := Label("", y.pkg, name), chosen;
  }

  lemma UncoveredExists(hasher: Hasher, percent: nat, graph: Graph, seed: Seed) returns (r: Label, y: Label)
    requires WellFormed(graph) && !Covers(hasher, percent, graph, seed)
    ensures IsUncovered(hasher, percent, graph, seed, r, y) && y in graph && y.repo == ""
  {
    hide Influences, StarOf, MayMerge, WellFormed, SeedHash;
    r, y :| SeedHash(seed, r).Some? && y.repo == "" && Influences(hasher, graph, y, r)
            && r !in StarOf(seed, y.pkg) && MayMerge(seed, StarOf(seed, y.pkg), percent);
    InfluenceExists(hasher, graph, y, r);
  }

  /**
   Exactly which recorded hashes and edges are good enough for every next run: those
   that cover.
   */
  lemma NextRunsMergeExactlyIff(hasher: Hasher, pattern: Pattern, percent: nat, graph: Graph, seed: Seed)
    requires Injective(hasher) && ScopesExactly(pattern) && SelectsNewRules(pattern)
    requires TellsTruth(hasher, graph, Matching(pattern, graph), seed)
    ensures Covers(hasher, percent, graph, seed) <==>
              forall step, loaded | IsNextRun(hasher, pattern, percent, graph, seed, step, loaded) ::
                CanLoad(step, loaded) && WellFormed(step.after) && MergesExactly(step, loaded)
  {
    hide TellsTruth, IsNextRun, Injective, ScopesExactly, CanLoad, WellFormed, MergesExactly, Matching, StarOf, MayMerge,
         Influences, IsNewBeside, MissingStep, Selects;
    if Covers(hasher, percent, graph, seed) {
      forall step, loaded | IsNextRun(hasher, pattern, percent, graph, seed, step, loaded)
        ensures CanLoad(step, loaded) && WellFormed(step.after) && MergesExactly(step, loaded)
      {
        CoveredRunMergesExactly(hasher, pattern, percent, graph, seed, step, loaded);
      }
    } else {
      TruthIsWellFormed(hasher, graph, Matching(pattern, graph), seed);
      var r, y := UncoveredExists(hasher, percent, graph, seed);
      var t, own := NewRuleExists(pattern, graph, y, r);
      MissingStepIsNextRun(hasher, pattern, percent, graph, seed, r, y, t, own);
      UncoveredDependencyIsWrong(hasher, pattern, percent, graph, seed, r, y, t, own);
    }
  }

  // ---------- Outputs ----------

  lemma {:induction false} ChainIsAbove(hasher: Hasher, graph: Graph, seed: Seed, chain: seq<Label>, k: nat)
    requires AccurateEdges(seed, graph) && Leads(hasher, graph, chain) && k < |chain| && chain[|chain| - 1].repo == ""
    requires chain[k] in SeedLabels(seed)
    ensures chain[k] in StarOf(seed, chain[|chain| - 1].pkg)
    decreases |chain| - k
  {
    hide SeedLabels, Upstream;
    if k < |chain| - 1 {
      assert DependsOn(graph, chain[k], chain[k + 1]);
      assert chain[k + 1] in EdgeSet(seed.edges, chain[k]);
      assert HasEdge(seed.edges, chain[k], chain[k + 1]);
      EdgesLeadToLabels(seed, chain[k], chain[k + 1]);
      ChainIsAbove(hasher, graph, seed, chain, k + 1);
      UpstreamStep(seed.edges, LabelsIn(SeedLabels(seed), {chain[|chain| - 1].pkg}), chain[k + 1], chain[k]);
    }
  }

  lemma EdgesLeadToLabels(seed: Seed, l: Label, dep: Label)
    requires HasEdge(seed.edges, l, dep)
    ensures dep in SeedLabels(seed)
  {
  }

  /** A true seed covers, whatever the limit. */
  lemma TrueSeedCovers(hasher: Hasher, percent: nat, graph: Graph, matching: set<Label>, seed: Seed)
    requires ValidSeed(hasher, graph, matching, seed)
    ensures Covers(hasher, percent, graph, seed)
  {
    hide StarOf, MayMerge, SeedLabels, Acyclic, Closed, FullHashes, AccurateEdges, SeedHash;
    forall r, y: Label | SeedHash(seed, r).Some? && y.repo == "" && Influences(hasher, graph, y, r)
      ensures r in StarOf(seed, y.pkg)
    {
      SeedHashIsTrue(hasher, graph, matching, seed, r);
      var chain: seq<Label> :| Leads(hasher, graph, chain) && chain[0] == r && chain[|chain| - 1] == y;
      ChainIsAbove(hasher, graph, seed, chain, 0);
    }
  }

  lemma OutputEdgesAreReal(step: Step, loaded: Graph, edges: Edges, computed: map<Label, Hash>, l: Label, dep: Label)
    requires step.IsSeeded() && Loads(step, loaded, edges, computed)
    requires HasEdge(Merge(step.seed.edges, step.Star(), edges), l, dep)
    ensures l in step.after && dep in Deps(step.after[l]) && dep in step.after
  {
    hide ValidSeed, Transition, Justified, IsTableOf, Matches, Matching, Step.ScopeAfter, Acyclic, Step.Star;
    if l in edges {
      assert dep in set d | d in edges[l];
      assert loaded[l] == step.after[l];
      assert dep in loaded;
    } else {
      RetainedEdgesAreTrue(step, l);
      assert dep in EdgeSet(step.seed.edges, l);
    }
  }

  lemma OutputKeyExists(step: Step, loaded: Graph, edges: Edges, computed: map<Label, Hash>, l: Label)
    requires step.IsSeeded() && Loads(step, loaded, edges, computed) && l in Merge(step.seed.edges, step.Star(), edges)
    ensures l in step.after
  {
    hide ValidSeed, Transition, Justified, IsTableOf, Matches, Matching, Step.ScopeAfter, Acyclic, Step.Star;
    if l !in edges {
      RetainedEdgesAreTrue(step, l);
    }
  }

  lemma OutputLabelExists(step: Step, loaded: Graph, edges: Edges, computed: map<Label, Hash>, l: Label)
    requires step.IsSeeded() && Loads(step, loaded, edges, computed) && Misjudged(step) == {}
    requires l in SeedLabels(OutputSeed(step, loaded, edges, computed))
    ensures l in step.after
  {
    hide Step.IsSeeded, Misjudged, Merge, FreshHashes, Matching, HashOf, IsTableOf, WellFormed, Step.Star, Deps,
         Step.ScopeAfter, Matches, PartOf;
    var seed := OutputSeed(step, loaded, edges, computed);
    NoneMisjudgedMergesExactly(step, loaded);
    if l in seed.edges {
      OutputKeyExists(step, loaded, edges, computed, l);
    } else if l !in seed.targetHashes {
      var from :| from in seed.edges && l in seed.edges[from];
      assert HasEdge(seed.edges, from, l);
      OutputEdgesAreReal(step, loaded, edges, computed, from, l);
    }
  }

  lemma OutputDependencyIsTrue(step: Step, loaded: Graph, edges: Edges, computed: map<Label, Hash>, l: Label)
    requires step.IsSeeded() && Loads(step, loaded, edges, computed)
    requires l in OutputSeed(step, loaded, edges, computed).dependencyHashes
    ensures WellFormed(step.after) && l in step.after && l in SeedLabels(OutputSeed(step, loaded, edges, computed))
    ensures OutputSeed(step, loaded, edges, computed).dependencyHashes[l] == HashOf(step.hasher, step.after, l)
  {
    hide Merge, FreshHashes, Matching, HashOf, IsTableOf, Step.Star, Step.IsSeeded, Step.ScopeAfter, Matches, WellFormed, PartOf;
    SeededIsTold(step);
    MatchingTargetsExist(step);
    TableOfStepIsTrue(step, loaded, edges, computed, l);
  }

  /** Whatever edges it loses, a run persists nothing wrong. */
  lemma OutputTellsTruth(step: Step, loaded: Graph, edges: Edges, computed: map<Label, Hash>)
    requires step.IsSeeded() && Loads(step, loaded, edges, computed) && Misjudged(step) == {}
    ensures TellsTruth(step.hasher, step.after, Matching(step.pattern, step.after), OutputSeed(step, loaded, edges, computed))
  {
    hide Step.IsSeeded, Loads, Matching, FullHashes, HashOf, FreshHashes, Deps, Merge, Misjudged, HasEdge, SeedLabels, Step.Star,
         Step.ScopeAfter, Matches, DependencyHashesOf;
    LoadsCanLoad(step, loaded, edges, computed);
    var seed := OutputSeed(step, loaded, edges, computed);
    NoneMisjudgedMergesExactly(step, loaded);
    forall l, dep | HasEdge(seed.edges, l, dep)
      ensures l in step.after && dep in Deps(step.after[l])
    {
      OutputEdgesAreReal(step, loaded, edges, computed, l, dep);
    }
    forall l | l in SeedLabels(seed)
      ensures l in step.after
    {
      OutputLabelExists(step, loaded, edges, computed, l);
    }
    forall l | l in seed.dependencyHashes
      ensures l in SeedLabels(seed) && seed.dependencyHashes[l] == HashOf(step.hasher, step.after, l)
    {
      OutputDependencyIsTrue(step, loaded, edges, computed, l);
    }
  }

  lemma LoadsCanLoad(step: Step, loaded: Graph, edges: Edges, computed: map<Label, Hash>)
    requires Loads(step, loaded, edges, computed)
    ensures CanLoad(step, loaded)
  {
  }

  /**
   A lost label that does matter: a recorded entry names it, it depends on a label
   of a package that the entry is not above any more, and a change there would be
   merged.
   */
  lemma LostLabelIsMissed(step: Step, loaded: Graph, edges: Edges, computed: map<Label, Hash>, percent: nat,
                          from: Label, l: Label, x: Label)
    requires step.IsSeeded() && Loads(step, loaded, edges, computed) && l in LostLabels(step.seed, step.Star(), loaded.Keys)
    requires HasEdge(step.seed.edges, from, l) && from !in step.Star() && !IsOpaque(step.hasher, from) && !IsOpaque(step.hasher, l)
    requires x in EdgeSet(step.seed.edges, l) && x.repo == ""
    requires var seed := OutputSeed(step, loaded, edges, computed);
             && SeedHash(seed, from).Some? && from !in StarOf(seed, x.pkg) && MayMerge(seed, StarOf(seed, x.pkg), percent)
    ensures !Covers(step.hasher, percent, step.after, OutputSeed(step, loaded, edges, computed))
  {
    hide Step.IsSeeded, Loads, OutputSeed, LostLabels, StarOf, MayMerge, Step.Star, SeedHash;
    NamedByRetained(step, from, l);
    RetainedEdgesAreTrue(step, from);
    assert l in EdgeSet(step.seed.edges, from);
    assert DependsOn(step.after, from, l) && DependsOn(step.after, l, x);
    var chain := [from, l, x];
    assert Leads(step.hasher, step.after, chain) && chain[0] == from && chain[|chain| - 1] == x;
    assert Influences(step.hasher, step.after, x, from);
  }

  /** So an output, pruned or not and whatever it lost, is good enough for every next run exactly when it covers. */
  lemma OutputSeedsNextRunsIff(step: Step, loaded: Graph, edges: Edges, computed: map<Label, Hash>, percent: nat)
    requires step.IsSeeded() && Loads(step, loaded, edges, computed)
    requires ScopesExactly(step.pattern) && SelectsNewRules(step.pattern)
    ensures var seed := OutputSeed(step, loaded, edges, computed);
            Covers(step.hasher, percent, step.after, seed) <==>
              forall next, part | IsNextRun(step.hasher, step.pattern, percent, step.after, seed, next, part) ::
                CanLoad(next, part) && WellFormed(next.after) && MergesExactly(next, part)
  {
    hide Loads, Covers, IsNextRun, OutputSeed, ScopesExactly, SelectsNewRules, TellsTruth, Injective, MergesExactly, Misjudged,
         Matching, WellFormed, Transition, ValidSeed, Justified, Step.DirtyLabels;
    LoadsCanLoad(step, loaded, edges, computed);
    SeededIsTold(step);
    ScopesExactlyMisjudgesNone(step);
    OutputTellsTruth(step, loaded, edges, computed);
    NextRunsMergeExactlyIff(step.hasher, step.pattern, percent, step.after, OutputSeed(step, loaded, edges, computed));
  }
}
