/**
 Exactly which target patterns a seeded run handles (pkg/scoped_query.go:67-84,
 hash-persister/hash-persister.go:312-431).

 `ScopesExactly` is enough for the merged hashes to be the full ones. For any
 other pattern that depends on the targets there are, since a run also has to get
 as far as its merge: its seed needs edges, and too many dirty* targets make it
 fall back. This module says which graphs make which patterns fail.
 */
module ScopingLimits {
  import opened Workspace
  import opened Propagation
  import opened Hashing
  import opened DirtySet
  import opened Pruning
  import opened TargetPatterns
  import opened Incremental
  import opened Chain
  import opened MergedRuns

  // ---------- Rules ----------

  /** A re-listable rule that the pattern rejects because of the universe, and a matching target m with dependencies. */
  ghost predicate RejectsRule(pattern: Pattern, graph: Graph, l: Label, m: Label) {
    && WellFormed(graph) && l in AllRules(graph) && OnlyOutside(pattern, l, graph[l])
    && m in Matching(pattern, graph) && m in graph && Deps(graph[m]) != {}
  }

  lemma {:induction false} PackagesAreBounded(labels: set<Label>) returns (n: nat)
    ensures forall l | l in labels :: |l.pkg| < n
    decreases labels
  {
    if labels == {} {
      n := 0;
    } else {
      var l :| l in labels;
      var others := PackagesAreBounded(labels - {l});
      n := others + |l.pkg| + 1;
    }
  }

  /** A run between two equal revisions in which only a package without labels is dirty. */
  ghost function QuietStep(hasher: Hasher, pattern: Pattern, graph: Graph, seed: Seed, quiet: Path): Step {
    Step(hasher, pattern, graph, graph, seed, {quiet}, {}, map[quiet + ["BUILD"] := "M"], map[], {})
  }

  lemma QuietStepTouchesNothing(hasher: Hasher, pattern: Pattern, graph: Graph, seed: Seed, quiet: Path)
    requires SeedLabels(seed) <= graph.Keys && forall l | l in graph :: l.pkg != quiet
    ensures var step := QuietStep(hasher, pattern, graph, seed, quiet);
            step.DirtyLabels() == {} && step.Star() == {} && step.ScopeAfter() == {}
  {
    ClosedSetHoldsUpstream(seed.edges, {}, {});
    hide Upstream, SeedLabels, Matching;
    var step := QuietStep(hasher, pattern, graph, seed, quiet);
    assert step.DirtyLabels() == {};
    assert Carried({}, seed, {quiet}) == {};
  }

  lemma QuietStepIsSeeded(hasher: Hasher, pattern: Pattern, graph: Graph, seed: Seed, quiet: Path)
    requires Injective(hasher) && ValidSeed(hasher, graph, Matching(pattern, graph), seed)
    requires forall l | l in graph :: l.pkg != quiet
    ensures QuietStep(hasher, pattern, graph, seed, quiet).IsSeeded()
  {
    hide Matching, FullHashes, HashOf, Injective, SeededHash;
  }

  /** Such a rule is hashed although it does not match, by a run that no recomputation limit stops. */
  lemma RejectedRuleIsHashed(hasher: Hasher, pattern: Pattern, percent: nat, graph: Graph, l: Label, m: Label)
    returns (step: Step, loaded: Graph)
    requires Injective(hasher) && RejectsRule(pattern, graph, l, m)
    ensures IsMergedRun(hasher, pattern, percent, step, loaded) && step.changed == step.DirtyLabels()
    ensures l in Misjudged(step) && l in AllRules(step.after)
  {
    hide Matching, IsFullSeed, Injective, ValidSeed, Selects, SeedLabels, Step.IsSeeded, Step.Star, Step.ScopeAfter,
         Step.DirtyLabels, Matches, Acyclic, Closed;
    var seed := FullSeedExists(hasher, pattern, graph);
    FullSeedIsTrue(hasher, pattern, graph, seed);
    var n := PackagesAreBounded(graph.Keys);
    var quiet: Path := seq(n, _ => "");
    assert forall k | k in graph :: k.pkg != quiet;
    SeedHasTarget(hasher, pattern, graph, seed, m);
    QuietStepTouchesNothing(hasher, pattern, graph, seed, quiet);
    QuietStepIsSeeded(hasher, pattern, graph, seed, quiet);
    MatchesExist(pattern, graph, {});
    step, loaded := QuietStep(hasher, pattern, graph, seed, quiet), graph;
    assert quiet in step.Relisted();
  }

  lemma SeedHasTarget(hasher: Hasher, pattern: Pattern, graph: Graph, seed: Seed, m: Label)
    requires ValidSeed(hasher, graph, Matching(pattern, graph), seed)
    requires m in Matching(pattern, graph) && m in graph && Deps(graph[m]) != {}
    ensures SeedLabels(seed) <= graph.Keys && m in seed.edges
  {
    hide Matching, HashOf, Acyclic;
    assert m in SeedLabels(seed);
  }

  /** A rule is misjudged by some run that merges exactly when there is a graph with such a rule, whatever the limit. */
  lemma RuleIsMisjudgedIff(hasher: Hasher, pattern: Pattern, percent: nat)
    requires Injective(hasher)
    ensures (exists step, loaded, l ::
               IsMergedRun(hasher, pattern, percent, step, loaded) && l in Misjudged(step) && l in AllRules(step.after))
            <==> (exists graph, l, m :: RejectsRule(pattern, graph, l, m))
  {
    hide IsMergedRun, Misjudged, RejectsRule, Injective, AllRules;
    if step: Step, loaded, l :|
      IsMergedRun(hasher, pattern, percent, step, loaded) && l in Misjudged(step) && l in AllRules(step.after)
    {
      var m := MisjudgedRuleIsRejected(hasher, pattern, percent, step, loaded, l);
      assert RejectsRule(pattern, step.before, l, m);
    }
    if graph, l, m :| RejectsRule(pattern, graph, l, m) {
      var step, loaded := RejectedRuleIsHashed(hasher, pattern, percent, graph, l, m);
    }
  }

  lemma MisjudgedRuleIsRejected(hasher: Hasher, pattern: Pattern, percent: nat, step: Step, loaded: Graph, l: Label)
    returns (m: Label)
    requires IsMergedRun(hasher, pattern, percent, step, loaded) && l in Misjudged(step) && l in AllRules(step.after)
    ensures RejectsRule(pattern, step.before, l, m)
  {
    m := FullSeedHasDependentTarget(hasher, pattern, step.before, step.seed);
    hide IsFullSeed, IsDecided, Matching, Selects, CanLoad, Step.Star, ValidSeed, Justified;
    SeededIsTold(step);
    UnlistedIsSame(step, l);
  }

  // ---------- Carried targets ----------

  /**
   A target outside the package that the pattern selects unless it is named, dirty*
   when the package is, while so few targets are dirty* that the limit is not reached.
   */
  ghost predicate DropsCarried(hasher: Hasher, pattern: Pattern, percent: nat, graph: Graph, seed: Seed, pkg: Path, l: Label) {
    && IsFullSeed(hasher, pattern, graph, seed)
    && l in seed.targetHashes && l in graph && l !in AllRules(graph) && OnlyOutside(pattern, l, graph[l])
    && l.pkg != pkg && l in StarOf(seed, pkg)
    && |seed.targetHashes.Keys * StarOf(seed, pkg)| * 100 < |seed.targetHashes| * percent
  }

  ghost function OnePackageStep(hasher: Hasher, pattern: Pattern, graph: Graph, seed: Seed, pkg: Path): Step {
    Step(hasher, pattern, graph, graph, seed, {pkg}, {}, map[pkg + ["BUILD"] := "M"], map[], LabelsIn(SeedLabels(seed), {pkg}))
  }

  lemma OnePackageStepIsSeeded(hasher: Hasher, pattern: Pattern, graph: Graph, seed: Seed, pkg: Path)
    requires Injective(hasher) && ValidSeed(hasher, graph, Matching(pattern, graph), seed)
    ensures OnePackageStep(hasher, pattern, graph, seed, pkg).IsSeeded()
  {
    hide Matching, FullHashes, HashOf, Injective, SeededHash, SeedLabels, Acyclic;
    var step := OnePackageStep(hasher, pattern, graph, seed, pkg);
    UnprunedIsJustified(hasher, graph, graph, seed, step.dirty, step.changedFiles);
  }

  lemma StarOfOnePackage(hasher: Hasher, pattern: Pattern, graph: Graph, seed: Seed, pkg: Path)
    ensures var step := OnePackageStep(hasher, pattern, graph, seed, pkg);
            step.Star() == StarOf(seed, pkg) && step.changed == step.DirtyLabels() && step.Relisted() == {pkg}
  {
  }

  /** Such a target is missing from what the run merges. */
  lemma CarriedTargetIsDropped(hasher: Hasher, pattern: Pattern, percent: nat, graph: Graph, seed: Seed, pkg: Path, l: Label)
    returns (step: Step, loaded: Graph)
    requires Injective(hasher) && DropsCarried(hasher, pattern, percent, graph, seed, pkg, l)
    ensures IsMergedRun(hasher, pattern, percent, step, loaded) && step.changed == step.DirtyLabels()
    ensures l in Misjudged(step) && l !in AllRules(step.after)
  {
    hide Matching, IsFullSeed, Injective, ValidSeed, Selects, SeedLabels, DirtyStar, LabelsIn, AllRules;
    FullSeedIsTrue(hasher, pattern, graph, seed);
    OnePackageStepIsSeeded(hasher, pattern, graph, seed, pkg);
    StarOfOnePackage(hasher, pattern, graph, seed, pkg);
    step, loaded := OnePackageStep(hasher, pattern, graph, seed, pkg), graph;
    MatchesExist(pattern, graph, step.ScopeAfter());
    assert WellFormed(graph);
    hide Step.IsSeeded, Step.Star, WellFormed, Matches, StarOf;
    OutsideLabelHasEdges(seed, pkg, l);
    assert l in step.ScopeAfter();
    assert pkg in step.Relisted();
  }

  lemma OutsideLabelHasEdges(seed: Seed, pkg: Path, l: Label)
    requires l in StarOf(seed, pkg) && l.pkg != pkg
    ensures l in seed.edges
  {
    hide SeedLabels;
  }

  /** Without pruning, a carried target is misjudged by some run that merges exactly when there are such targets. */
  lemma UnprunedCarriedIsMisjudgedIff(hasher: Hasher, pattern: Pattern, percent: nat)
    requires Injective(hasher)
    ensures (exists step, loaded, l ::
               && IsMergedRun(hasher, pattern, percent, step, loaded) && step.changed == step.DirtyLabels()
               && l in Misjudged(step) && l !in AllRules(step.after))
            <==> (exists graph, seed, pkg, l :: DropsCarried(hasher, pattern, percent, graph, seed, pkg, l))
  {
    hide IsMergedRun, Misjudged, DropsCarried, Injective, AllRules, Step.DirtyLabels;
    if step: Step, loaded, l :|
      && IsMergedRun(hasher, pattern, percent, step, loaded) && step.changed == step.DirtyLabels()
      && l in Misjudged(step) && l !in AllRules(step.after)
    {
      var pkg := MisjudgedCarriedIsDropped(hasher, pattern, percent, step, loaded, l);
      assert DropsCarried(hasher, pattern, percent, step.before, step.seed, pkg, l);
    }
    if graph, seed, pkg, l :| DropsCarried(hasher, pattern, percent, graph, seed, pkg, l) {
      var step, loaded := CarriedTargetIsDropped(hasher, pattern, percent, graph, seed, pkg, l);
    }
  }

  /** What a run that merges, pruned or not, needs to misjudge a carried target: more than 100 / percent targets. */
  lemma CarriedNeedsTargets(hasher: Hasher, pattern: Pattern, percent: nat, step: Step, loaded: Graph, l: Label)
    requires IsMergedRun(hasher, pattern, percent, step, loaded) && l in Misjudged(step) && l !in AllRules(step.after)
    ensures l in step.seed.targetHashes && l in step.Star() && l.pkg !in step.dirty
    ensures var recomputed := |step.seed.targetHashes.Keys * step.Star()|;
            recomputed >= 1 && recomputed * 100 < |step.seed.targetHashes| * percent
    ensures |step.seed.targetHashes| * percent > 100
  {
    hide Step.IsSeeded, IsDecided, CanLoad, IsFullSeed, Step.Star, Selects, Matching;
    var recomputed := step.seed.targetHashes.Keys * step.Star();
    assert l in recomputed && {l} <= recomputed;
    SubsetIsSmaller({l}, recomputed);
    SubsetIsSmaller({l}, step.seed.targetHashes.Keys);
  }

  /** A label above several packages is above one of them. */
  lemma AboveOnePackage(seed: Seed, dirty: set<Path>, l: Label) returns (pkg: Path)
    requires l in Upstream(seed.edges, LabelsIn(SeedLabels(seed), dirty))
    ensures pkg in dirty && l in StarOf(seed, pkg)
  {
    hide SeedLabels;
    var many := LabelsIn(SeedLabels(seed), dirty);
    var chain: seq<Label> :|
      |chain| >= 2 && chain[0] in many && chain[|chain| - 1] == l && Climbs(seed.edges, chain);
    pkg := chain[0].pkg;
    assert chain[0] in LabelsIn(SeedLabels(seed), {pkg});
  }

  lemma MisjudgedCarriedIsDropped(hasher: Hasher, pattern: Pattern, percent: nat, step: Step, loaded: Graph, l: Label)
    returns (pkg: Path)
    requires IsMergedRun(hasher, pattern, percent, step, loaded) && step.changed == step.DirtyLabels()
    requires l in Misjudged(step) && l !in AllRules(step.after)
    ensures DropsCarried(hasher, pattern, percent, step.before, step.seed, pkg, l)
  {
    hide IsDecided, CanLoad, IsFullSeed, Selects, Matching, SeedLabels, Upstream, Justified, ValidSeed, LabelsIn, Step.DirtyLabels;
    CarriedNeedsTargets(hasher, pattern, percent, step, loaded, l);
    SeededIsTold(step);
    UnlistedIsSame(step, l);
    DirtyLabelsAreInside(step, l);
    assert l in Upstream(step.seed.edges, step.DirtyLabels());
    assert step.DirtyLabels() == LabelsIn(SeedLabels(step.seed), step.dirty) by {
      DirtyLabelsAre(step);
    }
    pkg := AboveOnePackage(step.seed, step.dirty, l);
    StarOfPackageIsSmaller(step.seed, step.dirty, pkg);
    hide DirtyStar, StarOf;
    SubsetIsSmaller(step.seed.targetHashes.Keys * StarOf(step.seed, pkg), step.seed.targetHashes.Keys * step.Star());
  }

  lemma DirtyLabelsAre(step: Step)
    ensures step.DirtyLabels() == LabelsIn(SeedLabels(step.seed), step.dirty)
  {
  }

  lemma DirtyLabelsAreInside(step: Step, l: Label)
    requires l.pkg !in step.dirty
    ensures l !in step.DirtyLabels()
  {
  }

  // ---------- Both together ----------

  /**
   Exactly when every unpruned run that gets as far as its merge gives the full
   run's hashes: there is no graph in which the pattern rejects a rule because of
   the universe beside a matching target with dependencies, and none in which it
   would drop a carried target with few enough others to recompute.
   */
  lemma UnprunedRunsMergeExactlyIff(hasher: Hasher, pattern: Pattern, percent: nat)
    requires Injective(hasher)
    ensures (forall step, loaded | IsMergedRun(hasher, pattern, percent, step, loaded) && step.changed == step.DirtyLabels() ::
               WellFormed(step.after) && MergesExactly(step, loaded))
            <==> (forall graph, l, m :: !RejectsRule(pattern, graph, l, m))
                 && (forall graph, seed, pkg, l :: !DropsCarried(hasher, pattern, percent, graph, seed, pkg, l))
  {
    hide RejectsRule, DropsCarried, Injective, AllRules, Step.DirtyLabels, MergesExactly, Misjudged, Step.IsSeeded, CanLoad,
         IsMergedRun, WellFormed;
    if graph, l, m :| RejectsRule(pattern, graph, l, m) {
      var step, loaded := RejectedRuleIsHashed(hasher, pattern, percent, graph, l, m);
      MergedRunIff(hasher, pattern, percent, step, loaded);
    } else if graph, seed, pkg, l :| DropsCarried(hasher, pattern, percent, graph, seed, pkg, l) {
      var step, loaded := CarriedTargetIsDropped(hasher, pattern, percent, graph, seed, pkg, l);
      MergedRunIff(hasher, pattern, percent, step, loaded);
    } else {
      forall step, loaded | IsMergedRun(hasher, pattern, percent, step, loaded) && step.changed == step.DirtyLabels()
        ensures CanLoad(step, loaded) && WellFormed(step.after) && MergesExactly(step, loaded)
      {
        MergedRunIff(hasher, pattern, percent, step, loaded);
        if l :| l in Misjudged(step) {
          if l in AllRules(step.after) {
            var m := MisjudgedRuleIsRejected(hasher, pattern, percent, step, loaded, l);
          } else {
            var pkg := MisjudgedCarriedIsDropped(hasher, pattern, percent, step, loaded, l);
          }
          assert false;
        }
      }
    }
  }

  lemma MergedRunIff(hasher: Hasher, pattern: Pattern, percent: nat, step: Step, loaded: Graph)
    requires IsMergedRun(hasher, pattern, percent, step, loaded)
    ensures CanLoad(step, loaded) && WellFormed(step.after)
    ensures MergesExactly(step, loaded) <==> Misjudged(step) == {}
  {
    hide Step.IsSeeded, CanLoad, MergesExactly, Misjudged, WellFormed;
    MergesExactlyIff(step, loaded);
  }

  // ---------- Examples ----------

  function InPackage(pkg: Path): Label -> bool {
    (l: Label) => l.repo == "" && l.pkg == pkg
  }

  /** `//pkg:* - //...`: the files of a package. */
  function FilesOf(pkg: Path): Pattern {
    Except(Named(InPackage(pkg)), Everything)
  }

  lemma FilesAreSelected(pkg: Path, k: Label, target: Target, inUniverse: bool)
    ensures Selects(FilesOf(pkg), k, target, inUniverse) <==> k.repo == "" && k.pkg == pkg && !inUniverse
  {
    assert Selects(FilesOf(pkg).left, k, target, inUniverse) <==> k.repo == "" && k.pkg == pkg;
  }

  /** With one generated file in the package, the rule that generates it is hashed as well. */
  lemma FilesOfPackageGoWrong(hasher: Hasher, percent: nat, pkg: Path) returns (step: Step, loaded: Graph)
    requires Injective(hasher)
    ensures IsMergedRun(hasher, FilesOf(pkg), percent, step, loaded) && step.changed == step.DirtyLabels()
    ensures WellFormed(step.after) && !MergesExactly(step, loaded)
  {
    var rule, file := Label("", pkg, ["rule"]), Label("", pkg, ["file"]);
    var graph: Graph := map[rule := Rule("", []), file := GeneratedFile(rule)];
    assert rule != file && file.name != rule.name;
    FilesGraphIsRejected(graph, pkg, rule, file);
    hide RejectsRule, IsMergedRun, Injective, MergesExactly, Misjudged, WellFormed;
    step, loaded := RejectedRuleIsHashed(hasher, FilesOf(pkg), percent, graph, rule, file);
    MergedRunIff(hasher, FilesOf(pkg), percent, step, loaded);
  }

  lemma FilesGraphIsRejected(graph: Graph, pkg: Path, rule: Label, file: Label)
    requires rule != file && rule.repo == file.repo == "" && rule.pkg == file.pkg == pkg
    requires graph == map[rule := Rule("", []), file := GeneratedFile(rule)]
    ensures RejectsRule(FilesOf(pkg), graph, rule, file)
  {
    assert IsRanking(graph, map[rule := 0, file := 1]);
    MatchingIsLocal(FilesOf(pkg), graph, AllRules(graph), file);
    FilesAreSelected(pkg, file, graph[file], false);
    FilesAreSelected(pkg, rule, graph[rule], false);
    FilesAreSelected(pkg, rule, graph[rule], true);
    assert rule in Deps(graph[file]);
  }

  /** `l - //...`, which does not scope exactly either. */
  function Subtracting(l: Label): Pattern {
    Except(Named((k: Label) => k == l), Everything)
  }

  lemma OnlyOneIsSelected(l: Label, k: Label, target: Target, inUniverse: bool)
    ensures Selects(Subtracting(l), k, target, inUniverse) <==> k == l && !inUniverse
  {
    assert Selects(Subtracting(l).left, k, target, inUniverse) <==> k == l;
  }

  lemma SubtractingScopesWrongly(l: Label)
    requires l.repo == ""
    ensures !ScopesExactly(Subtracting(l))
  {
    var rule := Rule("", []);
    OnlyOneIsSelected(l, l, rule, false);
    OnlyOneIsSelected(l, l, rule, true);
    assert IsExposed(l, rule);
  }

  /**
   And yet no run that merges gets it wrong: if the target is a rule the seed has no
   edges, and if it is carried it is all there is to recompute.
   */
  lemma SubtractingIsHandled(hasher: Hasher, l: Label, percent: nat, step: Step, loaded: Graph)
    requires IsMergedRun(hasher, Subtracting(l), percent, step, loaded) && percent <= 100
    ensures CanLoad(step, loaded) && WellFormed(step.after) && MergesExactly(step, loaded)
  {
    hide IsMergedRun, MergesExactly, Misjudged, WellFormed, Subtracting, CanLoad, RejectsRule;
    MergedRunIff(hasher, Subtracting(l), percent, step, loaded);
    if k :| k in Misjudged(step) {
      if k in AllRules(step.after) {
        var m := MisjudgedRuleIsRejected(hasher, Subtracting(l), percent, step, loaded, k);
        NoRuleIsRejected(l, step.before, k, m);
      } else {
        CarriedNeedsTargets(hasher, Subtracting(l), percent, step, loaded, k);
        OneTargetAtMost(hasher, l, percent, step, loaded);
      }
      assert false;
    }
  }

  lemma NoRuleIsRejected(l: Label, graph: Graph, k: Label, m: Label)
    ensures !RejectsRule(Subtracting(l), graph, k, m)
  {
    if RejectsRule(Subtracting(l), graph, k, m) {
      hide WellFormed, Selects;
      OnlyOneIsSelected(l, k, graph[k], false);
      MatchingIsLocal(Subtracting(l), graph, AllRules(graph), m);
      OnlyOneIsSelected(l, m, graph[m], m in AllRules(graph));
      assert false;
    }
  }

  lemma OneTargetAtMost(hasher: Hasher, l: Label, percent: nat, step: Step, loaded: Graph)
    requires IsMergedRun(hasher, Subtracting(l), percent, step, loaded)
    ensures |step.seed.targetHashes| <= 1
  {
    hide IsDecided, CanLoad, IsFullSeed, Selects, Justified, Subtracting, Acyclic, AccurateEdges;
    forall k | k in step.seed.targetHashes
      ensures k == l
    {
      MatchingIsLocal(Subtracting(l), step.before, AllRules(step.before), k);
      OnlyOneIsSelected(l, k, step.before[k], k in AllRules(step.before));
    }
    assert step.seed.targetHashes.Keys <= {l};
    SubsetIsSmaller(step.seed.targetHashes.Keys, {l});
  }
}
