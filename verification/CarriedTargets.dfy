/**
 Exactly which patterns drop carried targets from runs that may be pruned
 (pkg/dirty_set.go:324-380, hash-persister/hash-persister.go:312-378, 434-460).

 Pruning leaves fewer targets dirty*, so that more runs get as far as their merge.
 The fewest are dirty* when a single label of one package has changed; besides it
 only labels without a recorded hash count as changed.
 */
module CarriedTargets {
  import opened Workspace
  import opened Propagation
  import opened Hashing
  import opened Revisions
  import opened DirtySet
  import opened Pruning
  import opened TargetPatterns
  import opened Incremental
  import opened Chain
  import opened MergedRuns
  import opened ScopingLimits

  /** Labels of a dirty package that count as changed whatever a probe finds. */
  function Unrecorded(graph: Graph, seed: Seed, pkg: Path): set<Label> {
    set y | y in LabelsIn(SeedLabels(seed), {pkg}) && y in graph && !graph[y].SourceFile? && SeedHash(seed, y).None?
  }

  /** The dirty* labels when x is the only label that a probe finds changed. */
  ghost function PrunedStarOf(graph: Graph, seed: Seed, x: Label): set<Label> {
    DirtyStar(LabelsIn(SeedLabels(seed), {x.pkg}), {x} + Unrecorded(graph, seed, x.pkg), seed.edges)
  }

  /**
   A target that the pattern selects unless it is named, dirty* when x of another
   package changes, while so few targets are dirty* then that the limit is not reached.
   */
  ghost predicate DropsPruned(hasher: Hasher, pattern: Pattern, percent: nat, graph: Graph, seed: Seed, x: Label, l: Label) {
    && IsFullSeed(hasher, pattern, graph, seed)
    && l in seed.targetHashes && l in graph && l !in AllRules(graph) && OnlyOutside(pattern, l, graph[l])
    && x.repo == "" && x in SeedLabels(seed) && x in graph && l.pkg != x.pkg && l in PrunedStarOf(graph, seed, x)
    && |seed.targetHashes.Keys * PrunedStarOf(graph, seed, x)| * 100 < |seed.targetHashes| * percent
  }

  // ---------- Necessary ----------

  /** Nothing a probe says leaves such a label out. */
  lemma UnrecordedIsChanged(step: Step, pkg: Path, y: Label)
    requires step.IsSeeded() && IsDecided(step) && pkg in step.dirty && y in Unrecorded(step.before, step.seed, pkg)
    ensures y in step.changed
  {
    hide SeedLabels, Matching, ValidSeed, ExternalSeedHashes, HashOf, SeededHash, Injective, SeedHash;
  }

  lemma PrunedStarIsSmaller(step: Step, x: Label)
    requires step.IsSeeded() && IsDecided(step) && x in step.changed
    ensures PrunedStarOf(step.before, step.seed, x) <= step.Star() && x.pkg in step.dirty && x.repo == "" && x in SeedLabels(step.seed)
  {
    assert x in step.DirtyLabels();
    forall y | y in Unrecorded(step.before, step.seed, x.pkg)
      ensures y in step.changed
    {
      UnrecordedIsChanged(step, x.pkg, y);
    }
    UpstreamOfFewer(step.seed.edges, {x} + Unrecorded(step.before, step.seed, x.pkg), step.changed);
    hide Step.IsSeeded, IsDecided, Upstream, Unrecorded, SeedLabels;
  }

  /** A label above changed ones is above one of them. */
  lemma AboveOneLabel(edges: Edges, changed: set<Label>, l: Label) returns (x: Label)
    requires l in Upstream(edges, changed)
    ensures x in changed && l in Upstream(edges, {x})
  {
    var chain: seq<Label> :|
      |chain| >= 2 && chain[0] in changed && chain[|chain| - 1] == l && Climbs(edges, chain);
    x := chain[0];
    assert chain[0] in {x};
  }

  lemma MisjudgedCarriedIsDroppedWhenPruned(hasher: Hasher, pattern: Pattern, percent: nat, step: Step, loaded: Graph, l: Label)
    returns (x: Label)
    requires IsMergedRun(hasher, pattern, percent, step, loaded) && l in Misjudged(step) && l !in AllRules(step.after)
    ensures DropsPruned(hasher, pattern, percent, step.before, step.seed, x, l)
  {
    hide Step.IsSeeded, IsDecided, CanLoad, IsFullSeed, Selects, Matching, SeedLabels, Upstream, Unrecorded, LabelsIn,
         Step.DirtyLabels;
    CarriedNeedsTargets(hasher, pattern, percent, step, loaded, l);
    SeededIsTold(step);
    UnlistedIsSame(step, l);
    DirtyLabelsAreInside(step, l);
    assert l in Upstream(step.seed.edges, step.changed);
    x := AboveOneLabel(step.seed.edges, step.changed, l);
    PrunedStarIsSmaller(step, x);
    UpstreamOfFewer(step.seed.edges, {x}, {x} + Unrecorded(step.before, step.seed, x.pkg));
    SeedLabelsExist(step, x);
    SameCarried(step, l);
    assert l in PrunedStarOf(step.before, step.seed, x);
    hide PrunedStarOf, Step.Star;
    SubsetIsSmaller(step.seed.targetHashes.Keys * PrunedStarOf(step.before, step.seed, x), step.seed.targetHashes.Keys * step.Star());
  }

  lemma SeedLabelsExist(step: Step, x: Label)
    requires step.IsSeeded() && x in SeedLabels(step.seed)
    ensures x in step.before
  {
  }

  lemma SameCarried(step: Step, l: Label)
    requires SameTarget(step.before, step.after, l) && l in Misjudged(step) && l !in AllRules(step.after)
    ensures l in step.before && l !in AllRules(step.before) && OnlyOutside(step.pattern, l, step.before[l])
  {
    hide Selects, Step.ScopeAfter;
  }

  // ---------- Sufficient ----------

  /** A new file in the package of x, which no label names. */
  function NewFile(x: Label, n: nat): Path {
    x.pkg + seq(n + 1, _ => "")
  }

  ghost predicate NamesAreShort(graph: Graph, n: nat) {
    forall l | l in graph :: |l.pkg| + |l.name| < n
  }

  lemma {:induction false} LengthsAreBounded(labels: set<Label>) returns (n: nat)
    ensures forall l | l in labels :: |l.pkg| + |l.name| < n
    decreases labels
  {
    if labels == {} {
      n := 0;
    } else {
      var l :| l in labels;
      var others := LengthsAreBounded(labels - {l});
      n := others + |l.pkg| + |l.name| + 1;
    }
  }

  lemma NewFileIsNotNamed(graph: Graph, x: Label, n: nat, l: Label)
    requires NamesAreShort(graph, n) && l in graph
    ensures FileOf(l) != NewFile(x, n) && LabelToPath(l) != NewFile(x, n)
  {
    assert |NewFile(x, n)| > n;
  }

  /** Only x is altered, and a run pruned by a probe that loads everything looks at its package. */
  ghost function AlteringStep(hasher: Hasher, pattern: Pattern, graph: Graph, seed: Seed, x: Label, n: nat): Step
    requires x in graph && WellFormed(AlteredGraph(graph, x))
  {
    var after, diff := AlteredGraph(graph, x), map[NewFile(x, n) := "A"];
    Step(hasher, pattern, graph, after, seed, {x.pkg}, {}, diff, ExternalSeedHashes(seed, {x.pkg}),
         ChangedTargets(LabelsIn(SeedLabels(seed), {x.pkg}), seed, ProbeOf(hasher, after, seed, {x.pkg}), diff))
  }

  /** What x does not reach hashes over the probe's seeds as before. */
  lemma {:induction false} UnreachedHashHolds(hasher: Hasher, graph: Graph, matching: set<Label>, seed: Seed, x: Label,
                                              changed: set<Label>, z: Label)
    requires ValidSeed(hasher, graph, matching, seed) && x in graph && WellFormed(AlteredGraph(graph, x)) && x in changed
    requires z in SeedLabels(seed) && z in graph && z !in Visited(seed.edges, changed)
    ensures SeededHash(hasher, AlteredGraph(graph, x), ExternalSeedHashes(seed, {x.pkg}), z) == HashOf(hasher, graph, z)
    decreases Rank(graph, z)
  {
    hide Upstream, Combine, SeedLabels, FullHashes, Acyclic, ExternalSeedHashes, Altered;
    var after, seeds := AlteredGraph(graph, x), ExternalSeedHashes(seed, {x.pkg});
    assert z != x && after[z] == graph[z];
    if z in seeds {
      ExternalSeedIsTrue(hasher, graph, matching, seed, {x.pkg}, z);
    } else {
      forall d | d in Deps(graph[z])
        ensures d in graph && SeededHash(hasher, after, seeds, d) == HashOf(hasher, graph, d)
      {
        DependencyOfUnvisited(seed, graph, changed, z, d);
        RankDecreases(graph, z, d);
        UnreachedHashHolds(hasher, graph, matching, seed, x, changed, d);
      }
      assert DepHashes(hasher, after, seeds, z) == DepHashes(hasher, graph, map[], z);
    }
  }

  lemma ExternalSeedIsTrue(hasher: Hasher, graph: Graph, matching: set<Label>, seed: Seed, packages: set<Path>, z: Label)
    requires ValidSeed(hasher, graph, matching, seed) && z in ExternalSeedHashes(seed, packages)
    ensures z in graph && ExternalSeedHashes(seed, packages)[z] == HashOf(hasher, graph, z)
  {
    hide HashOf, Acyclic, Closed;
  }

  /** What the probe finds of a label of the package. */
  lemma ProbedHash(hasher: Hasher, graph: Graph, seed: Seed, pkg: Path, y: Label)
    requires WellFormed(graph) && y in graph && y.repo == "" && y.pkg == pkg
    ensures var probe := ProbeOf(hasher, graph, seed, {pkg});
            && (y in probe.sourceFiles <==> graph[y].SourceFile?)
            && y in probe.hashes && probe.hashes[y] == SeededHash(hasher, graph, ExternalSeedHashes(seed, {pkg}), y)
  {
    hide SeededHash, WellFormed;
  }

  lemma AlteredIsChanged(hasher: Hasher, pattern: Pattern, graph: Graph, seed: Seed, x: Label, n: nat)
    requires Injective(hasher) && ValidSeed(hasher, graph, Matching(pattern, graph), seed)
    requires x in graph && x.repo == "" && x in SeedLabels(seed) && WellFormed(AlteredGraph(graph, x))
    ensures x in AlteringStep(hasher, pattern, graph, seed, x, n).changed
  {
    hide Matching, SeedLabels, Injective, Acyclic, Closed, AccurateEdges, FullHashes, Combine, Altered, ProbeOf;
    var after, seeds := AlteredGraph(graph, x), ExternalSeedHashes(seed, {x.pkg});
    ProbedHash(hasher, after, seed, x.pkg, x);
    assert after[x].Rule? by {
      AlteredIsRule(graph[x]);
    }
    assert x !in seeds;
    AlteredCombinesDifferently(hasher, x, graph[x], DepHashes(hasher, graph, map[], x), DepHashes(hasher, after, seeds, x));
    if SeedHash(seed, x).Some? {
      SeedHashIsTrue(hasher, graph, Matching(pattern, graph), seed, x);
    }
  }

  lemma AlteredIsRule(target: Target)
    ensures Altered(target).Rule?
  {
  }

  lemma UnrecordedCounts(hasher: Hasher, pattern: Pattern, graph: Graph, seed: Seed, x: Label, n: nat, y: Label)
    requires x in graph && WellFormed(AlteredGraph(graph, x)) && y in Unrecorded(graph, seed, x.pkg)
    ensures y in AlteringStep(hasher, pattern, graph, seed, x, n).changed
  {
    hide SeedLabels, WellFormed, SeedHash, NewFile;
    ProbedHash(hasher, AlteredGraph(graph, x), seed, x.pkg, y);
  }

  /** Everything else that is not above x or an unrecorded label counts as unchanged. */
  lemma OthersAreUnchanged(hasher: Hasher, pattern: Pattern, graph: Graph, seed: Seed, x: Label, n: nat, y: Label)
    requires ValidSeed(hasher, graph, Matching(pattern, graph), seed) && NamesAreShort(graph, n)
    requires x in graph && x.repo == "" && WellFormed(AlteredGraph(graph, x))
    requires y in LabelsIn(SeedLabels(seed), {x.pkg})
    requires y !in Visited(seed.edges, {x} + Unrecorded(graph, seed, x.pkg))
    ensures y !in AlteringStep(hasher, pattern, graph, seed, x, n).changed
  {
    hide Matching, SeedLabels, Acyclic, Closed, FullHashes, HashOf, SeededHash, Altered, ProbeOf, Upstream, NewFile, LabelToPath;
    var after := AlteredGraph(graph, x);
    assert y in graph && y != x && after[y] == graph[y];
    ProbedHash(hasher, after, seed, x.pkg, y);
    if graph[y].SourceFile? {
      NewFileIsNotNamed(graph, x, n, y);
    } else {
      assert y !in Unrecorded(graph, seed, x.pkg);
      UnreachedHashHolds(hasher, graph, Matching(pattern, graph), seed, x, {x} + Unrecorded(graph, seed, x.pkg), y);
      SeedHashIsTrue(hasher, graph, Matching(pattern, graph), seed, y);
    }
  }

  lemma SameUpstream(edges: Edges, few: set<Label>, many: set<Label>)
    requires few <= many <= Visited(edges, few)
    ensures Upstream(edges, few) == Upstream(edges, many)
  {
    UpstreamOfFewer(edges, few, many);
    forall l, dep | HasEdge(edges, l, dep) && dep in many + Upstream(edges, few)
      ensures l in Upstream(edges, few)
    {
      UpstreamStep(edges, few, dep, l);
    }
    ClosedSetHoldsUpstream(edges, many, Upstream(edges, few));
  }

  lemma StarOfAlteringStep(hasher: Hasher, pattern: Pattern, graph: Graph, seed: Seed, x: Label, n: nat)
    requires Injective(hasher) && ValidSeed(hasher, graph, Matching(pattern, graph), seed) && NamesAreShort(graph, n)
    requires x in graph && x.repo == "" && x in SeedLabels(seed) && WellFormed(AlteredGraph(graph, x))
    ensures AlteringStep(hasher, pattern, graph, seed, x, n).Star() == PrunedStarOf(graph, seed, x)
  {
    var step, few := AlteringStep(hasher, pattern, graph, seed, x, n), {x} + Unrecorded(graph, seed, x.pkg);
    assert step.changed <= LabelsIn(SeedLabels(seed), {x.pkg});
    hide ValidSeed, AlteringStep, SeedLabels, Upstream, Unrecorded, Matching, Injective, WellFormed, AlteredGraph, LabelsIn;
    AlteredIsChanged(hasher, pattern, graph, seed, x, n);
    forall y | y in Unrecorded(graph, seed, x.pkg)
      ensures y in step.changed
    {
      UnrecordedCounts(hasher, pattern, graph, seed, x, n, y);
    }
    forall y | y in step.changed
      ensures y in Visited(seed.edges, few)
    {
      if y !in Visited(seed.edges, few) {
        OthersAreUnchanged(hasher, pattern, graph, seed, x, n, y);
      }
    }
    SameUpstream(seed.edges, few, step.changed);
    assert step.DirtyLabels() == LabelsIn(SeedLabels(seed), {x.pkg}) && step.seed == seed by {
      AlteringStepIs(hasher, pattern, graph, seed, x, n);
    }
  }

  lemma AlteringStepIs(hasher: Hasher, pattern: Pattern, graph: Graph, seed: Seed, x: Label, n: nat)
    requires x in graph && WellFormed(AlteredGraph(graph, x))
    ensures var step := AlteringStep(hasher, pattern, graph, seed, x, n);
            && step.DirtyLabels() == LabelsIn(SeedLabels(seed), {x.pkg}) && step.seed == seed
            && step.Relisted() == {x.pkg} && step.hasher == hasher && step.pattern == pattern
            && step.before == graph && step.after == AlteredGraph(graph, x) && step.dirty == {x.pkg}
  {
  }

  lemma AlteringTransition(graph: Graph, x: Label, changedFiles: map<Path, string>)
    requires WellFormed(graph) && x in graph && x.repo == ""
    ensures WellFormed(AlteredGraph(graph, x)) && Transition(graph, AlteredGraph(graph, x), {x.pkg}, {}, changedFiles)
  {
    hide WellFormed;
    AlteredGraphIsWellFormed(graph, x);
  }

  lemma NoFileIsNew(graph: Graph, seed: Seed, x: Label, n: nat)
    requires NamesAreShort(graph, n) && x in graph
    ensures FilesAreFound(seed, AlteredGraph(graph, x), map[NewFile(x, n) := "A"])
  {
    hide NewFile, LabelToPath, FileOf, Altered, SeedLabels, NamesAreShort;
    forall l | l in AlteredGraph(graph, x)
      ensures FileOf(l) != NewFile(x, n)
    {
      NewFileIsNotNamed(graph, x, n, l);
    }
  }

  lemma AlteringStepIsSeeded(hasher: Hasher, pattern: Pattern, graph: Graph, seed: Seed, x: Label, n: nat)
    requires Injective(hasher) && ValidSeed(hasher, graph, Matching(pattern, graph), seed) && NamesAreShort(graph, n)
    requires x in graph && x.repo == "" && WellFormed(AlteredGraph(graph, x))
    ensures AlteringStep(hasher, pattern, graph, seed, x, n).IsSeeded()
    ensures IsDecided(AlteringStep(hasher, pattern, graph, seed, x, n))
  {
    assert WellFormed(graph);
    hide Matching, ValidSeed, Injective, AlteredGraph, WellFormed, NewFile, NamesAreShort, FilesAreFound, IsProbe, ProbeOf,
         Transition, Justified, ChangedTargets, ExternalSeedHashes, SeedLabels, LabelsIn;
    var step := AlteringStep(hasher, pattern, graph, seed, x, n);
    var none: set<Path> := {};
    assert {x.pkg} - none == {x.pkg} == step.Relisted();
    AlteringTransition(graph, x, step.changedFiles);
    NoFileIsNew(graph, seed, x, n);
    var probe := ProbeOf(hasher, step.after, seed, {x.pkg});
    ProbeOfIsProbe(hasher, step.after, seed, {x.pkg});
    ProbeJustifies(hasher, graph, step.after, Matching(pattern, graph), seed, {x.pkg}, none, step.changedFiles, probe);
    assert step.changed == ChangedTargets(step.DirtyLabels(), seed, probe, step.changedFiles);
    assert step.changed <= step.DirtyLabels() by {
      SomeAreChanged(step.DirtyLabels(), seed, probe, step.changedFiles);
    }
  }

  lemma SomeAreChanged(dirty: set<Label>, seed: Seed, probe: ProbeResult, changedFiles: map<Path, string>)
    ensures ChangedTargets(dirty, seed, probe, changedFiles) <= dirty
  {
  }

  lemma OutsideLabelIsAbove(graph: Graph, seed: Seed, x: Label, l: Label)
    requires l in PrunedStarOf(graph, seed, x) && l.pkg != x.pkg
    ensures l in seed.edges
  {
    hide SeedLabels;
  }

  /** A pruned run drops such a target. */
  lemma CarriedTargetIsDroppedWhenPruned(hasher: Hasher, pattern: Pattern, percent: nat, graph: Graph, seed: Seed, x: Label, l: Label)
    returns (step: Step, loaded: Graph)
    requires Injective(hasher) && DropsPruned(hasher, pattern, percent, graph, seed, x, l)
    ensures IsMergedRun(hasher, pattern, percent, step, loaded) && l in Misjudged(step) && l !in AllRules(step.after)
  {
    hide Matching, IsFullSeed, Injective, ValidSeed, Selects, SeedLabels, Altered, PrunedStarOf, WellFormed, NamesAreShort,
         AlteringStep, Step.IsSeeded, IsDecided, Step.Star, Matches, Step.DirtyLabels, Step.Relisted;
    FullSeedIsTrue(hasher, pattern, graph, seed);
    assert WellFormed(graph) by {
      SeedIsOfGraph(hasher, graph, Matching(pattern, graph), seed);
    }
    var n := LengthsAreBounded(graph.Keys);
    assert NamesAreShort(graph, n) by {
      ShortNames(graph, n);
    }
    AlteringTransition(graph, x, map[]);
    step, loaded := AlteringStep(hasher, pattern, graph, seed, x, n), AlteredGraph(graph, x);
    AlteringStepIs(hasher, pattern, graph, seed, x, n);
    AlteringStepIsSeeded(hasher, pattern, graph, seed, x, n);
    StarOfAlteringStep(hasher, pattern, graph, seed, x, n);
    OutsideLabelIsAbove(graph, seed, x, l);
    MatchesExist(pattern, loaded, step.ScopeAfter());
    assert x.pkg in step.Relisted();
    assert l in step.ScopeAfter();
  }

  lemma ShortNames(graph: Graph, n: nat)
    requires forall l | l in graph.Keys :: |l.pkg| + |l.name| < n
    ensures NamesAreShort(graph, n)
  {
  }

  lemma SeedIsOfGraph(hasher: Hasher, graph: Graph, matching: set<Label>, seed: Seed)
    requires ValidSeed(hasher, graph, matching, seed)
    ensures WellFormed(graph)
  {
  }

  // ---------- Exactly ----------

  /** A carried target is misjudged by some run that merges, pruned or not, exactly when there are such targets. */
  lemma CarriedIsMisjudgedIff(hasher: Hasher, pattern: Pattern, percent: nat)
    requires Injective(hasher)
    ensures (exists step, loaded, l ::
               IsMergedRun(hasher, pattern, percent, step, loaded) && l in Misjudged(step) && l !in AllRules(step.after))
            <==> (exists graph, seed, x, l :: DropsPruned(hasher, pattern, percent, graph, seed, x, l))
  {
    hide IsMergedRun, Misjudged, DropsPruned, Injective, AllRules;
    if step: Step, loaded, l :|
      IsMergedRun(hasher, pattern, percent, step, loaded) && l in Misjudged(step) && l !in AllRules(step.after)
    {
      var x := MisjudgedCarriedIsDroppedWhenPruned(hasher, pattern, percent, step, loaded, l);
      assert DropsPruned(hasher, pattern, percent, step.before, step.seed, x, l);
    }
    if graph, seed, x, l :| DropsPruned(hasher, pattern, percent, graph, seed, x, l) {
      var step, loaded := CarriedTargetIsDroppedWhenPruned(hasher, pattern, percent, graph, seed, x, l);
    }
  }

  /**
   Exactly when every run that gets as far as its merge, pruned or not, gives the full
   run's hashes: there is no graph in which the pattern rejects a rule because of
   the universe beside a matching target with dependencies, and none in which it
   would drop a carried target with few enough others to recompute.
   */
  lemma RunsMergeExactlyIff(hasher: Hasher, pattern: Pattern, percent: nat)
    requires Injective(hasher)
    ensures (forall step, loaded | IsMergedRun(hasher, pattern, percent, step, loaded) ::
               WellFormed(step.after) && MergesExactly(step, loaded))
            <==> (forall graph, l, m :: !RejectsRule(pattern, graph, l, m))
                 && (forall graph, seed, x, l :: !DropsPruned(hasher, pattern, percent, graph, seed, x, l))
  {
    hide RejectsRule, DropsPruned, Injective, AllRules, MergesExactly, Misjudged, Step.IsSeeded, CanLoad, IsMergedRun,
         WellFormed;
    if graph, l, m :| RejectsRule(pattern, graph, l, m) {
      var step, loaded := RejectedRuleIsHashed(hasher, pattern, percent, graph, l, m);
      MergedRunIff(hasher, pattern, percent, step, loaded);
    } else if graph, seed, x, l :| DropsPruned(hasher, pattern, percent, graph, seed, x, l) {
      var step, loaded := CarriedTargetIsDroppedWhenPruned(hasher, pattern, percent, graph, seed, x, l);
      MergedRunIff(hasher, pattern, percent, step, loaded);
    } else {
      forall step, loaded | IsMergedRun(hasher, pattern, percent, step, loaded)
        ensures CanLoad(step, loaded) && WellFormed(step.after) && MergesExactly(step, loaded)
      {
        MergedRunIff(hasher, pattern, percent, step, loaded);
        if l :| l in Misjudged(step) {
          if l in AllRules(step.after) {
            var m := MisjudgedRuleIsRejected(hasher, pattern, percent, step, loaded, l);
          } else {
            var x := MisjudgedCarriedIsDroppedWhenPruned(hasher, pattern, percent, step, loaded, l);
          }
          assert false;
        }
      }
    }
  }

  // ---------- On the pattern alone ----------

  /**
   The pattern drops a target that is not a rule of the main repository, and selects
   more rules than the limit needs beside that target and its dependencies.
   */
  ghost predicate DropsAmong(pattern: Pattern, percent: nat, l: Label, target: Target, rules: set<Label>) {
    && OnlyOutside(pattern, l, target) && l !in Deps(target) && Deps(target) != {} && !(l.repo == "" && target.Rule?)
    && rules !! Deps(target) + {l}
    && (forall k | k in rules :: k.repo == "" && Selects(pattern, k, Rule("", []), true))
    && (|Deps(target)| + 2) * 100 < |rules| * percent
  }

  /** The target, its dependencies, all of which depend on x, and the other rules. */
  function AmongGraph(l: Label, target: Target, x: Label, rules: set<Label>): Graph {
    map k | k in {l, x} + Deps(target) + rules ::
      if k == l then target else if k in Deps(target) then Rule("", [x]) else Rule("", [])
  }

  ghost predicate IsApart(l: Label, target: Target, x: Label, rules: set<Label>) {
    && x.repo == "" && forall k | k in {l} + Deps(target) + rules :: k.pkg != x.pkg
  }

  /** What the graph looks like from x up. */
  ghost predicate IsAmong(graph: Graph, l: Label, target: Target, x: Label) {
    && l in graph && graph[l] == target && Deps(target) <= graph.Keys && x in graph
    && (forall k | k in graph && k != l :: graph[k].Rule? && Deps(graph[k]) == if k in Deps(target) then {x} else {})
    && (forall k | k in graph && k.pkg == x.pkg :: k == x) && x.repo == ""
  }

  lemma AmongGraphIs(l: Label, target: Target, x: Label, rules: set<Label>)
    requires l !in Deps(target) && IsApart(l, target, x, rules)
    ensures IsAmong(AmongGraph(l, target, x, rules), l, target, x)
    ensures x !in Deps(target) && x != l
  {
    assert [x][0] == x && Deps(Rule("", [x])) == {x} && Deps(Rule("", [])) == {};
    var others := Deps(target);
    hide Deps;
    assert forall k | k in {l} + others + rules :: k.pkg != x.pkg;
  }

  lemma AmongIsWellFormed(graph: Graph, l: Label, target: Target, x: Label)
    requires IsAmong(graph, l, target, x) && l !in Deps(target) && x !in Deps(target) && x != l
    ensures WellFormed(graph)
  {
    hide Deps;
    assert IsRanking(graph, map k | k in graph :: if k == l then 2 else if k in Deps(target) then 1 else 0);
  }

  lemma RuleMatches(pattern: Pattern, graph: Graph, k: Label)
    requires k in graph && k.repo == "" && graph[k] == Rule("", []) && Selects(pattern, k, Rule("", []), true)
    ensures k in Matching(pattern, graph)
  {
    MatchingIsLocal(pattern, graph, AllRules(graph), k);
  }

  lemma OutsideTargetMatches(pattern: Pattern, graph: Graph, l: Label)
    requires l in graph && !(l.repo == "" && graph[l].Rule?) && OnlyOutside(pattern, l, graph[l])
    ensures l !in AllRules(graph) && l in Matching(pattern, graph)
  {
    MatchingIsLocal(pattern, graph, AllRules(graph), l);
  }

  lemma AmongRules(l: Label, target: Target, x: Label, rules: set<Label>, k: Label)
    requires k in rules && rules !! Deps(target) + {l}
    ensures k in AmongGraph(l, target, x, rules) && AmongGraph(l, target, x, rules)[k] == Rule("", [])
  {
    hide Deps;
  }

  lemma AmongMatches(pattern: Pattern, percent: nat, l: Label, target: Target, rules: set<Label>, x: Label)
    requires DropsAmong(pattern, percent, l, target, rules) && IsAmong(AmongGraph(l, target, x, rules), l, target, x)
    ensures rules + {l} <= Matching(pattern, AmongGraph(l, target, x, rules))
    ensures l !in AllRules(AmongGraph(l, target, x, rules))
  {
    hide Selects, Deps, AmongGraph, Matching, AllRules;
    var graph := AmongGraph(l, target, x, rules);
    OutsideTargetMatches(pattern, graph, l);
    forall k | k in rules
      ensures k in Matching(pattern, graph)
    {
      AmongRules(l, target, x, rules, k);
      RuleMatches(pattern, graph, k);
    }
  }

  /** Only the target and its dependencies are above x. */
  lemma StarAmong(seed: Seed, graph: Graph, l: Label, target: Target, x: Label)
    requires IsAmong(graph, l, target, x) && l !in Deps(target) && Deps(target) != {}
    requires AccurateEdges(seed, graph) && l in SeedLabels(seed)
    ensures x in SeedLabels(seed) && l in StarOf(seed, x.pkg)
    ensures StarOf(seed, x.pkg) <= {l, x} + Deps(target)
  {
    hide SeedLabels, Upstream, Deps, HasEdge;
    assert SeedLabels(seed) <= graph.Keys;
    var d :| d in Deps(target);
    LeadsDown(seed, graph, l, d);
    LeadsDown(seed, graph, d, x);
    var dirty := LabelsIn(SeedLabels(seed), {x.pkg});
    assert dirty == {x};
    hide LabelsIn, AccurateEdges;
    UpstreamStep(seed.edges, dirty, x, d);
    UpstreamStep(seed.edges, dirty, d, l);
    forall k, dep | HasEdge(seed.edges, k, dep) && dep in dirty + ({l} + Deps(target))
      ensures k in {l} + Deps(target)
    {
      EdgeIsReal(seed, graph, k, dep);
    }
    ClosedSetHoldsUpstream(seed.edges, dirty, {l} + Deps(target));
  }

  lemma TrueSeedHolds(hasher: Hasher, graph: Graph, matching: set<Label>, seed: Seed, l: Label)
    requires ValidSeed(hasher, graph, matching, seed) && l in matching
    ensures AccurateEdges(seed, graph) && l in SeedLabels(seed) && l in seed.targetHashes
    ensures seed.targetHashes.Keys == matching
  {
    hide HashOf, Acyclic, Closed;
  }

  lemma LeadsDown(seed: Seed, graph: Graph, k: Label, dep: Label)
    requires AccurateEdges(seed, graph) && k in SeedLabels(seed) && k in graph && dep in Deps(graph[k])
    ensures HasEdge(seed.edges, k, dep) && dep in SeedLabels(seed)
  {
    assert dep in EdgeSet(seed.edges, k);
  }

  lemma EdgeIsReal(seed: Seed, graph: Graph, k: Label, dep: Label)
    requires AccurateEdges(seed, graph) && HasEdge(seed.edges, k, dep)
    ensures k in graph && dep in Deps(graph[k])
  {
    assert k in SeedLabels(seed) && dep in EdgeSet(seed.edges, k);
  }

  /** Such a pattern fails: an unpruned run drops the target. */
  lemma DropsAmongGoesWrong(hasher: Hasher, pattern: Pattern, percent: nat, l: Label, target: Target, rules: set<Label>)
    returns (step: Step, loaded: Graph)
    requires Injective(hasher) && DropsAmong(pattern, percent, l, target, rules)
    ensures IsMergedRun(hasher, pattern, percent, step, loaded) && step.changed == step.DirtyLabels()
    ensures WellFormed(step.after) && !MergesExactly(step, loaded)
  {
    hide Injective, Selects, Matching, IsFullSeed, ValidSeed, WellFormed, AmongGraph, SeedLabels, StarOf, IsMergedRun, Misjudged,
         MergesExactly, AllRules, AccurateEdges, Deps;
    var n := PackagesAreBounded({l} + Deps(target) + rules);
    var x := Label("", seq(n, _ => ""), []);
    var graph := AmongGraph(l, target, x, rules);
    AmongGraphIs(l, target, x, rules);
    AmongIsWellFormed(graph, l, target, x);
    AmongMatches(pattern, percent, l, target, rules, x);
    var seed := FullSeedExists(hasher, pattern, graph);
    FullSeedIsTrue(hasher, pattern, graph, seed);
    TrueSeedHolds(hasher, graph, Matching(pattern, graph), seed, l);
    StarAmong(seed, graph, l, target, x);
    FewAreDirty(seed.targetHashes.Keys, StarOf(seed, x.pkg), {l, x}, Deps(target), rules, percent);
    assert |seed.targetHashes| == |seed.targetHashes.Keys|;
    assert DropsCarried(hasher, pattern, percent, graph, seed, x.pkg, l);
    step, loaded := CarriedTargetIsDropped(hasher, pattern, percent, graph, seed, x.pkg, l);
    MergedRunIff(hasher, pattern, percent, step, loaded);
  }

  lemma FewAreDirty(hashed: set<Label>, star: set<Label>, two: set<Label>, deps: set<Label>, rules: set<Label>, percent: nat)
    requires rules <= hashed && star <= two + deps && |two| <= 2 && (|deps| + 2) * 100 < |rules| * percent
    ensures |hashed * star| * 100 < |hashed| * percent
  {
    SubsetIsSmaller(rules, hashed);
    SubsetIsSmaller(hashed * star, two + deps);
    assert |two + deps| <= |two| + |deps|;
    ProductGrows(|rules|, |hashed|, percent);
  }

  lemma ProductGrows(few: nat, many: nat, percent: nat)
    requires few <= many
    ensures few * percent <= many * percent
  {
  }
}
