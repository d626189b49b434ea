/**
 What a seeded run misses in packages where its seed has no label
 (pkg/dirty_set.go:149-166, 256-296).

 A package whose BUILD file makes a target for each file it finds, and finds none,
 leaves no label in the seed. A diff that adds its first file dirties at most an
 enclosing package. `Revisions.UnknownPackagesHold` excludes this, and here it is
 shown to be needed: without it some loading of the same two trees makes a run
 persist other hashes than a full run.
 */
module UnknownPackages {
  import opened Wrappers
  import opened Workspace
  import opened Boundaries
  import opened Propagation
  import opened Hashing
  import opened Revisions
  import opened DirtySet
  import opened Pruning
  import opened TargetPatterns
  import opened Incremental
  import opened Chain
  import opened SeededRun
  import opened MergedRuns

  /** All that a run's dirty set is decided by. */
  datatype Change = Change(
    seedTree: Tree, targetTree: Tree, diff: map<Path, string>, known: set<Path>, lookup: PackageLookup)
  {
    ghost predicate Valid() {
      KnowsSome(seedTree, targetTree, diff, known, lookup)
    }

    function Dirty(): set<Path>
      requires Classify(diff, known, lookup).Ok?
    {
      DirtyPackages(diff, known, Classify(diff, known, lookup).value)
    }
  }

  /** A run over the two trees, with a full run's seed and right in every other respect. */
  ghost predicate RunsOver(change: Change, percent: nat, load: Loader, external: Graph, step: Step, loaded: Graph)
    requires change.Valid()
  {
    && Injective(step.hasher) && ScopesExactly(step.pattern)
    && GraphOfTree(change.seedTree, load, external, step.before)
    && GraphOfTree(change.targetTree, load, external, step.after)
    && SourcesStaySources(step.before, step.after, change.diff)
    && IsFullSeed(step.hasher, step.pattern, step.before, step.seed) && MayMerge(step.seed, step.Star(), percent)
    && KnownPackages(SeedLabels(step.seed)) == change.known
    && step.dirty == change.Dirty() && step.changedFiles == change.diff
    && step.removed == Classify(change.diff, change.known, change.lookup).value.removed
    && IsDecided(step) && CanLoad(step, loaded)
  }

  /** The run persists its seed if nothing is affected, and a merge otherwise. */
  ghost predicate PersistsExactly(step: Step, loaded: Graph)
    requires CanLoad(step, loaded) && WellFormed(step.after)
  {
    && Matching(step.pattern, step.after) <= step.after.Keys
    && (if step.Relisted() == {} && step.Star() == {}
        then step.seed.targetHashes == FullHashes(step.hasher, step.after, Matching(step.pattern, step.after))
        else MergesExactly(step, loaded))
  }

  // ---------- Enough ----------

  lemma RunIsTransition(change: Change, load: Loader, external: Graph, before: Graph, after: Graph)
    requires change.Valid() && UnknownPackagesHold(change.seedTree, change.targetTree, change.known, change.Dirty())
    requires GraphOfTree(change.seedTree, load, external, before) && GraphOfTree(change.targetTree, load, external, after)
    requires SourcesStaySources(before, after, change.diff)
    ensures var removed := Classify(change.diff, change.known, change.lookup).value.removed;
            removed <= change.Dirty() && Transition(before, after, change.Dirty(), removed, change.diff)
  {
    hide DirtyPackages, Classify, UnknownPackagesHold, IsDiff, LookupReads, GraphOfTree, SourcesStaySources, Transition;
    RemovedIsDirty(change.diff, change.known, Classify(change.diff, change.known, change.lookup).value);
    DiffGivesTransition(change.seedTree, change.targetTree, load, external, before, after,
                        change.diff, change.known, change.lookup);
  }

  /**
   A changed file of a known package that survives, named like the package's last
   directory: the pruner looks for the package's path in the diff instead.
   */
  ghost predicate IsMisread(change: Change, f: Path) {
    && f in change.diff && IsNamedLikeItsDirectory(f) && Dir(f) !in change.diff
    && Dir(f) in change.known && Dir(f) in Packages(change.targetTree)
  }

  ghost predicate NoneMisread(change: Change) {
    forall f :: !IsMisread(change, f)
  }

  lemma RunFindsFiles(change: Change, load: Loader, external: Graph, after: Graph, seed: Seed)
    requires NoneMisread(change) && KnownPackages(SeedLabels(seed)) == change.known
    requires GraphOfTree(change.targetTree, load, external, after)
    ensures FilesAreFound(seed, after, change.diff)
  {
    hide Packages, View, WellFormed, SeedLabels;
    forall l | l in SeedLabels(seed) && l in after && l.repo == "" && FileOf(l) in change.diff
      ensures LabelToPath(l) in change.diff
    {
      MisreadIffNamedLikeDirectory(l);
      assert l.pkg in change.known && l.pkg in Packages(change.targetTree);
      assert !IsMisread(change, FileOf(l));
    }
  }

  lemma RunIsValid(change: Change, percent: nat, load: Loader, external: Graph, step: Step, loaded: Graph)
    requires change.Valid() && RunsOver(change, percent, load, external, step, loaded)
    requires UnknownPackagesHold(change.seedTree, change.targetTree, change.known, change.Dirty())
    requires step.changed == step.DirtyLabels() || NoneMisread(change)
    ensures step.Valid()
  {
    hide CanLoad, IsDecided, IsFullSeed, ScopesExactly, DirtyPackages, Classify, UnknownPackagesHold, KnowsSome, Injective,
         GraphOfTree, SourcesStaySources, Matching, Step.Star, KnownPackages, SeedLabels, Transition, ValidSeed, Change.Valid,
         MayMerge, Step.IsSeeded, Step.DirtyLabels, NoneMisread, FilesAreFound;
    RunIsTransition(change, load, external, step.before, step.after);
    FullSeedIsTrue(step.hasher, step.pattern, step.before, step.seed);
    if step.changed != step.DirtyLabels() {
      RunFindsFiles(change, load, external, step.after, step.seed);
    }
    RunOnTrueSeedIsValid(step.hasher, step.pattern, step);
  }

  lemma ValidRunPersistsExactly(step: Step, loaded: Graph)
    requires step.Valid() && CanLoad(step, loaded)
    ensures WellFormed(step.after) && PersistsExactly(step, loaded)
  {
    hide Step.IsSeeded, ScopesExactly, WellFormed, Matching, Step.Star, Step.Relisted, MergesExactly, Misjudged;
    SeededIsTold(step);
    MatchingTargetsExist(step);
    if step.Relisted() == {} && step.Star() == {} {
      UntouchedSeedIsCurrent(step);
    } else {
      SeededIsTold(step);
      ScopesExactlyMisjudgesNone(step);
      MergesExactlyIff(step, loaded);
    }
  }

  // ---------- A loading that goes wrong ----------

  const BASE := Label("r", [], [])

  /** External targets, each of which depends on the base. */
  function Tops(n: nat): set<Label> {
    Numbered("r", [], n)
  }

  function Leaf(pkg: Path): Label {
    Label("", pkg, ["leaf"])
  }

  function Leaves(packages: set<Path>): set<Label> {
    LabelsNamed(packages, ["leaf"])
  }

  function New(pkg: Path): Label {
    Label("", pkg, ["new"])
  }

  /** Every known package has one leaf, and one other package a new target when it looks as given. */
  function LoaderOf(known: set<Path>, pkg: Path, view: PackageView): Loader {
    (p: Path, v: PackageView) =>
      if p in known then map[["leaf"] := Rule("", [])]
      else if p == pkg && v == view then map[["new"] := Rule("", [])]
      else map[]
  }

  function MainLabels(tree: Tree, known: set<Path>, pkg: Path, view: PackageView): set<Label> {
    Leaves(known * Packages(tree)) + if pkg in Packages(tree) && View(tree, pkg) == view then {New(pkg)} else {}
  }

  function GraphWith(main: set<Label>, n: nat): Graph {
    map l | l in main + Tops(n) + {BASE} :: if l in Tops(n) then Rule("", [BASE]) else Rule("", [])
  }

  lemma TopsAreExternal(n: nat)
    ensures BASE !in Tops(n) && forall l | l in Tops(n) :: l.repo == "r"
  {
    hide Numbered;
    NumberedAreMany("r", [], n);
  }

  lemma GraphWithIsWellFormed(main: set<Label>, n: nat)
    requires forall l | l in main :: l.repo == ""
    ensures WellFormed(GraphWith(main, n))
    ensures forall l | l in GraphWith(main, n) ::
              GraphWith(main, n)[l].Rule? && Deps(GraphWith(main, n)[l]) == if l in Tops(n) then {BASE} else {}
    ensures BASE !in Tops(n) && forall l | l in Tops(n) :: l.repo == "r"
  {
    hide Tops;
    TopsAreExternal(n);
    var graph := GraphWith(main, n);
    assert [BASE][0] == BASE && Deps(Rule("", [BASE])) == {BASE} && Deps(Rule("", [])) == {};
    assert IsRanking(graph, map l | l in graph :: if l in Tops(n) then 1 else 0);
  }

  /** At the seed revision the other package looks different. */
  lemma OnlyLeavesAtSeed(tree: Tree, known: set<Path>, pkg: Path, view: PackageView)
    requires known <= Packages(tree) && View(tree, pkg) != view
    ensures MainLabels(tree, known, pkg, view) == Leaves(known)
  {
    hide View, Packages, Leaves;
    assert known * Packages(tree) == known;
  }

  lemma MainLabelIsLoaded(tree: Tree, known: set<Path>, pkg: Path, view: PackageView, l: Label)
    requires pkg !in known && l.repo == ""
    ensures var load := LoaderOf(known, pkg, view);
            && (l in MainLabels(tree, known, pkg, view) <==>
                l.pkg in Packages(tree) && l.name in load(l.pkg, View(tree, l.pkg)))
            && (l in MainLabels(tree, known, pkg, view) ==> load(l.pkg, View(tree, l.pkg))[l.name] == Rule("", []))
  {
    hide View, Packages;
    assert l in Leaves(known * Packages(tree)) <==> l == Leaf(l.pkg) && l.pkg in known * Packages(tree);
  }

  lemma GraphIsOfTree(tree: Tree, known: set<Path>, pkg: Path, view: PackageView, n: nat)
    requires pkg !in known
    ensures GraphOfTree(tree, LoaderOf(known, pkg, view), GraphWith({}, n), GraphWith(MainLabels(tree, known, pkg, view), n))
  {
    hide View, Packages, WellFormed, LoaderOf;
    var main, load := MainLabels(tree, known, pkg, view), LoaderOf(known, pkg, view);
    GraphWithIsWellFormed(main, n);
    GraphWithIsWellFormed({}, n);
    var graph := GraphWith(main, n);
    forall l: Label | l.repo == ""
      ensures l in graph <==> l.pkg in Packages(tree) && l.name in load(l.pkg, View(tree, l.pkg))
      ensures l in graph ==> graph[l] == load(l.pkg, View(tree, l.pkg))[l.name]
    {
      MainLabelIsLoaded(tree, known, pkg, view, l);
    }
    hide MainLabels;
  }

  function IsExternal(): Label -> bool {
    (l: Label) => l.repo == "r"
  }

  /** As `//... + @r//...`. */
  function Targets(): Pattern {
    Union(Everything, Named(IsExternal()))
  }

  lemma TargetsSelect(l: Label, target: Target, inUniverse: bool)
    ensures Selects(Targets(), l, target, inUniverse) <==> inUniverse || l.repo == "r"
  {
    assert Selects(Named(IsExternal()), l, target, inUniverse) <==> l.repo == "r";
  }

  lemma TargetsScopeExactly()
    ensures ScopesExactly(Targets())
  {
    forall l, target | IsExposed(l, target)
      ensures Selects(Targets(), l, target, false) ==> Selects(Targets(), l, target, true)
    {
      TargetsSelect(l, target, false);
      TargetsSelect(l, target, true);
    }
  }

  lemma EverythingMatches(main: set<Label>, n: nat)
    requires forall l | l in main :: l.repo == ""
    ensures Matching(Targets(), GraphWith(main, n)) == GraphWith(main, n).Keys
  {
    GraphWithIsWellFormed(main, n);
    var graph := GraphWith(main, n);
    hide Targets, Selects, WellFormed, Deps;
    forall l
      ensures l in Matching(Targets(), graph) <==> l in graph
    {
      MatchingIsLocal(Targets(), graph, AllRules(graph), l);
      if l in graph {
        TargetsSelect(l, graph[l], l in AllRules(graph));
        assert l.repo == "" || l.repo == "r";
      }
    }
  }

  /** The whole graph of the seed revision is in the seed. */
  lemma SeedHoldsGraph(hasher: Hasher, main: set<Label>, n: nat, seed: Seed)
    requires forall l | l in main :: l.repo == ""
    requires ValidSeed(hasher, GraphWith(main, n), Matching(Targets(), GraphWith(main, n)), seed)
    ensures seed.targetHashes.Keys == SeedLabels(seed) == GraphWith(main, n).Keys
  {
    EverythingMatches(main, n);
    hide Matching, Targets, HashOf, WellFormed, GraphWith, EdgeSet;
  }

  lemma OnlyEdgesToBase(hasher: Hasher, main: set<Label>, n: nat, seed: Seed)
    requires n > 0 && SeedLabels(seed) == GraphWith(main, n).Keys && AccurateEdges(seed, GraphWith(main, n))
    requires forall l | l in main :: l.repo == ""
    ensures seed.edges != map[]
    ensures forall l, dep | HasEdge(seed.edges, l, dep) :: dep == BASE
  {
    GraphWithIsWellFormed(main, n);
    hide HashOf, WellFormed, Deps;
    assert OneOf("r", [], 0) in Tops(n) && OneOf("r", [], 0) in GraphWith(main, n);
    hide GraphWith, Tops, OneOf;
    assert EdgeSet(seed.edges, OneOf("r", [], 0)) == {BASE};
    forall l, dep | HasEdge(seed.edges, l, dep)
      ensures dep == BASE
    {
      assert dep in EdgeSet(seed.edges, l);
    }
  }

  /** So only leaves are ever dirty*, and nothing is carried. */
  lemma OnlyLeavesAreDirty(step: Step, known: set<Path>, n: nat)
    requires SeedLabels(step.seed) == GraphWith(Leaves(known), n).Keys && step.changed == step.DirtyLabels()
    requires forall l, dep | HasEdge(step.seed.edges, l, dep) :: dep == BASE
    ensures step.Star() == step.DirtyLabels() <= Leaves(known)
    ensures Carried(step.Star(), step.seed, step.dirty) == {}
  {
    hide SeedLabels, Upstream;
    GraphWithIsWellFormed(Leaves(known), n);
    ClosedSetHoldsUpstream(step.seed.edges, step.changed, {});
  }

  lemma KnownInGraph(known: set<Path>, n: nat)
    ensures KnownPackages(GraphWith(Leaves(known), n).Keys) == known
  {
    GraphWithIsWellFormed(Leaves(known), n);
    hide WellFormed, Deps;
    forall pkg | pkg in known
      ensures pkg in KnownPackages(GraphWith(Leaves(known), n).Keys)
    {
      assert Leaf(pkg) in Leaves(known) && Leaf(pkg).pkg == pkg;
    }
  }

  /** With enough external targets the recomputation limit is not reached. */
  lemma LimitIsNotReached(known: set<Path>, percent: nat, hashed: set<Label>, star: set<Label>)
    requires percent >= 1 && star <= Leaves(known) && Tops(100 * (|known| + 1)) <= hashed
    ensures !ShouldFallbackForRecomputation(|hashed * star|, |hashed|, percent)
  {
    hide Numbered, LabelsNamed, ShouldFallbackForRecomputation;
    OneLabelEach(known, ["leaf"]);
    NumberedAreMany("r", [], 100 * (|known| + 1));
    LimitIsFar(hashed, star, Leaves(known), |known|, Tops(100 * (|known| + 1)), percent);
  }

  // ---------- The run ----------

  ghost function StepOf(hasher: Hasher, change: Change, before: Graph, after: Graph, seed: Seed): Step
    requires change.Valid()
  {
    Step(hasher, Targets(), before, after, seed, change.Dirty(), Classify(change.diff, change.known, change.lookup).value.removed,
         change.diff, map[], LabelsIn(SeedLabels(seed), change.Dirty()))
  }

  /** The new target is neither in the seed nor selected by the scoped query. */
  lemma NewTargetIsMissed(step: Step, loaded: Graph, pkg: Path)
    requires WellFormed(step.after) && CanLoad(step, loaded) && step.pattern == Targets()
    requires New(pkg) in AllRules(step.after) && New(pkg) !in step.seed.targetHashes && pkg !in step.dirty
    requires Carried(step.Star(), step.seed, step.dirty) == {}
    ensures !PersistsExactly(step, loaded)
  {
    var l := New(pkg);
    assert l !in step.ScopeAfter();
    hide Targets, WellFormed, Step.Star, Step.ScopeAfter, Selects, SeededHash, HashOf, Step.Relisted;
    MatchingIsLocal(step.pattern, step.after, step.ScopeAfter(), l);
    MatchingIsLocal(step.pattern, step.after, AllRules(step.after), l);
    TargetsSelect(l, step.after[l], true);
    TargetsSelect(l, step.after[l], false);
    hide Matches;
    assert l in Matching(step.pattern, step.after);
    assert l !in Merge(step.seed.targetHashes, step.Star(), FreshHashes(step, loaded));
  }

  /** A package the run knows nothing of, and does not look at, looks different at the target. */
  ghost predicate IsOverlooked(change: Change, pkg: Path)
    requires change.Valid()
  {
    && pkg in Packages(change.targetTree) && pkg !in change.known && pkg !in change.Dirty()
    && View(change.seedTree, pkg) != View(change.targetTree, pkg)
  }

  lemma SeedIsAccurate(hasher: Hasher, graph: Graph, matching: set<Label>, seed: Seed)
    requires ValidSeed(hasher, graph, matching, seed)
    ensures AccurateEdges(seed, graph)
  {
  }

  lemma GraphsAreWellFormed(known: set<Path>, tree: Tree, pkg: Path, view: PackageView, n: nat)
    requires pkg !in known && pkg in Packages(tree) && View(tree, pkg) == view
    ensures WellFormed(GraphWith(MainLabels(tree, known, pkg, view), n))
    ensures Tops(n) <= GraphWith(Leaves(known), n).Keys && New(pkg) !in GraphWith(Leaves(known), n)
    ensures New(pkg) in AllRules(GraphWith(MainLabels(tree, known, pkg, view), n))
    ensures PartOf(GraphWith(MainLabels(tree, known, pkg, view), n), GraphWith(MainLabels(tree, known, pkg, view), n))
    ensures forall l | l in GraphWith(MainLabels(tree, known, pkg, view), n) ::
              !GraphWith(MainLabels(tree, known, pkg, view), n)[l].SourceFile?
  {
    hide WellFormed, Packages, View, Deps;
    GraphWithIsWellFormed(Leaves(known), n);
    GraphWithIsWellFormed(MainLabels(tree, known, pkg, view), n);
  }

  /** The full run's seed of a graph of leaves and external targets. */
  lemma LeafSeedExists(hasher: Hasher, known: set<Path>, n: nat) returns (seed: Seed)
    requires n > 0
    ensures IsFullSeed(hasher, Targets(), GraphWith(Leaves(known), n), seed) && seed.edges != map[]
    ensures seed.targetHashes.Keys == SeedLabels(seed) == GraphWith(Leaves(known), n).Keys
    ensures KnownPackages(SeedLabels(seed)) == known
    ensures forall l, dep | HasEdge(seed.edges, l, dep) :: dep == BASE
  {
    hide IsFullSeed, Matching, ValidSeed, SeedLabels, KnownPackages, Targets, WellFormed, GraphWith, HasEdge, AccurateEdges;
    var graph := GraphWith(Leaves(known), n);
    GraphWithIsWellFormed(Leaves(known), n);
    seed := FullSeedExists(hasher, Targets(), graph);
    FullSeedIsTrue(hasher, Targets(), graph, seed);
    SeedHoldsGraph(hasher, Leaves(known), n, seed);
    SeedIsAccurate(hasher, graph, Matching(Targets(), graph), seed);
    OnlyEdgesToBase(hasher, Leaves(known), n, seed);
    KnownInGraph(known, n);
  }

  lemma OverlookedPackageIsMissed(hasher: Hasher, change: Change, percent: nat, pkg: Path)
    returns (load: Loader, external: Graph, step: Step, loaded: Graph)
    requires Injective(hasher) && percent >= 1 && change.Valid() && IsOverlooked(change, pkg)
    ensures step.hasher == hasher && RunsOver(change, percent, load, external, step, loaded)
    ensures step.changed == step.DirtyLabels()
    ensures WellFormed(step.after) && !PersistsExactly(step, loaded)
  {
    hide DirtyPackages, Classify, View, Packages, IsDiff, LookupReads, Injective, IsFullSeed, Matching, SeedLabels,
         KnownPackages, Targets, GraphOfTree, WellFormed, Matches, Step.Star, ScopesExactly, LoaderOf, GraphWith, Leaves, Tops,
         PersistsExactly, Step.ScopeAfter, ShouldFallbackForRecomputation, HasEdge, MainLabels, KnowsSome;
    assert change.known <= Packages(change.seedTree) by {
      KnownExist(change);
    }
    var known, view, n := change.known, View(change.targetTree, pkg), 100 * (|change.known| + 1);
    var before := GraphWith(MainLabels(change.seedTree, known, pkg, view), n);
    var after := GraphWith(MainLabels(change.targetTree, known, pkg, view), n);
    load, external, loaded := LoaderOf(known, pkg, view), GraphWith({}, n), after;
    GraphIsOfTree(change.seedTree, known, pkg, view, n);
    GraphIsOfTree(change.targetTree, known, pkg, view, n);
    OnlyLeavesAtSeed(change.seedTree, known, pkg, view);
    GraphsAreWellFormed(known, change.targetTree, pkg, view, n);
    var seed := LeafSeedExists(hasher, known, n);
    TargetsScopeExactly();
    step := StepOf(hasher, change, before, after, seed);
    OnlyLeavesAreDirty(step, known, n);
    LimitIsNotReached(known, percent, seed.targetHashes.Keys, step.Star());
    MatchesExist(Targets(), after, step.ScopeAfter());
    NewTargetIsMissed(step, loaded, pkg);
  }

  lemma KnownExist(change: Change)
    requires change.Valid()
    ensures change.known <= Packages(change.seedTree)
  {
  }

  /**
   Exactly which changes of two trees an unpruned run over a full run's seed handles,
   whatever is loaded from them: those that overlook no package.
   */
  lemma UnprunedRunsPersistExactlyIff(hasher: Hasher, change: Change, percent: nat)
    requires Injective(hasher) && percent >= 1 && change.Valid()
    ensures UnknownPackagesHold(change.seedTree, change.targetTree, change.known, change.Dirty())
            <==> forall load, external, step: Step, loaded
                   | step.hasher == hasher && RunsOver(change, percent, load, external, step, loaded)
                     && step.changed == step.DirtyLabels() ::
                   WellFormed(step.after) && PersistsExactly(step, loaded)
  {
    hide RunsOver, PersistsExactly, WellFormed, Injective, View, Packages, IsDiff, LookupReads, Classify, DirtyPackages,
         Step.IsSeeded, CanLoad, Step.DirtyLabels;
    if UnknownPackagesHold(change.seedTree, change.targetTree, change.known, change.Dirty()) {
      forall load, external, step: Step, loaded
        | step.hasher == hasher && RunsOver(change, percent, load, external, step, loaded) && step.changed == step.DirtyLabels()
        ensures CanLoad(step, loaded) && WellFormed(step.after) && PersistsExactly(step, loaded)
      {
        RunIsValid(change, percent, load, external, step, loaded);
        RunLoads(change, percent, load, external, step, loaded);
        ValidRunPersistsExactly(step, loaded);
      }
    } else {
      var pkg := OverlookedPackageExists(change);
      var load, external, step, loaded := OverlookedPackageIsMissed(hasher, change, percent, pkg);
    }
  }

  lemma OverlookedPackageExists(change: Change) returns (pkg: Path)
    requires change.Valid()
    requires !UnknownPackagesHold(change.seedTree, change.targetTree, change.known, change.Dirty())
    ensures IsOverlooked(change, pkg)
  {
    hide View, Packages, Classify, DirtyPackages, IsDiff, LookupReads;
    pkg :| pkg in Packages(change.targetTree) && pkg !in change.known && pkg !in change.Dirty()
           && View(change.seedTree, pkg) != View(change.targetTree, pkg);
  }

  /** There are such changes: the first file of a package whose BUILD file makes a target for each file. */
  lemma OverlookedChangeExists(build: File, file: File) returns (change: Change, pkg: Path)
    ensures change.Valid() && IsOverlooked(change, pkg)
  {
    hide View, Classify, DirtyPackages;
    pkg := ["a"];
    var buildFile, source := ["a", "BUILD"], ["a", "f"];
    change := Change(map[buildFile := build], map[buildFile := build, source := file], map[source := "A"], {}, None);
    assert buildFile[1] == "BUILD" && source[1] == "f";
    assert IsBuildFile(buildFile) && !IsBuildFile(source) && Dir(buildFile) == pkg && Dir(source) == pkg;
    NoBuildFileNoBoundary(change.diff, {}, None);
    assert buildFile in change.targetTree && pkg in Packages(change.targetTree);
    FileIsInView(change.seedTree, source);
    FileIsInView(change.targetTree, source);
  }

  lemma FileIsInView(tree: Tree, f: Path)
    requires f != []
    ensures Dir(f) in Packages(tree) ==> (f in View(tree, Dir(f)).files <==> f in tree)
    ensures f in View(tree, Dir(f)).files ==> f in tree
  {
    hide Packages;
  }

  lemma RunLoads(change: Change, percent: nat, load: Loader, external: Graph, step: Step, loaded: Graph)
    requires change.Valid() && RunsOver(change, percent, load, external, step, loaded)
    ensures CanLoad(step, loaded)
  {
  }
}
