/**
 The steps that a seeded run brings as far as its merge
 (hash-persister/hash-persister.go:225-378): validation accepts the seed, something
 is affected, and the recomputation limit is not reached. The seed is the output
 of a full run, and the labels taken as changed are all dirty ones or what a probe
 found.
 */
module MergedRuns {
  import opened Workspace
  import opened Propagation
  import opened Hashing
  import opened DirtySet
  import opened Pruning
  import opened TargetPatterns
  import opened Incremental
  import opened Chain
  import opened SeededRun

  // ---------- What a full run persists ----------

  /** The label is a matching target or below one. */
  ghost predicate IsBelow(graph: Graph, matching: set<Label>, l: Label) {
    exists chain: seq<Label> ::
      chain != [] && chain[0] in matching && DescendsFrom(graph, chain) && chain[|chain| - 1] == l
  }

  /** The output of a full run, which loads only what is at or below a matching target. */
  ghost predicate IsFullSeed(hasher: Hasher, pattern: Pattern, graph: Graph, seed: Seed) {
    exists link: Link | link.Full? && link.graph == graph && IsLink(hasher, pattern, link) ::
      && seed == OutputOf(hasher, pattern, link)
      && forall l | l in link.loaded :: IsBelow(graph, Matching(pattern, graph), l)
  }

  lemma FullSeedIsTrue(hasher: Hasher, pattern: Pattern, graph: Graph, seed: Seed)
    requires IsFullSeed(hasher, pattern, graph, seed)
    ensures ValidSeed(hasher, graph, Matching(pattern, graph), seed)
    ensures forall l | l in seed.edges :: IsBelow(graph, Matching(pattern, graph), l) && EdgeSet(seed.edges, l) != {}
  {
    var link: Link :| link.Full? && link.graph == graph && IsLink(hasher, pattern, link)
                      && seed == OutputOf(hasher, pattern, link)
                      && forall l | l in link.loaded :: IsBelow(graph, Matching(pattern, graph), l);
    FullRunGivesValidSeed(hasher, graph, Matching(pattern, graph), link.loaded, link.edges, link.sourceFiles, link.computed);
    hide IsBelow, Matching, ValidSeed, WellFormed, TableIsTrue;
  }

  /** What a full run loads. */
  ghost function PartBelow(graph: Graph, matching: set<Label>): Graph {
    map l | l in graph && IsBelow(graph, matching, l) :: graph[l]
  }

  lemma DependenciesAreBelow(graph: Graph, matching: set<Label>, l: Label, d: Label)
    requires l in graph && IsBelow(graph, matching, l) && d in Deps(graph[l])
    ensures IsBelow(graph, matching, d)
  {
    var chain: seq<Label> :|
      chain != [] && chain[0] in matching && DescendsFrom(graph, chain) && chain[|chain| - 1] == l;
    var longer := chain + [d];
    assert forall i | 0 < i < |longer| :: DependsOn(graph, longer[i - 1], longer[i]);
    assert longer[0] in matching && longer[|longer| - 1] == d;
  }

  lemma PartBelowIsWellFormed(graph: Graph, matching: set<Label>)
    requires WellFormed(graph) && matching <= graph.Keys
    ensures WellFormed(PartBelow(graph, matching)) && matching <= PartBelow(graph, matching).Keys
    ensures PartOf(PartBelow(graph, matching), graph)
  {
    var part := PartBelow(graph, matching);
    forall l, d | l in part && d in Deps(part[l])
      ensures d in part
    {
      DependenciesAreBelow(graph, matching, l, d);
    }
    var rank :| IsRanking(graph, rank);
    assert IsRanking(part, rank);
    forall l | l in matching
      ensures IsBelow(graph, matching, l)
    {
      assert [l][0] in matching && DescendsFrom(graph, [l]);
    }
  }

  function ListedDeps(target: Target): seq<Label> {
    match target
    case Rule(_, inputs) => inputs
    case GeneratedFile(rule) => [rule]
    case _ => []
  }

  lemma ListedDepsAreDeps(target: Target)
    ensures (set d | d in ListedDeps(target)) == Deps(target)
    ensures ListedDeps(target) != [] <==> Deps(target) != {}
  {
    if ListedDeps(target) != [] {
      assert ListedDeps(target)[0] in Deps(target);
    }
  }

  function EdgesOf(graph: Graph): Edges {
    map k | k in graph && ListedDeps(graph[k]) != [] :: ListedDeps(graph[k])
  }

  lemma EdgesOfIsEdgeMap(graph: Graph)
    ensures IsEdgeMap(EdgesOf(graph), graph)
  {
    forall k | k in graph
      ensures (set d | d in ListedDeps(graph[k])) == Deps(graph[k])
      ensures ListedDeps(graph[k]) != [] <==> Deps(graph[k]) != {}
    {
      ListedDepsAreDeps(graph[k]);
    }
    hide ListedDeps, Deps;
  }

  lemma FullSeedExists(hasher: Hasher, pattern: Pattern, graph: Graph) returns (seed: Seed)
    requires WellFormed(graph)
    ensures IsFullSeed(hasher, pattern, graph, seed)
  {
    hide IsBelow, Matching, IsEdgeMap, WellFormed;
    MatchingExists(pattern, graph);
    var matching := Matching(pattern, graph);
    PartBelowIsWellFormed(graph, matching);
    var loaded := PartBelow(graph, matching);
    EdgesOfIsEdgeMap(loaded);
    var computed := map l | l in loaded :: HashOf(hasher, graph, l);
    var link := Full(graph, loaded, EdgesOf(loaded), (set l | l in loaded && loaded[l].SourceFile?), computed);
    assert TableIsTrue(hasher, graph, computed);
    hide EdgesOf;
    assert IsLink(hasher, pattern, link);
    seed := OutputOf(hasher, pattern, link);
  }

  // ---------- Merged runs ----------

  /** The seed is accepted, and not too many of its targets are dirty*. */
  predicate MayMerge(seed: Seed, star: set<Label>, percent: nat) {
    && seed.edges != map[]
    && !ShouldFallbackForRecomputation(|seed.targetHashes.Keys * star|, |seed.targetHashes|, percent)
  }

  /** A step that ends in a merge, with what was loaded for it. */
  ghost predicate IsMergedRun(hasher: Hasher, pattern: Pattern, percent: nat, step: Step, loaded: Graph) {
    && step.hasher == hasher && step.pattern == pattern && step.IsSeeded() && IsDecided(step) && CanLoad(step, loaded)
    && IsFullSeed(hasher, pattern, step.before, step.seed) && MayMerge(step.seed, step.Star(), percent)
    && (step.Relisted() != {} || step.Star() != {})
  }

  /** Above a label with dependencies there is a target with dependencies, or it is one itself. */
  lemma DependentTargetAbove(graph: Graph, matching: set<Label>, l: Label) returns (m: Label)
    requires IsBelow(graph, matching, l) && l in graph && Deps(graph[l]) != {}
    ensures m in matching && m in graph && Deps(graph[m]) != {}
  {
    hide Deps;
    var chain: seq<Label> :|
      chain != [] && chain[0] in matching && DescendsFrom(graph, chain) && chain[|chain| - 1] == l;
    m := chain[0];
    if |chain| > 1 {
      assert DependsOn(graph, chain[0], chain[1]);
    }
  }

  lemma EdgesAreDependencies(hasher: Hasher, graph: Graph, matching: set<Label>, seed: Seed, l: Label)
    requires ValidSeed(hasher, graph, matching, seed) && l in seed.edges && EdgeSet(seed.edges, l) != {}
    ensures l in graph && Deps(graph[l]) != {}
  {
    hide Acyclic, FullHashes, Deps, HashOf, EdgeSet;
    assert l in SeedLabels(seed);
  }

  /** An accepted seed has a target with dependencies. */
  lemma FullSeedHasDependentTarget(hasher: Hasher, pattern: Pattern, graph: Graph, seed: Seed) returns (m: Label)
    requires IsFullSeed(hasher, pattern, graph, seed) && seed.edges != map[]
    ensures m in Matching(pattern, graph) && m in graph && Deps(graph[m]) != {}
  {
    hide IsFullSeed, Matching, ValidSeed, Deps, IsBelow, EdgeSet;
    FullSeedIsTrue(hasher, pattern, graph, seed);
    var l :| l in seed.edges;
    EdgesAreDependencies(hasher, graph, Matching(pattern, graph), seed, l);
    m := DependentTargetAbove(graph, Matching(pattern, graph), l);
  }

  /** The dirty* labels when one package is dirty and nothing is pruned. */
  ghost function StarOf(seed: Seed, pkg: Path): set<Label> {
    DirtyStar(LabelsIn(SeedLabels(seed), {pkg}), LabelsIn(SeedLabels(seed), {pkg}), seed.edges)
  }

  lemma StarOfPackageIsSmaller(seed: Seed, dirty: set<Path>, pkg: Path)
    requires pkg in dirty
    ensures StarOf(seed, pkg) <= DirtyStar(LabelsIn(SeedLabels(seed), dirty), LabelsIn(SeedLabels(seed), dirty), seed.edges)
  {
    hide SeedLabels, Upstream;
    var few, many := LabelsIn(SeedLabels(seed), {pkg}), LabelsIn(SeedLabels(seed), dirty);
    assert few <= many;
    PruningShrinks(many, few, seed.edges);
  }

  /** Fewer dirty* targets stay within the limit. */
  lemma FewerMayMerge(seed: Seed, few: set<Label>, many: set<Label>, percent: nat)
    requires few <= many && MayMerge(seed, many, percent)
    ensures MayMerge(seed, few, percent)
  {
    SubsetIsSmaller(seed.targetHashes.Keys * few, seed.targetHashes.Keys * many);
  }

  function LabelsNamed(packages: set<Path>, name: Path): set<Label> {
    set p | p in packages :: Label("", p, name)
  }

  lemma {:induction false} OneLabelEach(packages: set<Path>, name: Path)
    ensures |LabelsNamed(packages, name)| <= |packages|
    decreases packages
  {
    if packages != {} {
      var p :| p in packages;
      OneLabelEach(packages - {p}, name);
      assert LabelsNamed(packages, name) == LabelsNamed(packages - {p}, name) + {Label("", p, name)};
    }
  }

  function OneOf(repo: string, pkg: Path, i: nat): Label {
    Label(repo, pkg, [seq(i, _ => 'x')])
  }

  /** Labels of one package with names of different lengths. */
  function Numbered(repo: string, pkg: Path, n: nat): set<Label> {
    set i | 0 <= i < n :: OneOf(repo, pkg, i)
  }

  lemma {:induction false} NumberedAreMany(repo: string, pkg: Path, n: nat)
    ensures |Numbered(repo, pkg, n)| == n
    ensures forall l | l in Numbered(repo, pkg, n) :: l.repo == repo && l.pkg == pkg && |l.name| == 1 && |l.name[0]| < n
  {
    if n > 0 {
      NumberedAreMany(repo, pkg, n - 1);
      assert |OneOf(repo, pkg, n - 1).name[0]| == n - 1;
      assert Numbered(repo, pkg, n) == Numbered(repo, pkg, n - 1) + {OneOf(repo, pkg, n - 1)};
    }
  }

  /** With many targets, of which few are dirty*, no limit is reached. */
  lemma LimitIsFar(hashed: set<Label>, star: set<Label>, few: set<Label>, bound: nat, many: set<Label>, percent: nat)
    requires percent >= 1 && hashed * star <= few && |few| <= bound && many <= hashed && |many| >= 100 * (bound + 1)
    ensures !ShouldFallbackForRecomputation(|hashed * star|, |hashed|, percent)
  {
    SubsetIsSmaller(hashed * star, few);
    SubsetIsSmaller(many, hashed);
    assert |hashed| * percent >= |hashed|;
  }

  lemma SubsetIsSmaller<T>(small: set<T>, large: set<T>)
    requires small <= large
    ensures |small| <= |large|
  {
    var rest := large - small;
    assert large == small + rest;
  }
}
