/**
 Why pruning the dirty set is sound although the probe may have read outdated
 seed hashes (pkg/dirty_set.go:301-432, hash-persister/hash-persister.go:462-581).
 */
module Pruning {
  import opened Wrappers
  import opened Workspace
  import opened Propagation
  import opened Hashing
  import opened Revisions
  import opened DirtySet

  // ---------- Seeds ----------

  function SeedLabels(seed: Seed): set<Label> {
    AllLabels(seed.edges, seed.targetHashes.Keys)
  }

  function EdgeSet(edges: Edges, l: Label): set<Label> {
    if l in edges then set d | d in edges[l] else {}
  }

  ghost function FullHashes(hasher: Hasher, graph: Graph, matching: set<Label>): map<Label, Hash>
    requires WellFormed(graph) && matching <= graph.Keys
  {
    map l | l in matching :: HashOf(hasher, graph, l)
  }

  /** Every label the edge map knows exists, with exactly the recorded dependencies. */
  ghost predicate AccurateEdges(seed: Seed, graph: Graph) {
    forall l | l in SeedLabels(seed) :: l in graph && EdgeSet(seed.edges, l) == Deps(graph[l])
  }

  /** A seed that tells the truth about a revision whose target pattern selects `matching`. */
  ghost predicate ValidSeed(hasher: Hasher, graph: Graph, matching: set<Label>, seed: Seed) {
    && WellFormed(graph) && matching <= graph.Keys
    && AccurateEdges(seed, graph)
    && seed.targetHashes == FullHashes(hasher, graph, matching)
    && (forall l | l in seed.dependencyHashes ::
          l in SeedLabels(seed) && seed.dependencyHashes[l] == HashOf(hasher, graph, l))
  }

  /** Nothing in the seed is wrong, but edges may be missing. */
  ghost predicate TellsTruth(hasher: Hasher, graph: Graph, matching: set<Label>, seed: Seed) {
    && WellFormed(graph) && matching <= graph.Keys && SeedLabels(seed) <= graph.Keys
    && (forall l, dep | HasEdge(seed.edges, l, dep) :: l in graph && dep in Deps(graph[l]))
    && seed.targetHashes == FullHashes(hasher, graph, matching)
    && (forall l | l in seed.dependencyHashes ::
          l in SeedLabels(seed) && seed.dependencyHashes[l] == HashOf(hasher, graph, l))
  }

  lemma ValidSeedTellsTruth(hasher: Hasher, graph: Graph, matching: set<Label>, seed: Seed)
    requires ValidSeed(hasher, graph, matching, seed)
    ensures TellsTruth(hasher, graph, matching, seed)
  {
    hide Acyclic, FullHashes, HashOf, Deps;
    forall l, dep | HasEdge(seed.edges, l, dep)
      ensures l in graph && dep in Deps(graph[l])
    {
      assert l in SeedLabels(seed) && dep in EdgeSet(seed.edges, l);
    }
  }

  lemma SeedHashIsTrue(hasher: Hasher, graph: Graph, matching: set<Label>, seed: Seed, l: Label)
    requires ValidSeed(hasher, graph, matching, seed) && SeedHash(seed, l).Some?
    ensures l in SeedLabels(seed) && SeedHash(seed, l).value == HashOf(hasher, graph, l)
  {
  }

  // ---------- The probe ----------

  /** Hashes recorded for labels that `skip` does not hold; a dependency hash overwrites a target hash. */
  function HashesExcept(seed: Seed, skip: Label -> bool): map<Label, Hash> {
    (map l | l in seed.targetHashes && !skip(l) :: seed.targetHashes[l])
    + (map l | l in seed.dependencyHashes && !skip(l) :: seed.dependencyHashes[l])
  }

  /**
   Seeds of the probe: everything outside the re-listed packages, with the
   repository ignored. Labels of removed packages stay in, outdated or not.
   */
  function ExternalSeedHashes(seed: Seed, packages: set<Path>): map<Label, Hash> {
    HashesExcept(seed, (l: Label) => l.pkg in packages)
  }

  /** Fills the map one source after the other, as the persister does. */
  method BuildExternalSeedHashes(seed: Seed, packages: set<Path>) returns (hashes: map<Label, Hash>)
    ensures hashes == ExternalSeedHashes(seed, packages)
    ensures forall l :: l in hashes <==> l.pkg !in packages && (l in seed.targetHashes || l in seed.dependencyHashes)
    ensures forall l | l in hashes ::
              hashes[l] == if l in seed.dependencyHashes then seed.dependencyHashes[l] else seed.targetHashes[l]
  {
    var skip := (l: Label) => l.pkg in packages;
    hashes := AddReusable(map[], seed.targetHashes, skip);
    hashes := AddReusable(hashes, seed.dependencyHashes, skip);
  }

  method AddReusable(start: map<Label, Hash>, source: map<Label, Hash>, skip: Label -> bool)
    returns (hashes: map<Label, Hash>)
    ensures hashes == start + map l | l in source && !skip(l) :: source[l]
  {
    hashes := start;
    var rest := source.Keys;
    while rest != {}
      invariant rest <= source.Keys
      invariant hashes == start + map l | l in source && l !in rest && !skip(l) :: source[l]
      decreases rest
    {
      var l :| l in rest;
      rest := rest - {l};
      if !skip(l) {
        hashes := hashes[l := source[l]];
      }
    }
  }

  /** Targets of the main repository in the given packages. */
  function TargetsIn(graph: Graph, packages: set<Path>): set<Label> {
    set l | l in graph && l.repo == "" && l.pkg in packages
  }

  /**
   A probe of `packages` at the target revision: it loads their targets with all
   dependencies, and its cache ends up with the seeds and the hashes it computed.
   */
  ghost predicate IsProbe(hasher: Hasher, graph: Graph, seed: Seed, packages: set<Path>, probe: ProbeResult) {
    exists loaded: Graph, computed: set<Label> :: ProbeLoads(hasher, graph, seed, packages, probe, loaded, computed)
  }

  ghost predicate ProbeLoads(hasher: Hasher, graph: Graph, seed: Seed, packages: set<Path>, probe: ProbeResult,
                             loaded: Graph, computed: set<Label>)
  {
    var seeds := ExternalSeedHashes(seed, packages);
    && WellFormed(loaded) && PartOf(loaded, graph) && TargetsIn(graph, packages) <= loaded.Keys
    && TargetsIn(graph, packages) - seeds.Keys <= computed <= loaded.Keys
    && probe.sourceFiles == (set l | l in loaded && loaded[l].SourceFile?)
    && probe.hashes == seeds + map l | l in computed :: SeededHash(hasher, loaded, seeds, l)
  }

  /** The probe that loads the whole graph and hashes every target of the packages. */
  ghost function ProbeOf(hasher: Hasher, graph: Graph, seed: Seed, packages: set<Path>): ProbeResult
    requires WellFormed(graph)
  {
    var seeds := ExternalSeedHashes(seed, packages);
    ProbeResult(seeds + map l | l in TargetsIn(graph, packages) :: SeededHash(hasher, graph, seeds, l),
                set l | l in graph && graph[l].SourceFile?)
  }

  lemma ProbeOfIsProbe(hasher: Hasher, graph: Graph, seed: Seed, packages: set<Path>)
    requires WellFormed(graph)
    ensures IsProbe(hasher, graph, seed, packages, ProbeOf(hasher, graph, seed, packages))
  {
    hide WellFormed, SeededHash, ExternalSeedHashes;
    assert ProbeLoads(hasher, graph, seed, packages, ProbeOf(hasher, graph, seed, packages), graph, TargetsIn(graph, packages));
  }

  /** Why each label of a dirty package that is not in `changed` counts as unchanged. */
  ghost predicate Justified(hasher: Hasher, before: Graph, after: Graph, seed: Seed, dirty: set<Path>,
                            changedFiles: map<Path, string>, probeSeeds: map<Label, Hash>, changed: set<Label>)
    requires WellFormed(before) && WellFormed(after) && SeedLabels(seed) <= before.Keys
  {
    forall l | l in SeedLabels(seed) && l in after && l.repo == "" && l.pkg in dirty && l !in changed ::
      if after[l].SourceFile? then FileOf(l) !in changedFiles
      else l !in probeSeeds && SeededHash(hasher, after, probeSeeds, l) == HashOf(hasher, before, l)
  }

  /** Of every changed source file with a seed label, the path read off the label is in the diff. */
  ghost predicate FilesAreFound(seed: Seed, after: Graph, changedFiles: map<Path, string>) {
    forall l | l in SeedLabels(seed) && l in after && l.repo == "" && after[l].SourceFile? && FileOf(l) in changedFiles ::
      LabelToPath(l) in changedFiles
  }

  /**
   Changed files are found, whatever the seed and the target graph, exactly if no
   changed file is named like its directory, unless the directory's own path is in
   the diff as well.
   */
  lemma FilesAreFoundIff(changedFiles: map<Path, string>)
    ensures (forall seed, after :: FilesAreFound(seed, after, changedFiles))
            <==> (forall f | f in changedFiles && IsNamedLikeItsDirectory(f) :: Dir(f) in changedFiles)
  {
    if forall f | f in changedFiles && IsNamedLikeItsDirectory(f) :: Dir(f) in changedFiles {
      forall l | FileOf(l) in changedFiles
        ensures LabelToPath(l) in changedFiles
      {
        MisreadIffNamedLikeDirectory(l);
      }
    } else {
      var f :| f in changedFiles && IsNamedLikeItsDirectory(f) && Dir(f) !in changedFiles;
      var l := Label("", Dir(f), [f[|f| - 1]]);
      assert FileOf(l) == f && IsAbbreviated(l);
      var seed, after: Graph := Seed(map[l := EmptyHash], map[], map[]), map[l := SourceFile(None)];
      assert l in SeedLabels(seed);
      assert !FilesAreFound(seed, after, changedFiles);
    }
  }

  /** What `findChangedTargets` leaves out is justified by the diff or by the probe, if changed files are found. */
  lemma ProbeJustifies(hasher: Hasher, before: Graph, after: Graph, matching: set<Label>, seed: Seed,
                       dirty: set<Path>, removed: set<Path>, changedFiles: map<Path, string>, probe: ProbeResult)
    requires Transition(before, after, dirty, removed, changedFiles) && ValidSeed(hasher, before, matching, seed)
    requires IsProbe(hasher, after, seed, dirty - removed, probe) && FilesAreFound(seed, after, changedFiles)
    ensures Justified(hasher, before, after, seed, dirty, changedFiles, ExternalSeedHashes(seed, dirty - removed),
                      ChangedTargets(LabelsIn(SeedLabels(seed), dirty), seed, probe, changedFiles))
  {
    var packages, seeds := dirty - removed, ExternalSeedHashes(seed, dirty - removed);
    var loaded, computed :| ProbeLoads(hasher, after, seed, packages, probe, loaded, computed);
    var changed := ChangedTargets(LabelsIn(SeedLabels(seed), dirty), seed, probe, changedFiles);
    forall l | l in SeedLabels(seed) && l in after && l.repo == "" && l.pkg in dirty && l !in changed
      ensures if after[l].SourceFile? then FileOf(l) !in changedFiles
              else l !in seeds && SeededHash(hasher, after, seeds, l) == HashOf(hasher, before, l)
    {
      assert l in TargetsIn(after, packages);
      assert !IsChanged(l, seed, probe, changedFiles);
      if !after[l].SourceFile? {
        SeedHashIsTrue(hasher, before, matching, seed, l);
        PartHashesAgree(hasher, loaded, after, seeds, l);
      }
    }
  }

  /** Taking every dirty label as changed needs no justification. */
  lemma UnprunedIsJustified(hasher: Hasher, before: Graph, after: Graph, seed: Seed, dirty: set<Path>,
                            changedFiles: map<Path, string>)
    requires WellFormed(before) && WellFormed(after) && SeedLabels(seed) <= before.Keys
    ensures Justified(hasher, before, after, seed, dirty, changedFiles, map[], LabelsIn(SeedLabels(seed), dirty))
  {
  }

  // ---------- Soundness ----------

  /** A dependency of a label that was not traversed was not traversed either. */
  lemma DependencyOfUnvisited(seed: Seed, before: Graph, changed: set<Label>, l: Label, d: Label)
    requires AccurateEdges(seed, before) && l in SeedLabels(seed) && d in Deps(before[l])
    requires l !in Visited(seed.edges, changed)
    ensures d in SeedLabels(seed) && d !in Visited(seed.edges, changed)
  {
    assert d in EdgeSet(seed.edges, l);
    assert HasEdge(seed.edges, l, d);
    if d in Visited(seed.edges, changed) {
      UpstreamStep(seed.edges, changed, d, l);
    }
  }

  /** Two definitions of a label that hash alike whatever their common dependencies hash to. */
  ghost predicate Interchangeable(hasher: Hasher, l: Label, t: Target, u: Target) {
    && Deps(t) == Deps(u)
    && forall hashes: map<Label, Hash> | hashes.Keys == Deps(t) :: Combine(hasher, l, t, hashes) == Combine(hasher, l, u, hashes)
  }

  /**
   The definitions of an untraversed label are interchangeable: a clean label and
   an unchanged file have not changed at all, and for a dirty label whose probe
   hash equals its seed hash this follows from injectivity, whatever hashes the
   probe used for the dependencies.
   */
  lemma UnvisitedIsInterchangeable(
    hasher: Hasher, before: Graph, after: Graph, matching: set<Label>, seed: Seed,
    dirty: set<Path>, removed: set<Path>, changedFiles: map<Path, string>,
    probeSeeds: map<Label, Hash>, changed: set<Label>, l: Label)
    requires Injective(hasher)
    requires Transition(before, after, dirty, removed, changedFiles) && ValidSeed(hasher, before, matching, seed)
    requires Justified(hasher, before, after, seed, dirty, changedFiles, probeSeeds, changed)
    requires l in SeedLabels(seed) && l in after && l !in changed
    ensures Interchangeable(hasher, l, before[l], after[l])
  {
    hide Acyclic, Closed, FullHashes, Injective, SeedLabels, EdgeSet;
    if l.repo != "" || l.pkg !in dirty {
      assert SameTarget(before, after, l);
    } else if after[l].Rule? || after[l].GeneratedFile? {
      EqualHashesMeanEqualInputs(hasher, l, after[l], before[l],
                                 DepHashes(hasher, after, probeSeeds, l), DepHashes(hasher, before, map[], l));
    }
  }

  lemma SameDependencies(hasher: Hasher, l: Label, t: Target, u: Target)
    requires Interchangeable(hasher, l, t, u)
    ensures Deps(t) == Deps(u)
  {
  }

  /**
   Pruning is sound despite stale probe inputs: a label that exists at the target
   and was not traversed has the same hash at both revisions. The induction is
   over the target graph, where every dependency exists.
   */
  lemma {:induction false} UnvisitedHashesAgree(
    hasher: Hasher, before: Graph, after: Graph, matching: set<Label>, seed: Seed,
    dirty: set<Path>, removed: set<Path>, changedFiles: map<Path, string>,
    probeSeeds: map<Label, Hash>, changed: set<Label>, l: Label)
    requires Injective(hasher)
    requires Transition(before, after, dirty, removed, changedFiles) && ValidSeed(hasher, before, matching, seed)
    requires Justified(hasher, before, after, seed, dirty, changedFiles, probeSeeds, changed)
    requires l in SeedLabels(seed) && l in after && l !in Visited(seed.edges, changed)
    ensures HashOf(hasher, before, l) == HashOf(hasher, after, l)
    decreases Rank(after, l)
  {
    hide Justified, Upstream, Combine, Injective, Interchangeable, SeededHash, HashOf, SeedLabels, FullHashes, Acyclic;
    UnvisitedIsInterchangeable(hasher, before, after, matching, seed, dirty, removed, changedFiles, probeSeeds, changed, l);
    SameDependencies(hasher, l, before[l], after[l]);
    forall d | d in Deps(after[l])
      ensures d in before && HashOf(hasher, before, d) == HashOf(hasher, after, d)
    {
      DependencyOfUnvisited(seed, before, changed, l, d);
      RankDecreases(after, l, d);
      UnvisitedHashesAgree(hasher, before, after, matching, seed, dirty, removed, changedFiles, probeSeeds, changed, d);
    }
    InterchangeableHashesAgree(hasher, before, after, l);
  }

  lemma InterchangeableHashesAgree(hasher: Hasher, before: Graph, after: Graph, l: Label)
    requires WellFormed(before) && WellFormed(after) && l in before && l in after
    requires Interchangeable(hasher, l, before[l], after[l])
    requires forall d | d in Deps(after[l]) :: d in before && HashOf(hasher, before, d) == HashOf(hasher, after, d)
    ensures HashOf(hasher, before, l) == HashOf(hasher, after, l)
  {
    hide Combine, Deps, Acyclic;
    assert DepHashes(hasher, before, map[], l) == DepHashes(hasher, after, map[], l);
  }
}
