/**
 Seedable output and chains of seeded runs (pkg/hash_persistence.go: ExtractEdges,
 ExtractDependencyHashes; hash-persister/hash-persister.go: mergePersistedData).

 The output of a seeded run is again a true seed exactly when its scoped query
 misjudges no target and its merge loses no edges. Edges are never lost without
 pruning and can be with it. A chain of runs of any kind stays true exactly as long
 as no run does either.
 */
module Chain {
  import opened Workspace
  import opened Propagation
  import opened Hashing
  import opened Revisions
  import opened DirtySet
  import opened Pruning
  import opened TargetPatterns
  import opened Incremental

  // ---------- Extraction ----------

  /** `edges` lists the direct dependencies of every target that has any. */
  ghost predicate IsEdgeMap(edges: Edges, graph: Graph) {
    && (forall l :: l in edges <==> l in graph && Deps(graph[l]) != {})
    && (forall l | l in edges :: (set d | d in edges[l]) == Deps(graph[l]))
  }

  /** The dependencies of one target, each once. */
  method DependenciesOf(target: Target) returns (deps: seq<Label>)
    ensures (set d | d in deps) == Deps(target)
    ensures forall i, j | 0 <= i < j < |deps| :: deps[i] != deps[j]
  {
    var raw := match target
      case Rule(_, inputs) => inputs
      case GeneratedFile(rule) => [rule]
      case _ => [];
    deps := [];
    for i := 0 to |raw|
      invariant forall d :: d in deps <==> d in raw[..i]
      invariant forall i, j | 0 <= i < j < |deps| :: deps[i] != deps[j]
    {
      if raw[i] !in deps {
        deps := deps + [raw[i]];
      }
      assert raw[..i + 1] == raw[..i] + [raw[i]];
    }
    assert raw[..|raw|] == raw;
    assert forall d :: d in deps <==> d in raw;
  }

  method ExtractEdges(graph: Graph) returns (edges: Edges)
    ensures IsEdgeMap(edges, graph)
    ensures forall l, i, j | l in edges && 0 <= i < j < |edges[l]| :: edges[l][i] != edges[l][j]
  {
    edges := map[];
    var rest := graph.Keys;
    while rest != {}
      invariant rest <= graph.Keys
      invariant forall l :: l in edges <==> l in graph && l !in rest && Deps(graph[l]) != {}
      invariant forall l | l in edges :: (set d | d in edges[l]) == Deps(graph[l])
      invariant forall l, i, j | l in edges && 0 <= i < j < |edges[l]| :: edges[l][i] != edges[l][j]
      decreases rest
    {
      var l :| l in rest;
      rest := rest - {l};
      var deps := DependenciesOf(graph[l]);
      if deps != [] {
        assert deps[0] in Deps(graph[l]) by {
          assert deps[0] in set d | d in deps;
        }
        edges := edges[l := deps];
      }
    }
  }

  /** Keys and values of the edge map, matching targets and source files left out. */
  function WantedDependencies(targetHashes: map<Label, Hash>, edges: Edges, sourceFiles: set<Label>): set<Label> {
    AllLabels(edges, {}) - targetHashes.Keys - sourceFiles
  }

  /** The full-size hashes that a finished table holds for the wanted labels. */
  function DependencyHashesOf(wanted: set<Label>, computed: map<Label, Hash>): map<Label, Hash> {
    map l | l in computed && l in wanted && computed[l].Sha256? :: computed[l]
  }

  method ExtractDependencyHashes(targetHashes: map<Label, Hash>, edges: Edges, sourceFiles: set<Label>,
                                 computed: map<Label, Hash>)
    returns (hashes: map<Label, Hash>)
    ensures hashes == DependencyHashesOf(WantedDependencies(targetHashes, edges, sourceFiles), computed)
    ensures forall l :: l in hashes <==>
              && l in computed && computed[l].Sha256? && l !in targetHashes && l !in sourceFiles
              && (l in edges || exists from :: from in edges && l in edges[from])
    ensures forall l | l in hashes :: hashes[l] == computed[l]
  {
    var all := CollectAllLabels(edges, {});
    var wanted := all - targetHashes.Keys - sourceFiles;
    hashes := map[];
    var rest := wanted;
    while rest != {}
      invariant rest <= wanted
      invariant hashes == map l | l in computed && l in wanted && l !in rest && computed[l].Sha256? :: computed[l]
      decreases rest
    {
      var l :| l in rest;
      rest := rest - {l};
      if l in computed && computed[l].Sha256? {
        hashes := hashes[l := computed[l]];
      }
    }
  }

  // ---------- A full run gives a true seed ----------

  /** A finished table holds true hashes of labels of the graph. */
  ghost predicate TableIsTrue(hasher: Hasher, graph: Graph, computed: map<Label, Hash>) {
    WellFormed(graph) && forall l | l in computed :: l in graph && computed[l] == HashOf(hasher, graph, l)
  }

  lemma FullRunGivesValidSeed(hasher: Hasher, graph: Graph, matching: set<Label>, loaded: Graph, edges: Edges,
                              sourceFiles: set<Label>, computed: map<Label, Hash>)
    requires WellFormed(graph) && WellFormed(loaded) && PartOf(loaded, graph) && matching <= loaded.Keys
    requires IsEdgeMap(edges, loaded) && TableIsTrue(hasher, graph, computed)
    ensures matching <= graph.Keys
    ensures var hashes := FullHashes(hasher, graph, matching);
            ValidSeed(hasher, graph, matching,
                      Seed(hashes, edges, DependencyHashesOf(WantedDependencies(hashes, edges, sourceFiles), computed)))
  {
    var hashes := FullHashes(hasher, graph, matching);
    var seed := Seed(hashes, edges, DependencyHashesOf(WantedDependencies(hashes, edges, sourceFiles), computed));
    forall l | l in SeedLabels(seed)
      ensures l in loaded && EdgeSet(edges, l) == Deps(graph[l])
    {
      if l !in edges && l !in matching {
        var from :| from in edges && l in edges[from];
        assert l in set d | d in edges[from];
      }
      assert loaded[l] == graph[l];
    }
  }

  // ---------- Output of a seeded run ----------

  /**
   The seedable output of a step. `computed` is the finished table, and a label
   that keeps its seed entry may name a dependency that was not loaded again.
   */
  ghost function OutputSeed(step: Step, loaded: Graph, edges: Edges, computed: map<Label, Hash>): Seed
    requires WellFormed(loaded) && Matches(step.pattern, step.after, step.ScopeAfter()) <= loaded.Keys
  {
    var hashes := Merge(step.seed.targetHashes, step.Star(), FreshHashes(step, loaded));
    var merged := Merge(step.seed.edges, step.Star(), edges);
    var sources := set l | l in loaded && loaded[l].SourceFile?;
    Seed(hashes, merged, DependencyHashesOf(WantedDependencies(hashes, merged, sources), computed))
  }

  /** The finished table of a step holds the reusable seeds and hashes computed on the loaded graph. */
  ghost predicate IsTableOf(step: Step, loaded: Graph, computed: map<Label, Hash>)
    requires WellFormed(loaded)
  {
    var seeds := ReusableHashes(step.seed, step.Star());
    forall l | l in computed ::
      (l in loaded || l in seeds) && computed[l] == SeededHash(step.hasher, loaded, seeds, l)
  }

  ghost predicate Loads(step: Step, loaded: Graph, edges: Edges, computed: map<Label, Hash>) {
    CanLoad(step, loaded) && IsEdgeMap(edges, loaded) && IsTableOf(step, loaded, computed)
  }

  /**
   The labels whose recorded edges a merge deletes although something retained
   still names them: dirty* and not loaded again. The run can compute them from the
   seed, its dirty* set and the labels it loaded, before it writes its output.
   */
  function LostLabels(seed: Seed, star: set<Label>, loaded: set<Label>): set<Label> {
    set from, l | from in seed.edges && l in seed.edges[from] && from !in star && from !in loaded
                  && l in star && l !in loaded && EdgeSet(seed.edges, l) != {} :: l
  }

  lemma RetainedEdgesAreTrue(step: Step, from: Label)
    requires step.IsSeeded() && from in SeedLabels(step.seed) && from !in step.Star()
    ensures from in step.after && EdgeSet(step.seed.edges, from) == Deps(step.after[from])
    ensures Deps(step.after[from]) <= step.after.Keys * SeedLabels(step.seed)
  {
    CleanLabelKeepsItsHash(step, from);
    assert EdgeSet(step.seed.edges, from) == Deps(step.before[from]);
  }

  /**
   What a retained entry names still has its recorded edges, dirty* or not: had it
   been traversed, the retained entry would be dirty* as well.
   */
  lemma NamedByRetained(step: Step, from: Label, l: Label)
    requires step.IsSeeded() && HasEdge(step.seed.edges, from, l) && from !in step.Star()
    ensures l in step.after && l in SeedLabels(step.seed) && EdgeSet(step.seed.edges, l) == Deps(step.after[l])
  {
    RetainedEdgesAreTrue(step, from);
    assert l in EdgeSet(step.seed.edges, from);
    if l in step.Star() {
      NamedIsUnvisited(step, from, l);
      hide Transition, Justified, Upstream, Injective, FullHashes, Matching, Acyclic, Combine, Step.Star;
      UnvisitedIsInterchangeable(step.hasher, step.before, step.after, Matching(step.pattern, step.before), step.seed,
                                 step.dirty, step.removed, step.changedFiles, step.probeSeeds, step.changed, l);
    } else {
      RetainedEdgesAreTrue(step, l);
    }
  }

  lemma NamedIsUnvisited(step: Step, from: Label, l: Label)
    requires HasEdge(step.seed.edges, from, l) && from !in step.Star()
    ensures l !in Visited(step.seed.edges, step.changed)
  {
    if l in Visited(step.seed.edges, step.changed) {
      UpstreamStep(step.seed.edges, step.changed, l, from);
    }
  }

  /** Where a label of the merged edge map comes from, and whether its edges are right there. */
  lemma MergedEdgesOf(step: Step, loaded: Graph, edges: Edges, computed: map<Label, Hash>, l: Label)
    requires step.IsSeeded() && Loads(step, loaded, edges, computed)
    requires l in loaded || (l in SeedLabels(step.seed) && l !in step.Star())
    ensures l in step.after
    ensures EdgeSet(Merge(step.seed.edges, step.Star(), edges), l) == Deps(step.after[l])
  {
    var merged := Merge(step.seed.edges, step.Star(), edges);
    if l in loaded {
      assert loaded[l] == step.after[l];
      if l !in edges && l in merged {
        RetainedEdgesAreTrue(step, l);
      }
    } else {
      RetainedEdgesAreTrue(step, l);
    }
  }

  lemma LabelsOfOutput(step: Step, loaded: Graph, edges: Edges, computed: map<Label, Hash>, l: Label)
    requires step.IsSeeded() && Loads(step, loaded, edges, computed)
    requires l in SeedLabels(OutputSeed(step, loaded, edges, computed)) && l !in LostLabels(step.seed, step.Star(), loaded.Keys)
    ensures l in step.after
    ensures EdgeSet(Merge(step.seed.edges, step.Star(), edges), l) == Deps(step.after[l])
  {
    var merged := Merge(step.seed.edges, step.Star(), edges);
    hide Transition, Justified, ValidSeed, DirtyStar;
    if l in loaded || (l in SeedLabels(step.seed) && l !in step.Star()) {
      MergedEdgesOf(step, loaded, edges, computed, l);
    } else {
      var from :| from in merged && l in merged[from];
      assert l in EdgeSet(merged, from);
      MergedEdgesOf(step, loaded, edges, computed, from);
      if from !in loaded {
        assert HasEdge(step.seed.edges, from, l);
        NamedByRetained(step, from, l);
        assert l !in merged;
      }
    }
  }

  lemma TableOfStepIsTrue(step: Step, loaded: Graph, edges: Edges, computed: map<Label, Hash>, l: Label)
    requires step.IsSeeded() && Loads(step, loaded, edges, computed) && l in computed
    ensures l in step.after && computed[l] == HashOf(step.hasher, step.after, l)
  {
    if l in loaded {
      FreshHashIsCurrent(step, loaded, l);
    } else {
      SeedsAreCurrent(step, l);
    }
  }

  lemma LostLabelSpoilsOutput(step: Step, loaded: Graph, edges: Edges, computed: map<Label, Hash>, l: Label)
    requires step.IsSeeded() && Loads(step, loaded, edges, computed) && l in LostLabels(step.seed, step.Star(), loaded.Keys)
    ensures !AccurateEdges(OutputSeed(step, loaded, edges, computed), step.after)
  {
    hide Transition, Justified, ValidSeed, DirtyStar, FreshHashes, Injective, WellFormed;
    var seed := OutputSeed(step, loaded, edges, computed);
    var from :| from in step.seed.edges && from !in step.Star() && from !in loaded && l in step.seed.edges[from];
    assert from in seed.edges && seed.edges[from] == step.seed.edges[from];
    assert HasEdge(step.seed.edges, from, l) && HasEdge(seed.edges, from, l);
    NamedByRetained(step, from, l);
    assert l in SeedLabels(seed);
    assert EdgeSet(seed.edges, l) == {};
  }

  /**
   The output of a seeded run, whatever the pattern and pruned or not, is a true
   seed exactly when the scoped query misjudges no target and the merge deletes no
   edges that a retained entry still leads to.
   */
  lemma OutputIsValidSeedIff(step: Step, loaded: Graph, edges: Edges, computed: map<Label, Hash>)
    requires step.IsSeeded() && Loads(step, loaded, edges, computed)
    ensures ValidSeed(step.hasher, step.after, Matching(step.pattern, step.after), OutputSeed(step, loaded, edges, computed))
            <==> Misjudged(step) == {} && LostLabels(step.seed, step.Star(), loaded.Keys) == {}
  {
    MergesExactlyIff(step, loaded);
    hide Step.IsSeeded, Loads, Misjudged, FreshHashes, Merge, Matching, FullHashes, WellFormed, AccurateEdges, LostLabels;
    var lost := LostLabels(step.seed, step.Star(), loaded.Keys);
    if lost != {} {
      var l :| l in lost;
      LostLabelSpoilsOutput(step, loaded, edges, computed, l);
    } else if Misjudged(step) == {} {
      LosslessOutputIsValid(step, loaded, edges, computed);
    } else {
      HashesOfOutput(step, loaded, edges, computed);
    }
  }

  lemma HashesOfOutput(step: Step, loaded: Graph, edges: Edges, computed: map<Label, Hash>)
    requires Loads(step, loaded, edges, computed)
    ensures OutputSeed(step, loaded, edges, computed).targetHashes
            == Merge(step.seed.targetHashes, step.Star(), FreshHashes(step, loaded))
  {
  }

  lemma LosslessOutputIsValid(step: Step, loaded: Graph, edges: Edges, computed: map<Label, Hash>)
    requires step.IsSeeded() && Loads(step, loaded, edges, computed)
    requires Misjudged(step) == {} && LostLabels(step.seed, step.Star(), loaded.Keys) == {}
    ensures ValidSeed(step.hasher, step.after, Matching(step.pattern, step.after), OutputSeed(step, loaded, edges, computed))
  {
    var seed := OutputSeed(step, loaded, edges, computed);
    NoneMisjudgedMergesExactly(step, loaded);
    forall l | l in SeedLabels(seed)
      ensures l in step.after && EdgeSet(seed.edges, l) == Deps(step.after[l])
    {
      LabelsOfOutput(step, loaded, edges, computed, l);
    }
    forall l | l in seed.dependencyHashes
      ensures l in SeedLabels(seed) && l in step.after
      ensures seed.dependencyHashes[l] == HashOf(step.hasher, step.after, l)
    {
      TableOfStepIsTrue(step, loaded, edges, computed, l);
    }
    assert WellFormed(step.after);
    hide Step.IsSeeded, Loads, LostLabels, Matching, FullHashes, HashOf, FreshHashes, EdgeSet, WellFormed, Merge;
  }

  /** Without pruning nothing is lost, because dirty* is closed under reverse dependencies. */
  lemma UnprunedLosesNothing(step: Step, loaded: Graph)
    requires step.changed == step.DirtyLabels()
    ensures LostLabels(step.seed, step.Star(), loaded.Keys) == {}
  {
    forall l, from | from in step.seed.edges && l in step.seed.edges[from] && l in step.Star()
      ensures from in step.Star()
    {
      assert HasEdge(step.seed.edges, from, l);
      UnprunedIsClosed(step.DirtyLabels(), step.seed.edges, from, l);
    }
  }

  predicate DependsOn(graph: Graph, l: Label, d: Label) {
    l in graph && d in Deps(graph[l])
  }

  /** `chain` follows dependencies: each label is one of those the label before it depends on. */
  ghost predicate DescendsFrom(graph: Graph, chain: seq<Label>) {
    forall i | 0 < i < |chain| :: DependsOn(graph, chain[i - 1], chain[i])
  }

  /** Every label reachable from a matching target has exactly its real edges. */
  lemma {:induction false} EdgesAgreeOnReachable(
    hasher: Hasher, graph: Graph, matching: set<Label>, seed: Seed, chain: seq<Label>, k: nat)
    requires ValidSeed(hasher, graph, matching, seed)
    requires k < |chain| && chain[0] in matching
    requires DescendsFrom(graph, chain)
    ensures chain[k] in SeedLabels(seed) && chain[k] in graph
    ensures EdgeSet(seed.edges, chain[k]) == Deps(graph[chain[k]])
    ensures chain[k] in seed.edges <== Deps(graph[chain[k]]) != {}
  {
    if k > 0 {
      EdgesAgreeOnReachable(hasher, graph, matching, seed, chain, k - 1);
      assert DependsOn(graph, chain[k - 1], chain[k]);
      assert chain[k] in EdgeSet(seed.edges, chain[k - 1]);
    }
  }

  /** A run that finds nothing affected persists its seed under the new commit, and that is a true seed as well. */
  lemma UntouchedSeedStaysValid(step: Step)
    requires step.IsSeeded() && step.Relisted() == {} && step.Star() == {}
    ensures ValidSeed(step.hasher, step.after, Matching(step.pattern, step.after), step.seed)
  {
    hide Justified, DirtyStar, Step.Star, Step.Relisted, Acyclic, FullHashes, HashOf;
    SeededIsTold(step);
    MatchingTargetsExist(step);
    UntouchedSeedIsCurrent(step);
    forall l | l in SeedLabels(step.seed)
      ensures l in step.after && EdgeSet(step.seed.edges, l) == Deps(step.after[l])
      ensures HashOf(step.hasher, step.before, l) == HashOf(step.hasher, step.after, l)
    {
      CleanLabelKeepsItsHash(step, l);
    }
  }

  // ---------- Chains ----------

  /** One seedable run: scoped, with nothing affected, or a full one, whether asked for or fallen back to. */
  datatype Link =
    | Scoped(step: Step, loaded: Graph, edges: Edges, computed: map<Label, Hash>)
    | Untouched(step: Step)
    | Full(graph: Graph, loaded: Graph, edges: Edges, sourceFiles: set<Label>, computed: map<Label, Hash>)
  {
    function After(): Graph {
      if Full? then graph else step.after
    }
  }

  /** What counts as changed: every dirty label, or what a probe over this seed found. */
  ghost predicate IsDecided(step: Step) {
    || step.changed == step.DirtyLabels()
    || (step.probeSeeds == ExternalSeedHashes(step.seed, step.Relisted())
        && exists probe ::
             && IsProbe(step.hasher, step.after, step.seed, step.Relisted(), probe)
             && step.changed == ChangedTargets(step.DirtyLabels(), step.seed, probe, step.changedFiles))
  }

  /** A seeded run, pruned or not, with everything but the truth of its seed. */
  ghost predicate Runs(hasher: Hasher, pattern: Pattern, step: Step) {
    && step.hasher == hasher && step.pattern == pattern && Injective(hasher)
    && step.removed <= step.dirty
    && Transition(step.before, step.after, step.dirty, step.removed, step.changedFiles)
    && IsDecided(step)
    && (step.changed != step.DirtyLabels() ==> FilesAreFound(step.seed, step.after, step.changedFiles))
  }

  ghost predicate IsLink(hasher: Hasher, pattern: Pattern, link: Link) {
    match link
    case Scoped(step, loaded, edges, computed) => Runs(hasher, pattern, step) && Loads(step, loaded, edges, computed)
    case Untouched(step) => Runs(hasher, pattern, step) && step.Relisted() == {} && step.Star() == {}
    case Full(graph, loaded, edges, _, computed) =>
      && WellFormed(graph) && WellFormed(loaded) && PartOf(loaded, graph) && Matching(pattern, graph) <= loaded.Keys
      && IsEdgeMap(edges, loaded) && TableIsTrue(hasher, graph, computed)
  }

  /** The seedable file that a run writes. */
  ghost function OutputOf(hasher: Hasher, pattern: Pattern, link: Link): Seed
    requires IsLink(hasher, pattern, link)
  {
    match link
    case Scoped(step, loaded, edges, computed) => OutputSeed(step, loaded, edges, computed)
    case Untouched(step) => step.seed
    case Full(graph, loaded, edges, sourceFiles, computed) =>
      var hashes := FullHashes(hasher, graph, Matching(pattern, graph));
      Seed(hashes, edges, DependencyHashesOf(WantedDependencies(hashes, edges, sourceFiles), computed))
  }

  ghost predicate IsTrueOutput(hasher: Hasher, pattern: Pattern, link: Link)
    requires IsLink(hasher, pattern, link)
  {
    ValidSeed(hasher, link.After(), Matching(pattern, link.After()), OutputOf(hasher, pattern, link))
  }

  ghost predicate IsLossless(link: Link) {
    link.Scoped? ==> LostLabels(link.step.seed, link.step.Star(), link.loaded.Keys) == {}
  }

  /** A run that loses no edges and whose scoped query misjudges no target. */
  ghost predicate IsFaithful(link: Link) {
    IsLossless(link) && (link.Scoped? ==> Misjudged(link.step) == {})
  }

  /** Each run that uses a seed uses the output of the run before it, and the first uses a true one. */
  ghost predicate IsChain(hasher: Hasher, pattern: Pattern, links: seq<Link>) {
    && (forall i | 0 <= i < |links| :: IsLink(hasher, pattern, links[i]))
    && (forall i, j | 0 <= i && j == i + 1 < |links| && !links[j].Full? ::
          links[j].step.before == links[i].After() && links[j].step.seed == OutputOf(hasher, pattern, links[i]))
    && (links != [] && !links[0].Full? ==> HasTrueSeed(hasher, pattern, links[0]))
  }

  ghost predicate HasTrueSeed(hasher: Hasher, pattern: Pattern, link: Link)
    requires !link.Full?
  {
    ValidSeed(hasher, link.step.before, Matching(pattern, link.step.before), link.step.seed)
  }

  lemma RunOnTrueSeedIsValid(hasher: Hasher, pattern: Pattern, step: Step)
    requires Runs(hasher, pattern, step)
    requires ValidSeed(hasher, step.before, Matching(pattern, step.before), step.seed)
    ensures step.IsSeeded()
  {
    hide Injective, Justified, IsProbe, ExternalSeedHashes, Matching, FullHashes, Acyclic, SeedLabels;
    if step.changed != step.DirtyLabels() {
      var probe :| IsProbe(hasher, step.after, step.seed, step.Relisted(), probe)
                   && step.changed == ChangedTargets(step.DirtyLabels(), step.seed, probe, step.changedFiles);
      ProbeJustifies(hasher, step.before, step.after, Matching(pattern, step.before), step.seed,
                     step.dirty, step.removed, step.changedFiles, probe);
    } else {
      EveryDirtyLabelIsJustified(step);
    }
  }

  lemma EveryDirtyLabelIsJustified(step: Step)
    requires WellFormed(step.before) && WellFormed(step.after) && SeedLabels(step.seed) <= step.before.Keys
    requires step.changed == step.DirtyLabels()
    ensures Justified(step.hasher, step.before, step.after, step.seed, step.dirty, step.changedFiles, step.probeSeeds, step.changed)
  {
  }

  /** A run whose seed is true writes a true seed exactly when it is faithful. */
  lemma TrueOutputIff(hasher: Hasher, pattern: Pattern, link: Link)
    requires IsLink(hasher, pattern, link) && (!link.Full? ==> HasTrueSeed(hasher, pattern, link))
    ensures IsTrueOutput(hasher, pattern, link) <==> IsFaithful(link)
  {
    hide Runs, ValidSeed, Loads, Matching, Injective, WellFormed, TableIsTrue, LostLabels, OutputSeed, Step.IsSeeded,
         Step.Star, Step.Relisted;
    match link {
      case Scoped(step, loaded, edges, computed) =>
        RunBelongs(hasher, pattern, step);
        RunOnTrueSeedIsValid(hasher, pattern, step);
        OutputIsValidSeedIff(step, loaded, edges, computed);
      case Untouched(step) =>
        RunBelongs(hasher, pattern, step);
        RunOnTrueSeedIsValid(hasher, pattern, step);
        UntouchedSeedStaysValid(step);
      case Full(graph, loaded, edges, sourceFiles, computed) =>
        FullRunGivesValidSeed(hasher, graph, Matching(pattern, graph), loaded, edges, sourceFiles, computed);
    }
  }

  lemma RunBelongs(hasher: Hasher, pattern: Pattern, step: Step)
    requires Runs(hasher, pattern, step)
    ensures step.hasher == hasher && step.pattern == pattern
  {
  }

  /** Up to the first run that is not faithful, every run has a true seed. */
  lemma {:induction false} SeedsStayTrue(hasher: Hasher, pattern: Pattern, links: seq<Link>, i: nat)
    requires IsChain(hasher, pattern, links) && i < |links|
    requires forall j | 0 <= j < i :: IsFaithful(links[j])
    ensures !links[i].Full? ==> HasTrueSeed(hasher, pattern, links[i])
  {
    hide IsLink, IsFaithful, OutputOf, ValidSeed;
    if i > 0 && !links[i].Full? {
      SeedsStayTrue(hasher, pattern, links, i - 1);
      assert IsLink(hasher, pattern, links[i - 1]) && IsFaithful(links[i - 1]);
      TrueOutputIff(hasher, pattern, links[i - 1]);
      assert links[i].step.before == links[i - 1].After();
    }
  }

  /**
   Safety over whole runs: in a chain of any length, of scoped runs with and without
   pruning, runs that find nothing affected and full runs, every output is a true
   seed, with the target hashes of a full run, if and only if no run loses edges or
   misjudges a target.
   */
  lemma ChainsStayTrueIff(hasher: Hasher, pattern: Pattern, links: seq<Link>)
    requires IsChain(hasher, pattern, links)
    ensures (forall i | 0 <= i < |links| :: IsTrueOutput(hasher, pattern, links[i]))
            <==> (forall i | 0 <= i < |links| :: IsFaithful(links[i]))
  {
    hide IsLink, IsFaithful, OutputOf, HasTrueSeed, IsTrueOutput;
    if forall i | 0 <= i < |links| :: IsFaithful(links[i]) {
      forall i | 0 <= i < |links|
        ensures IsTrueOutput(hasher, pattern, links[i])
      {
        SeedsStayTrue(hasher, pattern, links, i);
        TrueOutputIff(hasher, pattern, links[i]);
      }
    } else {
      var i := FirstLoss(links);
      SeedsStayTrue(hasher, pattern, links, i);
      TrueOutputIff(hasher, pattern, links[i]);
    }
  }

  lemma {:induction false} FirstLoss(links: seq<Link>) returns (i: nat)
    requires exists j :: 0 <= j < |links| && !IsFaithful(links[j])
    ensures i < |links| && !IsFaithful(links[i]) && forall j | 0 <= j < i :: IsFaithful(links[j])
  {
    hide IsFaithful;
    i := 0;
    while IsFaithful(links[i])
      invariant i < |links| && forall j | 0 <= j < i :: IsFaithful(links[j])
      decreases |links| - i
    {
      i := i + 1;
    }
  }

  /** For patterns that scope exactly it is enough that no run loses edges. */
  lemma {:induction false} LosslessRunsAreFaithful(hasher: Hasher, pattern: Pattern, links: seq<Link>, n: nat)
    requires IsChain(hasher, pattern, links) && ScopesExactly(pattern) && n <= |links|
    requires forall i | 0 <= i < |links| :: IsLossless(links[i])
    ensures forall i | 0 <= i < n :: IsFaithful(links[i])
  {
    hide IsLink, OutputOf, HasTrueSeed, LostLabels, ScopesExactly, Misjudged;
    if n > 0 {
      LosslessRunsAreFaithful(hasher, pattern, links, n - 1);
      SeedsStayTrue(hasher, pattern, links, n - 1);
      assert IsLink(hasher, pattern, links[n - 1]) && IsLossless(links[n - 1]);
      if links[n - 1].Scoped? {
        ScopedLinkMisjudgesNone(hasher, pattern, links[n - 1]);
      }
    }
  }

  lemma ScopedLinkMisjudgesNone(hasher: Hasher, pattern: Pattern, link: Link)
    requires link.Scoped? && IsLink(hasher, pattern, link) && HasTrueSeed(hasher, pattern, link) && ScopesExactly(pattern)
    ensures Misjudged(link.step) == {}
  {
    hide Loads, ValidSeed, Misjudged, ScopesExactly, Matching;
    RunOnTrueSeedIsValid(hasher, pattern, link.step);
    hide Runs;
    assert link.step.pattern == pattern by {
      RunBelongs(hasher, pattern, link.step);
    }
    SeededIsTold(link.step);
    ScopesExactlyMisjudgesNone(link.step);
  }

  /** And nothing is lost where nothing is pruned. */
  lemma UnprunedChainsStayTrue(hasher: Hasher, pattern: Pattern, links: seq<Link>)
    requires IsChain(hasher, pattern, links) && ScopesExactly(pattern)
    requires forall i | 0 <= i < |links| && links[i].Scoped? :: links[i].step.changed == links[i].step.DirtyLabels()
    ensures forall i | 0 <= i < |links| :: IsTrueOutput(hasher, pattern, links[i])
  {
    hide IsLink, OutputOf, IsTrueOutput, HasTrueSeed, LostLabels, ScopesExactly;
    forall i | 0 <= i < |links|
      ensures IsLossless(links[i])
    {
      if links[i].Scoped? {
        UnprunedLosesNothing(links[i].step, links[i].loaded);
      }
    }
    hide IsLossless, IsFaithful;
    LosslessRunsAreFaithful(hasher, pattern, links, |links|);
    ChainsStayTrueIff(hasher, pattern, links);
  }
}
