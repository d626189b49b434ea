/**
 A chain of two seeded runs, the first of them pruned, that persists an outdated
 hash (hash-persister/hash-persister.go:703, 741-752).

 Target m depends on g, which the target pattern filters out, and g depends on x,
 each in its own package. The first revision adds n next to g, so their package is
 dirty; the probe finds g unchanged, pruning keeps m out of dirty*, and nothing in
 scope depends on g, so g's edges are deleted. The second revision changes x, which
 no longer leads to m.
 */
module PrunedChain {
  import opened Wrappers
  import opened Workspace
  import opened Propagation
  import opened Hashing
  import opened Revisions
  import opened DirtySet
  import opened Pruning
  import opened TargetPatterns
  import opened Incremental
  import opened Chain
  import opened MergedRuns
  import opened LostEdges

  datatype Layout = Layout(m: Label, g: Label, n: Label, x: Label, oldX: string, newX: string) {
    predicate Valid() {
      && m.repo == "" && g.repo == "" && n.repo == "" && x.repo == ""
      && g.pkg == n.pkg && m.pkg != g.pkg && x.pkg != g.pkg && x.pkg != m.pkg && g.name != n.name
      && oldX != newX
    }

    function SeedGraph(): Graph {
      map[m := Rule("", [g]), g := Rule("", [x]), x := Rule(oldX, [])]
    }

    function FirstGraph(): Graph {
      SeedGraph()[n := Rule("", [])]
    }

    function SecondGraph(): Graph {
      FirstGraph()[x := Rule(newX, [])]
    }

    /** As `//... - attr(tags, "manual", //...)` with g the only manual target. */
    function Targets(): Pattern {
      Filter((l: Label, target: Target) => l != g, Everything)
    }

    /** What the three graphs have in common. */
    ghost predicate HasShape(graph: Graph) {
      && {m, g, x} <= graph.Keys <= {m, g, n, x}
      && (forall l | l in graph :: graph[l].Rule?)
      && Deps(graph[m]) == {g} && Deps(graph[g]) == {x} && Deps(graph[x]) == {}
      && (n in graph ==> Deps(graph[n]) == {})
    }

    lemma GraphsHaveShape()
      requires Valid()
      ensures HasShape(SeedGraph()) && HasShape(FirstGraph()) && HasShape(SecondGraph())
    {
      assert [g][0] == g && [x][0] == x;
      assert Deps(Rule("", [g])) == {g};
      assert Deps(Rule("", [x])) == {x};
    }

    lemma ShapeIsWellFormed(graph: Graph)
      requires Valid() && HasShape(graph)
      ensures WellFormed(graph)
    {
      assert IsRanking(graph, map[m := 2, g := 1, x := 0, n := 0]);
    }

    lemma MatchingTargets(graph: Graph)
      requires Valid() && HasShape(graph)
      ensures Matching(Targets(), graph) == graph.Keys - {g}
    {
      assert AllRules(graph) == graph.Keys;
      assert Matches(Everything, graph, AllRules(graph)) == graph.Keys;
    }

    /** The seed that a full run of the seed graph persists. */
    ghost predicate IsFirstSeed(hasher: Hasher, graph: Graph, seed: Seed) {
      && Valid() && HasShape(graph) && WellFormed(graph) && n !in graph
      && seed.targetHashes == FullHashes(hasher, graph, {m, x})
      && seed.edges == map[m := [g], g := [x]]
      && seed.dependencyHashes == map[g := HashOf(hasher, graph, g)]
    }

    lemma EdgesOfFirstSeed(edges: Edges)
      requires Valid() && edges == map[m := [g], g := [x]]
      ensures AllLabels(edges, {m, x}) == {m, g, x}
      ensures EdgeSet(edges, m) == {g} && EdgeSet(edges, g) == {x} && EdgeSet(edges, x) == {}
    {
      assert edges[m] == [g] && edges[g] == [x];
      assert [g][0] == g && [x][0] == x;
      assert m in edges && g in edges;
      assert forall l | l in AllLabels(edges, {m, x}) :: l in {m, g, x};
    }

    lemma LabelsOfFirstSeed(hasher: Hasher, graph: Graph, seed: Seed)
      requires IsFirstSeed(hasher, graph, seed)
      ensures SeedLabels(seed) == {m, g, x} && AccurateEdges(seed, graph)
    {
      EdgesOfFirstSeed(seed.edges);
      hide AllLabels, EdgeSet, Deps, HashOf;
      assert seed.targetHashes.Keys == {m, x};
    }

    lemma FirstSeedIsValid(hasher: Hasher, graph: Graph, seed: Seed)
      requires IsFirstSeed(hasher, graph, seed)
      ensures ValidSeed(hasher, graph, Matching(Targets(), graph), seed)
    {
      LabelsOfFirstSeed(hasher, graph, seed);
      MatchingTargets(graph);
      assert graph.Keys - {g} == {m, x};
      hide Matching, WellFormed, HashOf, AllLabels, AccurateEdges;
    }

    // ---------- The first run, pruned ----------

    /** The first pair of revisions, of which `SeedGraph` and `FirstGraph` are an example. */
    ghost predicate AddsN(before: Graph, after: Graph) {
      && Valid() && HasShape(before) && HasShape(after) && WellFormed(before) && WellFormed(after)
      && n !in before && n in after
      && before[m] == after[m] && before[g] == after[g] && before[x] == after[x]
    }

    function FirstDiff(): map<Path, string> {
      map[g.pkg + ["BUILD"] := "M"]
    }

    ghost function FirstStep(hasher: Hasher, before: Graph, after: Graph, seed: Seed): Step {
      Step(hasher, Targets(), before, after, seed, {g.pkg}, {}, FirstDiff(), ExternalSeedHashes(seed, {g.pkg}), {})
    }

    /** The hash of g over the seeds of the probe is the recorded one. */
    lemma ProbeFindsNoChange(hasher: Hasher, before: Graph, after: Graph, seed: Seed)
      requires AddsN(before, after) && IsFirstSeed(hasher, before, seed)
      ensures SeededHash(hasher, after, ExternalSeedHashes(seed, {g.pkg}), g) == HashOf(hasher, before, g)
    {
      var seeds := ExternalSeedHashes(seed, {g.pkg});
      assert x in seeds && seeds[x] == HashOf(hasher, before, x) && g !in seeds;
      hide WellFormed, Combine, ExternalSeedHashes, FullHashes;
      assert DepHashes(hasher, after, seeds, g) == DepHashes(hasher, before, map[], g);
    }

    lemma ProbeAgreesOnG(hasher: Hasher, before: Graph, after: Graph, seed: Seed)
      requires AddsN(before, after) && IsFirstSeed(hasher, before, seed)
      ensures !IsChanged(g, seed, ProbeOf(hasher, after, seed, {g.pkg}), FirstDiff())
    {
      ProbeFindsNoChange(hasher, before, after, seed);
      assert SeedHash(seed, g) == Some(HashOf(hasher, before, g));
      hide WellFormed, SeededHash, HashOf, ExternalSeedHashes, FullHashes, FirstDiff;
    }

    /** So nothing counts as changed, although the seed never recorded n. */
    lemma ProbePrunesEverything(hasher: Hasher, before: Graph, after: Graph, seed: Seed)
      requires AddsN(before, after) && IsFirstSeed(hasher, before, seed)
      ensures LabelsIn(SeedLabels(seed), {g.pkg}) == {g}
      ensures ChangedTargets({g}, seed, ProbeOf(hasher, after, seed, {g.pkg}), FirstDiff()) == {}
    {
      LabelsOfFirstSeed(hasher, before, seed);
      hide SeedLabels, AccurateEdges, WellFormed, SeededHash, HashOf, ExternalSeedHashes, FullHashes, ProbeOf;
      assert LabelsIn({m, g, x}, {g.pkg}) == {g};
      ProbeAgreesOnG(hasher, before, after, seed);
    }

    lemma FirstTransition(before: Graph, after: Graph)
      requires AddsN(before, after)
      ensures Transition(before, after, {g.pkg}, {}, FirstDiff())
    {
    }

    /** Whatever the graphs, a probe that finds no change justifies pruning everything. */
    lemma PruningIsJustified(hasher: Hasher, before: Graph, after: Graph, seed: Seed, probe: ProbeResult)
      requires Transition(before, after, {g.pkg}, {}, FirstDiff())
      requires ValidSeed(hasher, before, Matching(Targets(), before), seed)
      requires IsProbe(hasher, after, seed, {g.pkg}, probe) && FilesAreFound(seed, after, FirstDiff())
      requires LabelsIn(SeedLabels(seed), {g.pkg}) == {g} && ChangedTargets({g}, seed, probe, FirstDiff()) == {}
      ensures Justified(hasher, before, after, seed, {g.pkg}, FirstDiff(), ExternalSeedHashes(seed, {g.pkg}), {})
    {
      assert WellFormed(before) && WellFormed(after) && SeedLabels(seed) <= before.Keys;
      hide IsProbe, Justified, Transition, ValidSeed, WellFormed, Matching, SeedLabels, FirstDiff, ExternalSeedHashes,
           ChangedTargets, LabelsIn, FilesAreFound;
      var none: set<Path> := {};
      assert {g.pkg} - none == {g.pkg};
      ProbeJustifies(hasher, before, after, Matching(Targets(), before), seed, {g.pkg}, none, FirstDiff(), probe);
    }

    lemma RulesAreNoFiles(graph: Graph, seed: Seed)
      requires HasShape(graph)
      ensures FilesAreFound(seed, graph, FirstDiff())
    {
    }

    lemma FirstStepIsJustified(hasher: Hasher, before: Graph, after: Graph, seed: Seed)
      requires Injective(hasher) && AddsN(before, after) && IsFirstSeed(hasher, before, seed)
      requires Transition(before, after, {g.pkg}, {}, FirstDiff())
      requires ValidSeed(hasher, before, Matching(Targets(), before), seed)
      ensures SeedLabels(seed) <= before.Keys
      ensures Justified(hasher, before, after, seed, {g.pkg}, FirstDiff(), ExternalSeedHashes(seed, {g.pkg}), {})
    {
      hide IsProbe, Justified, Transition, WellFormed, Matching, SeedLabels, ProbeOf, HasShape, FirstDiff,
           ExternalSeedHashes, ChangedTargets, Injective, IsFirstSeed, FullHashes, HashOf;
      ProbeOfIsProbe(hasher, after, seed, {g.pkg});
      ProbePrunesEverything(hasher, before, after, seed);
      RulesAreNoFiles(after, seed);
      PruningIsJustified(hasher, before, after, seed, ProbeOf(hasher, after, seed, {g.pkg}));
    }

    lemma FirstStepIsValid(hasher: Hasher, before: Graph, after: Graph, seed: Seed)
      requires Injective(hasher) && AddsN(before, after) && IsFirstSeed(hasher, before, seed)
      ensures FirstStep(hasher, before, after, seed).Valid()
    {
      hide Justified, Transition, ValidSeed, WellFormed, Matching, SeedLabels, HasShape, FirstDiff, ExternalSeedHashes,
           Injective, Bounded, ScopesExactly, IsFirstSeed, Targets;
      FirstTransition(before, after);
      FirstSeedIsValid(hasher, before, seed);
      TargetsScopeExactly();
      FirstStepIsJustified(hasher, before, after, seed);
    }

    lemma TargetsScopeExactly()
      ensures Bounded(Targets()) && ScopesExactly(Targets())
    {
      BoundedIsMonotone(Targets());
    }

    // ---------- What the first run persists ----------

    lemma FirstStar(hasher: Hasher, before: Graph, after: Graph, seed: Seed)
      requires AddsN(before, after) && IsFirstSeed(hasher, before, seed)
      ensures FirstStep(hasher, before, after, seed).Star() == {g}
    {
      ProbePrunesEverything(hasher, before, after, seed);
      ClosedSetHoldsUpstream(seed.edges, {}, {});
    }

    lemma RelistedByFirstRun(step: Step)
      requires Valid() && HasShape(step.after) && n in step.after
      requires step.dirty == {g.pkg} && step.removed == {} && step.Star() == {g} && g !in step.seed.targetHashes
      ensures step.ScopeAfter() == {g, n}
    {
      assert step.Relisted() == {g.pkg};
      assert Carried({g}, step.seed, {g.pkg}) == {};
      assert AllRules(step.after) == {m, g, n, x};
      hide HasShape, Step.Star, Step.Relisted, Carried;
      assert Scope(step.after, {g.pkg}, {}) == {g, n};
    }

    /** Re-listing its package selects g and n, and the pattern keeps n. */
    lemma FirstScope(hasher: Hasher, before: Graph, after: Graph, seed: Seed)
      requires AddsN(before, after) && IsFirstSeed(hasher, before, seed)
      ensures Matches(Targets(), after, FirstStep(hasher, before, after, seed).ScopeAfter()) == {n}
    {
      FirstStar(hasher, before, after, seed);
      assert g !in seed.targetHashes;
      hide WellFormed, FirstDiff, ExternalSeedHashes, IsFirstSeed, Step.ScopeAfter, Step.Star;
      RelistedByFirstRun(FirstStep(hasher, before, after, seed));
      assert Matches(Everything, after, {g, n}) == {g, n};
    }

    function FirstLoaded(after: Graph): Graph
      requires n in after
    {
      map[n := after[n]]
    }

    ghost function FirstTable(hasher: Hasher, seed: Seed): map<Label, Hash> {
      ReusableHashes(seed, {g})
    }

    lemma LeafIsWellFormed(target: Target)
      requires Deps(target) == {}
      ensures WellFormed(map[n := target])
    {
      assert IsRanking(map[n := target], map[n := 0]);
    }

    /** A finished table that holds the seeds; n may be in it as well. */
    lemma LoadsOnlyN(step: Step, loaded: Graph)
      requires step.Star() == {g} && Matches(step.pattern, step.after, step.ScopeAfter()) == {n}
      requires n in step.after && loaded == map[n := step.after[n]] && Deps(step.after[n]) == {}
      ensures Loads(step, loaded, map[], ReusableHashes(step.seed, {g}))
    {
      hide Step.Star, Step.ScopeAfter, Matches, Acyclic, HashesExcept;
      LeafIsWellFormed(step.after[n]);
      assert forall l | l in loaded :: Deps(loaded[l]) == {};
    }

    lemma FirstLoads(hasher: Hasher, before: Graph, after: Graph, seed: Seed)
      requires AddsN(before, after) && IsFirstSeed(hasher, before, seed)
      ensures Loads(FirstStep(hasher, before, after, seed), FirstLoaded(after), map[], FirstTable(hasher, seed))
    {
      FirstStar(hasher, before, after, seed);
      FirstScope(hasher, before, after, seed);
      hide FullHashes, HashOf, IsFirstSeed, FirstDiff, ExternalSeedHashes, Step.Star, Step.ScopeAfter, Matches,
           ReusableHashes,
           Loads, WellFormed, Targets;
      LoadsOnlyN(FirstStep(hasher, before, after, seed), FirstLoaded(after));
    }

    ghost function FirstOutput(hasher: Hasher, before: Graph, after: Graph, seed: Seed): Seed
      requires AddsN(before, after) && IsFirstSeed(hasher, before, seed)
    {
      FirstLoads(hasher, before, after, seed);
      OutputSeed(FirstStep(hasher, before, after, seed), FirstLoaded(after), map[], FirstTable(hasher, seed))
    }

    /** The merge keeps the entry of m, which names g, and deletes that of g. */
    lemma FirstRunLosesG(hasher: Hasher, before: Graph, after: Graph, seed: Seed)
      requires AddsN(before, after) && IsFirstSeed(hasher, before, seed)
      ensures g in LostLabels(seed, FirstStep(hasher, before, after, seed).Star(), FirstLoaded(after).Keys)
    {
      hide WellFormed, FullHashes, HashOf, SeedLabels, FirstDiff, ExternalSeedHashes, Step.Star, LostLabels;
      FirstStar(hasher, before, after, seed);
      assert FirstLoaded(after).Keys == {n};
      EdgesLoseG(seed);
    }

    lemma EdgesLoseG(seed: Seed)
      requires Valid() && seed.edges == map[m := [g], g := [x]]
      ensures g in LostLabels(seed, {g}, {n})
    {
      EdgesOfFirstSeed(seed.edges);
      hide EdgeSet;
      assert m in seed.edges && seed.edges[m] == [g] && g in seed.edges[m];
    }

    /** The output of any run of this seed in which only g is dirty* and only n is hashed afresh. */
    lemma OutputWithoutG(step: Step, loaded: Graph, computed: map<Label, Hash>)
      requires Valid() && WellFormed(loaded) && n in loaded && step.Star() == {g}
      requires Matches(step.pattern, step.after, step.ScopeAfter()) == {n}
      requires step.seed.edges == map[m := [g], g := [x]] && step.seed.targetHashes.Keys == {m, x}
      ensures var output := OutputSeed(step, loaded, map[], computed);
              && output.edges == map[m := [g]]
              && output.targetHashes.Keys == {m, x, n} && output.targetHashes[m] == step.seed.targetHashes[m]
    {
      hide WellFormed, Step.Star, Step.ScopeAfter, Matches, SeededHash, DependencyHashesOf, WantedDependencies;
    }

    lemma FirstOutputIs(hasher: Hasher, before: Graph, after: Graph, seed: Seed)
      requires AddsN(before, after) && IsFirstSeed(hasher, before, seed)
      ensures var output := FirstOutput(hasher, before, after, seed);
              && output.edges == map[m := [g]]
              && output.targetHashes.Keys == {m, x, n} && output.targetHashes[m] == HashOf(hasher, before, m)
    {
      FirstLoads(hasher, before, after, seed);
      FirstStar(hasher, before, after, seed);
      FirstScope(hasher, before, after, seed);
      assert seed.targetHashes.Keys == {m, x} && seed.targetHashes[m] == HashOf(hasher, before, m);
      hide WellFormed, HashOf, FullHashes, Step.Star, Step.ScopeAfter, Matches, HasShape, OutputSeed, FirstTable,
           ReusableHashes, Targets,
           ExternalSeedHashes, FirstDiff;
      assert WellFormed(FirstLoaded(after));
      OutputWithoutG(FirstStep(hasher, before, after, seed), FirstLoaded(after), FirstTable(hasher, seed));
    }

    // ---------- The second run ----------

    /** The second pair of revisions: only x changes. */
    ghost predicate ChangesX(after: Graph, last: Graph) {
      && Valid() && HasShape(after) && HasShape(last) && WellFormed(after) && WellFormed(last)
      && after[m] == last[m] && after[g] == last[g] && n in after && n in last && after[n] == last[n]
      && after[x] == Rule(oldX, []) && last[x] == Rule(newX, [])
    }

    function SecondDiff(): map<Path, string> {
      map[x.pkg + ["BUILD"] := "M"]
    }

    ghost function SecondStep(hasher: Hasher, after: Graph, last: Graph, seed: Seed): Step {
      Step(hasher, Targets(), after, last, seed, {x.pkg}, {}, SecondDiff(), map[], {x})
    }

    lemma SecondTransition(after: Graph, last: Graph)
      requires ChangesX(after, last)
      ensures Transition(after, last, {x.pkg}, {}, SecondDiff())
    {
    }

    /** Unpruned, and yet nothing is above x any more. */
    lemma SecondStar(hasher: Hasher, after: Graph, last: Graph, seed: Seed)
      requires Valid() && seed.edges == map[m := [g]] && seed.targetHashes.Keys == {m, x, n}
      ensures SecondStep(hasher, after, last, seed).DirtyLabels() == {x}
      ensures SecondStep(hasher, after, last, seed).Star() == {x}
    {
      assert AllLabels(seed.edges, {m, x, n}) == {m, g, x, n} by {
        assert m in seed.edges && seed.edges[m][0] == g && g in seed.edges[m];
        assert forall l | l in AllLabels(seed.edges, {m, x, n}) :: l in {m, g, x, n};
      }
      hide AllLabels;
      assert LabelsIn({m, g, x, n}, {x.pkg}) == {x};
      hide LabelsIn;
      forall l, dep | HasEdge(seed.edges, l, dep)
        ensures dep == g
      {
      }
      ClosedSetHoldsUpstream(seed.edges, {x}, {});
    }

    /** m is neither re-listed nor carried, so its old entry is kept. */
    lemma SecondScope(hasher: Hasher, after: Graph, last: Graph, seed: Seed)
      requires ChangesX(after, last) && seed.edges == map[m := [g]] && seed.targetHashes.Keys == {m, x, n}
      ensures m !in Matches(Targets(), last, SecondStep(hasher, after, last, seed).ScopeAfter())
    {
      SecondStar(hasher, after, last, seed);
      hide WellFormed, AllLabels, SecondDiff, Step.Star, HasShape;
      var scope := SecondStep(hasher, after, last, seed).ScopeAfter();
      assert m !in scope;
      BoundedIsMonotone(Targets());
      MatchingIsLocal(Targets(), last, scope, m);
    }

    /** A change of x changes the hashes of everything above it. */
    lemma HashesDiffer(hasher: Hasher, before: Graph, last: Graph)
      requires Injective(hasher) && Valid() && HasShape(before) && HasShape(last) && WellFormed(before) && WellFormed(last)
      requires before[x] == Rule(oldX, []) && last[x] == Rule(newX, [])
      ensures HashOf(hasher, before, m) != HashOf(hasher, last, m)
    {
      if HashOf(hasher, before, m) == HashOf(hasher, last, m) {
        SameHashSameDependency(hasher, before, last, m, g);
        SameHashSameDependency(hasher, before, last, g, x);
        assert false;
      }
    }

    /** Whatever the limit, nothing that the first run finds dirty* is a seeded target. */
    lemma FirstRunMerges(hasher: Hasher, before: Graph, after: Graph, seed: Seed, percent: nat)
      requires AddsN(before, after) && IsFirstSeed(hasher, before, seed)
      ensures MayMerge(seed, FirstStep(hasher, before, after, seed).Star(), percent)
    {
      FirstStar(hasher, before, after, seed);
      assert seed.targetHashes.Keys == {m, x} && m in seed.edges;
      hide WellFormed, FullHashes, HashOf, HasShape, FirstStep, Step.Star, IsFirstSeed;
      assert {m, x} * {g} == {};
    }

    /** Of the three targets the second run recomputes one. */
    lemma OneOfThree(seed: Seed, percent: nat)
      requires Valid() && seed.edges == map[m := [g]] && seed.targetHashes.Keys == {m, x, n}
      ensures MayMerge(seed, {x}, percent) <==> percent >= 34
    {
      assert m in seed.edges;
      assert |seed.targetHashes| == |seed.targetHashes.Keys| == 3;
      assert {m, x, n} * {x} == {x};
    }

    /**
     Chained pruned seeds are not sound: from a true seed, a valid pruned run and
     then an unpruned run seeded with its output persist a hash that a full run
     would not. The recomputation limit never stops the first, and stops the second
     only below 34 percent.
     */
    lemma OutdatedHashIsPersisted(hasher: Hasher, before: Graph, after: Graph, last: Graph, seed: Seed)
      requires Injective(hasher) && AddsN(before, after) && ChangesX(after, last) && IsFirstSeed(hasher, before, seed)
      ensures FirstStep(hasher, before, after, seed).Valid()
      ensures Loads(FirstStep(hasher, before, after, seed), FirstLoaded(after), map[], FirstTable(hasher, seed))
      ensures forall percent: nat :: MayMerge(seed, FirstStep(hasher, before, after, seed).Star(), percent)
      ensures var second := SecondStep(hasher, after, last, FirstOutput(hasher, before, after, seed));
              forall percent: nat :: MayMerge(second.seed, second.Star(), percent) <==> percent >= 34
      ensures var second := SecondStep(hasher, after, last, FirstOutput(hasher, before, after, seed));
              && Transition(second.before, second.after, second.dirty, second.removed, second.changedFiles)
              && second.changed == second.DirtyLabels()
              && m in Matching(second.pattern, second.after)
              && forall recomputed: map<Label, Hash> | recomputed.Keys == Matches(second.pattern, second.after, second.ScopeAfter()) ::
                   var merged := Merge(second.seed.targetHashes, second.Star(), recomputed);
                   m in merged && merged[m] != HashOf(hasher, second.after, m)
    {
      FirstStepIsValid(hasher, before, after, seed);
      FirstLoads(hasher, before, after, seed);
      FirstOutputIs(hasher, before, after, seed);
      var output := FirstOutput(hasher, before, after, seed);
      SecondTransition(after, last);
      MatchingTargets(last);
      HashesDiffer(hasher, before, last);
      forall percent: nat
        ensures MayMerge(seed, FirstStep(hasher, before, after, seed).Star(), percent)
        ensures MayMerge(output, {x}, percent) <==> percent >= 34
      {
        FirstRunMerges(hasher, before, after, seed, percent);
        OneOfThree(output, percent);
      }
      hide MayMerge, WellFormed, Injective, HasShape, HashOf, Transition, Step.Valid, Step.ScopeAfter, Step.DirtyLabels,
           Step.Star, Loads, FirstOutput,
           Matching, Matches, FirstStep, IsFirstSeed;
      SecondStar(hasher, after, last, output);
      SecondScope(hasher, after, last, output);
    }

    /** The pattern filters g out, and yet selects new rules. */
    lemma TargetsSelectNewRules()
      ensures SelectsNewRules(Targets())
    {
      forall pkg: Path, r: Label, length: nat
        ensures SelectsNewRule(Targets(), pkg, r, length)
      {
        var name: Path := seq(length + |g.name| + 1, _ => "");
        assert Label("", pkg, name) != g;
        assert Selects(Targets(), Label("", pkg, name), Rule("", [r]), true);
      }
    }

    /** So the exact condition speaks of what the first run wrote, and that does not cover: m is not above x any more. */
    lemma FirstOutputDoesNotCover(hasher: Hasher, before: Graph, after: Graph, seed: Seed, percent: nat)
      requires AddsN(before, after) && IsFirstSeed(hasher, before, seed) && percent >= 34
      ensures !Covers(hasher, percent, after, FirstOutput(hasher, before, after, seed))
    {
      FirstOutputIs(hasher, before, after, seed);
      var output := FirstOutput(hasher, before, after, seed);
      OneOfThree(output, percent);
      SecondStar(hasher, after, after, output);
      XInfluencesM(hasher, after);
      assert StarOf(output, x.pkg) == {x} by {
        hide Upstream, SeedLabels;
        assert SecondStep(hasher, after, after, output).Star() == StarOf(output, x.pkg) by {
          SecondStarIs(hasher, after, output);
        }
      }
      assert m != x;
      hide WellFormed, HashOf, HasShape, FirstOutput, MayMerge, StarOf, IsFirstSeed, Influences;
      assert SeedHash(output, m).Some?;
    }

    lemma SecondStarIs(hasher: Hasher, after: Graph, seed: Seed)
      requires SecondStep(hasher, after, after, seed).DirtyLabels() == {x}
      ensures SecondStep(hasher, after, after, seed).Star() == StarOf(seed, x.pkg)
    {
      hide SeedLabels, Upstream;
    }

    lemma XInfluencesM(hasher: Hasher, graph: Graph)
      requires Valid() && HasShape(graph)
      ensures Influences(hasher, graph, x, m)
    {
      var chain := [m, g, x];
      assert DependsOn(graph, chain[0], chain[1]) && DependsOn(graph, chain[1], chain[2]);
      assert Leads(hasher, graph, chain) && chain[|chain| - 1] == x;
    }

    /** The layout is such a history. */
    lemma RevisionsExist()
      requires Valid()
      ensures AddsN(SeedGraph(), FirstGraph()) && ChangesX(FirstGraph(), SecondGraph())
    {
      GraphsHaveShape();
      ShapeIsWellFormed(SeedGraph());
      ShapeIsWellFormed(FirstGraph());
      ShapeIsWellFormed(SecondGraph());
      hide HasShape, WellFormed;
    }
  }
}
