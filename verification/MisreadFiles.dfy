/**
 What a pruned run misses because of the path it reads off a label
 (pkg/dirty_set.go:343-380, pkg/hash_persistence.go:129-131).

 The source file t/t of package t has the canonical label //t, off which the
 pruner reads the path t. It does not find that in a diff that changes t/t, takes
 the file as unchanged, and leaves what depends on it out of dirty*.
 */
module MisreadFiles {
  import opened Wrappers
  import opened Workspace
  import opened Boundaries
  import opened Propagation
  import opened Hashing
  import opened Revisions
  import opened DirtySet
  import opened Pruning
  import opened TargetPatterns
  import opened Incremental
  import opened Chain
  import opened SeededRun
  import opened MergedRuns
  import opened UnknownPackages

  // ---------- A loading that goes wrong ----------

  /** Some rules without dependencies, a source file, and the targets that depend on it. */
  function GraphOver(kept: set<Label>, source: Label, content: Option<File>, readers: set<Label>): Graph {
    map l | l in kept + {source} + readers ::
      if l in readers then Rule("", [source]) else if l == source then SourceFile(content) else Rule("", [])
  }

  lemma GraphOverIsWellFormed(kept: set<Label>, source: Label, content: Option<File>, readers: set<Label>)
    requires source !in readers
    ensures var graph := GraphOver(kept, source, content, readers);
            && WellFormed(graph)
            && forall l | l in graph :: Deps(graph[l]) == if l in readers then {source} else {}
  {
    var graph := GraphOver(kept, source, content, readers);
    assert [source][0] == source && Deps(Rule("", [source])) == {source};
    assert IsRanking(graph, map l | l in graph :: if l in readers then 1 else 0);
  }

  /** As `//... + set(...)`. */
  function WithReaders(readers: set<Label>): Pattern {
    Union(Everything, Named((l: Label) => l in readers))
  }

  lemma WithReadersSelects(readers: set<Label>, l: Label, target: Target, inUniverse: bool)
    ensures Selects(WithReaders(readers), l, target, inUniverse) <==> inUniverse || l in readers
  {
    assert Selects(WithReaders(readers).right, l, target, inUniverse) <==> l in readers;
  }

  lemma WithReadersScopesExactly(readers: set<Label>)
    ensures ScopesExactly(WithReaders(readers))
  {
    hide WithReaders, Selects;
    forall l, target | IsExposed(l, target)
      ensures Selects(WithReaders(readers), l, target, false) ==> Selects(WithReaders(readers), l, target, true)
    {
      WithReadersSelects(readers, l, target, false);
      WithReadersSelects(readers, l, target, true);
    }
  }

  lemma RulesMatch(kept: set<Label>, source: Label, content: Option<File>, readers: set<Label>)
    requires source !in readers + kept && forall l | l in kept :: l.repo == ""
    ensures Matching(WithReaders(readers), GraphOver(kept, source, content, readers)) == kept + readers
  {
    hide WithReaders, Selects;
    var graph := GraphOver(kept, source, content, readers);
    forall l
      ensures l in Matching(WithReaders(readers), graph) <==> l in kept + readers
    {
      MatchingIsLocal(WithReaders(readers), graph, AllRules(graph), l);
      if l in graph {
        WithReadersSelects(readers, l, graph[l], l in AllRules(graph));
      }
    }
  }

  lemma SeedOverGraph(hasher: Hasher, kept: set<Label>, source: Label, content: Option<File>, readers: set<Label>, seed: Seed)
    requires source !in readers + kept && forall l | l in kept :: l.repo == ""
    requires var graph := GraphOver(kept, source, content, readers);
             ValidSeed(hasher, graph, Matching(WithReaders(readers), graph), seed)
    ensures seed.targetHashes.Keys == kept + readers && SeedLabels(seed) <= kept + readers + {source}
    ensures forall l | l in SeedLabels(seed) :: EdgeSet(seed.edges, l) == if l in readers then {source} else {}
  {
    RulesMatch(kept, source, content, readers);
    GraphOverIsWellFormed(kept, source, content, readers);
    hide WithReaders, Matching, HashOf, WellFormed, Deps, SeedLabels, EdgeSet;
  }

  /** What a seed of such a graph knows. */
  lemma SeedKnows(seed: Seed, kept: set<Label>, source: Label, readers: set<Label>)
    requires seed.targetHashes.Keys == kept + readers && SeedLabels(seed) <= kept + readers + {source}
    requires forall l | l in SeedLabels(seed) :: EdgeSet(seed.edges, l) == if l in readers then {source} else {}
    requires readers != {}
    ensures SeedLabels(seed) == kept + readers + {source}
    ensures seed.edges != map[] && forall l, dep | HasEdge(seed.edges, l, dep) :: dep == source
  {
    var r :| r in readers;
    assert r in SeedLabels(seed);
    assert source in EdgeSet(seed.edges, r);
    forall l, dep | HasEdge(seed.edges, l, dep)
      ensures dep == source
    {
      assert l in SeedLabels(seed) && dep in EdgeSet(seed.edges, l);
    }
  }

  /** If only the source file has anything above it and is not taken as changed, dirty* is just the dirty labels. */
  lemma NothingIsAbove(step: Step, source: Label)
    requires source !in step.changed
    requires forall l, dep | HasEdge(step.seed.edges, l, dep) :: dep == source
    ensures step.Star() == step.DirtyLabels()
  {
    hide Upstream, HasEdge, Step.DirtyLabels;
    ClosedSetHoldsUpstream(step.seed.edges, step.changed, {});
  }

  /** The source file, and the targets that depend on it. */
  datatype Layout = Layout(change: Change, f: Path, readers: set<Label>) {
    ghost predicate Valid() {
      && change.Valid() && IsMisread(change, f) && readers != {}
      && (forall l | l in readers ::
            if l.repo == "" then l.pkg in change.known - change.Dirty() && |l.name| == 1 else true)
    }

    function Source(): Label
      requires f != []
    {
      Label("", Dir(f), [f[|f| - 1]])
    }

    function Content(tree: Tree): Option<File> {
      if f in tree then Some(tree[f]) else None
    }

    /** One rule of each known package, so that the seed knows it. */
    function Kept(packages: set<Path>): set<Label> {
      LabelsNamed(packages, ["kept", "rule"])
    }

    function RulesOf(p: Path): map<Path, Target>
      requires f != []
    {
      (if p in change.known then map[["kept", "rule"] := Rule("", [])] else map[])
      + (map l | l in readers && l.repo == "" && l.pkg == p :: l.name := Rule("", [Source()]))
    }

    function Load(): Loader
      requires f != []
    {
      (p: Path, v: PackageView) =>
        if p == Source().pkg then
          RulesOf(p)[Source().name := SourceFile(if f in v.files then Some(v.files[f]) else None)]
        else RulesOf(p)
    }

    function External(): Graph
      requires f != []
    {
      map l | l in readers && l.repo != "" :: Rule("", [Source()])
    }

    function GraphOf(tree: Tree): Graph
      requires f != []
    {
      GraphOver(Kept(change.known * Packages(tree)), Source(), Content(tree), readers)
    }

    lemma SourceIsAbbreviated()
      requires f != [] && IsNamedLikeItsDirectory(f)
      ensures FileOf(Source()) == f && LabelToPath(Source()) == Source().pkg == Dir(f)
    {
      assert FileOf(Source()) == f && IsAbbreviated(Source());
    }

    lemma SourceIsDirty()
      requires Valid()
      ensures f != [] && IsNamedLikeItsDirectory(f)
      ensures Dir(f) in change.Dirty() && Dir(f) in change.known && Source() !in readers
    {
      OwnerOfChangedFileIsDirty(change.diff, change.known, Classify(change.diff, change.known, change.lookup).value, f);
      assert Owner(f, change.known) == Some(Dir(f));
      hide Classify, DirtyPackages, KnowsSome, Packages;
    }

    lemma SourceExists()
      requires Valid()
      ensures Dir(f) in Packages(change.seedTree) && Dir(f) in Packages(change.targetTree)
    {
      hide Classify, DirtyPackages, IsDiff, LookupReads, Packages;
    }

    /** Main-repository readers are in packages of both trees. */
    lemma ReadersExist(l: Label)
      requires Valid() && l in readers && l.repo == ""
      ensures l.pkg in Packages(change.seedTree) && l.pkg in Packages(change.targetTree)
      ensures l.pkg in change.known && l.pkg !in change.Dirty() && l.pkg != Dir(f) && |l.name| == 1
    {
      SourceIsDirty();
      CleanPackageSurvives(change.seedTree, change.targetTree, change.diff, change.known, change.lookup, l.pkg);
      hide Change.Dirty, Packages, IsMisread, KnowsSome;
    }

    lemma GraphIsWellFormed(tree: Tree)
      requires Valid()
      ensures f != [] && WellFormed(GraphOf(tree))
      ensures forall l | l in GraphOf(tree) :: Deps(GraphOf(tree)[l]) == if l in readers then {Source()} else {}
    {
      SourceIsDirty();
      hide *;
      GraphOverIsWellFormed(Kept(change.known * Packages(tree)), Source(), Content(tree), readers);
      assert GraphOf(tree) == GraphOver(Kept(change.known * Packages(tree)), Source(), Content(tree), readers) by {
        GraphOfIs(tree);
      }
    }

    lemma GraphOfIs(tree: Tree)
      requires f != []
      ensures GraphOf(tree) == GraphOver(Kept(change.known * Packages(tree)), Source(), Content(tree), readers)
    {
    }

    /** What the source file is loaded as is what the tree has. */
    lemma SourceIsLoaded(tree: Tree)
      requires f != [] && Dir(f) in Packages(tree)
      ensures f in View(tree, Dir(f)).files <==> f in tree
      ensures f in tree ==> View(tree, Dir(f)).files[f] == tree[f]
    {
      assert Owner(f, Packages(tree)) == Some(Dir(f));
      hide Packages;
    }

    /** The rules of a package are its kept rule and its readers. */
    lemma RulesAre(l: Label)
      requires f != [] && l.repo == "" && forall k | k in readers && k.repo == "" :: |k.name| == 1
      ensures l.name in RulesOf(l.pkg) <==> (l.pkg in change.known && l.name == ["kept", "rule"]) || l in readers
      ensures l.name in RulesOf(l.pkg) ==> RulesOf(l.pkg)[l.name] == if l in readers then Rule("", [Source()]) else Rule("", [])
    {
      hide Source;
      assert l in readers ==> |l.name| == 1;
      assert |["kept", "rule"]| == 2;
    }

    lemma LabelIsLoaded(tree: Tree, l: Label)
      requires f != [] && Dir(f) in Packages(tree) && l.repo == "" && Source() !in readers
      requires forall k | k in readers && k.repo == "" :: |k.name| == 1 && k.pkg in Packages(tree)
      ensures l in GraphOf(tree) <==> l.pkg in Packages(tree) && l.name in Load()(l.pkg, View(tree, l.pkg))
      ensures l in GraphOf(tree) ==> GraphOf(tree)[l] == Load()(l.pkg, View(tree, l.pkg))[l.name]
    {
      RulesAre(l);
      SourceIsLoaded(tree);
      hide Packages, View, RulesOf;
      assert l in Kept(change.known * Packages(tree)) <==> l.pkg in change.known * Packages(tree) && l.name == ["kept", "rule"];
      assert l == Source() <==> l.pkg == Source().pkg && l.name == Source().name;
    }

    lemma MainLabelsAreLoaded(tree: Tree)
      requires Valid() && tree in {change.seedTree, change.targetTree}
      ensures f != []
      ensures forall l: Label | l.repo == "" ::
                && (l in GraphOf(tree) <==> l.pkg in Packages(tree) && l.name in Load()(l.pkg, View(tree, l.pkg)))
                && (l in GraphOf(tree) ==> GraphOf(tree)[l] == Load()(l.pkg, View(tree, l.pkg))[l.name])
    {
      hide *;
      SourceIsDirty();
      SourceExists();
      forall k | k in readers && k.repo == ""
        ensures |k.name| == 1 && k.pkg in Packages(tree)
      {
        ReadersExist(k);
      }
      forall l: Label | l.repo == ""
        ensures l in GraphOf(tree) <==> l.pkg in Packages(tree) && l.name in Load()(l.pkg, View(tree, l.pkg))
        ensures l in GraphOf(tree) ==> GraphOf(tree)[l] == Load()(l.pkg, View(tree, l.pkg))[l.name]
      {
        LabelIsLoaded(tree, l);
      }
    }

    lemma GraphIsOfTree(tree: Tree)
      requires Valid() && tree in {change.seedTree, change.targetTree}
      ensures f != [] && GraphOfTree(tree, Load(), External(), GraphOf(tree))
    {
      hide Valid, Packages, View, Load, WellFormed, Change.Dirty, IsNamedLikeItsDirectory, Source, GraphOf, External, FileOf;
      GraphIsWellFormed(tree);
      SourceIsDirty();
      SourceIsAbbreviated();
      MainLabelsAreLoaded(tree);
      ExternalIsLoaded(tree);
      SourceIsOnlyFile(tree);
    }

    lemma ExternalIsLoaded(tree: Tree)
      requires f != [] && Source() !in readers
      ensures forall l: Label | l.repo != "" ::
                && (l in GraphOf(tree) <==> l in External())
                && (l in GraphOf(tree) ==> GraphOf(tree)[l] == External()[l])
    {
      hide Packages;
    }

    lemma SourceIsOnlyFile(tree: Tree)
      requires f != [] && Source() !in readers
      ensures forall l | l in GraphOf(tree) && GraphOf(tree)[l].SourceFile? ::
                l == Source() && GraphOf(tree)[l].content == if f in tree then Some(tree[f]) else None
      ensures Source() in GraphOf(tree) && GraphOf(tree)[Source()].SourceFile?
    {
      hide Packages;
    }
  }

  // ---------- The run ----------

  /** Two graphs in which only the source file differs give its readers different hashes. */
  lemma ReaderHashDiffers(hasher: Hasher, kept: set<Label>, keptToo: set<Label>, source: Label, earlier: Option<File>,
                          later: Option<File>, readers: set<Label>, r: Label)
    requires Injective(hasher) && source !in readers && source.repo == "" && r in readers && !IsOpaque(hasher, r)
    requires earlier != later
    ensures WellFormed(GraphOver(kept, source, earlier, readers)) && WellFormed(GraphOver(keptToo, source, later, readers))
    ensures HashOf(hasher, GraphOver(kept, source, earlier, readers), r)
            != HashOf(hasher, GraphOver(keptToo, source, later, readers), r)
  {
    var before, after := GraphOver(kept, source, earlier, readers), GraphOver(keptToo, source, later, readers);
    GraphOverIsWellFormed(kept, source, earlier, readers);
    GraphOverIsWellFormed(keptToo, source, later, readers);
    assert before[source] == SourceFile(earlier) && after[source] == SourceFile(later);
    SourceHashDiffers(hasher, before, after, source);
    hide GraphOver, WellFormed, HashOf, Injective;
    if HashOf(hasher, before, r) == HashOf(hasher, after, r) {
      SameHashSameDependency(hasher, before, after, r, source);
      assert false;
    }
  }

  lemma SourceHashDiffers(hasher: Hasher, before: Graph, after: Graph, source: Label)
    requires Injective(hasher) && WellFormed(before) && WellFormed(after) && source in before && source in after
    requires before[source].SourceFile? && after[source].SourceFile? && before[source].content != after[source].content
    requires source.repo == ""
    ensures HashOf(hasher, before, source) != HashOf(hasher, after, source)
  {
    hide Acyclic, Closed;
  }

  lemma KnownOfLabels(known: set<Path>, name: Path, source: Label, readers: set<Label>)
    requires source.pkg in known && forall l | l in readers && l.repo == "" :: l.pkg in known
    ensures KnownPackages(LabelsNamed(known, name) + readers + {source}) == known
  {
    forall p | p in known
      ensures p in KnownPackages(LabelsNamed(known, name) + readers + {source})
    {
      assert Label("", p, name) in LabelsNamed(known, name) && Label("", p, name).pkg == p;
    }
  }

  lemma KnownLabels(layout: Layout)
    requires layout.Valid() && layout.f != []
    ensures KnownPackages(layout.Kept(layout.change.known) + layout.readers + {layout.Source()}) == layout.change.known
  {
    hide Layout.Valid, LabelsNamed, KnownPackages, Packages, Change.Dirty;
    layout.SourceIsDirty();
    forall l | l in layout.readers && l.repo == ""
      ensures l.pkg in layout.change.known
    {
      layout.ReadersExist(l);
    }
    KnownOfLabels(layout.change.known, ["kept", "rule"], layout.Source(), layout.readers);
  }

  /** At the seed revision every known package is there. */
  lemma SeedGraphIs(layout: Layout)
    requires layout.Valid() && layout.f != []
    ensures layout.GraphOf(layout.change.seedTree)
            == GraphOver(layout.Kept(layout.change.known), layout.Source(), layout.Content(layout.change.seedTree), layout.readers)
  {
    layout.GraphOfIs(layout.change.seedTree);
    assert layout.change.known <= Packages(layout.change.seedTree) by {
      KnownExist(layout.change);
    }
    hide Packages, GraphOver, LabelsNamed;
    assert layout.change.known * Packages(layout.change.seedTree) == layout.change.known;
  }

  lemma KeptIsApart(layout: Layout)
    requires layout.Valid() && layout.f != []
    ensures layout.Source() !in layout.readers + layout.Kept(layout.change.known)
    ensures forall l | l in layout.Kept(layout.change.known) :: l.repo == ""
  {
    layout.SourceIsDirty();
    hide Layout.Valid;
    assert |["kept", "rule"]| == 2;
  }

  lemma LayoutSeedExists(hasher: Hasher, layout: Layout) returns (seed: Seed)
    requires layout.Valid() && layout.f != []
    ensures IsFullSeed(hasher, WithReaders(layout.readers), layout.GraphOf(layout.change.seedTree), seed)
    ensures seed.targetHashes.Keys == layout.Kept(layout.change.known) + layout.readers
    ensures SeedLabels(seed) == layout.Kept(layout.change.known) + layout.readers + {layout.Source()}
    ensures KnownPackages(SeedLabels(seed)) == layout.change.known
    ensures seed.edges != map[] && forall l, dep | HasEdge(seed.edges, l, dep) :: dep == layout.Source()
    ensures WellFormed(layout.GraphOf(layout.change.seedTree))
    ensures forall l | l in seed.targetHashes ::
              l in layout.GraphOf(layout.change.seedTree)
              && seed.targetHashes[l] == HashOf(hasher, layout.GraphOf(layout.change.seedTree), l)
  {
    assert layout.readers != {};
    hide Layout.Valid, IsFullSeed, WithReaders, Layout.GraphOf, GraphOver, Layout.Kept, Layout.Source, Layout.Content, SeedLabels,
         KnownPackages, HasEdge, EdgeSet, Matching, HashOf, AccurateEdges;
    var pattern, before := WithReaders(layout.readers), layout.GraphOf(layout.change.seedTree);
    SeedGraphIs(layout);
    KeptIsApart(layout);
    KnownLabels(layout);
    layout.GraphIsWellFormed(layout.change.seedTree);
    seed := FullSeedExists(hasher, pattern, before);
    FullSeedIsTrue(hasher, pattern, before, seed);
    SeedOverGraph(hasher, layout.Kept(layout.change.known), layout.Source(), layout.Content(layout.change.seedTree),
                  layout.readers, seed);
    SeedKnows(seed, layout.Kept(layout.change.known), layout.Source(), layout.readers);
  }

  /** The run, pruned by the probe that loads everything. */
  ghost function PrunedStep(hasher: Hasher, layout: Layout, seed: Seed): Step
    requires layout.change.Valid() && layout.f != [] && WellFormed(layout.GraphOf(layout.change.targetTree))
  {
    var change := layout.change;
    var after, removed := layout.GraphOf(change.targetTree), Classify(change.diff, change.known, change.lookup).value.removed;
    Step(hasher, WithReaders(layout.readers), layout.GraphOf(change.seedTree), after, seed,
         change.Dirty(), removed, change.diff, ExternalSeedHashes(seed, change.Dirty() - removed),
         ChangedTargets(LabelsIn(SeedLabels(seed), change.Dirty()), seed,
                        ProbeOf(hasher, after, seed, change.Dirty() - removed), change.diff))
  }

  /** The probe does list the source file, but its path is not in the diff. */
  lemma SourceIsNotChanged(hasher: Hasher, layout: Layout, seed: Seed)
    requires layout.Valid() && layout.f != [] && WellFormed(layout.GraphOf(layout.change.targetTree))
    ensures layout.Source() !in PrunedStep(hasher, layout, seed).changed
  {
    layout.SourceIsDirty();
    layout.SourceIsAbbreviated();
    layout.SourceIsOnlyFile(layout.change.targetTree);
    hide WellFormed, Classify, DirtyPackages, Layout.GraphOf, ExternalSeedHashes, SeededHash, SeedLabels, LabelsIn, Layout.Source,
         KnowsSome, TargetsIn, LabelToPath;
  }

  lemma PrunedStepIsDecided(hasher: Hasher, layout: Layout, seed: Seed)
    requires layout.Valid() && layout.f != [] && WellFormed(layout.GraphOf(layout.change.targetTree))
    ensures IsDecided(PrunedStep(hasher, layout, seed))
  {
    hide WellFormed, Classify, DirtyPackages, Layout.GraphOf, ExternalSeedHashes, SeedLabels, LabelsIn, KnowsSome, IsMisread,
         IsProbe, ProbeOf, ChangedTargets;
    var step := PrunedStep(hasher, layout, seed);
    var probe := ProbeOf(hasher, step.after, seed, step.Relisted());
    ProbeOfIsProbe(hasher, step.after, seed, step.Relisted());
    assert step.changed == ChangedTargets(step.DirtyLabels(), step.seed, probe, step.changedFiles);
  }

  /** So nothing but the labels of dirty packages is dirty*. */
  lemma StarOfPrunedStep(hasher: Hasher, layout: Layout, seed: Seed)
    requires layout.Valid() && layout.f != [] && WellFormed(layout.GraphOf(layout.change.targetTree))
    requires SeedLabels(seed) == layout.Kept(layout.change.known) + layout.readers + {layout.Source()}
    requires forall l, dep | HasEdge(seed.edges, l, dep) :: dep == layout.Source()
    ensures var step := PrunedStep(hasher, layout, seed);
            step.Star() == step.DirtyLabels() <= layout.Kept(layout.change.known) + {layout.Source()}
  {
    SourceIsNotChanged(hasher, layout, seed);
    var step := PrunedStep(hasher, layout, seed);
    forall l | l in layout.readers
      ensures l !in step.DirtyLabels()
    {
      if l.repo == "" {
        layout.ReadersExist(l);
      }
    }
    hide WellFormed, Classify, DirtyPackages, Layout.GraphOf, ExternalSeedHashes, SeedLabels, Layout.Valid, KnowsSome,
         ProbeOf, ChangedTargets, HasEdge, Upstream, Layout.Source, Layout.Kept;
    NothingIsAbove(step, layout.Source());
  }

  /** A retained target whose hash has changed is persisted wrongly, whether the run merges or not. */
  lemma RetainedIsWrong(step: Step, loaded: Graph, r: Label)
    requires CanLoad(step, loaded) && WellFormed(step.before) && WellFormed(step.after)
    requires r in step.seed.targetHashes && r !in step.Star()
    requires r in step.seed.dependencyHashes ==> step.seed.dependencyHashes[r] == step.seed.targetHashes[r]
    requires r in Matching(step.pattern, step.after) && r in step.before && r in step.after
    requires step.seed.targetHashes[r] == HashOf(step.hasher, step.before, r) != HashOf(step.hasher, step.after, r)
    ensures !PersistsExactly(step, loaded)
  {
    hide WellFormed, Matches, Matching, HashOf, Step.Star, Step.ScopeAfter, Step.Relisted;
    assert r in ReusableHashes(step.seed, step.Star())
           && ReusableHashes(step.seed, step.Star())[r] == step.seed.targetHashes[r];
    hide ReusableHashes;
    var merged := Merge(step.seed.targetHashes, step.Star(), FreshHashes(step, loaded));
    assert r in merged && merged[r] == step.seed.targetHashes[r];
  }

  lemma ContentDiffers(layout: Layout)
    requires layout.Valid()
    ensures layout.Content(layout.change.seedTree) != layout.Content(layout.change.targetTree)
  {
    var change, f := layout.change, layout.f;
    hide Packages, Classify, DirtyPackages;
    assert StatusOf(change.seedTree, change.targetTree, f, change.diff[f]);
  }

  lemma SourcesStay(layout: Layout)
    requires layout.Valid() && layout.f != []
    ensures SourcesStaySources(layout.GraphOf(layout.change.seedTree), layout.GraphOf(layout.change.targetTree), layout.change.diff)
  {
    layout.SourceIsDirty();
    layout.SourceIsOnlyFile(layout.change.seedTree);
    layout.SourceIsOnlyFile(layout.change.targetTree);
    hide Layout.Valid, Layout.GraphOf, Layout.Source, FileOf;
  }

  lemma ReadersDiffer(hasher: Hasher, layout: Layout, r: Label)
    requires Injective(hasher) && layout.Valid() && layout.f != [] && r in layout.readers && !IsOpaque(hasher, r)
    ensures var before, after := layout.GraphOf(layout.change.seedTree), layout.GraphOf(layout.change.targetTree);
            && WellFormed(before) && WellFormed(after) && r in before && r in after
            && HashOf(hasher, before, r) != HashOf(hasher, after, r)
            && r in Matching(WithReaders(layout.readers), after)
  {
    layout.SourceIsDirty();
    ContentDiffers(layout);
    var change, source := layout.change, layout.Source();
    layout.GraphOfIs(change.seedTree);
    layout.GraphOfIs(change.targetTree);
    hide Layout.Valid, Layout.GraphOf, Layout.Content, Layout.Source, Packages, WithReaders, Matching, HashOf, WellFormed, Injective,
         LabelsNamed;
    var kept, keptToo := layout.Kept(change.known * Packages(change.seedTree)), layout.Kept(change.known * Packages(change.targetTree));
    ReaderHashDiffers(hasher, kept, keptToo, source, layout.Content(change.seedTree), layout.Content(change.targetTree),
                      layout.readers, r);
    SourceIsNotKept(layout, change.known * Packages(change.targetTree));
    RulesMatch(keptToo, source, layout.Content(change.targetTree), layout.readers);
  }

  lemma SourceIsNotKept(layout: Layout, packages: set<Path>)
    requires layout.f != []
    ensures layout.Source().repo == "" && layout.Source() !in layout.Kept(packages)
    ensures forall l | l in layout.Kept(packages) :: l.repo == ""
  {
    assert |["kept", "rule"]| == 2;
  }

  lemma PrunedStepMayMerge(hasher: Hasher, layout: Layout, seed: Seed, percent: nat)
    requires layout.Valid() && layout.f != [] && WellFormed(layout.GraphOf(layout.change.targetTree))
    requires percent >= 1 && |layout.readers| >= 100 * (|layout.change.known| + 1)
    requires seed.targetHashes.Keys == layout.Kept(layout.change.known) + layout.readers && seed.edges != map[]
    requires SeedLabels(seed) == layout.Kept(layout.change.known) + layout.readers + {layout.Source()}
    requires forall l, dep | HasEdge(seed.edges, l, dep) :: dep == layout.Source()
    ensures MayMerge(seed, PrunedStep(hasher, layout, seed).Star(), percent)
    ensures forall r | r in layout.readers :: r !in PrunedStep(hasher, layout, seed).Star()
  {
    StarOfPrunedStep(hasher, layout, seed);
    KeptIsApart(layout);
    forall r | r in layout.readers
      ensures r !in layout.Kept(layout.change.known) + {layout.Source()}
    {
      ReaderIsNotKept(layout, r);
    }
    var star := PrunedStep(hasher, layout, seed).Star();
    hide Layout.Valid, Layout.GraphOf, Layout.Source, WellFormed, PrunedStep, LabelsNamed, HasEdge, SeedLabels,
         ShouldFallbackForRecomputation;
    OneLabelEach(layout.change.known, ["kept", "rule"]);
    LimitIsFar(seed.targetHashes.Keys, star, layout.Kept(layout.change.known), |layout.change.known|, layout.readers, percent);
  }

  lemma PrunedStepLoads(hasher: Hasher, layout: Layout, seed: Seed)
    requires layout.Valid() && layout.f != [] && WellFormed(layout.GraphOf(layout.change.targetTree))
    ensures var step := PrunedStep(hasher, layout, seed);
            CanLoad(step, step.after)
  {
    var step := PrunedStep(hasher, layout, seed);
    assert WellFormed(step.after);
    hide Layout.Valid, Layout.GraphOf, WellFormed, PrunedStep, Matches, Step.ScopeAfter;
    MatchesExist(step.pattern, step.after, step.ScopeAfter());
  }

  lemma PrunedStepRuns(hasher: Hasher, layout: Layout, seed: Seed, percent: nat)
    requires Injective(hasher) && layout.Valid() && layout.f != [] && WellFormed(layout.GraphOf(layout.change.targetTree))
    requires IsFullSeed(hasher, WithReaders(layout.readers), layout.GraphOf(layout.change.seedTree), seed)
    requires KnownPackages(SeedLabels(seed)) == layout.change.known
    requires MayMerge(seed, PrunedStep(hasher, layout, seed).Star(), percent)
    ensures var step := PrunedStep(hasher, layout, seed);
            RunsOver(layout.change, percent, layout.Load(), layout.External(), step, step.after)
  {
    hide Layout.GraphOf, Layout.Load, Layout.External, Layout.Source, Classify, DirtyPackages, KnowsSome, IsMisread, WellFormed,
         Injective, IsFullSeed, WithReaders, GraphOfTree, SourcesStaySources, ScopesExactly, IsDecided, KnownPackages, SeedLabels,
         MayMerge, Step.Star, ExternalSeedHashes, ChangedTargets, ProbeOf, LabelsIn, CanLoad;
    layout.GraphIsOfTree(layout.change.seedTree);
    layout.GraphIsOfTree(layout.change.targetTree);
    SourcesStay(layout);
    WithReadersScopesExactly(layout.readers);
    PrunedStepIsDecided(hasher, layout, seed);
    PrunedStepLoads(hasher, layout, seed);
  }

  /**
   A run pruned by a successful probe keeps the old hashes of all targets that depend
   on such a file, be they rules of other packages or external ones, when there are
   enough of them for the run to merge.
   */
  lemma MisreadFileIsMissed(hasher: Hasher, layout: Layout, percent: nat) returns (step: Step, loaded: Graph)
    requires Injective(hasher) && percent >= 1 && layout.Valid() && |layout.readers| >= 100 * (|layout.change.known| + 1)
    requires forall r | r in layout.readers :: !IsOpaque(hasher, r)
    ensures layout.f != [] && step.hasher == hasher
    ensures RunsOver(layout.change, percent, layout.Load(), layout.External(), step, loaded)
    ensures WellFormed(step.after) && !PersistsExactly(step, loaded)
    ensures forall r | r in layout.readers ::
              && r in step.seed.targetHashes && r !in step.Star() && r in Matching(step.pattern, step.after) && r in step.after
              && step.seed.targetHashes[r] != HashOf(hasher, step.after, r)
  {
    layout.SourceIsDirty();
    var reader :| reader in layout.readers;
    hide Layout.GraphOf, Layout.Load, Layout.External, Layout.Source, Classify, DirtyPackages, KnowsSome, IsMisread, WellFormed,
         Injective, IsFullSeed, WithReaders, Matching, HashOf, IsOpaque, IsDecided, CanLoad, RunsOver, MayMerge,
         KnownPackages, SeedLabels, LabelsNamed, HasEdge, PersistsExactly, Step.Star, ExternalSeedHashes, ChangedTargets, ProbeOf,
         LabelsIn;
    layout.GraphIsWellFormed(layout.change.targetTree);
    var seed := LayoutSeedExists(hasher, layout);
    step, loaded := PrunedStep(hasher, layout, seed), layout.GraphOf(layout.change.targetTree);
    PrunedStepMayMerge(hasher, layout, seed, percent);
    PrunedStepRuns(hasher, layout, seed, percent);
    PrunedStepLoads(hasher, layout, seed);
    forall r | r in layout.readers
      ensures r in Matching(step.pattern, step.after) && r in step.before && r in step.after
      ensures seed.targetHashes[r] == HashOf(hasher, step.before, r) != HashOf(hasher, step.after, r)
    {
      ReadersDiffer(hasher, layout, r);
    }
    DependencyHashesAgree(hasher, step.pattern, step.before, seed);
    RetainedIsWrong(step, loaded, reader);
  }

  lemma ReaderIsNotKept(layout: Layout, r: Label)
    requires layout.Valid() && layout.f != [] && r in layout.readers
    ensures r !in layout.Kept(layout.change.known) + {layout.Source()}
  {
    hide Layout.Valid, Change.Dirty, Packages, Layout.Source;
    layout.SourceIsDirty();
    if r.repo == "" {
      layout.ReadersExist(r);
    }
    assert |["kept", "rule"]| == 2;
  }

  lemma DependencyHashesAgree(hasher: Hasher, pattern: Pattern, graph: Graph, seed: Seed)
    requires IsFullSeed(hasher, pattern, graph, seed)
    ensures forall l | l in seed.targetHashes && l in seed.dependencyHashes :: seed.dependencyHashes[l] == seed.targetHashes[l]
  {
    FullSeedIsTrue(hasher, pattern, graph, seed);
    hide IsFullSeed, Matching, WellFormed, HashOf, AccurateEdges, SeedLabels;
  }

  // ---------- Exactly ----------

  /** A repository that is not opaque. */
  lemma {:induction false} NewRepository(taken: set<string>) returns (n: nat)
    ensures forall repo | repo in taken :: |repo| < n
    decreases taken
  {
    if taken == {} {
      n := 0;
    } else {
      var repo :| repo in taken;
      var others := NewRepository(taken - {repo});
      n := others + |repo| + 1;
    }
  }

  lemma ReadersAreFound(hasher: Hasher, change: Change, f: Path) returns (layout: Layout)
    requires change.Valid() && IsMisread(change, f)
    ensures layout.Valid() && layout.change == change && |layout.readers| >= 100 * (|change.known| + 1)
    ensures forall r | r in layout.readers :: !IsOpaque(hasher, r)
  {
    hide Change.Valid, IsMisread, Change.Dirty;
    var n := NewRepository(hasher.opaqueRepositories);
    var repo: string := seq(n + 1, _ => 'r');
    assert repo != "" && repo !in hasher.opaqueRepositories;
    var count := 100 * (|change.known| + 1);
    layout := Layout(change, f, Numbered(repo, [], count));
    NumberedAreMany(repo, [], count);
    hide Numbered;
  }

  /**
   Exactly which changes of two trees a run over a full run's seed handles, pruned or
   not and whatever is loaded from them: those that overlook no package and change
   no file whose path is misread.
   */
  lemma RunsPersistExactlyIff(hasher: Hasher, change: Change, percent: nat)
    requires Injective(hasher) && percent >= 1 && change.Valid()
    ensures UnknownPackagesHold(change.seedTree, change.targetTree, change.known, change.Dirty()) && NoneMisread(change)
            <==> forall load, external, step: Step, loaded
                   | step.hasher == hasher && RunsOver(change, percent, load, external, step, loaded) ::
                   WellFormed(step.after) && PersistsExactly(step, loaded)
  {
    hide RunsOver, PersistsExactly, WellFormed, Injective, View, Packages, IsDiff, LookupReads, Classify, DirtyPackages,
         Step.IsSeeded, CanLoad, Step.DirtyLabels, UnknownPackagesHold, IsMisread, Layout.Valid, Layout.Load, Layout.External;
    if !UnknownPackagesHold(change.seedTree, change.targetTree, change.known, change.Dirty()) {
      var pkg := OverlookedPackageExists(change);
      var load, external, step, loaded := OverlookedPackageIsMissed(hasher, change, percent, pkg);
    } else if f :| IsMisread(change, f) {
      var layout := ReadersAreFound(hasher, change, f);
      var step, loaded := MisreadFileIsMissed(hasher, layout, percent);
      assert RunsOver(change, percent, layout.Load(), layout.External(), step, loaded);
    } else {
      forall load, external, step: Step, loaded
        | step.hasher == hasher && RunsOver(change, percent, load, external, step, loaded)
        ensures CanLoad(step, loaded) && WellFormed(step.after) && PersistsExactly(step, loaded)
      {
        RunIsValid(change, percent, load, external, step, loaded);
        RunLoads(change, percent, load, external, step, loaded);
        ValidRunPersistsExactly(step, loaded);
      }
    }
  }

  /** There are such changes: t/t is edited, next to a package whose rules may depend on it. */
  lemma MisreadChangeExists(build: File, before: File, after: File) returns (change: Change)
    requires before != after
    ensures change.Valid() && IsMisread(change, ["t", "t"]) && ["a"] in change.known - change.Dirty()
    ensures |change.known| == 2
  {
    hide Classify, DirtyPackages;
    var a, t, f: Path := ["a", "BUILD"], ["t", "BUILD"], ["t", "t"];
    change := Change(map[a := build, t := build, f := before], map[a := build, t := build, f := after], map[f := "M"],
                     {["a"], ["t"]}, None);
    assert a[1] == "BUILD" && t[1] == "BUILD" && f[1] == "t";
    assert IsBuildFile(a) && IsBuildFile(t) && !IsBuildFile(f) && Dir(a) == ["a"] && Dir(t) == Dir(f) == ["t"];
    NoBuildFileNoBoundary(change.diff, change.known, None);
    assert a in change.seedTree && t in change.seedTree && t in change.targetTree;
    assert Owner(f, change.known) == Some(["t"]);
    assert ["a"][0] == "a" && ["t"][0] == "t";
  }

  /** And a pruned run over it keeps the hashes of rules of that package, which name //t:t. */
  lemma EditedFileIsMissed(hasher: Hasher, percent: nat, build: File, before: File, after: File)
    returns (layout: Layout, step: Step, loaded: Graph)
    requires Injective(hasher) && percent >= 1 && before != after
    ensures layout.Valid() && layout.f == ["t", "t"] && layout.readers == Numbered("", ["a"], 300)
    ensures step.hasher == hasher && RunsOver(layout.change, percent, layout.Load(), layout.External(), step, loaded)
    ensures WellFormed(step.after) && !PersistsExactly(step, loaded)
  {
    hide Numbered, Change.Valid, IsMisread, Change.Dirty, RunsOver, PersistsExactly, Injective, WellFormed, Layout.Load,
         Layout.External;
    var change := MisreadChangeExists(build, before, after);
    NumberedAreMany("", ["a"], 300);
    layout := Layout(change, ["t", "t"], Numbered("", ["a"], 300));
    step, loaded := MisreadFileIsMissed(hasher, layout, percent);
  }
}
