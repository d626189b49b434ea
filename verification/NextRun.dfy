/**
 From one run's output to the next run's seed (hash-persister/hash-persister.go:
 mergePersistedData, validateSeed; pkg/hash_persistence.go: the file in between).
 */
module NextRun {
  import opened Wrappers
  import opened Workspace
  import opened Boundaries
  import opened Json
  import opened PersistedFormat
  import opened PersistedReader
  import opened Propagation
  import opened Hashing
  import opened Revisions
  import opened DirtySet
  import opened Pruning
  import opened TargetPatterns
  import opened Incremental
  import opened Chain
  import opened SeededRun
  import opened MergedRuns

  /** Some label of the package is a matching target or below one. */
  ghost predicate IsReached(graph: Graph, matching: set<Label>, pkg: Path) {
    exists l: Label :: l.repo == "" && l.pkg == pkg && IsBelow(graph, matching, l)
  }

  /** A true seed knows only packages of its tree, and every package that is reached. */
  lemma TrueSeedKnowsPackages(hasher: Hasher, tree: Tree, load: Loader, external: Graph, graph: Graph,
                              matching: set<Label>, seed: Seed)
    requires GraphOfTree(tree, load, external, graph) && ValidSeed(hasher, graph, matching, seed)
    ensures KnownPackages(SeedLabels(seed)) <= Packages(tree)
    ensures forall p | p in Packages(tree) && IsReached(graph, matching, p) :: p in KnownPackages(SeedLabels(seed))
  {
    forall p | p in Packages(tree) && IsReached(graph, matching, p)
      ensures p in KnownPackages(SeedLabels(seed))
    {
      var l: Label :| l.repo == "" && l.pkg == p && IsBelow(graph, matching, l);
      var chain: seq<Label> :|
        chain != [] && chain[0] in matching && DescendsFrom(graph, chain) && chain[|chain| - 1] == l;
      EdgesAgreeOnReachable(hasher, graph, matching, seed, chain, |chain| - 1);
    }
    hide IsReached, Acyclic, FullHashes, View, Packages;
  }

  /** A seed that knows every package of its revision leaves a true diff nothing to hide. */
  lemma NothingIsHidden(world: World, lookup: PackageLookup, seed: Seed, diff: map<Path, string>)
    requires Packages(world.seedTree) <= KnownPackages(SeedLabels(seed))
    requires IsDiff(world.seedTree, world.targetTree, diff) && SourcesStaySources(world.before, world.after, diff)
    ensures DiffIsTrue(world, lookup, seed, diff)
  {
    AddedIsExact(world.seedTree, world.targetTree, diff, KnownPackages(SeedLabels(seed)));
    hide Packages, View, KnownPackages, IsDiff, SourcesStaySources;
  }

  /**
   What a run of a chain wrote is what the next seeded run relies on: if its output
   is a true seed, which by `Chain.TrueOutputIff` means that it lost no edges, then
   the seed hypothesis of `SeededRun.RunSeeded` holds for it, and if every package
   of its revision is reached, so does the one about a true diff to any other tree.
   */
  lemma TrueOutputSeedsNextRun(hasher: Hasher, pattern: Pattern, link: Link, world: World, config: Config, file: SeedFile,
                               lookup: PackageLookup, diff: map<Path, string>)
    requires IsLink(hasher, pattern, link) && IsTrueOutput(hasher, pattern, link)
    requires world.hasher == hasher && world.before == link.After() && config.pattern == pattern
    requires GraphOfTree(world.seedTree, world.load, world.external, world.before)
    requires file.seed == OutputOf(hasher, pattern, link)
    requires IsDiff(world.seedTree, world.targetTree, diff) && SourcesStaySources(world.before, world.after, diff)
    ensures SeedIsTrue(world, config, file)
    ensures (forall p | p in Packages(world.seedTree) :: IsReached(world.before, Matching(pattern, world.before), p))
            ==> DiffIsTrue(world, lookup, file.seed, diff)
  {
    hide IsLink, OutputOf, IsReached, ValidSeed, KnownPackages, Packages, Matching, IsDiff, SourcesStaySources, DiffIsTrue;
    TrueSeedKnowsPackages(hasher, world.seedTree, world.load, world.external, world.before,
                          Matching(pattern, world.before), file.seed);
    if forall p | p in Packages(world.seedTree) :: IsReached(world.before, Matching(pattern, world.before), p) {
      NothingIsHidden(world, lookup, file.seed, diff);
    }
  }

  // ---------- Through the file ----------

  /** The printed forms of labels and hashes, and the one configuration there is. */
  datatype TextForm = TextForm(name: Label -> string, hex: Hash -> string, configuration: string) {
    ghost predicate IsInjective() {
      && (forall l, k :: name(l) == name(k) ==> l == k)
      && (forall h, g :: hex(h) == hex(g) ==> h == g)
    }

    function PrintAll(labels: seq<Label>): seq<string> {
      seq(|labels|, i requires 0 <= i < |labels| => name(labels[i]))
    }

    ghost predicate WritesHashes(text: HashesByLabel, hashes: map<Label, Hash>) {
      && (forall l | l in hashes :: name(l) in text && text[name(l)] == map[configuration := hex(hashes[l])])
      && (forall key | key in text :: exists l :: l in hashes && name(l) == key)
    }

    ghost predicate WritesEdges(text: map<string, seq<string>>, edges: Edges) {
      && (forall l | l in edges :: name(l) in text && text[name(l)] == PrintAll(edges[l]))
      && (forall key | key in text :: exists l :: l in edges && name(l) == key)
    }

    /** The seed is what the persisted data says. */
    ghost predicate IsTextOf(data: PersistedData, seed: Seed) {
      && WritesHashes(EntriesOf(data.targetHashes), seed.targetHashes)
      && WritesEdges(EntriesOf(data.edges), seed.edges)
      && WritesHashes(EntriesOf(data.dependencyHashes), seed.dependencyHashes)
    }
  }

  /** A nil map has no entries. */
  function EntriesOf<V>(m: Option<map<string, V>>): map<string, V> {
    if m.Some? then m.value else map[]
  }

  lemma SameHashEntry(form: TextForm, text: HashesByLabel, hashes: map<Label, Hash>, others: map<Label, Hash>, l: Label)
    requires form.IsInjective() && form.WritesHashes(text, hashes) && form.WritesHashes(text, others) && l in hashes
    ensures l in others && hashes[l] == others[l]
  {
    var k :| k in others && form.name(k) == form.name(l);
    assert map[form.configuration := form.hex(hashes[l])][form.configuration] == form.hex(hashes[l]);
    assert map[form.configuration := form.hex(others[l])][form.configuration] == form.hex(others[l]);
  }

  lemma SameHashText(form: TextForm, text: HashesByLabel, hashes: map<Label, Hash>, others: map<Label, Hash>)
    requires form.IsInjective() && form.WritesHashes(text, hashes) && form.WritesHashes(text, others)
    ensures hashes == others
  {
    hide *;
    forall l | l in hashes
      ensures l in others && hashes[l] == others[l]
    {
      SameHashEntry(form, text, hashes, others, l);
    }
    forall l | l in others
      ensures l in hashes
    {
      SameHashEntry(form, text, others, hashes, l);
    }
  }

  lemma SameEdgeEntry(form: TextForm, text: map<string, seq<string>>, edges: Edges, others: Edges, l: Label)
    requires form.IsInjective() && form.WritesEdges(text, edges) && form.WritesEdges(text, others) && l in edges
    ensures l in others && edges[l] == others[l]
  {
    var k :| k in others && form.name(k) == form.name(l);
    SameListText(form, edges[l], others[l]);
  }

  lemma SameListText(form: TextForm, labels: seq<Label>, others: seq<Label>)
    requires form.IsInjective() && form.PrintAll(labels) == form.PrintAll(others)
    ensures labels == others
  {
    var here, there := form.PrintAll(labels), form.PrintAll(others);
    assert |here| == |labels| && |there| == |others|;
    forall i | 0 <= i < |labels|
      ensures labels[i] == others[i]
    {
      assert here[i] == form.name(labels[i]) && there[i] == form.name(others[i]);
    }
  }

  lemma SameEdgeText(form: TextForm, text: map<string, seq<string>>, edges: Edges, others: Edges)
    requires form.IsInjective() && form.WritesEdges(text, edges) && form.WritesEdges(text, others)
    ensures edges == others
  {
    hide *;
    forall l | l in edges
      ensures l in others && edges[l] == others[l]
    {
      SameEdgeEntry(form, text, edges, others, l);
    }
    forall l | l in others
      ensures l in edges
    {
      SameEdgeEntry(form, text, others, edges, l);
    }
  }

  /** The same persisted data is read as the same seed. */
  lemma TextDeterminesSeed(form: TextForm, data: PersistedData, seed: Seed, other: Seed)
    requires form.IsInjective() && form.IsTextOf(data, seed) && form.IsTextOf(data, other)
    ensures seed == other
  {
    hide TextForm.WritesHashes, TextForm.WritesEdges, TextForm.IsInjective;
    SameHashText(form, EntriesOf(data.targetHashes), seed.targetHashes, other.targetHashes);
    SameEdgeText(form, EntriesOf(data.edges), seed.edges, other.edges);
    SameHashText(form, EntriesOf(data.dependencyHashes), seed.dependencyHashes, other.dependencyHashes);
  }

  /** The file that reading the given data gives. */
  ghost predicate IsReadAs(form: TextForm, data: PersistedData, file: SeedFile) {
    && file.formatVersion == data.version && file.commit == data.commit && file.fingerprint == data.fingerprint
    && file.bazelRelease == data.release && file.hasEdges == data.edges.Some?
    && form.IsTextOf(data, file.seed)
  }

  lemma EmptyTextIffNoEdges(form: TextForm, data: PersistedData, seed: Seed)
    requires form.IsTextOf(data, seed)
    ensures EntriesOf(data.edges) == map[] <==> seed.edges == map[]
  {
    hide TextForm.WritesHashes, TextForm.PrintAll;
    if l :| l in seed.edges {
      assert form.name(l) in EntriesOf(data.edges);
    }
    if key :| key in EntriesOf(data.edges) {
      var l :| l in seed.edges && form.name(l) == key;
    }
  }

  /** A file written of a seed and read back is that seed. */
  lemma WrittenSeedIsReadBack(form: TextForm, library: Library, data: PersistedData, seed: Seed, file: SeedFile)
    requires library.Faithful() && form.IsInjective() && form.IsTextOf(data, seed)
    requires var read := ReadDocument(library, Tokenize(Render(DocumentOf(library, data)) + [Newline]), CompleteSeed);
             read.Some? ==> IsReadAs(form, read.value, file)
    ensures file.seed == seed
    ensures file.hasEdges <==> seed.edges != map[]
    ensures file.formatVersion == data.version && file.commit == data.commit && file.fingerprint == data.fingerprint
  {
    hide ReadDocument, Tokenize, Render, Library.Faithful, DocumentOf, TextForm.IsInjective, TextForm.WritesHashes,
         TextForm.WritesEdges;
    WrittenIsReadBack(library, data, Render(DocumentOf(library, data)) + [Newline]);
    assert form.IsTextOf(ReadBack(data), seed);
    TextDeterminesSeed(form, ReadBack(data), seed, file.seed);
    EmptyTextIffNoEdges(form, data, seed);
  }

  /**
   Whatever was written, it is accepted when it is read back if and only if it has
   the current format, at least one edge, the commit and the fingerprint that are
   asked for, and hashes of full size only; and if it is not, the code is that of
   the first of these that fails.
   */
  lemma WrittenFileIsAcceptedIff(form: TextForm, library: Library, data: PersistedData, seed: Seed, file: SeedFile, config: Config)
    requires library.Faithful() && form.IsInjective() && form.IsTextOf(data, seed)
    requires var read := ReadDocument(library, Tokenize(Render(DocumentOf(library, data)) + [Newline]), CompleteSeed);
             read.Some? ==> IsReadAs(form, read.value, file)
    ensures var reason := ValidateSeed(file, config);
            var format, commit := data.version == 9, data.commit == config.seedCommit;
            var compatible := data.fingerprint != "" && data.fingerprint == config.fingerprint;
            && (reason == Some("seed_format_incompatible") <==> !format)
            && (reason == Some("seed_missing_edges") <==> format && seed.edges == map[])
            && (reason == Some("seed_commit_mismatch") <==> format && seed.edges != map[] && !commit)
            && (reason == Some("seed_compatibility_mismatch") <==> format && seed.edges != map[] && commit && !compatible)
            && (reason.None? <==>
                  && format && seed.edges != map[] && commit && compatible
                  && (forall l | l in seed.targetHashes :: seed.targetHashes[l].Sha256?)
                  && (forall l | l in seed.dependencyHashes :: seed.dependencyHashes[l].Sha256?))
            && (reason.Some? ==> reason.value in {"seed_format_incompatible", "seed_missing_edges", "seed_commit_mismatch",
                                                  "seed_compatibility_mismatch", "seed_hash_invalid"})
  {
    hide ReadDocument, Tokenize, Render, ValidHashes, Library.Faithful, DocumentOf, TextForm.IsInjective, TextForm.IsTextOf,
         IsReadAs, ValidateSeed;
    WrittenSeedIsReadBack(form, library, data, seed, file);
  }
}
