/**
 The decision flow of a seeded run (hash-persister/hash-persister.go: runSeeded,
 validateSeed, shouldFallbackForRecomputation, runFull).
 */
module SeededRun {
  import opened Wrappers
  import opened Workspace
  import opened Boundaries
  import opened Propagation
  import opened Hashing
  import opened HashCalls
  import opened HashCache
  import opened Revisions
  import opened DirtySet
  import opened Pruning
  import opened TargetPatterns
  import opened Incremental

  const CURRENT_FORMAT_VERSION := 9

  /** A persisted hash file with its header. */
  datatype SeedFile = SeedFile(
    formatVersion: nat, commit: string, fingerprint: string, bazelRelease: string, hasEdges: bool, seed: Seed)

  datatype Config = Config(
    commit: string, seedCommit: string, fingerprint: string, pattern: Pattern, triggers: Triggers, fallbackPercent: nat)

  datatype LoadedTargets = LoadedTargets(graph: Graph, bazelRelease: string)

  /** What git, Bazel and the file system answer; None is a failed call. */
  datatype Answers = Answers(
    seedFile: Option<SeedFile>,
    diff: Option<map<Path, string>>,
    lookup: PackageLookup,
    probe: set<Path> -> Option<ProbeResult>,
    quotable: bool,
    scopable: bool,
    scopedLoad: set<Label> -> Option<LoadedTargets>,
    fullLoad: Graph)

  /** The two revisions, which no part of the run sees as a whole. */
  datatype World = World(
    hasher: Hasher, seedTree: Tree, targetTree: Tree, load: Loader, external: Graph, before: Graph, after: Graph)

  datatype Outcome = Outcome(usedSeed: bool, fallbackCode: string, recomputed: nat, total: nat)

  // ---------- Hypotheses ----------

  /** A loaded part of the target graph holds the given labels with all their dependencies. */
  ghost predicate LoadsTargets(loaded: Graph, graph: Graph, labels: set<Label>) {
    WellFormed(loaded) && PartOf(loaded, graph) && labels <= loaded.Keys
  }

  /** What a run asks of a seed file before it uses it. */
  ghost predicate IsAccepted(file: SeedFile, config: Config) {
    && file.formatVersion == 9 && file.hasEdges && file.commit == config.seedCommit
    && file.fingerprint != "" && file.fingerprint == config.fingerprint
    && (forall l | l in file.seed.targetHashes :: file.seed.targetHashes[l].Sha256?)
    && (forall l | l in file.seed.dependencyHashes :: file.seed.dependencyHashes[l].Sha256?)
  }

  /** A seed that is accepted tells the truth about its revision. */
  ghost predicate SeedIsTrue(world: World, config: Config, file: SeedFile)
    requires WellFormed(world.before)
  {
    ValidSeed(world.hasher, world.before, Matching(config.pattern, world.before), file.seed)
  }

  /** The diff is that of the two trees, and hides nothing in packages where the seed has no label. */
  ghost predicate DiffIsTrue(world: World, lookup: PackageLookup, seed: Seed, diff: map<Path, string>) {
    && IsDiff(world.seedTree, world.targetTree, diff)
    && SourcesStaySources(world.before, world.after, diff)
    && var known := KnownPackages(SeedLabels(seed));
    && var classified := Classify(diff, known, lookup);
    && (classified.Ok? ==>
          UnknownPackagesHold(world.seedTree, world.targetTree, known, DirtyPackages(diff, known, classified.value)))
  }

  /** Some probe succeeds, so that the run may prune. */
  ghost predicate MayProbe(answers: Answers) {
    exists packages :: answers.probe(packages).Some?
  }

  ghost predicate Honest(world: World, config: Config, answers: Answers) {
    && Injective(world.hasher)
    && GraphOfTree(world.seedTree, world.load, world.external, world.before)
    && GraphOfTree(world.targetTree, world.load, world.external, world.after)
    && (answers.seedFile.Some? && IsAccepted(answers.seedFile.value, config) ==>
          && SeedIsTrue(world, config, answers.seedFile.value)
          && (answers.diff.Some? ==> DiffIsTrue(world, answers.lookup, answers.seedFile.value.seed, answers.diff.value))
          && (forall packages | answers.probe(packages).Some? ::
                IsProbe(world.hasher, world.after, answers.seedFile.value.seed, packages, answers.probe(packages).value))
          && (answers.diff.Some? && MayProbe(answers) ==>
                FilesAreFound(answers.seedFile.value.seed, world.after, answers.diff.value)))
    && LookupReads(answers.lookup, world.targetTree)
    && (forall scope | answers.scopedLoad(scope).Some? ::
          LoadsTargets(answers.scopedLoad(scope).value.graph, world.after, Matches(config.pattern, world.after, scope)))
    && LoadsTargets(answers.fullLoad, world.after, Matching(config.pattern, world.after))
  }

  // ---------- When a run uses its seed ----------

  /** The code of the first requirement that a seed file does not meet. */
  ghost predicate IsHeaderCode(file: SeedFile, config: Config, code: string) {
    var format, edges, commit := file.formatVersion == 9, file.hasEdges, file.commit == config.seedCommit;
    var compatible := file.fingerprint != "" && file.fingerprint == config.fingerprint;
    || (code == "seed_format_incompatible" && !format)
    || (code == "seed_missing_edges" && format && !edges)
    || (code == "seed_commit_mismatch" && format && edges && !commit)
    || (code == "seed_compatibility_mismatch" && format && edges && commit && !compatible)
    || (code == "seed_hash_invalid" && format && edges && commit && compatible && !IsAccepted(file, config))
  }

  /** What the diff says of the packages that the seed knows. */
  ghost function ChangesOf(seed: Seed, diff: map<Path, string>, lookup: PackageLookup): Result<BoundaryChanges, LookupError> {
    Classify(diff, KnownPackages(SeedLabels(seed)), lookup)
  }

  ghost function DirtyPackagesOf(seed: Seed, diff: map<Path, string>, changes: BoundaryChanges): set<Path> {
    DirtyPackages(diff, KnownPackages(SeedLabels(seed)), changes)
  }

  /** The labels of the dirty packages, and everything that the seed records above those of them in `changed`. */
  ghost function LabelsAbove(seed: Seed, packages: set<Path>, changed: set<Label>): set<Label> {
    LabelsIn(SeedLabels(seed), packages) + Upstream(seed.edges, changed)
  }

  /**
   The labels whose seed hashes a run gives up: pruned by the probe's answer
   whenever something is above the dirty labels and the probe answers.
   */
  ghost function StarOfRun(seed: Seed, diff: map<Path, string>, changes: BoundaryChanges,
                           probe: set<Path> -> Option<ProbeResult>): set<Label> {
    var packages := DirtyPackagesOf(seed, diff, changes);
    var labels, answer := LabelsIn(SeedLabels(seed), packages), probe(packages - changes.removed);
    if |LabelsAbove(seed, packages, labels)| > |labels| && answer.Some?
    then LabelsAbove(seed, packages, ChangedTargets(labels, seed, answer.value, diff))
    else LabelsAbove(seed, packages, labels)
  }

  /** The universe of the scoped query. */
  ghost function ScopeOfRun(world: World, seed: Seed, diff: map<Path, string>, changes: BoundaryChanges,
                            probe: set<Path> -> Option<ProbeResult>): set<Label> {
    var packages, star := DirtyPackagesOf(seed, diff, changes), StarOfRun(seed, diff, changes, probe);
    Scope(world.after, packages - changes.removed, Carried(star, seed, packages))
  }

  /** No package has to be listed again, and no seeded label is dirty. */
  ghost predicate NothingAffected(seed: Seed, diff: map<Path, string>, changes: BoundaryChanges) {
    var packages := DirtyPackagesOf(seed, diff, changes);
    packages - changes.removed == {} && LabelsAbove(seed, packages, LabelsIn(SeedLabels(seed), packages)) == {}
  }

  /** The dirty set before pruning. */
  ghost predicate IsDirtySetOf(dirty: DirtySetResult, seed: Seed, diff: map<Path, string>, changes: BoundaryChanges) {
    var packages := DirtyPackagesOf(seed, diff, changes);
    && dirty.Dirty?
    && dirty.labels == LabelsIn(SeedLabels(seed), packages) && dirty.star == LabelsAbove(seed, packages, dirty.labels)
    && dirty.packages == packages - changes.removed && dirty.removed == changes.removed
  }

  /** The share of the seeded targets that lose their hashes is below the limit, or there are none. */
  ghost predicate IsBelowLimit(seed: Seed, star: set<Label>, percent: nat) {
    var recomputed, total := |seed.targetHashes.Keys * star|, |seed.targetHashes|;
    recomputed == 0 || recomputed * 100 < total * percent
  }

  ghost predicate IsFreeOfTriggers(diff: map<Path, string>, triggers: Triggers) {
    forall f | f in diff :: f !in triggers.fingerprintFiles && !triggers.unsafe(f)
  }

  /** The scoped query is answered, by the Bazel that wrote the seed. */
  ghost predicate ScopedQueryAnswers(answers: Answers, release: string, scope: set<Label>) {
    answers.scopedLoad(scope).Some? && answers.scopedLoad(scope).value.bazelRelease == release
  }

  /** Everything the run needs to answer in its favour so that it uses the seed. */
  ghost predicate UsesSeed(world: World, config: Config, answers: Answers) {
    && answers.seedFile.Some? && IsAccepted(answers.seedFile.value, config) && answers.diff.Some?
    && DiffAllowsSeed(world, config, answers, answers.seedFile.value.seed, answers.diff.value)
  }

  ghost predicate DiffAllowsSeed(world: World, config: Config, answers: Answers, seed: Seed, diff: map<Path, string>)
    requires answers.seedFile.Some?
  {
    && IsFreeOfTriggers(diff, config.triggers) && ChangesOf(seed, diff, answers.lookup).Ok?
    && var changes := ChangesOf(seed, diff, answers.lookup).value;
    && (NothingAffected(seed, diff, changes) || CanMerge(world, config, answers, seed, diff, changes))
  }

  ghost predicate CanMerge(world: World, config: Config, answers: Answers, seed: Seed, diff: map<Path, string>,
                           changes: BoundaryChanges)
    requires answers.seedFile.Some?
  {
    && IsBelowLimit(seed, StarOfRun(seed, diff, changes, answers.probe), config.fallbackPercent)
    && answers.quotable && answers.scopable
    && ScopedQueryAnswers(answers, answers.seedFile.value.bazelRelease,
                          ScopeOfRun(world, seed, diff, changes, answers.probe))
  }

  /** The code that tells which answer was the first to force a full run; "" if none was. */
  ghost predicate IsCodeOf(world: World, config: Config, answers: Answers, code: string) {
    if answers.seedFile.None? then code == "seed_read_error"
    else if !IsAccepted(answers.seedFile.value, config) then IsHeaderCode(answers.seedFile.value, config, code)
    else if answers.diff.None? then code == "git_diff_error"
    else IsCodeOfDiff(world, config, answers, answers.seedFile.value.seed, answers.diff.value, code)
  }

  ghost predicate IsCodeOfDiff(world: World, config: Config, answers: Answers, seed: Seed, diff: map<Path, string>,
                               code: string)
    requires answers.seedFile.Some?
  {
    if !IsFreeOfTriggers(diff, config.triggers) then IsTriggerCode(diff, config.triggers, code)
    else if ChangesOf(seed, diff, answers.lookup).Err? then code == "package_lookup_error"
    else IsCodeOfPlan(world, config, answers, seed, diff, ChangesOf(seed, diff, answers.lookup).value, code)
  }

  ghost predicate IsCodeOfPlan(world: World, config: Config, answers: Answers, seed: Seed, diff: map<Path, string>,
                               changes: BoundaryChanges, code: string)
    requires answers.seedFile.Some?
  {
    if NothingAffected(seed, diff, changes) then code == ""
    else IsCodeOfMerge(answers, answers.seedFile.value.bazelRelease,
                       IsBelowLimit(seed, StarOfRun(seed, diff, changes, answers.probe), config.fallbackPercent),
                       ScopeOfRun(world, seed, diff, changes, answers.probe), code)
  }

  ghost predicate IsCodeOfMerge(answers: Answers, release: string, belowLimit: bool, scope: set<Label>, code: string) {
    if !belowLimit then code == "high_recomputation_ratio"
    else if !answers.quotable then code == "unquotable_scoped_universe"
    else if !answers.scopable then code == "unscopable_target_pattern"
    else if answers.scopedLoad(scope).None? then code == "scoped_query_error"
    else code == if answers.scopedLoad(scope).value.bazelRelease != release then "bazel_release_changed" else ""
  }

  // ---------- Decisions ----------

  /** Every recorded hash is a full-size digest. */
  predicate ValidHashes(seed: Seed) {
    && (forall l | l in seed.targetHashes :: seed.targetHashes[l].Sha256?)
    && (forall l | l in seed.dependencyHashes :: seed.dependencyHashes[l].Sha256?)
  }

  /** The reason to reject a seed: that of the first check it fails. */
  function ValidateSeed(file: SeedFile, config: Config): (reason: Option<string>)
    ensures reason.None? <==> IsAccepted(file, config)
    ensures reason.Some? ==> IsHeaderCode(file, config, reason.value)
  {
    if file.formatVersion != CURRENT_FORMAT_VERSION then Some("seed_format_incompatible")
    else if !file.hasEdges then Some("seed_missing_edges")
    else if file.commit != config.seedCommit then Some("seed_commit_mismatch")
    else if file.fingerprint == "" || file.fingerprint != config.fingerprint then Some("seed_compatibility_mismatch")
    else if !ValidHashes(file.seed) then Some("seed_hash_invalid")
    else None
  }

  predicate ShouldFallbackForRecomputation(recomputed: nat, total: nat, percent: nat) {
    total > 0 && recomputed > 0 && recomputed * 100 >= total * percent
  }

  // ---------- Running ----------

  /** Seeds a new table, hashes the matching targets in it and reads them back after it is frozen. */
  method HashMatching(hasher: Hasher, loaded: Graph, seeds: map<Label, Hash>, matching: set<Label>)
    returns (hashes: map<Label, Hash>)
    requires WellFormed(loaded) && matching <= loaded.Keys
    ensures hashes == map l | l in matching :: SeededHash(hasher, loaded, seeds, l)
  {
    var table := new TargetHashCache(hasher, loaded, {});
    table.SeedHashes(seeds);
    assert map[] + seeds == seeds;
    ghost var query := table.AsQuery();
    forall l | l in matching
      ensures ResultOf(query, l) == Ok(SeededHash(hasher, loaded, seeds, l))
    {
      ReadableGraphsHash(query, l);
    }
    hide ResultOf, SeededHash, WellFormed;
    var error := HashAll(table, matching);
    hashes := ReadAll(table, matching);
    forall l | l in matching
      ensures hashes[l] == SeededHash(hasher, loaded, seeds, l)
    {
      assert ResultOf(query, l) == Ok(table.Computed()[l]);
    }
  }

  method RunFull(hasher: Hasher, pattern: Pattern, after: Graph, loaded: Graph, code: string)
    returns (outcome: Outcome, hashes: map<Label, Hash>)
    requires WellFormed(after) && LoadsTargets(loaded, after, Matching(pattern, after))
    ensures outcome == Outcome(false, code, |hashes|, |hashes|)
    ensures Matching(pattern, after) <= after.Keys
    ensures hashes == FullHashes(hasher, after, Matching(pattern, after))
  {
    var matching := Matching(pattern, after);
    assert matching <= after.Keys;
    hide Matching, AllRules, SeededHash;
    hashes := HashMatching(hasher, loaded, map[], matching);
    forall l | l in matching
      ensures hashes[l] == HashOf(hasher, after, l)
    {
      PartHashesAgree(hasher, loaded, after, map[], l);
    }
    outcome := Outcome(false, code, |hashes|, |hashes|);
  }

  /** The step a dirty set belongs to. */
  ghost predicate Describes(dirty: DirtySetResult, step: Step) {
    && dirty.Dirty?
    && dirty.labels == step.DirtyLabels() && dirty.star == step.Star()
    && dirty.packages == step.dirty - step.removed && dirty.removed == step.removed <= step.dirty
  }

  /** The step in which every label of a dirty package counts as changed. */
  ghost function UnprunedStep(world: World, config: Config, seed: Seed, diff: map<Path, string>,
                              changes: BoundaryChanges): Step {
    var packages := DirtyPackages(diff, KnownPackages(SeedLabels(seed)), changes);
    Step(world.hasher, config.pattern, world.before, world.after, seed, packages, changes.removed, diff,
         map[], LabelsIn(SeedLabels(seed), packages))
  }

  /** A true seed has labels only in packages of its revision. */
  lemma KnownPackagesExist(world: World, matching: set<Label>, seed: Seed)
    requires GraphOfTree(world.seedTree, world.load, world.external, world.before)
    requires ValidSeed(world.hasher, world.before, matching, seed)
    ensures KnownPackages(SeedLabels(seed)) <= Packages(world.seedTree)
  {
    hide Acyclic, FullHashes, View, Packages, SeedLabels;
  }

  lemma UnprunedStepIsValid(world: World, config: Config, answers: Answers, seed: Seed, diff: map<Path, string>)
    requires Honest(world, config, answers) && answers.seedFile.Some? && answers.diff == Some(diff)
    requires IsAccepted(answers.seedFile.value, config) && answers.seedFile.value.seed == seed
    requires Classify(diff, KnownPackages(SeedLabels(seed)), answers.lookup).Ok?
    ensures var changes := Classify(diff, KnownPackages(SeedLabels(seed)), answers.lookup).value;
            UnprunedStep(world, config, seed, diff, changes).IsSeeded()
  {
    hide IsAccepted, Packages, View, LoadsTargets, IsProbe, Matches, Matching, IsDiff, SourcesStaySources, LookupReads;
    var known := KnownPackages(SeedLabels(seed));
    var changes := Classify(diff, known, answers.lookup).value;
    KnownPackagesExist(world, Matching(config.pattern, world.before), seed);
    DiffGivesTransition(world.seedTree, world.targetTree, world.load, world.external, world.before, world.after,
                        diff, known, answers.lookup);
    var packages := DirtyPackages(diff, known, changes);
    assert changes.removed <= packages;
    hide DirtyPackages, Classify, GraphOfTree, KnownPackages, Transition;
    UnprunedIsJustified(world.hasher, world.before, world.after, seed, packages, diff);
  }

  /** A step from the seed over the diff to the target. */
  ghost predicate IsStepOver(world: World, config: Config, seed: Seed, diff: map<Path, string>, step: Step) {
    && step.IsSeeded() && step.hasher == world.hasher && step.pattern == config.pattern && step.after == world.after
    && step.seed == seed && step.changedFiles == diff
  }

  /** The step whose merge a run persists. */
  ghost predicate IsStepOf(world: World, config: Config, answers: Answers, step: Step) {
    && answers.seedFile.Some? && answers.diff.Some? && IsAccepted(answers.seedFile.value, config)
    && var seed, diff := answers.seedFile.value.seed, answers.diff.value;
    && IsStepOver(world, config, seed, diff, step) && IsBelowLimit(seed, step.Star(), config.fallbackPercent)
    && var changes := ChangesOf(seed, diff, answers.lookup);
    && changes.Ok? && step.Star() == StarOfRun(seed, diff, changes.value, answers.probe)
  }

  /** What a run relies on after validation. */
  ghost predicate AnswersHold(world: World, config: Config, answers: Answers, seed: Seed, diff: map<Path, string>) {
    && (forall packages | answers.probe(packages).Some? ::
          IsProbe(world.hasher, world.after, seed, packages, answers.probe(packages).value))
    && (MayProbe(answers) ==> FilesAreFound(seed, world.after, diff))
    && (forall scope | answers.scopedLoad(scope).Some? ::
          LoadsTargets(answers.scopedLoad(scope).value.graph, world.after, Matches(config.pattern, world.after, scope)))
  }

  lemma HonestAnswersHold(world: World, config: Config, answers: Answers)
    requires Honest(world, config, answers) && answers.seedFile.Some? && answers.diff.Some?
    requires IsAccepted(answers.seedFile.value, config)
    ensures AnswersHold(world, config, answers, answers.seedFile.value.seed, answers.diff.value)
  {
    hide IsAccepted, IsProbe, MayProbe, FilesAreFound, LoadsTargets, Matches, SeedIsTrue, DiffIsTrue, GraphOfTree;
  }

  /** The dirty set from the diff; every label of a dirty package counts as changed. */
  method FindDirtySet(world: World, config: Config, answers: Answers)
    returns (dirty: DirtySetResult, ghost step: Step)
    requires Honest(world, config, answers) && answers.seedFile.Some? && answers.diff.Some?
    requires IsAccepted(answers.seedFile.value, config)
    ensures var seed, diff := answers.seedFile.value.seed, answers.diff.value;
            && (dirty.Dirty? <==> IsFreeOfTriggers(diff, config.triggers) && ChangesOf(seed, diff, answers.lookup).Ok?)
            && (dirty.Dirty? ==> IsDirtySetOf(dirty, seed, diff, ChangesOf(seed, diff, answers.lookup).value))
            && (dirty.Fallback? ==> IsCodeOfDiff(world, config, answers, seed, diff, dirty.code) && dirty.code != "")
    ensures dirty.Dirty? ==>
              && IsStepOver(world, config, answers.seedFile.value.seed, answers.diff.value, step) && Describes(dirty, step)
  {
    hide Honest, IsCodeOfPlan, KnownPackages, LabelsIn, IsStepOver, Describes, IsDirtySetOf, DirtySetOf,
         UnprunedStep, Classify, IsAccepted;
    var seed, diff := answers.seedFile.value.seed, answers.diff.value;
    var labels := CollectAllLabels(seed.edges, seed.targetHashes.Keys);
    dirty := ComputeDirtySet(diff, seed.edges, labels, config.triggers, answers.lookup);
    step := UnprunedStep(world, config, seed, diff, BoundaryChanges({}, {}));
    if dirty.Dirty? {
      ghost var changes := ChangesOf(seed, diff, answers.lookup).value;
      step := UnprunedStep(world, config, seed, diff, changes);
      UnprunedStepIsValid(world, config, answers, seed, diff);
      DirtySetIsThatOfStep(world, config, seed, diff, changes);
    }
  }

  lemma DirtySetIsThatOfStep(world: World, config: Config, seed: Seed, diff: map<Path, string>, changes: BoundaryChanges)
    requires UnprunedStep(world, config, seed, diff, changes).IsSeeded()
    ensures var dirty := DirtySetOf(diff, seed.edges, SeedLabels(seed), changes);
            && IsDirtySetOf(dirty, seed, diff, changes)
            && Describes(dirty, UnprunedStep(world, config, seed, diff, changes))
    ensures IsStepOver(world, config, seed, diff, UnprunedStep(world, config, seed, diff, changes))
  {
    hide Step.IsSeeded, Upstream, DirtyPackages, KnownPackages, LabelsIn, SeedLabels;
    RemovedIsDirty(diff, KnownPackages(SeedLabels(seed)), changes);
  }

  lemma RemovedIsDirty(diff: map<Path, string>, known: set<Path>, changes: BoundaryChanges)
    ensures changes.removed <= DirtyPackages(diff, known, changes)
  {
  }

  /** Only dirty* changes, and only if something is above the dirty labels and the probe answers. */
  ghost predicate IsPruned(unpruned: DirtySetResult, pruned: DirtySetResult, seed: Seed, diff: map<Path, string>,
                           probe: set<Path> -> Option<ProbeResult>)
    requires unpruned.Dirty?
  {
    var labels, answer := unpruned.labels, probe(unpruned.packages);
    pruned == unpruned.(star := if |unpruned.star| > |labels| && answer.Some?
                                then labels + Upstream(seed.edges, ChangedTargets(labels, seed, answer.value, diff))
                                else unpruned.star)
  }

  /** Probes the dirty packages and prunes, unless the dirty set has no propagated labels or the probe fails. */
  method ProbePrune(dirty: DirtySetResult, ghost step: Step, seed: Seed, diff: map<Path, string>,
                    probe: set<Path> -> Option<ProbeResult>)
    returns (pruned: DirtySetResult, ghost prunedStep: Step)
    requires step.IsSeeded() && Describes(dirty, step) && step.seed == seed && step.changedFiles == diff
    requires probe(dirty.packages).Some? ==>
               && IsProbe(step.hasher, step.after, seed, dirty.packages, probe(dirty.packages).value)
               && FilesAreFound(seed, step.after, diff)
    ensures prunedStep.IsSeeded() && Describes(pruned, prunedStep)
    ensures IsPruned(dirty, pruned, seed, diff, probe)
    ensures prunedStep == step.(probeSeeds := prunedStep.probeSeeds, changed := prunedStep.changed)
  {
    pruned, prunedStep := dirty, step;
    if |dirty.star| > |dirty.labels| {
      var result := probe(dirty.packages);
      if result.Some? {
        pruned := PruneDirtySet(dirty, seed, result.value, diff);
        ghost var changed := ChangedTargets(dirty.labels, seed, result.value, diff);
        ProbeJustifies(step.hasher, step.before, step.after, Matching(step.pattern, step.before), seed,
                       step.dirty, step.removed, diff, result.value);
        prunedStep := step.(probeSeeds := ExternalSeedHashes(seed, dirty.packages), changed := changed);
      }
    }
  }

  /** The scoped query, the seeded hashing and the merge. */
  method RunScoped(hasher: Hasher, pattern: Pattern, after: Graph, loaded: Graph, seed: Seed,
                   dirty: DirtySetResult, scope: set<Label>, ghost step: Step)
    returns (outcome: Outcome, hashes: map<Label, Hash>)
    requires step.IsSeeded() && Describes(dirty, step)
    requires step.hasher == hasher && step.pattern == pattern && step.after == after && step.seed == seed
    requires scope == step.ScopeAfter() && LoadsTargets(loaded, after, Matches(pattern, after, scope))
    ensures WellFormed(after) && Matching(pattern, after) <= after.Keys
    ensures hashes == FullHashes(hasher, after, Matching(pattern, after)) <==> Misjudged(step) == {}
    ensures outcome == Outcome(true, "", |Matches(pattern, after, scope)|, |hashes|)
  {
    hide Step.IsSeeded, Step.ScopeAfter, Step.Star, Merge, WellFormed, PartOf, FullHashes, SeededHash, Matches,
         Matching, ReusableHashes, Misjudged;
    SeededIsTold(step);
    MatchingTargetsExist(step);
    MergesExactlyIff(step, loaded);
    ghost var expected := FreshHashes(step, loaded);
    var matching := Matches(pattern, after, scope);
    var seeds := ReusableHashes(seed, dirty.star);
    var recomputed := HashMatching(hasher, loaded, seeds, matching);
    assert recomputed == expected && recomputed.Keys == matching;
    hashes := MergePersistedEntries(seed.targetHashes, dirty.star, recomputed);
    outcome := Outcome(true, "", |recomputed|, |hashes|);
  }

  /** How many hashes a run computes: all, none, or those that the scoped query selects. */
  ghost function RecomputedBy(usedSeed: bool, merged: Option<Step>, all: nat): nat {
    if !usedSeed then all
    else if merged.None? then 0
    else |Matches(merged.value.pattern, merged.value.after, merged.value.ScopeAfter())|
  }

  /**
   Seeding changes the cost of a run and not its result: whatever the seed, the
   diff, the probe and the queries answer, and on every path through the decisions
   below, the persisted target hashes are those of a full run, if and only if the
   run does not merge, or its scoped query misjudges no target. It misjudges none
   if the pattern scopes exactly. The seed is used if and only if every answer is
   in favour, and the code names the first that is not.
   */
  method RunSeeded(world: World, config: Config, answers: Answers)
    returns (outcome: Outcome, hashes: map<Label, Hash>, ghost merged: Option<Step>)
    requires Honest(world, config, answers)
    ensures Matching(config.pattern, world.after) <= world.after.Keys
    ensures ScopesExactly(config.pattern) ==>
              hashes == FullHashes(world.hasher, world.after, Matching(config.pattern, world.after))
    ensures hashes == FullHashes(world.hasher, world.after, Matching(config.pattern, world.after))
            <==> (merged.Some? ==> Misjudged(merged.value) == {})
    ensures merged.Some? ==> outcome.usedSeed && IsStepOf(world, config, answers, merged.value)
    ensures outcome.usedSeed <==> UsesSeed(world, config, answers)
    ensures outcome.usedSeed <==> outcome.fallbackCode == ""
    ensures IsCodeOf(world, config, answers, outcome.fallbackCode)
    ensures outcome.total == |hashes| && outcome.recomputed == RecomputedBy(outcome.usedSeed, merged, |hashes|)
  {
    hide IsStepOf, FullHashes, Matching, ScopesExactly, Misjudged, Honest, IsAccepted, IsCodeOfDiff, DiffAllowsSeed,
         IsHeaderCode, ValidateSeed, Matches, Step.ScopeAfter;
    var code := "";
    merged := None;
    MatchingExists(config.pattern, world.after);
    if answers.seedFile.None? {
      code := "seed_read_error";
    } else if ValidateSeed(answers.seedFile.value, config).Some? {
      code := ValidateSeed(answers.seedFile.value, config).value;
      HeaderCodeIsNotEmpty(answers.seedFile.value, config, code);
    } else if answers.diff.None? {
      code := "git_diff_error";
    } else {
      code, outcome, hashes, merged := RunIncremental(world, config, answers, answers.seedFile.value, answers.diff.value);
    }
    if code != "" {
      merged := None;
      FullLoadSuffices(world, config, answers);
      outcome, hashes := RunFull(world.hasher, config.pattern, world.after, answers.fullLoad, code);
    }
  }

  lemma HeaderCodeIsNotEmpty(file: SeedFile, config: Config, code: string)
    requires IsHeaderCode(file, config, code)
    ensures code != ""
  {
  }

  lemma FullLoadSuffices(world: World, config: Config, answers: Answers)
    requires Honest(world, config, answers)
    ensures WellFormed(world.after) && LoadsTargets(answers.fullLoad, world.after, Matching(config.pattern, world.after))
  {
  }

  /** Everything after validation; an empty code means that no fallback is needed. */
  method RunIncremental(world: World, config: Config, answers: Answers, file: SeedFile, diff: map<Path, string>)
    returns (code: string, outcome: Outcome, hashes: map<Label, Hash>, ghost merged: Option<Step>)
    requires Honest(world, config, answers) && answers.seedFile == Some(file) && answers.diff == Some(diff)
    requires IsAccepted(file, config)
    ensures Matching(config.pattern, world.after) <= world.after.Keys
    ensures IsCodeOfDiff(world, config, answers, file.seed, diff, code)
    ensures code == "" <==> DiffAllowsSeed(world, config, answers, file.seed, diff)
    ensures code == "" && ScopesExactly(config.pattern) ==>
              hashes == FullHashes(world.hasher, world.after, Matching(config.pattern, world.after))
    ensures code == "" ==>
              && (hashes == FullHashes(world.hasher, world.after, Matching(config.pattern, world.after))
                  <==> (merged.Some? ==> Misjudged(merged.value) == {}))
              && (merged.Some? ==> IsStepOf(world, config, answers, merged.value))
              && outcome == Outcome(true, "", RecomputedBy(true, merged, |hashes|), |hashes|)
  {
    hide Honest, IsStepOver, AnswersHold, FullHashes, Matching, IsAccepted, WellFormed, Misjudged, ScopesExactly, Describes,
         ChangesOf, DirtyPackagesOf, StarOfRun, ScopeOfRun, IsBelowLimit, LabelsAbove, IsCodeOfMerge, CanMerge, IsFreeOfTriggers,
         Matches, Step.ScopeAfter, Step.Star, LabelsIn, IsTriggerCode;
    code, outcome, hashes, merged := "", Outcome(false, "", 0, 0), map[], None;
    MatchingExists(config.pattern, world.after);
    HonestAnswersHold(world, config, answers);
    FullLoadSuffices(world, config, answers);
    var dirty, step := FindDirtySet(world, config, answers);
    if dirty.Fallback? {
      code := if dirty.code == "" then "unsafe_file_change" else dirty.code;
    } else if dirty.packages == {} && dirty.star == {} {
      UntouchedStepIsCurrent(world, config, file.seed, diff, dirty, step);
      outcome, hashes := Outcome(true, "", 0, |file.seed.targetHashes|), file.seed.targetHashes;
    } else {
      ghost var changes := ChangesOf(file.seed, diff, answers.lookup).value;
      code, outcome, hashes, step := RunMerging(world, config, answers, file, diff, dirty, changes, step);
      CanMergeIff(world, config, answers, file.seed, diff, changes, code);
      merged := if code == "" then Some(step) else None;
    }
  }

  lemma UntouchedStepIsCurrent(world: World, config: Config, seed: Seed, diff: map<Path, string>, dirty: DirtySetResult,
                               step: Step)
    requires IsStepOver(world, config, seed, diff, step) && Describes(dirty, step)
    requires dirty.packages == {} && dirty.star == {}
    ensures WellFormed(world.after) && Matching(config.pattern, world.after) <= world.after.Keys
    ensures seed.targetHashes == FullHashes(world.hasher, world.after, Matching(config.pattern, world.after))
  {
    hide Step.IsSeeded, FullHashes, Matching, WellFormed;
    SeededIsTold(step);
    MatchingTargetsExist(step);
    UntouchedSeedIsCurrent(step);
  }

  lemma CanMergeIff(world: World, config: Config, answers: Answers, seed: Seed, diff: map<Path, string>,
                    changes: BoundaryChanges, code: string)
    requires answers.seedFile.Some?
    requires IsCodeOfMerge(answers, answers.seedFile.value.bazelRelease,
                           IsBelowLimit(seed, StarOfRun(seed, diff, changes, answers.probe), config.fallbackPercent),
                           ScopeOfRun(world, seed, diff, changes, answers.probe), code)
    ensures code == "" <==> CanMerge(world, config, answers, seed, diff, changes)
  {
    hide IsBelowLimit, StarOfRun, ScopeOfRun;
  }

  lemma BelowLimitIff(seed: Seed, star: set<Label>, percent: nat)
    ensures ShouldFallbackForRecomputation(|seed.targetHashes.Keys * star|, |seed.targetHashes|, percent)
            <==> !IsBelowLimit(seed, star, percent)
  {
    if |seed.targetHashes| == 0 {
      assert seed.targetHashes.Keys * star == {};
    }
  }

  lemma PrunedStarIsStarOfRun(unpruned: DirtySetResult, pruned: DirtySetResult, seed: Seed, diff: map<Path, string>,
                              changes: BoundaryChanges, probe: set<Path> -> Option<ProbeResult>)
    requires IsDirtySetOf(unpruned, seed, diff, changes) && IsPruned(unpruned, pruned, seed, diff, probe)
    ensures pruned.star == StarOfRun(seed, diff, changes, probe)
  {
    hide Upstream, ChangedTargets, SeedLabels, LabelsIn, DirtyPackagesOf;
  }

  lemma ScopeIsScopeOfRun(world: World, seed: Seed, diff: map<Path, string>, changes: BoundaryChanges,
                          probe: set<Path> -> Option<ProbeResult>, unpruned: DirtySetResult, pruned: DirtySetResult)
    requires IsDirtySetOf(unpruned, seed, diff, changes) && IsPruned(unpruned, pruned, seed, diff, probe)
    ensures Scope(world.after, pruned.packages, Carried(pruned.star, seed, pruned.packages + pruned.removed))
            == ScopeOfRun(world, seed, diff, changes, probe)
  {
    hide Upstream, ChangedTargets, SeedLabels, LabelsIn, DirtyPackages, Scope, Carried, StarOfRun;
    RemovedIsDirty(diff, KnownPackages(SeedLabels(seed)), changes);
    PrunedStarIsStarOfRun(unpruned, pruned, seed, diff, changes, probe);
    assert pruned.packages + pruned.removed == DirtyPackagesOf(seed, diff, changes);
  }

  /** Prunes and merges, if the seed is still worth using and the scoped query can be asked. */
  method RunMerging(world: World, config: Config, answers: Answers, file: SeedFile, diff: map<Path, string>,
                    unpruned: DirtySetResult, ghost changes: BoundaryChanges, ghost unprunedStep: Step)
    returns (code: string, outcome: Outcome, hashes: map<Label, Hash>, ghost step: Step)
    requires AnswersHold(world, config, answers, file.seed, diff)
    requires IsStepOver(world, config, file.seed, diff, unprunedStep) && Describes(unpruned, unprunedStep)
    requires IsDirtySetOf(unpruned, file.seed, diff, changes)
    ensures WellFormed(world.after) && Matching(config.pattern, world.after) <= world.after.Keys
    ensures IsCodeOfMerge(answers, file.bazelRelease,
                          IsBelowLimit(file.seed, StarOfRun(file.seed, diff, changes, answers.probe), config.fallbackPercent),
                          ScopeOfRun(world, file.seed, diff, changes, answers.probe), code)
    ensures IsStepOver(world, config, file.seed, diff, step) && step.Star() == StarOfRun(file.seed, diff, changes, answers.probe)
    ensures code == "" ==>
              && IsBelowLimit(file.seed, step.Star(), config.fallbackPercent)
              && (hashes == FullHashes(world.hasher, world.after, Matching(config.pattern, world.after)) <==> Misjudged(step) == {})
              && (ScopesExactly(config.pattern) ==> Misjudged(step) == {})
              && outcome == Outcome(true, "", RecomputedBy(true, Some(step), |hashes|), |hashes|)
  {
    hide Step.IsSeeded, FullHashes, Matching, Matches, Step.Star, Step.ScopeAfter, Misjudged, ScopesExactly, StarOfRun, ScopeOfRun,
         IsBelowLimit, AnswersHold, IsDirtySetOf, WellFormed, IsCodeOfMerge;
    outcome, hashes := Outcome(false, "", 0, 0), map[];
    var dirty, scope, loaded;
    code, dirty, scope, loaded, step := PlanScopedRun(world, config, answers, file, diff, unpruned, changes, unprunedStep);
    SeededIsTold(step);
    MatchingTargetsExist(step);
    if code == "" {
      outcome, hashes := RunScoped(world.hasher, config.pattern, world.after, loaded, file.seed, dirty, scope, step);
      if ScopesExactly(config.pattern) {
        ScopesExactlyMisjudgesNone(step);
      }
    }
  }

  /** Prunes, decides whether the seed is still worth using, and runs the scoped query. */
  method PlanScopedRun(world: World, config: Config, answers: Answers, file: SeedFile, diff: map<Path, string>,
                       unpruned: DirtySetResult, ghost changes: BoundaryChanges, ghost unprunedStep: Step)
    returns (code: string, dirty: DirtySetResult, scope: set<Label>, loaded: Graph, ghost step: Step)
    requires AnswersHold(world, config, answers, file.seed, diff)
    requires IsStepOver(world, config, file.seed, diff, unprunedStep) && Describes(unpruned, unprunedStep)
    requires IsDirtySetOf(unpruned, file.seed, diff, changes)
    ensures IsCodeOfMerge(answers, file.bazelRelease,
                          IsBelowLimit(file.seed, StarOfRun(file.seed, diff, changes, answers.probe), config.fallbackPercent),
                          ScopeOfRun(world, file.seed, diff, changes, answers.probe), code)
    ensures IsStepOver(world, config, file.seed, diff, step) && Describes(dirty, step)
    ensures step.Star() == StarOfRun(file.seed, diff, changes, answers.probe)
    ensures code == "" ==>
              && scope == step.ScopeAfter() && LoadsTargets(loaded, world.after, Matches(config.pattern, world.after, scope))
              && IsBelowLimit(file.seed, step.Star(), config.fallbackPercent)
  {
    hide Step.IsSeeded, Matches, Scope, LoadsTargets, IsProbe, Carried, Step.Star, SeedLabels, LabelsIn, DirtyPackagesOf,
         Upstream, ChangedTargets, StarOfRun, ScopeOfRun, ShouldFallbackForRecomputation, IsBelowLimit, FilesAreFound;
    code, scope, loaded := "", {}, map[];
    dirty, step := ProbePrune(unpruned, unprunedStep, file.seed, diff, answers.probe);
    PrunedStarIsStarOfRun(unpruned, dirty, file.seed, diff, changes, answers.probe);
    BelowLimitIff(file.seed, dirty.star, config.fallbackPercent);
    ScopeIsScopeOfRun(world, file.seed, diff, changes, answers.probe, unpruned, dirty);
    if ShouldFallbackForRecomputation(|file.seed.targetHashes.Keys * dirty.star|, |file.seed.targetHashes|, config.fallbackPercent) {
      code := "high_recomputation_ratio";
      return;
    }
    var carried := CarriedScopedLabels(dirty.star, file.seed, dirty.packages, dirty.removed);
    if !answers.quotable {
      code := "unquotable_scoped_universe";
      return;
    }
    if !answers.scopable {
      code := "unscopable_target_pattern";
      return;
    }
    scope := Scope(world.after, dirty.packages, carried);
    assert dirty.packages + dirty.removed == step.dirty;
    var result := answers.scopedLoad(scope);
    if result.None? {
      code := "scoped_query_error";
    } else if result.value.bazelRelease != file.bazelRelease {
      code := "bazel_release_changed";
    } else {
      loaded := result.value.graph;
    }
  }
}
