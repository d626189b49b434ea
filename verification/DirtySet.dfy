/**
 The dirty set of a seeded run and its pruning
 (pkg/dirty_set.go: ComputeDirtySet, PruneDirtySet, findChangedTargets).
 */
module DirtySet {
  import opened Wrappers
  import opened Workspace
  import opened Boundaries
  import opened Propagation
  import opened Hashing

  /** The parts of a persisted hash file that seeding reads. */
  datatype Seed = Seed(targetHashes: map<Label, Hash>, edges: Edges, dependencyHashes: map<Label, Hash>)

  /** The hash the seed has for a label; matching targets come before dependencies. */
  function SeedHash(seed: Seed, l: Label): Option<Hash> {
    if l in seed.targetHashes then Some(seed.targetHashes[l])
    else if l in seed.dependencyHashes then Some(seed.dependencyHashes[l])
    else None
  }

  datatype DirtySetResult =
    | Fallback(code: string)
    | Dirty(labels: set<Label>, star: set<Label>, packages: set<Path>, removed: set<Path>)

  /** A probe's answer: the hashes in its table, and which of the loaded labels are source files. */
  datatype ProbeResult = ProbeResult(hashes: map<Label, Hash>, sourceFiles: set<Label>)

  /** The files whose change makes the seed unusable: given ones, and those with an unsafe name. */
  datatype Triggers = Triggers(fingerprintFiles: set<Path>, unsafe: Path -> bool)

  // ---------- Specification ----------

  /** Packages known to the seed. External labels may share a package path and do not count. */
  function KnownPackages(labels: set<Label>): set<Path> {
    set l | l in labels && l.repo == "" :: l.pkg
  }

  function LabelsIn(labels: set<Label>, packages: set<Path>): set<Label> {
    set l | l in labels && l.repo == "" && l.pkg in packages
  }

  /** The result when nothing forces a fallback. */
  ghost function DirtySetOf(changed: map<Path, string>, edges: Edges, labels: set<Label>,
                            changes: BoundaryChanges): DirtySetResult {
    var packages := DirtyPackages(changed, KnownPackages(labels), changes);
    var dirty := LabelsIn(labels, packages);
    Dirty(dirty, DirtyStar(dirty, dirty, edges), packages - changes.removed, changes.removed)
  }

  function ChangedTargets(dirty: set<Label>, seed: Seed, probe: ProbeResult, changed: map<Path, string>): set<Label> {
    set l | l in dirty && IsChanged(l, seed, probe, changed)
  }

  /**
   A source file is changed when the diff mentions it; any other label unless its
   probe hash is present and equal to its seed hash.
   */
  predicate IsChanged(l: Label, seed: Seed, probe: ProbeResult, changed: map<Path, string>) {
    if l in probe.sourceFiles then LabelToPath(l) in changed
    else SeedHash(seed, l).None? || l !in probe.hashes || probe.hashes[l] != SeedHash(seed, l).value
  }

  /** The code of some changed file that triggers; a fingerprint file with an unsafe name counts as the former. */
  ghost predicate IsTriggerCode(changed: map<Path, string>, triggers: Triggers, code: string) {
    || (code == "rule_fingerprint_change" && exists f :: f in changed && f in triggers.fingerprintFiles)
    || (code == "unsafe_file_change" && exists f :: f in changed && f !in triggers.fingerprintFiles && triggers.unsafe(f))
  }

  // ---------- Loops of the source ----------

  method FindFallbackTrigger(changed: map<Path, string>, triggers: Triggers) returns (code: Option<string>)
    ensures code.None? <==> forall f | f in changed :: f !in triggers.fingerprintFiles && !triggers.unsafe(f)
    ensures code.Some? ==> IsTriggerCode(changed, triggers, code.value)
  {
    var rest := changed.Keys;
    while rest != {}
      invariant rest <= changed.Keys
      invariant forall f | f in changed && f !in rest :: f !in triggers.fingerprintFiles && !triggers.unsafe(f)
      decreases rest
    {
      var f :| f in rest;
      if f in triggers.fingerprintFiles {
        return Some("rule_fingerprint_change");
      }
      if triggers.unsafe(f) {
        return Some("unsafe_file_change");
      }
      rest := rest - {f};
    }
    return None;
  }

  /** Whether there is a fallback, and the result otherwise, do not depend on the order of map iterations. */
  method ComputeDirtySet(changed: map<Path, string>, edges: Edges, labels: set<Label>, triggers: Triggers,
                         lookup: PackageLookup)
    returns (result: DirtySetResult)
    ensures result.Dirty? <==>
            && (forall f | f in changed :: f !in triggers.fingerprintFiles && !triggers.unsafe(f))
            && Classify(changed, KnownPackages(labels), lookup).Ok?
    ensures result.Dirty? ==>
              result == DirtySetOf(changed, edges, labels, Classify(changed, KnownPackages(labels), lookup).value)
    ensures result.Fallback? ==>
              if forall f | f in changed :: f !in triggers.fingerprintFiles && !triggers.unsafe(f)
              then result.code == "package_lookup_error"
              else IsTriggerCode(changed, triggers, result.code)
  {
    hide Classify, DirtyPackages, DirtyStar;
    var code := FindFallbackTrigger(changed, triggers);
    if code.Some? {
      return Fallback(code.value);
    }
    var known := KnownPackages(labels);
    var classified := FindBoundaryChanges(changed, known, lookup);
    if classified.Err? {
      return Fallback("package_lookup_error");
    }
    var changes := classified.value;
    var packages := FindDirtyPackages(changed, known, changes);
    var dirty := LabelsIn(labels, packages);
    var star := PropagateFrom(dirty, dirty, edges);
    return Dirty(dirty, star, packages - changes.removed, changes.removed);
  }

  lemma LiteralChange(dirty: set<Label>, seed: Seed, probe: ProbeResult, changed: map<Path, string>)
    ensures forall l | l in dirty :: IsChanged(l, seed, probe, changed) <==>
              if l in probe.sourceFiles then LabelToPath(l) in changed
              else if l !in probe.hashes then true
              else if l in seed.targetHashes then probe.hashes[l] != seed.targetHashes[l]
              else l in seed.dependencyHashes ==> probe.hashes[l] != seed.dependencyHashes[l]
  {
  }

  method FindChangedTargets(dirty: set<Label>, seed: Seed, probe: ProbeResult, changed: map<Path, string>)
    returns (result: set<Label>)
    ensures result == ChangedTargets(dirty, seed, probe, changed)
    ensures forall l :: l in result <==>
              && l in dirty
              && if l in probe.sourceFiles then LabelToPath(l) in changed
                 else if l !in probe.hashes then true
                 else if l in seed.targetHashes then probe.hashes[l] != seed.targetHashes[l]
                 else l in seed.dependencyHashes ==> probe.hashes[l] != seed.dependencyHashes[l]
  {
    LiteralChange(dirty, seed, probe, changed);
    result := {};
    var rest := dirty;
    hide IsChanged;
    while rest != {}
      invariant rest <= dirty
      invariant result == set l | l in dirty && l !in rest && IsChanged(l, seed, probe, changed)
      decreases rest
    {
      var l :| l in rest;
      rest := rest - {l};
      var isChanged := TargetChanged(l, seed, probe, changed);
      if isChanged {
        result := result + {l};
      }
    }
  }

  method TargetChanged(l: Label, seed: Seed, probe: ProbeResult, changed: map<Path, string>) returns (result: bool)
    ensures result == IsChanged(l, seed, probe, changed)
  {
    if l in probe.sourceFiles {
      return LabelToPath(l) in changed;
    }
    var recorded := SeedHash(seed, l);
    if recorded.None? {
      return true;
    }
    return l !in probe.hashes || probe.hashes[l] != recorded.value;
  }

  /** Recomputes dirty* from the labels that really changed; everything else is preserved. */
  method PruneDirtySet(original: DirtySetResult, seed: Seed, probe: ProbeResult, changed: map<Path, string>)
    returns (pruned: DirtySetResult)
    requires original.Dirty?
    ensures pruned == original.(
                        star := DirtyStar(original.labels, ChangedTargets(original.labels, seed, probe, changed), seed.edges))
  {
    hide DirtyStar;
    var actuallyChanged := FindChangedTargets(original.labels, seed, probe, changed);
    var star := PropagateFrom(original.labels, actuallyChanged, seed.edges);
    pruned := Dirty(original.labels, star, original.packages, original.removed);
  }
}
