/**
 Which packages appear, disappear or must be rehashed between the seed and the
 target revision (pkg/dirty_set.go).

 The methods follow the source's loops; the functions of the same subject say
 what they compute, and the lemmas at the end relate that to the two file trees.
 */
module Boundaries {
  import opened Wrappers
  import opened Workspace

  /** Packages of only one of the two revisions. */
  datatype BoundaryChanges = BoundaryChanges(added: set<Path>, removed: set<Path>)

  datatype LookupError = NoPackageLookup | LookupFailed

  /**
   Picks, out of some packages, those with a BUILD file at the target
   revision. The outer None is a missing lookup, the inner one a failed lookup.
   */
  type PackageLookup = Option<set<Path> -> Option<set<Path>>>

  // ---------- Specification ----------

  predicate Deletes(changed: map<Path, string>, f: Path) {
    f in changed && IsBuildFile(f) && changed[f] == "D"
  }

  // Each function below looks at the given part of the diff only, so that a loop
  // over the diff has it as invariant.

  function AddedAmong(files: set<Path>, changed: map<Path, string>, known: set<Path>): set<Path> {
    set f | f in files && f in changed && IsBuildFile(f) && changed[f] != "D" && Dir(f) !in known :: Dir(f)
  }

  /** Packages both of whose BUILD file names are deleted by the diff itself. */
  function RemovedAmong(files: set<Path>, changed: map<Path, string>): set<Path> {
    set f | f in files && Deletes(changed, f) && Deletes(changed, OtherBuildFile(f)) :: Dir(f)
  }

  /** Packages with a deleted BUILD file whose other name is not in the diff. */
  function LookupsAmong(files: set<Path>, changed: map<Path, string>): set<Path> {
    set f | f in files && Deletes(changed, f) && OtherBuildFile(f) !in changed :: Dir(f)
  }

  function AddedPackages(changed: map<Path, string>, known: set<Path>): set<Path> {
    AddedAmong(changed.Keys, changed, known)
  }

  function RemovedByDiff(changed: map<Path, string>): set<Path> {
    RemovedAmong(changed.Keys, changed)
  }

  function DeletionsNeedingLookup(changed: map<Path, string>): set<Path> {
    LookupsAmong(changed.Keys, changed)
  }

  function Classify(changed: map<Path, string>, known: set<Path>, lookup: PackageLookup)
    : Result<BoundaryChanges, LookupError>
  {
    var added, removed, needed := AddedPackages(changed, known), RemovedByDiff(changed), DeletionsNeedingLookup(changed);
    if needed == {} then Ok(BoundaryChanges(added, removed))
    else if lookup.None? then Err(NoPackageLookup)
    else match lookup.value(needed)
      case None => Err(LookupFailed)
      case Some(existing) => Ok(BoundaryChanges(added, removed + (needed - existing)))
  }

  function TargetPackages(known: set<Path>, changes: BoundaryChanges): set<Path> {
    (known - changes.removed) + changes.added
  }

  function Owners(paths: set<Path>, packages: set<Path>): set<Path> {
    set owner | owner in packages && exists p :: p in paths && p != [] && Owner(p, packages) == Some(owner)
  }

  function AroundBoundary(boundary: set<Path>, known: set<Path>, targetPackages: set<Path>): set<Path> {
    boundary + Owners(boundary, known) + Owners(boundary, targetPackages)
  }

  function EnclosingPackage(p: Path, packages: set<Path>): set<Path> {
    set owner | owner in packages && p != [] && Owner(p, packages) == Some(owner)
  }

  /** A BUILD file dirties its own package, any other file the nearest enclosing known package. */
  function OwnersOfChanged(files: set<Path>, known: set<Path>): set<Path> {
    (set f | f in files && IsBuildFile(f) :: Dir(f))
    + (set owner | owner in known && exists f :: f in files && !IsBuildFile(f) && Owner(f, known) == Some(owner))
  }

  function PackagesOfChangedFiles(changed: map<Path, string>, known: set<Path>): set<Path> {
    OwnersOfChanged(changed.Keys, known)
  }

  /**
   Packages to rehash: those that changed files belong to, the added and
   removed ones, and the packages enclosing an added or removed one on either side.
   */
  function DirtyPackages(changed: map<Path, string>, known: set<Path>, changes: BoundaryChanges): set<Path> {
    var boundary := changes.added + changes.removed;
    AroundBoundary(boundary, known, TargetPackages(known, changes)) + PackagesOfChangedFiles(changed, known)
  }

  // ---------- Loops of the source ----------

  lemma ClassifyOneMore(files: set<Path>, f: Path, changed: map<Path, string>, known: set<Path>)
    requires f in changed
    ensures AddedAmong(files + {f}, changed, known)
            == if IsBuildFile(f) && changed[f] != "D" && Dir(f) !in known
               then AddedAmong(files, changed, known) + {Dir(f)} else AddedAmong(files, changed, known)
    ensures RemovedAmong(files + {f}, changed)
            == if Deletes(changed, f) && Deletes(changed, OtherBuildFile(f))
               then RemovedAmong(files, changed) + {Dir(f)} else RemovedAmong(files, changed)
    ensures LookupsAmong(files + {f}, changed)
            == if Deletes(changed, f) && OtherBuildFile(f) !in changed
               then LookupsAmong(files, changed) + {Dir(f)} else LookupsAmong(files, changed)
  {
  }

  lemma OwnersOneMore(paths: set<Path>, p: Path, packages: set<Path>)
    ensures Owners(paths + {p}, packages) == Owners(paths, packages) + EnclosingPackage(p, packages)
  {
  }

  lemma AroundOneMore(boundary: set<Path>, p: Path, known: set<Path>, targetPackages: set<Path>)
    ensures AroundBoundary(boundary + {p}, known, targetPackages)
            == AroundBoundary(boundary, known, targetPackages)
               + {p} + EnclosingPackage(p, known) + EnclosingPackage(p, targetPackages)
  {
    OwnersOneMore(boundary, p, known);
    OwnersOneMore(boundary, p, targetPackages);
    hide Owners, EnclosingPackage;
  }

  lemma OwnersOfChangedOneMore(files: set<Path>, f: Path, known: set<Path>)
    ensures OwnersOfChanged(files + {f}, known) == OwnersOfChanged(files, known)
              + (if IsBuildFile(f) then {Dir(f)}
                 else if Owner(f, known).Some? then {Owner(f, known).value} else {})
  {
    NearestAtIsDeepest(Dir(f), known);
  }

  /** One of the BUILD file names of a package is deleted, and the diff does not say what became of the other. */
  predicate IsUndecided(changed: map<Path, string>, p: Path) {
    var plain, dotted := p + ["BUILD"], p + ["BUILD.bazel"];
    || (plain in changed && changed[plain] == "D" && dotted !in changed)
    || (dotted in changed && changed[dotted] == "D" && plain !in changed)
  }

  /** Only the packages that the diff leaves undecided are looked up, all at once; the diff decides all others. */
  lemma UndecidedAreLookedUp(changed: map<Path, string>, p: Path)
    ensures p in DeletionsNeedingLookup(changed) <==> IsUndecided(changed, p)
    ensures p in RemovedByDiff(changed) <==>
              && p + ["BUILD"] in changed && changed[p + ["BUILD"]] == "D"
              && p + ["BUILD.bazel"] in changed && changed[p + ["BUILD.bazel"]] == "D"
  {
    var plain, dotted := p + ["BUILD"], p + ["BUILD.bazel"];
    PackageIff(map[], p);
    assert IsBuildFile(plain) && IsBuildFile(dotted) && Dir(plain) == p && Dir(dotted) == p;
    forall f | IsBuildFile(f) && Dir(f) == p
      ensures f == plain || f == dotted
    {
      BuildFilesOfOneDirectory(plain, f);
    }
    hide IsBuildFile, OtherBuildFile, Dir;
  }

  /** Fails exactly if a lookup is needed and there is none, or it fails. */
  method FindBoundaryChanges(changed: map<Path, string>, known: set<Path>, lookup: PackageLookup)
    returns (result: Result<BoundaryChanges, LookupError>)
    ensures result == Classify(changed, known, lookup)
    ensures result == Err(NoPackageLookup) <==> lookup.None? && exists p :: IsUndecided(changed, p)
    ensures result == Err(LookupFailed) <==>
              lookup.Some? && (exists p :: IsUndecided(changed, p)) && lookup.value(DeletionsNeedingLookup(changed)).None?
  {
    forall p
      ensures p in DeletionsNeedingLookup(changed) <==> IsUndecided(changed, p)
    {
      UndecidedAreLookedUp(changed, p);
    }
    assert DeletionsNeedingLookup(changed) == {} <==> forall p :: !IsUndecided(changed, p);
    hide IsUndecided;
    var added, removed, needed := ScanBuildFiles(changed, known);
    hide AddedPackages, RemovedByDiff, DeletionsNeedingLookup;
    if needed == {} {
      return Ok(BoundaryChanges(added, removed));
    }
    if lookup.None? {
      return Err(NoPackageLookup);
    }
    var existing := lookup.value(needed);
    if existing.None? {
      return Err(LookupFailed);
    }
    return Ok(BoundaryChanges(added, removed + (needed - existing.value)));
  }

  /** The first half of `FindBoundaryChanges`: what the diff alone says. */
  method ScanBuildFiles(changed: map<Path, string>, known: set<Path>)
    returns (added: set<Path>, removed: set<Path>, needed: set<Path>)
    ensures added == AddedPackages(changed, known)
    ensures removed == RemovedByDiff(changed)
    ensures needed == DeletionsNeedingLookup(changed)
  {
    added, removed, needed := {}, {}, {};
    assert AddedAmong({}, changed, known) == RemovedAmong({}, changed) == LookupsAmong({}, changed) == {};
    hide AddedAmong, RemovedAmong, LookupsAmong;
    var rest := changed.Keys;
    ghost var seen := {};
    while rest != {}
      invariant seen + rest == changed.Keys
      invariant added == AddedAmong(seen, changed, known)
      invariant removed == RemovedAmong(seen, changed)
      invariant needed == LookupsAmong(seen, changed)
      decreases rest
    {
      var f :| f in rest;
      ClassifyOneMore(seen, f, changed, known);
      if IsBuildFile(f) {
        var pkg := Dir(f);
        if changed[f] != "D" {
          added := added + if pkg in known then {} else {pkg};
        } else if OtherBuildFile(f) !in changed {
          needed := needed + {pkg};
        } else if changed[OtherBuildFile(f)] == "D" {
          removed := removed + {pkg};
        }
      }
      rest, seen := rest - {f}, seen + {f};
    }
  }

  method FindDirtyPackages(changed: map<Path, string>, known: set<Path>, changes: BoundaryChanges)
    returns (dirty: set<Path>)
    ensures dirty == DirtyPackages(changed, known, changes)
  {
    var enclosing := PackagesAroundBoundary(changes.added + changes.removed, known, (known - changes.removed) + changes.added);
    var owners := PackagesOfFiles(changed, known);
    hide AroundBoundary, PackagesOfChangedFiles;
    dirty := enclosing + owners;
  }

  /** Around a boundary change: the package itself and, at each revision, the owner of its directory. */
  method PackagesAroundBoundary(boundary: set<Path>, known: set<Path>, targetPackages: set<Path>)
    returns (dirty: set<Path>)
    ensures dirty == AroundBoundary(boundary, known, targetPackages)
  {
    dirty := {};
    assert AroundBoundary({}, known, targetPackages) == {};
    hide AroundBoundary;
    var rest := boundary;
    ghost var seen := {};
    while rest != {}
      invariant seen + rest == boundary
      invariant dirty == AroundBoundary(seen, known, targetPackages)
      decreases rest
    {
      var pkg :| pkg in rest;
      AroundOneMore(seen, pkg, known, targetPackages);
      NearestAtIsDeepest(Dir(pkg), known);
      NearestAtIsDeepest(Dir(pkg), targetPackages);
      dirty := dirty + {pkg};
      if pkg != [] {
        var before := OwningPackage(pkg, known);
        if before.Some? {
          dirty := dirty + {before.value};
        }
        var after := OwningPackage(pkg, targetPackages);
        if after.Some? {
          dirty := dirty + {after.value};
        }
      }
      rest, seen := rest - {pkg}, seen + {pkg};
    }
  }

  method PackagesOfFiles(changed: map<Path, string>, known: set<Path>) returns (dirty: set<Path>)
    ensures dirty == PackagesOfChangedFiles(changed, known)
  {
    dirty := {};
    assert OwnersOfChanged({}, known) == {};
    hide OwnersOfChanged;
    var rest := changed.Keys;
    ghost var seen := {};
    while rest != {}
      invariant seen + rest == changed.Keys
      invariant dirty == OwnersOfChanged(seen, known)
      decreases rest
    {
      var f :| f in rest;
      OwnersOfChangedOneMore(seen, f, known);
      NearestAtIsDeepest(Dir(f), known);
      if IsBuildFile(f) {
        dirty := dirty + {Dir(f)};
      } else {
        var owner := OwningPackage(f, known);
        if owner.Some? {
          dirty := dirty + {owner.value};
        }
      }
      rest, seen := rest - {f}, seen + {f};
    }
  }

  /** Exactly these packages are dirty, in terms of the diff and of prefixes alone. */
  lemma DirtyPackagesIff(changed: map<Path, string>, known: set<Path>, changes: BoundaryChanges, p: Path)
    requires [] !in changed
    ensures var boundary, there := changes.added + changes.removed, (known - changes.removed) + changes.added;
            p in DirtyPackages(changed, known, changes) <==>
              || p in boundary
              || (exists b :: b in boundary && (IsNearestAbove(p, b, known) || IsNearestAbove(p, b, there)))
              || p + ["BUILD"] in changed || p + ["BUILD.bazel"] in changed
              || (exists f :: f in changed && !IsBuildFile(f) && IsNearestAbove(p, f, known))
  {
    var boundary, there := changes.added + changes.removed, (known - changes.removed) + changes.added;
    forall path, packages | path != []
      ensures Owner(path, packages) == Some(p) <==> IsNearestAbove(p, path, packages)
    {
      OwnerIff(path, packages, p);
    }
    ChangedBuildFile(changed, p);
    hide Owner, IsBuildFile, Dir;
    assert forall packages :: !IsNearestAbove(p, [], packages);
  }

  lemma ChangedBuildFile(changed: map<Path, string>, p: Path)
    ensures (exists f :: f in changed && IsBuildFile(f) && Dir(f) == p)
            <==> p + ["BUILD"] in changed || p + ["BUILD.bazel"] in changed
  {
    var plain, dotted := p + ["BUILD"], p + ["BUILD.bazel"];
    assert IsBuildFile(plain) && IsBuildFile(dotted) && Dir(plain) == p && Dir(dotted) == p;
    forall f | IsBuildFile(f) && Dir(f) == p
      ensures f == plain || f == dotted
    {
      PackageIff(map[], p);
      BuildFilesOfOneDirectory(plain, f);
    }
  }

  /** Other files change no boundary and need no lookup. */
  lemma NoBuildFileNoBoundary(changed: map<Path, string>, known: set<Path>, lookup: PackageLookup)
    requires forall f | f in changed :: !IsBuildFile(f)
    ensures Classify(changed, known, lookup) == Ok(BoundaryChanges({}, {}))
    ensures DirtyPackages(changed, known, BoundaryChanges({}, {}))
            == set owner | owner in known && exists f :: f in changed && Owner(f, known) == Some(owner)
  {
    assert AddedPackages(changed, known) == RemovedByDiff(changed) == DeletionsNeedingLookup(changed) == {};
    hide AddedPackages, RemovedByDiff, DeletionsNeedingLookup, Owner;
    var none: set<Path> := {};
    assert none + none == none && Owners(none, known) == {} && Owners(none, TargetPackages(known, BoundaryChanges({}, {}))) == {};
  }

  // ---------- What the diff of two trees classifies ----------

  /** Any answer the lookup gives is the truth about `after`. */
  ghost predicate LookupReads(lookup: PackageLookup, after: Tree) {
    lookup.Some? ==>
      forall asked, p | lookup.value(asked).Some? && p in asked ::
        p in lookup.value(asked).value <==> p in Packages(after)
  }

  lemma PackageIffBuildFile(tree: Tree, f: Path)
    requires IsBuildFile(f)
    ensures Dir(f) in Packages(tree) <==> f in tree || OtherBuildFile(f) in tree
  {
    if Dir(f) in Packages(tree) {
      var g :| g in tree && IsBuildFile(g) && Dir(g) == Dir(f);
      BuildFilesOfOneDirectory(f, g);
    }
  }

  /** A deleted BUILD file removes its package unless the other name survives. */
  lemma DeletionRemovesUnlessOtherSurvives(
    before: Tree, after: Tree, changed: map<Path, string>, f: Path)
    requires IsDiff(before, after, changed) && IsBuildFile(f) && f in before && f !in after
    ensures Deletes(changed, f)
    ensures Dir(f) in Packages(before)
    ensures Dir(f) !in Packages(after) ==>
              Deletes(changed, OtherBuildFile(f)) || OtherBuildFile(f) !in changed
    ensures Deletes(changed, OtherBuildFile(f)) ==> Dir(f) !in Packages(after)
  {
    assert StatusOf(before, after, f, changed[f]);
    PackageIffBuildFile(after, f);
    var other := OtherBuildFile(f);
    if other in changed {
      assert StatusOf(before, after, other, changed[other]);
    }
  }

  lemma DeletedBuildFilesWereInTheSeed(before: Tree, after: Tree, changed: map<Path, string>, f: Path)
    requires IsDiff(before, after, changed) && Deletes(changed, f)
    ensures f in before && f !in after
  {
    assert StatusOf(before, after, f, changed[f]);
  }

  /** `removed` is exactly the packages that lose their last BUILD file, whatever the seed knows. */
  lemma RemovedIsExact(before: Tree, after: Tree, changed: map<Path, string>, known: set<Path>, lookup: PackageLookup)
    requires IsDiff(before, after, changed) && LookupReads(lookup, after)
    requires Classify(changed, known, lookup).Ok?
    ensures Classify(changed, known, lookup).value.removed == Packages(before) - Packages(after)
  {
    var needed, removed := DeletionsNeedingLookup(changed), Classify(changed, known, lookup).value.removed;
    assert removed == RemovedByDiff(changed) + (needed - Packages(after));
    forall p | p in RemovedByDiff(changed) + needed
      ensures p in Packages(before) && (p in RemovedByDiff(changed) ==> p !in Packages(after))
    {
      if p in RemovedByDiff(changed) {
        var f :| f in changed && Deletes(changed, f) && Deletes(changed, OtherBuildFile(f)) && Dir(f) == p;
        DeletedBuildFilesWereInTheSeed(before, after, changed, f);
        DeletionRemovesUnlessOtherSurvives(before, after, changed, f);
      } else {
        var f :| f in changed && Deletes(changed, f) && Dir(f) == p;
        DeletedBuildFilesWereInTheSeed(before, after, changed, f);
      }
    }
    forall p | p in Packages(before) - Packages(after)
      ensures p in RemovedByDiff(changed) + needed
    {
      var f :| f in before && IsBuildFile(f) && Dir(f) == p;
      DeletionRemovesUnlessOtherSurvives(before, after, changed, f);
    }
  }

  /** `added` holds only unknown packages of the target, and every package new to the target. */
  lemma AddedIsExact(before: Tree, after: Tree, changed: map<Path, string>, known: set<Path>)
    requires IsDiff(before, after, changed)
    ensures AddedPackages(changed, known) <= Packages(after) - known
    ensures Packages(after) - Packages(before) - known <= AddedPackages(changed, known)
  {
    forall p | p in Packages(after) - Packages(before) - known
      ensures p in AddedPackages(changed, known)
    {
      var f :| f in after && IsBuildFile(f) && Dir(f) == p;
      assert f !in before;
      assert StatusOf(before, after, f, changed[f]);
    }
    forall p | p in AddedPackages(changed, known)
      ensures p in Packages(after)
    {
      var f :| f in changed && IsBuildFile(f) && changed[f] != "D" && Dir(f) == p;
      assert StatusOf(before, after, f, changed[f]);
    }
  }

  /**
   Package boundary classification is exact for a diff of two trees, for every
   BUILD / BUILD.bazel combination and whatever the lookup is asked.
   */
  lemma BoundariesAreExact(before: Tree, after: Tree, changed: map<Path, string>, lookup: PackageLookup)
    requires IsDiff(before, after, changed) && LookupReads(lookup, after)
    requires Classify(changed, Packages(before), lookup).Ok?
    ensures var changes := Classify(changed, Packages(before), lookup).value;
            && changes == BoundaryChanges(Packages(after) - Packages(before), Packages(before) - Packages(after))
            && TargetPackages(Packages(before), changes) == Packages(after)
  {
    RemovedIsExact(before, after, changed, Packages(before), lookup);
    AddedIsExact(before, after, changed, Packages(before));
  }

  /** The wildcards of a scoped query name existing packages, even if the seed knows too few packages. */
  lemma RelistedPackagesExist(before: Tree, after: Tree, changed: map<Path, string>, known: set<Path>,
                              lookup: PackageLookup)
    requires IsDiff(before, after, changed) && LookupReads(lookup, after)
    requires Classify(changed, known, lookup).Ok? && known <= Packages(before)
    ensures var changes := Classify(changed, known, lookup).value;
            && changes.added !! changes.removed
            && DirtyPackages(changed, known, changes) - changes.removed <= Packages(after)
  {
    RemovedIsExact(before, after, changed, known, lookup);
    AddedIsExact(before, after, changed, known);
    var changes := Classify(changed, known, lookup).value;
    forall p | p in DirtyPackages(changed, known, changes) - changes.removed
      ensures p in Packages(after)
    {
      if p in PackagesOfChangedFiles(changed, known) && p !in known {
        var f :| f in changed && IsBuildFile(f) && Dir(f) == p;
        assert StatusOf(before, after, f, changed[f]);
      }
    }
  }

  // ---------- Ownership ----------

  /** An owner missing from the other side is a boundary change, so its own enclosing package is dirtied. */
  lemma NewOwnerDirtiesOldOwner(path: Path, here: set<Path>, there: set<Path>)
    requires path != [] && Owner(path, here).Some? && Owner(path, here) != Owner(path, there)
    requires Owner(path, there).Some? ==> Owner(path, there).value < Owner(path, here).value
    ensures Owner(path, here).value in here - there
    ensures Owner(path, there).Some? ==> Owner(path, there).value in Owners(here - there, there)
  {
    OwnerIsDeepest(path, here);
    OwnerIsDeepest(path, there);
    var deeper := Owner(path, here).value;
    assert deeper !in there;
    if Owner(path, there).Some? {
      var shallower := Owner(path, there).value;
      forall q | q in there && q < deeper
        ensures q <= shallower
      {
        assert q < path;
      }
      OwnerIs(deeper, there, shallower);
    }
  }

  lemma OwnersGrow(small: set<Path>, large: set<Path>, packages: set<Path>)
    requires small <= large
    ensures Owners(small, packages) <= Owners(large, packages)
  {
  }

  /**
   Ownership changes are caught: for every path, changed or not, whose nearest
   enclosing package differs between the packages of the seed and those expected
   at the target, both owners are dirty.
   */
  lemma OwnershipChangesAreCaught(changed: map<Path, string>, known: set<Path>, changes: BoundaryChanges, path: Path)
    requires path != [] && Owner(path, known) != Owner(path, TargetPackages(known, changes))
    ensures var dirty, target := DirtyPackages(changed, known, changes), TargetPackages(known, changes);
            && (Owner(path, known).Some? ==> Owner(path, known).value in dirty)
            && (Owner(path, target).Some? ==> Owner(path, target).value in dirty)
  {
    hide Owners, PackagesOfChangedFiles;
    var target, boundary := TargetPackages(known, changes), changes.added + changes.removed;
    var oldOwner, newOwner := Owner(path, known), Owner(path, target);
    OwnerIsDeepest(path, known);
    OwnerIsDeepest(path, target);
    if oldOwner.Some? && newOwner.Some? {
      PrefixesAreOrdered(oldOwner.value, newOwner.value, path);
    }
    if oldOwner.Some? && (newOwner.Some? ==> newOwner.value < oldOwner.value) {
      NewOwnerDirtiesOldOwner(path, known, target);
      OwnersGrow(known - target, boundary, target);
    } else {
      if oldOwner.Some? {
        assert oldOwner.value <= newOwner.value && oldOwner.value != newOwner.value;
        assert oldOwner.value < newOwner.value;
      }
      NewOwnerDirtiesOldOwner(path, target, known);
      OwnersGrow(target - known, boundary, known);
    }
  }

  // ---------- Clean packages ----------

  /** What the two file rules of `DirtyPackages` put in the set. */
  lemma OwnerOfChangedFileIsDirty(changed: map<Path, string>, known: set<Path>, changes: BoundaryChanges, f: Path)
    requires f in changed
    ensures IsBuildFile(f) ==> Dir(f) in DirtyPackages(changed, known, changes)
    ensures !IsBuildFile(f) && Owner(f, known).Some? ==> Owner(f, known).value in DirtyPackages(changed, known, changes)
  {
    NearestAtIsDeepest(Dir(f), known);
  }

  /** What the boundary rules of `DirtyPackages` put in the set. */
  lemma OwnerOfBoundaryIsDirty(changed: map<Path, string>, known: set<Path>, changes: BoundaryChanges, p: Path)
    requires p in changes.added + changes.removed && p != []
    ensures Owner(p, known).Some? ==> Owner(p, known).value in DirtyPackages(changed, known, changes)
    ensures var target := TargetPackages(known, changes);
            Owner(p, target).Some? ==> Owner(p, target).value in DirtyPackages(changed, known, changes)
  {
    NearestAtIsDeepest(Dir(p), known);
    NearestAtIsDeepest(Dir(p), TargetPackages(known, changes));
  }

  /** The seed may know only some of the packages of its revision. */
  ghost predicate KnowsSome(before: Tree, after: Tree, changed: map<Path, string>, known: set<Path>, lookup: PackageLookup) {
    && IsDiff(before, after, changed) && LookupReads(lookup, after)
    && Classify(changed, known, lookup).Ok? && known <= Packages(before)
  }

  /** What is known of the two sets of packages when the seed knows some of the first. */
  lemma BoundariesOfSome(before: Tree, after: Tree, changed: map<Path, string>, known: set<Path>, lookup: PackageLookup)
    requires KnowsSome(before, after, changed, known, lookup)
    ensures var changes := Classify(changed, known, lookup).value;
            && changes.removed == Packages(before) - Packages(after)
            && Packages(after) - Packages(before) <= changes.added <= Packages(after) - known
            && TargetPackages(known, changes) <= Packages(after)
  {
    RemovedIsExact(before, after, changed, known, lookup);
    AddedIsExact(before, after, changed, known);
  }

  /** Among fewer packages, an owner that is still there still owns. */
  lemma OwnerAmongFewer(path: Path, few: set<Path>, packages: set<Path>, owner: Path)
    requires path != [] && few <= packages && owner in few && Owner(path, packages) == Some(owner)
    ensures Owner(path, few) == Some(owner)
  {
    OwnerIsDeepest(path, packages);
    OwnerIs(path, few, owner);
  }

  /**
   A changed file dirties the package that owns it, at either revision, if the
   seed knows the package or the diff adds it.
   */
  lemma ChangedFileDirtiesItsOwners(
    before: Tree, after: Tree, changed: map<Path, string>, known: set<Path>, lookup: PackageLookup, f: Path, owner: Path)
    requires KnowsSome(before, after, changed, known, lookup) && f in changed
    requires var target := TargetPackages(known, Classify(changed, known, lookup).value);
             || (f in before && Owner(f, Packages(before)) == Some(owner) && owner in known)
             || (f in after && Owner(f, Packages(after)) == Some(owner) && owner in target)
    ensures owner in DirtyPackages(changed, known, Classify(changed, known, lookup).value)
  {
    var changes := Classify(changed, known, lookup).value;
    BoundariesOfSome(before, after, changed, known, lookup);
    OwnerOfChangedFileIsDirty(changed, known, changes, f);
    hide DirtyPackages, Classify;
    if IsBuildFile(f) {
      if f in before {
        BuildFileOwner(before, f);
      }
      if f in after {
        BuildFileOwner(after, f);
      }
    } else if f in before && Owner(f, Packages(before)) == Some(owner) && owner in known {
      OwnerAmongFewer(f, known, Packages(before), owner);
    } else {
      OwnerAmongFewer(f, TargetPackages(known, changes), Packages(after), owner);
      if Owner(f, known) != Some(owner) {
        OwnershipChangesAreCaught(changed, known, changes, f);
      }
    }
  }

  /** A package that takes a path away from its owner is itself enclosed by that owner. */
  lemma NearerPackageIsEnclosed(path: Path, few: set<Path>, here: set<Path>, there: set<Path>, owner: Path) returns (nearer: Path)
    requires path != [] && Owner(path, here) == Some(owner) && owner in few && few <= here && owner in there
    requires Owner(path, there) != Some(owner)
    ensures nearer in there - here && nearer != [] && Owner(nearer, few) == Some(owner)
  {
    OwnerIsDeepest(path, here);
    OwnerIsDeepest(path, there);
    nearer := Owner(path, there).value;
    assert owner <= nearer && owner != nearer;
    assert owner < nearer;
    forall q | q in few && q < nearer
      ensures q <= owner
    {
      assert q < path;
    }
    OwnerIs(nearer, few, owner);
  }

  lemma CleanPackageSurvives(
    before: Tree, after: Tree, changed: map<Path, string>, known: set<Path>, lookup: PackageLookup, pkg: Path)
    requires KnowsSome(before, after, changed, known, lookup) && pkg in known
    requires pkg !in DirtyPackages(changed, known, Classify(changed, known, lookup).value)
    ensures pkg in Packages(before) && pkg in TargetPackages(known, Classify(changed, known, lookup).value)
    ensures pkg in Packages(after)
  {
    BoundariesOfSome(before, after, changed, known, lookup);
    hide Packages, Classify, PackagesOfChangedFiles, Owners, IsDiff, LookupReads;
  }

  /** A clean package keeps what it owns. */
  lemma CleanOwnerKeepsPaths(
    before: Tree, after: Tree, changed: map<Path, string>, known: set<Path>, lookup: PackageLookup, pkg: Path, path: Path)
    requires KnowsSome(before, after, changed, known, lookup) && pkg in known && path != []
    requires pkg !in DirtyPackages(changed, known, Classify(changed, known, lookup).value)
    ensures Owner(path, Packages(before)) == Some(pkg) <==> Owner(path, Packages(after)) == Some(pkg)
  {
    var changes := Classify(changed, known, lookup).value;
    BoundariesOfSome(before, after, changed, known, lookup);
    CleanPackageSurvives(before, after, changed, known, lookup, pkg);
    hide Packages, Classify, DirtyPackages, IsDiff, LookupReads, Owner;
    var seed, target := Packages(before), Packages(after);
    if Owner(path, seed) == Some(pkg) && Owner(path, target) != Some(pkg) {
      var nearer := NearerPackageIsEnclosed(path, known, seed, target, pkg);
      OwnerOfBoundaryIsDirty(changed, known, changes, nearer);
      assert false;
    }
    if Owner(path, target) == Some(pkg) && Owner(path, seed) != Some(pkg) {
      var nearer := NearerPackageIsEnclosed(path, TargetPackages(known, changes), target, seed, pkg);
      OwnerOfBoundaryIsDirty(changed, known, changes, nearer);
      assert false;
    }
  }

  lemma OwnedFileIsUnchanged(
    before: Tree, after: Tree, changed: map<Path, string>, known: set<Path>, lookup: PackageLookup, pkg: Path, f: Path)
    requires KnowsSome(before, after, changed, known, lookup) && pkg in known
    requires pkg !in DirtyPackages(changed, known, Classify(changed, known, lookup).value)
    ensures f in OwnedFiles(before, pkg) <==> f in OwnedFiles(after, pkg)
    ensures f in OwnedFiles(before, pkg) ==> OwnedFiles(before, pkg)[f] == OwnedFiles(after, pkg)[f]
  {
    hide DirtyPackages, Classify, Packages, Owner, LookupReads;
    if f in OwnedFiles(before, pkg) || f in OwnedFiles(after, pkg) {
      CleanPackageSurvives(before, after, changed, known, lookup, pkg);
      if f in changed {
        ChangedFileDirtiesItsOwners(before, after, changed, known, lookup, f, pkg);
        assert false;
      }
      CleanOwnerKeepsPaths(before, after, changed, known, lookup, pkg, f);
    }
  }

  lemma SubpackageIsUnchanged(
    before: Tree, after: Tree, changed: map<Path, string>, known: set<Path>, lookup: PackageLookup, pkg: Path, q: Path)
    requires KnowsSome(before, after, changed, known, lookup) && pkg in known
    requires pkg !in DirtyPackages(changed, known, Classify(changed, known, lookup).value)
    ensures q in Subpackages(before, pkg) <==> q in Subpackages(after, pkg)
  {
    var changes := Classify(changed, known, lookup).value;
    hide DirtyPackages, Classify, Packages, Owner, IsDiff, LookupReads;
    if q in Subpackages(before, pkg) || q in Subpackages(after, pkg) {
      BoundariesOfSome(before, after, changed, known, lookup);
      CleanPackageSurvives(before, after, changed, known, lookup, pkg);
      CleanOwnerKeepsPaths(before, after, changed, known, lookup, pkg, q);
      if q in changes.added + changes.removed {
        OwnerOfBoundaryIsDirty(changed, known, changes, q);
        OwnerAmongFewer(q, known, Packages(before), pkg);
        assert false;
      }
    }
  }

  lemma BuildFileIsUnchanged(
    before: Tree, after: Tree, changed: map<Path, string>, known: set<Path>, changes: BoundaryChanges, pkg: Path)
    requires IsDiff(before, after, changed)
    requires pkg !in DirtyPackages(changed, known, changes)
    ensures BuildFileOf(before, pkg) == BuildFileOf(after, pkg)
    ensures pkg in Packages(before) <==> pkg in Packages(after)
  {
    forall name | name in {"BUILD", "BUILD.bazel"}
      ensures pkg + [name] !in changed
    {
      assert IsBuildFile(pkg + [name]) && Dir(pkg + [name]) == pkg;
    }
    PackageIffBuildFile(before, pkg + ["BUILD"]);
    PackageIffBuildFile(after, pkg + ["BUILD"]);
  }

  lemma OwnedFilesAreUnchanged(
    before: Tree, after: Tree, changed: map<Path, string>, known: set<Path>, lookup: PackageLookup, pkg: Path)
    requires KnowsSome(before, after, changed, known, lookup) && pkg in known
    requires pkg !in DirtyPackages(changed, known, Classify(changed, known, lookup).value)
    ensures OwnedFiles(before, pkg) == OwnedFiles(after, pkg)
  {
    hide *;
    forall f
      ensures f in OwnedFiles(before, pkg) <==> f in OwnedFiles(after, pkg)
      ensures f in OwnedFiles(before, pkg) ==> OwnedFiles(before, pkg)[f] == OwnedFiles(after, pkg)[f]
    {
      OwnedFileIsUnchanged(before, after, changed, known, lookup, pkg, f);
    }
  }

  /**
   A clean package sees the same world, whatever other packages the seed knows: a
   known package that is not dirty is still a package, with the same BUILD file,
   the same files with the same contents and the same direct subpackages.
   */
  lemma CleanPackageSeesTheSameWorld(
    before: Tree, after: Tree, changed: map<Path, string>, known: set<Path>, lookup: PackageLookup, pkg: Path)
    requires KnowsSome(before, after, changed, known, lookup) && pkg in known
    requires pkg !in DirtyPackages(changed, known, Classify(changed, known, lookup).value)
    ensures pkg in Packages(before) && pkg in Packages(after)
    ensures View(before, pkg) == View(after, pkg)
  {
    BuildFileIsUnchanged(before, after, changed, known, Classify(changed, known, lookup).value, pkg);
    OwnedFilesAreUnchanged(before, after, changed, known, lookup, pkg);
    CleanPackageSurvives(before, after, changed, known, lookup, pkg);
    forall q
      ensures q in Subpackages(before, pkg) <==> q in Subpackages(after, pkg)
    {
      SubpackageIsUnchanged(before, after, changed, known, lookup, pkg, q);
    }
    hide Subpackages, OwnedFiles, BuildFileOf;
  }
}
