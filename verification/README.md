# Verified model of target-determinator's incremental hashing

`hash-persister` records a hash for every build target of a Bazel repository at one
commit, and can compute the hashes of a later commit from an earlier file, the seed, by
rehashing only what a git diff may have affected. This project models that computation
and proves that it gives what a full run gives. Around it, it models the concurrent hash
table, the persisted file format, the comparison of two hash files and the text of scoped
queries. `dafny verify dfyconfig.toml` checks everything.

The modules, from the inputs to the results:

- `Workspace`, `Boundaries`, `Revisions`: file trees, packages and owners; which packages
  a diff makes dirty; why everything outside them is the same at both revisions.
- `Propagation`, `DirtySet`: reverse-dependency search, the dirty set and its pruning.
- `Hashing`, `HashCalls`, `HashCache`: the recursive hash of a target, what one call
  returns with all its errors, and the memoising table as one caller sees it.
- `MemoTable`, `Prefill`: any number of workers calling the table at once, as a machine
  over its lock operations, and the worker pool with Go's channels, counter and `Once`.
- `RuleHash`: what a rule writes to its hasher, why `Hashing` may take its inputs as a map
  from label to hash, and hash-only loading.
- `TargetPatterns`, `ScopedQuery`, `ScopedUniverse`: what a scoped pattern selects, the
  rewrite of its text, and the quoting of its universe.
- `Pruning`, `Incremental`, `SeededRun`: why pruning is sound, why the merged map is the
  full map, and the decisions of a seeded run.
- `MergedRuns`, `ScopingLimits`, `CarriedTargets`: which runs get as far as merging, and
  exactly which target patterns they handle.
- `UnknownPackages`, `MisreadFiles`: exactly which changes of the file trees they handle.
- `Chain`, `PrunedChain`, `LostEdges`, `NextRun`: seeds made from runs, when they are true,
  when they are good enough although edges were lost, and their use by the next run.
- `Json`, `JsonReader`, `PersistedFormat`, `PersistedReader`, `NameStatus`: the streaming
  writer, both readers, and git's NUL-delimited diffs.
- `HashDiff`: the hash-file differ and the in-memory walker.
- `Ordering`, `Wrappers`: sorting and the two failure types.

## Hypotheses

They appear as preconditions, collected in `SeededRun.Honest` and `Incremental.Step.Valid`:

- Hashing is injective in what a target writes: its kind, own definition, and dependency
  labels with their hashes (`Hashing.Injective`). Bytes written without separators would
  not give this by themselves.
- What Bazel loads for a package is a function of its BUILD file, the files it owns and
  its direct subpackages; external repositories do not change. Anything else is meant to
  trigger a fallback (pkg/dirty_set.go:48-74). A label that names an unchanged source file
  at the target named a source file in the seed (`Revisions.SourcesStaySources`), since the
  pruner trusts the diff alone for it.
- The dependency graphs of both revisions are acyclic and contain every dependency.
- A seed that is accepted (`SeededRun.IsAccepted`) was written for its commit by a full run, or by a seeded
  run that lost no edges (`Pruning.ValidSeed`; `LostEdges` says what less is enough for).
- Packages in which the seed has no label, and which the diff does not dirty, look the same
  at both revisions (`Revisions.UnknownPackagesHold`). This holds by itself when the seed has
  a label in every package (`NextRun.NothingIsHidden`).
- If the run may prune, the path it reads off the label of a changed source file is in the
  diff (`Pruning.FilesAreFound`), which it is unless a changed file is named like its
  directory. `MisreadFiles.RunsPersistExactlyIff` shows that neither of these two conditions
  can be dropped.

A target pattern is made of `//...`, labels and wildcards by union, difference, intersection
and filters that look at one target at a time (`TargetPatterns.Pattern`). Of these none is
excluded. `SeededRun.RunSeeded` gives the full run's hashes
unless the scoped query of the run misjudges a target (`Incremental.Misjudged`), and no
query does if the pattern scopes exactly (`TargetPatterns.ScopesExactly`): a rule of the
main repository, or a target with dependencies, that it selects outside the universe is
also selected inside. Patterns such as `//... - attr(tags, "manual", //...)` do. Of the
others, some fail, such as `//a:* - //...` when a file of `a` is generated
(`ScopingLimits.FilesOfPackageGoWrong`), and some never do, since the runs that would fail
are refused their seed or fall back, such as `l - //...`
(`ScopingLimits.SubtractingIsHandled`). `CarriedTargets.RunsMergeExactlyIff` draws the line.

## Where code and documentation disagree

- README.md:91 says that a seedable output can seed a later incremental run. After
  pruning, the merge can delete the edges of a dirty but unchanged label that a retained
  entry still names, and a later run then misses changes behind it.
  `Chain.OutputIsValidSeedIff` gives the exact condition for one run,
  `Chain.ChainsStayTrueIff` that for a chain of runs of every kind, `PrunedChain` a
  history that fails, and `LostEdges` which losses a later run notices.
- README.md:91 calls incremental hashing no weaker a mode than full hashing, and
  pkg/dirty_set.go:48-55 finds the owner of a changed file among the packages known to the
  seed. A package whose BUILD file makes one target per globbed file, and finds none, has no
  seed label; a diff that adds its first file dirties at most an enclosing package, and the
  new target is missing from the output (`UnknownPackages.OverlookedPackageIsMissed`).
- pkg/dirty_set.go:364-365 promises the path that a label refers to. Canonical labels leave
  out a name that repeats the last directory of the package
  (pkg/hash_persistence.go:129-131), so for the source file t/t with label //t:t the pruner
  gets t, does not find it in the diff, takes the edited file as unchanged and keeps the old
  hashes of what depends on it (`MisreadFiles.EditedFileIsMissed`).
- pkg/scoped_query.go:67-72 says that scoping preserves what filters over the whole
  repository mean. It does for targets in the universe
  (`TargetPatterns.ScopingAgreesInside`), but the scoped `//a:* - //...` also selects rules
  that the pattern itself excludes (`ScopingLimits.FilesOfPackageGoWrong`).
- pkg/scoped_query.go:96 means to leave the wildcards of other repositories alone, but
  rewrites those of a repository whose name ends in a tilde, as in `@@rules_go~//...`
  (`ScopedQuery.RepositoryIsSeenIff`). What is left is `@@rules_go~` followed by the
  variable, which names neither.
- pkg/target_determinator.go:729-741 accepts a worker count of zero, with which the first
  send never returns unless there is nothing to hash (`Prefill.PrefillReturnsIff`).
- An `omitempty` map that is empty is read back as nil
  (`PersistedReader.RoundTripIsExactIff`), so a seedable file without any edges is refused
  as a seed (`NextRun.WrittenFileIsAcceptedIff`).
- The label writer's length prefix writes nothing (pkg/hash_cache.go:1069-1073), so
  `RuleHash` has none.

## Model

| member | source | states |
|---|---|---|
| `SeededRun.RunSeeded` | hash-persister/hash-persister.go:217-432 | Seeding changes the cost of a run and not its result: under the hypotheses above, on every path through the decisions the persisted target hashes are exactly those of a full run, for every pattern, unless the run merges a step whose scoped query misjudges a target, and then they are not; a pattern that scopes exactly misjudges none. The seed is used if and only if its file is readable and accepted, the diff is there and free of triggers, every lookup is answered, and then either nothing is affected, or the dirty* targets are none or fewer than the configured percentage of the seeded ones, the universe can be quoted, the pattern scoped, and the scoped query is answered by the Bazel that wrote the seed; dirty* is the pruned set whenever it exceeds the dirty labels and the probe answers. The code is that of the first answer that fails, and the number of recomputed hashes is exact |
| `SeededRun.ValidateSeed` | hash-persister/hash-persister.go:600-623 | A seed is accepted exactly if it has format 9, edges, the expected commit, a fingerprint that is not empty and is the expected one, and full-size hashes only; if not, the code is that of the first of these that fails |
| `Incremental.MergesExactlyIff` | hash-persister/hash-persister.go:350-752 | For every pattern and every step from a true seed, pruned or not: the merged map is the full run's map if and only if the scoped query misjudges no target, which is a re-listable rule that is not re-listed or a carried target that is no such rule, selected outside the universe only |
| `Incremental.IncrementalEqualsFull` | hash-persister/hash-persister.go:665-752 | For a pattern that scopes exactly, retained seed entries overlaid with the scoped query's hashes are exactly the full run's map, added and deleted targets included, with and without pruning |
| `CarriedTargets.RunsMergeExactlyIff` | hash-persister/hash-persister.go:312-431 | Exactly which patterns that leaves, on runs from a full run's seed that reach their merge, pruned or not: no graph has a re-listable rule that the pattern rejects because of the universe beside a matching target with dependencies, and none has a carried target that it drops with few enough others to recompute |
| `ScopingLimits.RuleIsMisjudgedIff` | hash-persister/hash-persister.go:339-378 | The first half, pruned runs included: some run that merges hashes a rule it should not, whatever the recomputation limit, exactly when there is such a graph |
| `CarriedTargets.CarriedIsMisjudgedIff` | hash-persister/hash-persister.go:312-378 | The second half, pruned runs included: some run that merges drops a carried target exactly when a graph has one that a changed label of another package is below, while fewer than the configured percentage of the targets are dirty* if a probe finds nothing else changed but labels without a recorded hash |
| `ScopingLimits.CarriedNeedsTargets` | hash-persister/hash-persister.go:593-596 | Pruned or not, a run that drops a carried target has more than 100 / percent targets in its seed, and more than 100 / percent for each one it recomputes |
| `CarriedTargets.DropsAmongGoesWrong` | hash-persister/hash-persister.go:434-460 | A condition on the pattern alone that is enough: it selects a target with dependencies, no rule of the main repository, only outside the universe, and, beside it and its d dependencies, more than 100 * (d + 2) / percent rules |
| `ScopingLimits.FilesOfPackageGoWrong` | pkg/scoped_query.go:67-84 | `//pkg:* - //...` fails, whatever the limit: with a generated file in the package, a run between two equal revisions hashes the rule behind it as well |
| `ScopingLimits.SubtractingIsHandled` | pkg/scoped_query.go:67-84 | `l - //...` does not scope exactly and yet every run that merges gets it right, since its seed has no edges or its one target is all there is to recompute |
| `MisreadFiles.RunsPersistExactlyIff` | pkg/dirty_set.go:75-112 | Exactly which changes of two trees a run handles, pruned or not and whatever Bazel loads from them: those in which every package without a seed label that is not dirtied looks the same at both revisions, and no changed file of a known package that survives is named like the package's last directory, unless the diff has the directory's own path as well |
| `MisreadFiles.MisreadFileIsMissed` | pkg/dirty_set.go:364-380 | For such a file a run pruned by a successful probe keeps the old hashes of any targets that depend on it, rules of clean packages or external ones, when there are enough of them for it to merge |
| `MisreadFiles.EditedFileIsMissed` | pkg/dirty_set.go:364-380 | In particular when t/t is edited and 300 rules of package a name //t:t |
| `Pruning.FilesAreFoundIff` | pkg/dirty_set.go:343-357 | The path read off the label of every changed source file is in the diff, for every seed and target graph, if and only if no changed file is named like its directory without the directory being in the diff |
| `Workspace.MisreadIffNamedLikeDirectory` | pkg/dirty_set.go:364-380 | The path read off a canonical label is the file it names exactly if the label is not abbreviated, and otherwise the package |
| `UnknownPackages.UnprunedRunsPersistExactlyIff` | pkg/dirty_set.go:149-166 | For runs that take every dirty label as changed the condition on packages alone is exact |
| `UnknownPackages.OverlookedPackageIsMissed` | pkg/dirty_set.go:280-297 | For any other change there are a loading and a full run's seed with which the run misses a new target of such a package, whether it merges or finds nothing affected |
| `UnknownPackages.OverlookedChangeExists` | pkg/dirty_set.go:280-297 | There are such changes: the first file of a package whose BUILD file makes targets of its files |
| `Pruning.UnvisitedHashesAgree` | pkg/dirty_set.go:305-319 | Pruning is sound although the probe may read outdated seed hashes: if every label left out has an unchanged file or an equal probe hash, a label that was not traversed and exists at the target has its seed hash |
| `Chain.ChainsStayTrueIff` | hash-persister/hash-persister.go:217-432 | In a chain of any length, for every pattern, of scoped runs with and without pruning, runs that find nothing affected and full runs, every output is a true seed of its revision if and only if no run loses edges or misjudges a target |
| `Chain.OutputIsValidSeedIff` | hash-persister/hash-persister.go:695-711 | The output of any seeded run, whatever its pattern and pruned or not, is a true seed exactly when it misjudges no target and its merge loses no edges; the latter the run can tell from its seed, dirty* and the labels it loaded |
| `PrunedChain.Layout.OutdatedHashIsPersisted` | hash-persister/hash-persister.go:703-703 | Chained pruned seeds are not sound: from a true seed, a valid pruned run, which merges whatever the limit, and then an unpruned run, which merges exactly for a limit of at least 34 percent, persist a hash a full run would not |
| `PrunedChain.Layout.FirstOutputDoesNotCover` | hash-persister/hash-persister.go:703-703 | The output of the first of these runs fails the exact condition |
| `PrunedChain.Layout.TargetsSelectNewRules` | pkg/scoped_query.go:67-72 | whose hypothesis on the pattern this history meets, although the pattern filters the lost rule out |
| `LostEdges.NextRunsMergeExactlyIff` | hash-persister/hash-persister.go:266-432 | Which lost edges matter: with a seed in which nothing is wrong but edges may be missing, every next unpruned run that merges gives the full run's hashes if and only if each recorded hash is dirty* whenever a package is dirty in which something influences it and so little is dirty* that the run merges (for patterns that scope exactly and select some new rule of every package, whatever else they filter out) |
| `LostEdges.OutputSeedsNextRunsIff` | hash-persister/hash-persister.go:695-711 | For such patterns, //... - attr(tags, "manual", //...) among them, that is the exact condition for the output of any run, pruned or not, whatever edges it lost |
| `LostEdges.LostLabelIsMissed` | hash-persister/hash-persister.go:741-752 | A lost label under a recorded entry fails it if it depends on something in a package that the entry is no longer above |
| `LostEdges.UncoveredTargetIsWrong` | hash-persister/hash-persister.go:741-752 | For any pattern, a recorded target that is not covered keeps an outdated hash in some next run |
| `LostEdges.CoveredRunMergesExactly` | hash-persister/hash-persister.go:665-752 | For every pattern that scopes exactly, a seed that covers gives the full run's hashes in every next run |
| `LostEdges.TrueSeedCovers` | pkg/dirty_set.go:399-432 | A true seed covers, whatever the limit |
| `LostEdges.OutputTellsTruth` | hash-persister/hash-persister.go:665-711 | Whatever edges it loses, a run records no wrong hash and no wrong edge |
| `Workspace.OwningPackage` | pkg/dirty_set.go:533-554 | The walk up the directories returns the owner of a path |
| `Workspace.OwnerIsDeepest` | pkg/dirty_set.go:531-554 | The owner is the deepest known package strictly above the path, and there is none exactly when no package is above it |
| `Workspace.OtherBuildFile` | pkg/dirty_set.go:503-512 | BUILD and BUILD.bazel of one directory are exchanged |
| `Workspace.PackageIff` | pkg/dirty_set.go:201-211 | A directory is a package exactly if it has a file BUILD or BUILD.bazel, and each of these is the other one's counterpart |
| `Workspace.BuildFileIsRead` | pkg/dirty_set.go:201-208 | A package has a BUILD file to read, BUILD.bazel if there is one |
| `Workspace.ViewHolds` | pkg/dirty_set.go:53-65 | What a package sees: exactly the files, and the packages below it, for which it is the longest prefix among the packages |
| `Boundaries.ScanBuildFiles` | pkg/dirty_set.go:183-219 | One pass over the diff finds the added packages, those removed by the diff alone and those that need a lookup |
| `Boundaries.FindBoundaryChanges` | pkg/dirty_set.go:178-236 | The classification, with an error exactly if some package is left undecided by the diff and the lookup is missing, or asked once for all of these fails, and which of the two |
| `Boundaries.UndecidedAreLookedUp` | pkg/dirty_set.go:201-219 | A package is looked up exactly if one of its BUILD and BUILD.bazel files is deleted and the other is not in the diff, and removed without a lookup exactly if both are deleted |
| `Boundaries.RemovedIsExact` | pkg/dirty_set.go:203-235 | For a diff of two trees, every BUILD and BUILD.bazel combination and a truthful lookup, `removed` is precisely the packages that lost their last BUILD file |
| `Boundaries.AddedIsExact` | pkg/dirty_set.go:194-199 | `added` holds only packages of the target unknown to the seed, and every package new to the target |
| `Boundaries.BoundariesAreExact` | pkg/dirty_set.go:178-236 | When the seed knows all its packages, added and removed are the two set differences, and the target packages come out as those of the target tree |
| `Boundaries.RelistedPackagesExist` | pkg/dirty_set.go:93-107 | `added` and `removed` are disjoint and no package to be re-listed is absent at the target |
| `Boundaries.FindDirtyPackages` | pkg/dirty_set.go:242-299 | The loops compute the dirty packages |
| `Boundaries.DirtyPackagesIff` | pkg/dirty_set.go:242-299 | A package is dirty exactly if it is added or removed, or is the longest prefix of one of those among the seed's packages or the target's, or a file BUILD or BUILD.bazel in it changes, or it is the longest prefix of another changed file among the seed's packages |
| `Boundaries.PackagesAroundBoundary` | pkg/dirty_set.go:263-278 | Every boundary package and its nearest enclosing package at the seed and at the target |
| `Boundaries.PackagesOfFiles` | pkg/dirty_set.go:280-297 | The package of every changed BUILD file and the owner of every other changed file |
| `Boundaries.OwnershipChangesAreCaught` | pkg/dirty_set.go:256-296 | For any known packages and any classification: for every path, changed or not, whose owner among the seed's packages differs from that among the packages expected at the target, each owner that exists is dirty |
| `Boundaries.ChangedFileDirtiesItsOwners` | pkg/dirty_set.go:285-296 | Whatever part of its packages the seed knows, a changed file dirties the package that owns it at either revision if the seed knows that package or the diff adds it, although ownership is decided with the seed's packages |
| `Boundaries.CleanOwnerKeepsPaths` | pkg/dirty_set.go:256-278 | A known package that is not dirty owns exactly the same paths at both revisions, between the real packages of the two trees |
| `Boundaries.CleanPackageSeesTheSameWorld` | pkg/dirty_set.go:75-112 | Whatever other packages the seed knows, a known package that is not dirty is still a package with the same BUILD file, owned files with their contents, and direct subpackages |
| `Revisions.DiffGivesTransition` | pkg/dirty_set.go:48-74 | For any part of its packages that the seed knows, every target outside the dirty packages has the same definition at both revisions, provided unknown packages that are not dirtied look the same |
| `Propagation.BuildRdeps` | pkg/dirty_set.go:573-585 | The reverse map lists, for each dependency, exactly the labels that name it |
| `Propagation.CollectAllLabels` | pkg/dirty_set.go:588-600 | Exactly the hashed labels, the keys of the edge map and whatever an entry of it names |
| `Propagation.PropagateFrom` | pkg/dirty_set.go:399-432 | The search returns the dirty labels and everything reached from the changed ones by a non-empty chain of reverse dependencies, whatever the iteration order, queueing each label at most once |
| `Propagation.ClosedSetHoldsUpstream` | pkg/dirty_set.go:418-430 | Any set closed under reverse dependencies of itself and the sources contains what the search finds |
| `Propagation.UnprunedIsClosed` | pkg/dirty_set.go:109-111 | The unpruned dirty* set is closed under reverse dependencies |
| `Propagation.PruningShrinks` | pkg/dirty_set.go:399-432 | A pruned dirty* set lies inside the unpruned one and still holds every dirty label |
| `DirtySet.FindFallbackTrigger` | pkg/dirty_set.go:126-145 | None exactly if no changed file is a fingerprint file or has an unsafe name, whatever the iteration order; otherwise the code of some changed file that is one, a fingerprint file counting as such whatever its name |
| `DirtySet.ComputeDirtySet` | pkg/dirty_set.go:75-112 | A dirty set exactly if nothing triggers and the lookup is answered or not needed, with the dirty labels, dirty*, the packages to re-list and the removed packages; otherwise the code of the trigger, or, without one, of the lookup |
| `DirtySet.FindChangedTargets` | pkg/dirty_set.go:343-396 | Exactly the dirty labels that are source files whose path read off the label is in the diff, and the others that the probe did not hash, that have no recorded hash, or whose hash differs from the recorded one, a target's hash counting before a dependency's |
| `DirtySet.PruneDirtySet` | pkg/dirty_set.go:324-339 | Only dirty* is recomputed; dirty labels, packages and removed packages are preserved |
| `Hashing.SeedingRefines` | pkg/hash_cache.go:290-319 | If every seeded hash is the recursive one, so is every result, for any seeded subset |
| `Hashing.PartHashesAgree` | pkg/hash_cache.go:622-707 | Hashes do not depend on how much of the graph beyond the dependencies was loaded |
| `Hashing.EqualHashesMeanEqualInputs` | pkg/hash_cache.go:796-847 | Equal hashes of a rule or generated file force equal dependency labels with equal hashes, and definitions that hash alike whatever their dependencies hash to |
| `Hashing.SameHashSameDependency` | pkg/hash_cache.go:796-847 | A label with the same hash in two graphs has the same dependencies there, with the same hashes |
| `HashCalls.ReadableGraphsHash` | pkg/hash_cache.go:622-707 | With all files readable and all dependencies present no call fails and each returns the recursive hash |
| `HashCalls.RuleResult` | pkg/hash_cache.go:796-847 | For any graph, missing labels and unreadable files included: a rule returns the error of its first input whose hash fails for another reason than that a label is not in the graph, and otherwise the hash of its definition with the hashes of exactly those inputs of the graph that have one |
| `HashCalls.GeneratedFileResult` | pkg/hash_cache.go:688-700 | A generated file hashes the label and hash of its rule, and passes on every error of it |
| `HashCalls.LeafResult` | pkg/hash_cache.go:635-704 | An opaque target hashes its identity, a file its content, a missing file or a package group to the empty hash, and an unreadable file not at all |
| `HashCache.TargetHashCache.constructor` | pkg/hash_cache.go:60-75 | A new table is empty and not frozen |
| `HashCache.TargetHashCache.Hash` | pkg/hash_cache.go:158-188 | Returns what the recursive definition returns, errors included, stores it, changes no stored entry, and on a frozen table only reads and refuses every label without a hash |
| `HashCache.TargetHashCache.HashTarget` | pkg/hash_cache.go:622-707 | One computation gives the recursive result whatever was memoised before |
| `HashCache.TargetHashCache.Freeze` | pkg/hash_cache.go:203-205 | Freezing changes no entry |
| `HashCache.TargetHashCache.ExtractHashes` | pkg/hash_cache.go:210-226 | Exactly the entries with a computed hash |
| `HashCache.TargetHashCache.PopulateHashes` | pkg/hash_cache.go:297-319 | The given hashes replace or join what is computed, and the table is frozen or unfrozen as asked |
| `HashCache.TargetHashCache.SeedHashes` | pkg/hash_cache.go:290-295 | Seeding leaves the table open |
| `HashCache.TargetHashCache.RestoreHashes` | pkg/hash_cache.go:284-288 | Restoring freezes it |
| `HashCache.RestoreCopy` | pkg/hash_cache.go:210-319 | Extracting and restoring reproduces exactly the computed entries in a frozen table |
| `MemoTable.StepKeepsInv` | pkg/hash_cache.go:158-188 | Whatever worker steps next, every stored hash is the recursive one, every lock is held by a call on its holder's stack, and no stored hash changes |
| `MemoTable.AdvanceKeepsStack` | pkg/hash_cache.go:622-707 | The worker that steps is still on the way to what its calls must return |
| `MemoTable.AdvanceKeepsLocks` | pkg/hash_cache.go:172-187 | Entry locks are taken and released together with the calls that hold them |
| `MemoTable.RanksDescend` | pkg/hash_cache.go:172-173 | Nested calls descend the dependency graph, so a worker never waits for a lock of its own |
| `MemoTable.RunsKeepInv` | pkg/hash_cache.go:158-188 | In every run of any number of workers the invariant holds throughout and a stored hash is written once and never changed |
| `MemoTable.RunsAgree` | pkg/hash_cache.go:158-188 | In every run every stored hash and every returned result, errors included, is what the recursive definition says |
| `MemoTable.SomeWorkerCanStep` | pkg/hash_cache.go:172-187 | No deadlock among Hash callers: waits on entry locks follow dependency edges down to a worker that can step |
| `MemoTable.AdvanceCosts` | pkg/hash_cache.go:158-188 | Every step uses up some of a finite cost, so every call comes to an end |
| `Prefill.MainStepKeepsInv` | pkg/target_determinator.go:759-783 | Every step of the sender keeps the accounting of items, the counter and the error channel |
| `Prefill.WorkerStepKeepsInv` | pkg/target_determinator.go:746-756 | Every step of a worker keeps them too |
| `Prefill.FinishedMeansMarked` | pkg/target_determinator.go:759-776 | When PrefillCache returns, every item sent was marked done exactly once |
| `Prefill.FinishedMeansHashed` | pkg/target_determinator.go:726-784 | It returns nil exactly when every item can be hashed, and then the table is frozen and holds every item's recursive hash; otherwise it returns the error of some item |
| `Prefill.ErrorStopsSending` | pkg/target_determinator.go:759-771 | In every run, once an error has been recorded no item is sent except one that the sender had already decided on |
| `Prefill.FirstErrorIsKept` | pkg/target_determinator.go:742-783 | In every run the first error that a worker reports is the one returned |
| `Prefill.FinishedTableCanBeRead` | pkg/target_determinator.go:780-783 | The table it leaves is one that later calls only read |
| `Prefill.ReportNeverBlocks` | pkg/target_determinator.go:742-752 | The error channel has room whenever a worker sends to it |
| `Prefill.PoolCanStep` | pkg/target_determinator.go:726-784 | With at least one worker, or nothing to hash, something can happen until PrefillCache returns |
| `Prefill.RunsAreBounded` | pkg/target_determinator.go:726-784 | The invariant holds in every run, and no run is longer than a bound fixed by the items |
| `Prefill.QueueFills` | pkg/target_determinator.go:738-771 | The channel takes as many items as there are workers before any of them receives |
| `Prefill.PrefillReturnsIff` | pkg/target_determinator.go:726-784 | Every run that cannot go on has returned if and only if there is a worker or nothing to hash |
| `Prefill.StuckRunsAreFinished` | pkg/target_determinator.go:726-784 | and then the invariant, and with it the results above, hold at the end |
| `Prefill.NoWorkersNeverFinish` | pkg/target_determinator.go:729-741 | With TD_WORKER_COUNT=0 and an item to hash, no run gets past the first send |
| `RuleHash.CollectConfigurations` | pkg/hash_cache.go:971-979 | The labels and the configurations of each, merged |
| `RuleHash.CanonicalizeRuleInputs` | pkg/hash_cache.go:970-1004 | Strictly sorted by label and by configuration under each label, with the labels and pairs of the input and no others |
| `RuleHash.SecondSortIsIdentity` | pkg/hash_cache.go:810-827 | The sort in hashRule leaves canonical inputs alone, however an unstable sort treats ties |
| `RuleHash.HashRule` | pkg/hash_cache.go:796-847 | Each label and configuration pair of the inputs is written once, in order, with its hash, after what the hasher already holds; the next four rows say what that leaves open, which is nothing |
| `RuleHash.InputHashMatters` | pkg/hash_cache.go:829-839 | No input's hash is left out: if the hash of one pair changes and no other, whatever HashRule may return changes |
| `RuleHash.NoInputsWriteNothing` | pkg/hash_cache.go:829-839 | Without configured inputs the result is what the hasher already held |
| `RuleHash.LastPairIsAppended` | pkg/hash_cache.go:810-839 | A pair that comes after all others, by label and then by configuration, adds its label, its configuration and its hash |
| `RuleHash.SingleInputBytes` | pkg/hash_cache.go:829-839 | A single input in one configuration gives the rule's own bytes, the label, the configuration and the hash |
| `RuleHash.RuleBytesAreCanonical` | pkg/hash_cache.go:805-840 | What is written depends only on the set of pairs: permuting or repeating inputs, or listing one without configurations, changes nothing |
| `RuleHash.HashRuleOwnAttributes` | pkg/hash_cache.go:758-793 | A state that holds release, class, environment and the fingerprints of the class, then every attribute serialized, in order of name and then of marshalled form, and nothing else (`IsOwnState`, which the next six rows speak about) |
| `RuleHash.OwnStatesAgreeIff` | pkg/hash_cache.go:759-775 | For equal attributes, two states are equal exactly if release, class, environment and fingerprints are, written one after the other |
| `RuleHash.EachPartMatters` | pkg/hash_cache.go:759-775 | Changing only the release, only the environment or only the fingerprints of the class changes the state |
| `RuleHash.NoAttributesState` | pkg/hash_cache.go:759-775 | Without attributes the state is release, class, environment and fingerprints |
| `RuleHash.SerializedFormMatters` | pkg/hash_cache.go:781-790 | If one attribute is serialized differently, however often it occurs, the state changes |
| `RuleHash.ChangedAttributeMattersIff` | pkg/hash_cache.go:781-790 | Replacing the one attribute of a name changes the state exactly if its serialized form changes |
| `RuleHash.LastAttributeIsAppended` | pkg/hash_cache.go:854-867 | An attribute that comes after all others adds its serialized form |
| `RuleHash.AttributesHashCanonically` | pkg/hash_cache.go:854-867 | Permuting the attributes of a rule changes nothing |
| `RuleHash.RuleMetadata.PrehashRuleAttributes` | pkg/hash_cache.go:726-755 | The saved state is what full metadata would have written before the inputs; an opaque rule gets none |
| `RuleHash.RuleMetadata.LoadHashOnly` | pkg/target_determinator.go:1023-1036 | After loading, exactly the non-opaque rules have a saved state, each for the attributes as Bazel reported them |
| `RuleHash.RuleMetadata.LoadFull` | pkg/target_determinator.go:876-882 | Full loading normalizes the same attributes |
| `RuleHash.RuleMetadata.RuleHasher` | pkg/hash_cache.go:711-724 | A saved state is resumed; without one the state is computed while the attributes are kept, and missing once they are discarded |
| `RuleHash.RuleMetadata.TargetBytes` | pkg/hash_cache.go:635-645 | An opaque rule returns its identity before any state is needed |
| `RuleHash.HashOnlyEqualsFull` | pkg/hash_cache.go:709-755 | For every rule, opaque or not, hash-only loading gives the bytes of full loading and the missing-state error does not occur |
| `TargetPatterns.MatchingIsLocal` | pkg/scoped_query.go:67-84 | Whether a target is selected depends on its own definition and on whether the universe holds it |
| `TargetPatterns.ScopingAgreesInside` | pkg/scoped_query.go:67-74 | For patterns of union, difference, intersection and per-target filters the scoped pattern agrees with the original on every target in the universe |
| `TargetPatterns.ScopedIsRestriction` | pkg/scoped_query.go:67-74 | A pattern bounded by //... selects, scoped, exactly its original targets inside the universe |
| `TargetPatterns.UniverseMayGrowIff` | pkg/scoped_query.go:67-84 | Enlarging the universe never loses a target exactly when the pattern is monotone |
| `TargetPatterns.MonotoneScopesExactly` | pkg/scoped_query.go:67-84 | Monotone patterns scope exactly |
| `TargetPatterns.SourceFilesOutsideScopeExactly` | pkg/scoped_query.go:67-84 | So do others, such as `kind("source file", //a:*) - //...` |
| `TargetPatterns.BoundedIsMonotone` | pkg/scoped_query.go:67-74 | Patterns that select only through //..., as in the documented example, are monotone |
| `ScopedQuery.RewritePattern` | pkg/scoped_query.go:86-106 | The loop is the rewrite read character by character, and counts a replacement exactly when some //... stands first or after a character that is no letter, digit, '@', '_', '-', '.' or '+' |
| `ScopedQuery.WildcardIsScopedIff` | pkg/scoped_query.go:94-103 | In any surroundings without another wildcard, //... is replaced by $target_determinator_scoped_universe exactly if it stands first or after a character other than those, such as a space, a parenthesis, a slash or a tilde; otherwise, and everywhere else, nothing changes |
| `ScopedQuery.FirstWildcardIsRewritten` | pkg/scoped_query.go:86-106 | With more wildcards, the first is treated like that, and the rest of the pattern as if only a dot had come before it |
| `ScopedQuery.NothingToScope` | pkg/scoped_query.go:88-92 | A pattern without //... stays as it is and cannot be scoped |
| `ScopedQuery.ScopeTargetsPattern` | pkg/scoped_query.go:85-110 | Fails exactly when every //... comes right after a letter, digit, '@', '_', '-', '.' or '+', and otherwise is `let target_determinator_scoped_universe = ` the universe ` in (` the rewritten pattern `)` |
| `ScopedQuery.RepositoryIsSeenIff` | pkg/scoped_query.go:95-97 | For every repository name of letters, digits and `_-.+~`, wherever it stands, @name//... is left alone and cannot be scoped if and only if the name is empty or does not end in a tilde; else its //... is replaced |
| `ScopedQuery.TildeRepositoryIsRewritten` | pkg/scoped_query.go:95-97 | In the wildcard of a repository whose name ends in a tilde, as @rules_go~//..., the //... is replaced by the variable reference, with the repository name left in front of it |
| `ScopedQuery.ScopingCanBeUndoneIff` | pkg/scoped_query.go:67-84 | Putting //... back into the scoped body gives the original pattern exactly when that did not already mention the variable |
| `ScopedUniverse.QuotingRoundTrips` | pkg/scoped_query.go:9-20 | A word is refused exactly when it has both delimiters, double quotes are preferred, and the quoted text reads back as the word whatever follows |
| `ScopedUniverse.RefusedCannotBeQuoted` | pkg/scoped_query.go:9-20 | A refused word cannot be written in either kind of quotes |
| `ScopedUniverse.BuildScopedUniverse` | pkg/scoped_query.go:24-65 | Read back, the universe is one wildcard per dirty package and the set of carried labels, and its words are `package:all` for each package and then the carried labels in order; it fails exactly when one of them cannot be quoted |
| `ScopedUniverse.CarriedUniverse` | pkg/scoped_query.go:47-64 | Without packages the universe is one parenthesized set of the carried labels |
| `ScopedUniverse.SmallestUniverses` | pkg/scoped_query.go:47-64 | With neither packages nor labels the universe is the empty set, with one package its wildcard in parentheses |
| `ScopedUniverse.OneMorePackage` | pkg/scoped_query.go:39-64 | Each further package puts its wildcard and a plus sign in front of what there is without it |
| `Incremental.CarriedScopedLabels` | hash-persister/hash-persister.go:438-460 | The seeded dirty* targets outside re-listed and removed packages |
| `Incremental.CarriedLabelsDepend` | hash-persister/hash-persister.go:434-460 | A carried label is above a changed one, so it has dependencies |
| `Incremental.CarriedLabelsExist` | pkg/scoped_query.go:29-34 | Carried labels are guaranteed to still exist, and match |
| `Incremental.EveryTargetIsFreshOrRetained` | hash-persister/hash-persister.go:350-378 | If the pattern scopes exactly, the scoped query misses a matching target only if its seed entry is retained |
| `Incremental.ScopedTargetMatches` | hash-persister/hash-persister.go:350-378 | If the pattern scopes exactly, the scoped query selects nothing the full pattern would not |
| `Incremental.JudgedAlike` | hash-persister/hash-persister.go:350-378 | For every pattern, the scoped query and the seed entries retained beside it judge every target as the full pattern does, except the misjudged ones |
| `Incremental.CleanLabelKeepsItsHash` | hash-persister/hash-persister.go:629-637 | A seed label that is not dirty* exists unchanged at the target with its hash |
| `Incremental.SeedsAreCurrent` | hash-persister/hash-persister.go:639-663 | Every hash a run seeds its table with is the true one at the target |
| `Incremental.FreshHashIsCurrent` | hash-persister/hash-persister.go:672-688 | So every hash computed in the seeded run is the full run's |
| `Incremental.MergePersistedEntries` | hash-persister/hash-persister.go:741-752 | Clean seed entries overlaid by fresh ones; a dirty entry absent from them is deleted |
| `Incremental.UntouchedSeedIsCurrent` | hash-persister/hash-persister.go:287-306 | With nothing to re-list and nothing dirty* the seed's own hashes are the full run's |
| `Pruning.BuildExternalSeedHashes` | hash-persister/hash-persister.go:557-581 | The recorded hashes of exactly the labels outside the re-listed packages, a dependency's hash counting before a target's; labels of removed packages stay in |
| `Pruning.ProbeJustifies` | hash-persister/hash-persister.go:489-536 | Every dirty label left out of the changed set has an unchanged file or a probe hash equal to its seed hash, provided the paths read off labels find the changed files |
| `Pruning.UnvisitedIsInterchangeable` | pkg/dirty_set.go:343-362 | An untraversed label's definitions hash alike whatever common hashes their dependencies have |
| `SeededRun.HashMatching` | hash-persister/hash-persister.go:381-402 | Seeding, hashing and reading back after freezing gives the seeded recursive hashes |
| `SeededRun.RunFull` | hash-persister/hash-persister.go:168-209 | A full run persists the recursive hashes of the matching targets |
| `SeededRun.FindDirtySet` | hash-persister/hash-persister.go:266-297 | Falls back exactly for a trigger or an unanswered lookup, with its code; otherwise the dirty set is that of the diff before pruning and describes a valid step between the two revisions |
| `SeededRun.ProbePrune` | hash-persister/hash-persister.go:312-337 | Dirty* is recomputed from the changed labels exactly when something is above the dirty labels and the probe answers, nothing else changes, and the step stays valid |
| `SeededRun.PlanScopedRun` | hash-persister/hash-persister.go:312-378 | The code of the first answer that stops the merge (percentage of dirty* targets, quoting, scoping, scoped query, Bazel release), or the loaded scope of a valid step whose dirty* is the pruned set |
| `SeededRun.RunScoped` | hash-persister/hash-persister.go:380-432 | The scoped query, seeded hashing and merge give the full run's hashes exactly when no target is misjudged, and as many hashes are recomputed as the scoped query selects targets |
| `Chain.DependenciesOf` | pkg/hash_persistence.go:146-165 | The direct dependencies of a target, each once |
| `Chain.ExtractEdges` | pkg/hash_persistence.go:121-181 | An entry for exactly the targets with dependencies, listing exactly those, without repeats |
| `Chain.ExtractDependencyHashes` | pkg/hash_persistence.go:263-283 | The full-size hashes of exactly the labels that the edges have as a key or name, and that are neither matching targets nor source files |
| `Chain.FullRunGivesValidSeed` | pkg/hash_persistence.go:193-250 | What a full run persists is a true seed |
| `Chain.MergedEdgesOf` | hash-persister/hash-persister.go:695-703 | A label loaded again or retained has exactly its real edges after the merge |
| `Chain.NamedByRetained` | hash-persister/hash-persister.go:741-752 | Whatever a retained entry names, dirty* or not, exists at the target with its recorded edges |
| `Chain.RunOnTrueSeedIsValid` | hash-persister/hash-persister.go:312-337 | A run that takes as changed every dirty label, or what a probe over its seed found, is a valid step if its seed is true |
| `Chain.TrueOutputIff` | hash-persister/hash-persister.go:217-432 | A run of any kind whose seed is true writes a true seed exactly when it loses no edges and misjudges no target |
| `Chain.LosslessRunsAreFaithful` | hash-persister/hash-persister.go:350-378 | For a pattern that scopes exactly, a chain whose runs lose no edges misjudges no target either |
| `Chain.UnprunedChainsStayTrue` | pkg/dirty_set.go:109-111 | Chains in which no run prunes stay true, for patterns that scope exactly |
| `Chain.LosslessOutputIsValid` | hash-persister/hash-persister.go:665-711 | A merge that loses nothing and misjudges nothing gives a true seed |
| `Chain.LostLabelSpoilsOutput` | hash-persister/hash-persister.go:741-752 | One lost label makes the merged edges wrong |
| `Chain.UnprunedLosesNothing` | pkg/dirty_set.go:109-111 | Without pruning nothing is lost |
| `Chain.UntouchedSeedStaysValid` | hash-persister/hash-persister.go:287-306 | A run that finds nothing affected persists a true seed |
| `Chain.EdgesAgreeOnReachable` | pkg/hash_persistence.go:116-120 | A true seed has the real edges of every label reachable from a matching target |
| `NextRun.TrueSeedKnowsPackages` | pkg/dirty_set.go:149-166 | A true seed knows only packages of its tree, and every package with a label at or below a matching target |
| `NextRun.TrueOutputSeedsNextRun` | hash-persister/hash-persister.go:665-711 | A true output meets the seed hypothesis of the next seeded run, and that about a true diff to any other tree if every package is reached |
| `NextRun.WrittenSeedIsReadBack` | pkg/hash_persistence.go:331-349 | A seed written to a file and read back is the same seed, label by label, hash by hash and edge by edge |
| `NextRun.WrittenFileIsAcceptedIff` | hash-persister/hash-persister.go:600-623 | Whatever was written, it is accepted when read back if and only if its format is 9, it has an edge, its commit and fingerprint are the expected ones, the latter not empty, and all its hashes are of full size, and otherwise refused with the code of the first of these that it lacks |
| `PrunedChain.Layout.ProbePrunesEverything` | pkg/dirty_set.go:305-319 | In the two-run history the first probe finds nothing changed |
| `PrunedChain.Layout.FirstRunLosesG` | hash-persister/hash-persister.go:703-703 | and the merge then deletes edges that a retained entry leads to |
| `PrunedChain.Layout.RevisionsExist` | hash-persister/hash-persister.go:703-703 | The history exists |
| `Json.RenderTokenizes` | pkg/hash_persistence.go:543-562 | The compact text of a value yields its tokens |
| `JsonReader.ValueIsRead` | pkg/hash_persistence.go:620-630 | Decoding consumes the tokens of one value and returns it |
| `JsonReader.SkippingConsumesOneValue` | pkg/hash_persistence.go:634-661 | Skipping consumes exactly one value at any nesting depth |
| `JsonReader.Decoder.SkipPersistedValue` | pkg/hash_persistence.go:636-661 | The bracket-counting loop skips what the definition skips and fails when the input ends |
| `PersistedFormat.StreamingObjectEncoder.Key` | pkg/hash_persistence.go:467-475 | A comma before every member but the first of the innermost open object |
| `PersistedFormat.StreamMap` | pkg/hash_persistence.go:489-510 | Writes exactly the compact object with sorted keys, or null for a nil map, and leaves the encoder as it was |
| `PersistedFormat.EncodePersistedData` | pkg/hash_persistence.go:331-349 | Writes exactly the compact rendering of the document, with omitted fields, field order, commas and colons as encoding/json has them |
| `PersistedFormat.DocumentMembers` | pkg/hash_persistence.go:37-69 | The members of that document by their names, in order, and exactly which of them are left out when |
| `PersistedReader.DecodePersistedMap` | pkg/hash_persistence.go:601-631 | The entry-by-entry loop reads what the definition reads, merging into an existing map |
| `PersistedReader.StreamingEqualsBulk` | pkg/hash_persistence.go:571-577 | Decoding a map entry by entry gives what decoding it whole gives, null and errors included |
| `PersistedReader.DecodePersistedData` | pkg/hash_persistence.go:543-598 | The field loop reads what the definition reads in both modes |
| `PersistedReader.NamesSelectFields` | pkg/hash_persistence.go:37-69 | Each of the nine names, in any case, is read into its field, and the differ takes git_commit_sha and target_hashes only |
| `PersistedReader.NullIsRead` | pkg/hash_persistence.go:579-598 | A null clears a map and leaves texts and numbers alone |
| `PersistedReader.FieldIsSetIff` | pkg/hash_persistence.go:571-598 | Whatever was read before, a field other than the metadata is read exactly if its value is null or of its type, with every entry of a map readable |
| `PersistedReader.UnreadableFieldIsFatal` | pkg/hash_persistence.go:571-598 | One field that is not makes the whole file unreadable as a seed |
| `PersistedReader.RepeatedMapIsMerged` | pkg/hash_persistence.go:601-631 | A map that occurs again adds to the earlier one, entry by entry, unless it is null |
| `PersistedReader.DocumentIsRead` | pkg/hash_persistence.go:540-598 | Both readers understand every document, with known fields in any order and unknown ones skipped |
| `PersistedReader.EarlyStoppingAgrees` | pkg/hash_persistence.go:704-720 | Without repeated fields, in every field order, the early-stopping reader finds the complete reader's commit and target hashes |
| `PersistedReader.DifferStopsEarly` | pkg/hash_persistence.go:704-720 | After a commit and target hashes the differ's reader returns, whatever follows, malformed or not |
| `PersistedReader.WrittenIsReadBack` | pkg/hash_persistence.go:331-349 | Reading back what was written gives the data, with empty omitted maps as nil |
| `PersistedReader.RoundTripIsExactIff` | pkg/hash_persistence.go:336-338 | The round trip is exact exactly when no omitempty map is empty without being nil |
| `PersistedReader.DifferReadsWritten` | pkg/hash_persistence.go:704-720 | The differ finds the written commit and target hashes |
| `NameStatus.ParseGitNameStatus` | hash-persister/hash-persister.go:974-991 | The statuses by path, or an error exactly for an odd number of fields or an empty one |
| `NameStatus.LastStatusWins` | hash-persister/hash-persister.go:982-990 | Every path of the diff has a status, that of its last entry |
| `NameStatus.OneEntryIsParsed` | hash-persister/hash-persister.go:974-991 | A status, NUL, a path and NUL are read as that status of that path |
| `NameStatus.FormattedIsParsed` | hash-persister/hash-persister.go:974-991 | Every NUL-delimited diff is read back as its entries |
| `NameStatus.ParsedWasFormatted` | hash-persister/hash-persister.go:974-991 | Nothing else is accepted but such a diff, with or without its last NUL |
| `HashDiff.CompareHashes` | pkg/hash_persistence.go:757-829 | Each pair that differs is listed exactly once with its kind and hashes, and no other pair is |
| `HashDiff.DifferencesPatch` | pkg/hash_persistence.go:757-829 | The differences are an exact patch: applied to the flattened before hashes, each fits and the result is the flattened after hashes |
| `HashDiff.AffectedTargets` | pkg/hash_persistence.go:831-836 | The sorted duplicate-free labels of the differences |
| `HashDiff.Summarize` | pkg/hash_persistence.go:838-858 | The three totals count the kinds and sum to the number of differences |
| `HashDiff.PrintedLabels` | hash-differ/hash-differ.go:152-161 | Affected labels that still exist, or all of them when removed ones are included |
| `HashDiff.DiffSingleLabel` | pkg/walker.go:48-116 | The reports themselves: in order, exactly the configurations that are new or hash differently, none of the smaller ones being new; explained, if asked for, as NewLabel or ErrorInQueryBefore when the label had no configuration, ChangedConfiguration with both when it had and has one, NewConfiguration otherwise, and by the walked differences when only the hash changed. A label is reported exactly if some configuration is new or has another hash |
| `HashDiff.WalkerAndDifferAgree` | pkg/walker.go:48-116 | Of the labels that exist after, the differ lists those the walker reports and, beyond them, exactly those that lost a configuration |

## Left out

- Configurations: the query backend has a single empty configuration for every label (pkg/target_determinator.go:1063-1071), so hashing, seeding and pruning are by label; `RuleHash` and `HashDiff` keep configurations.
- The cquery path: configured rule inputs, incompatible-target filtering and alias narrowing to a configuration. Without configurations an alias asks for the same inputs as any rule.
- HashCalls.ReadableGraphsHash: a rule asks for each input once, where the code asks a second time while writing; the second request finds the stored hash.
- Sorted slices whose order no result depends on (`DirtyPackages`, `RemovedPackages`, reverse dependencies, carried labels before quoting) are sets or unordered sequences.
- Loops over Go maps take their entries in an arbitrary order; of several files that trigger a fallback, whose code is reported depends on that order and is left open.
- Byte-level collision freedom of what is hashed, SHA-256 itself, protobuf marshalling, JSON escaping and number syntax: functions with the stated hypotheses.
- Prefill.PoolCanStep: once.Do and the error send inside it are one step, justified by Prefill.ReportNeverBlocks; a negative TD_WORKER_COUNT, which panics, is not modelled.
- MemoTable.SomeWorkerCanStep: covers callers of Hash only. ExtractHashes takes the table lock and then entry locks, and is modelled for a table that nobody is filling.
- Freezing while workers hash: PrefillCache freezes only after all of them are done; `HashCache` models what a frozen table answers.
- The cache of file hashes: a source file's hash is a function of its content and execute bit.
- SeededRun.RunSeeded: hard errors that end the run with no output (unresolvable revision, unreadable Bazel release, failed hashing of an existing target, failed write), log lines and the counts of the report other than the total and the recomputed targets are left out; query, probe, git and lookup answers are inputs.
- SeededRun.RunSeeded: returns the target hashes; the edges and dependency hashes of a seedable output are those of `Chain.OutputOf`.
- SeededRun.HashMatching: hashes one target after the other; that the worker pool leaves the same hashes is Prefill.FinishedMeansHashed.
- SeededRun.PlanScopedRun: whether the universe can be quoted and the pattern scoped are inputs there; `ScopedUniverse` and `ScopedQuery` say when.
- CarriedTargets.RunsMergeExactlyIff: speaks of runs from a full run's seed; a chain's seed may hold edges that no target reaches any more, and for those Incremental.MergesExactlyIff decides step by step.
- TargetPatterns.Pattern has no operators that look at several targets, such as `rdeps`, `deps`, `tests` or `somepath`; patterns with them are not modelled.
- ScopingLimits.FilesOfPackageGoWrong: a step gives the dirty packages as such; that a diff of two trees can dirty just those is not part of it, nor is the quoting of the names.
- LostEdges.NextRunsMergeExactlyIff: the next run takes every dirty label as changed; pruned next runs over a seed with lost edges are not characterised.
- PersistedReader.DocumentIsRead: a value of the large maps is decoded by library code, and nested structs with it; what follows the closing brace is not read, as in the code.
- JsonReader.Decoder.SkipPersistedValue: brackets are counted but not matched by kind; the tokenizer rejects mismatched ones.
- Label parsing, repository normalisation and label printing: labels are canonical values with an injective printed form.
- Lockfile-name heuristics and glob matching: the fallback trigger is an arbitrary predicate on paths.
- HashDiff.DiffSingleLabel: the hashes of both revisions are given; an error in hashing, which ends the walk, is not part of it, and what WalkDiffs and the comparison of two configurations say is an input.
- Version ranges, flag parsing, the on-disk results cache, the driver and the target-determinator binary: no part of incremental hashing.
- Matching rule-class fingerprints to rule classes: their digests are a function of the class.
