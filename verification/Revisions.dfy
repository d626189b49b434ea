/**
 How the target graphs of two revisions relate when one is reached from the
 other by a diff that triggers no fallback.
 */
module Revisions {
  import opened Wrappers
  import opened Workspace
  import opened Boundaries
  import opened Hashing

  /** What Bazel loads for a package: an uninterpreted function of everything the package sees. */
  type Loader = (Path, PackageView) -> map<Path, Target>

  /**
   `graph` is the whole target graph of a revision: main-repository targets come
   from the packages of the tree, external ones from elsewhere, and a source file
   has the contents of the file its label names.
   */
  ghost predicate GraphOfTree(tree: Tree, load: Loader, external: Graph, graph: Graph) {
    && WellFormed(graph)
    && (forall l: Label | l.repo == "" ::
          && (l in graph <==> l.pkg in Packages(tree) && l.name in load(l.pkg, View(tree, l.pkg)))
          && (l in graph ==> graph[l] == load(l.pkg, View(tree, l.pkg))[l.name]))
    && (forall l: Label | l.repo != "" ::
          && (l in graph <==> l in external)
          && (l in graph ==> graph[l] == external[l]))
    && (forall l | l in graph && l.repo == "" && graph[l].SourceFile? ::
          graph[l].content == if FileOf(l) in tree then Some(tree[FileOf(l)]) else None)
  }

  /** A label that names an unchanged source file at the target named one in the seed, if it existed there. */
  ghost predicate SourcesStaySources(before: Graph, after: Graph, changed: map<Path, string>) {
    forall l | l in before && l in after && l.repo == "" && after[l].SourceFile? && FileOf(l) !in changed ::
      before[l].SourceFile?
  }

  /** Everything later proofs need to know about two revisions. */
  ghost predicate Transition(before: Graph, after: Graph, dirty: set<Path>, removed: set<Path>, changed: map<Path, string>) {
    && WellFormed(before) && WellFormed(after)
    && (forall l: Label | l.repo != "" || l.pkg !in dirty :: SameTarget(before, after, l))
    && (forall l | l in before && l in after && l.repo == "" && after[l].SourceFile? && FileOf(l) !in changed ::
          before[l] == after[l])
    && (forall l | l in after && l.repo == "" :: l.pkg !in removed)
  }

  ghost predicate SameTarget(before: Graph, after: Graph, l: Label) {
    && (l in before <==> l in after)
    && (l in before ==> before[l] == after[l])
  }

  /**
   The packages in which the seed has no label, and which the diff does not dirty
   either, look the same at both revisions. A run cannot tell: it finds the owners
   of changed files among the packages it knows.
   */
  ghost predicate UnknownPackagesHold(seedTree: Tree, targetTree: Tree, known: set<Path>, dirty: set<Path>) {
    forall p | p in Packages(targetTree) && p !in known && p !in dirty :: View(seedTree, p) == View(targetTree, p)
  }

  /** A label outside the dirty packages has the same definition at both revisions. */
  lemma CleanLabelIsTheSame(
    seedTree: Tree, targetTree: Tree, load: Loader, external: Graph, before: Graph, after: Graph,
    changed: map<Path, string>, known: set<Path>, lookup: PackageLookup, l: Label)
    requires KnowsSome(seedTree, targetTree, changed, known, lookup)
    requires GraphOfTree(seedTree, load, external, before) && GraphOfTree(targetTree, load, external, after)
    requires var dirty := DirtyPackages(changed, known, Classify(changed, known, lookup).value);
             && UnknownPackagesHold(seedTree, targetTree, known, dirty)
             && (l.repo != "" || l.pkg !in dirty)
    ensures SameTarget(before, after, l)
  {
    hide DirtyPackages, Classify, View, Packages, IsDiff, LookupReads;
    if l.repo == "" && l.pkg in known {
      CleanPackageSeesTheSameWorld(seedTree, targetTree, changed, known, lookup, l.pkg);
    } else if l.repo == "" {
      BuildFileIsUnchanged(seedTree, targetTree, changed, known, Classify(changed, known, lookup).value, l.pkg);
    }
  }

  lemma DiffGivesTransition(
    seedTree: Tree, targetTree: Tree, load: Loader, external: Graph, before: Graph, after: Graph,
    changed: map<Path, string>, known: set<Path>, lookup: PackageLookup)
    requires KnowsSome(seedTree, targetTree, changed, known, lookup)
    requires GraphOfTree(seedTree, load, external, before) && GraphOfTree(targetTree, load, external, after)
    requires UnknownPackagesHold(seedTree, targetTree, known,
                                 DirtyPackages(changed, known, Classify(changed, known, lookup).value))
    requires SourcesStaySources(before, after, changed)
    ensures var changes := Classify(changed, known, lookup).value;
            Transition(before, after, DirtyPackages(changed, known, changes), changes.removed, changed)
  {
    BoundariesOfSome(seedTree, targetTree, changed, known, lookup);
    var changes := Classify(changed, known, lookup).value;
    hide DirtyPackages, Classify, View, Packages, IsDiff, LookupReads, UnknownPackagesHold;
    forall l: Label | l.repo != "" || l.pkg !in DirtyPackages(changed, known, changes)
      ensures SameTarget(before, after, l)
    {
      CleanLabelIsTheSame(seedTree, targetTree, load, external, before, after, changed, known, lookup, l);
    }
  }
}
