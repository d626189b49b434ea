/**
 Workspace-relative paths, labels, file trees and packages.

 A path is the sequence of its components, so the workspace root is `[]` and
 "a/b/BUILD" is `["a", "b", "BUILD"]`. A package is named by its directory.
 */
module Workspace {
  import opened Wrappers

  type Path = seq<string>

  /** Contents of a tracked file, together with the execute bit that git tracks. */
  datatype File = File(executable: bool, bytes: string)

  /** All files tracked at one revision. */
  type Tree = map<Path, File>

  /** A canonical label. `repo` is empty for the main repository. */
  datatype Label = Label(repo: string, pkg: Path, name: Path)

  /** The file a main-repository label names: //pkg:sub/f is pkg/sub/f. */
  function FileOf(l: Label): Path {
    l.pkg + l.name
  }

  /** A canonical label leaves out a name that repeats the last directory of its package: //a/b:b is //a/b. */
  predicate IsAbbreviated(l: Label) {
    l.pkg != [] && l.name == [l.pkg[|l.pkg| - 1]]
  }

  /** The path that is read off a canonical label, which of an abbreviated one is its package. */
  function LabelToPath(l: Label): Path {
    if IsAbbreviated(l) then l.pkg else FileOf(l)
  }

  /** As a/b/b, which //a/b:b names. */
  predicate IsNamedLikeItsDirectory(f: Path) {
    |f| >= 2 && f[|f| - 1] == f[|f| - 2]
  }

  /** Only for such files does the path read off a label differ from the file. */
  lemma MisreadIffNamedLikeDirectory(l: Label)
    ensures LabelToPath(l) != FileOf(l) <==> IsAbbreviated(l)
    ensures IsAbbreviated(l) ==> IsNamedLikeItsDirectory(FileOf(l)) && LabelToPath(l) == Dir(FileOf(l)) == l.pkg
  {
    assert IsAbbreviated(l) ==> FileOf(l)[..|l.pkg|] == l.pkg;
  }

  // ---------- Directories and BUILD files ----------

  /** The directory of a path; the root is its own directory. */
  function Dir(path: Path): Path {
    if path == [] then [] else path[..|path| - 1]
  }

  predicate IsBuildFile(path: Path) {
    path != [] && path[|path| - 1] in {"BUILD", "BUILD.bazel"}
  }

  function OtherBuildFile(path: Path): (other: Path)
    requires IsBuildFile(path)
    ensures IsBuildFile(other) && other != path && Dir(other) == Dir(path)
  {
    Dir(path) + [if path[|path| - 1] == "BUILD" then "BUILD.bazel" else "BUILD"]
  }

  /** The two BUILD file names of one directory are each other's `OtherBuildFile`. */
  lemma BuildFilesOfOneDirectory(f: Path, g: Path)
    requires IsBuildFile(f) && IsBuildFile(g) && Dir(f) == Dir(g)
    ensures g == f || g == OtherBuildFile(f)
  {
    assert f == Dir(f) + [f[|f| - 1]];
    assert g == Dir(g) + [g[|g| - 1]];
  }

  /** The directories with a BUILD file of either name. */
  function Packages(tree: Tree): set<Path> {
    set f | f in tree && IsBuildFile(f) :: Dir(f)
  }

  /** A directory is a package while it has a file of either name; of two such files each is the other one. */
  lemma PackageIff(tree: Tree, p: Path)
    ensures p in Packages(tree) <==> p + ["BUILD"] in tree || p + ["BUILD.bazel"] in tree
    ensures OtherBuildFile(p + ["BUILD"]) == p + ["BUILD.bazel"] && OtherBuildFile(p + ["BUILD.bazel"]) == p + ["BUILD"]
  {
    var plain, dotted := p + ["BUILD"], p + ["BUILD.bazel"];
    assert Dir(plain) == p && Dir(dotted) == p;
    forall f: Path | IsBuildFile(f) && Dir(f) == p
      ensures f == plain || f == dotted
    {
      assert f == Dir(f) + [f[|f| - 1]];
    }
  }

  // ---------- Ownership ----------

  /** The nearest package at or above a directory. */
  function NearestAt(dir: Path, packages: set<Path>): Option<Path>
    decreases |dir|
  {
    if dir in packages then Some(dir)
    else if dir == [] then None
    else NearestAt(Dir(dir), packages)
  }

  /** The package that owns a path: the nearest one strictly above it. */
  function Owner(path: Path, packages: set<Path>): Option<Path> {
    NearestAt(Dir(path), packages)
  }

  /** What the walk finds: the deepest package on the way up, or that there is none. */
  lemma {:induction false} NearestAtIsDeepest(dir: Path, packages: set<Path>)
    ensures var nearest := NearestAt(dir, packages);
            && (nearest.Some? ==> nearest.value in packages && nearest.value <= dir)
            && forall q | q in packages && q <= dir :: nearest.Some? && q <= nearest.value
    decreases |dir|
  {
    if dir !in packages && dir != [] {
      NearestAtIsDeepest(Dir(dir), packages);
      forall q | q in packages && q <= dir
        ensures q <= Dir(dir)
      {
        assert q == dir[..|q|] && q != dir;
      }
    }
  }

  /** The owner of a path is the deepest package strictly above it, and that determines it. */
  lemma OwnerIsDeepest(path: Path, packages: set<Path>)
    requires path != []
    ensures var owner := Owner(path, packages);
            && (owner.Some? ==> owner.value in packages && owner.value < path)
            && forall q | q in packages && q < path :: owner.Some? && q <= owner.value
  {
    NearestAtIsDeepest(Dir(path), packages);
  }

  lemma OwnerIs(path: Path, packages: set<Path>, owner: Path)
    requires path != [] && owner in packages && owner < path
    requires forall q | q in packages && q < path :: q <= owner
    ensures Owner(path, packages) == Some(owner)
  {
    OwnerIsDeepest(path, packages);
    var nearest := Owner(path, packages).value;
    assert nearest <= owner && owner <= nearest;
    assert nearest == owner;
  }

  /** The longest of some packages that is a proper prefix of a path. */
  ghost predicate IsNearestAbove(owner: Path, path: Path, packages: set<Path>) {
    owner in packages && owner < path && forall q | q in packages && q < path :: q <= owner
  }

  lemma OwnerIff(path: Path, packages: set<Path>, owner: Path)
    requires path != []
    ensures Owner(path, packages) == Some(owner) <==> IsNearestAbove(owner, path, packages)
  {
    OwnerIsDeepest(path, packages);
    if IsNearestAbove(owner, path, packages) {
      OwnerIs(path, packages, owner);
    }
  }

  /** Prefixes of one path are ordered by length. */
  lemma PrefixesAreOrdered(a: Path, b: Path, path: Path)
    requires a <= path && b <= path
    ensures a <= b || b < a
  {
  }

  /** Climbs from the directory of a path until it meets a known package or the root. */
  method OwningPackage(path: Path, known: set<Path>) returns (owner: Option<Path>)
    ensures owner == Owner(path, known)
  {
    var dir := Dir(path);
    while true
      invariant Owner(path, known) == NearestAt(dir, known)
      decreases |dir|
    {
      if dir in known {
        return Some(dir);
      }
      if dir == [] {
        return None;
      }
      dir := Dir(dir);
    }
  }

  // ---------- What a package sees ----------

  /**
   Everything a package's targets are computed from: its BUILD file, the files
   it owns and its direct subpackages.
   */
  datatype PackageView = PackageView(buildFile: Option<File>, files: map<Path, File>, subpackages: set<Path>)

  /** BUILD.bazel takes precedence over BUILD. */
  function BuildFileOf(tree: Tree, pkg: Path): Option<File> {
    if pkg + ["BUILD.bazel"] in tree then Some(tree[pkg + ["BUILD.bazel"]])
    else if pkg + ["BUILD"] in tree then Some(tree[pkg + ["BUILD"]])
    else None
  }

  /** A package reads its BUILD.bazel if it has one, and its BUILD file otherwise. */
  lemma BuildFileIsRead(tree: Tree, p: Path)
    ensures BuildFileOf(tree, p).Some? <==> p in Packages(tree)
    ensures p + ["BUILD.bazel"] in tree ==> BuildFileOf(tree, p) == Some(tree[p + ["BUILD.bazel"]])
    ensures p in Packages(tree) && p + ["BUILD.bazel"] !in tree ==>
              p + ["BUILD"] in tree && BuildFileOf(tree, p) == Some(tree[p + ["BUILD"]])
  {
    PackageIff(tree, p);
  }

  function OwnedFiles(tree: Tree, pkg: Path): map<Path, File> {
    map f | f in tree && Owner(f, Packages(tree)) == Some(pkg) :: tree[f]
  }

  function Subpackages(tree: Tree, pkg: Path): set<Path> {
    set q | q in Packages(tree) && q != [] && Owner(q, Packages(tree)) == Some(pkg)
  }

  function View(tree: Tree, pkg: Path): PackageView {
    PackageView(BuildFileOf(tree, pkg), OwnedFiles(tree, pkg), Subpackages(tree, pkg))
  }

  /** A package sees the files and the packages below it that no package in between owns. */
  lemma ViewHolds(tree: Tree, p: Path, f: Path)
    requires f != []
    ensures f in View(tree, p).files <==> f in tree && IsNearestAbove(p, f, Packages(tree))
    ensures f in tree && f in View(tree, p).files ==> View(tree, p).files[f] == tree[f]
    ensures f in View(tree, p).subpackages <==> f in Packages(tree) && IsNearestAbove(p, f, Packages(tree))
  {
    OwnerIff(f, Packages(tree), p);
    hide Packages;
  }

  /** A BUILD file in a tree is owned by its own directory. */
  lemma BuildFileOwner(tree: Tree, f: Path)
    requires f in tree && IsBuildFile(f)
    ensures Owner(f, Packages(tree)) == Some(Dir(f))
  {
    assert Dir(f) in Packages(tree);
  }

  // ---------- Differences between two trees ----------

  /** The status letter git prints for a path that differs between two trees. */
  predicate StatusOf(before: Tree, after: Tree, f: Path, status: string) {
    match status
    case "A" => f !in before && f in after
    case "D" => f in before && f !in after
    case _ => f in before && f in after && before[f] != after[f]
  }

  /** `changed` is the name-status difference of two trees, without rename detection. */
  ghost predicate IsDiff(before: Tree, after: Tree, changed: map<Path, string>) {
    && [] !in before && [] !in after
    && (forall f | f in changed :: StatusOf(before, after, f, changed[f]))
    && (forall f | f in before || f in after ::
          f !in changed ==> f in before && f in after && before[f] == after[f])
  }
}
