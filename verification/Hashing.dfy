/**
 Recursive target hashes (pkg/hash_cache.go: hashTarget, hashRule), as a
 definition that no cache, worker or seed takes part in.

 SHA-256 over the bytes a target writes is an uninterpreted function of what
 those bytes encode. Where a result needs it to be collision free, that is the
 hypothesis `Injective`.
 */
module Hashing {
  import opened Wrappers
  import opened Workspace

  /** Missing files, directories and package groups have the empty hash. */
  datatype Hash = EmptyHash | Sha256(digest: nat)

  datatype Target =
    | SourceFile(content: Option<File>)
    | GeneratedFile(generatingRule: Label)
    | Rule(own: string, inputs: seq<Label>)
    | PackageGroup

  /** The transitive targets of a query, by label. */
  type Graph = map<Label, Target>

  /** What a hash is computed from. A rule's inputs are a set of labels with their hashes. */
  datatype Preimage =
    | FilePreimage(file: File)
    | OpaquePreimage(l: Label)
    | GeneratedPreimage(generatingRule: Label, hash: Hash)
    | RulePreimage(own: string, inputs: map<Label, Hash>)

  datatype Hasher = Hasher(sha256: Preimage -> nat, opaqueRepositories: set<string>)

  ghost predicate Injective(hasher: Hasher) {
    forall p, q :: hasher.sha256(p) == hasher.sha256(q) ==> p == q
  }

  predicate IsOpaque(hasher: Hasher, l: Label) {
    l.repo != "" && l.repo in hasher.opaqueRepositories
  }

  // ---------- The dependency graph ----------

  function Deps(target: Target): set<Label> {
    match target
    case Rule(_, inputs) => set d | d in inputs
    case GeneratedFile(rule) => {rule}
    case _ => {}
  }

  ghost predicate Closed(graph: Graph) {
    forall l, d | l in graph && d in Deps(graph[l]) :: d in graph
  }

  ghost predicate IsRanking(graph: Graph, rank: map<Label, nat>) {
    && (forall l | l in graph :: l in rank)
    && (forall l, d | l in graph && d in Deps(graph[l]) && d in graph :: rank[d] < rank[l])
  }

  ghost predicate Acyclic(graph: Graph) {
    exists rank :: IsRanking(graph, rank)
  }

  ghost predicate WellFormed(graph: Graph) {
    Closed(graph) && Acyclic(graph)
  }

  /** A topological number; labels outside the graph come first. */
  ghost function Rank(graph: Graph, l: Label): nat
    requires Acyclic(graph)
  {
    if l in graph then
      var rank :| IsRanking(graph, rank);
      rank[l] + 1
    else 0
  }

  lemma RankDecreases(graph: Graph, l: Label, d: Label)
    requires Acyclic(graph) && l in graph && d in Deps(graph[l])
    ensures Rank(graph, d) < Rank(graph, l)
  {
  }

  /** `part` is a sub-graph, as a scoped query loads it. */
  ghost predicate PartOf(part: Graph, graph: Graph) {
    forall l | l in part :: l in graph && part[l] == graph[l]
  }

  // ---------- Hashes ----------

  /** The hash of one target, given the hashes of its dependencies. */
  function Combine(hasher: Hasher, l: Label, target: Target, hashes: map<Label, Hash>): Hash
    requires Deps(target) <= hashes.Keys
  {
    if IsOpaque(hasher, l) then Sha256(hasher.sha256(OpaquePreimage(l)))
    else match target
      case SourceFile(None) => EmptyHash
      case SourceFile(Some(file)) => Sha256(hasher.sha256(FilePreimage(file)))
      case GeneratedFile(rule) => Sha256(hasher.sha256(GeneratedPreimage(rule, hashes[rule])))
      case Rule(own, inputs) =>
        assert forall d | d in inputs :: d in Deps(target);
        Sha256(hasher.sha256(RulePreimage(own, map d | d in inputs :: hashes[d])))
      case PackageGroup => EmptyHash
  }

  /** The hash of a label where some labels' hashes are given in advance. */
  ghost function SeededHash(hasher: Hasher, graph: Graph, seeds: map<Label, Hash>, l: Label): Hash
    requires WellFormed(graph) && (l in graph || l in seeds)
    decreases Rank(graph, l)
  {
    if l in seeds then seeds[l]
    else
      Combine(hasher, l, graph[l], DepHashes(hasher, graph, seeds, l))
  }

  ghost function DepHashes(hasher: Hasher, graph: Graph, seeds: map<Label, Hash>, l: Label): map<Label, Hash>
    requires WellFormed(graph) && l in graph
    ensures DepHashes(hasher, graph, seeds, l).Keys == Deps(graph[l])
    decreases Rank(graph, l), 0
  {
    map d | d in Deps(graph[l]) :: (RankDecreases(graph, l, d); SeededHash(hasher, graph, seeds, d))
  }

  /** The recursive definition of a target's hash. */
  ghost function HashOf(hasher: Hasher, graph: Graph, l: Label): Hash
    requires WellFormed(graph) && l in graph
  {
    SeededHash(hasher, graph, map[], l)
  }

  /** Seeding refines: if every seeded label has its recursive hash, so does every result, for any seeded subset. */
  lemma {:induction false} SeedingRefines(hasher: Hasher, graph: Graph, seeds: map<Label, Hash>, l: Label)
    requires WellFormed(graph) && l in graph
    requires forall s | s in seeds && s in graph :: seeds[s] == HashOf(hasher, graph, s)
    ensures SeededHash(hasher, graph, seeds, l) == HashOf(hasher, graph, l)
    decreases Rank(graph, l)
  {
    if l !in seeds {
      forall d | d in Deps(graph[l])
        ensures SeededHash(hasher, graph, seeds, d) == HashOf(hasher, graph, d)
      {
        RankDecreases(graph, l, d);
        SeedingRefines(hasher, graph, seeds, d);
      }
      assert DepHashes(hasher, graph, seeds, l) == DepHashes(hasher, graph, map[], l);
    }
  }

  /** Loading only part of the graph does not change the hashes of what it holds. */
  lemma {:induction false} PartHashesAgree(hasher: Hasher, part: Graph, graph: Graph, seeds: map<Label, Hash>, l: Label)
    requires WellFormed(part) && WellFormed(graph) && PartOf(part, graph) && l in part
    ensures SeededHash(hasher, part, seeds, l) == SeededHash(hasher, graph, seeds, l)
    decreases Rank(part, l)
  {
    if l !in seeds {
      forall d | d in Deps(part[l])
        ensures SeededHash(hasher, part, seeds, d) == SeededHash(hasher, graph, seeds, d)
      {
        RankDecreases(part, l, d);
        PartHashesAgree(hasher, part, graph, seeds, d);
      }
      assert DepHashes(hasher, part, seeds, l) == DepHashes(hasher, graph, seeds, l);
    }
  }

  /**
   Hash equality of a rule or generated file forces equal dependency labels with
   equal hashes, and then the two definitions are interchangeable.
   */
  lemma EqualHashesMeanEqualInputs(
    hasher: Hasher, l: Label, t: Target, u: Target, ts: map<Label, Hash>, us: map<Label, Hash>)
    requires Injective(hasher) && !IsOpaque(hasher, l) && (t.Rule? || t.GeneratedFile?)
    requires ts.Keys == Deps(t) && us.Keys == Deps(u)
    requires Combine(hasher, l, t, ts) == Combine(hasher, l, u, us)
    ensures ts == us
    ensures Deps(t) == Deps(u) && Combine(hasher, l, t, us) == Combine(hasher, l, u, us)
    ensures forall hashes: map<Label, Hash> | hashes.Keys == Deps(t) ::
              Combine(hasher, l, t, hashes) == Combine(hasher, l, u, hashes)
  {
    if t.Rule? {
      assert u.Rule? && t.own == u.own;
      var p, q := map d | d in t.inputs :: ts[d], map d | d in u.inputs :: us[d];
      assert p == q;
      assert p == ts && q == us;
      forall hashes: map<Label, Hash> | hashes.Keys == Deps(t)
        ensures Combine(hasher, l, t, hashes) == Combine(hasher, l, u, hashes)
      {
        assert (map d | d in t.inputs :: hashes[d]) == (map d | d in u.inputs :: hashes[d]);
      }
    }
  }

  /** A label with the same hash in two graphs has there the same dependencies with the same hashes. */
  lemma SameHashSameDependency(hasher: Hasher, here: Graph, there: Graph, l: Label, d: Label)
    requires Injective(hasher) && WellFormed(here) && WellFormed(there)
    requires l in here && l in there && !IsOpaque(hasher, l) && d in Deps(here[l])
    requires HashOf(hasher, here, l) == HashOf(hasher, there, l)
    ensures d in there && HashOf(hasher, here, d) == HashOf(hasher, there, d)
  {
    var hashes, others := DepHashes(hasher, here, map[], l), DepHashes(hasher, there, map[], l);
    EqualHashesMeanEqualInputs(hasher, l, here[l], there[l], hashes, others);
    assert hashes[d] == others[d];
  }

  // ---------- A changed definition ----------

  /** A definition that hashes differently, without dependencies. */
  function Altered(target: Target): Target {
    Rule(if target.Rule? then target.own + "+" else "", [])
  }

  function AlteredGraph(graph: Graph, y: Label): Graph
    requires y in graph
  {
    graph[y := Altered(graph[y])]
  }

  lemma AlteredCombinesDifferently(hasher: Hasher, y: Label, target: Target, hashes: map<Label, Hash>,
                                   others: map<Label, Hash>)
    requires Injective(hasher) && y.repo == "" && hashes.Keys == Deps(target) && others.Keys == Deps(Altered(target))
    ensures Combine(hasher, y, Altered(target), others) != Combine(hasher, y, target, hashes)
  {
    if target.Rule? {
      assert |target.own + "+"| != |target.own|;
    }
  }

  lemma AlteredGraphIsWellFormed(graph: Graph, y: Label)
    requires WellFormed(graph) && y in graph
    ensures WellFormed(AlteredGraph(graph, y)) && Deps(AlteredGraph(graph, y)[y]) == {}
  {
    assert Deps(Altered(graph[y])) == {};
    var rank :| IsRanking(graph, rank);
    assert IsRanking(AlteredGraph(graph, y), rank);
  }
}
