/**
 Meaning of a target pattern before and after it is scoped
 (pkg/scoped_query.go:67-84). The text of the rewrite is the subject of module
 ScopedQuery; here a pattern is its expression tree, and scoping it means
 evaluating `//...` to the scoped universe instead of to every rule.
 */
module TargetPatterns {
  import opened Workspace
  import opened Hashing

  datatype Pattern =
    | Everything                                        // every occurrence of //...
    | Named(selects: Label -> bool)                     // labels and wildcards that are not rewritten
    | Filter(keeps: (Label, Target) -> bool, of: Pattern) // kind, attr, filter: decided target by target
    | Union(left: Pattern, right: Pattern)
    | Except(left: Pattern, right: Pattern)
    | Intersect(left: Pattern, right: Pattern)

  /** What `//...` selects: the rules of the main repository. */
  function AllRules(graph: Graph): set<Label> {
    set l | l in graph && l.repo == "" && graph[l].Rule?
  }

  function Matches(pattern: Pattern, graph: Graph, universe: set<Label>): set<Label> {
    match pattern
    case Everything => universe * graph.Keys
    case Named(selects) => set l | l in graph && selects(l)
    case Filter(keeps, of) => set l | l in graph && l in Matches(of, graph, universe) && keeps(l, graph[l])
    case Union(left, right) => Matches(left, graph, universe) + Matches(right, graph, universe)
    case Except(left, right) => Matches(left, graph, universe) - Matches(right, graph, universe)
    case Intersect(left, right) => Matches(left, graph, universe) * Matches(right, graph, universe)
  }

  /** The operators of the query language. */
  lemma OperatorsMean(graph: Graph, universe: set<Label>, a: Pattern, b: Pattern, keeps: (Label, Target) -> bool, l: Label)
    requires l in graph
    ensures l in Matches(Everything, graph, universe) <==> l in universe
    ensures l in Matches(Filter(keeps, a), graph, universe) <==> l in Matches(a, graph, universe) && keeps(l, graph[l])
    ensures l in Matches(Union(a, b), graph, universe) <==> l in Matches(a, graph, universe) || l in Matches(b, graph, universe)
    ensures l in Matches(Except(a, b), graph, universe) <==> l in Matches(a, graph, universe) && l !in Matches(b, graph, universe)
    ensures l in Matches(Intersect(a, b), graph, universe) <==> l in Matches(a, graph, universe) && l in Matches(b, graph, universe)
  {
  }

  /** Whether a target is selected, given whether the universe holds it. */
  predicate Selects(pattern: Pattern, l: Label, target: Target, inUniverse: bool) {
    match pattern
    case Everything => inUniverse
    case Named(selects) => selects(l)
    case Filter(keeps, of) => Selects(of, l, target, inUniverse) && keeps(l, target)
    case Union(left, right) => Selects(left, l, target, inUniverse) || Selects(right, l, target, inUniverse)
    case Except(left, right) => Selects(left, l, target, inUniverse) && !Selects(right, l, target, inUniverse)
    case Intersect(left, right) => Selects(left, l, target, inUniverse) && Selects(right, l, target, inUniverse)
  }

  /** Matching is decided target by target: by a label's own definition and by whether the universe holds it. */
  lemma {:induction false} MatchingIsLocal(pattern: Pattern, graph: Graph, universe: set<Label>, l: Label)
    ensures l in Matches(pattern, graph, universe) <==> l in graph && Selects(pattern, l, graph[l], l in universe)
  {
    match pattern {
      case Everything =>
      case Named(_) =>
      case Filter(_, of) => MatchingIsLocal(of, graph, universe, l);
      case Union(left, right) =>
        MatchingIsLocal(left, graph, universe, l);
        MatchingIsLocal(right, graph, universe, l);
      case Except(left, right) =>
        MatchingIsLocal(left, graph, universe, l);
        MatchingIsLocal(right, graph, universe, l);
      case Intersect(left, right) =>
        MatchingIsLocal(left, graph, universe, l);
        MatchingIsLocal(right, graph, universe, l);
    }
  }

  /** Scoping preserves meaning on the universe: for every pattern, every target in it is selected alike. */
  lemma ScopingAgreesInside(pattern: Pattern, graph: Graph, scope: set<Label>)
    requires scope <= AllRules(graph)
    ensures Matches(pattern, graph, scope) * scope == Matches(pattern, graph, AllRules(graph)) * scope
  {
    forall l | l in scope
      ensures l in Matches(pattern, graph, scope) <==> l in Matches(pattern, graph, AllRules(graph))
    {
      MatchingIsLocal(pattern, graph, scope, l);
      MatchingIsLocal(pattern, graph, AllRules(graph), l);
    }
  }

  // ---------- Patterns that can be scoped ----------

  /**
   The targets whose selection a scoped run depends on: rules of the main
   repository, which re-listing puts into the universe, and targets with
   dependencies, which may be carried. No target of a graph depends on itself.
   */
  predicate IsExposed(l: Label, target: Target) {
    l !in Deps(target) && ((l.repo == "" && target.Rule?) || Deps(target) != {})
  }

  /** Selected without being in the universe, and not selected in it. */
  predicate OnlyOutside(pattern: Pattern, l: Label, target: Target) {
    Selects(pattern, l, target, false) && !Selects(pattern, l, target, true)
  }

  /** Such a target, if selected without being in the universe, is selected in it too. */
  ghost predicate ScopesExactly(pattern: Pattern) {
    forall l, target | IsExposed(l, target) :: Selects(pattern, l, target, false) ==> Selects(pattern, l, target, true)
  }

  /** Every target that is selected without being in the universe is selected in it too. */
  ghost predicate Monotone(pattern: Pattern) {
    forall l, target :: Selects(pattern, l, target, false) ==> Selects(pattern, l, target, true)
  }

  /** A syntactic condition: only what is subtracted may be anything at all. */
  predicate Bounded(pattern: Pattern) {
    match pattern
    case Everything => true
    case Named(_) => false
    case Filter(_, of) => Bounded(of)
    case Union(left, right) => Bounded(left) && Bounded(right)
    case Except(left, _) => Bounded(left)
    case Intersect(left, right) => Bounded(left) || Bounded(right)
  }

  /** A bounded pattern selects nothing outside the universe, as in //... - attr(tags, "manual", //...). */
  lemma {:induction false} BoundedIsMonotone(pattern: Pattern)
    requires Bounded(pattern)
    ensures forall l, target :: !Selects(pattern, l, target, false)
    ensures Monotone(pattern)
  {
    match pattern {
      case Everything =>
      case Filter(_, of) => BoundedIsMonotone(of);
      case Union(left, right) =>
        BoundedIsMonotone(left);
        BoundedIsMonotone(right);
      case Except(left, _) => BoundedIsMonotone(left);
      case Intersect(left, right) =>
        if Bounded(left) {
          BoundedIsMonotone(left);
        } else {
          BoundedIsMonotone(right);
        }
    }
  }

  /** A larger universe never loses a target exactly when the pattern is monotone. */
  lemma UniverseMayGrowIff(pattern: Pattern)
    ensures Monotone(pattern) <==>
              forall graph: Graph, small: set<Label>, large: set<Label> | small <= large ::
                Matches(pattern, graph, small) <= Matches(pattern, graph, large)
  {
    if Monotone(pattern) {
      forall graph: Graph, small: set<Label>, large: set<Label>, l | small <= large && l in Matches(pattern, graph, small)
        ensures l in Matches(pattern, graph, large)
      {
        MatchingIsLocal(pattern, graph, small, l);
        MatchingIsLocal(pattern, graph, large, l);
      }
    } else {
      var l, target :| Selects(pattern, l, target, false) && !Selects(pattern, l, target, true);
      var graph: Graph, small: set<Label>, large: set<Label> := map[l := target], {}, {l};
      MatchingIsLocal(pattern, graph, small, l);
      MatchingIsLocal(pattern, graph, large, l);
      assert small <= large && l in Matches(pattern, graph, small) && l !in Matches(pattern, graph, large);
    }
  }

  lemma MonotoneScopesExactly(pattern: Pattern)
    requires Monotone(pattern)
    ensures ScopesExactly(pattern)
  {
  }

  /**
   Not only monotone patterns do: `kind("source file", named) - //...` gains targets
   when the universe shrinks, but only targets that no run puts into it.
   */
  lemma SourceFilesOutsideScopeExactly(named: Label -> bool)
    ensures ScopesExactly(Except(Filter((l: Label, target: Target) => target.SourceFile?, Named(named)), Everything))
  {
    var files := Filter((l: Label, target: Target) => target.SourceFile?, Named(named));
    forall l, target | IsExposed(l, target)
      ensures !Selects(files, l, target, false)
    {
    }
  }

  /** For a bounded pattern, scoping selects exactly what the original selects inside the universe. */
  lemma ScopedIsRestriction(pattern: Pattern, graph: Graph, scope: set<Label>)
    requires Bounded(pattern) && scope <= AllRules(graph)
    ensures Matches(pattern, graph, scope) == Matches(pattern, graph, AllRules(graph)) * scope
  {
    ScopingAgreesInside(pattern, graph, scope);
    BoundedIsMonotone(pattern);
    forall l | l in Matches(pattern, graph, scope)
      ensures l in scope
    {
      MatchingIsLocal(pattern, graph, scope, l);
    }
  }
}
