/**
 Reverse-dependency propagation over the persisted edge map
 (pkg/dirty_set.go: BuildRdeps, CollectAllLabels, propagateFrom).

 Reachability is defined by explicit chains of labels, independently of the
 breadth-first search that computes it.
 */
module Propagation {
  import opened Workspace

  /** What each label depends on directly. */
  type Edges = map<Label, seq<Label>>

  predicate HasEdge(edges: Edges, from: Label, dep: Label) {
    from in edges && dep in edges[from]
  }

  /** `chain` climbs reverse dependencies: each label depends on the one before it. */
  ghost predicate Climbs(edges: Edges, chain: seq<Label>) {
    forall i | 0 < i < |chain| :: HasEdge(edges, chain[i], chain[i - 1])
  }

  /** `l` is reached from `sources` by a non-empty chain of reverse dependencies. */
  ghost predicate Reached(edges: Edges, sources: set<Label>, l: Label) {
    exists chain: seq<Label> ::
      |chain| >= 2 && chain[0] in sources && chain[|chain| - 1] == l && Climbs(edges, chain)
  }

  ghost function Upstream(edges: Edges, sources: set<Label>): set<Label> {
    set l | l in edges && Reached(edges, sources, l)
  }

  /** What `propagateFrom` traverses: the changed labels and everything above them. */
  ghost function Visited(edges: Edges, changed: set<Label>): set<Label> {
    changed + Upstream(edges, changed)
  }

  /** The dirty labels plus everything above the changed ones. */
  ghost function DirtyStar(dirty: set<Label>, changed: set<Label>, edges: Edges): set<Label> {
    dirty + Upstream(edges, changed)
  }

  // ---------- Facts about reachability ----------

  lemma UpstreamStep(edges: Edges, sources: set<Label>, dep: Label, l: Label)
    requires HasEdge(edges, l, dep) && dep in Visited(edges, sources)
    ensures l in Upstream(edges, sources)
  {
    var chain: seq<Label>;
    if dep in sources {
      chain := [dep, l];
    } else {
      var below: seq<Label> :|
        |below| >= 2 && below[0] in sources && below[|below| - 1] == dep && Climbs(edges, below);
      chain := below + [l];
    }
    assert Climbs(edges, chain) && chain[0] in sources && chain[|chain| - 1] == l;
  }

  /** Whatever is upstream has a dependency. */
  lemma UpstreamHasEdge(edges: Edges, sources: set<Label>, l: Label) returns (dep: Label)
    requires l in Upstream(edges, sources)
    ensures HasEdge(edges, l, dep)
  {
    var chain: seq<Label> :|
      |chain| >= 2 && chain[0] in sources && chain[|chain| - 1] == l && Climbs(edges, chain);
    dep := chain[|chain| - 2];
  }

  /** A set closed under reverse dependencies of itself and the sources contains everything upstream. */
  lemma ClosedSetHoldsUpstream(edges: Edges, sources: set<Label>, closed: set<Label>)
    requires forall l, dep | HasEdge(edges, l, dep) && dep in sources + closed :: l in closed
    ensures Upstream(edges, sources) <= closed
  {
    forall l | l in Upstream(edges, sources)
      ensures l in closed
    {
      var chain: seq<Label> :|
        |chain| >= 2 && chain[0] in sources && chain[|chain| - 1] == l && Climbs(edges, chain);
      ChainStaysInside(edges, sources, chain, closed, |chain| - 1);
    }
  }

  lemma {:induction false} ChainStaysInside(
    edges: Edges, sources: set<Label>, chain: seq<Label>, closed: set<Label>, k: nat)
    requires 0 < k < |chain| && Climbs(edges, chain) && chain[0] in sources
    requires forall l, dep | HasEdge(edges, l, dep) && dep in sources + closed :: l in closed
    ensures chain[k] in closed
  {
    if k > 1 {
      ChainStaysInside(edges, sources, chain, closed, k - 1);
    }
    assert HasEdge(edges, chain[k], chain[k - 1]);
  }

  /** The unpruned dirty* set is closed under reverse dependencies. */
  lemma UnprunedIsClosed(dirty: set<Label>, edges: Edges, l: Label, dep: Label)
    requires HasEdge(edges, l, dep) && dep in DirtyStar(dirty, dirty, edges)
    ensures l in DirtyStar(dirty, dirty, edges)
  {
    UpstreamStep(edges, dirty, dep, l);
  }

  lemma UpstreamOfFewer(edges: Edges, few: set<Label>, many: set<Label>)
    requires few <= many
    ensures Upstream(edges, few) <= Upstream(edges, many)
  {
    forall l | l in Upstream(edges, few)
      ensures l in Upstream(edges, many)
    {
      var chain: seq<Label> :|
        |chain| >= 2 && chain[0] in few && chain[|chain| - 1] == l && Climbs(edges, chain);
    }
  }

  /** Propagating from fewer labels reaches fewer labels, so a pruned set lies inside the unpruned one. */
  lemma PruningShrinks(dirty: set<Label>, changed: set<Label>, edges: Edges)
    requires changed <= dirty
    ensures dirty <= DirtyStar(dirty, changed, edges) <= DirtyStar(dirty, dirty, edges)
  {
    UpstreamOfFewer(edges, changed, dirty);
    hide Upstream;
  }

  // ---------- Loops of the source ----------

  /** Every label that an edge map or a set of hashed labels mentions. */
  function AllLabels(edges: Edges, hashed: set<Label>): set<Label> {
    edges.Keys + (set l, dep | l in edges && dep in edges[l] :: dep) + hashed
  }

  method CollectAllLabels(edges: Edges, hashed: set<Label>) returns (all: set<Label>)
    ensures all == AllLabels(edges, hashed)
    ensures forall l :: l in all <==> l in hashed || l in edges || exists from :: from in edges && l in edges[from]
  {
    all := {};
    var rest := edges.Keys;
    ghost var seen := {};
    while rest != {}
      invariant seen + rest == edges.Keys && seen !! rest
      invariant all == seen + set l, dep | l in seen && dep in edges[l] :: dep
      decreases rest
    {
      var l :| l in rest;
      all := all + {l} + set dep | dep in edges[l];
      rest, seen := rest - {l}, seen + {l};
    }
    all := all + hashed;
  }

  type ReverseEdges = map<Label, seq<Label>>

  /** `rdeps` lists, for each dependency, exactly the labels that name it. */
  ghost predicate Reverses(rdeps: ReverseEdges, edges: Edges) {
    forall l, dep :: HasEdge(rdeps, dep, l) <==> HasEdge(edges, l, dep)
  }

  method BuildRdeps(edges: Edges) returns (rdeps: ReverseEdges)
    ensures Reverses(rdeps, edges)
  {
    rdeps := map[];
    var rest := edges.Keys;
    while rest != {}
      invariant rest <= edges.Keys
      invariant forall l, dep :: HasEdge(rdeps, dep, l) <==> l !in rest && HasEdge(edges, l, dep)
      decreases rest
    {
      var from :| from in rest;
      rest := rest - {from};
      var deps := edges[from];
      for i := 0 to |deps|
        invariant forall l, dep ::
            HasEdge(rdeps, dep, l) <==> if l == from then dep in deps[..i] else l !in rest && HasEdge(edges, l, dep)
      {
        ghost var before := rdeps;
        rdeps := rdeps[deps[i] := (if deps[i] in rdeps then rdeps[deps[i]] else []) + [from]];
        assert forall l, dep ::
          HasEdge(rdeps, dep, l) <==> HasEdge(before, dep, l) || (dep == deps[i] && l == from);
        assert deps[..i + 1] == deps[..i] + [deps[i]];
      }
      assert deps[..|deps|] == deps;
    }
  }

  /** Every traversed label that is no longer queued has all its reverse dependencies in the result. */
  ghost predicate Expanded(edges: Edges, visited: set<Label>, queue: seq<Label>, above: set<Label>) {
    forall l, dep | HasEdge(edges, l, dep) && dep in visited && dep !in queue :: l in above
  }

  /**
   What the search keeps: `above` is the part of the upstream labels found so
   far and `left` the labels it may still queue.
   */
  ghost predicate Searching(edges: Edges, changed: set<Label>, visited: set<Label>, queue: seq<Label>,
                            above: set<Label>, left: set<Label>)
  {
    && visited == changed + above
    && above <= Upstream(edges, changed)
    && (forall l | l in queue :: l in visited)
    && (forall l | l in Upstream(edges, changed) :: l in visited || l in left)
  }

  /**
   Breadth-first search from the changed labels. A label enters the queue only
   when it enters `visited`, so each is enqueued at most once; the result does
   not depend on the order in which the source's map iterations yield labels.
   */
  method PropagateFrom(dirty: set<Label>, changed: set<Label>, edges: Edges) returns (result: set<Label>)
    ensures result == DirtyStar(dirty, changed, edges)
  {
    var rdeps := BuildRdeps(edges);
    result := dirty;
    var visited := changed;
    var queue := QueueOf(changed);
    ghost var above, left := {}, Upstream(edges, changed);
    hide Upstream;
    while queue != []
      invariant result == dirty + above
      invariant Searching(edges, changed, visited, queue, above, left)
      invariant Expanded(edges, visited, queue, above)
      decreases left, |queue|
    {
      var current := queue[0];
      var parents := if current in rdeps then rdeps[current] else [];
      assert forall l :: l in parents <==> HasEdge(edges, l, current) by {
        assert forall l :: HasEdge(rdeps, current, l) <==> HasEdge(edges, l, current);
      }
      PoppedFromQueue(edges, visited, queue, above);
      ghost var found;
      result, visited, queue, found, left :=
        Enqueue(edges, changed, current, parents, result, visited, queue[1..], above, left);
      above := above + found;
    }
    SearchIsComplete(edges, changed, visited, above, left);
  }

  /** One round of the search: adds the reverse dependencies of `current` and queues the new ones. */
  method Enqueue(ghost edges: Edges, ghost changed: set<Label>, ghost current: Label, parents: seq<Label>,
                 result0: set<Label>, visited0: set<Label>, queue0: seq<Label>, ghost above: set<Label>, ghost left0: set<Label>)
    returns (result: set<Label>, visited: set<Label>, queue: seq<Label>, ghost found: set<Label>, ghost left: set<Label>)
    requires forall l :: l in parents <==> HasEdge(edges, l, current)
    requires Searching(edges, changed, visited0, queue0 + [current], above, left0)
    requires Expanded(edges, visited0, queue0 + [current], above)
    ensures result == result0 + found
    ensures Searching(edges, changed, visited, queue, above + found, left)
    ensures Expanded(edges, visited, queue, above + found)
    ensures left < left0 || (left == left0 && queue == queue0)
  {
    hide Upstream, Expanded, HasEdge;
    result, visited, queue, found, left := result0, visited0, queue0, {}, left0;
    assert forall l | l in queue0 :: l in queue0 + [current];
    assert current in queue0 + [current];
    assert current in Visited(edges, changed);
    for i := 0 to |parents|
      invariant forall l :: l in found <==> l in parents[..i]
      invariant result == result0 + found
      invariant visited == visited0 + found
      invariant found <= Upstream(edges, changed)
      invariant forall l | l in queue0 :: l in queue
      invariant forall l | l in queue :: l in visited
      invariant forall l | l in visited && l !in visited0 :: l in queue
      invariant forall l | l in Upstream(edges, changed) :: l in visited || l in left
      invariant left < left0 || (left == left0 && queue == queue0)
    {
      var rdep := parents[i];
      assert HasEdge(edges, rdep, current);
      UpstreamStep(edges, changed, current, rdep);
      result, found := result + {rdep}, found + {rdep};
      if rdep !in visited {
        visited := visited + {rdep};
        queue := queue + [rdep];
        left := left - {rdep};
      }
      assert parents[..i + 1] == parents[..i] + [rdep];
    }
    assert parents[..|parents|] == parents;
    ExpandedAfterRound(edges, current, visited0, queue0, above, visited, queue, found);
  }

  lemma PoppedFromQueue(edges: Edges, visited: set<Label>, queue: seq<Label>, above: set<Label>)
    requires queue != [] && Expanded(edges, visited, queue, above)
    ensures Expanded(edges, visited, queue[1..] + [queue[0]], above)
  {
    assert queue == [queue[0]] + queue[1..];
  }

  lemma SearchIsComplete(edges: Edges, changed: set<Label>, visited: set<Label>, above: set<Label>, left: set<Label>)
    requires Searching(edges, changed, visited, [], above, left) && Expanded(edges, visited, [], above)
    ensures above == Upstream(edges, changed)
  {
    ClosedSetHoldsUpstream(edges, changed, above);
  }

  lemma ExpandedAfterRound(edges: Edges, current: Label,
                           visited0: set<Label>, queue0: seq<Label>, above: set<Label>,
                           visited: set<Label>, queue: seq<Label>, found: set<Label>)
    requires forall l | HasEdge(edges, l, current) :: l in found
    requires Expanded(edges, visited0, queue0 + [current], above)
    requires forall l | l in queue0 :: l in queue
    requires forall l | l in visited && l !in visited0 :: l in queue
    ensures Expanded(edges, visited, queue, above + found)
  {
    forall l, dep | HasEdge(edges, l, dep) && dep in visited && dep !in queue
      ensures l in above + found
    {
      if dep != current {
        assert dep !in queue0 + [current];
      }
    }
  }

  method QueueOf(labels: set<Label>) returns (queue: seq<Label>)
    ensures forall l :: l in queue <==> l in labels
  {
    queue := [];
    var rest := labels;
    while rest != {}
      invariant forall l :: l in queue || l in rest <==> l in labels
      decreases rest
    {
      var l :| l in rest;
      rest, queue := rest - {l}, queue + [l];
    }
  }
}
