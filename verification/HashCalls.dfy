/**
 What one call of Hash returns, errors included, as a function of the loaded
 graph and the hashes present at the start (pkg/hash_cache.go: Hash, hashTarget,
 hashRule, getConfiguredRuleInputs without configured rule inputs).
 */
module HashCalls {
  import opened Wrappers
  import opened Workspace
  import opened Hashing

  datatype HashError = LabelNotFound | UnreadableFile | NotComputedBeforeFrozen

  type HashResult = Result<Hash, HashError>

  /** The immutable inputs of a hash table: loaded targets, unreadable source files and seeded hashes. */
  datatype Query = Query(hasher: Hasher, graph: Graph, unreadable: set<Label>, seeds: map<Label, Hash>)

  /** A rule input without a configuration in the loaded graph is not hashed at all. */
  function Loaded(graph: Graph, inputs: seq<Label>): (loaded: seq<Label>)
    ensures forall d | d in loaded :: d in inputs && d in graph
    ensures forall d | d in inputs && d in graph :: d in loaded
  {
    if inputs == [] then []
    else (if inputs[0] in graph then [inputs[0]] else []) + Loaded(graph, inputs[1..])
  }

  /** The labels whose hashes a target asks for, in order. Opaque targets ask for none. */
  function Calls(query: Query, l: Label): (calls: seq<Label>)
    requires l in query.graph
    ensures forall d | d in calls :: d in Deps(query.graph[l])
  {
    if IsOpaque(query.hasher, l) then []
    else match query.graph[l]
      case Rule(_, inputs) => Loaded(query.graph, inputs)
      case GeneratedFile(rule) => [rule]
      case _ => []
  }

  /** The hash once `found` holds the dependencies that were hashed. */
  function Compute(query: Query, l: Label, found: map<Label, Hash>): HashResult
    requires l in query.graph
    requires !IsOpaque(query.hasher, l) && query.graph[l].GeneratedFile? ==> query.graph[l].generatingRule in found
  {
    var sha256 := query.hasher.sha256;
    if IsOpaque(query.hasher, l) then Ok(Sha256(sha256(OpaquePreimage(l))))
    else match query.graph[l]
      case SourceFile(content) =>
        if l in query.unreadable then Err(UnreadableFile)
        else if content.None? then Ok(EmptyHash)
        else Ok(Sha256(sha256(FilePreimage(content.value))))
      case GeneratedFile(rule) => Ok(Sha256(sha256(GeneratedPreimage(rule, found[rule]))))
      case Rule(own, _) => Ok(Sha256(sha256(RulePreimage(own, found))))
      case PackageGroup => Ok(EmptyHash)
  }

  /** A rule skips inputs that turn out not to be in the graph; every other error is passed on. */
  predicate Skips(target: Target, error: HashError) {
    target.Rule? && error.LabelNotFound?
  }

  ghost function ResultOf(query: Query, l: Label): HashResult
    requires Acyclic(query.graph)
    decreases Rank(query.graph, l), 1, 0
  {
    if l in query.seeds then Ok(query.seeds[l])
    else if l !in query.graph then Err(LabelNotFound)
    else Finish(query, l, Calls(query, l), map[])
  }

  /** What the computation of `l` returns when `todo` is still to be hashed and `found` holds the rest. */
  ghost function Finish(query: Query, l: Label, todo: seq<Label>, found: map<Label, Hash>): HashResult
    requires Acyclic(query.graph) && Suspended(query, l, todo, found)
    decreases Rank(query.graph, l), 0, |todo|
  {
    if todo == [] then Compute(query, l, found)
    else
      RankDecreases(query.graph, l, todo[0]);
      match ResultOf(query, todo[0])
      case Ok(hash) => Finish(query, l, todo[1..], found[todo[0] := hash])
      case Err(error) =>
        if Skips(query.graph[l], error) then Finish(query, l, todo[1..], found) else Err(error)
  }

  /** `todo` is a suffix of the calls of `l`, so far as `Finish` needs to know. */
  ghost predicate Suspended(query: Query, l: Label, todo: seq<Label>, found: map<Label, Hash>) {
    && l in query.graph
    && (forall d | d in todo :: d in Deps(query.graph[l]))
    && (!IsOpaque(query.hasher, l) && query.graph[l].GeneratedFile? ==>
          query.graph[l].generatingRule in found || query.graph[l].generatingRule in todo)
  }

  /** The computation of `l` has reached a point from which it will return what the call of `l` returns. */
  ghost predicate OnTrack(query: Query, l: Label, todo: seq<Label>, found: map<Label, Hash>)
    requires Acyclic(query.graph)
  {
    Suspended(query, l, todo, found) && ResultOf(query, l) == Finish(query, l, todo, found)
  }

  lemma StartsOnTrack(query: Query, l: Label)
    requires Acyclic(query.graph) && l in query.graph && l !in query.seeds
    ensures OnTrack(query, l, Calls(query, l), map[])
  {
  }

  /** What one returned dependency means for the computation that asked for it. */
  lemma StaysOnTrack(query: Query, l: Label, todo: seq<Label>, found: map<Label, Hash>)
    requires Acyclic(query.graph) && todo != [] && OnTrack(query, l, todo, found)
    ensures match ResultOf(query, todo[0])
            case Ok(hash) => OnTrack(query, l, todo[1..], found[todo[0] := hash])
            case Err(error) =>
              if Skips(query.graph[l], error) then OnTrack(query, l, todo[1..], found)
              else ResultOf(query, l) == Err(error)
  {
  }

  lemma EndsOnTrack(query: Query, l: Label, found: map<Label, Hash>)
    requires Acyclic(query.graph) && OnTrack(query, l, [], found)
    ensures ResultOf(query, l) == Compute(query, l, found)
  {
  }

  /**
   In a closed graph of readable files no call fails, and the result is the
   recursive hash over the seeds.
   */
  lemma {:induction false} ReadableGraphsHash(query: Query, l: Label)
    requires WellFormed(query.graph) && query.unreadable !! query.graph.Keys
    requires l in query.graph || l in query.seeds
    ensures ResultOf(query, l) == Ok(SeededHash(query.hasher, query.graph, query.seeds, l))
    decreases Rank(query.graph, l), 1, 0
  {
    if l !in query.seeds && !IsOpaque(query.hasher, l) {
      match query.graph[l] {
        case Rule(own, inputs) =>
          var all := DepHashes(query.hasher, query.graph, query.seeds, l);
          InputsAreFound(query, l, Calls(query, l), map[], all);
          assert (map d | d in inputs :: all[d]) == all;
        case GeneratedFile(rule) =>
          RankDecreases(query.graph, l, rule);
          ReadableGraphsHash(query, rule);
          var found := map[rule := ResultOf(query, rule).value];
          assert Finish(query, l, [rule], map[]) == Finish(query, l, [rule][1..], map[][rule := found[rule]]);
          assert [rule][1..] == [] && map[][rule := found[rule]] == found;
        case _ =>
      }
    }
  }

  lemma {:induction false} InputsAreFound(query: Query, l: Label, todo: seq<Label>, found: map<Label, Hash>,
                                          all: map<Label, Hash>)
    requires WellFormed(query.graph) && query.unreadable !! query.graph.Keys
    requires Suspended(query, l, todo, found) && query.graph[l].Rule? && !IsOpaque(query.hasher, l)
    requires all == DepHashes(query.hasher, query.graph, query.seeds, l)
    requires forall d | d in all :: d in found || d in todo
    requires forall d | d in found :: d in all && found[d] == all[d]
    ensures Finish(query, l, todo, found) == Compute(query, l, all)
    decreases Rank(query.graph, l), 0, |todo|
  {
    if todo == [] {
      assert found == all;
    } else {
      RankDecreases(query.graph, l, todo[0]);
      ReadableGraphsHash(query, todo[0]);
      InputsAreFound(query, l, todo[1..], found[todo[0] := all[todo[0]]], all);
    }
  }

  // ---------- Errors ----------

  /**
   What hashing a target without dependencies returns. Missing files, directories
   and package groups have the empty hash; a file that exists but cannot be read
   makes the call fail; an opaque target has its identity, whatever it is.
   */
  lemma LeafResult(query: Query, l: Label)
    requires Acyclic(query.graph) && l in query.graph && l !in query.seeds
    ensures var result, target := ResultOf(query, l), query.graph[l];
            if l.repo != "" && l.repo in query.hasher.opaqueRepositories then
              result == Ok(Sha256(query.hasher.sha256(OpaquePreimage(l))))
            else if target.SourceFile? then
              result == if l in query.unreadable then Err(UnreadableFile)
                        else match target.content
                             case None => Ok(EmptyHash)
                             case Some(file) => Ok(Sha256(query.hasher.sha256(FilePreimage(file))))
            else target.PackageGroup? ==> result == Ok(EmptyHash)
  {
  }

  /** The first of some labels whose hash fails for another reason than that it is not in the graph. */
  ghost predicate FailsFirst(query: Query, labels: seq<Label>, i: nat, error: HashError)
    requires Acyclic(query.graph)
  {
    && i < |labels| && ResultOf(query, labels[i]) == Err(error) && error != LabelNotFound
    && forall j | 0 <= j < i :: ResultOf(query, labels[j]).Ok? || ResultOf(query, labels[j]) == Err(LabelNotFound)
  }

  /** The hashes of those labels that can be hashed. */
  ghost function HashesOf(query: Query, labels: seq<Label>): map<Label, Hash>
    requires Acyclic(query.graph)
  {
    map d | d in labels && ResultOf(query, d).Ok? :: ResultOf(query, d).value
  }

  /** Some label fails for such a reason. */
  ghost predicate Fails(query: Query, labels: seq<Label>)
    requires Acyclic(query.graph)
  {
    exists i: nat, error :: FailsFirst(query, labels, i, error)
  }

  lemma FailsFirstNext(query: Query, todo: seq<Label>, i: nat, error: HashError)
    requires Acyclic(query.graph) && todo != []
    ensures var result := ResultOf(query, todo[0]);
            FailsFirst(query, todo, i, error) <==>
              if i == 0 then result == Err(error) && error != LabelNotFound
              else (result.Ok? || result == Err(LabelNotFound)) && FailsFirst(query, todo[1..], i - 1, error)
  {
    hide ResultOf;
    if i > 0 {
      assert forall j | 0 < j < |todo| :: todo[j] == todo[1..][j - 1];
      assert forall j | 0 <= j < |todo| - 1 :: todo[1..][j] == todo[j + 1];
    }
  }

  lemma FailsNext(query: Query, todo: seq<Label>)
    requires Acyclic(query.graph) && todo != []
    ensures var result := ResultOf(query, todo[0]);
            Fails(query, todo) <==> (result.Err? && result.error != LabelNotFound) || Fails(query, todo[1..])
  {
    hide ResultOf, FailsFirst;
    var result := ResultOf(query, todo[0]);
    if result.Err? && result.error != LabelNotFound {
      FailsFirstNext(query, todo, 0, result.error);
    } else {
      if i: nat, error :| FailsFirst(query, todo, i, error) {
        FailsFirstNext(query, todo, i, error);
      }
      if i: nat, error :| FailsFirst(query, todo[1..], i, error) {
        FailsFirstNext(query, todo, i + 1, error);
      }
    }
  }

  lemma {:induction false} RuleFails(query: Query, l: Label, todo: seq<Label>, found: map<Label, Hash>, i: nat, error: HashError)
    requires Acyclic(query.graph) && Suspended(query, l, todo, found) && query.graph[l].Rule?
    requires FailsFirst(query, todo, i, error)
    ensures Finish(query, l, todo, found) == Err(error)
    decreases |todo|
  {
    FailsFirstNext(query, todo, i, error);
    GoesOn(query, l, todo, found);
    hide ResultOf, Finish, FailsFirst;
    if i > 0 {
      var result := ResultOf(query, todo[0]);
      RuleFails(query, l, todo[1..], if result.Ok? then found[todo[0] := result.value] else found, i - 1, error);
    }
  }

  lemma {:induction false} RuleFinishes(query: Query, l: Label, todo: seq<Label>, found: map<Label, Hash>)
    requires Acyclic(query.graph) && Suspended(query, l, todo, found) && query.graph[l].Rule? && !Fails(query, todo)
    ensures Finish(query, l, todo, found) == Compute(query, l, found + HashesOf(query, todo))
    decreases |todo|
  {
    hide ResultOf, Finish, Compute, Fails, IsOpaque, HashesOf, Suspended;
    if todo == [] {
      FinishesNow(query, l, found);
    } else {
      FailsNext(query, todo);
      GoesOn(query, l, todo, found);
      AddsHash(query, todo, found);
      var rest, result := todo[1..], ResultOf(query, todo[0]);
      RuleFinishes(query, l, rest, if result.Ok? then found[todo[0] := result.value] else found);
    }
  }

  lemma FinishesNow(query: Query, l: Label, found: map<Label, Hash>)
    requires Acyclic(query.graph) && Suspended(query, l, [], found)
    ensures Finish(query, l, [], found) == Compute(query, l, found)
    ensures found + HashesOf(query, []) == found
  {
  }

  lemma AddsHash(query: Query, todo: seq<Label>, found: map<Label, Hash>)
    requires Acyclic(query.graph) && todo != []
    ensures var result, rest := ResultOf(query, todo[0]), HashesOf(query, todo[1..]);
            found + HashesOf(query, todo) == (if result.Ok? then found[todo[0] := result.value] else found) + rest
  {
    hide ResultOf;
    assert todo == [todo[0]] + todo[1..];
  }

  lemma GoesOn(query: Query, l: Label, todo: seq<Label>, found: map<Label, Hash>)
    requires Acyclic(query.graph) && Suspended(query, l, todo, found) && query.graph[l].Rule? && todo != []
    ensures match ResultOf(query, todo[0])
            case Ok(hash) =>
              && Suspended(query, l, todo[1..], found[todo[0] := hash])
              && Finish(query, l, todo, found) == Finish(query, l, todo[1..], found[todo[0] := hash])
            case Err(LabelNotFound) =>
              Suspended(query, l, todo[1..], found) && Finish(query, l, todo, found) == Finish(query, l, todo[1..], found)
            case Err(error) => Finish(query, l, todo, found) == Err(error)
  {
  }

  /** The hashes of those inputs of a rule that are in the graph and can be hashed. */
  ghost function InputHashes(query: Query, inputs: seq<Label>): map<Label, Hash>
    requires Acyclic(query.graph)
  {
    map d | d in inputs && d in query.graph && ResultOf(query, d).Ok? :: ResultOf(query, d).value
  }

  /** Inputs that are not in the graph fail for no other reason. */
  lemma {:induction false} LoadedFailsAlike(query: Query, inputs: seq<Label>, i: nat, error: HashError)
    requires Acyclic(query.graph)
    ensures Fails(query, Loaded(query.graph, inputs)) <==> Fails(query, inputs)
    ensures FailsFirst(query, inputs, i, error) ==> exists j: nat :: FailsFirst(query, Loaded(query.graph, inputs), j, error)
  {
    if inputs == [] {
      assert Loaded(query.graph, inputs) == inputs;
    } else {
      var first, rest := inputs[0], inputs[1..];
      LoadedFailsAlike(query, rest, if i > 0 then i - 1 else 0, error);
      FailsNext(query, inputs);
      FailsFirstNext(query, inputs, i, error);
      assert first !in query.graph ==> ResultOf(query, first).Ok? || ResultOf(query, first) == Err(LabelNotFound);
      hide ResultOf, FailsFirst, Fails;
      if first in query.graph {
        var loaded := Loaded(query.graph, inputs);
        assert loaded[0] == first && loaded[1..] == Loaded(query.graph, rest);
        FailsNext(query, loaded);
        FailsFirstNext(query, loaded, 0, error);
        if i > 0 && FailsFirst(query, inputs, i, error) {
          var j: nat :| FailsFirst(query, Loaded(query.graph, rest), j, error);
          FailsFirstNext(query, loaded, j + 1, error);
        }
      } else {
        assert Loaded(query.graph, inputs) == Loaded(query.graph, rest);
      }
    }
  }

  /**
   What hashing a rule returns: the error of the first input whose hash fails,
   unless it is, or turns out, not to be in the graph, or else the hash of the
   rule's own definition with the hashes of all inputs of the graph that have one.
   */
  lemma RuleResult(query: Query, l: Label)
    requires Acyclic(query.graph) && l in query.graph && l !in query.seeds && !IsOpaque(query.hasher, l)
    requires query.graph[l].Rule?
    ensures var target := query.graph[l];
            && (forall i: nat, error | FailsFirst(query, target.inputs, i, error) :: ResultOf(query, l) == Err(error))
            && (!Fails(query, target.inputs) ==>
                  ResultOf(query, l)
                  == Ok(Sha256(query.hasher.sha256(RulePreimage(target.own, InputHashes(query, target.inputs))))))
  {
    hide FailsFirst, Fails, Loaded, Finish, ResultOf, Compute, IsOpaque;
    var target := query.graph[l];
    var inputs := Loaded(query.graph, target.inputs);
    StartsOnTrack(query, l);
    ComputesRule(query, l, map[] + HashesOf(query, inputs));
    forall i: nat, error | FailsFirst(query, target.inputs, i, error)
      ensures ResultOf(query, l) == Err(error)
    {
      LoadedFailsAlike(query, target.inputs, i, error);
      var j: nat :| FailsFirst(query, inputs, j, error);
      RuleFails(query, l, inputs, map[], j, error);
    }
    LoadedFailsAlike(query, target.inputs, 0, UnreadableFile);
    if !Fails(query, target.inputs) {
      RuleFinishes(query, l, inputs, map[]);
      LoadedHashes(query, target.inputs);
    }
  }

  lemma LoadedHashes(query: Query, inputs: seq<Label>)
    requires Acyclic(query.graph)
    ensures map[] + HashesOf(query, Loaded(query.graph, inputs)) == InputHashes(query, inputs)
  {
    hide ResultOf, Loaded, Acyclic;
    var loaded := Loaded(query.graph, inputs);
    assert forall d :: d in loaded <==> d in inputs && d in query.graph;
    assert HashesOf(query, loaded) == InputHashes(query, inputs);
  }

  lemma ComputesRule(query: Query, l: Label, found: map<Label, Hash>)
    requires l in query.graph && !IsOpaque(query.hasher, l) && query.graph[l].Rule?
    ensures Compute(query, l, found) == Ok(Sha256(query.hasher.sha256(RulePreimage(query.graph[l].own, found))))
    ensures Calls(query, l) == Loaded(query.graph, query.graph[l].inputs)
  {
  }

  /** A generated file passes on every error of its generating rule, even that it is not in the graph. */
  lemma GeneratedFileResult(query: Query, l: Label)
    requires Acyclic(query.graph) && l in query.graph && l !in query.seeds && !IsOpaque(query.hasher, l)
    requires query.graph[l].GeneratedFile?
    ensures var rule := query.graph[l].generatingRule;
            ResultOf(query, l)
            == match ResultOf(query, rule)
               case Ok(hash) => Ok(Sha256(query.hasher.sha256(GeneratedPreimage(rule, hash))))
               case Err(error) => Err(error)
  {
    var rule := query.graph[l].generatingRule;
    StartsOnTrack(query, l);
    assert [rule][1..] == [];
    if ResultOf(query, rule).Ok? {
      var found := map[rule := ResultOf(query, rule).value];
      assert Finish(query, l, [rule], map[]) == Finish(query, l, [rule][1..], map[][rule := found[rule]]);
    }
  }
}
