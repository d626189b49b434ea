/**
 Comparing two hash files (pkg/hash_persistence.go: CompareHashFiles), what the
 hash differ prints of the result (hash-differ/hash-differ.go:150-160), and the
 walker that compares two revisions in memory (pkg/walker.go: DiffSingleLabel).
 */
module HashDiff {
  import opened Wrappers
  import opened Ordering

  type Hashes = map<string, map<string, string>>

  datatype Difference =
    | Added(l: string, configuration: string, after: string)
    | Removed(l: string, configuration: string, before: string)
    | Changed(l: string, configuration: string, before: string, after: string)

  datatype Comparison = Comparison(
    differences: seq<Difference>, added: nat, removed: nat, changed: nat,
    affected: seq<string>, afterTargets: set<string>)

  // ---------- What the differences should be ----------

  function Configurations(hashes: Hashes, l: string): map<string, string> {
    if l in hashes then hashes[l] else map[]
  }

  /** The difference of one configuration, if it has one. */
  function Expected(l: string, c: string, before: map<string, string>, after: map<string, string>): Option<Difference> {
    if c !in before then (if c in after then Some(Added(l, c, after[c])) else None)
    else if c !in after then Some(Removed(l, c, before[c]))
    else if before[c] != after[c] then Some(Changed(l, c, before[c], after[c]))
    else None
  }

  ghost predicate DistinctKeys(differences: seq<Difference>) {
    forall i, j | 0 <= i < j < |differences| ::
      differences[i].l != differences[j].l || differences[i].configuration != differences[j].configuration
  }

  /** The differences of one label, restricted to some configurations. */
  ghost predicate ExactIn(differences: seq<Difference>, l: string, before: map<string, string>, after: map<string, string>,
                          configurations: set<string>)
  {
    && DistinctKeys(differences)
    && (forall d | d in differences ::
          d.l == l && d.configuration in configurations && Expected(l, d.configuration, before, after) == Some(d))
    && (forall c | c in configurations && Expected(l, c, before, after).Some? :: Expected(l, c, before, after).value in differences)
  }

  /** The differences of some labels. */
  ghost predicate ExactFor(differences: seq<Difference>, before: Hashes, after: Hashes, labels: set<string>) {
    && DistinctKeys(differences)
    && (forall d | d in differences ::
          && d.l in labels
          && Expected(d.l, d.configuration, Configurations(before, d.l), Configurations(after, d.l)) == Some(d))
    && (forall l, c | l in labels && Expected(l, c, Configurations(before, l), Configurations(after, l)).Some? ::
          Expected(l, c, Configurations(before, l), Configurations(after, l)).value in differences)
  }

  /** All differences of two hash files, in whatever order the source's maps yielded them. */
  ghost predicate IsDifference(differences: seq<Difference>, before: Hashes, after: Hashes) {
    ExactFor(differences, before, after, before.Keys + after.Keys)
  }

  // ---------- Loops of the source ----------

  lemma ExtendsIn(differences: seq<Difference>, l: string, before: map<string, string>, after: map<string, string>,
                  configurations: set<string>, c: string)
    requires ExactIn(differences, l, before, after, configurations) && c !in configurations
    ensures var expected := Expected(l, c, before, after);
            ExactIn(if expected.Some? then differences + [expected.value] else differences, l, before, after, configurations + {c})
  {
    var expected := Expected(l, c, before, after);
    if expected.Some? {
      var all := differences + [expected.value];
      assert forall d | d in all :: d in differences || d == expected.value;
      assert expected.value == all[|differences|];
    }
  }

  method RemovedEntries(l: string, before: map<string, string>) returns (differences: seq<Difference>)
    ensures ExactIn(differences, l, before, map[], before.Keys)
  {
    differences := [];
    var rest := before.Keys;
    while rest != {}
      invariant rest <= before.Keys && ExactIn(differences, l, before, map[], before.Keys - rest)
      decreases rest
    {
      var c :| c in rest;
      ExtendsIn(differences, l, before, map[], before.Keys - rest, c);
      assert before.Keys - rest + {c} == before.Keys - (rest - {c});
      rest := rest - {c};
      differences := differences + [Removed(l, c, before[c])];
    }
  }

  method AddedEntries(l: string, after: map<string, string>) returns (differences: seq<Difference>)
    ensures ExactIn(differences, l, map[], after, after.Keys)
  {
    differences := [];
    var rest := after.Keys;
    while rest != {}
      invariant rest <= after.Keys && ExactIn(differences, l, map[], after, after.Keys - rest)
      decreases rest
    {
      var c :| c in rest;
      ExtendsIn(differences, l, map[], after, after.Keys - rest, c);
      assert after.Keys - rest + {c} == after.Keys - (rest - {c});
      rest := rest - {c};
      differences := differences + [Added(l, c, after[c])];
    }
  }

  /** A label of both files: removed and changed configurations first, then added ones. */
  method ChangedEntries(l: string, before: map<string, string>,
                        after: map<string, string>) returns (differences: seq<Difference>)
    ensures ExactIn(differences, l, before, after, before.Keys + after.Keys)
  {
    differences := [];
    var rest := before.Keys;
    while rest != {}
      invariant rest <= before.Keys && ExactIn(differences, l, before, after, before.Keys - rest)
      decreases rest
    {
      var c :| c in rest;
      ExtendsIn(differences, l, before, after, before.Keys - rest, c);
      assert before.Keys - rest + {c} == before.Keys - (rest - {c});
      rest := rest - {c};
      if c !in after {
        differences := differences + [Removed(l, c, before[c])];
      } else if before[c] != after[c] {
        differences := differences + [Changed(l, c, before[c], after[c])];
      }
    }
    var left := after.Keys;
    while left != {}
      invariant left <= after.Keys && ExactIn(differences, l, before, after, before.Keys + (after.Keys - left))
      decreases left
    {
      var c :| c in left;
      ghost var done := before.Keys + (after.Keys - left);
      left := left - {c};
      if c !in before {
        ExtendsIn(differences, l, before, after, done, c);
        differences := differences + [Added(l, c, after[c])];
      }
      assert done + {c} == before.Keys + (after.Keys - left);
    }
  }

  lemma JoinLabel(differences: seq<Difference>, before: Hashes, after: Hashes, labels: set<string>, l: string,
                  own: seq<Difference>)
    requires ExactFor(differences, before, after, labels) && l !in labels
    requires ExactIn(own, l, Configurations(before, l), Configurations(after, l),
                     Configurations(before, l).Keys + Configurations(after, l).Keys)
    ensures ExactFor(differences + own, before, after, labels + {l})
  {
    var all := differences + own;
    hide Configurations;
    forall d | d in all
      ensures d in differences || d in own
    {
    }
    forall i, j | 0 <= i < j < |all|
      ensures all[i].l != all[j].l || all[i].configuration != all[j].configuration
    {
      if i < |differences| <= j {
        assert all[i] in differences && all[j] in own;
      }
    }
  }

  method CompareHashes(before: Hashes, after: Hashes) returns (differences: seq<Difference>)
    ensures IsDifference(differences, before, after)
  {
    differences := [];
    hide ExactIn, ExactFor;
    NothingToCompare(before, after);
    ghost var none: map<string, string> := map[];
    var rest := before.Keys;
    while rest != {}
      invariant rest <= before.Keys && ExactFor(differences, before, after, before.Keys - rest)
      decreases rest
    {
      var l :| l in rest;
      var own;
      if l !in after {
        own := RemovedEntries(l, before[l]);
      } else {
        own := ChangedEntries(l, before[l], after[l]);
      }
      assert before[l].Keys + none.Keys == before[l].Keys;
      JoinLabel(differences, before, after, before.Keys - rest, l, own);
      assert before.Keys - rest + {l} == before.Keys - (rest - {l});
      rest := rest - {l};
      differences := differences + own;
    }
    var left := after.Keys;
    assert before.Keys - rest == before.Keys + (after.Keys - left);
    while left != {}
      invariant left <= after.Keys && ExactFor(differences, before, after, before.Keys + (after.Keys - left))
      decreases left
    {
      var l :| l in left;
      ghost var done := before.Keys + (after.Keys - left);
      left := left - {l};
      if l !in before {
        var own := AddedEntries(l, after[l]);
        assert none.Keys + after[l].Keys == after[l].Keys;
        JoinLabel(differences, before, after, done, l, own);
        differences := differences + own;
      }
      assert done + {l} == before.Keys + (after.Keys - left);
      assert l in before ==> done + {l} == done;
    }
    assert before.Keys + (after.Keys - left) == before.Keys + after.Keys;
  }

  lemma NothingToCompare(before: Hashes, after: Hashes)
    ensures ExactFor([], before, after, before.Keys - before.Keys)
  {
  }

  // ---------- The differences are a patch ----------

  type Flat = map<(string, string), string>

  ghost predicate Flattens(flat: Flat, hashes: Hashes) {
    forall l, c ::
      && ((l, c) in flat <==> c in Configurations(hashes, l))
      && ((l, c) in flat ==> flat[(l, c)] == Configurations(hashes, l)[c])
  }

  function KeyOf(d: Difference): (string, string) {
    (d.l, d.configuration)
  }

  /** Applies one difference, which must fit what it is applied to. */
  function Apply(d: Difference, flat: Flat): Option<Flat> {
    var key := KeyOf(d);
    match d
    case Added(_, _, after) => if key in flat then None else Some(flat[key := after])
    case Removed(_, _, before) => if key in flat && flat[key] == before then Some(flat - {key}) else None
    case Changed(_, _, before, after) => if key in flat && flat[key] == before then Some(flat[key := after]) else None
  }

  function ApplyAll(differences: seq<Difference>, flat: Flat): Option<Flat> {
    if differences == [] then Some(flat)
    else
      match Apply(differences[0], flat)
      case None => None
      case Some(next) => ApplyAll(differences[1..], next)
  }

  ghost predicate SameAt(flat: Flat, other: Flat, key: (string, string)) {
    && (key in flat <==> key in other)
    && (key in flat ==> flat[key] == other[key])
  }

  ghost predicate HasKey(differences: seq<Difference>, key: (string, string)) {
    exists d :: d in differences && KeyOf(d) == key
  }

  /** The keys of the differences still to apply are as before, all others as after. */
  lemma {:induction false} ApplyRest(differences: seq<Difference>, before: Flat, after: Flat, flat: Flat)
    requires DistinctKeys(differences)
    requires forall d | d in differences :: DiffersAt(d, before, after)
    requires forall key :: if HasKey(differences, key) then SameAt(flat, before, key) else SameAt(flat, after, key)
    ensures ApplyAll(differences, flat) == Some(after)
  {
    if differences == [] {
      forall key
        ensures key in flat <==> key in after
        ensures key in flat ==> flat[key] == after[key]
      {
        assert SameAt(flat, after, key);
      }
      assert flat.Keys == after.Keys;
      assert flat == after;
    } else {
      var d, rest := differences[0], differences[1..];
      assert d in differences && HasKey(differences, KeyOf(d));
      assert SameAt(flat, before, KeyOf(d));
      var next := Apply(d, flat).value;
      forall key
        ensures if HasKey(rest, key) then SameAt(next, before, key) else SameAt(next, after, key)
      {
        FirstKeyIsApart(differences, key);
        assert HasKey(differences, key) <==> HasKey(rest, key) || key == KeyOf(d);
      }
      ApplyRest(rest, before, after, next);
    }
  }

  lemma FirstKeyIsApart(differences: seq<Difference>, key: (string, string))
    requires differences != [] && DistinctKeys(differences)
    ensures DistinctKeys(differences[1..])
    ensures HasKey(differences, key) <==> HasKey(differences[1..], key) || key == KeyOf(differences[0])
    ensures !HasKey(differences[1..], KeyOf(differences[0]))
  {
    var rest := differences[1..];
    assert differences == [differences[0]] + rest;
    assert forall i | 0 <= i < |rest| :: rest[i] == differences[i + 1];
  }

  /** `d` is what distinguishes the two maps at its key. */
  ghost predicate DiffersAt(d: Difference, before: Flat, after: Flat) {
    var key := KeyOf(d);
    match d
    case Added(_, _, a) => key !in before && key in after && after[key] == a
    case Removed(_, _, b) => key in before && before[key] == b && key !in after
    case Changed(_, _, b, a) => key in before && before[key] == b && key in after && after[key] == a && a != b
  }

  /**
   The differences are an exact patch: applied to the flattened before hashes, in
   the order in which they are listed, each of them fits and the result is the
   flattened after hashes.
   */
  lemma DifferencesPatch(differences: seq<Difference>, before: Hashes, after: Hashes, flat: Flat, goal: Flat)
    requires IsDifference(differences, before, after) && Flattens(flat, before) && Flattens(goal, after)
    ensures ApplyAll(differences, flat) == Some(goal)
  {
    forall d | d in differences
      ensures DiffersAt(d, flat, goal)
    {
      assert (d.l, d.configuration) == KeyOf(d);
    }
    forall key
      ensures HasKey(differences, key) || SameAt(flat, goal, key)
    {
      var (l, c) := key;
      var expected := Expected(l, c, Configurations(before, l), Configurations(after, l));
      if expected.Some? {
        assert l in before.Keys + after.Keys;
        assert expected.value in differences && KeyOf(expected.value) == key;
      } else {
        assert (l, c) == key;
      }
    }
    ApplyRest(differences, flat, goal, flat);
  }

  // ---------- The summary ----------

  function Count(differences: seq<Difference>, kind: Difference -> bool): nat {
    if differences == [] then 0
    else Count(differences[..|differences| - 1], kind) + if kind(differences[|differences| - 1]) then 1 else 0
  }

  /** The labels of the differences, each once and in order. */
  method AffectedTargets(differences: seq<Difference>) returns (affected: seq<string>)
    ensures StrictlyIncreasing(affected, StringLess)
    ensures forall l :: l in affected <==> exists d :: d in differences && d.l == l
  {
    var labels := {};
    for i := 0 to |differences|
      invariant forall l :: l in labels <==> exists d :: d in differences[..i] && d.l == l
    {
      assert differences[..i + 1] == differences[..i] + [differences[i]];
      labels := labels + {differences[i].l};
    }
    assert differences[..|differences|] == differences;
    StringOrder();
    hide StringLess, IsStrictOrder;
    affected := SortedElements(labels, StringLess);
  }

  method Summarize(differences: seq<Difference>, after: Hashes) returns (result: Comparison)
    ensures result.differences == differences && result.afterTargets == after.Keys
    ensures result.added == Count(differences, (d: Difference) => d.Added?)
    ensures result.removed == Count(differences, (d: Difference) => d.Removed?)
    ensures result.changed == Count(differences, (d: Difference) => d.Changed?)
    ensures result.added + result.removed + result.changed == |differences|
    ensures StrictlyIncreasing(result.affected, StringLess)
    ensures forall l :: l in result.affected <==> exists d :: d in differences && d.l == l
  {
    hide StringLess, StrictlyIncreasing;
    var affected := AffectedTargets(differences);
    var added, removed, changed := 0, 0, 0;
    for i := 0 to |differences|
      invariant added == Count(differences[..i], (d: Difference) => d.Added?)
      invariant removed == Count(differences[..i], (d: Difference) => d.Removed?)
      invariant changed == Count(differences[..i], (d: Difference) => d.Changed?)
      invariant added + removed + changed == i
    {
      assert differences[..i + 1][..i] == differences[..i];
      match differences[i] {
        case Added(_, _, _) => added := added + 1;
        case Removed(_, _, _) => removed := removed + 1;
        case Changed(_, _, _, _) => changed := changed + 1;
      }
    }
    assert differences[..|differences|] == differences;
    result := Comparison(differences, added, removed, changed, affected, after.Keys);
  }

  /** One label per line, leaving out labels that are gone unless asked for. */
  method PrintedLabels(result: Comparison, includeRemoved: bool) returns (lines: seq<string>)
    requires StrictlyIncreasing(result.affected, StringLess)
    ensures StrictlyIncreasing(lines, StringLess)
    ensures forall l :: l in lines <==> l in result.affected && (l in result.afterTargets || includeRemoved)
  {
    lines := [];
    for i := 0 to |result.affected|
      invariant StrictlyIncreasing(lines, StringLess)
      invariant forall l :: l in lines <==> l in result.affected[..i] && (l in result.afterTargets || includeRemoved)
    {
      var l := result.affected[i];
      assert result.affected[..i + 1] == result.affected[..i] + [l];
      assert forall m | m in result.affected[..i] :: StringLess(m, l);
      if l in result.afterTargets || includeRemoved {
        lines := lines + [l];
      }
    }
    assert result.affected[..|result.affected|] == result.affected;
  }

  // ---------- The walker ----------

  /** Some configuration of the label after is new or has another hash. */
  ghost predicate IsNewOrChanged(before: map<string, string>, after: map<string, string>) {
    exists c :: c in after && (c !in before || before[c] != after[c])
  }

  datatype Explanation = Explanation(category: string, key: string, before: string, after: string)

  /** One call of the walker's callback. */
  datatype Report = Report(configuration: string, explanations: seq<Explanation>)

  /** What a walk is asked for, and what it learns from the loaded metadata of both revisions. */
  datatype Walk = Walk(
    includeDifferences: bool, queryFailedBefore: bool,
    compareConfigurations: (string, string) -> string, walkDiffs: string -> seq<Explanation>)

  /** A configuration that is new or hashes differently, if none of the smaller ones is new. */
  ghost predicate IsReported(before: map<string, string>, after: map<string, string>, c: string) {
    && c in after && (c !in before || before[c] != after[c])
    && forall d | d in after && StringLess(d, c) :: d in before
  }

  ghost predicate Explains(walk: Walk, before: map<string, string>, after: map<string, string>, report: Report) {
    if !walk.includeDifferences then report.explanations == []
    else if before == map[] then
      report.explanations
      == [Explanation(if walk.queryFailedBefore then "ErrorInQueryBefore" else "NewLabel", "", "", "")]
    else if report.configuration in before then report.explanations == walk.walkDiffs(report.configuration)
    else if |before| == 1 && |after| == 1 then
      exists b :: b in before && report.explanations
                                 == [Explanation("ChangedConfiguration", walk.compareConfigurations(b, report.configuration),
                                                 b, report.configuration)]
    else report.explanations == [Explanation("NewConfiguration", "", "", "")]
  }

  ghost predicate ReportsConfiguration(reports: seq<Report>, c: string) {
    exists r :: r in reports && r.configuration == c
  }

  /** Why a label or a configuration without a counterpart is reported. */
  method ExplainNew(walk: Walk, before: map<string, string>, after: map<string, string>, c: string) returns (report: Report)
    requires c in after && c !in before
    ensures report.configuration == c && Explains(walk, before, after, report)
  {
    if !walk.includeDifferences {
      return Report(c, []);
    }
    if before == map[] {
      var category := if walk.queryFailedBefore then "ErrorInQueryBefore" else "NewLabel";
      return Report(c, [Explanation(category, "", "", "")]);
    }
    if |before| == 1 && |after| == 1 {
      assert before.Keys != {};
      var b :| b in before;
      return Report(c, [Explanation("ChangedConfiguration", walk.compareConfigurations(b, c), b, c)]);
    }
    return Report(c, [Explanation("NewConfiguration", "", "", "")]);
  }

  lemma ChangedIsExplained(walk: Walk, before: map<string, string>, after: map<string, string>, report: Report)
    requires report.configuration in before
    requires report.explanations == if walk.includeDifferences then walk.walkDiffs(report.configuration) else []
    ensures Explains(walk, before, after, report)
  {
  }

  lemma PrefixIsSmaller(order: seq<string>, i: nat)
    requires IsStrictOrder(StringLess) && StrictlyIncreasing(order, StringLess) && i < |order|
    ensures forall d | d in order :: d in order[..i] <==> StringLess(d, order[i])
    ensures order[i] !in order[..i]
  {
    hide StringLess;
    forall j | 0 <= j < |order|
      ensures order[j] in order[..i] <==> StringLess(order[j], order[i])
    {
      if j < i {
        assert order[..i][j] == order[j];
      } else {
        assert j == i || StringLess(order[i], order[j]);
      }
    }
  }

  lemma ReportedNext(reported: seq<Report>, report: Report, c: string)
    ensures ReportsConfiguration(reported + [report], c) <==> ReportsConfiguration(reported, c) || c == report.configuration
  {
    var all := reported + [report];
    assert all[|reported|] == report;
    assert forall r | r in reported :: r in all;
  }

  /** The configurations walked so far are those of `order` up to some point, all of them known before. */
  ghost predicate IsWalked(before: map<string, string>, after: map<string, string>, walked: seq<string>, reports: seq<Report>) {
    && (forall c | c in walked :: c in before && c in after)
    && (forall c :: ReportsConfiguration(reports, c) <==> c in walked && before[c] != after[c])
  }

  lemma NothingWalked(before: map<string, string>, after: map<string, string>)
    ensures IsWalked(before, after, [], [])
  {
  }

  lemma ChangedIsWalked(before: map<string, string>, after: map<string, string>, walked: seq<string>, reports: seq<Report>,
                        report: Report)
    requires IsWalked(before, after, walked, reports)
    requires report.configuration in before && report.configuration in after
    requires before[report.configuration] != after[report.configuration]
    ensures IsWalked(before, after, walked + [report.configuration], reports + [report])
  {
    hide ReportsConfiguration;
    forall c
      ensures ReportsConfiguration(reports + [report], c) <==> ReportsConfiguration(reports, c) || c == report.configuration
    {
      ReportedNext(reports, report, c);
    }
  }

  lemma UnchangedIsWalked(before: map<string, string>, after: map<string, string>, walked: seq<string>, reports: seq<Report>,
                          c: string)
    requires IsWalked(before, after, walked, reports) && c in before && c in after && before[c] == after[c]
    ensures IsWalked(before, after, walked + [c], reports)
  {
    hide ReportsConfiguration;
  }

  /** Nothing is reported beyond the first new configuration. */
  lemma WalkStops(before: map<string, string>, after: map<string, string>, order: seq<string>, i: nat, reports: seq<Report>,
                  report: Report)
    requires IsStrictOrder(StringLess) && StrictlyIncreasing(order, StringLess) && i < |order|
    requires forall c :: c in order <==> c in after
    requires IsWalked(before, after, order[..i], reports) && order[i] !in before && report.configuration == order[i]
    ensures forall c :: ReportsConfiguration(reports + [report], c) <==> IsReported(before, after, c)
    ensures IsNewOrChanged(before, after)
  {
    hide StringLess, ReportsConfiguration;
    PrefixIsSmaller(order, i);
    assert order[i] in after;
    forall c
      ensures ReportsConfiguration(reports + [report], c) <==> IsReported(before, after, c)
    {
      ReportedNext(reports, report, c);
      assert c in after && c != order[i] && c !in order[..i] ==> StringLess(order[i], c);
      assert c in order[..i] ==> StringLess(c, order[i]);
    }
  }

  lemma WalkEnds(before: map<string, string>, after: map<string, string>, order: seq<string>, reports: seq<Report>)
    requires forall c :: c in order <==> c in after
    requires IsWalked(before, after, order, reports)
    ensures forall c :: ReportsConfiguration(reports, c) <==> IsReported(before, after, c)
    ensures reports != [] <==> IsNewOrChanged(before, after)
  {
    hide StringLess;
    if reports != [] {
      assert ReportsConfiguration(reports, reports[0].configuration);
    }
    if c :| c in after && (c !in before || before[c] != after[c]) {
      assert ReportsConfiguration(reports, c);
    }
  }

  /**
   Walks the configurations that a label has after, in order, and stops at the first
   new one. Every configuration before that is reported if its hash changed.
   */
  method DiffSingleLabel(walk: Walk, before: map<string, string>, after: map<string, string>) returns (reports: seq<Report>)
    ensures forall c :: ReportsConfiguration(reports, c) <==> IsReported(before, after, c)
    ensures forall i, j | 0 <= i < j < |reports| :: StringLess(reports[i].configuration, reports[j].configuration)
    ensures forall r | r in reports :: Explains(walk, before, after, r)
    ensures reports != [] <==> IsNewOrChanged(before, after)
  {
    StringOrder();
    var order := SortedElements(after.Keys, StringLess);
    hide StringLess, Explains, IsStrictOrder, IsReported, ReportsConfiguration, IsNewOrChanged, IsWalked;
    reports := [];
    NothingWalked(before, after);
    for i := 0 to |order|
      invariant IsWalked(before, after, order[..i], reports)
      invariant forall r | r in reports :: r.configuration in order[..i] && Explains(walk, before, after, r)
      invariant forall j, k | 0 <= j < k < |reports| :: StringLess(reports[j].configuration, reports[k].configuration)
    {
      var c := order[i];
      PrefixIsSmaller(order, i);
      assert order[..i + 1] == order[..i] + [c];
      var report;
      if c !in before {
        report := ExplainNew(walk, before, after, c);
        WalkStops(before, after, order, i, reports, report);
        reports := reports + [report];
        return;
      }
      if before[c] != after[c] {
        report := Report(c, if walk.includeDifferences then walk.walkDiffs(c) else []);
        ChangedIsExplained(walk, before, after, report);
        ChangedIsWalked(before, after, order[..i], reports, report);
        reports := reports + [report];
      } else {
        UnchangedIsWalked(before, after, order[..i], reports, c);
      }
    }
    assert order[..|order|] == order;
    WalkEnds(before, after, order, reports);
  }

  /**
   Walker and differ agree: of the labels that exist after, the differ lists those
   the walker reports and, beyond them, those that lost a configuration.
   */
  lemma WalkerAndDifferAgree(differences: seq<Difference>, before: Hashes, after: Hashes, l: string)
    requires IsDifference(differences, before, after) && l in after
    ensures (exists d :: d in differences && d.l == l)
            <==> IsNewOrChanged(Configurations(before, l), after[l])
                 || exists c :: c in Configurations(before, l) && c !in after[l]
  {
    var b, a := Configurations(before, l), Configurations(after, l);
    if d :| d in differences && d.l == l {
      var c := d.configuration;
      assert Expected(l, c, b, a) == Some(d);
      assert (c in a && (c !in b || b[c] != a[c])) || (c in b && c !in a);
    }
    forall c | (c in a && (c !in b || b[c] != a[c])) || (c in b && c !in a)
      ensures exists d :: d in differences && d.l == l
    {
      assert Expected(l, c, b, a).Some?;
      assert l in before.Keys + after.Keys;
    }
  }
}
