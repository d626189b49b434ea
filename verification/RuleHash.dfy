/**
 What a rule writes to its hasher (pkg/hash_cache.go: hashRule, ruleHasher,
 prehashRuleAttributes, hashRuleOwnAttributes, canonicalizeRuleInputs,
 sortedAttributesForHashing; pkg/target_determinator.go:1012-1094).

 A SHA-256 computation in progress is the string written so far, fields one after
 the other without separators. A saved state restores exactly that string.
 */
module RuleHash {
  import opened Wrappers
  import opened Workspace
  import opened Hashing
  import opened Ordering

  type Configuration = string

  datatype RuleInput = RuleInput(l: Label, configurations: seq<Configuration>)

  datatype Attribute = Attribute(name: string, value: string)

  datatype BuildRule = BuildRule(ruleClass: string, environment: string, attributes: seq<Attribute>)

  /**
   Library code: printed labels, deterministic marshalling of an attribute and of
   its serialized form, in-place normalization, and the bytes of a hash.
   */
  datatype Formats = Formats(
    text: Label -> string, marshal: Attribute -> string, serialize: Attribute -> string,
    normalize: Attribute -> Attribute, hashBytes: Hash -> string)

  ghost predicate Faithful(formats: Formats) {
    && (forall a, b :: formats.text(a) == formats.text(b) ==> a == b)
    && (forall a, b :: formats.marshal(a) == formats.marshal(b) ==> a == b)
  }

  // ---------- Canonical rule inputs ----------

  function LabelLess(formats: Formats): (Label, Label) -> bool {
    (a, b) => StringLess(formats.text(a), formats.text(b))
  }

  lemma LabelOrder(formats: Formats)
    requires Faithful(formats)
    ensures IsStrictOrder(LabelLess(formats))
  {
    StringOrder();
    var text := formats.text;
    assert forall a, b, c :: StringLess(text(a), text(b)) && StringLess(text(b), text(c)) ==> StringLess(text(a), text(c));
  }

  ghost predicate HasLabel(inputs: seq<RuleInput>, l: Label) {
    exists i :: 0 <= i < |inputs| && inputs[i].l == l
  }

  ghost predicate HasPair(inputs: seq<RuleInput>, l: Label, c: Configuration) {
    exists i :: 0 <= i < |inputs| && inputs[i].l == l && c in inputs[i].configurations
  }

  /** Strictly sorted by label, and by configuration under each label. */
  ghost predicate IsCanonical(formats: Formats, inputs: seq<RuleInput>) {
    && StrictlyIncreasing(LabelsOf(inputs), LabelLess(formats))
    && forall i | 0 <= i < |inputs| :: StrictlyIncreasing(inputs[i].configurations, StringLess)
  }

  function LabelsOf(inputs: seq<RuleInput>): seq<Label> {
    seq(|inputs|, i requires 0 <= i < |inputs| => inputs[i].l)
  }

  type Collected = map<Label, set<Configuration>>

  ghost predicate Collects(collected: Collected, inputs: seq<RuleInput>) {
    && (forall l :: l in collected <==> HasLabel(inputs, l))
    && (forall l, c | l in collected :: c in collected[l] <==> HasPair(inputs, l, c))
  }

  method CollectConfigurations(inputs: seq<RuleInput>) returns (collected: Collected)
    ensures Collects(collected, inputs)
  {
    collected := map[];
    for i := 0 to |inputs|
      invariant Collects(collected, inputs[..i])
    {
      ghost var before := collected;
      var input := inputs[i];
      if input.l !in collected {
        collected := collected[input.l := {}];
      }
      collected := collected[input.l := collected[input.l] + set c | c in input.configurations];
      CollectsNext(before, inputs[..i], input, collected);
      assert inputs[..i + 1] == inputs[..i] + [input];
    }
    assert inputs[..|inputs|] == inputs;
  }

  /** Merges the configurations of equal labels, then sorts labels and configurations. */
  method CanonicalizeRuleInputs(formats: Formats, inputs: seq<RuleInput>) returns (canonical: seq<RuleInput>)
    requires Faithful(formats)
    ensures IsCanonical(formats, canonical)
    ensures forall l :: HasLabel(canonical, l) <==> HasLabel(inputs, l)
    ensures forall l, c :: HasPair(canonical, l, c) <==> HasPair(inputs, l, c)
  {
    var collected := CollectConfigurations(inputs);
    LabelOrder(formats);
    StringOrder();
    var labels := SortedElements(collected.Keys, LabelLess(formats));
    hide HasLabel, HasPair, IsStrictOrder, StringLess, StrictlyIncreasing, LabelLess, Faithful;
    canonical := [];
    for i := 0 to |labels|
      invariant |canonical| == i
      invariant forall j | 0 <= j < i :: canonical[j].l == labels[j]
      invariant forall j | 0 <= j < i :: StrictlyIncreasing(canonical[j].configurations, StringLess)
      invariant forall j, c | 0 <= j < i :: c in canonical[j].configurations <==> c in collected[labels[j]]
    {
      var configurations := SortedElements(collected[labels[i]], StringLess);
      canonical := canonical + [RuleInput(labels[i], configurations)];
    }
    assert LabelsOf(canonical) == labels;
    CanonicalHoldsCollected(collected, labels, canonical);
    CollectedIsEnough(collected, inputs, canonical);
  }

  lemma CollectsNext(before: Collected, done: seq<RuleInput>, input: RuleInput, after: Collected)
    requires Collects(before, done)
    requires after == before[input.l := (if input.l in before then before[input.l] else {}) + set c | c in input.configurations]
    ensures Collects(after, done + [input])
  {
    var all := done + [input];
    forall l
      ensures HasLabel(all, l) <==> HasLabel(done, l) || l == input.l
      ensures forall c :: HasPair(all, l, c) <==> HasPair(done, l, c) || (l == input.l && c in input.configurations)
    {
      assert all[|done|] == input;
      assert forall i | 0 <= i < |done| :: all[i] == done[i];
    }
    forall c, l | HasPair(done, l, c)
      ensures HasLabel(done, l)
    {
    }
  }

  lemma CanonicalHoldsCollected(collected: Collected, labels: seq<Label>, canonical: seq<RuleInput>)
    requires forall l :: l in labels <==> l in collected
    requires |canonical| == |labels| && forall j | 0 <= j < |labels| :: canonical[j].l == labels[j]
    requires forall j, c | 0 <= j < |labels| :: c in canonical[j].configurations <==> c in collected[labels[j]]
    ensures Collects(collected, canonical)
  {
    forall l
      ensures l in collected <==> HasLabel(canonical, l)
    {
      if l in collected {
        var j :| 0 <= j < |labels| && labels[j] == l;
        assert canonical[j].l == l;
      }
    }
    forall l, c | l in collected
      ensures c in collected[l] <==> HasPair(canonical, l, c)
    {
      var j :| 0 <= j < |labels| && labels[j] == l;
      assert canonical[j].l == l;
    }
  }

  lemma CollectedIsEnough(collected: Collected, inputs: seq<RuleInput>, canonical: seq<RuleInput>)
    requires Collects(collected, inputs) && Collects(collected, canonical)
    ensures forall l :: HasLabel(canonical, l) <==> HasLabel(inputs, l)
    ensures forall l, c :: HasPair(canonical, l, c) <==> HasPair(inputs, l, c)
  {
    PairsHaveLabels(inputs);
    PairsHaveLabels(canonical);
  }

  lemma PairsHaveLabels(inputs: seq<RuleInput>)
    ensures forall l, c | HasPair(inputs, l, c) :: HasLabel(inputs, l)
  {
  }

  // ---------- Writing the inputs ----------

  type Pair = (Label, Configuration)

  /** By label, then by configuration. */
  function PairLess(formats: Formats): (Pair, Pair) -> bool {
    (p: Pair, q: Pair) => StringLess(formats.text(p.0), formats.text(q.0)) || (p.0 == q.0 && StringLess(p.1, q.1))
  }

  lemma PairOrder(formats: Formats)
    requires Faithful(formats)
    ensures IsStrictOrder(PairLess(formats))
  {
    StringOrder();
    var less := PairLess(formats);
    forall p, q, r | less(p, q) && less(q, r)
      ensures less(p, r)
    {
      assert StringLess(formats.text(p.0), formats.text(q.0)) && StringLess(formats.text(q.0), formats.text(r.0))
             ==> StringLess(formats.text(p.0), formats.text(r.0));
      assert StringLess(p.1, q.1) && StringLess(q.1, r.1) ==> StringLess(p.1, r.1);
    }
    forall p: Pair, q: Pair
      ensures p == q || less(p, q) || less(q, p)
    {
      assert formats.text(p.0) == formats.text(q.0) || StringLess(formats.text(p.0), formats.text(q.0))
             || StringLess(formats.text(q.0), formats.text(p.0));
      assert p.1 == q.1 || StringLess(p.1, q.1) || StringLess(q.1, p.1);
    }
  }

  function PairsOf(input: RuleInput): seq<Pair> {
    seq(|input.configurations|, i requires 0 <= i < |input.configurations| => (input.l, input.configurations[i]))
  }

  function Pairs(inputs: seq<RuleInput>): seq<Pair> {
    if inputs == [] then [] else PairsOf(inputs[0]) + Pairs(inputs[1..])
  }

  function PairBytes(formats: Formats, pairs: seq<Pair>, hash: Pair -> Hash): string {
    if pairs == [] then ""
    else
      var n := |pairs| - 1;
      PairBytes(formats, pairs[..n], hash) + formats.text(pairs[n].0) + pairs[n].1 + formats.hashBytes(hash(pairs[n]))
  }

  /** `bytes` lists each pair of the inputs once, in order, after what the rule itself wrote. */
  ghost predicate IsRuleBytes(formats: Formats, own: string, inputs: seq<RuleInput>, hash: Pair -> Hash, bytes: string) {
    exists pairs :: Enumerates(formats, pairs, inputs) && bytes == own + PairBytes(formats, pairs, hash)
  }

  ghost predicate Enumerates(formats: Formats, pairs: seq<Pair>, inputs: seq<RuleInput>) {
    && StrictlyIncreasing(pairs, PairLess(formats))
    && forall p: Pair :: p in pairs <==> HasPair(inputs, p.0, p.1)
  }

  lemma {:induction false} PairsHold(inputs: seq<RuleInput>, p: Pair)
    ensures p in Pairs(inputs) <==> HasPair(inputs, p.0, p.1)
  {
    if inputs != [] {
      var rest := inputs[1..];
      PairsHold(rest, p);
      assert p in PairsOf(inputs[0]) <==> p.0 == inputs[0].l && p.1 in inputs[0].configurations by {
        if p.0 == inputs[0].l && p.1 in inputs[0].configurations {
          var i :| 0 <= i < |inputs[0].configurations| && inputs[0].configurations[i] == p.1;
          assert PairsOf(inputs[0])[i] == p;
        }
      }
      assert forall i | 0 <= i < |rest| :: rest[i] == inputs[i + 1];
      assert forall i | 0 < i < |inputs| :: inputs[i] == rest[i - 1];
    }
  }

  lemma RestIsCanonical(formats: Formats, inputs: seq<RuleInput>)
    requires IsCanonical(formats, inputs) && inputs != []
    ensures IsCanonical(formats, inputs[1..])
    ensures forall l | HasLabel(inputs[1..], l) :: StringLess(formats.text(inputs[0].l), formats.text(l))
  {
    var labels, rest := LabelsOf(inputs), inputs[1..];
    assert forall i | 0 <= i < |rest| :: rest[i] == inputs[i + 1] && LabelsOf(rest)[i] == labels[i + 1];
    assert labels[0] == inputs[0].l;
    forall l | HasLabel(rest, l)
      ensures StringLess(formats.text(inputs[0].l), formats.text(l))
    {
      var i :| 0 <= i < |rest| && rest[i].l == l;
      assert LabelLess(formats)(labels[0], labels[i + 1]);
    }
  }

  /** Canonical inputs list their pairs in order. */
  lemma {:induction false} CanonicalPairsIncrease(formats: Formats, inputs: seq<RuleInput>)
    requires IsCanonical(formats, inputs)
    ensures Enumerates(formats, Pairs(inputs), inputs)
  {
    if inputs != [] {
      RestIsCanonical(formats, inputs);
      CanonicalPairsIncrease(formats, inputs[1..]);
      var first, rest := PairsOf(inputs[0]), Pairs(inputs[1..]);
      PairsHaveLabels(inputs[1..]);
      forall p, q | p in first && q in rest
        ensures PairLess(formats)(p, q)
      {
      }
      ConcatenationIncreases(first, rest, PairLess(formats));
    }
    forall p: Pair
      ensures p in Pairs(inputs) <==> HasPair(inputs, p.0, p.1)
    {
      PairsHold(inputs, p);
    }
  }

  lemma ConcatenationIncreases<T>(s: seq<T>, t: seq<T>, less: (T, T) -> bool)
    requires StrictlyIncreasing(s, less) && StrictlyIncreasing(t, less)
    requires forall x, y | x in s && y in t :: less(x, y)
    ensures StrictlyIncreasing(s + t, less)
  {
  }

  /**
   Rule hashing is canonical: what is written depends only on the set of label and
   configuration pairs, so permuting or repeating inputs, or listing one without
   configurations, changes nothing.
   */
  lemma RuleBytesAreCanonical(formats: Formats, own: string, inputs: seq<RuleInput>, other: seq<RuleInput>,
                              hash: Pair -> Hash,
                              bytes: string, otherBytes: string)
    requires Faithful(formats)
    requires IsRuleBytes(formats, own, inputs, hash, bytes) && IsRuleBytes(formats, own, other, hash, otherBytes)
    requires forall l, c :: HasPair(inputs, l, c) <==> HasPair(other, l, c)
    ensures bytes == otherBytes
  {
    var pairs :| Enumerates(formats, pairs, inputs) && bytes == own + PairBytes(formats, pairs, hash);
    var others :| Enumerates(formats, others, other) && otherBytes == own + PairBytes(formats, others, hash);
    PairOrder(formats);
    IncreasingIsUnique(pairs, others, PairLess(formats));
  }

  // ---------- hashRule ----------

  /** Orders inputs by label, then by the first configuration if there is one. */
  function InputLess(formats: Formats): (RuleInput, RuleInput) -> bool {
    (a: RuleInput, b: RuleInput) =>
      if a.l != b.l then StringLess(formats.text(a.l), formats.text(b.l))
      else StringLess(FirstConfiguration(a), FirstConfiguration(b))
  }

  function FirstConfiguration(input: RuleInput): Configuration {
    if input.configurations == [] then "" else input.configurations[0]
  }

  lemma CanonicalInputsIncrease(formats: Formats, canonical: seq<RuleInput>)
    requires IsCanonical(formats, canonical)
    ensures StrictlyIncreasing(canonical, InputLess(formats))
  {
    forall i, j | 0 <= i < j < |canonical|
      ensures InputLess(formats)(canonical[i], canonical[j])
    {
      assert LabelLess(formats)(LabelsOf(canonical)[i], LabelsOf(canonical)[j]);
      StringLessIrreflexive(formats.text(canonical[i].l));
    }
  }

  lemma {:induction false} SortOfIncreasing<T>(s: seq<T>, less: (T, T) -> bool)
    requires StrictlyIncreasing(s, less)
    ensures Sort(s, less) == s
  {
    if s != [] {
      SortOfIncreasing(s[1..], less);
      assert s == [s[0]] + s[1..];
    }
  }

  /** hashRule sorts its inputs once more; whatever that sort does with ties, canonical inputs stay as they are. */
  lemma SecondSortIsIdentity(formats: Formats, canonical: seq<RuleInput>, sorted: seq<RuleInput>)
    requires Faithful(formats) && IsCanonical(formats, canonical)
    requires InOrder(sorted, InputLess(formats)) && multiset(sorted) == multiset(canonical)
    ensures sorted == canonical
  {
    CanonicalInputsIncrease(formats, canonical);
    SortingIncreasingIsIdentity(canonical, sorted, InputLess(formats));
  }

  lemma {:induction false} PairBytesConcatenate(formats: Formats, s: seq<Pair>, t: seq<Pair>, hash: Pair -> Hash)
    ensures PairBytes(formats, s + t, hash) == PairBytes(formats, s, hash) + PairBytes(formats, t, hash)
  {
    if t == [] {
      assert s + t == s;
    } else {
      var n := |t| - 1;
      assert (s + t)[..|s| + n] == s + t[..n];
      PairBytesConcatenate(formats, s, t[..n], hash);
    }
  }

  lemma {:induction false} PairBytesAgree(formats: Formats, pairs: seq<Pair>, hash: Pair -> Hash, other: Pair -> Hash)
    requires forall p | p in pairs :: hash(p) == other(p)
    ensures PairBytes(formats, pairs, hash) == PairBytes(formats, pairs, other)
  {
    if pairs != [] {
      PairBytesAgree(formats, pairs[..|pairs| - 1], hash, other);
    }
  }

  /** What is written before and after the entry of one pair. */
  lemma PairBytesAround(formats: Formats, pairs: seq<Pair>, i: nat, hash: Pair -> Hash)
    requires i < |pairs|
    ensures PairBytes(formats, pairs, hash)
            == PairBytes(formats, pairs[..i], hash) + formats.text(pairs[i].0) + pairs[i].1
               + formats.hashBytes(hash(pairs[i])) + PairBytes(formats, pairs[i + 1..], hash)
  {
    var before, after := pairs[..i + 1], pairs[i + 1..];
    assert pairs == before + after && before[..i] == pairs[..i];
    PairBytesConcatenate(formats, before, after, hash);
  }

  /**
   The hash of every input reaches the hash of the rule: if it changes for one pair
   and for no other, then what is written changes.
   */
  lemma InputHashMatters(formats: Formats, own: string, inputs: seq<RuleInput>, hash: Pair -> Hash, other: Pair -> Hash,
                         p: Pair, bytes: string, otherBytes: string)
    requires Faithful(formats)
    requires IsRuleBytes(formats, own, inputs, hash, bytes) && IsRuleBytes(formats, own, inputs, other, otherBytes)
    requires HasPair(inputs, p.0, p.1) && formats.hashBytes(hash(p)) != formats.hashBytes(other(p))
    requires forall q: Pair | HasPair(inputs, q.0, q.1) && q != p :: hash(q) == other(q)
    ensures bytes != otherBytes
  {
    hide HasPair, PairBytes, Faithful, Enumerates;
    var pairs :| Enumerates(formats, pairs, inputs) && bytes == own + PairBytes(formats, pairs, hash);
    var others :| Enumerates(formats, others, inputs) && otherBytes == own + PairBytes(formats, others, other);
    EnumerationIsUnique(formats, pairs, others, inputs);
    PairsDiffer(formats, pairs, inputs, hash, other, p);
    MiddleIsDetermined(own, PairBytes(formats, pairs, hash), PairBytes(formats, pairs, other), "");
    assert bytes == own + PairBytes(formats, pairs, hash) + "" && otherBytes == own + PairBytes(formats, pairs, other) + "";
  }

  lemma PairsDiffer(formats: Formats, pairs: seq<Pair>, inputs: seq<RuleInput>, hash: Pair -> Hash, other: Pair -> Hash, p: Pair)
    requires Faithful(formats) && Enumerates(formats, pairs, inputs)
    requires HasPair(inputs, p.0, p.1) && formats.hashBytes(hash(p)) != formats.hashBytes(other(p))
    requires forall q: Pair | HasPair(inputs, q.0, q.1) && q != p :: hash(q) == other(q)
    ensures PairBytes(formats, pairs, hash) != PairBytes(formats, pairs, other)
  {
    hide HasPair, PairBytes, Faithful, PairLess;
    PairOrder(formats);
    assert p in pairs;
    var i :| 0 <= i < |pairs| && pairs[i] == p;
    IncreasingIsDistinct(pairs, PairLess(formats), i);
    BytesDiffer(formats, pairs, i, hash, other);
  }

  lemma BytesDiffer(formats: Formats, pairs: seq<Pair>, i: nat, hash: Pair -> Hash, other: Pair -> Hash)
    requires i < |pairs| && formats.hashBytes(hash(pairs[i])) != formats.hashBytes(other(pairs[i]))
    requires forall q | q in pairs[..i] || q in pairs[i + 1..] :: hash(q) == other(q)
    ensures PairBytes(formats, pairs, hash) != PairBytes(formats, pairs, other)
  {
    hide PairBytes;
    PairBytesAround(formats, pairs, i, hash);
    PairBytesAround(formats, pairs, i, other);
    PairBytesAgree(formats, pairs[..i], hash, other);
    PairBytesAgree(formats, pairs[i + 1..], hash, other);
    MiddleIsDetermined(PairBytes(formats, pairs[..i], hash) + formats.text(pairs[i].0) + pairs[i].1,
                       formats.hashBytes(hash(pairs[i])), formats.hashBytes(other(pairs[i])),
                       PairBytes(formats, pairs[i + 1..], hash));
  }

  lemma IncreasingIsDistinct<T(!new)>(s: seq<T>, less: (T, T) -> bool, i: nat)
    requires IsStrictOrder(less) && StrictlyIncreasing(s, less) && i < |s|
    ensures s[i] !in s[..i] && s[i] !in s[i + 1..]
  {
    forall j | 0 <= j < |s| && j != i
      ensures s[j] != s[i]
    {
      assert less(s[i], s[j]) || less(s[j], s[i]);
    }
  }

  lemma MiddleIsDetermined(before: string, middle: string, other: string, after: string)
    ensures before + middle + after == before + other + after ==> middle == other
  {
    if before + middle + after == before + other + after {
      var n := |before| + |middle|;
      assert |middle| == |other|;
      assert (before + middle + after)[|before|..n] == middle;
      assert (before + other + after)[|before|..n] == other;
    }
  }

  lemma SomePairIsListed(formats: Formats, pairs: seq<Pair>, inputs: seq<RuleInput>)
    requires Enumerates(formats, pairs, inputs)
    ensures pairs != [] ==> exists l, c :: HasPair(inputs, l, c)
  {
    if pairs != [] {
      var p := pairs[0];
      assert HasPair(inputs, p.0, p.1);
    }
  }

  /** A rule without configured inputs writes nothing after its own bytes. */
  lemma NoInputsWriteNothing(formats: Formats, own: string, inputs: seq<RuleInput>, hash: Pair -> Hash, bytes: string)
    requires IsRuleBytes(formats, own, inputs, hash, bytes)
    requires forall l, c :: !HasPair(inputs, l, c)
    ensures bytes == own
  {
    hide HasPair, Enumerates;
    var pairs :| Enumerates(formats, pairs, inputs) && bytes == own + PairBytes(formats, pairs, hash);
    SomePairIsListed(formats, pairs, inputs);
  }

  lemma LastPairIsListedLast(formats: Formats, pairs: seq<Pair>, inputs: seq<RuleInput>, more: seq<RuleInput>, last: Pair)
    requires Enumerates(formats, pairs, inputs)
    requires forall p: Pair :: HasPair(more, p.0, p.1) <==> HasPair(inputs, p.0, p.1) || p == last
    requires forall p: Pair | HasPair(inputs, p.0, p.1) :: PairLess(formats)(p, last)
    ensures Enumerates(formats, pairs + [last], more)
  {
    hide HasPair, PairLess;
    ConcatenationIncreases(pairs, [last], PairLess(formats));
  }

  lemma EnumerationIsUnique(formats: Formats, pairs: seq<Pair>, others: seq<Pair>, inputs: seq<RuleInput>)
    requires Faithful(formats) && Enumerates(formats, pairs, inputs) && Enumerates(formats, others, inputs)
    ensures pairs == others
  {
    hide Faithful, HasPair, PairLess;
    PairOrder(formats);
    IncreasingIsUnique(pairs, others, PairLess(formats));
  }

  /** A pair that comes after all others adds its label, its configuration and its hash. */
  lemma LastPairIsAppended(formats: Formats, own: string, inputs: seq<RuleInput>, more: seq<RuleInput>, hash: Pair -> Hash,
                           l: Label, c: Configuration, bytes: string, moreBytes: string)
    requires Faithful(formats)
    requires IsRuleBytes(formats, own, inputs, hash, bytes) && IsRuleBytes(formats, own, more, hash, moreBytes)
    requires forall m, d :: HasPair(more, m, d) <==> HasPair(inputs, m, d) || (m == l && d == c)
    requires forall m, d | HasPair(inputs, m, d) ::
               StringLess(formats.text(m), formats.text(l)) || (m == l && StringLess(d, c))
    ensures moreBytes == bytes + formats.text(l) + c + formats.hashBytes(hash((l, c)))
  {
    hide HasPair, Faithful, StringLess, IsStrictOrder, Enumerates;
    var pairs :| Enumerates(formats, pairs, inputs) && bytes == own + PairBytes(formats, pairs, hash);
    var others :| Enumerates(formats, others, more) && moreBytes == own + PairBytes(formats, others, hash);
    PairOrder(formats);
    var longer := pairs + [(l, c)];
    LastPairIsListedLast(formats, pairs, inputs, more, (l, c));
    EnumerationIsUnique(formats, longer, others, more);
    assert longer[..|pairs|] == pairs;
  }

  /** A single configured input is written after the rule's own bytes. */
  lemma SingleInputBytes(formats: Formats, own: string, l: Label, c: Configuration, hash: Pair -> Hash, bytes: string)
    requires Faithful(formats) && IsRuleBytes(formats, own, [RuleInput(l, [c])], hash, bytes)
    ensures bytes == own + formats.text(l) + c + formats.hashBytes(hash((l, c)))
  {
    assert StrictlyIncreasing<Pair>([], PairLess(formats));
    assert Enumerates(formats, [], []) && own == own + PairBytes(formats, [], hash);
    var more := [RuleInput(l, [c])];
    forall m, d
      ensures HasPair(more, m, d) <==> m == l && d == c
    {
      assert more[0].l == l && more[0].configurations[0] == c;
    }
    LastPairIsAppended(formats, own, [], more, hash, l, c, own, bytes);
  }

  /** Appends label, configuration and hash for every configuration of one input. */
  method WriteInput(formats: Formats, state: string, input: RuleInput, hash: Pair -> Hash) returns (bytes: string)
    ensures bytes == state + PairBytes(formats, PairsOf(input), hash)
  {
    bytes := state;
    ghost var pairs := PairsOf(input);
    for i := 0 to |input.configurations|
      invariant bytes == state + PairBytes(formats, pairs[..i], hash)
    {
      var pair := (input.l, input.configurations[i]);
      assert pairs[i] == pair && pairs[..i + 1][..i] == pairs[..i];
      bytes := bytes + formats.text(pair.0) + pair.1 + formats.hashBytes(hash(pair));
    }
    assert pairs[..|pairs|] == pairs;
  }

  lemma OneInputWritten(formats: Formats, state: string, inputs: seq<RuleInput>, i: nat, hash: Pair -> Hash)
    requires i < |inputs|
    ensures state + PairBytes(formats, Pairs(inputs[i..]), hash)
            == state + PairBytes(formats, PairsOf(inputs[i]), hash) + PairBytes(formats, Pairs(inputs[i + 1..]), hash)
  {
    hide PairBytes, PairsOf;
    assert inputs[i..][1..] == inputs[i + 1..];
    PairBytesConcatenate(formats, PairsOf(inputs[i]), Pairs(inputs[i + 1..]), hash);
  }

  lemma NoInputsLeft(formats: Formats, inputs: seq<RuleInput>, hash: Pair -> Hash)
    ensures PairBytes(formats, Pairs(inputs[|inputs|..]), hash) == "" && inputs[0..] == inputs
  {
  }

  method WriteInputs(formats: Formats, state: string, inputs: seq<RuleInput>, hash: Pair -> Hash) returns (bytes: string)
    ensures bytes == state + PairBytes(formats, Pairs(inputs), hash)
  {
    hide *;
    bytes := state;
    NoInputsLeft(formats, inputs, hash);
    for i := 0 to |inputs|
      invariant bytes + PairBytes(formats, Pairs(inputs[i..]), hash) == state + PairBytes(formats, Pairs(inputs), hash)
    {
      OneInputWritten(formats, bytes, inputs, i, hash);
      bytes := WriteInput(formats, bytes, inputs[i], hash);
    }
  }

  /** The bytes of a rule, given the state of its hasher and the inputs that could be hashed. */
  method HashRule(formats: Formats, state: string, inputs: seq<RuleInput>, hash: Pair -> Hash) returns (bytes: string)
    requires Faithful(formats)
    ensures IsRuleBytes(formats, state, inputs, hash, bytes)
  {
    var canonical := CanonicalizeRuleInputs(formats, inputs);
    CanonicalInputsIncrease(formats, canonical);
    SortOfIncreasing(canonical, InputLess(formats));
    bytes := WriteInputs(formats, state, Sort(canonical, InputLess(formats)), hash);
    CanonicalPairsIncrease(formats, canonical);
    hide HasPair, IsCanonical, PairBytes;
    assert Enumerates(formats, Pairs(canonical), inputs);
  }

  // ---------- Attributes ----------

  /** By name, and by the marshalled attribute under equal names. */
  function AttributeLess(formats: Formats): (Attribute, Attribute) -> bool {
    (a: Attribute, b: Attribute) =>
      if a.name == b.name then StringLess(formats.marshal(a), formats.marshal(b)) else StringLess(a.name, b.name)
  }

  lemma AttributeOrder(formats: Formats)
    requires Faithful(formats)
    ensures IsStrictOrder(AttributeLess(formats))
  {
    StringOrder();
    hide StringLess;
    var less, marshal := AttributeLess(formats), formats.marshal;
    forall a: Attribute, b: Attribute
      ensures a == b || less(a, b) || less(b, a)
    {
      StringLessTotal(marshal(a), marshal(b));
      StringLessTotal(a.name, b.name);
    }
    forall a: Attribute
      ensures !less(a, a)
    {
      StringLessIrreflexive(marshal(a));
    }
    forall a, b, c | less(a, b) && less(b, c)
      ensures less(a, c)
    {
      AttributeLessTransitive(formats, a, b, c);
    }
  }

  lemma AttributeLessTransitive(formats: Formats, a: Attribute, b: Attribute, c: Attribute)
    requires AttributeLess(formats)(a, b) && AttributeLess(formats)(b, c)
    ensures AttributeLess(formats)(a, c)
  {
    hide StringLess;
    if a.name == b.name == c.name {
      StringLessTransitive(formats.marshal(a), formats.marshal(b), formats.marshal(c));
    } else if a.name != b.name && b.name != c.name {
      StringLessTransitive(a.name, b.name, c.name);
      StringLessIrreflexive(a.name);
    }
  }

  function SerializedBytes(formats: Formats, attributes: seq<Attribute>): string {
    if attributes == [] then ""
    else
      var n := |attributes| - 1;
      SerializedBytes(formats, attributes[..n]) + formats.serialize(attributes[n])
  }

  /** What a rule writes before its inputs. The configuration checksum is empty for query metadata. */
  function OwnBytes(formats: Formats, release: string, digests: string -> string, rule: BuildRule): string {
    release + rule.ruleClass + rule.environment + digests(rule.ruleClass)
    + SerializedBytes(formats, Sort(rule.attributes, AttributeLess(formats)))
  }

  /** Permuting the attributes of a rule changes nothing. */
  lemma AttributesHashCanonically(formats: Formats, release: string, digests: string -> string, rule: BuildRule,
                                  other: BuildRule)
    requires Faithful(formats)
    requires rule.ruleClass == other.ruleClass && rule.environment == other.environment
    requires multiset(rule.attributes) == multiset(other.attributes)
    ensures OwnBytes(formats, release, digests, rule) == OwnBytes(formats, release, digests, other)
  {
    var less := AttributeLess(formats);
    AttributeOrder(formats);
    SortIsSorted(rule.attributes, less);
    SortIsSorted(other.attributes, less);
    OrderIsUnique(Sort(rule.attributes, less), Sort(other.attributes, less), less);
  }

  /** By name, and under one name by the marshalled form. */
  ghost predicate IsInHashingOrder(formats: Formats, sorted: seq<Attribute>) {
    forall i, j | 0 <= i < j < |sorted| ::
      if sorted[i].name == sorted[j].name then !StringLess(formats.marshal(sorted[j]), formats.marshal(sorted[i]))
      else !StringLess(sorted[j].name, sorted[i].name)
  }

  ghost predicate IsSortedForHashing(formats: Formats, sorted: seq<Attribute>, attributes: seq<Attribute>) {
    multiset(sorted) == multiset(attributes) && IsInHashingOrder(formats, sorted)
  }

  /** A state in which a rule's own bytes have been written, and nothing else. */
  ghost predicate IsOwnState(formats: Formats, release: string, digests: string -> string, rule: BuildRule, state: string) {
    exists sorted ::
      && IsSortedForHashing(formats, sorted, rule.attributes)
      && state == release + rule.ruleClass + rule.environment + digests(rule.ruleClass) + SerializedBytes(formats, sorted)
  }

  lemma OwnBytesAreOwnState(formats: Formats, release: string, digests: string -> string, rule: BuildRule)
    requires Faithful(formats)
    ensures IsOwnState(formats, release, digests, rule, OwnBytes(formats, release, digests, rule))
  {
    AttributeOrder(formats);
    SortIsSorted(rule.attributes, AttributeLess(formats));
    hide Sort, Faithful, StringLess;
    var sorted := Sort(rule.attributes, AttributeLess(formats));
    forall i, j | 0 <= i < j < |sorted|
      ensures !AttributeLess(formats)(sorted[j], sorted[i])
    {
    }
    assert IsSortedForHashing(formats, sorted, rule.attributes);
  }

  lemma SortedForHashingIsUnique(formats: Formats, sorted: seq<Attribute>, other: seq<Attribute>, attributes: seq<Attribute>)
    requires Faithful(formats)
    requires IsSortedForHashing(formats, sorted, attributes) && IsSortedForHashing(formats, other, attributes)
    ensures sorted == other
  {
    AttributeOrder(formats);
    hide Faithful, StringLess;
    forall i, j | 0 <= i < j < |sorted|
      ensures !AttributeLess(formats)(sorted[j], sorted[i])
    {
    }
    forall i, j | 0 <= i < j < |other|
      ensures !AttributeLess(formats)(other[j], other[i])
    {
    }
    OrderIsUnique(sorted, other, AttributeLess(formats));
  }

  /** Rules with the same attributes have equal states exactly if what is written before the attributes is equal. */
  lemma OwnStatesAgreeIff(formats: Formats, release: string, otherRelease: string, digests: string -> string,
                          otherDigests: string -> string, rule: BuildRule, other: BuildRule, state: string, otherState: string)
    requires Faithful(formats) && multiset(rule.attributes) == multiset(other.attributes)
    requires IsOwnState(formats, release, digests, rule, state)
    requires IsOwnState(formats, otherRelease, otherDigests, other, otherState)
    ensures state == otherState
            <==> release + rule.ruleClass + rule.environment + digests(rule.ruleClass)
                 == otherRelease + other.ruleClass + other.environment + otherDigests(other.ruleClass)
  {
    var head := release + rule.ruleClass + rule.environment + digests(rule.ruleClass);
    var otherHead := otherRelease + other.ruleClass + other.environment + otherDigests(other.ruleClass);
    var sorted :| IsSortedForHashing(formats, sorted, rule.attributes) && state == head + SerializedBytes(formats, sorted);
    var others :| IsSortedForHashing(formats, others, other.attributes)
                  && otherState == otherHead + SerializedBytes(formats, others);
    assert IsSortedForHashing(formats, others, rule.attributes);
    SortedForHashingIsUnique(formats, sorted, others, rule.attributes);
    MiddleIsDetermined("", head, otherHead, SerializedBytes(formats, sorted));
    assert "" + head == head && "" + otherHead == otherHead;
  }

  /** Changing only the Bazel release, only the class's fingerprints or only the environment changes the state. */
  lemma EachPartMatters(formats: Formats, release: string, otherRelease: string, digests: string -> string,
                        otherDigests: string -> string, rule: BuildRule, other: BuildRule, state: string, otherState: string)
    requires Faithful(formats) && rule.ruleClass == other.ruleClass
    requires multiset(rule.attributes) == multiset(other.attributes)
    requires IsOwnState(formats, release, digests, rule, state)
    requires IsOwnState(formats, otherRelease, otherDigests, other, otherState)
    requires var d, e := digests(rule.ruleClass), otherDigests(rule.ruleClass);
             || (release != otherRelease && rule.environment == other.environment && d == e)
             || (release == otherRelease && rule.environment != other.environment && d == e)
             || (release == otherRelease && rule.environment == other.environment && d != e)
    ensures state != otherState
  {
    hide IsOwnState, Faithful;
    OwnStatesAgreeIff(formats, release, otherRelease, digests, otherDigests, rule, other, state, otherState);
    var c, d, e := rule.ruleClass, digests(rule.ruleClass), otherDigests(rule.ruleClass);
    if release != otherRelease {
      MiddleIsDetermined("", release, otherRelease, c + rule.environment + d);
      assert "" + release + (c + rule.environment + d) == release + c + rule.environment + d;
      assert "" + otherRelease + (c + rule.environment + d) == otherRelease + c + rule.environment + d;
    } else if rule.environment != other.environment {
      MiddleIsDetermined(release + c, rule.environment, other.environment, d);
    } else {
      MiddleIsDetermined(release + c + rule.environment, d, e, "");
      assert release + c + rule.environment + d + "" == release + c + rule.environment + d;
      assert release + c + rule.environment + e + "" == release + c + rule.environment + e;
    }
  }

  /** A rule without attributes writes the release, its class, its environment and the fingerprints of its class. */
  lemma NoAttributesState(formats: Formats, release: string, digests: string -> string, rule: BuildRule, state: string)
    requires IsOwnState(formats, release, digests, rule, state) && rule.attributes == []
    ensures state == release + rule.ruleClass + rule.environment + digests(rule.ruleClass)
  {
    var sorted :| IsSortedForHashing(formats, sorted, rule.attributes)
                  && state == release + rule.ruleClass + rule.environment + digests(rule.ruleClass) + SerializedBytes(formats, sorted);
    HeadsOccur(sorted, rule.attributes);
  }

  /** An attribute whose name comes after all others adds its serialized form. */
  lemma LastAttributeIsAppended(formats: Formats, release: string, digests: string -> string, rule: BuildRule, a: Attribute,
                                state: string, moreState: string)
    requires Faithful(formats) && IsOwnState(formats, release, digests, rule, state)
    requires IsOwnState(formats, release, digests, rule.(attributes := rule.attributes + [a]), moreState)
    requires forall b | b in rule.attributes ::
               if b.name == a.name then !StringLess(formats.marshal(a), formats.marshal(b)) else StringLess(b.name, a.name)
    ensures moreState == state + formats.serialize(a)
  {
    hide StringLess, Faithful, IsSortedForHashing, SerializedBytes;
    var head := release + rule.ruleClass + rule.environment + digests(rule.ruleClass);
    var sorted :| IsSortedForHashing(formats, sorted, rule.attributes) && state == head + SerializedBytes(formats, sorted);
    var others :| IsSortedForHashing(formats, others, rule.attributes + [a]) && moreState == head + SerializedBytes(formats, others);
    var longer := sorted + [a];
    SerializedNext(formats, sorted, a);
    LastAttributeIsSortedLast(formats, sorted, rule.attributes, a);
    SortedForHashingIsUnique(formats, longer, others, rule.attributes + [a]);
  }

  lemma SerializedNext(formats: Formats, s: seq<Attribute>, a: Attribute)
    ensures SerializedBytes(formats, s + [a]) == SerializedBytes(formats, s) + formats.serialize(a)
  {
    assert (s + [a])[..|s|] == s;
  }

  lemma LastAttributeIsSortedLast(formats: Formats, sorted: seq<Attribute>, attributes: seq<Attribute>, a: Attribute)
    requires IsSortedForHashing(formats, sorted, attributes)
    requires forall b | b in attributes ::
               if b.name == a.name then !StringLess(formats.marshal(a), formats.marshal(b)) else StringLess(b.name, a.name)
    ensures IsSortedForHashing(formats, sorted + [a], attributes + [a])
  {
    hide StringLess;
    forall b | b in sorted
      ensures if b.name == a.name then !StringLess(formats.marshal(a), formats.marshal(b)) else !StringLess(a.name, b.name)
    {
      assert b in multiset(sorted);
      assert b in multiset(attributes);
      if b.name != a.name {
        StringLessAsymmetric(b.name, a.name);
      }
    }
  }

  lemma StringLessAsymmetric(a: string, b: string)
    requires StringLess(a, b)
    ensures !StringLess(b, a)
  {
    if StringLess(b, a) {
      StringLessTransitive(a, b, a);
      StringLessIrreflexive(a);
      assert false;
    }
  }

  lemma {:induction false} SerializedBytesConcatenate(formats: Formats, s: seq<Attribute>, t: seq<Attribute>)
    ensures SerializedBytes(formats, s + t) == SerializedBytes(formats, s) + SerializedBytes(formats, t)
  {
    if t == [] {
      assert s + t == s;
    } else {
      var n := |t| - 1;
      assert (s + t)[..|s| + n] == s + t[..n];
      SerializedBytesConcatenate(formats, s, t[..n]);
    }
  }

  /**
   Changing one attribute changes the state exactly if its serialized form changes,
   when no other attribute has its name.
   */
  lemma ChangedAttributeMattersIff(formats: Formats, release: string, digests: string -> string, rule: BuildRule,
                                   others: seq<Attribute>, a: Attribute, b: Attribute, state: string, otherState: string)
    requires Faithful(formats) && a.name == b.name && forall o | o in others :: o.name != a.name
    requires IsOwnState(formats, release, digests, rule.(attributes := others + [a]), state)
    requires IsOwnState(formats, release, digests, rule.(attributes := others + [b]), otherState)
    ensures state == otherState <==> formats.serialize(a) == formats.serialize(b)
  {
    hide Faithful, StringLess;
    hide IsSortedForHashing, SerializedBytes;
    var head := release + rule.ruleClass + rule.environment + digests(rule.ruleClass);
    var s :| IsSortedForHashing(formats, s, others + [a]) && state == head + SerializedBytes(formats, s);
    var t :| IsSortedForHashing(formats, t, others + [b]) && otherState == head + SerializedBytes(formats, t);
    var before, after := SplitAtLast(formats, s, others, a);
    ReplacedIsSorted(formats, before, a, b, after, others);
    SortedForHashingIsUnique(formats, before + [b] + after, t, others + [b]);
    ReplacedBytes(formats, before, a, after);
    ReplacedBytes(formats, before, b, after);
    var x, y := SerializedBytes(formats, before), SerializedBytes(formats, after);
    assert state == (head + x) + formats.serialize(a) + y;
    assert otherState == (head + x) + formats.serialize(b) + y;
    MiddleIsDetermined(head + x, formats.serialize(a), formats.serialize(b), y);
  }

  lemma SplitAtLast(formats: Formats, sorted: seq<Attribute>, others: seq<Attribute>, a: Attribute)
    returns (before: seq<Attribute>, after: seq<Attribute>)
    requires IsSortedForHashing(formats, sorted, others + [a])
    ensures sorted == before + [a] + after
  {
    hide StringLess;
    assert a in multiset(sorted) by {
      assert a in multiset(others + [a]);
    }
    var i :| 0 <= i < |sorted| && sorted[i] == a;
    before, after := sorted[..i], sorted[i + 1..];
  }

  lemma ElementsAround(before: seq<Attribute>, x: Attribute, after: seq<Attribute>)
    ensures multiset(before + [x] + after) == multiset(before) + multiset(after) + multiset{x}
  {
  }

  lemma Cancel(m: multiset<Attribute>, n: multiset<Attribute>, x: Attribute)
    requires m + multiset{x} == n + multiset{x}
    ensures m == n
  {
    assert m == (m + multiset{x}) - multiset{x};
    assert n == (n + multiset{x}) - multiset{x};
  }

  lemma ReplacedElements(before: seq<Attribute>, a: Attribute, b: Attribute, after: seq<Attribute>, others: seq<Attribute>)
    requires multiset(before + [a] + after) == multiset(others + [a])
    ensures multiset(before) + multiset(after) == multiset(others)
    ensures multiset(before + [b] + after) == multiset(others + [b])
  {
    ElementsAround(before, a, after);
    ElementsAround(before, b, after);
    Cancel(multiset(before) + multiset(after), multiset(others), a);
  }

  lemma PartsAreOthers(before: seq<Attribute>, after: seq<Attribute>, others: seq<Attribute>)
    requires multiset(before) + multiset(after) == multiset(others)
    ensures forall o | o in before || o in after :: o in others
  {
    forall o | o in before || o in after
      ensures o in others
    {
      assert o in multiset(before) + multiset(after);
    }
  }

  lemma ReplacedIsSorted(formats: Formats, before: seq<Attribute>, a: Attribute, b: Attribute, after: seq<Attribute>,
                         others: seq<Attribute>)
    requires a.name == b.name && forall o | o in others :: o.name != a.name
    requires IsSortedForHashing(formats, before + [a] + after, others + [a])
    ensures IsSortedForHashing(formats, before + [b] + after, others + [b])
  {
    hide IsInHashingOrder;
    ReplacedElements(before, a, b, after, others);
    PartsAreOthers(before, after, others);
    NamesDecide(formats, before, a, b, after);
  }

  /** The attribute in the middle is ordered by its name alone, since no other attribute shares it. */
  lemma NamesDecide(formats: Formats, before: seq<Attribute>, a: Attribute, b: Attribute, after: seq<Attribute>)
    requires a.name == b.name && forall o | o in before || o in after :: o.name != a.name
    requires IsInHashingOrder(formats, before + [a] + after)
    ensures IsInHashingOrder(formats, before + [b] + after)
  {
    hide StringLess;
    var s, t, n := before + [a] + after, before + [b] + after, |before|;
    assert s[n] == a && t[n] == b;
    forall k | 0 <= k < |t| && k != n
      ensures t[k] == s[k] && t[k].name != a.name
    {
      assert if k < n then t[k] == s[k] == before[k] else t[k] == s[k] == after[k - n - 1];
    }
    forall i, j | 0 <= i < j < |t|
      ensures if t[i].name == t[j].name then !StringLess(formats.marshal(t[j]), formats.marshal(t[i]))
              else !StringLess(t[j].name, t[i].name)
    {
      assert s[i].name == t[i].name && s[j].name == t[j].name;
    }
  }

  lemma ReplacedBytes(formats: Formats, before: seq<Attribute>, a: Attribute, after: seq<Attribute>)
    ensures SerializedBytes(formats, before + [a] + after)
            == SerializedBytes(formats, before) + formats.serialize(a) + SerializedBytes(formats, after)
  {
    SerializedBytesConcatenate(formats, before + [a], after);
    assert (before + [a])[..|before|] == before;
  }

  /** Every attribute is written: states differ if one of them, wherever and however often it occurs, is serialized differently. */
  lemma SerializedFormMatters(formats: Formats, other: Formats, release: string, digests: string -> string, rule: BuildRule,
                              a: Attribute, state: string, otherState: string)
    requires Faithful(formats) && other == formats.(serialize := other.serialize)
    requires IsOwnState(formats, release, digests, rule, state) && IsOwnState(other, release, digests, rule, otherState)
    requires a in rule.attributes && formats.serialize(a) != other.serialize(a)
    requires forall b | b != a :: formats.serialize(b) == other.serialize(b)
    ensures state != otherState
  {
    hide Faithful, IsSortedForHashing, SerializedBytes;
    var head := release + rule.ruleClass + rule.environment + digests(rule.ruleClass);
    var sorted :| IsSortedForHashing(formats, sorted, rule.attributes) && state == head + SerializedBytes(formats, sorted);
    var others :| IsSortedForHashing(other, others, rule.attributes) && otherState == head + SerializedBytes(other, others);
    MarshallingDecidesOrder(formats, other, others, rule.attributes);
    SortedForHashingIsUnique(formats, sorted, others, rule.attributes);
    SerializedBytesDiffer(formats, other, sorted, a);
    MiddleIsDetermined(head, SerializedBytes(formats, sorted), SerializedBytes(other, sorted), "");
    assert state == head + SerializedBytes(formats, sorted) + "" && otherState == head + SerializedBytes(other, sorted) + "";
  }

  lemma MarshallingDecidesOrder(formats: Formats, other: Formats, sorted: seq<Attribute>, attributes: seq<Attribute>)
    requires other == formats.(serialize := other.serialize) && IsSortedForHashing(other, sorted, attributes)
    ensures IsSortedForHashing(formats, sorted, attributes) && forall b | b in attributes :: b in sorted
  {
    hide StringLess;
    forall b | b in attributes
      ensures b in sorted
    {
      assert b in multiset(attributes) && multiset(attributes) == multiset(sorted);
    }
  }

  /** Where the serialized forms of an attribute differ in length, the totals differ in length in the same direction. */
  lemma {:induction false} SerializedBytesDiffer(formats: Formats, other: Formats, s: seq<Attribute>, a: Attribute)
    requires formats.serialize(a) != other.serialize(a)
    requires forall b | b != a :: formats.serialize(b) == other.serialize(b)
    ensures a in s ==> SerializedBytes(formats, s) != SerializedBytes(other, s)
    ensures var here, there := |formats.serialize(a)|, |other.serialize(a)|;
            var total, otherTotal := |SerializedBytes(formats, s)|, |SerializedBytes(other, s)|;
            && (here == there ==> total == otherTotal)
            && (here < there ==> if a in s then total < otherTotal else total == otherTotal)
            && (here > there ==> if a in s then total > otherTotal else total == otherTotal)
  {
    if s != [] {
      var n := |s| - 1;
      SerializedBytesDiffer(formats, other, s[..n], a);
      var last, otherLast := formats.serialize(s[n]), other.serialize(s[n]);
      var front, otherFront := SerializedBytes(formats, s[..n]), SerializedBytes(other, s[..n]);
      assert front == (front + last)[..|front|] && last == (front + last)[|front|..];
      assert otherFront == (otherFront + otherLast)[..|otherFront|] && otherLast == (otherFront + otherLast)[|otherFront|..];
      assert a in s <==> a in s[..n] || a == s[n];
    }
  }

  method HashRuleOwnAttributes(formats: Formats, release: string, digests: string -> string, rule: BuildRule)
    returns (state: string)
    ensures state == OwnBytes(formats, release, digests, rule)
    ensures Faithful(formats) ==> IsOwnState(formats, release, digests, rule, state)
  {
    state := release + rule.ruleClass + rule.environment + digests(rule.ruleClass);
    ghost var head := state;
    var sorted := Sort(rule.attributes, AttributeLess(formats));
    for i := 0 to |sorted|
      invariant state == head + SerializedBytes(formats, sorted[..i])
    {
      assert sorted[..i + 1][..i] == sorted[..i];
      state := state + formats.serialize(sorted[i]);
    }
    assert sorted[..|sorted|] == sorted;
    assert Faithful(formats) ==> IsOwnState(formats, release, digests, rule, state) by {
      if Faithful(formats) {
        OwnBytesAreOwnState(formats, release, digests, rule);
      }
    }
  }

  // ---------- Hash-only loading ----------

  datatype StateError = MissingAttributeState

  /** Every attribute is normalized; nothing else changes. */
  function Normalized(formats: Formats, rule: BuildRule): (normalized: BuildRule)
    ensures normalized.ruleClass == rule.ruleClass && normalized.environment == rule.environment
    ensures |normalized.attributes| == |rule.attributes|
    ensures forall i | 0 <= i < |rule.attributes| :: normalized.attributes[i] == formats.normalize(rule.attributes[i])
  {
    rule.(attributes := seq(|rule.attributes|, i requires 0 <= i < |rule.attributes| => formats.normalize(rule.attributes[i])))
  }

  /** The rules of loaded query metadata and the hasher states saved for them. */
  class RuleMetadata {
    const formats: Formats
    const release: string
    const digests: string -> string
    const hasher: Hasher
    const attributesDiscarded: bool

    var rules: map<Label, BuildRule>
    var ruleAttributeHashStates: map<Label, string>

    /** What every later phase relies on, with `raw` the rules as Bazel reported them. */
    ghost predicate Describes(raw: map<Label, BuildRule>, consumed: set<Label>)
      reads this
    {
      && rules.Keys == raw.Keys && consumed <= raw.Keys
      && ruleAttributeHashStates.Keys == (set l | l in consumed && !IsOpaque(hasher, l))
      && (forall l | l in ruleAttributeHashStates ::
            ruleAttributeHashStates[l] == OwnBytes(formats, release, digests, Normalized(formats, raw[l])))
      && (forall l | l in raw && l !in consumed :: rules[l] == raw[l])
    }

    constructor (formats: Formats, release: string, digests: string -> string, hasher: Hasher, attributesDiscarded: bool,
                 raw: map<Label, BuildRule>)
      ensures this.formats == formats && this.release == release && this.digests == digests && this.hasher == hasher
      ensures this.attributesDiscarded == attributesDiscarded && rules == raw && ruleAttributeHashStates == map[]
    {
      this.formats, this.release, this.digests, this.hasher := formats, release, digests, hasher;
      this.attributesDiscarded := attributesDiscarded;
      rules, ruleAttributeHashStates := raw, map[];
    }

    /** Replaces the attributes of a rule by the hasher's state after writing them, or by nothing if it is opaque. */
    method PrehashRuleAttributes(l: Label)
      requires l in rules
      modifies this
      ensures rules == old(rules)[l := old(rules)[l].(attributes := [])]
      ensures ruleAttributeHashStates ==
                if IsOpaque(hasher, l) then old(ruleAttributeHashStates)
                else old(ruleAttributeHashStates)[l := OwnBytes(formats, release, digests, Normalized(formats, old(rules)[l]))]
    {
      if IsOpaque(hasher, l) {
        rules := rules[l := rules[l].(attributes := [])];
        return;
      }
      var rule := Normalized(formats, rules[l]);
      var state := HashRuleOwnAttributes(formats, release, digests, rule);
      ruleAttributeHashStates := ruleAttributeHashStates[l := state];
      rules := rules[l := rule.(attributes := [])];
    }

    /** Consumes every rule while it is read. */
    method LoadHashOnly()
      requires ruleAttributeHashStates == map[] && attributesDiscarded
      modifies this
      ensures Describes(old(rules), old(rules).Keys)
    {
      ghost var raw := rules;
      var rest := rules.Keys;
      while rest != {}
        invariant rest <= raw.Keys && Describes(raw, raw.Keys - rest)
        decreases rest
      {
        var l :| l in rest;
        rest := rest - {l};
        PrehashRuleAttributes(l);
      }
    }

    /** Keeps the attributes, normalized. */
    method LoadFull()
      requires ruleAttributeHashStates == map[] && !attributesDiscarded
      modifies this
      ensures ruleAttributeHashStates == map[]
      ensures rules == map l | l in old(rules) :: Normalized(formats, old(rules)[l])
    {
      ghost var raw := rules;
      var rest := rules.Keys;
      while rest != {}
        invariant rest <= raw.Keys == rules.Keys && ruleAttributeHashStates == map[]
        invariant forall l | l in raw :: rules[l] == if l in rest then raw[l] else Normalized(formats, raw[l])
        decreases rest
      {
        var l :| l in rest;
        rest := rest - {l};
        rules := rules[l := Normalized(formats, rules[l])];
      }
    }

    /** The hasher of a rule after its own attributes: the saved state, or a fresh computation while the attributes are kept. */
    method RuleHasher(l: Label) returns (state: Result<string, StateError>)
      requires l in rules
      ensures state == HasherState(l)
      ensures l in ruleAttributeHashStates ==> state == Ok(ruleAttributeHashStates[l])
      ensures l !in ruleAttributeHashStates ==>
                if attributesDiscarded then state == Err(MissingAttributeState)
                else state.Ok? && (Faithful(formats) ==> IsOwnState(formats, release, digests, rules[l], state.value))
    {
      if l in ruleAttributeHashStates {
        return Ok(ruleAttributeHashStates[l]);
      }
      if attributesDiscarded {
        return Err(MissingAttributeState);
      }
      var computed := HashRuleOwnAttributes(formats, release, digests, rules[l]);
      return Ok(computed);
    }

    function HasherState(l: Label): Result<string, StateError>
      requires l in rules
      reads this
    {
      if l in ruleAttributeHashStates then Ok(ruleAttributeHashStates[l])
      else if attributesDiscarded then Err(MissingAttributeState)
      else Ok(OwnBytes(formats, release, digests, rules[l]))
    }

    /** The bytes a rule target hashes: its identity if it is opaque, or its own bytes and then its inputs. */
    method TargetBytes(l: Label, inputs: seq<RuleInput>, hash: Pair -> Hash) returns (bytes: Result<string, StateError>)
      requires l in rules && Faithful(formats)
      ensures IsOpaque(hasher, l) ==> bytes == Ok("target-determinator:opaque-input:v1" + formats.text(l))
      ensures !IsOpaque(hasher, l) ==>
                if HasherState(l).Err? then bytes == Err(HasherState(l).error)
                else bytes.Ok? && IsRuleBytes(formats, HasherState(l).value, inputs, hash, bytes.value)
    {
      if IsOpaque(hasher, l) {
        return Ok("target-determinator:opaque-input:v1" + formats.text(l));
      }
      var state := RuleHasher(l);
      if state.Err? {
        return Err(state.error);
      }
      var result := HashRule(formats, state.value, inputs, hash);
      return Ok(result);
    }
  }

  /**
   Hash-only loading preserves hashes: for every rule, opaque or not, resuming the
   saved state and appending the inputs gives the bytes that full metadata gives,
   and the missing-state error does not occur.
   */
  method HashOnlyEqualsFull(formats: Formats, release: string, digests: string -> string, hasher: Hasher,
                            raw: map<Label, BuildRule>, l: Label, inputs: seq<RuleInput>, other: seq<RuleInput>, hash: Pair -> Hash)
    returns (hashOnly: Result<string, StateError>, full: Result<string, StateError>)
    requires Faithful(formats) && l in raw
    requires forall m, c :: HasPair(inputs, m, c) <==> HasPair(other, m, c)
    ensures hashOnly.Ok? && hashOnly == full
  {
    var compact := new RuleMetadata(formats, release, digests, hasher, true, raw);
    compact.LoadHashOnly();
    var complete := new RuleMetadata(formats, release, digests, hasher, false, raw);
    complete.LoadFull();
    assert compact.rules.Keys == raw.Keys;
    hashOnly := compact.TargetBytes(l, inputs, hash);
    full := complete.TargetBytes(l, other, hash);
    if !IsOpaque(hasher, l) {
      assert compact.HasherState(l) == complete.HasherState(l);
      RuleBytesAreCanonical(formats, complete.HasherState(l).value, inputs, other, hash, hashOnly.value, full.value);
    }
  }
}
