/**
 The text of a scoped query (pkg/scoped_query.go). What the rewritten pattern
 selects is the subject of module TargetPatterns.
 */
module ScopedQuery {
  import opened Wrappers

  function Marker(): (s: string)
    ensures |s| == 5
  {
    "//..."
  }

  /** A reference to the variable that the universe is bound to. */
  function Reference(): (s: string)
    ensures |s| > 0
  {
    "$" + VariableName()
  }

  function VariableName(): string {
    "target_determinator_scoped_universe"
  }

  predicate StartsWith(s: string, prefix: string) {
    |prefix| <= |s| && s[..|prefix|] == prefix
  }

  predicate OccursAt(s: string, word: string, k: nat) {
    k <= |s| && StartsWith(s[k..], word)
  }

  predicate IsLabelCharacter(c: char) {
    c in "@_-.+" || 'a' <= c <= 'z' || 'A' <= c <= 'Z' || '0' <= c <= '9'
  }

  /** A label character comes right before, as in @repo//..., and the wildcard is left alone. */
  predicate IsQualified(pattern: string, k: nat) {
    0 < k <= |pattern| && IsLabelCharacter(pattern[k - 1])
  }

  // ---------- Specification of the rewrite ----------

  /** The rewrite read one character at a time. */
  function RewriteFrom(pattern: string, i: nat): string
    requires i <= |pattern|
    decreases |pattern| - i
  {
    if i == |pattern| then ""
    else if OccursAt(pattern, Marker(), i) then
      (if IsQualified(pattern, i) then Marker() else Reference()) + RewriteFrom(pattern, i + |Marker()|)
    else [pattern[i]] + RewriteFrom(pattern, i + 1)
  }

  /** Something can be scoped: an occurrence of //... without a label character before it. */
  ghost predicate IsScopable(pattern: string) {
    exists k :: OccursAt(pattern, Marker(), k) && !IsQualified(pattern, k)
  }

  // ---------- The loop ----------

  /** strings.Index from a position: the first occurrence at or after it. */
  method IndexFrom(s: string, word: string, start: nat) returns (index: Option<nat>)
    requires start <= |s| && word != ""
    ensures index.None? ==> forall k | start <= k :: !OccursAt(s, word, k)
    ensures index.Some? ==> start <= index.value && OccursAt(s, word, index.value)
    ensures index.Some? ==> forall k | start <= k < index.value :: !OccursAt(s, word, k)
  {
    for k := start to |s|
      invariant forall j | start <= j < k :: !OccursAt(s, word, j)
    {
      if StartsWith(s[k..], word) {
        return Some(k);
      }
    }
    return None;
  }

  lemma CopiedOne(pattern: string, i: nat)
    requires i < |pattern| && !OccursAt(pattern, Marker(), i)
    ensures RewriteFrom(pattern, i) == [pattern[i]] + RewriteFrom(pattern, i + 1)
  {
    hide OccursAt, Marker;
  }

  lemma {:induction false} CopiedUpTo(pattern: string, i: nat, j: nat)
    requires i <= j <= |pattern| && forall k | i <= k < j :: !OccursAt(pattern, Marker(), k)
    ensures RewriteFrom(pattern, i) == pattern[i..j] + RewriteFrom(pattern, j)
    decreases j - i
  {
    hide *;
    if i < j {
      CopiedOne(pattern, i);
      CopiedUpTo(pattern, i + 1, j);
      assert pattern[i..j] == [pattern[i]] + pattern[i + 1..j];
    }
  }

  lemma MarkerCharacters(pattern: string, k: nat)
    requires OccursAt(pattern, Marker(), k)
    ensures k + 5 <= |pattern| && pattern[k] == pattern[k + 1] == '/'
    ensures pattern[k + 2] == pattern[k + 3] == pattern[k + 4] == '.'
  {
    var found := pattern[k..][..5];
    assert found[0] == found[1] == '/' && found[2] == found[3] == found[4] == '.';
  }

  /** Occurrences of //... do not overlap. */
  lemma MarkersAreApart(pattern: string, i: nat, k: nat)
    requires OccursAt(pattern, Marker(), i) && i < k < i + |Marker()|
    ensures !OccursAt(pattern, Marker(), k)
  {
    MarkerCharacters(pattern, i);
    forall j: nat | OccursAt(pattern, Marker(), j)
      ensures j + 5 <= |pattern| && pattern[j] == pattern[j + 1] == '/'
    {
      MarkerCharacters(pattern, j);
    }
    hide OccursAt, Marker;
  }

  /** Some occurrence before `end` can be scoped. */
  ghost predicate ScopableBefore(pattern: string, end: nat) {
    exists k :: 0 <= k < end && OccursAt(pattern, Marker(), k) && !IsQualified(pattern, k)
  }

  lemma ScopableUpTo(pattern: string, start: nat, idx: nat)
    requires start <= idx && OccursAt(pattern, Marker(), idx)
    requires forall k | start <= k < idx :: !OccursAt(pattern, Marker(), k)
    ensures ScopableBefore(pattern, idx + |Marker()|) <==> ScopableBefore(pattern, start) || !IsQualified(pattern, idx)
  {
    forall k | idx < k < idx + |Marker()|
      ensures !OccursAt(pattern, Marker(), k)
    {
      MarkersAreApart(pattern, idx, k);
    }
  }

  lemma OccurrenceFits(pattern: string, k: nat)
    requires OccursAt(pattern, Marker(), k)
    ensures k + |Marker()| <= |pattern|
  {
  }

  lemma NothingAfter(pattern: string, start: nat)
    requires start <= |pattern| && forall k | start <= k < |pattern| :: !OccursAt(pattern, Marker(), k)
    ensures IsScopable(pattern) <==> ScopableBefore(pattern, start)
    ensures ScopableBefore(pattern, |pattern|) <==> ScopableBefore(pattern, start)
  {
  }

  method RewritePattern(pattern: string) returns (result: string, replacements: nat)
    ensures result == RewriteFrom(pattern, 0)
    ensures replacements > 0 <==> IsScopable(pattern)
    ensures replacements > 0 <==> exists k: nat ::
              && OccursAt(pattern, "//...", k)
              && (k == 0 || (pattern[k - 1] !in "@_-.+" && !('a' <= pattern[k - 1] <= 'z')
                             && !('A' <= pattern[k - 1] <= 'Z') && !('0' <= pattern[k - 1] <= '9')))
  {
    hide *;
    ScopableMeans(pattern);
    result := "";
    replacements := 0;
    var start := 0;
    NothingBefore(pattern);
    while start < |pattern|
      invariant start <= |pattern|
      invariant IsRewritten(pattern, start, result)
      invariant replacements > 0 <==> ScopableBefore(pattern, start)
      decreases |pattern| - start
    {
      var index := IndexFrom(pattern, Marker(), start);
      if index.None? {
        RewriteEnds(pattern, start, result);
        NothingAfter(pattern, start);
        result := result + pattern[start..];
        return;
      }
      var idx := index.value;
      ScopableUpTo(pattern, start, idx);
      OccurrenceFits(pattern, idx);
      QualifiedMeans(pattern, idx);
      RewriteGoesOn(pattern, start, idx, result);
      result := result + pattern[start..idx];
      if 0 < idx && IsLabelCharacter(pattern[idx - 1]) {
        result := result + Marker();
      } else {
        result := result + Reference();
        replacements := replacements + 1;
      }
      start := idx + |Marker()|;
    }
    NothingAfter(pattern, |pattern|);
    RewriteEnds(pattern, |pattern|, result);
    assert pattern[|pattern|..] == "";
  }

  /** `result` is the rewrite of the pattern up to `start`. */
  ghost predicate IsRewritten(pattern: string, start: nat, result: string) {
    start <= |pattern| && RewriteFrom(pattern, 0) == result + RewriteFrom(pattern, start)
  }

  lemma NothingBefore(pattern: string)
    ensures !ScopableBefore(pattern, 0) && IsRewritten(pattern, 0, "")
  {
  }

  lemma QualifiedMeans(pattern: string, k: nat)
    requires k <= |pattern|
    ensures IsQualified(pattern, k) <==> 0 < k && IsLabelCharacter(pattern[k - 1])
  {
  }

  lemma RewriteGoesOn(pattern: string, start: nat, idx: nat, result: string)
    requires start <= idx && OccursAt(pattern, Marker(), idx) && idx + |Marker()| <= |pattern|
    requires forall k | start <= k < idx :: !OccursAt(pattern, Marker(), k)
    requires IsRewritten(pattern, start, result)
    ensures IsRewritten(pattern, idx + |Marker()|,
                        result + pattern[start..idx] + if IsQualified(pattern, idx) then Marker() else Reference())
  {
    hide Marker, Reference, OccursAt, IsQualified, RewriteFrom;
    RewriteMarker(pattern, start, idx);
    var copied, rest := pattern[start..idx], RewriteFrom(pattern, idx + |Marker()|);
    var word := if IsQualified(pattern, idx) then Marker() else Reference();
    assert result + (copied + word + rest) == result + copied + word + rest;
  }

  lemma RewriteEnds(pattern: string, start: nat, result: string)
    requires start <= |pattern| && forall k | start <= k < |pattern| :: !OccursAt(pattern, Marker(), k)
    requires IsRewritten(pattern, start, result)
    ensures result + pattern[start..] == RewriteFrom(pattern, 0)
  {
    hide Marker, Reference, OccursAt, IsQualified, RewriteFrom;
    CopiedUpTo(pattern, start, |pattern|);
    RewriteIsOver(pattern);
    assert pattern[start..|pattern|] == pattern[start..] && pattern[|pattern|..] == "";
    assert pattern[start..] + "" == pattern[start..];
  }

  lemma RewriteMarker(pattern: string, start: nat, idx: nat)
    requires start <= idx && OccursAt(pattern, Marker(), idx)
    requires forall k | start <= k < idx :: !OccursAt(pattern, Marker(), k)
    ensures idx + |Marker()| <= |pattern|
    ensures RewriteFrom(pattern, start)
            == pattern[start..idx] + (if IsQualified(pattern, idx) then Marker() else Reference())
               + RewriteFrom(pattern, idx + |Marker()|)
  {
    hide OccursAt, IsQualified, Marker, Reference;
    OccurrenceFits(pattern, idx);
    CopiedUpTo(pattern, start, idx);
  }

  /** Something can be scoped if some //... stands first or after a character that cannot end the name of a repository. */
  lemma ScopableMeans(pattern: string)
    ensures IsScopable(pattern) <==> exists k: nat ::
              && OccursAt(pattern, "//...", k)
              && (k == 0 || (pattern[k - 1] !in "@_-.+" && !('a' <= pattern[k - 1] <= 'z')
                             && !('A' <= pattern[k - 1] <= 'Z') && !('0' <= pattern[k - 1] <= '9')))
  {
    assert Marker() == "//...";
    hide StartsWith, Marker;
  }

  lemma BindingText()
    ensures "let " + VariableName() + " = " == "let target_determinator_scoped_universe = "
  {
  }

  /** Binds the universe once and refers to it wherever the pattern says //... */
  method ScopeTargetsPattern(pattern: string, universe: string) returns (scoped: Result<string, string>)
    ensures scoped.Ok? <==> exists k: nat ::
              && OccursAt(pattern, "//...", k)
              && (k == 0 || (pattern[k - 1] !in "@_-.+" && !('a' <= pattern[k - 1] <= 'z')
                             && !('A' <= pattern[k - 1] <= 'Z') && !('0' <= pattern[k - 1] <= '9')))
    ensures scoped.Ok? ==>
              scoped.value == "let target_determinator_scoped_universe = " + universe + " in (" + RewriteFrom(pattern, 0) + ")"
  {
    hide *;
    var body, replacements := RewritePattern(pattern);
    if replacements == 0 {
      return Err("does not contain //... and cannot be scoped");
    }
    BindingText();
    return Ok("let " + VariableName() + " = " + universe + " in (" + body + ")");
  }

  // ---------- Single wildcards ----------

  ghost predicate HasNoWildcard(s: string) {
    forall k: nat :: !OccursAt(s, Marker(), k)
  }

  lemma OccurrencesAreApart(pattern: string, i: nat, k: nat)
    requires OccursAt(pattern, Marker(), i) && OccursAt(pattern, Marker(), k) && i < k
    ensures i + |Marker()| <= k
  {
    MarkerCharacters(pattern, i);
    MarkerCharacters(pattern, k);
  }

  /** Where the occurrences in a pattern with a wildcard in it come from. */
  lemma OccurrenceIsInside(before: string, after: string, k: nat)
    ensures var pattern, n := before + Marker() + after, |before|;
            && OccursAt(pattern, Marker(), n)
            && (OccursAt(pattern, Marker(), k) ==>
                  || k == n
                  || (k < n && OccursAt(before, Marker(), k))
                  || (k >= n + 5 && OccursAt(after, Marker(), k - n - 5)))
  {
    hide Marker;
    var pattern, n := before + Marker() + after, |before|;
    assert pattern[n..] == Marker() + after;
    assert OccursAt(pattern, Marker(), n);
    if OccursAt(pattern, Marker(), k) && k < n {
      OccurrencesAreApart(pattern, k, n);
      assert before[k..][..5] == pattern[k..][..5];
    } else if OccursAt(pattern, Marker(), k) && k > n {
      OccurrencesAreApart(pattern, n, k);
      assert after[k - n - 5..] == pattern[k..];
    }
  }

  /** The characters that may end the name of a repository. */
  lemma QualifyingCharacters(c: char)
    ensures IsLabelCharacter(c) <==> c in "@_-.+" || 'a' <= c <= 'z' || 'A' <= c <= 'Z' || '0' <= c <= '9'
  {
  }

  lemma MarkerText()
    ensures Marker() == "//..."
  {
  }

  lemma ReferenceText()
    ensures Reference() == "$target_determinator_scoped_universe"
  {
  }

  /** Nothing but a wildcard itself changes, and it does unless a label character is directly before it. */
  lemma SingleWildcardIsRewritten(before: string, after: string)
    requires HasNoWildcard(before) && HasNoWildcard(after)
    ensures var pattern, n := before + Marker() + after, |before|;
            var qualified := n > 0 && IsLabelCharacter(before[n - 1]);
            && RewriteFrom(pattern, 0) == before + (if qualified then Marker() else Reference()) + after
            && (IsScopable(pattern) <==> !qualified)
  {
    var pattern, n := before + Marker() + after, |before|;
    forall k: nat
      ensures OccursAt(pattern, Marker(), k) <==> k == n
    {
      OccurrenceIsInside(before, after, k);
    }
    hide OccursAt, RewriteFrom, Marker, Reference, IsLabelCharacter;
    RewriteMarker(pattern, 0, n);
    CopiedUpTo(pattern, n + 5, |pattern|);
    RewriteIsOver(pattern);
    assert pattern[0..n] == before && pattern[n + 5..|pattern|] == after && pattern[|pattern|..] == "";
    assert IsScopable(pattern) <==> !IsQualified(pattern, n);
    assert before + (if IsQualified(pattern, n) then Marker() else Reference()) + (after + "")
           == before + (if IsQualified(pattern, n) then Marker() else Reference()) + after;
  }

  /**
   A wildcard is scoped exactly if it stands first, or the character directly before
   it cannot end the name of a repository: a space, a parenthesis, a slash, a tilde.
   Nothing around it changes.
   */
  lemma WildcardIsScopedIff(before: string, after: string)
    requires HasNoWildcard(before) && HasNoWildcard(after)
    ensures var pattern, n := before + "//..." + after, |before|;
            if n > 0 && (before[n - 1] in "@_-.+" || 'a' <= before[n - 1] <= 'z' || 'A' <= before[n - 1] <= 'Z'
                         || '0' <= before[n - 1] <= '9')
            then RewriteFrom(pattern, 0) == pattern && !IsScopable(pattern)
            else RewriteFrom(pattern, 0) == before + "$target_determinator_scoped_universe" + after && IsScopable(pattern)
  {
    hide *;
    MarkerText();
    ReferenceText();
    SingleWildcardIsRewritten(before, after);
    QualifyingCharacters(if before == "" then ' ' else before[|before| - 1]);
  }

  /** A pattern without //... stays as it is and cannot be scoped. */
  lemma NothingToScope(pattern: string)
    requires HasNoWildcard(pattern)
    ensures RewriteFrom(pattern, 0) == pattern && !IsScopable(pattern)
  {
    hide OccursAt, RewriteFrom, Marker;
    CopiedUpTo(pattern, 0, |pattern|);
    RewriteIsOver(pattern);
    assert pattern[0..|pattern|] == pattern && pattern[|pattern|..] == "";
  }

  // ---------- Several wildcards ----------

  /** What becomes of the rest of a pattern depends on that rest and the character before it. */
  lemma {:induction false} RewriteIsLocal(pattern: string, i: nat, other: string, j: nat)
    requires 0 < i <= |pattern| && 0 < j <= |other| && pattern[i - 1..] == other[j - 1..]
    ensures RewriteFrom(pattern, i) == RewriteFrom(other, j)
    decreases |pattern| - i
  {
    assert pattern[i..] == pattern[i - 1..][1..] && other[j..] == other[j - 1..][1..];
    assert pattern[i - 1] == pattern[i - 1..][0] && other[j - 1] == other[j - 1..][0];
    assert |pattern| - i == |other| - j;
    if i < |pattern| {
      assert pattern[i] == pattern[i..][0] && other[j] == other[j..][0];
      assert OccursAt(pattern, Marker(), i) <==> OccursAt(other, Marker(), j);
      if OccursAt(pattern, Marker(), i) {
        assert pattern[i + 4..] == pattern[i..][4..] && other[j + 4..] == other[j..][4..];
        RewriteIsLocal(pattern, i + 5, other, j + 5);
      } else {
        RewriteIsLocal(pattern, i + 1, other, j + 1);
      }
    }
  }

  /** After the first wildcard the rewrite goes on as if only the last dot of that wildcard had come before. */
  lemma FirstWildcardIsRewritten(before: string, after: string)
    requires HasNoWildcard(before)
    ensures var pattern, n := before + "//..." + after, |before|;
            RewriteFrom(pattern, 0)
            == before + (if n > 0 && (before[n - 1] in "@_-.+" || 'a' <= before[n - 1] <= 'z' || 'A' <= before[n - 1] <= 'Z'
                                      || '0' <= before[n - 1] <= '9')
                         then "//..." else "$target_determinator_scoped_universe")
               + RewriteFrom("." + after, 1)
  {
    hide *;
    MarkerText();
    ReferenceText();
    FirstOfSeveral(before, after);
    QualifyingCharacters(if before == "" then ' ' else before[|before| - 1]);
  }

  lemma FirstOfSeveral(before: string, after: string)
    requires HasNoWildcard(before)
    ensures RewriteFrom(before + Marker() + after, 0)
            == before + (if before != "" && IsLabelCharacter(before[|before| - 1]) then Marker() else Reference())
               + RewriteFrom("." + after, 1)
  {
    hide OccursAt, RewriteFrom, Marker, Reference, IsLabelCharacter, HasNoWildcard;
    var pattern, n := before + Marker() + after, |before|;
    FirstOccurrence(before, after);
    RewriteIsLocal(pattern, n + 5, "." + after, 1);
    RewriteMarker(pattern, 0, n);
    assert pattern[0..n] == before;
  }

  lemma FirstOccurrence(before: string, after: string)
    requires HasNoWildcard(before)
    ensures var pattern, n := before + Marker() + after, |before|;
            && OccursAt(pattern, Marker(), n) && pattern[n + 4..] == "." + after
            && forall k: nat | k < n :: !OccursAt(pattern, Marker(), k)
  {
    var pattern, n := before + Marker() + after, |before|;
    forall k: nat | k <= n
      ensures OccursAt(pattern, Marker(), k) <==> k == n
    {
      OccurrenceIsInside(before, after, k);
    }
    assert pattern[n..] == Marker() + after;
    assert pattern[n + 4..] == pattern[n..][4..];
  }

  // ---------- Repositories ----------

  /** What canonical repository names are made of. */
  predicate IsRepositoryName(repo: string) {
    forall c | c in repo :: 'a' <= c <= 'z' || 'A' <= c <= 'Z' || '0' <= c <= '9' || c in "_-.+~"
  }

  lemma NameHasNoSlash(before: string, repo: string)
    requires IsRepositoryName(repo)
    ensures var s, n := before + "@" + repo, |before|;
            s[n] == '@' && forall k | n <= k < |s| :: s[k] != '/'
  {
    var s, n := before + "@" + repo, |before|;
    forall k | n < k < |s|
      ensures s[k] != '/'
    {
      assert s[k] == repo[k - n - 1] && repo[k - n - 1] in repo;
    }
  }

  lemma OccursBeforeName(before: string, repo: string, k: nat)
    requires IsRepositoryName(repo) && OccursAt(before + "@" + repo, Marker(), k)
    ensures k + 5 <= |before|
  {
    hide IsRepositoryName;
    NameHasNoSlash(before, repo);
    MarkerCharacters(before + "@" + repo, k);
  }

  lemma NameHasNoWildcard(before: string, repo: string)
    requires HasNoWildcard(before) && IsRepositoryName(repo)
    ensures HasNoWildcard(before + "@" + repo)
  {
    var s := before + "@" + repo;
    forall k: nat
      ensures OccursAt(s, Marker(), k) ==> OccursAt(before, Marker(), k)
    {
      if OccursAt(s, Marker(), k) {
        OccursBeforeName(before, repo, k);
        assert before[k..][..5] == s[k..][..5];
      }
    }
  }

  /**
   The wildcard of a repository is recognised, and left alone, unless the name of
   the repository ends in a tilde. Then it loses its `//...` to the variable, with
   the repository's name left in front of it.
   */
  lemma RepositoryIsSeenIff(before: string, repo: string, after: string)
    requires IsRepositoryName(repo) && HasNoWildcard(before) && HasNoWildcard(after)
    ensures var pattern := before + "@" + repo + "//..." + after;
            if repo == "" || repo[|repo| - 1] != '~'
            then RewriteFrom(pattern, 0) == pattern && !IsScopable(pattern)
            else RewriteFrom(pattern, 0) == before + "@" + repo + "$target_determinator_scoped_universe" + after
                 && IsScopable(pattern)
  {
    hide OccursAt, RewriteFrom, IsScopable, HasNoWildcard;
    NameHasNoWildcard(before, repo);
    WildcardIsScopedIff(before + "@" + repo, after);
    var s := before + "@" + repo;
    if repo == "" {
      assert s[|s| - 1] == '@';
    } else {
      assert s[|s| - 1] == repo[|repo| - 1] && repo[|repo| - 1] in repo;
    }
  }

  /** On its own, the wildcard of a repository named like this is scoped, although it names no package of the main repository. */
  lemma TildeRepositoryIsRewritten(repo: string)
    requires IsRepositoryName(repo) && repo != "" && repo[|repo| - 1] == '~'
    ensures IsScopable("@" + repo + "//...")
    ensures RewriteFrom("@" + repo + "//...", 0) == "@" + repo + "$target_determinator_scoped_universe"
  {
    assert HasNoWildcard("");
    RepositoryIsSeenIff("", repo, "");
    hide *;
    EmptyAround("@", repo, "//...");
    EmptyAround("@", repo, "$target_determinator_scoped_universe");
  }

  lemma EmptyAround(x: string, y: string, z: string)
    ensures "" + x + y + z + "" == x + y + z
  {
  }

  // ---------- Undoing the rewrite ----------

  /** Puts //... back for every reference to the variable. */
  function Undo(s: string): string
    decreases |s|
  {
    if s == "" then ""
    else if StartsWith(s, Reference()) then Marker() + Undo(s[|Reference()|..])
    else [s[0]] + Undo(s[1..])
  }

  predicate Avoids(s: string, c: char) {
    forall i | 0 <= i < |s| :: s[i] != c
  }

  lemma NameCharacters()
    ensures Avoids(VariableName(), '$') && Avoids(VariableName(), '/') && |Reference()| > |Marker()|
    ensures Avoids(Reference(), '/') && Avoids(Marker(), '$')
  {
  }

  lemma NoReferenceAt(s: string)
    requires s != "" && s[0] != '$'
    ensures !StartsWith(s, Reference())
  {
    hide VariableName;
    assert |Reference()| <= |s| ==> s[..|Reference()|][0] == s[0];
  }

  lemma {:induction false} UndoSkips(w: string, rest: string)
    requires Avoids(w, '$')
    ensures Undo(w + rest) == w + Undo(rest)
  {
    hide Marker, VariableName;
    if w == "" {
      assert w + rest == rest;
    } else {
      NoReferenceAt(w + rest);
      assert (w + rest)[1..] == w[1..] + rest;
      UndoSkips(w[1..], rest);
      assert w == [w[0]] + w[1..];
    }
  }

  lemma UndoReference(rest: string)
    ensures Undo(Reference() + rest) == Marker() + Undo(rest)
  {
    hide Marker, Reference;
    var s := Reference() + rest;
    assert s[..|Reference()|] == Reference() && s[|Reference()|..] == rest;
  }

  /** A word without slashes and dollar signs that the rewrite begins with was in the pattern. */
  lemma {:induction false} PrefixIsCopied(pattern: string, i: nat, w: string)
    requires i <= |pattern| && Avoids(w, '$') && Avoids(w, '/') && StartsWith(RewriteFrom(pattern, i), w)
    ensures StartsWith(pattern[i..], w)
    decreases |w|
  {
    hide VariableName, IsQualified;
    if w != "" {
      var rewritten := RewriteFrom(pattern, i);
      assert w[0] == rewritten[0];
      assert rewritten[0] != '$' && rewritten[0] != '/';
      BeginsWithMarkerOrReference(pattern, i);
      assert rewritten == [pattern[i]] + RewriteFrom(pattern, i + 1);
      assert w[1..] == RewriteFrom(pattern, i + 1)[..|w| - 1];
      PrefixIsCopied(pattern, i + 1, w[1..]);
      assert w == [w[0]] + w[1..];
      assert pattern[i..][..|w|] == [pattern[i]] + pattern[i + 1..][..|w| - 1];
    }
  }

  lemma BeginsWithMarkerOrReference(pattern: string, i: nat)
    requires i < |pattern|
    ensures RewriteFrom(pattern, i) != ""
    ensures OccursAt(pattern, Marker(), i) ==> RewriteFrom(pattern, i)[0] == '/' || RewriteFrom(pattern, i)[0] == '$'
  {
  }

  /** Wherever the rewrite reads the variable, the pattern read it already. */
  lemma ReferenceIsCopied(pattern: string, i: nat)
    requires i < |pattern| && !OccursAt(pattern, Marker(), i)
    ensures StartsWith(RewriteFrom(pattern, i), Reference()) <==> StartsWith(pattern[i..], Reference())
    ensures StartsWith(pattern[i..], Reference()) ==>
              RewriteFrom(pattern, i) == Reference() + RewriteFrom(pattern, i + |Reference()|)
  {
    NameCharacters();
    var n := |Reference()|;
    if StartsWith(pattern[i..], Reference()) {
      forall k | i <= k < i + n
        ensures !OccursAt(pattern, Marker(), k)
      {
        assert pattern[k] == pattern[i..][..n][k - i];
        SlashAtMarker(pattern, k);
      }
      hide Marker, Reference, OccursAt;
      CopiedUpTo(pattern, i, i + n);
      assert pattern[i..i + n] == pattern[i..][..n];
      assert (Reference() + RewriteFrom(pattern, i + n))[..n] == Reference();
    } else if StartsWith(RewriteFrom(pattern, i), Reference()) {
      TailOfReference(RewriteFrom(pattern, i));
      assert RewriteFrom(pattern, i)[1..] == RewriteFrom(pattern, i + 1);
      PrefixIsCopied(pattern, i + 1, VariableName());
      HeadOfReference(pattern[i..]);
      assert false;
    }
  }

  lemma SlashAtMarker(pattern: string, k: nat)
    ensures OccursAt(pattern, Marker(), k) ==> k < |pattern| && pattern[k] == '/'
  {
    if OccursAt(pattern, Marker(), k) {
      MarkerCharacters(pattern, k);
    }
  }

  lemma TailOfReference(s: string)
    requires StartsWith(s, Reference())
    ensures s[0] == '$' && StartsWith(s[1..], VariableName())
  {
    hide VariableName;
    assert s[0] == s[..|Reference()|][0];
    assert s[1..][..|VariableName()|] == s[..|Reference()|][1..];
  }

  lemma HeadOfReference(s: string)
    requires s != "" && s[0] == '$' && StartsWith(s[1..], VariableName())
    ensures StartsWith(s, Reference())
  {
    hide VariableName;
    assert s[..|Reference()|] == [s[0]] + s[1..][..|VariableName()|];
  }

  lemma UndoAtMarker(pattern: string, i: nat)
    requires OccursAt(pattern, Marker(), i) && i + |Marker()| <= |pattern|
    requires Undo(RewriteFrom(pattern, i + |Marker()|)) == Undo(pattern[i + |Marker()|..])
    ensures Undo(RewriteFrom(pattern, i)) == Undo(pattern[i..])
  {
    NameCharacters();
    var next := i + |Marker()|;
    assert pattern[i..] == Marker() + pattern[next..] by {
      assert pattern[i..][..|Marker()|] == Marker();
    }
    RewriteMarker(pattern, i, i);
    assert pattern[i..i] == "";
    hide VariableName, Reference, Marker, IsQualified, Avoids, RewriteFrom, Undo, OccursAt;
    UndoSkips(Marker(), pattern[next..]);
    UndoSkips(Marker(), RewriteFrom(pattern, next));
    UndoReference(RewriteFrom(pattern, next));
  }

  /** Undoing the rewrite gives what undoing the pattern itself gives. */
  lemma {:induction false} UndoOfRewrite(pattern: string, i: nat)
    requires i <= |pattern|
    ensures Undo(RewriteFrom(pattern, i)) == Undo(pattern[i..])
    decreases |pattern| - i
  {
    hide *;
    var n := |Reference()|;
    if i == |pattern| {
      RewriteIsOver(pattern);
    } else {
      if OccursAt(pattern, Marker(), i) {
        OccurrenceFits(pattern, i);
        UndoOfRewrite(pattern, i + |Marker()|);
        UndoAtMarker(pattern, i);
      } else if StartsWith(pattern[i..], Reference()) {
        StartIsInside(pattern[i..], Reference());
        UndoOfRewrite(pattern, i + n);
        UndoAtReference(pattern, i);
      } else {
        UndoOfRewrite(pattern, i + 1);
        UndoAtCharacter(pattern, i);
      }
    }
  }

  lemma RewriteIsOver(pattern: string)
    ensures RewriteFrom(pattern, |pattern|) == pattern[|pattern|..]
  {
  }

  lemma StartIsInside(s: string, prefix: string)
    requires StartsWith(s, prefix)
    ensures |prefix| <= |s|
  {
  }

  lemma UndoAtReference(pattern: string, i: nat)
    requires i < |pattern| && !OccursAt(pattern, Marker(), i) && StartsWith(pattern[i..], Reference())
    requires Undo(RewriteFrom(pattern, i + |Reference()|)) == Undo(pattern[i + |Reference()|..])
    ensures Undo(RewriteFrom(pattern, i)) == Undo(pattern[i..])
  {
    ReferenceIsCopied(pattern, i);
    hide VariableName, OccursAt, Marker, Reference, RewriteFrom, Undo;
    var next := i + |Reference()|;
    assert pattern[i..] == Reference() + pattern[next..];
    UndoReference(RewriteFrom(pattern, next));
    UndoReference(pattern[next..]);
  }

  lemma UndoAtCharacter(pattern: string, i: nat)
    requires i < |pattern| && !OccursAt(pattern, Marker(), i) && !StartsWith(pattern[i..], Reference())
    requires Undo(RewriteFrom(pattern, i + 1)) == Undo(pattern[i + 1..])
    ensures Undo(RewriteFrom(pattern, i)) == Undo(pattern[i..])
  {
    ReferenceIsCopied(pattern, i);
    hide VariableName, OccursAt, Marker, Reference, StartsWith;
    assert RewriteFrom(pattern, i) == [pattern[i]] + RewriteFrom(pattern, i + 1);
    assert RewriteFrom(pattern, i)[1..] == RewriteFrom(pattern, i + 1);
    assert pattern[i..][1..] == pattern[i + 1..];
  }

  /** Undoing changes a string exactly when it mentions the variable. */
  lemma {:induction false} UndoIsIdentityIff(s: string)
    ensures Undo(s) == s <==> forall k: nat :: !OccursAt(s, Reference(), k)
    ensures |Undo(s)| <= |s| && (Undo(s) != s ==> |Undo(s)| < |s|)
    decreases |s|
  {
    NameCharacters();
    hide Marker, Reference, Avoids, VariableName;
    if s == "" {
      assert forall k: nat :: OccursAt(s, Reference(), k) ==> |Reference()| <= 0;
    } else if StartsWith(s, Reference()) {
      UndoIsIdentityIff(s[|Reference()|..]);
      assert s[0..] == s;
      assert OccursAt(s, Reference(), 0);
    } else {
      var rest := s[1..];
      UndoIsIdentityIff(rest);
      forall k: nat
        ensures OccursAt(s, Reference(), k) <==> k > 0 && OccursAt(rest, Reference(), k - 1)
      {
        if 0 < k <= |s| {
          assert s[k..] == rest[k - 1..];
        } else if k == 0 {
          assert s[0..] == s;
        }
      }
      assert forall k: nat | OccursAt(rest, Reference(), k) :: OccursAt(s, Reference(), k + 1);
      assert s == [s[0]] + rest;
    }
  }

  /** Putting //... back into the scoped body gives the original pattern exactly when that did not mention the variable. */
  lemma ScopingCanBeUndoneIff(pattern: string)
    ensures Undo(RewriteFrom(pattern, 0)) == pattern <==> forall k: nat :: !OccursAt(pattern, Reference(), k)
  {
    UndoOfRewrite(pattern, 0);
    assert pattern[0..] == pattern;
    UndoIsIdentityIff(pattern);
  }
}
