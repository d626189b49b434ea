/**
 The text of the scoped universe (pkg/scoped_query.go: QuoteQueryWord,
 BuildScopedUniverse), read back by a lexer for the part of the Bazel query
 language it uses.
 */
module ScopedUniverse {
  import opened Wrappers
  import opened Ordering

  // ---------- Reading query text ----------

  datatype Token = Word(text: string) | Open | Close | Plus | Set

  /** The position of the first `c`. */
  function Find(s: string, c: char): Option<nat> {
    if s == "" then None
    else if s[0] == c then Some(0)
    else match Find(s[1..], c) case None => None case Some(k) => Some(k + 1)
  }

  lemma {:induction false} FoundIsInside(s: string, c: char)
    ensures Find(s, c).Some? ==> Find(s, c).value < |s| && s[Find(s, c).value] == c
    ensures Find(s, c).Some? <==> c in s
  {
    if s != "" {
      FoundIsInside(s[1..], c);
      assert s == [s[0]] + s[1..];
    }
  }

  function Prepend(tokens: seq<Token>, rest: Option<seq<Token>>): Option<seq<Token>> {
    match rest case None => None case Some(more) => Some(tokens + more)
  }

  /** Words are quoted and reach to the next quote of the same kind; backslashes mean nothing. */
  function Lex(s: string): Option<seq<Token>>
    decreases |s|
  {
    if s == "" then Some([])
    else match s[0]
      case ' ' => Lex(s[1..])
      case '(' => Prepend([Open], Lex(s[1..]))
      case ')' => Prepend([Close], Lex(s[1..]))
      case '+' => Prepend([Plus], Lex(s[1..]))
      case 's' => if |s| >= 3 && s[..3] == "set" then Prepend([Set], Lex(s[3..])) else None
      case c =>
        if c != '"' && c != '\'' then None
        else
          match Find(s[1..], c)
          case None => None
          case Some(k) =>
            FoundIsInside(s[1..], c);
            Prepend([Word(s[1..][..k])], Lex(s[1..][k + 1..]))
  }

  /** Whatever follows, `s` is read as `tokens` first. */
  ghost predicate LexesTo(s: string, tokens: seq<Token>) {
    forall rest: string :: Lex(s + rest) == Prepend(tokens, Lex(rest))
  }

  lemma Concatenate(s: string, tokens: seq<Token>, t: string, more: seq<Token>)
    requires LexesTo(s, tokens) && LexesTo(t, more)
    ensures LexesTo(s + t, tokens + more)
  {
    hide Lex;
    forall rest: string
      ensures Lex(s + t + rest) == Prepend(tokens + more, Lex(rest))
    {
      assert s + t + rest == s + (t + rest);
      assert Lex(s + (t + rest)) == Prepend(tokens, Lex(t + rest));
      if Lex(rest).Some? {
        assert tokens + (more + Lex(rest).value) == tokens + more + Lex(rest).value;
      }
    }
  }

  // ---------- QuoteQueryWord ----------

  predicate IsQuotable(word: string) {
    '"' !in word || '\'' !in word
  }

  function QuoteQueryWord(word: string): Result<string, string> {
    if '"' !in word then Ok("\"" + word + "\"")
    else if '\'' !in word then Ok("'" + word + "'")
    else Err("cannot quote a word that contains both quote delimiters")
  }

  lemma {:induction false} FindEnd(word: string, c: char, rest: string)
    requires c !in word
    ensures Find(word + [c] + rest, c) == Some(|word|)
  {
    var s := word + [c] + rest;
    if word != "" {
      assert s[0] == word[0] && word[0] in word;
      assert s[1..] == word[1..] + [c] + rest;
      FindEnd(word[1..], c, rest);
    }
  }

  lemma QuotedLexes(word: string, c: char)
    requires c !in word && (c == '"' || c == '\'')
    ensures LexesTo([c] + word + [c], [Word(word)])
  {
    forall rest: string
      ensures Lex([c] + word + [c] + rest) == Prepend([Word(word)], Lex(rest))
    {
      var s := [c] + word + [c] + rest;
      assert s[0] == c && s[1..] == word + [c] + rest;
      FindEnd(word, c, rest);
      assert s[1..][..|word|] == word && s[1..][|word| + 1..] == rest;
    }
  }

  /** Quoting round-trips: what is quoted is read back as that word, whatever follows it. */
  lemma QuotingRoundTrips(word: string)
    ensures QuoteQueryWord(word).Ok? <==> IsQuotable(word)
    ensures QuoteQueryWord(word).Err? <==> '"' in word && '\'' in word
    ensures '"' !in word ==> QuoteQueryWord(word) == Ok("\"" + word + "\"")
    ensures QuoteQueryWord(word).Ok? ==> LexesTo(QuoteQueryWord(word).value, [Word(word)])
  {
    hide Lex, LexesTo;
    if '"' !in word {
      QuotedLexes(word, '"');
      assert ['"'] + word + ['"'] == "\"" + word + "\"";
    } else if '\'' !in word {
      QuotedLexes(word, '\'');
      assert ['\''] + word + ['\''] == "'" + word + "'";
    }
  }

  /** A word refused cannot be written at all: it holds both delimiters, and a word holds no delimiter of its own. */
  lemma RefusedCannotBeQuoted(word: string, s: string, c: char)
    requires QuoteQueryWord(word).Err? && (c == '"' || c == '\'')
    ensures Lex([c] + s) != Some([Word(word)])
  {
    var text := [c] + s;
    assert text[1..] == s;
    if Find(s, c).Some? {
      var k := Find(s, c).value;
      FoundIsInside(s, c);
      FirstIsFirst(s, c);
      assert c !in s[..k];
      var more := Lex(s[k + 1..]);
      assert Lex(text) == Prepend([Word(s[..k])], more);
      assert more.Some? ==> ([Word(s[..k])] + more.value)[0] == Word(s[..k]);
    }
  }

  lemma {:induction false} FirstIsFirst(s: string, c: char)
    requires Find(s, c).Some?
    ensures Find(s, c).value < |s| && c !in s[..Find(s, c).value]
  {
    FoundIsInside(s, c);
    if s[0] != c {
      FirstIsFirst(s[1..], c);
      var k := Find(s[1..], c).value;
      assert s[..k + 1] == [s[0]] + s[1..][..k];
    }
  }

  // ---------- BuildScopedUniverse ----------

  function Join(parts: seq<string>, separator: string): string {
    if parts == [] then ""
    else if |parts| == 1 then parts[0]
    else parts[0] + separator + Join(parts[1..], separator)
  }

  function JoinTokens(parts: seq<seq<Token>>, separator: seq<Token>): seq<Token> {
    if parts == [] then []
    else if |parts| == 1 then parts[0]
    else parts[0] + separator + JoinTokens(parts[1..], separator)
  }

  function Words(texts: seq<string>): seq<seq<Token>> {
    seq(|texts|, i requires 0 <= i < |texts| => [Word(texts[i])])
  }

  /** A wildcard for every dirty package, and the carried labels as one set; with neither, the empty set. */
  function UniverseTokens(wildcards: seq<string>, carried: seq<string>): seq<Token> {
    var terms := Words(wildcards)
                 + if carried == [] then [] else [SetTokens(carried)];
    if terms == [] then [Set, Open, Close] else [Open] + JoinTokens(terms, [Plus]) + [Close]
  }

  /** The words among some tokens, in order. */
  function WordsOf(tokens: seq<Token>): seq<string> {
    if tokens == [] then []
    else WordsOf(tokens[..|tokens| - 1])
         + if tokens[|tokens| - 1].Word? then [tokens[|tokens| - 1].text] else []
  }

  lemma {:induction false} WordsConcatenate(s: seq<Token>, t: seq<Token>)
    ensures WordsOf(s + t) == WordsOf(s) + WordsOf(t)
  {
    if t == [] {
      assert s + t == s;
    } else {
      assert (s + t)[..|s + t| - 1] == s + t[..|t| - 1];
      WordsConcatenate(s, t[..|t| - 1]);
    }
  }

  /** The words of several groups of tokens, one group after the other. */
  function AllWords(parts: seq<seq<Token>>): seq<string> {
    if parts == [] then [] else WordsOf(parts[0]) + AllWords(parts[1..])
  }

  lemma {:induction false} JoinedWords(parts: seq<seq<Token>>, separator: seq<Token>)
    requires WordsOf(separator) == []
    ensures WordsOf(JoinTokens(parts, separator)) == AllWords(parts)
  {
    if |parts| == 1 {
      assert parts[1..] == [];
      assert WordsOf(parts[0]) + [] == WordsOf(parts[0]);
    } else if |parts| > 1 {
      JoinedWords(parts[1..], separator);
      WordsConcatenate(parts[0], separator);
      WordsConcatenate(parts[0] + separator, JoinTokens(parts[1..], separator));
      hide WordsOf;
    }
  }

  lemma {:induction false} WordsOfWords(texts: seq<string>)
    ensures AllWords(Words(texts)) == texts
  {
    if texts != [] {
      WordsOfWords(texts[1..]);
      assert Words(texts)[1..] == Words(texts[1..]);
      OneWord(texts[0]);
      hide WordsOf;
      assert texts == [texts[0]] + texts[1..];
    }
  }

  lemma OneWord(text: string)
    ensures WordsOf([Word(text)]) == [text]
  {
    assert [Word(text)][..0] == [];
  }

  lemma NoWords()
    ensures WordsOf([]) == WordsOf([Open]) == WordsOf([Close]) == WordsOf([Plus]) == WordsOf([Set]) == []
  {
    assert [Open][..0] == [Close][..0] == [Plus][..0] == [Set][..0] == [];
  }

  lemma EnclosedWords(tokens: seq<Token>)
    ensures WordsOf([Open] + tokens + [Close]) == WordsOf(tokens)
  {
    NoWords();
    WordsConcatenate([Open], tokens);
    WordsConcatenate([Open] + tokens, [Close]);
    hide WordsOf;
  }

  lemma {:induction false} AllWordsConcatenate(s: seq<seq<Token>>, t: seq<seq<Token>>)
    ensures AllWords(s + t) == AllWords(s) + AllWords(t)
  {
    hide WordsOf;
    if s == [] {
      assert s + t == t;
    } else {
      assert (s + t)[1..] == s[1..] + t;
      AllWordsConcatenate(s[1..], t);
    }
  }

  lemma SetNames(carried: seq<string>)
    ensures AllWords([SetTokens(carried)]) == carried
  {
    NoWords();
    JoinedWords(Words(carried), []);
    WordsOfWords(carried);
    EnclosedWords(JoinTokens(Words(carried), []));
    WordsConcatenate([Set], [Open] + JoinTokens(Words(carried), []) + [Close]);
    assert [SetTokens(carried)][1..] == [];
    hide WordsOf, JoinTokens;
  }

  /** The universe names every wildcard and every carried label, in order, and nothing else. */
  lemma UniverseNames(wildcards: seq<string>, carried: seq<string>)
    ensures WordsOf(UniverseTokens(wildcards, carried)) == wildcards + carried
  {
    NoWords();
    var terms := Words(wildcards) + if carried == [] then [] else [SetTokens(carried)];
    WordsOfWords(wildcards);
    SetNames(carried);
    AllWordsConcatenate(Words(wildcards), if carried == [] then [] else [SetTokens(carried)]);
    JoinedWords(terms, [Plus]);
    EnclosedWords(JoinTokens(terms, [Plus]));
    WordsConcatenate([Set], [Open]);
    WordsConcatenate([Set] + [Open], [Close]);
    assert [Set] + [Open] + [Close] == [Set, Open, Close];
    hide WordsOf, JoinTokens, SetTokens;
  }

  lemma {:induction false} JoinedOneByOne(texts: seq<string>)
    ensures JoinTokens(Words(texts), []) == seq(|texts|, i requires 0 <= i < |texts| => Word(texts[i]))
  {
    if |texts| > 1 {
      JoinedOneByOne(texts[1..]);
      assert Words(texts)[1..] == Words(texts[1..]);
    }
  }

  /** Carried labels alone are one parenthesized set. */
  lemma CarriedUniverse(carried: seq<string>)
    requires carried != []
    ensures UniverseTokens([], carried)
            == [Open, Set, Open] + seq(|carried|, i requires 0 <= i < |carried| => Word(carried[i])) + [Close, Close]
  {
    JoinedOneByOne(carried);
    var none: seq<string> := [];
    assert Words(none) + [SetTokens(carried)] == [SetTokens(carried)];
    hide Words;
  }

  lemma JoinStep(first: seq<Token>, rest: seq<seq<Token>>, separator: seq<Token>)
    requires rest != []
    ensures JoinTokens([first] + rest, separator) == first + separator + JoinTokens(rest, separator)
  {
    assert ([first] + rest)[1..] == rest;
    hide JoinTokens;
  }

  lemma FrontOfUniverse(word: seq<Token>, rest: seq<Token>)
    ensures [Open] + (word + [Plus] + rest) + [Close] == [Open] + word + [Plus] + ([Open] + rest + [Close])[1..]
  {
    assert ([Open] + rest + [Close])[1..] == rest + [Close];
  }

  /** The universe of no package, and that of one. */
  lemma SmallestUniverses(wildcard: string)
    ensures UniverseTokens([], []) == [Set, Open, Close] && UniverseTokens([wildcard], []) == [Open, Word(wildcard), Close]
  {
    var none: seq<string>, nothing: seq<seq<Token>> := [], [];
    assert Words(none) == [] && Words([wildcard]) + nothing == [[Word(wildcard)]];
  }

  /** Each further package puts its wildcard and a plus sign in front of what there is without it. */
  lemma OneMorePackage(wildcard: string, wildcards: seq<string>, carried: seq<string>)
    requires wildcards != [] || carried != []
    ensures UniverseTokens([wildcard] + wildcards, carried)
            == [Open] + [Word(wildcard)] + [Plus] + UniverseTokens(wildcards, carried)[1..]
  {
    var last := if carried == [] then [] else [SetTokens(carried)];
    var terms := Words(wildcards) + last;
    assert Words([wildcard] + wildcards) + last == [[Word(wildcard)]] + terms;
    hide SetTokens, Words, JoinTokens;
    JoinStep([Word(wildcard)], terms, [Plus]);
    FrontOfUniverse([Word(wildcard)], JoinTokens(terms, [Plus]));
  }

  lemma {:induction false} JoinLexes(parts: seq<string>, tokens: seq<seq<Token>>, separator: string, between: seq<Token>)
    requires |parts| == |tokens| && LexesTo(separator, between)
    requires forall i | 0 <= i < |parts| :: LexesTo(parts[i], tokens[i])
    ensures LexesTo(Join(parts, separator), JoinTokens(tokens, between))
  {
    hide Lex;
    if parts == [] {
      EmptyLexes();
    } else if |parts| > 1 {
      hide LexesTo;
      JoinLexes(parts[1..], tokens[1..], separator, between);
      Concatenate(parts[0], tokens[0], separator, between);
      Concatenate(parts[0] + separator, tokens[0] + between, Join(parts[1..], separator), JoinTokens(tokens[1..], between));
    }
  }

  lemma NoTokens(rest: Option<seq<Token>>)
    ensures Prepend([], rest) == rest
  {
    if rest.Some? {
      assert [] + rest.value == rest.value;
    }
  }

  lemma EmptyLexes()
    ensures LexesTo("", [])
  {
    forall rest: string
      ensures Lex("" + rest) == Prepend([], Lex(rest))
    {
      assert "" + rest == rest;
      NoTokens(Lex(rest));
    }
  }

  lemma OpenLexes()
    ensures LexesTo("(", [Open])
  {
    forall rest: string
      ensures Lex("(" + rest) == Prepend([Open], Lex(rest))
    {
      var s := "(" + rest;
      assert s[0] == '(' && s[1..] == rest;
    }
  }

  lemma CloseLexes()
    ensures LexesTo(")", [Close])
  {
    forall rest: string
      ensures Lex(")" + rest) == Prepend([Close], Lex(rest))
    {
      var s := ")" + rest;
      assert s[0] == ')' && s[1..] == rest;
    }
  }

  lemma SpaceLexes()
    ensures LexesTo(" ", [])
  {
    forall rest: string
      ensures Lex(" " + rest) == Prepend([], Lex(rest))
    {
      var s := " " + rest;
      assert s[0] == ' ' && s[1..] == rest;
      NoTokens(Lex(rest));
    }
  }

  lemma PlusLexes()
    ensures LexesTo(" + ", [Plus])
  {
    forall rest: string
      ensures Lex(" + " + rest) == Prepend([Plus], Lex(rest))
    {
      var s := " + " + rest;
      var sign, space := s[1..], s[2..];
      assert s[0] == ' ' && sign[0] == '+' && sign[1..] == space && space[0] == ' ' && space[1..] == rest;
      assert Lex(sign) == Prepend([Plus], Lex(space));
    }
  }

  lemma SetLexes()
    ensures LexesTo("set", [Set])
  {
    forall rest: string
      ensures Lex("set" + rest) == Prepend([Set], Lex(rest))
    {
      var s := "set" + rest;
      assert s[..3] == "set" && s[3..] == rest && s[0] == 's';
    }
  }

  predicate AllQuotable(texts: seq<string>) {
    forall text | text in texts :: IsQuotable(text)
  }

  /** Quotes every word, or finds one that cannot be quoted. */
  method QuoteAll(texts: seq<string>) returns (quoted: Result<seq<string>, string>)
    ensures quoted.Ok? <==> AllQuotable(texts)
    ensures quoted.Ok? ==>
              |quoted.value| == |texts| && forall i | 0 <= i < |texts| :: LexesTo(quoted.value[i], [Word(texts[i])])
  {
    var words: seq<string> := [];
    hide IsQuotable, QuoteQueryWord, LexesTo;
    for i := 0 to |texts|
      invariant |words| == i
      invariant forall j | 0 <= j < i :: IsQuotable(texts[j])
      invariant forall j | 0 <= j < i :: LexesTo(words[j], [Word(texts[j])])
    {
      QuotingRoundTrips(texts[i]);
      var word := QuoteQueryWord(texts[i]);
      if word.Err? {
        return Err(word.error);
      }
      words := words + [word.value];
    }
    return Ok(words);
  }

  function Wildcards(packages: seq<string>): seq<string> {
    seq(|packages|, i requires 0 <= i < |packages| => packages[i] + ":all")
  }

  lemma EnclosedLexes(s: string, tokens: seq<Token>)
    requires LexesTo(s, tokens)
    ensures LexesTo("(" + s + ")", [Open] + tokens + [Close])
  {
    OpenLexes();
    CloseLexes();
    hide Lex, LexesTo;
    Concatenate("(", [Open], s, tokens);
    Concatenate("(" + s, [Open] + tokens, ")", [Close]);
  }

  function SetTokens(carried: seq<string>): seq<Token> {
    [Set] + ([Open] + JoinTokens(Words(carried), []) + [Close])
  }

  lemma SetTermLexes(words: seq<string>, carried: seq<string>)
    requires |words| == |carried| && forall i | 0 <= i < |words| :: LexesTo(words[i], [Word(carried[i])])
    ensures LexesTo("set" + ("(" + Join(words, " ") + ")"), SetTokens(carried))
  {
    SpaceLexes();
    SetLexes();
    hide Lex, LexesTo;
    JoinLexes(words, Words(carried), " ", []);
    EnclosedLexes(Join(words, " "), JoinTokens(Words(carried), []));
    Concatenate("set", [Set], "(" + Join(words, " ") + ")", [Open] + JoinTokens(Words(carried), []) + [Close]);
  }

  lemma UniverseLexes(terms: seq<string>, tokens: seq<seq<Token>>)
    requires |terms| == |tokens| && forall i | 0 <= i < |terms| :: LexesTo(terms[i], tokens[i])
    ensures Lex("(" + Join(terms, " + ") + ")") == Some([Open] + JoinTokens(tokens, [Plus]) + [Close])
  {
    PlusLexes();
    hide Lex;
    JoinLexes(terms, tokens, " + ", [Plus]);
    EnclosedLexes(Join(terms, " + "), JoinTokens(tokens, [Plus]));
    WholeLexes("(" + Join(terms, " + ") + ")", [Open] + JoinTokens(tokens, [Plus]) + [Close]);
  }

  lemma WholeLexes(s: string, tokens: seq<Token>)
    requires LexesTo(s, tokens)
    ensures Lex(s) == Some(tokens)
  {
    assert s + "" == s;
    assert Lex(s + "") == Prepend(tokens, Lex(""));
    assert tokens + [] == tokens;
  }

  lemma EmptyUniverseLexes()
    ensures Lex("set()") == Some([Set, Open, Close])
  {
    EmptyLexes();
    SetLexes();
    EnclosedLexes("", []);
    Concatenate("set", [Set], "(" + "" + ")", [Open] + [] + [Close]);
    hide Lex, LexesTo;
    assert "set" + ("(" + "" + ")") == "set()";
    assert [Set] + ([Open] + [] + [Close]) == [Set, Open, Close];
    WholeLexes("set()", [Set, Open, Close]);
  }

  /**
   The universe names exactly the given packages and labels: read back, it is one
   wildcard for each dirty package and the set of carried labels in order. It fails
   exactly when one of them cannot be quoted.
   */
  method BuildScopedUniverse(packages: seq<string>, carried: seq<string>) returns (universe: Result<string, string>)
    ensures universe.Ok? <==> AllQuotable(Wildcards(packages)) && AllQuotable(carried)
    ensures universe.Ok? ==> Lex(universe.value) == Some(UniverseTokens(Wildcards(packages), Sort(carried, StringLess)))
    ensures universe.Ok? ==> exists tokens, sorted ::
              && Lex(universe.value) == Some(tokens) && InOrder(sorted, StringLess) && multiset(sorted) == multiset(carried)
              && WordsOf(tokens) == seq(|packages|, i requires 0 <= i < |packages| => packages[i] + ":all") + sorted
  {
    UniverseNames(Wildcards(packages), Sort(carried, StringLess));
    StringOrder();
    SortIsSorted(carried, StringLess);
    var sorted := Sort(carried, StringLess);
    SortedIsQuotable(carried);
    EmptyUniverseLexes();
    assert carried == [] ==> AllQuotable(carried);
    hide Lex, LexesTo, AllQuotable, JoinTokens;
    var patterns := QuoteAll(Wildcards(packages));
    if patterns.Err? {
      return Err(patterns.error);
    }
    var terms := patterns.value;
    ghost var tokens := Words(Wildcards(packages));
    if carried != [] {
      var words := QuoteAll(sorted);
      if words.Err? {
        return Err(words.error);
      }
      SetTermLexes(words.value, sorted);
      terms := terms + ["set" + ("(" + Join(words.value, " ") + ")")];
      tokens := tokens + [SetTokens(sorted)];
    }
    if terms == [] {
      return Ok("set()");
    }
    UniverseLexes(terms, tokens);
    assert tokens == Words(Wildcards(packages)) + if sorted == [] then [] else [SetTokens(sorted)];
    return Ok("(" + Join(terms, " + ") + ")");
  }

  lemma SortedIsQuotable(carried: seq<string>)
    ensures AllQuotable(Sort(carried, StringLess)) <==> AllQuotable(carried)
    ensures Sort(carried, StringLess) == [] <==> carried == []
  {
    var sorted := Sort(carried, StringLess);
    StringOrder();
    SortIsSorted(carried, StringLess);
    assert |multiset(sorted)| == |multiset(carried)|;
    assert forall x :: x in sorted <==> x in multiset(sorted);
    assert forall x :: x in carried <==> x in multiset(carried);
  }
}
