/**
 JSON values, their compact text and their tokens (section 4 of RFC 8259), as far
 as encoding/json provides them: escaping and number syntax are inside `Atom`.
 */
module Json {

  datatype Atom = Null | Text(text: string) | Number(number: int) | Flag(flag: bool)

  datatype Member = Member(key: string, value: Json)

  datatype Json = Scalar(atom: Atom) | Arr(items: seq<Json>) | Obj(members: seq<Member>)

  /** Compact text without white space. */
  datatype Lexeme = LBrace | RBrace | LBracket | RBracket | Comma | Colon | Newline | Value(atom: Atom)

  /** What json.Decoder.Token yields: separators are consumed but not reported. */
  datatype Token = BeginObject | EndObject | BeginArray | EndArray | Plain(atom: Atom)

  // ---------- Text ----------

  function Render(v: Json): seq<Lexeme>
    decreases v, 1, 0
  {
    match v
    case Scalar(atom) => [Value(atom)]
    case Arr(items) => [LBracket] + RenderItems(v, |items|) + [RBracket]
    case Obj(members) => [LBrace] + RenderMembers(v, |members|) + [RBrace]
  }

  /** The first `n` items, separated by commas. */
  function RenderItems(v: Json, n: nat): seq<Lexeme>
    requires v.Arr? && n <= |v.items|
    decreases v, 0, n
  {
    if n == 0 then [] else RenderItems(v, n - 1) + Separator(n) + Render(v.items[n - 1])
  }

  function RenderMembers(v: Json, n: nat): seq<Lexeme>
    requires v.Obj? && n <= |v.members|
    decreases v, 0, n
  {
    if n == 0 then []
    else
      RenderMembers(v, n - 1) + Separator(n) + [Value(Text(v.members[n - 1].key)), Colon] + Render(v.members[n - 1].value)
  }

  /** What goes before the n-th entry. */
  function Separator(n: nat): seq<Lexeme> {
    if n <= 1 then [] else [Comma]
  }

  // ---------- Tokens ----------

  function TokensOf(v: Json): seq<Token>
    decreases v, 1, 0
  {
    match v
    case Scalar(atom) => [Plain(atom)]
    case Arr(items) => [BeginArray] + ItemTokens(v, 0) + [EndArray]
    case Obj(members) => [BeginObject] + MemberTokens(v, 0) + [EndObject]
  }

  /** The tokens of the items from `i` on. */
  function ItemTokens(v: Json, i: nat): seq<Token>
    requires v.Arr? && i <= |v.items|
    decreases v, 0, |v.items| - i
  {
    if i == |v.items| then [] else TokensOf(v.items[i]) + ItemTokens(v, i + 1)
  }

  function MemberTokens(v: Json, i: nat): seq<Token>
    requires v.Obj? && i <= |v.members|
    decreases v, 0, |v.members| - i
  {
    if i == |v.members| then []
    else [Plain(Text(v.members[i].key))] + TokensOf(v.members[i].value) + MemberTokens(v, i + 1)
  }

  // ---------- The tokenizer ----------

  function TokenOf(lexeme: Lexeme): seq<Token> {
    match lexeme
    case LBrace => [BeginObject]
    case RBrace => [EndObject]
    case LBracket => [BeginArray]
    case RBracket => [EndArray]
    case Value(atom) => [Plain(atom)]
    case _ => []
  }

  function Tokenize(text: seq<Lexeme>): seq<Token> {
    if text == [] then [] else Tokenize(text[..|text| - 1]) + TokenOf(text[|text| - 1])
  }

  lemma {:induction false} TokenizeConcatenates(s: seq<Lexeme>, t: seq<Lexeme>)
    ensures Tokenize(s + t) == Tokenize(s) + Tokenize(t)
  {
    hide TokenOf;
    if t == [] {
      assert s + t == s;
    } else {
      var n := |t| - 1;
      assert (s + t)[..|s| + n] == s + t[..n] && (s + t)[|s| + n] == t[n];
      TokenizeConcatenates(s, t[..n]);
      assert Tokenize(s) + (Tokenize(t[..n]) + TokenOf(t[n])) == Tokenize(s) + Tokenize(t[..n]) + TokenOf(t[n]);
    }
  }

  lemma TokenizeOne(lexeme: Lexeme)
    ensures Tokenize([lexeme]) == TokenOf(lexeme)
  {
    assert [lexeme][..0] == [];
  }

  lemma TokenizeEnclosed(open: Lexeme, s: seq<Lexeme>, close: Lexeme)
    ensures Tokenize([open] + s + [close]) == TokenOf(open) + Tokenize(s) + TokenOf(close)
  {
    TokenizeConcatenates([open] + s, [close]);
    TokenizeConcatenates([open], s);
    TokenizeOne(open);
    TokenizeOne(close);
  }

  lemma SeparatorsVanish(n: nat)
    ensures Tokenize(Separator(n)) == []
  {
    if n > 1 {
      TokenizeOne(Comma);
    }
  }

  lemma ScalarTokenizes(atom: Atom)
    ensures Tokenize(Render(Scalar(atom))) == TokensOf(Scalar(atom))
  {
    TokenizeOne(Value(atom));
  }

  /** Appending one piece of text appends its tokens. */
  lemma Append(text: seq<Lexeme>, piece: seq<Lexeme>, tokens: seq<Token>, rest: seq<Token>)
    requires Tokenize(piece) == tokens
    ensures Tokenize(text + piece) + rest == Tokenize(text) + (tokens + rest)
  {
    TokenizeConcatenates(text, piece);
  }

  /** The text of a value yields its tokens. */
  lemma {:induction false} RenderTokenizes(v: Json)
    ensures Tokenize(Render(v)) == TokensOf(v)
    decreases v, 1, 0
  {
    hide Tokenize, TokenOf, RenderItems, RenderMembers, ItemTokens, MemberTokens;
    match v {
      case Scalar(atom) => ScalarTokenizes(atom);
      case Arr(items) =>
        TokenizeEnclosed(LBracket, RenderItems(v, |items|), RBracket);
        ItemsTokenize(v, |items|);
        NoItemsLeft(v);
      case Obj(members) =>
        TokenizeEnclosed(LBrace, RenderMembers(v, |members|), RBrace);
        MembersTokenize(v, |members|);
        NoMembersLeft(v);
    }
  }

  lemma NoItemsLeft(v: Json)
    requires v.Arr?
    ensures ItemTokens(v, |v.items|) == [] && TokenOf(LBracket) == [BeginArray] && TokenOf(RBracket) == [EndArray]
  {
  }

  lemma NoMembersLeft(v: Json)
    requires v.Obj?
    ensures MemberTokens(v, |v.members|) == [] && TokenOf(LBrace) == [BeginObject] && TokenOf(RBrace) == [EndObject]
  {
  }

  lemma NoItemsYet(v: Json)
    requires v.Arr?
    ensures Tokenize(RenderItems(v, 0)) == []
  {
  }

  lemma NoMembersYet(v: Json)
    requires v.Obj?
    ensures Tokenize(RenderMembers(v, 0)) == []
  {
  }

  lemma ItemStep(v: Json, n: nat)
    requires v.Arr? && 0 < n <= |v.items|
    ensures RenderItems(v, n) == RenderItems(v, n - 1) + Separator(n) + Render(v.items[n - 1])
    ensures ItemTokens(v, n - 1) == TokensOf(v.items[n - 1]) + ItemTokens(v, n)
  {
  }

  lemma {:induction false} ItemsTokenize(v: Json, n: nat)
    requires v.Arr? && n <= |v.items|
    ensures Tokenize(RenderItems(v, n)) + ItemTokens(v, n) == ItemTokens(v, 0)
    decreases v, 0, n
  {
    hide *;
    if n == 0 {
      NoItemsYet(v);
    } else {
      ItemStep(v, n);
      ItemsTokenize(v, n - 1);
      SeparatorsVanish(n);
      RenderTokenizes(v.items[n - 1]);
      var rest := ItemTokens(v, n);
      Append(RenderItems(v, n - 1) + Separator(n), Render(v.items[n - 1]), TokensOf(v.items[n - 1]), rest);
      Append(RenderItems(v, n - 1), Separator(n), [], TokensOf(v.items[n - 1]) + rest);
      assert [] + (TokensOf(v.items[n - 1]) + rest) == TokensOf(v.items[n - 1]) + rest;
    }
  }

  lemma MemberStep(v: Json, n: nat)
    requires v.Obj? && 0 < n <= |v.members|
    ensures RenderMembers(v, n)
            == RenderMembers(v, n - 1) + Separator(n) + [Value(Text(v.members[n - 1].key)), Colon] + Render(v.members[n - 1].value)
    ensures MemberTokens(v, n - 1) == [Plain(Text(v.members[n - 1].key))] + TokensOf(v.members[n - 1].value) + MemberTokens(v, n)
  {
  }

  lemma {:induction false} MembersTokenize(v: Json, n: nat)
    requires v.Obj? && n <= |v.members|
    ensures Tokenize(RenderMembers(v, n)) + MemberTokens(v, n) == MemberTokens(v, 0)
    decreases v, 0, n
  {
    hide *;
    if n == 0 {
      NoMembersYet(v);
    } else {
      var member := v.members[n - 1];
      MemberStep(v, n);
      MembersTokenize(v, n - 1);
      SeparatorsVanish(n);
      RenderTokenizes(member.value);
      KeyTokenizes(member.key);
      var key, value, rest := [Plain(Text(member.key))], TokensOf(member.value), MemberTokens(v, n);
      var head := [Value(Text(member.key)), Colon];
      Append(RenderMembers(v, n - 1) + Separator(n) + head, Render(member.value), value, rest);
      Append(RenderMembers(v, n - 1) + Separator(n), head, key, value + rest);
      Append(RenderMembers(v, n - 1), Separator(n), [], key + (value + rest));
      assert [] + (key + (value + rest)) == key + value + rest;
    }
  }

  lemma KeyTokenizes(key: string)
    ensures Tokenize([Value(Text(key)), Colon]) == [Plain(Text(key))]
  {
    assert [Value(Text(key)), Colon] == [Value(Text(key))] + [Colon];
    TokenizeConcatenates([Value(Text(key))], [Colon]);
    TokenizeOne(Value(Text(key)));
    TokenizeOne(Colon);
  }
}
