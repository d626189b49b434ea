/**
 Reading JSON tokens: the decoder that encoding/json provides, and the loop that
 skips a value without keeping it (pkg/hash_persistence.go: skipPersistedValue).
 */
module JsonReader {
  import opened Wrappers
  import opened Json

  // ---------- Reading one value ----------

  function ParseValue(tokens: seq<Token>): (parsed: Option<(Json, seq<Token>)>)
    ensures parsed.Some? ==> |parsed.value.1| < |tokens|
    decreases |tokens|, 0
  {
    if tokens == [] then None
    else match tokens[0]
      case Plain(atom) => Some((Scalar(atom), tokens[1..]))
      case BeginArray =>
        (match ParseItems(tokens[1..], [])
         case None => None
         case Some((items, rest)) => Some((Arr(items), rest)))
      case BeginObject =>
        (match ParseMembers(tokens[1..], [])
         case None => None
         case Some((members, rest)) => Some((Obj(members), rest)))
      case _ => None
  }

  function ParseItems(tokens: seq<Token>, done: seq<Json>): (parsed: Option<(seq<Json>, seq<Token>)>)
    ensures parsed.Some? ==> |parsed.value.1| < |tokens|
    decreases |tokens|, 1
  {
    if tokens == [] then None
    else if tokens[0] == EndArray then Some((done, tokens[1..]))
    else match ParseValue(tokens)
      case None => None
      case Some((item, rest)) => ParseItems(rest, done + [item])
  }

  function ParseMembers(tokens: seq<Token>, done: seq<Member>): (parsed: Option<(seq<Member>, seq<Token>)>)
    ensures parsed.Some? ==> |parsed.value.1| < |tokens|
    decreases |tokens|, 1
  {
    if tokens == [] then None
    else match tokens[0]
      case EndObject => Some((done, tokens[1..]))
      case Plain(Text(key)) =>
        (match ParseValue(tokens[1..])
         case None => None
         case Some((value, rest)) => ParseMembers(rest, done + [Member(key, value)]))
      case _ => None
  }

  /** Reading the tokens of a value gives the value and leaves what follows. */
  lemma {:induction false} ValueIsRead(v: Json, rest: seq<Token>)
    ensures ParseValue(TokensOf(v) + rest) == Some((v, rest))
    decreases v, 1, 0
  {
    hide ItemTokens, MemberTokens, ParseItems, ParseMembers;
    match v {
      case Scalar(_) =>
      case Arr(items) =>
        ItemsAreRead(v, 0, rest);
        assert TokensOf(v) + rest == [BeginArray] + (ItemTokens(v, 0) + [EndArray] + rest);
      case Obj(members) =>
        MembersAreRead(v, 0, rest);
        assert TokensOf(v) + rest == [BeginObject] + (MemberTokens(v, 0) + [EndObject] + rest);
    }
  }

  lemma {:induction false} ItemsAreRead(v: Json, i: nat, rest: seq<Token>)
    requires v.Arr? && i <= |v.items|
    ensures ParseItems(ItemTokens(v, i) + [EndArray] + rest, v.items[..i]) == Some((v.items, rest))
    decreases v, 0, |v.items| - i
  {
    hide TokensOf, ParseValue;
    if i == |v.items| {
      assert v.items[..i] == v.items;
      assert ItemTokens(v, i) + [EndArray] + rest == [EndArray] + rest;
    } else {
      var item, more := v.items[i], ItemTokens(v, i + 1) + [EndArray] + rest;
      assert ItemTokens(v, i) + [EndArray] + rest == TokensOf(item) + more;
      ValueIsRead(item, more);
      StartsValue(item, more);
      ItemsAreRead(v, i + 1, rest);
      assert v.items[..i] + [item] == v.items[..i + 1];
    }
  }

  lemma StartsValue(v: Json, more: seq<Token>)
    ensures TokensOf(v) != [] && (TokensOf(v) + more)[0] != EndArray
  {
  }

  lemma {:induction false} MembersAreRead(v: Json, i: nat, rest: seq<Token>)
    requires v.Obj? && i <= |v.members|
    ensures ParseMembers(MemberTokens(v, i) + [EndObject] + rest, v.members[..i]) == Some((v.members, rest))
    decreases v, 0, |v.members| - i
  {
    hide TokensOf, ParseValue;
    if i == |v.members| {
      assert v.members[..i] == v.members;
      assert MemberTokens(v, i) + [EndObject] + rest == [EndObject] + rest;
    } else {
      var member, more := v.members[i], MemberTokens(v, i + 1) + [EndObject] + rest;
      MemberIsNext(v, i, [EndObject] + rest);
      assert MemberTokens(v, i) + [EndObject] + rest == MemberTokens(v, i) + ([EndObject] + rest);
      assert MemberTokens(v, i + 1) + ([EndObject] + rest) == more;
      ValueIsRead(member.value, more);
      MembersAreRead(v, i + 1, rest);
      assert v.members[..i] + [Member(member.key, member.value)] == v.members[..i + 1];
    }
  }

  lemma MemberIsNext(v: Json, i: nat, rest: seq<Token>)
    requires v.Obj? && i < |v.members|
    ensures MemberTokens(v, i) + rest
            == [Plain(Text(v.members[i].key))] + (TokensOf(v.members[i].value) + (MemberTokens(v, i + 1) + rest))
  {
  }

  // ---------- Skipping one value ----------

  function DepthAfter(token: Token, depth: nat): int {
    match token
    case BeginObject => depth + 1
    case BeginArray => depth + 1
    case EndObject => depth - 1
    case EndArray => depth - 1
    case Plain(_) => depth
  }

  /** Reads tokens until `depth` open brackets are closed. */
  function SkipOpen(tokens: seq<Token>, depth: nat): Option<seq<Token>>
    decreases |tokens|
  {
    if depth == 0 then Some(tokens)
    else if tokens == [] then None
    else SkipOpen(tokens[1..], DepthAfter(tokens[0], depth))
  }

  function SkipValue(tokens: seq<Token>): Option<seq<Token>> {
    if tokens == [] then None
    else if tokens[0] == BeginObject || tokens[0] == BeginArray then SkipOpen(tokens[1..], 1)
    else Some(tokens[1..])
  }

  /** At any nesting depth a value leaves the depth as it was. */
  lemma {:induction false} ValueKeepsDepth(v: Json, rest: seq<Token>, depth: nat)
    requires depth > 0
    ensures SkipOpen(TokensOf(v) + rest, depth) == SkipOpen(rest, depth)
    decreases v, 1, 0
  {
    hide ItemTokens, MemberTokens;
    match v {
      case Scalar(_) =>
      case Arr(items) =>
        ItemsKeepDepth(v, 0, [EndArray] + rest, depth + 1);
        assert TokensOf(v) + rest == [BeginArray] + (ItemTokens(v, 0) + ([EndArray] + rest));
      case Obj(members) =>
        MembersKeepDepth(v, 0, [EndObject] + rest, depth + 1);
        assert TokensOf(v) + rest == [BeginObject] + (MemberTokens(v, 0) + ([EndObject] + rest));
    }
  }

  lemma {:induction false} ItemsKeepDepth(v: Json, i: nat, rest: seq<Token>, depth: nat)
    requires v.Arr? && i <= |v.items| && depth > 0
    ensures SkipOpen(ItemTokens(v, i) + rest, depth) == SkipOpen(rest, depth)
    decreases v, 0, |v.items| - i
  {
    hide TokensOf, SkipOpen;
    if i == |v.items| {
      assert ItemTokens(v, i) + rest == rest;
    } else {
      assert ItemTokens(v, i) + rest == TokensOf(v.items[i]) + (ItemTokens(v, i + 1) + rest);
      ValueKeepsDepth(v.items[i], ItemTokens(v, i + 1) + rest, depth);
      ItemsKeepDepth(v, i + 1, rest, depth);
    }
  }

  lemma {:induction false} MembersKeepDepth(v: Json, i: nat, rest: seq<Token>, depth: nat)
    requires v.Obj? && i <= |v.members| && depth > 0
    ensures SkipOpen(MemberTokens(v, i) + rest, depth) == SkipOpen(rest, depth)
    decreases v, 0, |v.members| - i
  {
    hide TokensOf;
    if i == |v.members| {
      assert MemberTokens(v, i) + rest == rest;
    } else {
      var more := TokensOf(v.members[i].value) + (MemberTokens(v, i + 1) + rest);
      MemberIsNext(v, i, rest);
      assert SkipOpen([Plain(Text(v.members[i].key))] + more, depth) == SkipOpen(more, depth);
      ValueKeepsDepth(v.members[i].value, MemberTokens(v, i + 1) + rest, depth);
      MembersKeepDepth(v, i + 1, rest, depth);
    }
  }

  /** Skipping consumes exactly one value. */
  lemma SkippingConsumesOneValue(v: Json, rest: seq<Token>)
    ensures SkipValue(TokensOf(v) + rest) == Some(rest)
  {
    hide ItemTokens, MemberTokens;
    match v {
      case Scalar(_) =>
      case Arr(items) =>
        ItemsKeepDepth(v, 0, [EndArray] + rest, 1);
        assert TokensOf(v) + rest == [BeginArray] + (ItemTokens(v, 0) + ([EndArray] + rest));
      case Obj(members) =>
        MembersKeepDepth(v, 0, [EndObject] + rest, 1);
        assert TokensOf(v) + rest == [BeginObject] + (MemberTokens(v, 0) + ([EndObject] + rest));
    }
  }

  // ---------- The decoder ----------

  /** A decoder over the tokens of a file. None is a failed read. */
  class Decoder {
    var rest: seq<Token>

    constructor (tokens: seq<Token>)
      ensures rest == tokens
    {
      rest := tokens;
    }

    method Token() returns (token: Option<Token>)
      modifies this
      ensures old(rest) == [] ==> token.None? && rest == []
      ensures old(rest) != [] ==> token == Some(old(rest)[0]) && rest == old(rest)[1..]
    {
      if rest == [] {
        return None;
      }
      token := Some(rest[0]);
      rest := rest[1..];
    }

    /** Whether the object or array being read has another entry. */
    predicate More()
      reads this
    {
      rest != [] && rest[0] != EndObject && rest[0] != EndArray
    }

    method Decode() returns (v: Option<Json>)
      modifies this
      ensures v == match ParseValue(old(rest)) case None => None case Some((value, _)) => Some(value)
      ensures v.Some? ==> rest == ParseValue(old(rest)).value.1
    {
      match ParseValue(rest) {
        case None => v := None;
        case Some((value, more)) =>
          v := Some(value);
          rest := more;
      }
    }

    /** Counts brackets instead of keeping what it reads. */
    method SkipPersistedValue() returns (ok: bool)
      modifies this
      ensures ok <==> SkipValue(old(rest)).Some?
      ensures ok ==> rest == SkipValue(old(rest)).value
    {
      var token := Token();
      if token.None? {
        return false;
      }
      if token.value != BeginObject && token.value != BeginArray {
        return true;
      }
      var depth: nat := 1;
      while depth > 0
        invariant SkipValue(old(rest)) == SkipOpen(rest, depth)
        decreases |rest|, depth
      {
        token := Token();
        if token.None? {
          return false;
        }
        match token.value {
          case BeginObject => depth := depth + 1;
          case BeginArray => depth := depth + 1;
          case EndObject => depth := depth - 1;
          case EndArray => depth := depth - 1;
          case Plain(_) =>
        }
      }
      return true;
    }
  }
}
