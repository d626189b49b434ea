/**
 Reading persisted hash files, whole for a seed or only as far as a diff needs
 (pkg/hash_persistence.go: decodePersistedData, decodePersistedMap,
 loadHashesForDiff).
 */
module PersistedReader {
  import opened Wrappers
  import opened Json
  import opened JsonReader
  import opened PersistedFormat

  datatype Mode = CompleteSeed | HashesForDiff

  const EMPTY := PersistedData(0, "", "", "", "", None, None, None, Metadata("", "", 0))

  // ---------- What a document means ----------

  /** A null leaves a string or number as it is. */
  function ReadText(previous: string, v: Json): Option<string> {
    match v
    case Scalar(Text(text)) => Some(text)
    case Scalar(Null) => Some(previous)
    case _ => None
  }

  function ReadNumber(previous: int, v: Json): Option<int> {
    match v
    case Scalar(Number(number)) => Some(number)
    case Scalar(Null) => Some(previous)
    case _ => None
  }

  /** Entries of the members from `i` on, added to `m`; a repeated key replaces. */
  function MergeMembers<V>(m: map<string, V>, members: seq<Member>, i: nat,
                           read: Json -> Option<V>): Option<map<string, V>>
    requires i <= |members|
    decreases |members| - i
  {
    if i == |members| then Some(m)
    else match read(members[i].value)
      case None => None
      case Some(x) => MergeMembers(m[members[i].key := x], members, i + 1, read)
  }

  /** A null clears the map; an object merges into it, so repeated fields accumulate. */
  function ReadMap<V>(previous: Option<map<string, V>>, v: Json,
                      read: Json -> Option<V>): Option<Option<map<string, V>>> {
    match v
    case Scalar(Null) => Some(None)
    case Obj(members) =>
      (match MergeMembers(if previous.Some? then previous.value else map[], members, 0, read)
       case None => None
       case Some(m) => Some(Some(m)))
    case _ => None
  }

  function SetField(library: Library, data: PersistedData, field: Field, v: Json): Option<PersistedData> {
    match field
    case FormatVersion => (match ReadNumber(data.version, v) case None => None case Some(x) => Some(data.(version := x)))
    case Fingerprint => (match ReadText(data.fingerprint, v) case None => None case Some(x) => Some(data.(fingerprint := x)))
    case CommitSha => (match ReadText(data.commit, v) case None => None case Some(x) => Some(data.(commit := x)))
    case Timestamp => (match ReadText(data.timestamp, v) case None => None case Some(x) => Some(data.(timestamp := x)))
    case Release => (match ReadText(data.release, v) case None => None case Some(x) => Some(data.(release := x)))
    case TargetHashes =>
      (match ReadMap(data.targetHashes, v, library.readHashes) case None => None case Some(x) => Some(data.(targetHashes := x)))
    case TargetEdges =>
      (match ReadMap(data.edges, v, library.readLabels) case None => None case Some(x) => Some(data.(edges := x)))
    case DependencyHashes =>
      (match ReadMap(data.dependencyHashes, v, library.readHashes)
       case None => None
       case Some(x) => Some(data.(dependencyHashes := x)))
    case MetadataField =>
      (match library.readMetadata(data.metadata, v) case None => None case Some(x) => Some(data.(metadata := x)))
  }

  /** The first field whose name equals `name` up to case, from the i-th field on. */
  function FieldFrom(library: Library, name: string, i: nat): Option<Field>
    requires i <= |FIELDS|
    decreases |FIELDS| - i
  {
    if i == |FIELDS| then None
    else if library.fold(name) == library.fold(NameOf(FIELDS[i])) then Some(FIELDS[i])
    else FieldFrom(library, name, i + 1)
  }

  /** The field a name selects in a mode; everything else is skipped. */
  function FieldOf(library: Library, name: string, mode: Mode): Option<Field> {
    var field := FieldFrom(library, name, 0);
    if field.Some? && mode.HashesForDiff? && field.value != CommitSha && field.value != TargetHashes then None else field
  }

  /** The differ stops as soon as it has a commit and target hashes. */
  predicate IsEnough(data: PersistedData, mode: Mode) {
    mode.HashesForDiff? && data.commit != "" && data.targetHashes.Some?
  }

  /** The members from `i` on. */
  function ReadMembers(library: Library, data: PersistedData, members: seq<Member>, i: nat,
                       mode: Mode): Option<PersistedData>
    requires i <= |members|
    decreases |members| - i
  {
    if i == |members| then Some(data)
    else
      match FieldOf(library, members[i].key, mode)
      case None => ReadMembers(library, data, members, i + 1, mode)
      case Some(field) =>
        match SetField(library, data, field, members[i].value)
        case None => None
        case Some(next) =>
          if IsEnough(next, mode) then Some(next) else ReadMembers(library, next, members, i + 1, mode)
  }

  // ---------- What the definitions above mean ----------

  /** A name selects the field that it equals up to case; the differ looks for two of them only. */
  lemma NamesSelectFields(library: Library, name: string)
    requires library.Faithful()
    ensures var fold, field := library.fold, FieldOf(library, name, CompleteSeed);
            && (fold(name) == fold("format_version") ==> field == Some(FormatVersion))
            && (fold(name) == fold("seed_compatibility_fingerprint") ==> field == Some(Fingerprint))
            && (fold(name) == fold("git_commit_sha") ==> field == Some(CommitSha))
            && (fold(name) == fold("timestamp") ==> field == Some(Timestamp))
            && (fold(name) == fold("bazel_release") ==> field == Some(Release))
            && (fold(name) == fold("target_hashes") ==> field == Some(TargetHashes))
            && (fold(name) == fold("target_edges") ==> field == Some(TargetEdges))
            && (fold(name) == fold("dependency_hashes") ==> field == Some(DependencyHashes))
            && (fold(name) == fold("metadata") ==> field == Some(MetadataField))
            && (field.Some? ==> fold(name) == fold(NameOf(field.value)))
    ensures var fold, field := library.fold, FieldOf(library, name, HashesForDiff);
            && (fold(name) == fold("git_commit_sha") <==> field == Some(CommitSha))
            && (fold(name) == fold("target_hashes") <==> field == Some(TargetHashes))
            && (field.Some? ==> field.value in {CommitSha, TargetHashes})
  {
    FieldNames();
    hide NameOf, FieldFrom, Library.Faithful;
    SelectedByName(library, name, 0);
    SelectedByName(library, name, 1);
    SelectedByName(library, name, 2);
    SelectedByName(library, name, 3);
    SelectedByName(library, name, 4);
    SelectedByName(library, name, 5);
    SelectedByName(library, name, 6);
    SelectedByName(library, name, 7);
    SelectedByName(library, name, 8);
    SelectedHasName(library, name, 0);
  }

  lemma SelectedByName(library: Library, name: string, n: nat)
    requires library.Faithful() && n < |FIELDS|
    ensures library.fold(name) == library.fold(NameOf(FIELDS[n])) ==> FieldFrom(library, name, 0) == Some(FIELDS[n])
  {
    hide NameOf, Library.Faithful;
    if library.fold(name) == library.fold(NameOf(FIELDS[n])) {
      FieldIsFound(library, n, 0);
      FoldDecides(library, name, NameOf(FIELDS[n]), 0);
    }
  }

  lemma {:induction false} FoldDecides(library: Library, name: string, other: string, i: nat)
    requires library.fold(name) == library.fold(other) && i <= |FIELDS|
    ensures FieldFrom(library, name, i) == FieldFrom(library, other, i)
    decreases |FIELDS| - i
  {
    hide NameOf;
    if i < |FIELDS| {
      FoldDecides(library, name, other, i + 1);
    }
  }

  lemma {:induction false} SelectedHasName(library: Library, name: string, i: nat)
    requires i <= |FIELDS|
    ensures FieldFrom(library, name, i).Some? ==> library.fold(name) == library.fold(NameOf(FieldFrom(library, name, i).value))
    decreases |FIELDS| - i
  {
    hide NameOf;
    if i < |FIELDS| {
      SelectedHasName(library, name, i + 1);
    }
  }

  /** A null leaves texts and numbers alone and clears maps. */
  lemma NullIsRead(library: Library, data: PersistedData, field: Field)
    requires field != MetadataField
    ensures SetField(library, data, field, Scalar(Null))
            == Some(match field
                    case TargetHashes => data.(targetHashes := None)
                    case TargetEdges => data.(edges := None)
                    case DependencyHashes => data.(dependencyHashes := None)
                    case _ => data)
  {
  }

  /** The values that a field other than the metadata accepts. */
  ghost predicate IsReadable(library: Library, field: Field, v: Json) {
    || v == Scalar(Null)
    || match field
       case FormatVersion => v.Scalar? && v.atom.Number?
       case TargetHashes => v.Obj? && forall member | member in v.members :: library.readHashes(member.value).Some?
       case TargetEdges => v.Obj? && forall member | member in v.members :: library.readLabels(member.value).Some?
       case DependencyHashes => v.Obj? && forall member | member in v.members :: library.readHashes(member.value).Some?
       case _ => v.Scalar? && v.atom.Text?
  }

  lemma {:induction false} EveryEntryIsRead<V>(m: map<string, V>, members: seq<Member>, i: nat, read: Json -> Option<V>)
    requires i <= |members|
    ensures MergeMembers(m, members, i, read).Some? <==> forall j | i <= j < |members| :: read(members[j].value).Some?
    decreases |members| - i
  {
    if i < |members| && read(members[i].value).Some? {
      EveryEntryIsRead(m[members[i].key := read(members[i].value).value], members, i + 1, read);
    }
  }

  /** A value of another type, or one entry that cannot be read, is an error, whatever was read before. */
  lemma FieldIsSetIff(library: Library, data: PersistedData, field: Field, v: Json)
    requires field != MetadataField
    ensures SetField(library, data, field, v).Some? <==> IsReadable(library, field, v)
  {
    if v.Obj? {
      EveryEntryIsRead(if data.targetHashes.Some? then data.targetHashes.value else map[], v.members, 0, library.readHashes);
      EveryEntryIsRead(if data.edges.Some? then data.edges.value else map[], v.members, 0, library.readLabels);
      EveryEntryIsRead(if data.dependencyHashes.Some? then data.dependencyHashes.value else map[], v.members, 0,
                       library.readHashes);
    }
    hide MergeMembers;
  }

  /** One such value makes the whole file unreadable as a seed. */
  lemma {:induction false} UnreadableFieldIsFatal(library: Library, data: PersistedData, members: seq<Member>, i: nat, j: nat,
                                                  field: Field)
    requires i <= j < |members| && FieldOf(library, members[j].key, CompleteSeed) == Some(field)
    requires field != MetadataField && !IsReadable(library, field, members[j].value)
    ensures ReadMembers(library, data, members, i, CompleteSeed).None?
    decreases j - i
  {
    hide FieldOf, SetField, IsReadable;
    if i == j {
      FieldIsSetIff(library, data, field, members[j].value);
    } else {
      var next := FieldOf(library, members[i].key, CompleteSeed);
      if next.None? {
        UnreadableFieldIsFatal(library, data, members, i + 1, j, field);
      } else if SetField(library, data, next.value, members[i].value).Some? {
        UnreadableFieldIsFatal(library, SetField(library, data, next.value, members[i].value).value, members, i + 1, j, field);
      }
    }
  }

  ghost predicate IsKey(members: seq<Member>, i: nat, key: string) {
    exists j :: i <= j < |members| && members[j].key == key
  }

  lemma NoMoreMembers<V>(m: map<string, V>, members: seq<Member>, read: Json -> Option<V>)
    ensures MergeMembers(m, members, |members|, read) == Some(m) && forall key :: !IsKey(members, |members|, key)
  {
  }

  lemma NextMember<V>(m: map<string, V>, members: seq<Member>, i: nat, read: Json -> Option<V>)
    requires i < |members| && MergeMembers(m, members, i, read).Some?
    ensures var x := read(members[i].value);
            x.Some? && MergeMembers(m[members[i].key := x.value], members, i + 1, read) == MergeMembers(m, members, i, read)
    ensures forall key :: IsKey(members, i, key) <==> key == members[i].key || IsKey(members, i + 1, key)
  {
  }

  /** A repeated field adds to what its earlier occurrences gave: their other entries stay. */
  lemma {:induction false} RepeatedFieldsAccumulate<V>(m: map<string, V>, members: seq<Member>, i: nat, read: Json -> Option<V>)
    requires i <= |members| && MergeMembers(m, members, i, read).Some?
    ensures var merged := MergeMembers(m, members, i, read).value;
            && (forall key :: key in merged <==> key in m || IsKey(members, i, key))
            && (forall key | key in m && !IsKey(members, i, key) :: merged[key] == m[key])
            && (forall j | i <= j < |members| && !IsKey(members, j + 1, members[j].key) ::
                  Some(merged[members[j].key]) == read(members[j].value))
    decreases |members| - i
  {
    hide MergeMembers, IsKey;
    if i == |members| {
      NoMoreMembers(m, members, read);
    } else {
      NextMember(m, members, i, read);
      RepeatedFieldsAccumulate(m[members[i].key := read(members[i].value).value], members, i + 1, read);
    }
  }

  /** So if a map occurs again, the result has the keys of both, the later values winning, unless the later one is null. */
  lemma RepeatedMapIsMerged<V>(previous: map<string, V>, members: seq<Member>, read: Json -> Option<V>)
    requires ReadMap(Some(previous), Obj(members), read).Some?
    ensures var merged := ReadMap(Some(previous), Obj(members), read).value;
            && merged.Some?
            && (forall key :: key in merged.value <==> key in previous || IsKey(members, 0, key))
            && (forall key | key in previous && !IsKey(members, 0, key) :: merged.value[key] == previous[key])
    ensures ReadMap(Some(previous), Scalar(Null), read) == Some(None)
  {
    RepeatedFieldsAccumulate(previous, members, 0, read);
    hide MergeMembers, IsKey;
  }

  lemma OneFieldIsRead(library: Library, name: string, field: Field, v: Json, rest: seq<Token>, data: PersistedData,
                       next: PersistedData, mode: Mode)
    requires FieldOf(library, name, mode) == Some(field) && SetField(library, data, field, v) == Some(next)
    ensures ReadObject(library, [Plain(Text(name))] + (TokensOf(v) + rest), data, mode)
            == if IsEnough(next, mode) then Some(next) else ReadObject(library, rest, next, mode)
  {
    hide TokensOf, ReadField, FieldOf, SetField, IsEnough, Skip;
    FieldIsRead(library, v, rest, data, field, mode);
    assert ([Plain(Text(name))] + (TokensOf(v) + rest))[1..] == TokensOf(v) + rest;
  }

  /** The differ reads nothing beyond a commit followed by target hashes, whatever comes next. */
  lemma DifferStopsEarly(library: Library, commit: string, hashes: Json, garbage: seq<Token>)
    requires library.Faithful() && commit != "" && hashes.Obj? && ReadMap(None, hashes, library.readHashes).Some?
    ensures ReadDocument(library, [BeginObject] + ([Plain(Text("git_commit_sha"))] + ([Plain(Text(commit))]
                                  + ([Plain(Text("target_hashes"))] + (TokensOf(hashes) + garbage)))), HashesForDiff)
            == Some(EMPTY.(commit := commit, targetHashes := ReadMap(None, hashes, library.readHashes).value))
  {
    hide FieldOf, Library.Faithful, ReadMap, ReadObject, TokensOf, SetField, IsEnough;
    NamesSelectFields(library, "git_commit_sha");
    NamesSelectFields(library, "target_hashes");
    var value, next := Scalar(Text(commit)), EMPTY.(commit := commit);
    var all := next.(targetHashes := ReadMap(None, hashes, library.readHashes).value);
    TheDiffersFields(library, commit, hashes);
    var rest := [Plain(Text("target_hashes"))] + (TokensOf(hashes) + garbage);
    OneFieldIsRead(library, "git_commit_sha", CommitSha, value, rest, EMPTY, next, HashesForDiff);
    OneFieldIsRead(library, "target_hashes", TargetHashes, hashes, garbage, next, all, HashesForDiff);
  }

  lemma TheDiffersFields(library: Library, commit: string, hashes: Json)
    requires commit != "" && hashes.Obj? && ReadMap(None, hashes, library.readHashes).Some?
    ensures var value, next := Scalar(Text(commit)), EMPTY.(commit := commit);
            var all := next.(targetHashes := ReadMap(None, hashes, library.readHashes).value);
            && TokensOf(value) == [Plain(Text(commit))]
            && SetField(library, EMPTY, CommitSha, value) == Some(next) && !IsEnough(next, HashesForDiff)
            && SetField(library, next, TargetHashes, hashes) == Some(all) && IsEnough(all, HashesForDiff)
  {
    hide MergeMembers;
  }

  lemma FieldNames()
    ensures NameOf(FormatVersion) == "format_version" && NameOf(Fingerprint) == "seed_compatibility_fingerprint"
    ensures NameOf(CommitSha) == "git_commit_sha" && NameOf(Timestamp) == "timestamp" && NameOf(Release) == "bazel_release"
    ensures NameOf(TargetHashes) == "target_hashes" && NameOf(TargetEdges) == "target_edges"
    ensures NameOf(DependencyHashes) == "dependency_hashes" && NameOf(MetadataField) == "metadata"
  {
  }

  // ---------- Reading tokens ----------

  /** Entries of a map until its end, one value at a time. */
  function ReadEntries<V>(tokens: seq<Token>, m: map<string, V>,
                          read: Json -> Option<V>): (r: Option<(map<string, V>, seq<Token>)>)
    ensures r.Some? ==> |r.value.1| < |tokens|
    decreases |tokens|
  {
    if tokens == [] then None
    else match tokens[0]
      case EndObject => Some((m, tokens[1..]))
      case Plain(Text(key)) =>
        (match ParseValue(tokens[1..])
         case None => None
         case Some((v, rest)) =>
           match read(v)
           case None => None
           case Some(x) => ReadEntries(rest, m[key := x], read))
      case _ => None
  }

  function ReadStream<V>(tokens: seq<Token>, previous: Option<map<string, V>>, read: Json -> Option<V>)
    : (r: Option<(Option<map<string, V>>, seq<Token>)>)
    ensures r.Some? ==> |r.value.1| < |tokens|
  {
    if tokens == [] then None
    else match tokens[0]
      case Plain(Null) => Some((None, tokens[1..]))
      case BeginObject =>
        (match ReadEntries(tokens[1..], if previous.Some? then previous.value else map[], read)
         case None => None
         case Some((m, rest)) => Some((Some(m), rest)))
      case _ => None
  }

  lemma {:induction false} EntriesAreRead<V>(v: Json, i: nat, rest: seq<Token>, m: map<string, V>,
                                             read: Json -> Option<V>)
    requires v.Obj? && i <= |v.members|
    ensures ReadEntries(MemberTokens(v, i) + ([EndObject] + rest), m, read)
            == match MergeMembers(m, v.members, i, read) case None => None case Some(r) => Some((r, rest))
    decreases |v.members| - i
  {
    hide TokensOf, ParseValue;
    if i == |v.members| {
      assert MemberTokens(v, i) + ([EndObject] + rest) == [EndObject] + rest;
    } else {
      MemberIsNext(v, i, [EndObject] + rest);
      ValueIsRead(v.members[i].value, MemberTokens(v, i + 1) + ([EndObject] + rest));
      var x := read(v.members[i].value);
      if x.Some? {
        EntriesAreRead(v, i + 1, rest, m[v.members[i].key := x.value], read);
      }
    }
  }

  /** Decoding a map entry by entry gives what decoding it whole gives. */
  lemma StreamingEqualsBulk<V>(v: Json, rest: seq<Token>, previous: Option<map<string, V>>, read: Json -> Option<V>)
    ensures ReadStream(TokensOf(v) + rest, previous, read)
            == match ReadMap(previous, v, read) case None => None case Some(r) => Some((r, rest))
  {
    hide ReadEntries, MergeMembers, MemberTokens, ItemTokens;
    if v.Obj? {
      EntriesAreRead(v, 0, rest, if previous.Some? then previous.value else map[], read);
      assert TokensOf(v) + rest == [BeginObject] + (MemberTokens(v, 0) + ([EndObject] + rest));
    }
  }

  /** Reads the value of one field: large maps of a seed entry by entry, everything else whole. */
  function ReadField(library: Library, tokens: seq<Token>, data: PersistedData, field: Field, mode: Mode)
    : (r: Option<(PersistedData, seq<Token>)>)
    ensures r.Some? ==> |r.value.1| < |tokens|
  {
    if mode.HashesForDiff? || !IsStreamed(field) then
      match ParseValue(tokens)
      case None => None
      case Some((v, rest)) =>
        (match SetField(library, data, field, v) case None => None case Some(next) => Some((next, rest)))
    else if field == TargetEdges then
      (match ReadStream(tokens, data.edges, library.readLabels)
       case None => None
       case Some((m, rest)) => Some((data.(edges := m), rest)))
    else if field == TargetHashes then
      (match ReadStream(tokens, data.targetHashes, library.readHashes)
       case None => None
       case Some((m, rest)) => Some((data.(targetHashes := m), rest)))
    else
      (match ReadStream(tokens, data.dependencyHashes, library.readHashes)
       case None => None
       case Some((m, rest)) => Some((data.(dependencyHashes := m), rest)))
  }

  lemma FieldIsRead(library: Library, v: Json, rest: seq<Token>, data: PersistedData, field: Field, mode: Mode)
    ensures ReadField(library, TokensOf(v) + rest, data, field, mode)
            == match SetField(library, data, field, v) case None => None case Some(next) => Some((next, rest))
  {
    hide TokensOf, ReadStream, ReadMap, ParseValue;
    ValueIsRead(v, rest);
    StreamingEqualsBulk(v, rest, data.edges, library.readLabels);
    StreamingEqualsBulk(v, rest, data.targetHashes, library.readHashes);
    StreamingEqualsBulk(v, rest, data.dependencyHashes, library.readHashes);
  }

  function Skip(tokens: seq<Token>, mode: Mode): (r: Option<seq<Token>>)
    ensures r.Some? ==> |r.value| < |tokens|
  {
    if mode.HashesForDiff? then match ParseValue(tokens) case None => None case Some((_, rest)) => Some(rest)
    else
      SkipShortens(tokens);
      SkipValue(tokens)
  }

  lemma SkipShortens(tokens: seq<Token>)
    ensures SkipValue(tokens).Some? ==> |SkipValue(tokens).value| < |tokens|
  {
    if tokens != [] {
      SkipOpenShortens(tokens[1..], 1);
    }
  }

  lemma {:induction false} SkipOpenShortens(tokens: seq<Token>, depth: nat)
    ensures SkipOpen(tokens, depth).Some? ==> |SkipOpen(tokens, depth).value| <= |tokens|
    decreases |tokens|
  {
    if depth > 0 && tokens != [] {
      SkipOpenShortens(tokens[1..], DepthAfter(tokens[0], depth));
    }
  }

  /** The fields of a document after its opening brace. */
  function ReadObject(library: Library, tokens: seq<Token>, data: PersistedData, mode: Mode): Option<PersistedData>
    decreases |tokens|
  {
    if tokens == [] then None
    else match tokens[0]
      case EndObject => Some(data)
      case Plain(Text(name)) =>
        (match FieldOf(library, name, mode)
         case None =>
           (match Skip(tokens[1..], mode) case None => None case Some(rest) => ReadObject(library, rest, data, mode))
         case Some(field) =>
           match ReadField(library, tokens[1..], data, field, mode)
           case None => None
           case Some((next, rest)) => if IsEnough(next, mode) then Some(next) else ReadObject(library, rest, next, mode))
      case _ => None
  }

  function ReadDocument(library: Library, tokens: seq<Token>, mode: Mode): Option<PersistedData> {
    if tokens == [] then None
    else match tokens[0]
      case Plain(Null) => Some(EMPTY)
      case BeginObject => ReadObject(library, tokens[1..], EMPTY, mode)
      case _ => None
  }

  lemma {:induction false} ObjectIsRead(library: Library, v: Json, i: nat, rest: seq<Token>, data: PersistedData,
                                        mode: Mode)
    requires v.Obj? && i <= |v.members|
    ensures ReadObject(library, MemberTokens(v, i) + ([EndObject] + rest), data, mode) == ReadMembers(library, data, v.members, i, mode)
    decreases |v.members| - i
  {
    hide TokensOf, ReadField, Skip, FieldOf, SetField, IsEnough, ParseValue;
    if i == |v.members| {
      assert MemberTokens(v, i) + ([EndObject] + rest) == [EndObject] + rest;
    } else {
      var more := MemberTokens(v, i + 1) + ([EndObject] + rest);
      MemberIsNext(v, i, [EndObject] + rest);
      ValueIsSkipped(v.members[i].value, more, mode);
      var field := FieldOf(library, v.members[i].key, mode);
      if field.None? {
        ObjectIsRead(library, v, i + 1, rest, data, mode);
      } else {
        FieldIsRead(library, v.members[i].value, more, data, field.value, mode);
        var next := SetField(library, data, field.value, v.members[i].value);
        if next.Some? {
          ObjectIsRead(library, v, i + 1, rest, next.value, mode);
        }
      }
    }
  }

  lemma ValueIsSkipped(v: Json, rest: seq<Token>, mode: Mode)
    ensures Skip(TokensOf(v) + rest, mode) == Some(rest)
  {
    hide TokensOf, SkipValue, ParseValue;
    ValueIsRead(v, rest);
    SkippingConsumesOneValue(v, rest);
  }

  /** Both readers understand every document, with its fields in any order and unknown ones among them. */
  lemma DocumentIsRead(library: Library, v: Json, rest: seq<Token>, mode: Mode)
    requires v.Obj?
    ensures ReadDocument(library, TokensOf(v) + rest, mode) == ReadMembers(library, EMPTY, v.members, 0, mode)
  {
    hide ReadObject, ReadMembers, MemberTokens, ItemTokens;
    ObjectIsRead(library, v, 0, rest, EMPTY, mode);
    assert TokensOf(v) + rest == [BeginObject] + (MemberTokens(v, 0) + ([EndObject] + rest));
  }

  // ---------- The loops of the source ----------

  method DecodePersistedMap<V>(decoder: Decoder, previous: Option<map<string, V>>, read: Json -> Option<V>)
    returns (ok: bool, m: Option<map<string, V>>)
    modifies decoder
    ensures ok <==> ReadStream(old(decoder.rest), previous, read).Some?
    ensures ok ==> ReadStream(old(decoder.rest), previous, read) == Some((m, decoder.rest))
  {
    m := previous;
    var token := decoder.Token();
    if token.None? {
      return false, m;
    }
    if token.value == Plain(Null) {
      return true, None;
    }
    if token.value != BeginObject {
      return false, m;
    }
    var entries := if previous.Some? then previous.value else map[];
    while decoder.More()
      invariant ReadEntries(old(decoder.rest)[1..], if previous.Some? then previous.value else map[], read)
             == ReadEntries(decoder.rest, entries, read)
      decreases |decoder.rest|
    {
      token := decoder.Token();
      if !token.value.Plain? || !token.value.atom.Text? {
        return false, m;
      }
      var v := decoder.Decode();
      if v.None? {
        return false, m;
      }
      var x := read(v.value);
      if x.None? {
        return false, m;
      }
      entries := entries[token.value.atom.text := x.value];
    }
    token := decoder.Token();
    if token != Some(EndObject) {
      return false, m;
    }
    return true, Some(entries);
  }

  method DecodeField(library: Library, decoder: Decoder, data: PersistedData, field: Field, mode: Mode)
    returns (ok: bool, next: PersistedData)
    modifies decoder
    ensures ok <==> ReadField(library, old(decoder.rest), data, field, mode).Some?
    ensures ok ==> ReadField(library, old(decoder.rest), data, field, mode) == Some((next, decoder.rest))
  {
    hide ReadStream, ParseValue, ReadMap;
    next := data;
    if mode.HashesForDiff? || !IsStreamed(field) {
      var v := decoder.Decode();
      if v.None? {
        return false, data;
      }
      var result := SetField(library, data, field, v.value);
      return result.Some?, if result.Some? then result.value else data;
    }
    if field == TargetEdges {
      var edges;
      ok, edges := DecodePersistedMap(decoder, data.edges, library.readLabels);
      next := data.(edges := edges);
    } else if field == TargetHashes {
      var hashes;
      ok, hashes := DecodePersistedMap(decoder, data.targetHashes, library.readHashes);
      next := data.(targetHashes := hashes);
    } else {
      var hashes;
      ok, hashes := DecodePersistedMap(decoder, data.dependencyHashes, library.readHashes);
      next := data.(dependencyHashes := hashes);
    }
  }

  /** Looks the name up in declaration order; the differ takes only the two fields it needs. */
  method FindField(library: Library, name: string, mode: Mode) returns (field: Option<Field>)
    ensures field == FieldOf(library, name, mode)
  {
    for i := 0 to |FIELDS|
      invariant FieldFrom(library, name, 0) == FieldFrom(library, name, i)
    {
      if library.fold(name) == library.fold(NameOf(FIELDS[i])) {
        if mode.HashesForDiff? && FIELDS[i] != CommitSha && FIELDS[i] != TargetHashes {
          return None;
        }
        return Some(FIELDS[i]);
      }
    }
    return None;
  }

  method SkipField(decoder: Decoder, mode: Mode) returns (ok: bool)
    modifies decoder
    ensures ok <==> Skip(old(decoder.rest), mode).Some?
    ensures ok ==> Skip(old(decoder.rest), mode) == Some(decoder.rest)
  {
    if mode.HashesForDiff? {
      var skipped := decoder.Decode();
      return skipped.Some?;
    }
    ok := decoder.SkipPersistedValue();
  }

  /** Walks the fields of a document. */
  method DecodePersistedData(library: Library, decoder: Decoder, mode: Mode) returns (result: Option<PersistedData>)
    modifies decoder
    ensures result == ReadDocument(library, old(decoder.rest), mode)
  {
    var token := decoder.Token();
    if token.None? {
      return None;
    }
    if token.value == Plain(Null) {
      return Some(EMPTY);
    }
    if token.value != BeginObject {
      return None;
    }
    var data := EMPTY;
    hide FieldOf, ReadField, Skip, IsEnough;
    while decoder.More()
      invariant ReadObject(library, old(decoder.rest)[1..], EMPTY, mode) == ReadObject(library, decoder.rest, data, mode)
      decreases |decoder.rest|
    {
      token := decoder.Token();
      if !token.value.Plain? || !token.value.atom.Text? {
        return None;
      }
      var field := FindField(library, token.value.atom.text, mode);
      var ok;
      if field.None? {
        ok := SkipField(decoder, mode);
        if !ok {
          return None;
        }
      } else {
        ok, data := DecodeField(library, decoder, data, field.value, mode);
        if !ok {
          return None;
        }
        if IsEnough(data, mode) {
          return Some(data);
        }
      }
    }
    token := decoder.Token();
    return if token == Some(EndObject) then Some(data) else None;
  }

  // ---------- Early stopping ----------

  /** No field occurs twice, under whatever spelling. */
  ghost predicate NoRepeatedFields(library: Library, members: seq<Member>) {
    forall i, j | 0 <= i < j < |members| ::
      FieldFrom(library, members[i].key, 0).None? || FieldFrom(library, members[i].key, 0) != FieldFrom(library, members[j].key, 0)
  }

  ghost predicate Mentions(library: Library, members: seq<Member>, i: nat, field: Field) {
    exists j :: i <= j < |members| && FieldFrom(library, members[j].key, 0) == Some(field)
  }

  predicate SameForDiff(data: PersistedData, other: PersistedData) {
    data.commit == other.commit && data.targetHashes == other.targetHashes
  }

  /** Fields that are no longer mentioned keep their values. */
  lemma {:induction false} UnmentionedIsKept(library: Library, data: PersistedData, members: seq<Member>, i: nat)
    requires i <= |members|
    requires !Mentions(library, members, i, CommitSha) && !Mentions(library, members, i, TargetHashes)
    requires ReadMembers(library, data, members, i, CompleteSeed).Some?
    ensures SameForDiff(ReadMembers(library, data, members, i, CompleteSeed).value, data)
    decreases |members| - i
  {
    hide FieldFrom, ReadMap;
    if i < |members| {
      assert forall field | Mentions(library, members, i + 1, field) :: Mentions(library, members, i, field);
      var field := FieldOf(library, members[i].key, CompleteSeed);
      if field.None? {
        UnmentionedIsKept(library, data, members, i + 1);
      } else {
        UnmentionedIsKept(library, SetField(library, data, field.value, members[i].value).value, members, i + 1);
      }
    }
  }

  /** The two readers in step: whatever the differ has not read yet is still at its zero value. */
  lemma {:induction false} ReadersAgree(
    library: Library, data: PersistedData, other: PersistedData, members: seq<Member>, i: nat)
    requires i <= |members| && NoRepeatedFields(library, members)
    requires ReadMembers(library, data, members, i, CompleteSeed).Some? && SameForDiff(data, other)
    requires Mentions(library, members, i, CommitSha) ==> other.commit == ""
    requires Mentions(library, members, i, TargetHashes) ==> other.targetHashes.None?
    ensures ReadMembers(library, other, members, i, HashesForDiff).Some?
    ensures SameForDiff(ReadMembers(library, data, members, i, CompleteSeed).value,
                        ReadMembers(library, other, members, i, HashesForDiff).value)
    decreases |members| - i
  {
    hide FieldFrom, ReadMap, NoRepeatedFields;
    if i < |members| {
      var key, v := members[i].key, members[i].value;
      var field := FieldFrom(library, key, 0);
      assert forall field | Mentions(library, members, i + 1, field) :: Mentions(library, members, i, field);
      if field.None? {
        ReadersAgree(library, data, other, members, i + 1);
      } else {
        NotMentionedAgain(library, members, i);
        assert Mentions(library, members, i, field.value);
        var next := SetField(library, data, field.value, v).value;
        if field.value == CommitSha || field.value == TargetHashes {
          ReadersAgreeOnField(library, data, other, field.value, v);
          var otherNext := SetField(library, other, field.value, v).value;
          if IsEnough(otherNext, HashesForDiff) {
            UnmentionedIsKept(library, next, members, i + 1);
          } else {
            ReadersAgree(library, next, otherNext, members, i + 1);
          }
        } else {
          ReadersAgree(library, next, other, members, i + 1);
        }
      }
    }
  }

  lemma NotMentionedAgain(library: Library, members: seq<Member>, i: nat)
    requires i < |members| && NoRepeatedFields(library, members) && FieldFrom(library, members[i].key, 0).Some?
    ensures !Mentions(library, members, i + 1, FieldFrom(library, members[i].key, 0).value)
  {
  }

  lemma ReadersAgreeOnField(library: Library, data: PersistedData, other: PersistedData, field: Field, v: Json)
    requires field == CommitSha || field == TargetHashes
    requires SameForDiff(data, other) && SetField(library, data, field, v).Some?
    ensures SetField(library, other, field, v).Some?
    ensures SameForDiff(SetField(library, data, field, v).value, SetField(library, other, field, v).value)
    ensures field == CommitSha ==> SetField(library, other, field, v).value.targetHashes == other.targetHashes
    ensures field == TargetHashes ==> SetField(library, other, field, v).value.commit == other.commit
  {
  }

  /**
   For every document without repeated fields, in every field order, the differ's
   early-stopping reader finds the commit and the target hashes that the complete
   reader finds.
   */
  lemma EarlyStoppingAgrees(library: Library, v: Json, rest: seq<Token>)
    requires v.Obj? && NoRepeatedFields(library, v.members)
    requires ReadDocument(library, TokensOf(v) + rest, CompleteSeed).Some?
    ensures ReadDocument(library, TokensOf(v) + rest, HashesForDiff).Some?
    ensures SameForDiff(ReadDocument(library, TokensOf(v) + rest, CompleteSeed).value,
                        ReadDocument(library, TokensOf(v) + rest, HashesForDiff).value)
  {
    hide ReadDocument, ReadMembers, NoRepeatedFields;
    DocumentIsRead(library, v, rest, CompleteSeed);
    DocumentIsRead(library, v, rest, HashesForDiff);
    ReadersAgree(library, EMPTY, EMPTY, v.members, 0);
  }

  // ---------- Round trip ----------

  /** A map that is empty and marked omitempty comes back as nil. */
  function OmitEmpty<V(==)>(m: Option<map<string, V>>): Option<map<string, V>> {
    if m == Some(map[]) then None else m
  }

  function ReadBack(data: PersistedData): PersistedData {
    data.(edges := OmitEmpty(data.edges), dependencyHashes := OmitEmpty(data.dependencyHashes))
  }

  /** What has been read after the first `n` fields. */
  function Partial(data: PersistedData, n: nat): PersistedData {
    PersistedData(
      if n > 0 then data.version else 0, if n > 1 then data.fingerprint else "", if n > 2 then data.commit else "",
      if n > 3 then data.timestamp else "", if n > 4 then data.release else "",
      if n > 5 then data.targetHashes else None, if n > 6 then OmitEmpty(data.edges) else None,
      if n > 7 then OmitEmpty(data.dependencyHashes) else None, if n > 8 then data.metadata else Metadata("", "", 0))
  }

  /** Reading back the members of a map, in whatever order, restores it. */
  lemma {:induction false} MapIsRestored<V>(m: map<string, V>, members: seq<Member>, read: Json -> Option<V>,
                                            done: map<string, V>, i: nat)
    requires i <= |members|
    requires forall member | member in members :: member.key in m && read(member.value) == Some(m[member.key])
    requires forall k | k in done :: k in m && done[k] == m[k]
    requires forall k | k in m :: k in done || exists j :: i <= j < |members| && members[j].key == k
    ensures MergeMembers(done, members, i, read) == Some(m)
    decreases |members| - i
  {
    if i == |members| {
      assert done == m;
    } else {
      assert members[i] in members;
      MapIsRestored(m, members, read, done[members[i].key := m[members[i].key]], i + 1);
    }
  }

  lemma MembersCoverMap<V>(m: map<string, V>, encode: V -> Json)
    ensures forall member | member in MapMembers(m, encode) :: member.key in m && member.value == encode(m[member.key])
    ensures forall k | k in m :: exists j :: 0 <= j < |MapMembers(m, encode)| && MapMembers(m, encode)[j].key == k
  {
    var members, keys := MapMembers(m, encode), SortedKeys(m.Keys);
    forall member | member in members
      ensures member.key in m && member.value == encode(m[member.key])
    {
      var j :| 0 <= j < |members| && members[j] == member;
      assert keys[j] in keys;
    }
    forall k | k in m
      ensures exists j :: 0 <= j < |members| && members[j].key == k
    {
      var j :| 0 <= j < |keys| && keys[j] == k;
      assert members[j].key == k;
    }
  }

  lemma MapRoundTrips<V>(m: Option<map<string, V>>, encode: V -> Json, read: Json -> Option<V>)
    requires forall x :: read(encode(x)) == Some(x)
    ensures ReadMap(None, MapJson(m, encode), read) == Some(m)
  {
    hide MapMembers;
    if m.Some? {
      MembersCoverMap(m.value, encode);
      MapIsRestored(m.value, MapMembers(m.value, encode), read, map[], 0);
    }
  }

  lemma {:induction false} FieldIsFound(library: Library, n: nat, i: nat)
    requires library.Faithful() && i <= n < |FIELDS|
    ensures FieldFrom(library, NameOf(FIELDS[n]), i) == Some(FIELDS[n])
    decreases n - i
  {
    hide NameOf;
    if i < n && library.fold(NameOf(FIELDS[n])) != library.fold(NameOf(FIELDS[i])) {
      FieldIsFound(library, n, i + 1);
    }
  }

  lemma FieldRoundTrips(library: Library, data: PersistedData, n: nat)
    requires library.Faithful() && n < |FIELDS| && !IsOmitted(FIELDS[n], data)
    ensures SetField(library, Partial(data, n), FIELDS[n], library.ValueOf(FIELDS[n], data)) == Some(Partial(data, n + 1))
  {
    hide ReadMap, MapJson, NameOf;
    MapRoundTrips(data.targetHashes, library.hashes, library.readHashes);
    MapRoundTrips(data.edges, library.labels, library.readLabels);
    MapRoundTrips(data.dependencyHashes, library.hashes, library.readHashes);
  }

  lemma {:induction false} ReadOneMore(
    library: Library, data: PersistedData, members: seq<Member>, member: Member, i: nat, read: PersistedData)
    requires i <= |members| && ReadMembers(library, data, members, i, CompleteSeed) == Some(read)
    requires FieldOf(library, member.key, CompleteSeed).Some?
    ensures ReadMembers(library, data, members + [member], i, CompleteSeed)
            == SetField(library, read, FieldOf(library, member.key, CompleteSeed).value, member.value)
    decreases |members| - i
  {
    hide FieldOf, SetField;
    var all := members + [member];
    if i == |members| {
      assert all[i] == member;
    } else {
      assert all[i] == members[i];
      var field := FieldOf(library, members[i].key, CompleteSeed);
      if field.None? {
        ReadOneMore(library, data, members, member, i + 1, read);
      } else {
        ReadOneMore(library, SetField(library, data, field.value, members[i].value).value, members, member, i + 1, read);
      }
    }
  }

  lemma {:induction false} FieldsRoundTrip(library: Library, data: PersistedData, n: nat)
    requires library.Faithful() && n <= |FIELDS|
    ensures ReadMembers(library, EMPTY, FieldMembers(library, data, n), 0, CompleteSeed) == Some(Partial(data, n))
  {
    if n > 0 {
      FieldsRoundTrip(library, data, n - 1);
      FieldStep(library, data, n - 1);
    }
  }

  lemma FieldStep(library: Library, data: PersistedData, n: nat)
    requires library.Faithful() && n < |FIELDS|
    requires ReadMembers(library, EMPTY, FieldMembers(library, data, n), 0, CompleteSeed) == Some(Partial(data, n))
    ensures ReadMembers(library, EMPTY, FieldMembers(library, data, n + 1), 0, CompleteSeed) == Some(Partial(data, n + 1))
  {
    hide ReadMembers, SetField, NameOf, FieldFrom, Library.ValueOf, Library.Faithful;
    if IsOmitted(FIELDS[n], data) {
      OmittedIsZero(data, n);
      var none: seq<Member> := [];
      assert FieldMembers(library, data, n) + none == FieldMembers(library, data, n);
    } else {
      hide Partial, IsOmitted;
      FieldRoundTrips(library, data, n);
      FieldIsFound(library, n, 0);
      ReadOneMore(library, EMPTY, FieldMembers(library, data, n), Member(NameOf(FIELDS[n]), library.ValueOf(FIELDS[n], data)), 0,
                  Partial(data, n));
    }
  }

  lemma OmittedIsZero(data: PersistedData, n: nat)
    requires n < |FIELDS| && IsOmitted(FIELDS[n], data)
    ensures Partial(data, n + 1) == Partial(data, n)
  {
  }

  /**
   Writing and reading back: the tokens of what the streaming writer wrote are read
   as the data that was written, except that an empty map of an omitempty field is
   read as nil.
   */
  lemma WrittenIsReadBack(library: Library, data: PersistedData, text: seq<Lexeme>)
    requires library.Faithful() && text == Render(DocumentOf(library, data)) + [Newline]
    ensures ReadDocument(library, Tokenize(text), CompleteSeed) == Some(ReadBack(data))
  {
    hide ReadDocument, Render, TokensOf, FieldMembers, ReadMembers, Tokenize, Library.Faithful;
    var v := DocumentOf(library, data);
    RenderTokenizes(v);
    NewlineVanishes(Render(v));
    assert TokensOf(v) + [] == TokensOf(v);
    DocumentIsRead(library, v, [], CompleteSeed);
    FieldsRoundTrip(library, data, |FIELDS|);
    assert Partial(data, |FIELDS|) == ReadBack(data);
  }

  lemma LastField(library: Library, data: PersistedData, n: nat) returns (v: Json)
    requires n <= |FIELDS|
    ensures FieldMembers(library, data, n) == []
            || (n > 0 && FieldMembers(library, data, n) == FieldMembers(library, data, n - 1))
            || (n > 0 && FieldMembers(library, data, n) == FieldMembers(library, data, n - 1) + [Member(NameOf(FIELDS[n - 1]), v)])
  {
    v := if n > 0 then library.ValueOf(FIELDS[n - 1], data) else Scalar(Null);
    if n > 0 && IsOmitted(FIELDS[n - 1], data) {
      var none: seq<Member> := [];
      assert FieldMembers(library, data, n - 1) + none == FieldMembers(library, data, n - 1);
    }
  }

  lemma {:induction false} WrittenFieldsAreDistinct(library: Library, data: PersistedData, n: nat)
    requires library.Faithful() && n <= |FIELDS|
    ensures NoRepeatedFields(library, FieldMembers(library, data, n))
    ensures forall member | member in FieldMembers(library, data, n) ::
              exists j :: 0 <= j < n && FieldFrom(library, member.key, 0) == Some(FIELDS[j])
  {
    hide NameOf, FieldFrom, IsOmitted, Library.ValueOf, Library.Faithful, FieldMembers;
    var v := LastField(library, data, n);
    if n > 0 {
      WrittenFieldsAreDistinct(library, data, n - 1);
      FieldIsFound(library, n - 1, 0);
    }
  }

  lemma NewlineVanishes(text: seq<Lexeme>)
    ensures Tokenize(text + [Newline]) == Tokenize(text)
  {
    TokenizeConcatenates(text, [Newline]);
    TokenizeOne(Newline);
  }

  /** The round trip is exact unless an omitted map is empty rather than nil. */
  lemma RoundTripIsExactIff(library: Library, data: PersistedData)
    requires library.Faithful()
    ensures ReadDocument(library, Tokenize(Render(DocumentOf(library, data)) + [Newline]), CompleteSeed) == Some(data)
            <==> data.edges != Some(map[]) && data.dependencyHashes != Some(map[])
  {
    WrittenIsReadBack(library, data, Render(DocumentOf(library, data)) + [Newline]);
    hide ReadDocument, Tokenize, Render;
  }

  /** The differ finds in what the writer wrote the commit and the target hashes that were written. */
  lemma DifferReadsWritten(library: Library, data: PersistedData)
    requires library.Faithful()
    ensures var read := ReadDocument(library, Tokenize(Render(DocumentOf(library, data)) + [Newline]), HashesForDiff);
            read.Some? && SameForDiff(read.value, data)
  {
    hide ReadDocument, Render, TokensOf, FieldMembers, ReadMembers, Tokenize, Library.Faithful, NoRepeatedFields;
    var v := DocumentOf(library, data);
    WrittenIsReadBack(library, data, Render(v) + [Newline]);
    RenderTokenizes(v);
    NewlineVanishes(Render(v));
    assert TokensOf(v) + [] == TokensOf(v);
    WrittenFieldsAreDistinct(library, data, |FIELDS|);
    EarlyStoppingAgrees(library, v, []);
  }
}
