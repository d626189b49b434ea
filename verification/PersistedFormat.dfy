/**
 The persisted hash file and its streaming writer (pkg/hash_persistence.go:
 PersistedHashData, encodePersistedData, streamingObjectEncoder, streamMap).
 */
module PersistedFormat {
  import opened Wrappers
  import opened Ordering
  import opened Json

  type HashesByLabel = map<string, map<string, string>>

  datatype Metadata = Metadata(targetsPattern: string, workspacePath: string, totalTargets: nat)

  /** None is a nil map. A timestamp is its text. */
  datatype PersistedData = PersistedData(
    version: int, fingerprint: string, commit: string, timestamp: string, release: string,
    targetHashes: Option<HashesByLabel>, edges: Option<map<string, seq<string>>>,
    dependencyHashes: Option<HashesByLabel>, metadata: Metadata)

  datatype Field =
    | FormatVersion | Fingerprint | CommitSha | Timestamp | Release | TargetHashes | TargetEdges | DependencyHashes | MetadataField

  /** In declaration order. */
  const FIELDS: seq<Field> :=
    [FormatVersion, Fingerprint, CommitSha, Timestamp, Release, TargetHashes, TargetEdges, DependencyHashes, MetadataField]

  function NameOf(field: Field): string {
    match field
    case FormatVersion => "format_version"
    case Fingerprint => "seed_compatibility_fingerprint"
    case CommitSha => "git_commit_sha"
    case Timestamp => "timestamp"
    case Release => "bazel_release"
    case TargetHashes => "target_hashes"
    case TargetEdges => "target_edges"
    case DependencyHashes => "dependency_hashes"
    case MetadataField => "metadata"
  }

  /** String-keyed maps are streamed. */
  predicate IsStreamed(field: Field) {
    field == TargetHashes || field == TargetEdges || field == DependencyHashes
  }

  // ---------- What encoding/json would write ----------

  /** The keys of a map in order. */
  ghost function SortedKeys(keys: set<string>): (sorted: seq<string>)
    ensures StrictlyIncreasing(sorted, StringLess) && forall k :: k in sorted <==> k in keys
  {
    StringOrder();
    if keys == {} then []
    else
      var k :| k in keys;
      var others := SortedKeys(keys - {k});
      InsertDistinct(others, k);
      Insert(others, k, StringLess)
  }

  lemma {:induction false} InsertDistinct(s: seq<string>, x: string)
    requires StrictlyIncreasing(s, StringLess) && x !in s && IsStrictOrder(StringLess)
    ensures StrictlyIncreasing(Insert(s, x, StringLess), StringLess)
    ensures forall k :: k in Insert(s, x, StringLess) <==> k in s || k == x
  {
    hide StringLess;
    if s == [] || StringLess(x, s[0]) {
      forall i | 0 <= i < |s|
        ensures StringLess(x, s[i])
      {
        assert s[0] == s[i] || StringLess(s[0], s[i]);
      }
      assert forall k :: k in [x] + s <==> k in s || k == x;
    } else {
      var rest := Insert(s[1..], x, StringLess);
      InsertDistinct(s[1..], x);
      assert s == [s[0]] + s[1..] && s[0] in s;
      forall k | k in rest
        ensures StringLess(s[0], k)
      {
      }
      assert forall k :: k in [s[0]] + rest <==> k == s[0] || k in rest;
    }
  }

  ghost function MapMembers<V>(m: map<string, V>, encode: V -> Json): seq<Member> {
    var keys := SortedKeys(m.Keys);
    seq(|keys|, i requires 0 <= i < |keys| => assert keys[i] in keys; Member(keys[i], encode(m[keys[i]])))
  }

  ghost function MapJson<V>(m: Option<map<string, V>>, encode: V -> Json): Json {
    match m case None => Scalar(Null) case Some(entries) => Obj(MapMembers(entries, encode))
  }

  function TextJson(text: string): Json {
    Scalar(Text(text))
  }

  /** Library code for the values of the large maps, which are marshalled whole. */
  datatype Library = Library(
    hashes: map<string, string> -> Json, labels: seq<string> -> Json, metadata: Metadata -> Json,
    readHashes: Json -> Option<map<string, string>>, readLabels: Json -> Option<seq<string>>,
    readMetadata: (Metadata, Json) -> Option<Metadata>, fold: string -> string)
  {
    /** What is marshalled is read back, and no two field names differ in case only. */
    ghost predicate Faithful() {
      && (forall h :: readHashes(hashes(h)) == Some(h))
      && (forall l :: readLabels(labels(l)) == Some(l))
      && (forall m, previous :: readMetadata(previous, metadata(m)) == Some(m))
      && (forall f: Field, g: Field :: fold(NameOf(f)) == fold(NameOf(g)) ==> f == g)
    }

    ghost function ValueOf(field: Field, data: PersistedData): Json {
      match field
      case FormatVersion => Scalar(Number(data.version))
      case Fingerprint => TextJson(data.fingerprint)
      case CommitSha => TextJson(data.commit)
      case Timestamp => TextJson(data.timestamp)
      case Release => TextJson(data.release)
      case TargetHashes => MapJson(data.targetHashes, hashes)
      case TargetEdges => MapJson(data.edges, labels)
      case DependencyHashes => MapJson(data.dependencyHashes, hashes)
      case MetadataField => metadata(data.metadata)
    }
  }

  /** Fields marked omitempty whose value is empty. */
  predicate IsOmitted(field: Field, data: PersistedData) {
    match field
    case FormatVersion => data.version == 0
    case Fingerprint => data.fingerprint == ""
    case TargetEdges => data.edges.None? || data.edges.value == map[]
    case DependencyHashes => data.dependencyHashes.None? || data.dependencyHashes.value == map[]
    case _ => false
  }

  /** The members of the first `n` fields. */
  ghost function FieldMembers(library: Library, data: PersistedData, n: nat): seq<Member>
    requires n <= |FIELDS|
  {
    if n == 0 then []
    else
      FieldMembers(library, data, n - 1)
      + if IsOmitted(FIELDS[n - 1], data) then [] else [Member(NameOf(FIELDS[n - 1]), library.ValueOf(FIELDS[n - 1], data))]
  }

  ghost function DocumentOf(library: Library, data: PersistedData): Json {
    Obj(FieldMembers(library, data, |FIELDS|))
  }

  function Unless(omitted: bool, name: string, value: Json): seq<Member> {
    if omitted then [] else [Member(name, value)]
  }

  ghost function FieldMember(library: Library, data: PersistedData, n: nat): seq<Member>
    requires n < |FIELDS|
  {
    Unless(IsOmitted(FIELDS[n], data), NameOf(FIELDS[n]), library.ValueOf(FIELDS[n], data))
  }

  lemma ScalarMembers(library: Library, data: PersistedData)
    ensures FieldMember(library, data, 0) == Unless(data.version == 0, "format_version", Scalar(Number(data.version)))
    ensures FieldMember(library, data, 1)
            == Unless(data.fingerprint == "", "seed_compatibility_fingerprint", Scalar(Text(data.fingerprint)))
    ensures FieldMember(library, data, 2) == [Member("git_commit_sha", Scalar(Text(data.commit)))]
    ensures FieldMember(library, data, 3) == [Member("timestamp", Scalar(Text(data.timestamp)))]
    ensures FieldMember(library, data, 4) == [Member("bazel_release", Scalar(Text(data.release)))]
  {
  }

  lemma LargeMembers(library: Library, data: PersistedData)
    ensures FieldMember(library, data, 5) == [Member("target_hashes", MapJson(data.targetHashes, library.hashes))]
    ensures FieldMember(library, data, 6)
            == Unless(data.edges in {None, Some(map[])}, "target_edges", MapJson(data.edges, library.labels))
    ensures FieldMember(library, data, 7)
            == Unless(data.dependencyHashes in {None, Some(map[])}, "dependency_hashes",
                      MapJson(data.dependencyHashes, library.hashes))
    ensures FieldMember(library, data, 8) == [Member("metadata", library.metadata(data.metadata))]
  {
    hide MapJson;
  }

  lemma NextFieldMember(library: Library, data: PersistedData, n: nat)
    requires n < |FIELDS|
    ensures FieldMembers(library, data, n + 1) == FieldMembers(library, data, n) + FieldMember(library, data, n)
  {
    hide NameOf, IsOmitted, Library.ValueOf;
  }

  lemma FirstFieldMember(library: Library, data: PersistedData)
    ensures FieldMembers(library, data, 1) == FieldMember(library, data, 0)
  {
    NextFieldMember(library, data, 0);
    assert FieldMembers(library, data, 0) == [];
    hide FieldMember, FieldMembers;
  }

  lemma DocumentListsFields(library: Library, data: PersistedData)
    ensures DocumentOf(library, data) == Obj(
              FieldMember(library, data, 0) + FieldMember(library, data, 1) + FieldMember(library, data, 2)
              + FieldMember(library, data, 3) + FieldMember(library, data, 4) + FieldMember(library, data, 5)
              + FieldMember(library, data, 6) + FieldMember(library, data, 7) + FieldMember(library, data, 8))
  {
    hide FieldMembers, FieldMember;
    FirstFieldMember(library, data);
    NextFieldMember(library, data, 1);
    NextFieldMember(library, data, 2);
    NextFieldMember(library, data, 3);
    NextFieldMember(library, data, 4);
    NextFieldMember(library, data, 5);
    NextFieldMember(library, data, 6);
    NextFieldMember(library, data, 7);
    NextFieldMember(library, data, 8);
  }

  /** The members of the document by name, in order, and which of them may be missing. */
  lemma DocumentMembers(library: Library, data: PersistedData)
    ensures DocumentOf(library, data) == Obj(
              Unless(data.version == 0, "format_version", Scalar(Number(data.version)))
              + Unless(data.fingerprint == "", "seed_compatibility_fingerprint", Scalar(Text(data.fingerprint)))
              + [Member("git_commit_sha", Scalar(Text(data.commit)))]
              + [Member("timestamp", Scalar(Text(data.timestamp)))]
              + [Member("bazel_release", Scalar(Text(data.release)))]
              + [Member("target_hashes", MapJson(data.targetHashes, library.hashes))]
              + Unless(data.edges in {None, Some(map[])}, "target_edges", MapJson(data.edges, library.labels))
              + Unless(data.dependencyHashes in {None, Some(map[])}, "dependency_hashes",
                       MapJson(data.dependencyHashes, library.hashes))
              + [Member("metadata", library.metadata(data.metadata))])
  {
    hide *;
    DocumentListsFields(library, data);
    ScalarMembers(library, data);
    LargeMembers(library, data);
  }

  // ---------- The streaming writer ----------

  class StreamingObjectEncoder {
    var text: seq<Lexeme>
    /** One flag per open object, outermost first: true until its first member. */
    var first: seq<bool>

    constructor ()
      ensures text == [] && first == []
    {
      text, first := [], [];
    }

    method Begin()
      modifies this
      ensures text == old(text) + [LBrace] && first == old(first) + [true]
    {
      text, first := text + [LBrace], first + [true];
    }

    method End()
      requires first != []
      modifies this
      ensures text == old(text) + [RBrace] && first == old(first)[..|old(first)| - 1]
    {
      text, first := text + [RBrace], first[..|first| - 1];
    }

    method Key(name: string)
      requires first != []
      modifies this
      ensures text == old(text) + (if old(first)[|old(first)| - 1] then [] else [Comma]) + [Value(Text(name)), Colon]
      ensures first == old(first)[..|old(first)| - 1] + [false]
    {
      var top := |first| - 1;
      if !first[top] {
        text := text + [Comma];
      }
      first := first[top := false];
      text := text + [Value(Text(name))];
      text := text + [Colon];
    }

    method WriteValue(v: Json)
      modifies this
      ensures text == old(text) + Render(v) && first == old(first)
    {
      text := text + Render(v);
    }

    method Write(lexeme: Lexeme)
      modifies this
      ensures text == old(text) + [lexeme] && first == old(first)
    {
      text := text + [lexeme];
    }
  }

  /** Rendering depends on the members rendered so far and on nothing after them. */
  lemma {:induction false} RenderPrefix(members: seq<Member>, n: nat)
    requires n <= |members|
    ensures RenderMembers(Obj(members), n) == RenderMembers(Obj(members[..n]), n)
    decreases n
  {
    if n > 0 {
      RenderPrefix(members, n - 1);
      RenderPrefix(members[..n], n - 1);
      assert members[..n][..n - 1] == members[..n - 1];
      hide Render;
      assert members[..n][n - 1] == members[n - 1];
    }
  }

  lemma RenderNext(members: seq<Member>, member: Member)
    ensures RenderMembers(Obj(members + [member]), |members| + 1)
            == RenderMembers(Obj(members), |members|) + Separator(|members| + 1) + [Value(Text(member.key)), Colon]
               + Render(member.value)
  {
    RenderPrefix(members + [member], |members|);
    assert (members + [member])[..|members|] == members;
    hide Render;
  }

  /** Writes a map one entry at a time, in the order of its keys. */
  method StreamMap<V>(e: StreamingObjectEncoder, m: Option<map<string, V>>, encode: V -> Json)
    modifies e
    ensures e.text == old(e.text) + Render(MapJson(m, encode)) && e.first == old(e.first)
  {
    hide Render, RenderMembers, MapMembers;
    NullRenders();
    if m.None? {
      e.Write(Value(Null));
      return;
    }
    RenderObject(MapMembers(m.value, encode));
    e.Begin();
    StreamEntries(e, m.value, encode);
    e.End();
  }

  method StreamEntries<V>(e: StreamingObjectEncoder, entries: map<string, V>, encode: V -> Json)
    requires e.first != [] && e.first[|e.first| - 1]
    modifies e
    ensures e.text == old(e.text) + RenderMembers(Obj(MapMembers(entries, encode)), |MapMembers(entries, encode)|)
    ensures |e.first| == |old(e.first)| && e.first[..|e.first| - 1] == old(e.first)[..|e.first| - 1]
  {
    hide *;
    StringOrder();
    var keys := SortedElements(entries.Keys, StringLess);
    ghost var members := MapMembers(entries, encode);
    MembersFollowKeys(entries, encode, keys);
    ghost var before, outer := e.text, e.first[..|e.first| - 1];
    NothingRendered(members);
    for i := 0 to |keys|
      invariant e.text == before + RenderMembers(Obj(members[..i]), i)
      invariant e.first == outer + [i == 0]
    {
      assert keys[i] in keys;
      EntryNext(members, i, before);
      e.Key(keys[i]);
      e.WriteValue(encode(entries[keys[i]]));
    }
    assert members[..|keys|] == members;
  }

  lemma MembersFollowKeys<V>(entries: map<string, V>, encode: V -> Json, keys: seq<string>)
    requires StrictlyIncreasing(keys, StringLess) && forall k :: k in keys <==> k in entries.Keys
    ensures |MapMembers(entries, encode)| == |keys|
    ensures forall i | 0 <= i < |keys| :: keys[i] in entries && MapMembers(entries, encode)[i] == Member(keys[i], encode(entries[keys[i]]))
  {
    StringOrder();
    IncreasingIsUnique(keys, SortedKeys(entries.Keys), StringLess);
  }

  lemma EntryNext(members: seq<Member>, i: nat, before: seq<Lexeme>)
    requires i < |members|
    ensures before + RenderMembers(Obj(members[..i + 1]), i + 1)
            == before + RenderMembers(Obj(members[..i]), i) + (if i == 0 then [] else [Comma])
               + [Value(Text(members[i].key)), Colon] + Render(members[i].value)
  {
    hide Render, RenderMembers;
    RenderNext(members[..i], members[i]);
    assert members[..i] + [members[i]] == members[..i + 1];
    var done, head := RenderMembers(Obj(members[..i]), i), [Value(Text(members[i].key)), Colon];
    assert before + (done + Separator(i + 1) + head + Render(members[i].value))
        == before + done + Separator(i + 1) + head + Render(members[i].value);
  }

  lemma NullRenders()
    ensures Render(Scalar(Null)) == [Value(Null)]
  {
  }

  lemma NothingRendered(members: seq<Member>)
    ensures RenderMembers(Obj(members[..0]), 0) == []
  {
  }

  lemma RenderObject(members: seq<Member>)
    ensures Render(Obj(members)) == [LBrace] + RenderMembers(Obj(members), |members|) + [RBrace]
  {
  }

  /** Writes the value of one field, streamed or whole. */
  method WriteField(library: Library, e: StreamingObjectEncoder, data: PersistedData, field: Field)
    modifies e
    ensures e.text == old(e.text) + Render(library.ValueOf(field, data)) && e.first == old(e.first)
  {
    hide Render, MapJson;
    match field
    case FormatVersion => e.WriteValue(Scalar(Number(data.version)));
    case Fingerprint => e.WriteValue(TextJson(data.fingerprint));
    case CommitSha => e.WriteValue(TextJson(data.commit));
    case Timestamp => e.WriteValue(TextJson(data.timestamp));
    case Release => e.WriteValue(TextJson(data.release));
    case TargetHashes => StreamMap(e, data.targetHashes, library.hashes);
    case TargetEdges => StreamMap(e, data.edges, library.labels);
    case DependencyHashes => StreamMap(e, data.dependencyHashes, library.hashes);
    case MetadataField => e.WriteValue(library.metadata(data.metadata));
  }

  /**
   Streams the fields in declaration order. The text is exactly the compact
   rendering of the whole document, commas, colons and key order included.
   */
  method EncodePersistedData(library: Library, data: PersistedData) returns (text: seq<Lexeme>)
    ensures text == Render(DocumentOf(library, data)) + [Newline]
  {
    hide Render, RenderMembers, NameOf, IsOmitted, MapJson, Library.ValueOf;
    var e := new StreamingObjectEncoder();
    e.Begin();
    ghost var members: seq<Member> := [];
    NothingRendered([]);
    for i := 0 to |FIELDS|
      invariant members == FieldMembers(library, data, i)
      invariant e.text == [LBrace] + RenderMembers(Obj(members), |members|)
      invariant e.first == [members == []]
    {
      var field := FIELDS[i];
      if !IsOmitted(field, data) {
        e.Key(NameOf(field));
        WriteField(library, e, data, field);
        ghost var member := Member(NameOf(field), library.ValueOf(field, data));
        RenderNext(members, member);
        members := members + [member];
      }
    }
    e.End();
    e.Write(Newline);
    RenderObject(members);
    text := e.text;
  }
}
