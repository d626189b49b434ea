/**
 The NUL-delimited output of git diff --name-status
 (hash-persister/hash-persister.go: parseGitNameStatus).
 */
module NameStatus {
  import opened Wrappers

  const NUL: char := 0 as char

  datatype Entry = Entry(status: string, path: string)

  /** bytes.Split: one field more than there are separators. */
  function Split(s: string): (fields: seq<string>)
    ensures fields != []
  {
    if s == "" then [""]
    else
      var rest := Split(s[1..]);
      if s[0] == NUL then [""] + rest else [[s[0]] + rest[0]] + rest[1..]
  }

  /** What git writes for the entries of a diff. */
  function Format(entries: seq<Entry>): string {
    if entries == [] then "" else entries[0].status + [NUL] + entries[0].path + [NUL] + Format(entries[1..])
  }

  predicate IsField(field: string) {
    field != "" && NUL !in field
  }

  predicate AreEntries(entries: seq<Entry>) {
    forall entry | entry in entries :: IsField(entry.status) && IsField(entry.path)
  }

  /** Later entries replace earlier ones of the same path. */
  function StatusMap(entries: seq<Entry>): map<string, string> {
    if entries == [] then map[]
    else StatusMap(entries[..|entries| - 1])[entries[|entries| - 1].path := entries[|entries| - 1].status]
  }

  /** The fields after the empty one that a final separator leaves. */
  function Fields(output: string): seq<string> {
    var fields := Split(output);
    if fields[|fields| - 1] == "" then fields[..|fields| - 1] else fields
  }

  predicate IsWellFormed(fields: seq<string>) {
    |fields| % 2 == 0 && forall field | field in fields :: field != ""
  }

  function PairUp(fields: seq<string>): (entries: seq<Entry>)
    requires |fields| % 2 == 0
    ensures |entries| == |fields| / 2
    ensures forall i | 0 <= i < |entries| :: entries[i] == Entry(fields[2 * i], fields[2 * i + 1])
  {
    if fields == [] then [] else [Entry(fields[0], fields[1])] + PairUp(fields[2..])
  }

  method ParseGitNameStatus(output: string) returns (result: Result<map<string, string>, string>)
    ensures result == if IsWellFormed(Fields(output)) then Ok(StatusMap(PairUp(Fields(output)))) else Err("malformed")
  {
    hide IsWellFormed, PairUp, StatusMap;
    var fields := Split(output);
    if fields[|fields| - 1] == "" {
      fields := fields[..|fields| - 1];
    }
    result := ParsePairs(fields);
  }

  /** The fields two at a time, a status and then its path. */
  method ParsePairs(fields: seq<string>) returns (result: Result<map<string, string>, string>)
    ensures result == if IsWellFormed(fields) then Ok(StatusMap(PairUp(fields))) else Err("malformed")
  {
    if |fields| % 2 != 0 {
      return Err("malformed");
    }
    var statuses: map<string, string> := map[];
    ghost var entries := PairUp(fields);
    var i := 0;
    ghost var k := 0;
    NoStatuses();
    hide PairUp, StatusMap;
    while i < |fields|
      invariant i == 2 * k && k <= |entries|
      invariant statuses == StatusMap(entries[..k])
      invariant forall j | 0 <= j < i :: fields[j] != ""
    {
      var status, path := fields[i], fields[i + 1];
      assert status in fields && path in fields;
      if status == "" || path == "" {
        return Err("malformed");
      }
      NextStatus(entries, k);
      statuses := statuses[path := status];
      i, k := i + 2, k + 1;
    }
    assert entries[..k] == entries;
    return Ok(statuses);
  }

  lemma NoStatuses()
    ensures StatusMap([]) == map[]
  {
  }

  lemma NextStatus(entries: seq<Entry>, k: nat)
    requires k < |entries|
    ensures StatusMap(entries[..k + 1]) == StatusMap(entries[..k])[entries[k].path := entries[k].status]
  {
    assert entries[..k + 1][..k] == entries[..k];
  }

  /** The status of a path is that of its last entry. */
  lemma {:induction false} LastStatusWins(entries: seq<Entry>)
    ensures forall path :: path in StatusMap(entries) <==> exists entry :: entry in entries && entry.path == path
    ensures forall i | 0 <= i < |entries| && (forall j | i < j < |entries| :: entries[j].path != entries[i].path) ::
              entries[i].path in StatusMap(entries) && StatusMap(entries)[entries[i].path] == entries[i].status
  {
    if entries != [] {
      var n := |entries| - 1;
      LastStatusWins(entries[..n]);
      assert entries == entries[..n] + [entries[n]];
      assert forall i | 0 <= i < n :: entries[..n][i] == entries[i];
    }
  }

  // ---------- What git wrote is what is read ----------

  lemma {:induction false} SplitField(field: string, rest: string)
    requires NUL !in field
    ensures Split(field + [NUL] + rest) == [field] + Split(rest)
  {
    var s := field + [NUL] + rest;
    if field == "" {
      assert s[1..] == rest;
    } else {
      assert field[0] in field && s[0] == field[0];
      assert s[1..] == field[1..] + [NUL] + rest;
      SplitField(field[1..], rest);
      assert [field[0]] + field[1..] == field;
    }
  }

  function Flatten(entries: seq<Entry>): seq<string> {
    if entries == [] then [] else [entries[0].status, entries[0].path] + Flatten(entries[1..])
  }

  lemma EmptySplits()
    ensures Split("") == [""]
  {
  }

  lemma {:induction false} SplitFormat(entries: seq<Entry>)
    requires AreEntries(entries)
    ensures Split(Format(entries)) == Flatten(entries) + [""]
  {
    EmptySplits();
    hide Split;
    if entries != [] {
      var first, rest := entries[0], Format(entries[1..]);
      assert first in entries;
      SplitFormat(entries[1..]);
      SplitField(first.path, rest);
      SplitField(first.status, first.path + [NUL] + rest);
      assert Format(entries) == first.status + [NUL] + (first.path + [NUL] + rest);
      assert [first.status] + ([first.path] + (Flatten(entries[1..]) + [""])) == Flatten(entries) + [""];
    }
  }

  lemma PairUpFirst(fields: seq<string>)
    requires |fields| % 2 == 0 && fields != []
    ensures PairUp(fields) == [Entry(fields[0], fields[1])] + PairUp(fields[2..])
  {
  }

  lemma {:induction false} FlattenPairs(entries: seq<Entry>)
    requires AreEntries(entries)
    ensures IsWellFormed(Flatten(entries)) && PairUp(Flatten(entries)) == entries
  {
    hide PairUp;
    if entries == [] {
      assert PairUp([]) == [];
    } else {
      var first := entries[0];
      assert first in entries;
      FlattenPairs(entries[1..]);
      assert Flatten(entries)[2..] == Flatten(entries[1..]);
      PairUpFirst(Flatten(entries));
      assert entries == [first] + entries[1..];
    }
  }

  /** Every diff that git formats is read back as the statuses of its paths. */
  lemma FormattedIsParsed(entries: seq<Entry>)
    requires AreEntries(entries)
    ensures IsWellFormed(Fields(Format(entries))) && PairUp(Fields(Format(entries))) == entries
  {
    SplitFormat(entries);
    FlattenPairs(entries);
    assert (Flatten(entries) + [""])[..|Flatten(entries)|] == Flatten(entries);
  }

  /** A diff of one file. */
  lemma OneEntryIsParsed(status: string, path: string)
    requires status != "" && path != "" && '\0' !in status && '\0' !in path
    ensures var fields := Fields(status + "\0" + path + "\0");
            IsWellFormed(fields) && StatusMap(PairUp(fields)) == map[path := status]
  {
    var entries := [Entry(status, path)];
    FormattedIsParsed(entries);
    assert entries[..0] == [] && entries[1..] == [];
    assert Format(entries) == status + "\0" + path + "\0";
  }

  /** The text that a list of fields was split from. */
  function Unsplit(fields: seq<string>): string
    requires fields != []
  {
    if |fields| == 1 then fields[0] else fields[0] + [NUL] + Unsplit(fields[1..])
  }

  lemma {:induction false} SplitIsInvertible(s: string)
    ensures Unsplit(Split(s)) == s
    ensures forall field | field in Split(s) :: NUL !in field
  {
    if s != "" {
      SplitIsInvertible(s[1..]);
      assert s == [s[0]] + s[1..];
    }
  }

  lemma {:induction false} UnsplitPairs(fields: seq<string>)
    requires |fields| % 2 == 0
    ensures Unsplit(fields + [""]) == Format(PairUp(fields))
  {
    if fields != [] {
      UnsplitPairs(fields[2..]);
      var all := fields + [""];
      assert all[1..][1..] == fields[2..] + [""];
    }
  }

  lemma {:induction false} UnsplitWithoutEnd(fields: seq<string>)
    requires fields != []
    ensures Unsplit(fields + [""]) == Unsplit(fields) + [NUL]
  {
    assert (fields + [""])[1..] == fields[1..] + [""];
    if |fields| == 1 {
      assert (fields + [""])[1..] == [""];
    } else {
      UnsplitWithoutEnd(fields[1..]);
    }
  }

  /** Nothing else is accepted: the output is what git formats for the entries read, or that without its last NUL. */
  lemma ParsedWasFormatted(output: string)
    requires IsWellFormed(Fields(output))
    ensures AreEntries(PairUp(Fields(output)))
    ensures Format(PairUp(Fields(output))) == output || Format(PairUp(Fields(output))) == output + [NUL]
  {
    var split, fields := Split(output), Fields(output);
    SplitIsInvertible(output);
    UnsplitPairs(fields);
    if split[|split| - 1] == "" {
      assert split == fields + [""];
    } else {
      UnsplitWithoutEnd(fields);
    }
    forall entry | entry in PairUp(fields)
      ensures IsField(entry.status) && IsField(entry.path)
    {
      var i :| 0 <= i < |PairUp(fields)| && PairUp(fields)[i] == entry;
      assert fields[2 * i] in fields && fields[2 * i + 1] in fields;
      assert forall field | field in fields :: field in split;
    }
  }
}
