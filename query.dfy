/**
 * BaseController.parseQuery: turns a URL query string such as
 * "id=3&qty=2.5" into a parameter map, using Java's String.split.
 */
module Query {
  import opened Options

  /** Joins fields with c between them (the inverse of Fields). */
  function Join(fs: seq<string>, c: char): string {
    if fs == [] then []
    else if |fs| == 1 then fs[0]
    else fs[0] + [c] + Join(fs[1..], c)
  }

  /** The pieces of s between occurrences of c, empty pieces included. */
  function Fields(s: string, c: char): (r: seq<string>)
    ensures |r| >= 1
    ensures forall i :: 0 <= i < |r| ==> c !in r[i]
    ensures Join(r, c) == s
  {
    if s == [] then [[]]
    else
      var rest := Fields(s[1..], c);
      if s[0] == c then
        assert ([[]] + rest)[1..] == rest;
        [[]] + rest
      else
        var r := [[s[0]] + rest[0]] + rest[1..];
        assert r[1..] == rest[1..];
        assert s == [s[0]] + s[1..];
        r
  }

  /** Drops the empty strings at the end of fs. */
  function DropTrailingEmpty(fs: seq<string>): (r: seq<string>)
    ensures |r| <= |fs| && r == fs[..|r|]
    ensures r == [] || r[|r| - 1] != []
    ensures forall i :: |r| <= i < |fs| ==> fs[i] == []
  {
    if fs != [] && fs[|fs| - 1] == [] then DropTrailingEmpty(fs[..|fs| - 1]) else fs
  }

  /** String.split with a one-character pattern: the whole string when c does
      not occur in it; otherwise its fields with the trailing empty ones
      removed. */
  function Split(s: string, c: char): (r: seq<string>)
    ensures forall i :: 0 <= i < |r| ==> c !in r[i]
    ensures c in s ==> r == [] || r[|r| - 1] != []
  {
    if c !in s then [s] else DropTrailingEmpty(Fields(s, c))
  }

  /** The fields of each part, split at '='. */
  function Entries(parts: seq<string>): seq<seq<string>> {
    seq(|parts|, i requires 0 <= i < |parts| => Split(parts[i], '='))
  }

  /** A part binds key when its split at '=' has at least two fields and the
      first is key; the second is the value. */
  predicate Binds(entry: seq<string>, key: string) {
    |entry| > 1 && entry[0] == key
  }

  /** params holds exactly the keys bound by entries[..n], each with the value
      of the last entry that binds it. */
  ghost predicate ParsedFrom(params: map<string, string>, entries: seq<seq<string>>, n: nat)
    requires n <= |entries|
  {
    && (forall key :: key in params <==> exists i :: 0 <= i < n && Binds(entries[i], key))
    && (forall key :: key in params ==>
          exists i :: 0 <= i < n && Binds(entries[i], key) && params[key] == entries[i][1]
                      && forall j :: i < j < n ==> !Binds(entries[j], key))
  }

  /** What one iteration of parseQuery's loop does with one entry. */
  function PutEntry(params: map<string, string>, entry: seq<string>): map<string, string> {
    if |entry| > 1 then params[entry[0] := entry[1]] else params
  }

  lemma PutEntryExtends(params: map<string, string>, entries: seq<seq<string>>, n: nat)
    requires n < |entries| && ParsedFrom(params, entries, n)
    ensures ParsedFrom(PutEntry(params, entries[n]), entries, n + 1)
  {
    var next := PutEntry(params, entries[n]);
    forall key
      ensures key in next <==> exists i :: 0 <= i < n + 1 && Binds(entries[i], key)
    {
      if Binds(entries[n], key) {
        assert key in next;
      } else {
        assert key in next <==> key in params;
      }
    }
    forall key | key in next
      ensures exists i :: 0 <= i < n + 1 && Binds(entries[i], key) && next[key] == entries[i][1]
                          && forall j :: i < j < n + 1 ==> !Binds(entries[j], key)
    {
      if Binds(entries[n], key) {
        assert next[key] == entries[n][1];
      } else {
        var i :| 0 <= i < n && Binds(entries[i], key) && params[key] == entries[i][1]
                 && forall j :: i < j < n ==> !Binds(entries[j], key);
        assert next[key] == entries[i][1];
      }
    }
  }

  /** parseQuery: a null query gives no parameters; otherwise every part of
      the query that splits at '=' into at least two fields binds its first
      field to its second, and a later part overrides an earlier one. */
  method ParseQuery(query: Option<string>) returns (params: map<string, string>)
    ensures query.None? ==> params == map[]
    ensures query.Some? ==> var entries := Entries(Split(query.value, '&'));
                            ParsedFrom(params, entries, |entries|)
  {
    params := map[];
    if query.Some? {
      var parts := Split(query.value, '&');
      ghost var entries := Entries(parts);
      for n := 0 to |parts|
        invariant ParsedFrom(params, entries, n)
      {
        var entry := Split(parts[n], '=');
        assert entry == entries[n];
        PutEntryExtends(params, entries, n);
        if |entry| > 1 {
          params := params[entry[0] := entry[1]];
        }
      }
    }
  }

  /** Joining the pieces String.split returns gives back the input with its
      trailing run of separators removed. */
  lemma {:induction false} SplitRejoins(s: string, c: char)
    ensures var t := Join(Split(s, c), c);
            |t| <= |s| && t == s[..|t|] && forall i :: |t| <= i < |s| ==> s[i] == c
  {
    if c in s {
      var fs := Fields(s, c);
      var r := DropTrailingEmpty(fs);
      JoinOfEmptyTail(r, fs, c);
    }
  }

  /** Joining fs, whose fields after the first |r| are empty, gives the join
      of r followed only by separators. */
  lemma {:induction false} JoinOfEmptyTail(r: seq<string>, fs: seq<string>, c: char)
    requires |r| <= |fs| && r == fs[..|r|]
    requires forall i :: |r| <= i < |fs| ==> fs[i] == []
    ensures var t := Join(r, c); var u := Join(fs, c);
            |t| <= |u| && t == u[..|t|] && forall i :: |t| <= i < |u| ==> u[i] == c
    decreases |fs|
  {
    if |r| == |fs| {
      assert r == fs;
    } else if r == [] {
      EmptyFieldsJoin(fs, c);
    } else if |r| == 1 {
      EmptyFieldsJoin(fs[1..], c);
    } else {
      JoinOfEmptyTail(r[1..], fs[1..], c);
    }
  }

  /** Joining empty fields gives separators only. */
  lemma {:induction false} EmptyFieldsJoin(fs: seq<string>, c: char)
    requires forall i :: 0 <= i < |fs| ==> fs[i] == []
    ensures forall i :: 0 <= i < |Join(fs, c)| ==> Join(fs, c)[i] == c
  {
    if |fs| > 1 {
      EmptyFieldsJoin(fs[1..], c);
    }
  }
}
