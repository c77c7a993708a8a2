/** What the verifier of query.rs accepts, stated by the values that the producer writes. */
module QueryAcceptance {
  import opened Limits
  import opened Wrappers
  import opened Utf8
  import opened Sorting
  import opened Paths
  import opened Json
  import opened QueryText
  import opened QueryOutput
  import QuerySearch
  import QueryOperations
  import QueryListing

  /** A path is accepted exactly when it is the display of a path. */
  lemma PathShapeIff(ws: Bytes, path: Bytes)
    ensures PathShape(ws, path) ==> IsPath(PathOf(ws, path)) && path == Display(PathOf(ws, path))
    ensures forall p | IsPath(p) && path == Display(p) :: PathShape(ws, path) && PathOf(ws, path) == p
  {
    hide CanonicalResource, ParseCanonical, IsPath, Display;
    if PathShape(ws, path) {
      ParseIffPrinted(ws, CanonicalResource(ws, path).value, PathOf(ws, path));
    }
    forall p | IsPath(p) && path == Display(p)
      ensures PathShape(ws, path) && PathOf(ws, path) == p
    {
      QueryOperations.PathShapeOf(ws, p);
    }
  }

  // ---- matches ----

  /** A match of some file below the root, with its numbers in 64 bits and its preview in bounds. */
  ghost predicate Reportable(m: Match) {
    && (exists p :: IsPath(p) && p != [] && m.path == Display(p))
    && 1 <= m.line < 0x1_0000_0000_0000_0000 && 1 <= m.column < 0x1_0000_0000_0000_0000 && |m.preview| <= 512
  }

  ghost predicate Reports(v: Value, m: Match) {
    v == QueryOperations.MatchValue(m) && Reportable(m)
  }

  lemma MatchNames() returns (names: seq<Bytes>)
    ensures names == [Ascii("path"), Ascii("line"), Ascii("column"), Ascii("preview")]
    ensures forall i, j | 0 <= i < j < |names| :: names[i] != names[j]
  {
    names := [Ascii("path"), Ascii("line"), Ascii("column"), Ascii("preview")];
    assert |names[0]| == 4 == |names[1]| && |names[2]| == 6 && |names[3]| == 7;
    assert names[0][0] == 'p' as int && names[1][0] == 'l' as int;
  }

  lemma MatchRead(ws: Bytes, v: Value) returns (m: Match)
    requires MatchShape(ws, v)
    ensures Reports(v, m) && MatchKey(ws, v) == Key(m.path, m.line, m.column)
  {
    var f := v.fields;
    m := Match(GetText(f, "path").value, GetUnsigned(f, "line").value, GetUnsigned(f, "column").value,
               GetText(f, "preview").value);
    PathShapeIff(ws, m.path);
    hide PathShape, PathOf, Display, IsPath;
    hide Ascii, QueryOperations.MatchValue;
    var names := MatchNames();
    QueryOperations.MatchFields(m);
    QueryOperations.MatchIsObject(m);
    SameFields(f, QueryOperations.MatchValue(m).fields, names);
  }

  lemma MatchWritten(ws: Bytes, v: Value, m: Match)
    requires Reports(v, m)
    ensures MatchShape(ws, v) && MatchKey(ws, v) == Key(m.path, m.line, m.column)
  {
    var p :| IsPath(p) && p != [] && m.path == Display(p);
    hide IsPath, Display, MatchShape, MatchKey, QueryOperations.MatchValue;
    QueryOperations.MatchValueShape(ws, m, p);
  }

  lemma KeyLessIff(a: Match, b: Match)
    ensures KeyLess(Key(a.path, a.line, a.column), Key(b.path, b.line, b.column)) <==>
            QueryOperations.MatchLe(a, b) && !QuerySearch.SameKey(a, b)
  {
    LexTotal(a.path, b.path);
    LexTotal(b.path, a.path);
  }

  lemma StrictlyOn(a: Match, b: Match, c: Match)
    requires QueryOperations.MatchLe(a, b) && !QuerySearch.SameKey(a, b)
    requires QueryOperations.MatchLe(b, c) && !QuerySearch.SameKey(b, c)
    ensures QueryOperations.MatchLe(a, c) && !QuerySearch.SameKey(a, c)
  {
    LexTotal(a.path, b.path);
    hide LexLe;
    if a.path != b.path && b.path != c.path {
      LexTransitive(a.path, b.path, c.path);
    }
  }

  /** Increasing neighbours make an increasing list. */
  lemma {:induction false} NeighboursSuffice(s: seq<Match>, i: nat, j: nat)
    requires i < j < |s|
    requires forall k | 0 < k < |s| :: QueryOperations.MatchLe(s[k - 1], s[k]) && !QuerySearch.SameKey(s[k - 1], s[k])
    ensures QueryOperations.MatchLe(s[i], s[j]) && !QuerySearch.SameKey(s[i], s[j])
    decreases j - i
  {
    if i + 1 < j {
      NeighboursSuffice(s, i, j - 1);
      assert QueryOperations.MatchLe(s[j - 1], s[j]) && !QuerySearch.SameKey(s[j - 1], s[j]);
      StrictlyOn(s[i], s[j - 1], s[j]);
    }
  }

  /** The finished form of a list of values. */
  ghost predicate Envelops(output: Value, field: string, items: seq<Value>, truncated: bool) {
    && IsField(field)
    && exists digest :: CanonicalDigest(digest) && output == WithDigest(Payload(field, items, truncated), digest)
  }

  lemma EnvelopeRead(output: Value, field: string) returns (truncated: bool)
    requires IsField(field) && output.Object? && |output.fields| == 3
    requires GetText(output.fields, "digest").Some? && CanonicalDigest(GetText(output.fields, "digest").value)
    requires HasTruncated(output.fields) && Get(output.fields, field).Some? && Get(output.fields, field).value.Array?
    ensures Envelops(output, field, Get(output.fields, field).value.items, truncated)
  {
    var items, digest := Get(output.fields, field).value.items, GetText(output.fields, "digest").value;
    truncated := Get(output.fields, "truncated").value.flag;
    CollectionKeys(field, items, truncated, digest);
    var f, t, d := Ascii(field), Ascii("truncated"), Ascii("digest");
    hide Ascii, CanonicalDigest;
    var same := WithDigest(Payload(field, items, truncated), digest);
    SameFields(output.fields, same.fields, [f, t, d]);
  }

  lemma EnvelopeWritten(output: Value, field: string, items: seq<Value>, truncated: bool)
    requires Envelops(output, field, items, truncated)
    ensures output.Object? && |output.fields| == 3
    ensures GetText(output.fields, "digest").Some? && CanonicalDigest(GetText(output.fields, "digest").value)
    ensures Get(output.fields, field) == Some(Array(items)) && Get(output.fields, "truncated") == Some(Bool(truncated))
  {
    var digest :| CanonicalDigest(digest) && output == WithDigest(Payload(field, items, truncated), digest);
    CollectionKeys(field, items, truncated, digest);
    hide Ascii, CanonicalDigest;
  }

  ghost predicate IsSearch(output: Value) {
    && Size(output) <= 131072
    && exists shown, truncated ::
         && Envelops(output, "matches", QueryOperations.MatchValues(shown), truncated)
         && |shown| <= 128 && QueryOperations.IncreasingKeys(shown) && forall m | m in shown :: Reportable(m)
  }

  /** The verifier accepts a search exactly when it is the finished form, within 128 KiB, of at most 128
      reportable matches in strictly increasing order. */
  lemma {:induction false} AcceptedSearchIff(ws: Bytes, output: Value)
    ensures Acceptable(output, ws, QueryOutput.SearchText) <==> IsSearch(output)
  {
    hide Size, CanonicalDigest, MatchShape, KeyLess, Reportable, QueryOperations.MatchValue, Envelops, GetText;
    hide QueryOperations.IncreasingKeys;
    if Acceptable(output, ws, QueryOutput.SearchText) {
      var items := Get(output.fields, "matches").value.items;
      var truncated := EnvelopeRead(output, "matches");
      var shown := MatchesRead(ws, items);
    }
    if IsSearch(output) {
      var shown, truncated :|
        && Envelops(output, "matches", QueryOperations.MatchValues(shown), truncated)
        && |shown| <= 128 && QueryOperations.IncreasingKeys(shown) && forall m | m in shown :: Reportable(m);
      EnvelopeWritten(output, "matches", QueryOperations.MatchValues(shown), truncated);
      MatchesWritten(ws, shown);
    }
  }

  lemma MatchesRead(ws: Bytes, items: seq<Value>) returns (shown: seq<Match>)
    requires forall i | 0 <= i < |items| :: MatchShape(ws, items[i])
    requires forall i | 0 < i < |items| :: KeyLess(MatchKey(ws, items[i - 1]), MatchKey(ws, items[i]))
    ensures items == QueryOperations.MatchValues(shown) && (forall m | m in shown :: Reportable(m))
    ensures QueryOperations.IncreasingKeys(shown)
  {
    hide MatchShape, MatchKey, KeyLess, Reportable, QueryOperations.MatchValue, QueryOperations.MatchLe;
    shown := [];
    for n := 0 to |items|
      invariant |shown| == n && forall k | 0 <= k < n ::
        Reports(items[k], shown[k]) && MatchKey(ws, items[k]) == Key(shown[k].path, shown[k].line, shown[k].column)
    {
      var m := MatchRead(ws, items[n]);
      shown := shown + [m];
    }
    forall k | 0 < k < |shown|
      ensures QueryOperations.MatchLe(shown[k - 1], shown[k]) && !QuerySearch.SameKey(shown[k - 1], shown[k])
    {
      assert KeyLess(MatchKey(ws, items[k - 1]), MatchKey(ws, items[k]));
      KeyLessIff(shown[k - 1], shown[k]);
    }
    forall i, j | 0 <= i < j < |shown|
      ensures QueryOperations.MatchLe(shown[i], shown[j]) && !QuerySearch.SameKey(shown[i], shown[j])
    {
      NeighboursSuffice(shown, i, j);
    }
  }

  lemma MatchesWritten(ws: Bytes, shown: seq<Match>)
    requires (forall m | m in shown :: Reportable(m)) && QueryOperations.IncreasingKeys(shown)
    ensures
      var items := QueryOperations.MatchValues(shown);
      && (forall i | 0 <= i < |items| :: MatchShape(ws, items[i]))
      && (forall i | 0 < i < |items| :: KeyLess(MatchKey(ws, items[i - 1]), MatchKey(ws, items[i])))
  {
    hide MatchShape, MatchKey, KeyLess, Reportable, QueryOperations.MatchValue, QueryOperations.MatchLe;
    var items := QueryOperations.MatchValues(shown);
    forall i | 0 <= i < |items|
      ensures MatchShape(ws, items[i]) && MatchKey(ws, items[i]) == Key(shown[i].path, shown[i].line, shown[i].column)
    {
      MatchWritten(ws, items[i], shown[i]);
    }
    forall i | 0 < i < |items|
      ensures KeyLess(MatchKey(ws, items[i - 1]), MatchKey(ws, items[i]))
    {
      KeyLessIff(shown[i - 1], shown[i]);
    }
  }

  // ---- entries ----

  /** An entry of some path below the root under its own name, with a size exactly for files. */
  ghost predicate Listable(x: QueryListing.Entry) {
    && (exists p :: IsPath(p) && p != [] && x.path == Display(p) && x.name == p[|p| - 1])
    && x.kind in {"file", "directory", "other"} && (x.kind == "file" <==> x.size.Some?)
    && (x.size.Some? ==> x.size.value < 0x1_0000_0000_0000_0000)
  }

  ghost predicate Lists(v: Value, x: QueryListing.Entry) {
    v == QueryListing.EntryValue(x) && Listable(x)
  }

  lemma KindRead(f: map<Bytes, Value>) returns (kind: string, size: Option<nat>)
    requires KindShape(f)
    ensures Get(f, "kind") == Some(Text(Ascii(kind)))
    ensures Get(f, "sizeBytes") == Some(if size.Some? then Number(size.value) else Null)
    ensures kind in {"file", "directory", "other"} && (kind == "file" <==> size.Some?)
    ensures size.Some? ==> size.value < 0x1_0000_0000_0000_0000
  {
    var k := GetText(f, "kind").value;
    kind := if k == Ascii("file") then "file" else if k == Ascii("directory") then "directory" else "other";
    size := if k == Ascii("file") then GetUnsigned(f, "sizeBytes") else None;
    assert |"directory"| == 9 && |"file"| == 4 && |"other"| == 5;
    hide Ascii;
  }

  lemma EntryNames() returns (names: seq<Bytes>)
    ensures names == [Ascii("name"), Ascii("path"), Ascii("kind"), Ascii("sizeBytes")]
    ensures forall i, j | 0 <= i < j < |names| :: names[i] != names[j]
  {
    names := [Ascii("name"), Ascii("path"), Ascii("kind"), Ascii("sizeBytes")];
    assert names[0][0] == 'n' as int && names[1][0] == 'p' as int && names[2][0] == 'k' as int && names[3][0] == 's' as int;
  }

  lemma EntryRead(ws: Bytes, v: Value) returns (x: QueryListing.Entry)
    requires EntryShape(ws, v)
    ensures Lists(v, x) && EntryPath(v) == x.path
  {
    var f := v.fields;
    hide KindShape, PathShape, PathOf, Display, IsPath, Ascii, QueryListing.EntryValue;
    var kind, size := KindRead(f);
    x := QueryListing.Entry(GetText(f, "name").value, GetText(f, "path").value, kind, size);
    PathShapeIff(ws, x.path);
    QueryListing.EntryFields(x);
    QueryListing.EntryIsObject(x);
    var names := EntryNames();
    SameFields(f, QueryListing.EntryValue(x).fields, names);
  }

  lemma KindWritten(x: QueryListing.Entry)
    requires Listable(x)
    ensures QueryListing.EntryValue(x).Object? && KindShape(QueryListing.EntryValue(x).fields)
  {
    QueryListing.EntryIsObject(x);
    QueryListing.EntryFields(x);
    QueryListing.KindsDiffer();
    hide Ascii, QueryListing.EntryValue, Display, IsPath;
    var fields := QueryListing.EntryValue(x).fields;
    assert Get(fields, "sizeBytes").Some? && GetUnsigned(fields, "sizeBytes") == x.size;
    hide Get;
  }

  lemma EntryWritten(ws: Bytes, v: Value, x: QueryListing.Entry)
    requires Lists(v, x)
    ensures EntryShape(ws, v) && EntryPath(v) == x.path
  {
    KindWritten(x);
    PathShapeIff(ws, x.path);
    QueryListing.EntryFields(x);
    QueryListing.EntryIsObject(x);
    hide PathShape, PathOf, Display, IsPath, Ascii, KindShape, QueryListing.EntryValue, GetText, Get;
    var p :| IsPath(p) && p != [] && x.path == Display(p) && x.name == p[|p| - 1];
  }

  ghost predicate IsListing(output: Value) {
    && Size(output) <= 131072
    && exists shown, truncated ::
         && Envelops(output, "entries", QueryListing.EntryValues(shown), truncated)
         && |shown| <= 512 && QueryListing.IncreasingPaths(shown) && forall x | x in shown :: Listable(x)
  }

  /** The verifier accepts a listing exactly when it is the finished form, within 128 KiB, of at most 512
      listable entries in strictly increasing order of their paths. */
  lemma {:induction false} AcceptedListingIff(ws: Bytes, output: Value)
    ensures Acceptable(output, ws, QueryOutput.ListDirectory) <==> IsListing(output)
  {
    hide Size, CanonicalDigest, PathShape, PathOf, KindShape, Listable, QueryListing.EntryValue, Envelops, GetText, LexLt, LexLe;
    hide QueryListing.IncreasingPaths;
    if Acceptable(output, ws, QueryOutput.ListDirectory) {
      var items := Get(output.fields, "entries").value.items;
      var truncated := EnvelopeRead(output, "entries");
      var shown := EntriesRead(ws, items);
    }
    if IsListing(output) {
      var shown, truncated :|
        && Envelops(output, "entries", QueryListing.EntryValues(shown), truncated)
        && |shown| <= 512 && QueryListing.IncreasingPaths(shown) && forall x | x in shown :: Listable(x);
      EnvelopeWritten(output, "entries", QueryListing.EntryValues(shown), truncated);
      EntriesWritten(ws, shown);
    }
  }

  lemma {:induction false} PathsIncrease(s: seq<QueryListing.Entry>, i: nat, j: nat)
    requires i < j < |s| && forall k | 0 < k < |s| :: LexLt(s[k - 1].path, s[k].path)
    ensures LexLt(s[i].path, s[j].path)
    decreases j - i
  {
    if i + 1 < j {
      PathsIncrease(s, i, j - 1);
      assert LexLt(s[j - 1].path, s[j].path);
      LexTotal(s[i].path, s[j - 1].path);
      hide LexLe;
      LexTransitive(s[i].path, s[j - 1].path, s[j].path);
    }
  }

  ghost predicate EntriesShaped(ws: Bytes, items: seq<Value>) {
    && (forall i | 0 <= i < |items| :: EntryShape(ws, items[i]))
    && (forall i | 0 < i < |items| :: LexLt(EntryPath(items[i - 1]), EntryPath(items[i])))
  }

  lemma EntriesRead(ws: Bytes, items: seq<Value>) returns (shown: seq<QueryListing.Entry>)
    requires EntriesShaped(ws, items)
    ensures items == QueryListing.EntryValues(shown) && (forall x | x in shown :: Listable(x))
    ensures QueryListing.IncreasingPaths(shown)
  {
    hide PathShape, PathOf, KindShape, Listable, QueryListing.EntryValue, LexLt, GetText;
    shown := [];
    for n := 0 to |items|
      invariant |shown| == n
      invariant forall k | 0 <= k < n :: Lists(items[k], shown[k]) && EntryPath(items[k]) == shown[k].path
    {
      var x := EntryRead(ws, items[n]);
      shown := shown + [x];
    }
    forall i, j | 0 <= i < j < |shown|
      ensures LexLt(shown[i].path, shown[j].path)
    {
      assert forall k | 0 < k < |shown| :: LexLt(EntryPath(items[k - 1]), EntryPath(items[k]));
      PathsIncrease(shown, i, j);
    }
  }

  lemma EntriesWritten(ws: Bytes, shown: seq<QueryListing.Entry>)
    requires (forall x | x in shown :: Listable(x)) && QueryListing.IncreasingPaths(shown)
    ensures EntriesShaped(ws, QueryListing.EntryValues(shown))
  {
    hide PathShape, PathOf, KindShape, Listable, QueryListing.EntryValue, LexLt, GetText;
    var items := QueryListing.EntryValues(shown);
    forall i | 0 <= i < |items|
      ensures EntryShape(ws, items[i]) && EntryPath(items[i]) == shown[i].path
    {
      EntryWritten(ws, items[i], shown[i]);
    }
  }
}
