/** The two collection queries of query.rs from the opened directory to the finished output. */
module QueryOperations {
  import opened Limits
  import opened Wrappers
  import opened Utf8
  import opened Sorting
  import opened Paths
  import opened Json
  import opened QueryText
  import QuerySearch
  import opened QueryOutput

  type Tree = QuerySearch.Tree

  /** File sizes are signed 64-bit numbers. */
  ghost predicate FileSizesFit(tree: Tree) {
    forall p | tree(p).File? :: tree(p).length < 0x8000_0000_0000_0000
  }

  // ---- order of matches ----

  /** `search_match_key` comparison */
  predicate MatchLe(a: Match, b: Match) {
    if a.path != b.path then LexLe(a.path, b.path)
    else a.line < b.line || (a.line == b.line && a.column <= b.column)
  }

  lemma MatchOrder()
    ensures TotalPreorder(MatchLe)
  {
    hide LexLe;
    forall a: Match, b: Match
      ensures MatchLe(a, b) || MatchLe(b, a)
    {
      LexTotal(a.path, b.path);
    }
    forall a: Match, b: Match, c: Match | MatchLe(a, b) && MatchLe(b, c)
      ensures MatchLe(a, c)
    {
      LexTotal(a.path, b.path);
      LexTotal(b.path, c.path);
      if a.path != b.path && b.path != c.path {
        LexTransitive(a.path, b.path, c.path);
      }
    }
  }

  ghost predicate IncreasingKeys(s: seq<Match>) {
    forall i, j | 0 <= i < j < |s| :: MatchLe(s[i], s[j]) && !QuerySearch.SameKey(s[i], s[j])
  }

  lemma {:induction false} SortedMatches(found: seq<Match>)
    requires QuerySearch.KeysApart(found)
    ensures var s := Sort(MatchLe, found); IncreasingKeys(s) && |s| == |found| && forall m :: m in s <==> m in found
  {
    hide Sort, MatchLe, TotalPreorder;
    var s := Sort(MatchLe, found);
    MatchOrder();
    SortSorted(MatchLe, found);
    SameElements(s, found);
    DistinctPermutes(found, s);
    forall i, j | 0 <= i < j < |s|
      ensures !QuerySearch.SameKey(s[i], s[j])
    {
      assert s[i] in s && s[j] in s;
      var k :| 0 <= k < |found| && found[k] == s[i];
      var l :| 0 <= l < |found| && found[l] == s[j];
      assert k < l || l < k;
    }
  }

  // ---- matches as JSON ----

  function MatchValue(m: Match): Value {
    Object(map[Ascii("path") := Text(m.path), Ascii("line") := Number(m.line),
               Ascii("column") := Number(m.column), Ascii("preview") := Text(m.preview)])
  }

  function MatchValues(s: seq<Match>): seq<Value> {
    seq(|s|, i requires 0 <= i < |s| => MatchValue(s[i]))
  }

  lemma MatchFields(m: Match)
    ensures
      var fields := MatchValue(m).fields;
      && |fields| == 4
      && GetText(fields, "path") == Some(m.path) && Get(fields, "line") == Some(Number(m.line))
      && Get(fields, "column") == Some(Number(m.column)) && GetText(fields, "preview") == Some(m.preview)
  {
    var p, l, c, v := Ascii("path"), Ascii("line"), Ascii("column"), Ascii("preview");
    assert |p| == 4 && |l| == 4 && |c| == 6 && |v| == 7 && p[0] == 'p' as int && l[0] == 'l' as int;
    var fields := MatchValue(m).fields;
    assert fields.Keys == {p, l, c, v} && |fields| == |fields.Keys|;
  }

  lemma PathShapeOf(ws: Bytes, p: RelativePath)
    requires IsPath(p)
    ensures PathShape(ws, Display(p)) && PathOf(ws, Display(p)) == p
  {
    hide CanonicalResource, ParseCanonical, IsPath, Display;
    PathRoundTrip(ws, p);
  }

  lemma MatchValueShape(ws: Bytes, m: Match, p: RelativePath)
    requires IsPath(p) && p != [] && m.path == Display(p)
    requires 1 <= m.line < U64_LIMIT && 1 <= m.column < U64_LIMIT && |m.preview| <= MAX_SEARCH_PREVIEW_BYTES
    ensures MatchShape(ws, MatchValue(m)) && MatchKey(ws, MatchValue(m)) == Key(m.path, m.line, m.column)
  {
    PathShapeOf(ws, p);
    MatchFields(m);
    hide PathShape, PathOf, IsPath, Display, MatchValue, Get;
    assert MatchValue(m).Object? by { MatchIsObject(m); }
    assert GetUnsigned(MatchValue(m).fields, "line") == Some(m.line);
    assert GetUnsigned(MatchValue(m).fields, "column") == Some(m.column);
  }

  lemma MatchIsObject(m: Match)
    ensures MatchValue(m).Object?
  {
  }

  lemma HitShape(ws: Bytes, tree: Tree, path: RelativePath, query: Bytes, m: Match)
    requires GoodQuery(query) && QuerySearch.SettledTree(tree) && FileSizesFit(tree)
    requires QuerySearch.IsHit(tree, path, query, m)
    ensures MatchShape(ws, MatchValue(m)) && MatchKey(ws, MatchValue(m)) == Key(m.path, m.line, m.column)
  {
    hide WellFormed, Valid, FileMatches, Display, MatchShape, MatchKey, MatchValue, QuerySearch.Reached;
    var p :| QuerySearch.HitAt(tree, path, query, m, p);
    QuerySearch.HitPath(tree, path, query, m, p);
    FileMatchBounds(Display(p), tree(p).content, query, m);
    assert QuerySearch.Settled(tree(p));
    EmptyIsNotWellFormed();
    MatchValueShape(ws, m, p);
  }

  /** Everything a list of hits with increasing keys needs to pass the verifier. */
  lemma HitsShape(ws: Bytes, tree: Tree, path: RelativePath, query: Bytes, shown: seq<Match>, truncated: bool)
    requires GoodQuery(query) && QuerySearch.SettledTree(tree) && FileSizesFit(tree)
    requires forall m | m in shown :: QuerySearch.IsHit(tree, path, query, m)
    requires IncreasingKeys(shown) && |shown| <= MAX_SEARCH_MATCHES
    ensures SearchShape(ws, Payload("matches", MatchValues(shown), truncated).fields)
  {
    var items := MatchValues(shown);
    hide QuerySearch.IsHit, QuerySearch.SettledTree, FileSizesFit, GoodQuery, LexLe, MatchShape, MatchKey, MatchValue;
    forall i | 0 <= i < |items|
      ensures MatchShape(ws, items[i]) && MatchKey(ws, items[i]) == Key(shown[i].path, shown[i].line, shown[i].column)
    {
      assert shown[i] in shown;
      HitShape(ws, tree, path, query, shown[i]);
    }
    forall i | 0 < i < |items|
      ensures KeyLess(MatchKey(ws, items[i - 1]), MatchKey(ws, items[i]))
    {
      assert MatchLe(shown[i - 1], shown[i]);
    }
    PayloadFields("matches", items, truncated);
  }

  lemma PayloadFields(field: string, items: seq<Value>, truncated: bool)
    requires IsField(field)
    ensures
      var fields := Payload(field, items, truncated).fields;
      Get(fields, field) == Some(Array(items)) && Get(fields, "truncated") == Some(Bool(truncated))
  {
    assert |Ascii(field)| == 7 && |Ascii("truncated")| == 9;
  }

  // ---- arguments ----

  datatype QueryArguments = QueryArguments(path: RelativePath, query: Option<Bytes>)

  /** `parse_arguments` */
  function ParseArguments(ws: Bytes, arguments: Value, operation: Operation): Option<QueryArguments> {
    if !arguments.Object? || |arguments.fields| != (if operation.SearchText? then 2 else 1) then None
    else
      var path := GetText(arguments.fields, "path");
      if path.None? || ParseCanonical(ws, path.value).Failure? then None
      else
        var parsed := ParseCanonical(ws, path.value).value;
        if operation.ListDirectory? then Some(QueryArguments(parsed, None))
        else
          var query := GetText(arguments.fields, "query");
          if query.None? || !ValidQuery(query.value) then None else Some(QueryArguments(parsed, query))
  }

  /** Parsed arguments are what the operations ask for. */
  lemma ParsedArguments(ws: Bytes, arguments: Value, operation: Operation)
    requires ParseArguments(ws, arguments, operation).Some?
    ensures
      var a := ParseArguments(ws, arguments, operation).value;
      && IsPath(a.path) && GetText(arguments.fields, "path") == Some(Print(ws, a.path))
      && (operation.SearchText? ==> a.query.Some? && GoodQuery(a.query.value))
  {
    hide ParseCanonical, IsPath, Print, Get, Valid, HasControl, CharCount;
    ParseIffPrinted(ws, GetText(arguments.fields, "path").value, ParseArguments(ws, arguments, operation).value.path);
  }

  /** Arguments are accepted exactly when they are the members of the operation and nothing else: a path in
      its canonical form, and for a search a valid query. */
  lemma {:induction false} ParsedIff(ws: Bytes, arguments: Value, operation: Operation, a: QueryArguments)
    ensures ParseArguments(ws, arguments, operation) == Some(a) <==>
      && IsPath(a.path) && (a.query.Some? <==> operation.SearchText?)
      && (a.query.Some? ==> ValidQuery(a.query.value))
      && arguments == Object(
           if a.query.Some? then
             map[Ascii("path") := Text(Print(ws, a.path)), Ascii("query") := Text(a.query.value)]
           else map[Ascii("path") := Text(Print(ws, a.path))])
  {
    assert Ascii("path")[0] == 'p' as int && Ascii("query")[0] == 'q' as int;
    hide ParseCanonical, IsPath, Print, ValidQuery, Ascii;
    var p, q := Ascii("path"), Ascii("query");
    if arguments.Object? && p in arguments.fields {
      OneKey(arguments.fields, p);
      if q in arguments.fields {
        TwoKeys(arguments.fields, p, q);
      }
      if arguments.fields[p].Text? {
        ParseIffPrinted(ws, arguments.fields[p].text, a.path);
      }
    }
  }

  // ---- search ----

  /** What one search used up. */
  datatype Spent = Spent(visited: nat, scanned: nat, found: nat, directoryCalls: nat)

  predicate WithinBudgets(spent: Spent) {
    && spent.visited <= QuerySearch.MAX_SEARCH_VISITED_ENTRIES
    && spent.scanned <= QuerySearch.MAX_SEARCH_TOTAL_BYTES
    && spent.found <= MAX_SEARCH_MATCHES
    && spent.directoryCalls <= 1 + QuerySearch.MAX_SEARCH_VISITED_ENTRIES
  }

  /** No budget can run out: fewer than 4096 entries, 8 MiB of files and 128 hits below `path`. */
  ghost predicate Small(tree: Tree, path: RelativePath, query: Bytes)
    requires GoodQuery(query)
  {
    && !QuerySearch.ManyEntries(tree, path) && !QuerySearch.ManyBytes(tree, path)
    && !QuerySearch.ManyHits(tree, path, query)
  }

  /** A budget that was used up was used up by what lies below `path`. */
  lemma BudgetsAreSpent(
    tree: Tree, path: RelativePath, query: Bytes, touched: set<RelativePath>, spent: Spent, exhausted: bool,
    found: seq<Match>)
    requires GoodQuery(query) && QuerySearch.Paid(tree, path, touched, 0, spent.visited, 0, spent.scanned, exhausted)
    requires QuerySearch.KeysApart(found) && forall m | m in found :: QuerySearch.IsHit(tree, path, query, m)
    requires exhausted || |found| == MAX_SEARCH_MATCHES || spent.visited == QuerySearch.MAX_SEARCH_VISITED_ENTRIES
    ensures !Small(tree, path, query)
  {
    hide QuerySearch.IsHit, QuerySearch.KeysApart, QuerySearch.Reached;
  }

  /** `shown` answers the search: only hits, in strictly increasing order, and unless the answer says that
      it is truncated all of them, with nothing below `path` that a search cannot look at. */
  ghost predicate Answers(tree: Tree, path: RelativePath, query: Bytes, shown: seq<Match>, truncated: bool)
    requires GoodQuery(query)
  {
    && tree(path).Dir? && IncreasingKeys(shown)
    && (forall m | m in shown :: QuerySearch.IsHit(tree, path, query, m))
    && (!truncated ==>
          && !QuerySearch.Obstacle(tree, path)
          && forall m | QuerySearch.IsHit(tree, path, query, m) :: m in shown)
  }

  /** When no budget can run out: the search fails exactly when something below `path` makes it fail;
      otherwise it finds every hit and is truncated exactly when something below cannot be looked at or
      the size of the output drops a match. */
  ghost predicate Law(
    tree: Tree, path: RelativePath, query: Bytes, ok: bool, found: seq<Match>, shown: seq<Match>, truncated: bool)
    requires GoodQuery(query)
  {
    Small(tree, path, query) ==>
      && (ok <==> forall e :: !QuerySearch.Trouble(tree, path, e))
      && (ok ==>
            && (forall m :: m in found <==> QuerySearch.IsHit(tree, path, query, m))
            && (truncated <==> QuerySearch.Obstacle(tree, path) || |shown| < |found|))
  }

  /** `output` is the finished collection, and the verifier accepts it for every workspace. */
  ghost predicate Finished(e: Encoder, output: Value, digest: Bytes, payload: Value, operation: Operation)
    requires payload.Object?
  {
    && digest == e.digest(payload) && output == WithDigest(payload, digest)
    && (forall ws :: Acceptable(output, ws, operation))
    && WithoutDigest(output.fields) == payload && GetText(output.fields, "digest") == Some(digest)
  }

  predicate Collects(operation: Operation, field: string) {
    field == (if operation.SearchText? then "matches" else "entries")
  }

  lemma FinishedForAll(e: Encoder, field: string, items: seq<Value>, truncated: bool, operation: Operation)
    requires Lawful(e) && Collects(operation, field)
    requires
      var payload := Payload(field, items, truncated);
      && Size(WithDigest(payload, e.digest(payload))) <= MAX_QUERY_OUTPUT_CANONICAL_BYTES
      && forall ws :: if operation.SearchText? then SearchShape(ws, payload.fields) else ListShape(ws, payload.fields)
    ensures
      var payload := Payload(field, items, truncated);
      Finished(e, WithDigest(payload, e.digest(payload)), e.digest(payload), payload, operation)
  {
    hide Lawful, Size, SearchShape, ListShape, Payload, WithDigest, Acceptable, Get;
    var payload := Payload(field, items, truncated);
    forall ws: Bytes
      ensures Acceptable(WithDigest(payload, e.digest(payload)), ws, operation)
    {
      FinishedIsAccepted(e, field, items, truncated, ws, operation);
    }
    FinishedIsAccepted(e, field, items, truncated, [], operation);
  }

  lemma AnswerFromSearch(
    tree: Tree, path: RelativePath, query: Bytes, found: seq<Match>, cut: bool, marked: bool, kept: nat)
    requires GoodQuery(query) && tree(path).Dir? && QuerySearch.Searched(tree, path, query, found, !cut, !marked)
    requires kept <= |found| && (cut ==> marked && !Small(tree, path, query))
    requires marked ==> cut || QuerySearch.Obstacle(tree, path)
    ensures
      var s := Sort(MatchLe, found);
      && |s| == |found| && Answers(tree, path, query, s[..kept], marked || kept < |found|)
      && Law(tree, path, query, true, found, s[..kept], marked || kept < |found|)
      && QuerySearch.KeysApart(found) && forall m | m in found :: QuerySearch.IsHit(tree, path, query, m)
  {
    SortedMatches(found);
    var s := Sort(MatchLe, found);
    hide MatchLe, Sort, QuerySearch.IsHit, QuerySearch.Obstacle, QuerySearch.Trouble, QuerySearch.KeysApart, GoodQuery;
    hide IncreasingKeys, Small;
    IncreasingPrefix(s, kept);
    if !marked && kept == |found| {
      assert s[..kept] == s;
    }
  }

  lemma IncreasingPrefix(s: seq<Match>, kept: nat)
    requires IncreasingKeys(s) && kept <= |s|
    ensures IncreasingKeys(s[..kept]) && forall m | m in s[..kept] :: m in s
  {
    hide MatchLe;
  }

  /** `shown` is the longest beginning of the sorted matches that fits. */
  ghost predicate AsManyAsFit(found: seq<Match>, shown: seq<Match>) {
    var s := Sort(MatchLe, found);
    shown <= s && LongestFit(MatchValues(s), |shown|, MAX_QUERY_OUTPUT_CANONICAL_BYTES)
  }

  /** `search_text`. `shown` are the reported matches, `found` all that were collected. */
  method SearchText(e: Encoder, tree: Tree, path: RelativePath, query: Bytes)
    returns (r: Result<Value, QuerySearch.QueryFailure>, ghost shown: seq<Match>, ghost truncated: bool, ghost spent: Spent,
             ghost found: seq<Match>)
    requires Lawful(e) && GoodQuery(query) && IsPath(path)
    requires QuerySearch.ProperTree(tree) && QuerySearch.SettledTree(tree)
    ensures WithinBudgets(spent)
    ensures Law(tree, path, query, r.Success?, found, shown, truncated)
    ensures r.Success? ==>
      && r.value == Payload("matches", MatchValues(shown), truncated) && |shown| <= MAX_SEARCH_MATCHES
      && Size(WithDigest(r.value, e.digest(r.value))) <= MAX_QUERY_OUTPUT_CANONICAL_BYTES
      && Answers(tree, path, query, shown, truncated)
      && (truncated ==> !Small(tree, path, query) || QuerySearch.Obstacle(tree, path) || |shown| < |found|)
      && |found| == spent.found && QuerySearch.KeysApart(found) && AsManyAsFit(found, shown)
      && (forall m | m in found :: QuerySearch.IsHit(tree, path, query, m))
    ensures r.Failure? ==> QuerySearch.Trouble(tree, path, r.error)
    ensures !tree(path).Dir? ==> r == Failure(QuerySearch.Open)
  {
    hide Size, GoodQuery, QuerySearch.Searched, Answers, Sort, QuerySearch.Obstacle, Payload, LongestFit, Law, Small;
    hide QuerySearch.Trouble, QuerySearch.Paid, QuerySearch.KeysApart, IsPath;
    shown, truncated, spent, found := [], false, Spent(0, 0, 0, 0), [];
    if !tree(path).Dir? {
      QuerySearch.TroubleHere(tree, path, QuerySearch.Open);
      FailureIsLawful(tree, path, query, QuerySearch.Open, found, shown, truncated);
      return Failure(QuerySearch.Open), shown, truncated, spent, found;
    }
    var state := new QuerySearch.SearchState();
    var searched;
    ghost var touched;
    searched, touched := state.SearchDirectory(tree, path, query);
    assert state.matches[0..] == state.matches;
    spent := Spent(state.visitedEntries, state.scannedBytes, |state.matches|, state.directoryCalls);
    if searched.Failure? {
      FailureIsLawful(tree, path, query, searched.error, found, shown, truncated);
      return Failure(searched.error), shown, truncated, spent, found;
    }
    found := state.matches;
    if state.Full() {
      SearchedAreHits(tree, path, query, found, !state.Cut(), !state.truncated);
      BudgetsAreSpent(tree, path, query, touched, spent, state.exhausted, found);
    }
    var sorted := Sort(MatchLe, state.matches);
    var payload, kept := BoundedCollectionOutput(e, "matches", MatchValues(sorted), state.truncated, MAX_QUERY_OUTPUT_CANONICAL_BYTES);
    FitBound(MatchValues(sorted), kept, MAX_QUERY_OUTPUT_CANONICAL_BYTES);
    truncated := state.truncated || kept < |sorted|;
    shown := sorted[..kept];
    assert MatchValues(sorted)[..kept] == MatchValues(shown);
    AnswerFromSearch(tree, path, query, state.matches, state.Cut(), state.truncated, kept);
    return Success(payload.value), shown, truncated, spent, found;
  }

  lemma FailureIsLawful(
    tree: Tree, path: RelativePath, query: Bytes, error: QuerySearch.QueryFailure,
    found: seq<Match>, shown: seq<Match>, truncated: bool)
    requires GoodQuery(query) && QuerySearch.Trouble(tree, path, error)
    ensures Law(tree, path, query, false, found, shown, truncated)
  {
    hide QuerySearch.Trouble, Small;
  }

  lemma SearchedAreHits(tree: Tree, path: RelativePath, query: Bytes, found: seq<Match>, all: bool, clear: bool)
    requires GoodQuery(query) && QuerySearch.Searched(tree, path, query, found, all, clear)
    ensures QuerySearch.KeysApart(found) && forall m | m in found :: QuerySearch.IsHit(tree, path, query, m)
  {
    hide QuerySearch.IsHit, QuerySearch.Obstacle, QuerySearch.Trouble, QuerySearch.KeysApart;
  }

  lemma FitBound(candidates: seq<Value>, kept: nat, limit: nat)
    requires LongestFit(candidates, kept, limit)
    ensures kept <= |candidates|
  {
  }

  /** `execute` for a search: `search_text`, then `finish`. The limit is never hit and the verifier
      accepts every output that is produced, with its postcondition. */
  method ExecuteSearch(e: Encoder, tree: Tree, path: RelativePath, query: Bytes)
    returns (r: Result<(Value, Bytes), QuerySearch.QueryFailure>, ghost shown: seq<Match>, ghost truncated: bool,
             ghost found: seq<Match>)
    requires Lawful(e) && GoodQuery(query) && IsPath(path)
    requires QuerySearch.ProperTree(tree) && QuerySearch.SettledTree(tree) && FileSizesFit(tree)
    ensures r.Success? ==>
      && Answers(tree, path, query, shown, truncated)
      && Finished(e, r.value.0, r.value.1, Payload("matches", MatchValues(shown), truncated), QueryOutput.SearchText)
    ensures r.Failure? ==> QuerySearch.Trouble(tree, path, r.error)
    ensures Law(tree, path, query, r.Success?, found, shown, truncated)
  {
    hide QuerySearch.Trouble, Law;
    hide Size, GoodQuery, Payload, WithDigest, Acceptable, SearchShape, FileSizesFit, QuerySearch.IsHit, IncreasingKeys;
    ghost var spent;
    var payload;
    payload, shown, truncated, spent, found := SearchText(e, tree, path, query);
    if payload.Failure? {
      return Failure(payload.error), shown, truncated, found;
    }
    forall ws: Bytes
      ensures SearchShape(ws, payload.value.fields)
    {
      HitsShape(ws, tree, path, query, shown, truncated);
    }
    FinishedForAll(e, "matches", MatchValues(shown), truncated, QueryOutput.SearchText);
    var output := Finish(e, payload.value);
    return Success(output.value), shown, truncated, found;
  }

  /** What the producer finished, the verifier inspects successfully when told the digest. */
  method InspectFinished(e: Encoder, output: Value, digest: Bytes, ghost payload: Value, ws: Bytes, operation: Operation)
    returns (r: Option<Inspected>)
    requires Lawful(e) && payload.Object? && Finished(e, output, digest, payload, operation)
    ensures r == Some(Inspected(digest, Size(payload), true))
  {
    hide Size, Acceptable, WithDigest, GetText, WithoutDigest;
    OutputIsObject(output, ws, operation);
    r := InspectOutput(e, output, digest, ws, operation);
  }

  lemma OutputIsObject(output: Value, ws: Bytes, operation: Operation)
    requires Acceptable(output, ws, operation)
    ensures output.Object?
  {
    hide Size;
  }
}
