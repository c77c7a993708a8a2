/** Listing one directory: query.rs, `list_directory`. */
module QueryListing {
  import opened Limits
  import opened Wrappers
  import opened Utf8
  import opened Sorting
  import opened Paths
  import opened Json
  import opened QueryOutput
  import QuerySearch
  import QueryOperations

  datatype FileType = Symlink | Directory | Regular | Special

  /** One item of the listing: its type may be unknown, a directory may not open, a file may have no
      readable length. */
  datatype Item =
    | Unreadable
    | NotUnicode
    | Untyped(name: Component)
    | Typed(name: Component, fileType: FileType, opens: bool, length: Option<nat>)

  datatype Listing = Unopenable | Unlistable | Items(items: seq<Item>)

  predicate HasName(item: Item) {
    item.Untyped? || item.Typed?
  }

  /** Names without slashes, each name once, lengths in 64 bits. */
  ghost predicate ProperItems(items: seq<Item>) {
    && (forall item | item in items && HasName(item) :: SLASH !in item.name)
    && (forall item | item in items && item.Typed? && item.length.Some? :: item.length.value < U64_LIMIT)
    && (forall i, j | 0 <= i < j < |items| && HasName(items[i]) && HasName(items[j]) :: items[i].name != items[j].name)
  }

  datatype Entry = Entry(name: Component, path: Bytes, kind: string, size: Option<nat>)

  predicate Joinable(path: RelativePath, item: Item) {
    HasName(item) && JoinPath(path, item.name).Success?
  }

  /** The listing fails at this item. */
  predicate Fails(path: RelativePath, item: Item) {
    item.Unreadable? || (item.Untyped? && Joinable(path, item))
  }

  /** The item is left out, or shown as less than it is. */
  predicate Partial(path: RelativePath, item: Item) {
    || !Joinable(path, item)
    || (item.Typed? && item.fileType.Directory? && !item.opens)
    || (item.Typed? && item.fileType.Regular? && item.length.None?)
  }

  function EntryOf(path: RelativePath, item: Item): Entry
    requires item.Typed?
  {
    var shown := Display(path + [item.name]);
    match item.fileType
    case Directory => Entry(item.name, shown, if item.opens then "directory" else "other", None)
    case Regular => Entry(item.name, shown, if item.length.Some? then "file" else "other", item.length)
    case _ => Entry(item.name, shown, "other", None)
  }

  /** `x` shows the item: a directory only if it opens, a file only with its length, and anything else
      without saying what it is. */
  ghost predicate Shown(path: RelativePath, item: Item, x: Entry) {
    && Joinable(path, item) && item.Typed? && x.name == item.name && x.path == Display(path + [item.name])
    && x.kind in {"directory", "file", "other"}
    && (x.kind == "directory" <==> item.fileType == Directory && item.opens)
    && (x.kind == "file" <==> item.fileType == Regular && item.length.Some?)
    && x.size == if x.kind == "file" then item.length else None
  }

  lemma ShownIff(path: RelativePath, item: Item, x: Entry)
    ensures Shown(path, item, x) <==> Joinable(path, item) && item.Typed? && x == EntryOf(path, item)
  {
    assert |"directory"| == 9 && |"file"| == 4 && |"other"| == 5;
  }

  /** The entries of a listing, in its order. */
  function Entries(path: RelativePath, items: seq<Item>): seq<Entry> {
    if items == [] then []
    else
      var last := items[|items| - 1];
      Entries(path, items[..|items| - 1]) + if Joinable(path, last) && last.Typed? then [EntryOf(path, last)] else []
  }

  ghost predicate ShownOf(path: RelativePath, items: seq<Item>, x: Entry) {
    exists item | item in items :: Shown(path, item, x)
  }

  ghost predicate AnyPartial(path: RelativePath, items: seq<Item>) {
    exists item | item in items :: Partial(path, item)
  }

  lemma OneMore(path: RelativePath, items: seq<Item>, item: Item, x: Entry)
    ensures ShownOf(path, items + [item], x) <==> ShownOf(path, items, x) || Shown(path, item, x)
  {
    hide Shown;
    assert item in items + [item];
  }

  lemma OneMoreItem(path: RelativePath, items: seq<Item>, item: Item)
    ensures AnyPartial(path, items + [item]) <==> AnyPartial(path, items) || Partial(path, item)
  {
    hide Partial;
    assert item in items + [item];
  }

  lemma {:induction false} EntriesAreShown(path: RelativePath, items: seq<Item>)
    ensures forall x :: x in Entries(path, items) <==> ShownOf(path, items, x)
    ensures |Entries(path, items)| <= |items|
    ensures |Entries(path, items)| == |items| <==> forall item | item in items :: Joinable(path, item) && item.Typed?
  {
    hide EntryOf, Joinable, Shown;
    if items != [] {
      var n := |items| - 1;
      EntriesAreShown(path, items[..n]);
      assert items == items[..n] + [items[n]];
      forall x
        ensures x in Entries(path, items) <==> ShownOf(path, items, x)
      {
        ShownIff(path, items[n], x);
        OneMore(path, items[..n], items[n], x);
      }
    }
  }

  ghost predicate PathsApart(s: seq<Entry>) {
    forall i, j | 0 <= i < j < |s| :: s[i].path != s[j].path
  }

  lemma PathsDiffer(path: RelativePath, a: Item, b: Item, x: Entry, y: Entry)
    requires IsPath(path) && HasName(a) && HasName(b) && a.name != b.name && SLASH !in a.name && SLASH !in b.name
    requires Shown(path, a, x) && Shown(path, b, y)
    ensures x.path != y.path
  {
    hide JoinPath, Display, WellFormed;
    JoinStaysInside(path, a.name);
    JoinStaysInside(path, b.name);
    var p, q := path + [a.name], path + [b.name];
    assert p[|path|] == a.name && q[|path|] == b.name;
    if x.path == y.path {
      DisplayIsInjective(p, q);
    }
  }

  lemma {:induction false} EntriesApart(path: RelativePath, items: seq<Item>)
    requires IsPath(path) && ProperItems(items)
    ensures PathsApart(Entries(path, items))
  {
    hide EntryOf, IsPath, ShownOf, JoinPath, Shown;
    if items != [] {
      var n := |items| - 1;
      var before, last := items[..n], items[n];
      assert ProperItems(before);
      EntriesApart(path, before);
      EntriesAreShown(path, before);
      if Joinable(path, last) && last.Typed? {
        var y := EntryOf(path, last);
        ShownIff(path, last, y);
        forall x | x in Entries(path, before)
          ensures x.path != y.path
        {
          LastDiffers(path, items, x, y);
        }
      }
    }
  }

  lemma LastDiffers(path: RelativePath, items: seq<Item>, x: Entry, y: Entry)
    requires IsPath(path) && ProperItems(items) && items != []
    requires ShownOf(path, items[..|items| - 1], x) && Shown(path, items[|items| - 1], y)
    ensures x.path != y.path
  {
    hide EntryOf, IsPath, JoinPath;
    var n := |items| - 1;
    var item :| item in items[..n] && Shown(path, item, x);
    var i :| 0 <= i < n && items[i] == item;
    PathsDiffer(path, items[i], items[n], x, y);
  }

  predicate EntryLe(a: Entry, b: Entry) {
    LexLe(a.path, b.path)
  }

  ghost predicate IncreasingPaths(s: seq<Entry>) {
    forall i, j | 0 <= i < j < |s| :: LexLt(s[i].path, s[j].path)
  }

  lemma EntryOrder()
    ensures TotalPreorder(EntryLe)
  {
    hide LexLe;
    LexIsTotalOrder();
  }

  lemma SortedEntries(found: seq<Entry>)
    requires PathsApart(found)
    ensures var s := Sort(EntryLe, found); IncreasingPaths(s) && |s| == |found| && forall x :: x in s <==> x in found
  {
    hide Sort, LexLe, TotalPreorder;
    var s := Sort(EntryLe, found);
    EntryOrder();
    SortSorted(EntryLe, found);
    SameElements(s, found);
    DistinctPermutes(found, s);
    forall i, j | 0 <= i < j < |s|
      ensures s[i].path != s[j].path
    {
      assert s[i] in s && s[j] in s;
      var k :| 0 <= k < |found| && found[k] == s[i];
      var l :| 0 <= l < |found| && found[l] == s[j];
      assert k < l || l < k;
    }
  }

  // ---- entries as JSON ----

  function EntryValue(x: Entry): Value {
    Object(map[Ascii("name") := Text(x.name), Ascii("path") := Text(x.path), Ascii("kind") := Text(Ascii(x.kind)),
               Ascii("sizeBytes") := if x.size.Some? then Number(x.size.value) else Null])
  }

  function EntryValues(s: seq<Entry>): seq<Value> {
    seq(|s|, i requires 0 <= i < |s| => EntryValue(s[i]))
  }

  lemma EntryFields(x: Entry)
    ensures
      var fields := EntryValue(x).fields;
      && |fields| == 4
      && GetText(fields, "name") == Some(x.name) && GetText(fields, "path") == Some(x.path)
      && GetText(fields, "kind") == Some(Ascii(x.kind))
      && Get(fields, "sizeBytes") == Some(if x.size.Some? then Number(x.size.value) else Null)
  {
    var n, p, k, b := Ascii("name"), Ascii("path"), Ascii("kind"), Ascii("sizeBytes");
    assert n[0] == 'n' as int && p[0] == 'p' as int && k[0] == 'k' as int && b[0] == 's' as int;
    var fields := EntryValue(x).fields;
    assert fields.Keys == {n, p, k, b} && |fields| == |fields.Keys|;
  }

  lemma KindsDiffer()
    ensures Ascii("file") != Ascii("directory") && Ascii("file") != Ascii("other")
  {
    assert |Ascii("file")| == 4 && |Ascii("other")| == 5 && |Ascii("directory")| == 9;
  }

  lemma ShownShape(ws: Bytes, path: RelativePath, item: Item, x: Entry)
    requires IsPath(path) && HasName(item) && SLASH !in item.name && Shown(path, item, x)
    requires item.Typed? && item.length.Some? ==> item.length.value < U64_LIMIT
    ensures EntryShape(ws, EntryValue(x)) && GetText(EntryValue(x).fields, "path") == Some(x.path)
  {
    ShownPath(ws, path, item, x);
    EntryIsObject(x);
    EntryFields(x);
    ShownKind(path, item, x);
    hide PathShape, PathOf, IsPath, EntryValue, EntryPathShape, KindShape, Get, Shown;
  }

  lemma ShownPath(ws: Bytes, path: RelativePath, item: Item, x: Entry)
    requires IsPath(path) && HasName(item) && SLASH !in item.name && Shown(path, item, x)
    ensures EntryValue(x).Object? && EntryPathShape(ws, EntryValue(x).fields)
  {
    hide PathShape, PathOf, IsPath, Display, EntryValue, GetText, JoinPath, WellFormed, Shown;
    var p := path + [item.name];
    ShownHasName(path, item, x);
    JoinStaysInside(path, item.name);
    IsPathOf(p);
    QueryOperations.PathShapeOf(ws, p);
    EntryFields(x);
    EntryIsObject(x);
    assert p[|p| - 1] == x.name;
  }

  lemma IsPathOf(p: RelativePath)
    requires WellFormed(p)
    ensures IsPath(p)
  {
  }

  lemma ShownKind(path: RelativePath, item: Item, x: Entry)
    requires HasName(item) && Shown(path, item, x)
    requires item.Typed? && item.length.Some? ==> item.length.value < U64_LIMIT
    ensures EntryValue(x).Object? && KindShape(EntryValue(x).fields)
  {
    EntryFields(x);
    EntryIsObject(x);
    KindsDiffer();
    hide Display, EntryValue, JoinPath, Ascii, Get, GetText;
    assert Get(EntryValue(x).fields, "sizeBytes").Some?;
    assert x.kind == "file" <==> x.size.Some?;
    assert GetUnsigned(EntryValue(x).fields, "sizeBytes") == x.size;
  }

  lemma EntryIsObject(x: Entry)
    ensures EntryValue(x).Object?
  {
  }

  lemma ShownShapes(ws: Bytes, path: RelativePath, items: seq<Item>, shown: seq<Entry>, truncated: bool)
    requires IsPath(path) && ProperItems(items)
    requires forall x | x in shown :: ShownOf(path, items, x)
    requires IncreasingPaths(shown) && |shown| <= MAX_LIST_DIRECTORY_ENTRIES
    ensures ListShape(ws, Payload("entries", EntryValues(shown), truncated).fields)
  {
    var values := EntryValues(shown);
    hide LexLe, EntryShape, EntryValue, IsPath, Shown, GetText;
    forall i | 0 <= i < |values|
      ensures EntryShape(ws, values[i]) && values[i].Object? && GetText(values[i].fields, "path") == Some(shown[i].path)
    {
      assert shown[i] in shown;
      var item :| item in items && Shown(path, item, shown[i]);
      ShownHasName(path, item, shown[i]);
      EntryIsObject(shown[i]);
      ShownShape(ws, path, item, shown[i]);
    }
    QueryOperations.PayloadFields("entries", values, truncated);
  }

  lemma ShownHasName(path: RelativePath, item: Item, x: Entry)
    requires Shown(path, item, x)
    ensures item.Typed? && JoinPath(path, item.name).Success?
    ensures x.name == item.name && x.path == Display(path + [item.name])
  {
  }

  // ---- the listing ----

  /** The items that a listing of this length looks at. */
  function Scanned(items: seq<Item>): seq<Item> {
    if |items| > MAX_DIRECTORY_SCAN_ENTRIES then items[..MAX_DIRECTORY_SCAN_ENTRIES] else items
  }

  /** The failure of a listing: an item in reach fails, or there are too many. */
  ghost function ListingError(path: RelativePath, items: seq<Item>): Option<QuerySearch.QueryFailure> {
    if exists item | item in Scanned(items) :: Fails(path, item) then Some(QuerySearch.Read)
    else if |items| > MAX_DIRECTORY_SCAN_ENTRIES then Some(QuerySearch.TooManyEntries)
    else None
  }

  /** `shown` answers the listing: the first entries by path, each of a listed item, and `truncated`
      exactly when an item is missing or shown as less than it is. */
  ghost predicate Lists(path: RelativePath, items: seq<Item>, shown: seq<Entry>, truncated: bool) {
    && IncreasingPaths(shown) && shown <= Sort(EntryLe, Entries(path, items))
    && (forall x | x in shown :: ShownOf(path, items, x))
    && (truncated <==> |shown| < |items| || AnyPartial(path, items))
    && (!truncated ==> forall item | item in items :: item.Typed? && EntryOf(path, item) in shown)
  }

  /** The first `k` items were scanned without a failure. */
  ghost predicate ScannedSoFar(path: RelativePath, items: seq<Item>, k: nat, entries: seq<Entry>, incomplete: bool) {
    && k <= |items| && (forall i | 0 <= i < k :: !Fails(path, items[i]))
    && entries == Entries(path, items[..k]) && (incomplete <==> AnyPartial(path, items[..k]))
  }

  lemma ScanStep(path: RelativePath, items: seq<Item>, k: nat, entries: seq<Entry>, incomplete: bool)
    requires ScannedSoFar(path, items, k, entries, incomplete) && k < |items| && !Fails(path, items[k])
    ensures
      var item := items[k];
      var more := if Joinable(path, item) && item.Typed? then entries + [EntryOf(path, item)] else entries;
      ScannedSoFar(path, items, k + 1, more, incomplete || Partial(path, item))
  {
    hide Fails, Joinable, EntryOf, Partial;
    assert items[..k + 1] == items[..k] + [items[k]];
    OneMoreItem(path, items[..k], items[k]);
    hide AnyPartial;
    assert items[..k + 1][..k] == items[..k];
  }

  lemma ScanStops(path: RelativePath, items: seq<Item>, k: nat, entries: seq<Entry>, incomplete: bool)
    requires ScannedSoFar(path, items, k, entries, incomplete) && k <= MAX_DIRECTORY_SCAN_ENTRIES
    ensures k < |items| && k < MAX_DIRECTORY_SCAN_ENTRIES && Fails(path, items[k]) ==>
      ListingError(path, items) == Some(QuerySearch.Read)
    ensures k < |items| && k == MAX_DIRECTORY_SCAN_ENTRIES ==>
      ListingError(path, items) == Some(QuerySearch.TooManyEntries)
    ensures k == |items| ==>
      && ListingError(path, items) == None && entries == Entries(path, items)
      && (incomplete <==> AnyPartial(path, items)) && forall item | item in items :: !Fails(path, item)
  {
    hide Fails, Entries, AnyPartial;
    if k < |items| && k < MAX_DIRECTORY_SCAN_ENTRIES {
      assert items[k] in Scanned(items);
    }
    assert k == |items| ==> items[..k] == items;
  }

  /** The scanning loop of `list_directory`. */
  method Scan(path: RelativePath, items: seq<Item>)
    returns (r: Result<(), QuerySearch.QueryFailure>, entries: seq<Entry>, incomplete: bool)
    ensures r.Failure? <==> ListingError(path, items).Some?
    ensures r.Failure? ==> r.error == ListingError(path, items).value
    ensures r.Success? ==> entries == Entries(path, items)
    ensures r.Success? ==> (incomplete <==> AnyPartial(path, items))
    ensures r.Success? ==> forall item | item in items :: !Fails(path, item)
  {
    hide JoinPath, EntryOf, ScannedSoFar, ListingError, AnyPartial, Entries;
    entries, incomplete := [], false;
    var scanned := 0;
    NothingScanned(path, items);
    for k := 0 to |items|
      invariant scanned == k <= MAX_DIRECTORY_SCAN_ENTRIES
      invariant ScannedSoFar(path, items, k, entries, incomplete)
    {
      ScanStops(path, items, k, entries, incomplete);
      scanned := scanned + 1;
      var item := items[k];
      if scanned > MAX_DIRECTORY_SCAN_ENTRIES {
        return Failure(QuerySearch.TooManyEntries), entries, incomplete;
      }
      if !Fails(path, item) {
        ScanStep(path, items, k, entries, incomplete);
      }
      match item {
        case Unreadable =>
          return Failure(QuerySearch.Read), entries, incomplete;
        case NotUnicode =>
          incomplete := true;
        case Untyped(name) =>
          if JoinPath(path, name).Success? {
            return Failure(QuerySearch.Read), entries, incomplete;
          }
          incomplete := true;
        case Typed(name, fileType, opens, length) =>
          if JoinPath(path, name).Failure? {
            incomplete := true;
          } else {
            var entry, degraded := Describe(path, item);
            incomplete := incomplete || degraded;
            entries := entries + [entry];
          }
      }
    }
    ScanStops(path, items, |items|, entries, incomplete);
    return Success(()), entries, incomplete;
  }

  lemma NothingScanned(path: RelativePath, items: seq<Item>)
    ensures ScannedSoFar(path, items, 0, [], false)
  {
  }

  /** The kind and size that the loop body reports. */
  method Describe(path: RelativePath, item: Item) returns (entry: Entry, degraded: bool)
    requires item.Typed? && Joinable(path, item)
    ensures entry == EntryOf(path, item) && (degraded <==> Partial(path, item))
  {
    var kind, size := "other", None;
    degraded := false;
    if item.fileType.Symlink? {
    } else if item.fileType.Directory? {
      if item.opens {
        kind := "directory";
      } else {
        degraded := true;
      }
    } else if item.fileType.Regular? {
      if item.length.Some? {
        kind, size := "file", item.length;
      } else {
        degraded := true;
      }
    }
    entry := Entry(item.name, Display(path + [item.name]), kind, size);
  }

  lemma ListsFrom(path: RelativePath, items: seq<Item>, n: nat, incomplete: bool)
    requires IsPath(path) && ProperItems(items) && forall item | item in items :: !Fails(path, item)
    requires incomplete <==> AnyPartial(path, items)
    requires n <= |Entries(path, items)|
    ensures
      var s := Sort(EntryLe, Entries(path, items));
      |s| == |Entries(path, items)| && Lists(path, items, s[..n], incomplete || n < |s|)
  {
    EntriesAreShown(path, items);
    EntriesApart(path, items);
    SortedEntries(Entries(path, items));
    var s := Sort(EntryLe, Entries(path, items));
    IncreasingPrefix(s, n);
    hide Sort, Entries, EntryLe, IncreasingPaths, EntryOf, JoinPath, Shown;
    if n == |s| {
      assert s[..n] == s;
    }
    forall item | item in items && !Partial(path, item)
      ensures Joinable(path, item) && item.Typed? && EntryOf(path, item) in s
    {
      ShownIff(path, item, EntryOf(path, item));
    }
  }

  lemma IncreasingPrefix(s: seq<Entry>, n: nat)
    requires IncreasingPaths(s) && n <= |s|
    ensures IncreasingPaths(s[..n]) && s[..n] <= s && forall x | x in s[..n] :: x in s
  {
    hide LexLe;
  }

  /** The first entries by path, at most 512. */
  function Capped(s: seq<Entry>): seq<Entry> {
    if |s| > MAX_LIST_DIRECTORY_ENTRIES then s[..MAX_LIST_DIRECTORY_ENTRIES] else s
  }

  /** `shown` is the longest beginning of the capped, sorted entries that fits. */
  ghost predicate AsManyAsFit(path: RelativePath, items: seq<Item>, shown: seq<Entry>) {
    var s := Capped(Sort(EntryLe, Entries(path, items)));
    shown <= s && LongestFit(EntryValues(s), |shown|, MAX_QUERY_OUTPUT_CANONICAL_BYTES)
  }

  /** `list_directory` */
  method ListDirectory(e: Encoder, path: RelativePath, listing: Listing)
    returns (r: Result<Value, QuerySearch.QueryFailure>, ghost shown: seq<Entry>, ghost truncated: bool)
    requires Lawful(e) && IsPath(path) && (listing.Items? ==> ProperItems(listing.items))
    ensures r.Success? <==> listing.Items? && ListingError(path, listing.items).None?
    ensures r.Failure? && listing.Unopenable? ==> r.error.Open?
    ensures r.Failure? && listing.Unlistable? ==> r.error.Read?
    ensures r.Failure? && listing.Items? ==> Some(r.error) == ListingError(path, listing.items)
    ensures r.Success? ==>
      && r.value == Payload("entries", EntryValues(shown), truncated) && |shown| <= MAX_LIST_DIRECTORY_ENTRIES
      && Size(WithDigest(r.value, e.digest(r.value))) <= MAX_QUERY_OUTPUT_CANONICAL_BYTES
      && Lists(path, listing.items, shown, truncated) && AsManyAsFit(path, listing.items, shown)
  {
    hide Size, Lists, Sort, Payload, LongestFit, ListingError, Entries, ProperItems, IsPath, Fails, Partial;
    shown, truncated := [], false;
    if listing.Unopenable? {
      return Failure(QuerySearch.Open), shown, truncated;
    }
    if listing.Unlistable? {
      return Failure(QuerySearch.Read), shown, truncated;
    }
    var items := listing.items;
    var scan, entries, incomplete := Scan(path, items);
    if scan.Failure? {
      return Failure(scan.error), shown, truncated;
    }
    var sorted := Sort(EntryLe, entries);
    var marked := incomplete;
    if |sorted| > MAX_LIST_DIRECTORY_ENTRIES {
      sorted := sorted[..MAX_LIST_DIRECTORY_ENTRIES];
      marked := true;
    }
    var payload, kept := BoundedCollectionOutput(e, "entries", EntryValues(sorted), marked, MAX_QUERY_OUTPUT_CANONICAL_BYTES);
    QueryOperations.FitBound(EntryValues(sorted), kept, MAX_QUERY_OUTPUT_CANONICAL_BYTES);
    truncated := marked || kept < |sorted|;
    shown := sorted[..kept];
    assert EntryValues(sorted)[..kept] == EntryValues(shown);
    ListsFrom(path, items, kept, incomplete);
    assert shown == Sort(EntryLe, entries)[..kept] && sorted == Capped(Sort(EntryLe, entries));
    return Success(payload.value), shown, truncated;
  }

  /** `execute` for a listing: every output that is produced passes the verifier. */
  method ExecuteList(e: Encoder, path: RelativePath, listing: Listing)
    returns (r: Result<(Value, Bytes), QuerySearch.QueryFailure>, ghost shown: seq<Entry>, ghost truncated: bool)
    requires Lawful(e) && IsPath(path) && (listing.Items? ==> ProperItems(listing.items))
    ensures r.Success? <==> listing.Items? && ListingError(path, listing.items).None?
    ensures r.Success? ==>
      && Lists(path, listing.items, shown, truncated)
      && QueryOperations.Finished(
           e, r.value.0, r.value.1, Payload("entries", EntryValues(shown), truncated), QueryOutput.ListDirectory)
  {
    hide Size, Payload, WithDigest, Acceptable, ListShape, IsPath, ProperItems, Shown, Partial, Entries, ListingError;
    hide QueryOperations.Finished;
    var payload;
    payload, shown, truncated := ListDirectory(e, path, listing);
    if payload.Failure? {
      return Failure(payload.error), shown, truncated;
    }
    forall ws: Bytes
      ensures ListShape(ws, payload.value.fields)
    {
      ShownShapes(ws, path, listing.items, shown, truncated);
    }
    QueryOperations.FinishedForAll(e, "entries", EntryValues(shown), truncated, QueryOutput.ListDirectory);
    var output := Finish(e, payload.value);
    return Success(output.value), shown, truncated;
  }
}
