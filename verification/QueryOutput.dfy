/** Canonical output sizes, the size-bounded collection, and the output verifier of query.rs. */
module QueryOutput {
  import opened Limits
  import opened Wrappers
  import opened Utf8
  import opened Sorting
  import opened Paths
  import opened Json

  const MAX_QUERY_OUTPUT_CANONICAL_BYTES: nat := 128 * 1024
  const MAX_LIST_DIRECTORY_ENTRIES: nat := 512

  // ---- sizes of canonical JSON, section 3.2 of RFC 8785 ----

  /** Bytes of one string byte after escaping: section 3.2.2.2 of RFC 8785. */
  function EscapedSize(b: Byte): nat {
    if b == 0x22 || b == 0x5C then 2
    else if b in {0x08, 0x09, 0x0A, 0x0C, 0x0D} then 2
    else if b < 0x20 then 6
    else 1
  }

  function TextSize(t: Bytes): nat {
    if t == [] then 0 else EscapedSize(t[0]) + TextSize(t[1..])
  }

  function StringSize(t: Bytes): nat {
    2 + TextSize(t)
  }

  function Digits(n: nat): nat {
    if n < 10 then 1 else 1 + Digits(n / 10)
  }

  function Commas(n: nat): nat {
    if n == 0 then 0 else n - 1
  }

  /** Length of the canonical form. The order of object members does not matter for it. */
  ghost function Size(v: Value): nat
    decreases v, 1, 0
  {
    match v
    case Null => 4
    case Bool(flag) => if flag then 4 else 5
    case Number(n) => if n < 0 then 1 + Digits(-n) else Digits(n)
    case Text(t) => StringSize(t)
    case Array(items) => 2 + ItemsSize(v, |items|) + Commas(|items|)
    case Object(fields) => 2 + FieldsSize(v, fields.Keys) + Commas(|fields|)
  }

  ghost function ItemsSize(v: Value, n: nat): nat
    requires v.Array? && n <= |v.items|
    decreases v, 0, n
  {
    if n == 0 then 0 else ItemsSize(v, n - 1) + Size(v.items[n - 1])
  }

  ghost function FieldsSize(v: Value, keys: set<Bytes>): nat
    requires v.Object? && keys <= v.fields.Keys
    decreases v, 0, |keys|
  {
    if keys == {} then 0
    else
      var k :| k in keys;
      StringSize(k) + 1 + Size(v.fields[k]) + FieldsSize(v, keys - {k})
  }

  lemma {:induction false} FieldsSizeAny(v: Value, keys: set<Bytes>, k: Bytes)
    requires v.Object? && keys <= v.fields.Keys && k in keys
    ensures FieldsSize(v, keys) == StringSize(k) + 1 + Size(v.fields[k]) + FieldsSize(v, keys - {k})
    decreases |keys|
  {
    hide Size, StringSize;
    var c :| c in keys && FieldsSize(v, keys) == StringSize(c) + 1 + Size(v.fields[c]) + FieldsSize(v, keys - {c});
    if c != k {
      FieldsSizeAny(v, keys - {c}, k);
      FieldsSizeAny(v, keys - {k}, c);
      assert keys - {c} - {k} == keys - {k} - {c};
    }
  }

  ghost function Sizes(items: seq<Value>): nat {
    if items == [] then 0 else Sizes(items[..|items| - 1]) + Size(items[|items| - 1])
  }

  lemma {:induction false} ItemsSizeIsSizes(items: seq<Value>, n: nat)
    requires n <= |items|
    ensures ItemsSize(Array(items), n) == Sizes(items[..n])
  {
    hide Size;
    if n > 0 {
      ItemsSizeIsSizes(items, n - 1);
      assert items[..n][..n - 1] == items[..n - 1];
    }
  }

  lemma {:induction false} PlainTextSize(t: Bytes)
    requires forall i | 0 <= i < |t| :: t[i] >= 0x20 && t[i] != 0x22 && t[i] != 0x5C
    ensures TextSize(t) == |t|
  {
    if t != [] {
      PlainTextSize(t[1..]);
    }
  }

  // ---- the envelope of a collection ----

  predicate IsField(field: string) {
    field == "entries" || field == "matches"
  }

  /** `collection_payload` */
  function Payload(field: string, items: seq<Value>, truncated: bool): (r: Value)
    requires IsField(field)
    ensures r.Object?
  {
    Object(map[Ascii(field) := Array(items), Ascii("truncated") := Bool(truncated)])
  }

  /** The payload with its `digest` member. */
  function WithDigest(payload: Value, digest: Bytes): (r: Value)
    requires payload.Object?
    ensures r.Object?
  {
    Object(payload.fields[Ascii("digest") := Text(digest)])
  }

  lemma ThreeFields(v: Value, a: Bytes, b: Bytes, c: Bytes)
    requires v.Object? && v.fields.Keys == {a, b, c} && a != b && a != c && b != c
    ensures Size(v) == 4 + (StringSize(a) + 1 + Size(v.fields[a])) + (StringSize(b) + 1 + Size(v.fields[b]))
                         + (StringSize(c) + 1 + Size(v.fields[c]))
  {
    hide StringSize;
    var keys := v.fields.Keys;
    FieldsSizeAny(v, keys, a);
    FieldsSizeAny(v, keys - {a}, b);
    FieldsSizeAny(v, keys - {a} - {b}, c);
    assert keys - {a} - {b} - {c} == {};
    assert |v.fields| == |keys| == 3;
  }

  /** Everything in the output that is not a candidate, with `truncated` false. */
  const ENVELOPE_BYTES: nat := 115

  /** The canonical size of a collection is its candidates, their separators and a fixed envelope. */
  lemma {:induction false} EnvelopeSize(field: string, items: seq<Value>, truncated: bool, digest: Bytes)
    requires IsField(field) && CanonicalDigest(digest)
    ensures Size(WithDigest(Payload(field, items, truncated), digest)) ==
            ENVELOPE_BYTES + Sizes(items) + Commas(|items|) - (if truncated then 1 else 0)
  {
    var v := WithDigest(Payload(field, items, truncated), digest);
    var f, t, d := Ascii(field), Ascii("truncated"), Ascii("digest");
    CollectionKeys(field, items, truncated, digest);
    KeySizes(field);
    DigestIsPlain(digest);
    hide Commas, FieldsSize, TextSize, Ascii, CanonicalDigest;
    ThreeFields(v, f, t, d);
    ItemsSizeIsSizes(items, |items|);
    assert items[..|items|] == items;
  }

  lemma CollectionKeys(field: string, items: seq<Value>, truncated: bool, digest: Bytes)
    requires IsField(field)
    ensures
      var fields := WithDigest(Payload(field, items, truncated), digest).fields;
      var f, t, d := Ascii(field), Ascii("truncated"), Ascii("digest");
      && f != t && f != d && t != d && fields.Keys == {f, t, d} && |fields| == 3
      && fields == map[f := Array(items), t := Bool(truncated), d := Text(digest)]
  {
    var fields := WithDigest(Payload(field, items, truncated), digest).fields;
    var f, t, d := Ascii(field), Ascii("truncated"), Ascii("digest");
    assert |f| == 7 && |t| == 9 && |d| == 6;
    assert |fields| == |fields.Keys|;
  }

  lemma KeySizes(field: string)
    requires IsField(field)
    ensures TextSize(Ascii(field)) == 7 && TextSize(Ascii("truncated")) == 9 && TextSize(Ascii("digest")) == 6
  {
    hide TextSize, EscapedSize;
    PlainTextSize(Ascii(field));
    PlainTextSize(Ascii("truncated"));
    PlainTextSize(Ascii("digest"));
  }

  lemma DigestIsPlain(digest: Bytes)
    requires CanonicalDigest(digest)
    ensures TextSize(digest) == 71
  {
    assert forall i | 0 <= i < 7 :: digest[i] == digest[..7][i] == "sha256:"[i] as int;
    PlainTextSize(digest);
  }

  /** The serializer and the hash: canonical length and digest of a value. */
  datatype Encoder = Encoder(size: Value -> nat, digest: Value -> Bytes)

  ghost predicate Lawful(e: Encoder) {
    && (forall v :: e.size(v) == Size(v))
    && (forall v :: CanonicalDigest(e.digest(v)))
  }

  /** The size the loop projects for a list of retained candidates. */
  ghost function Projected(items: seq<Value>): nat {
    ENVELOPE_BYTES + Sizes(items) + Commas(|items|)
  }

  /** `kept` is the longest prefix that fits. */
  ghost predicate LongestFit(candidates: seq<Value>, kept: nat, limit: nat) {
    && kept <= |candidates|
    && (kept == 0 || Projected(candidates[..kept]) <= limit)
    && (kept < |candidates| ==> Projected(candidates[..kept + 1]) > limit)
  }

  lemma ProjectedStep(candidates: seq<Value>, n: nat)
    requires n < |candidates|
    ensures Projected(candidates[..n + 1]) == Projected(candidates[..n]) + (if n == 0 then 0 else 1) + Size(candidates[n])
  {
    hide Size;
    assert candidates[..n + 1][..n] == candidates[..n];
  }

  lemma {:induction false} ProjectedGrows(candidates: seq<Value>, n: nat, m: nat)
    requires n <= m <= |candidates|
    ensures Projected(candidates[..n]) <= Projected(candidates[..m])
    decreases m - n
  {
    hide Projected;
    if n < m {
      ProjectedStep(candidates, m - 1);
      ProjectedGrows(candidates, n, m - 1);
    }
  }

  lemma OneLongestFit(candidates: seq<Value>, n: nat, m: nat, limit: nat)
    requires LongestFit(candidates, n, limit) && LongestFit(candidates, m, limit)
    ensures n == m
  {
    hide Projected;
    if n < m {
      ProjectedGrows(candidates, n + 1, m);
    } else if m < n {
      ProjectedGrows(candidates, m + 1, n);
    }
  }

  /** `bounded_collection_output`: the longest prefix whose exact size fits, marked truncated when
      anything is dropped; the final size check cannot fail when the empty envelope fits. */
  method BoundedCollectionOutput(e: Encoder, field: string, candidates: seq<Value>, incomplete: bool, limit: nat)
    returns (r: Option<Value>, ghost kept: nat)
    requires Lawful(e) && IsField(field)
    ensures LongestFit(candidates, kept, limit)
    ensures r.Some? ==>
      && r.value == Payload(field, candidates[..kept], incomplete || kept < |candidates|)
      && Size(WithDigest(r.value, e.digest(r.value))) <= limit
    ensures ENVELOPE_BYTES <= limit ==> r.Some?
  {
    hide Size, Sizes, Commas;
    var truncated := incomplete;
    var empty := Payload(field, [], false);
    var projected := e.size(WithDigest(empty, e.digest(empty)));
    EnvelopeSize(field, [], false, e.digest(empty));
    NoItems(candidates);
    var retained: seq<Value> := [];
    kept := 0;
    for n := 0 to |candidates|
      invariant kept == n && retained == candidates[..n] && projected == Projected(candidates[..n])
      invariant truncated == incomplete && (n == 0 || projected <= limit)
    {
      ProjectedStep(candidates, n);
      var next := projected + (if retained == [] then 0 else 1) + e.size(candidates[n]);
      if next > limit {
        truncated := true;
        break;
      }
      retained := retained + [candidates[n]];
      projected := next;
      kept := n + 1;
    }
    var payload := Payload(field, retained, truncated);
    EnvelopeSize(field, retained, truncated, e.digest(payload));
    if e.size(WithDigest(payload, e.digest(payload))) > limit {
      return None, kept;
    }
    return Some(payload), kept;
  }

  lemma NoItems(candidates: seq<Value>)
    ensures candidates[..0] == [] && Projected([]) == ENVELOPE_BYTES
  {
  }

  // ---- the verifier ----

  datatype Operation = ListDirectory | SearchText

  /** A reported path prints the components it parses to. */
  predicate PathShape(ws: Bytes, path: Bytes) {
    && CanonicalResource(ws, path).Success?
    && var parsed := ParseCanonical(ws, CanonicalResource(ws, path).value);
       parsed.Success? && Display(parsed.value) == path
  }

  function PathOf(ws: Bytes, path: Bytes): RelativePath
    requires PathShape(ws, path)
  {
    ParseCanonical(ws, CanonicalResource(ws, path).value).value
  }

  datatype Key = Key(path: Bytes, line: nat, column: nat)

  predicate KeyLess(a: Key, b: Key) {
    || LexLt(a.path, b.path)
    || (a.path == b.path && (a.line < b.line || (a.line == b.line && a.column < b.column)))
  }

  predicate MatchShape(ws: Bytes, v: Value) {
    && v.Object? && |v.fields| == 4
    && GetText(v.fields, "path").Some? && PathShape(ws, GetText(v.fields, "path").value)
    && PathOf(ws, GetText(v.fields, "path").value) != []
    && GetUnsigned(v.fields, "line").Some? && GetUnsigned(v.fields, "line").value > 0
    && GetUnsigned(v.fields, "column").Some? && GetUnsigned(v.fields, "column").value > 0
    && GetText(v.fields, "preview").Some? && |GetText(v.fields, "preview").value| <= MAX_SEARCH_PREVIEW_BYTES
  }

  function MatchKey(ws: Bytes, v: Value): Key
    requires MatchShape(ws, v)
  {
    Key(GetText(v.fields, "path").value, GetUnsigned(v.fields, "line").value, GetUnsigned(v.fields, "column").value)
  }

  /** A reported kind, and a size exactly for files. */
  predicate KindShape(fields: map<Bytes, Value>) {
    && GetText(fields, "kind").Some?
    && GetText(fields, "kind").value in {Ascii("file"), Ascii("directory"), Ascii("other")}
    && Get(fields, "sizeBytes").Some?
    && (GetText(fields, "kind").value == Ascii("file") ==> GetUnsigned(fields, "sizeBytes").Some?)
    && (GetText(fields, "kind").value != Ascii("file") ==> Get(fields, "sizeBytes").value.Null?)
  }

  /** The name of an entry is the last component of its path. */
  predicate EntryPathShape(ws: Bytes, fields: map<Bytes, Value>) {
    && GetText(fields, "name").Some?
    && GetText(fields, "path").Some? && PathShape(ws, GetText(fields, "path").value)
    && var parsed := PathOf(ws, GetText(fields, "path").value);
       (parsed != [] && parsed[|parsed| - 1] == GetText(fields, "name").value)
  }

  predicate EntryShape(ws: Bytes, v: Value) {
    v.Object? && |v.fields| == 4 && EntryPathShape(ws, v.fields) && KindShape(v.fields)
  }

  function EntryPath(v: Value): Bytes
    requires v.Object? && GetText(v.fields, "path").Some?
  {
    GetText(v.fields, "path").value
  }

  function HasTruncated(fields: map<Bytes, Value>): bool {
    Get(fields, "truncated").Some? && Get(fields, "truncated").value.Bool?
  }

  /** What `validate_search_output` accepts: well-shaped matches with strictly increasing keys. */
  ghost predicate SearchShape(ws: Bytes, fields: map<Bytes, Value>) {
    && HasTruncated(fields)
    && Get(fields, "matches").Some? && Get(fields, "matches").value.Array?
    && var items := Get(fields, "matches").value.items;
       && |items| <= MAX_SEARCH_MATCHES
       && (forall i | 0 <= i < |items| :: MatchShape(ws, items[i]))
       && (forall i | 0 < i < |items| :: KeyLess(MatchKey(ws, items[i - 1]), MatchKey(ws, items[i])))
  }

  ghost predicate ListShape(ws: Bytes, fields: map<Bytes, Value>) {
    && HasTruncated(fields)
    && Get(fields, "entries").Some? && Get(fields, "entries").value.Array?
    && var items := Get(fields, "entries").value.items;
       && |items| <= MAX_LIST_DIRECTORY_ENTRIES
       && (forall i | 0 <= i < |items| :: EntryShape(ws, items[i]))
       && (forall i | 0 < i < |items| :: LexLt(EntryPath(items[i - 1]), EntryPath(items[i])))
  }

  /** `validate_search_output` */
  method ValidateSearchOutput(ws: Bytes, fields: map<Bytes, Value>) returns (ok: bool)
    ensures ok <==> SearchShape(ws, fields)
  {
    hide MatchShape, KeyLess;
    if !HasTruncated(fields) {
      return false;
    }
    var matches := Get(fields, "matches");
    if matches.None? || !matches.value.Array? || |matches.value.items| > MAX_SEARCH_MATCHES {
      return false;
    }
    var items := matches.value.items;
    var previous: Option<Key> := None;
    for i := 0 to |items|
      invariant forall k | 0 <= k < i :: MatchShape(ws, items[k])
      invariant forall k | 0 < k < i :: KeyLess(MatchKey(ws, items[k - 1]), MatchKey(ws, items[k]))
      invariant previous == if i == 0 then None else Some(MatchKey(ws, items[i - 1]))
    {
      if !MatchShape(ws, items[i]) {
        return false;
      }
      var key := MatchKey(ws, items[i]);
      if previous.Some? && !KeyLess(previous.value, key) {
        return false;
      }
      previous := Some(key);
    }
    return true;
  }

  /** `validate_list_output` */
  method ValidateListOutput(ws: Bytes, fields: map<Bytes, Value>) returns (ok: bool)
    ensures ok <==> ListShape(ws, fields)
  {
    hide LexLt, PathShape, PathOf;
    if !HasTruncated(fields) {
      return false;
    }
    var entries := Get(fields, "entries");
    if entries.None? || !entries.value.Array? || |entries.value.items| > MAX_LIST_DIRECTORY_ENTRIES {
      return false;
    }
    var items := entries.value.items;
    var previous: Option<Bytes> := None;
    for i := 0 to |items|
      invariant forall k | 0 <= k < i :: EntryShape(ws, items[k])
      invariant forall k | 0 < k < i :: LexLt(EntryPath(items[k - 1]), EntryPath(items[k]))
      invariant previous == if i == 0 then None else Some(EntryPath(items[i - 1]))
    {
      if !EntryShape(ws, items[i]) {
        return false;
      }
      var path := EntryPath(items[i]);
      if previous.Some? && !LexLt(previous.value, path) {
        return false;
      }
      previous := Some(path);
    }
    return true;
  }

  datatype Inspected = Inspected(digest: Bytes, byteSize: nat, postcondition: bool)

  function WithoutDigest(fields: map<Bytes, Value>): Value {
    Object(fields - {Ascii("digest")})
  }

  ghost predicate Acceptable(output: Value, ws: Bytes, operation: Operation) {
    && Size(output) <= MAX_QUERY_OUTPUT_CANONICAL_BYTES
    && output.Object? && |output.fields| == 3
    && GetText(output.fields, "digest").Some? && CanonicalDigest(GetText(output.fields, "digest").value)
    && (if operation.SearchText? then SearchShape(ws, output.fields) else ListShape(ws, output.fields))
  }

  /** `inspect_output` */
  method InspectOutput(e: Encoder, output: Value, evidence: Bytes, ws: Bytes, operation: Operation)
    returns (r: Option<Inspected>)
    requires Lawful(e)
    ensures r.Some? <==> Acceptable(output, ws, operation)
    ensures r.Some? ==>
      var payload := WithoutDigest(output.fields);
      && r.value.digest == e.digest(payload) && r.value.byteSize == Size(payload)
      && (r.value.postcondition <==>
            GetText(output.fields, "digest").value == e.digest(payload) && evidence == e.digest(payload))
  {
    hide Size, SearchShape, ListShape, CanonicalDigest;
    if e.size(output) > MAX_QUERY_OUTPUT_CANONICAL_BYTES {
      return None;
    }
    if !output.Object? || |output.fields| != 3 {
      return None;
    }
    var claimed := GetText(output.fields, "digest");
    if claimed.None? || !CanonicalDigest(claimed.value) {
      return None;
    }
    var shaped;
    if operation.SearchText? {
      shaped := ValidateSearchOutput(ws, output.fields);
    } else {
      shaped := ValidateListOutput(ws, output.fields);
    }
    if !shaped {
      return None;
    }
    var payload := WithoutDigest(output.fields);
    var digest := e.digest(payload);
    return Some(Inspected(digest, e.size(payload), claimed.value == digest && evidence == digest));
  }

  /** `ObservedOutput::finish` */
  method Finish(e: Encoder, payload: Value) returns (r: Option<(Value, Bytes)>)
    requires Lawful(e) && payload.Object?
    ensures r.Some? <==> Size(WithDigest(payload, e.digest(payload))) <= MAX_QUERY_OUTPUT_CANONICAL_BYTES
    ensures r.Some? ==> r.value == (WithDigest(payload, e.digest(payload)), e.digest(payload))
  {
    hide Size;
    var digest := e.digest(payload);
    var output := WithDigest(payload, digest);
    if e.size(output) > MAX_QUERY_OUTPUT_CANONICAL_BYTES {
      return None;
    }
    return Some((output, digest));
  }

  /** Adding the digest changes nothing the shape checks look at, and taking it away again gives the
      payload back: a finished, well-shaped collection passes inspection with its postcondition. */
  lemma {:induction false} FinishedIsAccepted(e: Encoder, field: string, items: seq<Value>, truncated: bool, ws: Bytes, operation: Operation)
    requires Lawful(e) && IsField(field) && field == (if operation.SearchText? then "matches" else "entries")
    requires
      var payload := Payload(field, items, truncated);
      && Size(WithDigest(payload, e.digest(payload))) <= MAX_QUERY_OUTPUT_CANONICAL_BYTES
      && (if operation.SearchText? then SearchShape(ws, payload.fields) else ListShape(ws, payload.fields))
    ensures
      var payload := Payload(field, items, truncated);
      var output := WithDigest(payload, e.digest(payload));
      && Acceptable(output, ws, operation)
      && WithoutDigest(output.fields) == payload
      && GetText(output.fields, "digest") == Some(e.digest(payload))
  {
    hide Size, CanonicalDigest, MatchShape, EntryShape;
    var payload := Payload(field, items, truncated);
    var output := WithDigest(payload, e.digest(payload));
    var f, t, d := Ascii(field), Ascii("truncated"), Ascii("digest");
    CollectionKeys(field, items, truncated, e.digest(payload));
    hide Ascii;
    assert output.fields - {d} == payload.fields;
    assert Get(output.fields, field) == Get(payload.fields, field);
    assert Get(output.fields, "truncated") == Get(payload.fields, "truncated");
  }
}
