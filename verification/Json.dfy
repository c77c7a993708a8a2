/** JSON values. Text is UTF-8; integers stand for the numbers the modelled outputs contain. */
module Json {
  import opened Wrappers
  import opened Utf8

  datatype Value =
    | Null
    | Bool(flag: bool)
    | Number(number: int)
    | Text(text: Bytes)
    | Array(items: seq<Value>)
    | Object(fields: map<Bytes, Value>)

  /** `object.get(key)` */
  function Get(fields: map<Bytes, Value>, key: string): Option<Value>
  {
    if Ascii(key) in fields then Some(fields[Ascii(key)]) else None
  }

  /** `object.get(key).and_then(Value::as_str)` */
  function GetText(fields: map<Bytes, Value>, key: string): Option<Bytes>
  {
    match Get(fields, key)
    case Some(Text(t)) => Some(t)
    case _ => None
  }

  const U64_LIMIT: nat := 0x1_0000_0000_0000_0000

  /** `object.get(key).and_then(Value::as_u64)` */
  function GetUnsigned(fields: map<Bytes, Value>, key: string): Option<nat> {
    match Get(fields, key)
    case Some(Number(n)) => if 0 <= n < U64_LIMIT then Some(n) else None
    case _ => None
  }

  /** `sha256:` and 64 lower-case hexadecimal digits. */
  predicate CanonicalDigest(value: Bytes) {
    && |value| == 71 && value[..7] == Ascii("sha256:")
    && forall i | 7 <= i < 71 :: 0x30 <= value[i] <= 0x39 || 0x61 <= value[i] <= 0x66
  }

  // ---- objects with just these members ----

  /** A map of so many different keys that are all in it holds nothing else. */
  lemma OneKey(fields: map<Bytes, Value>, a: Bytes)
    requires a in fields
    ensures |fields| == 1 <==> fields == map[a := fields[a]]
  {
    if |fields| == 1 {
      OnlyThese(fields, {a});
    }
  }

  lemma TwoKeys(fields: map<Bytes, Value>, a: Bytes, b: Bytes)
    requires a in fields && b in fields && a != b
    ensures |fields| == 2 <==> fields == map[a := fields[a], b := fields[b]]
  {
    var m := map[a := fields[a], b := fields[b]];
    assert |m.Keys| == |m| && m.Keys == {a, b};
    if |fields| == 2 {
      OnlyThese(fields, {a, b});
    }
  }

  lemma ThreeKeys(fields: map<Bytes, Value>, a: Bytes, b: Bytes, c: Bytes)
    requires a in fields && b in fields && c in fields && a != b && a != c && b != c
    ensures |fields| == 3 <==> fields == map[a := fields[a], b := fields[b], c := fields[c]]
  {
    var m := map[a := fields[a], b := fields[b], c := fields[c]];
    assert |m.Keys| == |m| && m.Keys == {a, b, c};
    if |fields| == 3 {
      OnlyThese(fields, {a, b, c});
    }
  }

  lemma OnlyThese(fields: map<Bytes, Value>, keys: set<Bytes>)
    requires keys <= fields.Keys && |fields| == |keys|
    ensures fields.Keys == keys
  {
    assert |fields.Keys| == |fields|;
    if k :| k in fields.Keys && k !in keys {
      assert |keys + {k}| <= |fields.Keys| by { SubsetSize(keys + {k}, fields.Keys); }
    }
  }

  lemma {:induction false} SubsetSize(a: set<Bytes>, b: set<Bytes>)
    requires a <= b
    ensures |a| <= |b|
  {
    if a != {} {
      var x :| x in a;
      SubsetSize(a - {x}, b - {x});
    }
  }

  lemma {:induction false} KeySet(k: seq<Bytes>)
    requires forall i, j | 0 <= i < j < |k| :: k[i] != k[j]
    ensures |set x | x in k| == |k|
  {
    if k != [] {
      KeySet(k[1..]);
      assert (set x | x in k) == {k[0]} + (set x | x in k[1..]);
    }
  }

  /** Objects that agree on as many different members as either has are the same. */
  lemma SameFields(a: map<Bytes, Value>, b: map<Bytes, Value>, k: seq<Bytes>)
    requires |a| == |b| == |k| && forall i, j | 0 <= i < j < |k| :: k[i] != k[j]
    requires forall i | 0 <= i < |k| :: k[i] in a && k[i] in b && a[k[i]] == b[k[i]]
    ensures a == b
  {
    KeySet(k);
    var keys := set x | x in k;
    OnlyThese(a, keys);
    OnlyThese(b, keys);
    forall x | x in keys
      ensures a[x] == b[x]
    {
      var i :| 0 <= i < |k| && k[i] == x;
    }
  }
}
