/** The canonical form itself: RFC 8259 text without white space, escaped as section 3.2.2.2 of RFC 8785
    says. The sizes that the output bounds are computed with are those of this text. */
module CanonicalJson {
  import opened Utf8
  import opened Json
  import opened JsonPointer
  import opened QueryOutput

  /** The order of object members: any listing of the names, each once. */
  type Order = set<Bytes> -> seq<Bytes>

  ghost predicate Lists(order: Order) {
    forall keys :: |order(keys)| == |keys| && forall k :: k in order(keys) <==> k in keys
  }

  function Escaped(b: Byte): Bytes {
    if b == 0x22 then Ascii("\\\"")
    else if b == 0x5C then Ascii("\\\\")
    else if b == 0x08 then Ascii("\\b")
    else if b == 0x09 then Ascii("\\t")
    else if b == 0x0A then Ascii("\\n")
    else if b == 0x0C then Ascii("\\f")
    else if b == 0x0D then Ascii("\\r")
    else if b < 0x20 then Ascii("\\u00") + [Ascii("0123456789abcdef")[b / 16], Ascii("0123456789abcdef")[b % 16]]
    else [b]
  }

  function EscapedAll(t: Bytes): Bytes {
    if t == [] then [] else Escaped(t[0]) + EscapedAll(t[1..])
  }

  function Quoted(t: Bytes): Bytes {
    [0x22] + EscapedAll(t) + [0x22]
  }

  ghost function Canonical(v: Value, order: Order): Bytes
    requires Lists(order)
    decreases v, 1, 0
  {
    match v
    case Null => Ascii("null")
    case Bool(flag) => if flag then Ascii("true") else Ascii("false")
    case Number(n) => if n < 0 then Ascii("-") + Decimal(-n) else Decimal(n)
    case Text(t) => Quoted(t)
    case Array(items) => Ascii("[") + ItemsText(v, |items|, order) + Ascii("]")
    case Object(fields) => Ascii("{") + MembersText(v, order(fields.Keys), order) + Ascii("}")
  }

  ghost function ItemsText(v: Value, n: nat, order: Order): Bytes
    requires Lists(order) && v.Array? && n <= |v.items|
    decreases v, 0, n
  {
    if n == 0 then []
    else ItemsText(v, n - 1, order) + (if n > 1 then Ascii(",") else []) + Canonical(v.items[n - 1], order)
  }

  ghost function MembersText(v: Value, names: seq<Bytes>, order: Order): Bytes
    requires Lists(order) && v.Object? && forall k | k in names :: k in v.fields
    decreases v, 0, |names|
  {
    if names == [] then []
    else
      assert forall k | k in names[1..] :: k in names;
      Quoted(names[0]) + Ascii(":") + Canonical(v.fields[names[0]], order)
      + (if |names| > 1 then Ascii(",") else []) + MembersText(v, names[1..], order)
  }

  lemma EscapedLength(b: Byte)
    ensures |Escaped(b)| == EscapedSize(b)
  {
  }

  lemma {:induction false} QuotedLength(t: Bytes)
    ensures |EscapedAll(t)| == TextSize(t)
    ensures |Quoted(t)| == StringSize(t)
  {
    if t != [] {
      EscapedLength(t[0]);
      QuotedLength(t[1..]);
    }
  }

  lemma {:induction false} DecimalLength(n: nat)
    ensures |Decimal(n)| == Digits(n)
  {
    if n >= 10 {
      DecimalLength(n / 10);
    }
  }

  ghost function Names(s: seq<Bytes>): set<Bytes> {
    set k | k in s
  }

  lemma {:induction false} NamesSize(s: seq<Bytes>)
    ensures |Names(s)| <= |s|
    ensures |Names(s)| == |s| ==> forall i, j | 0 <= i < j < |s| :: s[i] != s[j]
  {
    if s != [] {
      NamesSize(s[1..]);
      assert Names(s) == {s[0]} + Names(s[1..]);
      if |Names(s)| == |s| {
        assert s[0] !in Names(s[1..]);
        assert forall j | 0 < j < |s| :: s[j] == s[1..][j - 1] && s[j] in Names(s[1..]);
      }
    }
  }

  /** The size is the length of the canonical form, in whatever order the members come. */
  lemma {:induction false} SizeIsLength(v: Value, order: Order)
    requires Lists(order)
    ensures |Canonical(v, order)| == Size(v)
    decreases v, 1, 0
  {
    match v {
      case Null =>
      case Bool(_) =>
      case Number(n) => DecimalLength(if n < 0 then -n else n);
      case Text(t) => QuotedLength(t);
      case Array(items) => ItemsLength(v, |items|, order);
      case Object(fields) =>
        var names := order(fields.Keys);
        NamesSize(names);
        assert Names(names) == fields.Keys && |fields.Keys| == |fields|;
        MembersLength(v, names, order);
    }
  }

  lemma {:induction false} ItemsLength(v: Value, n: nat, order: Order)
    requires Lists(order) && v.Array? && n <= |v.items|
    ensures |ItemsText(v, n, order)| == ItemsSize(v, n) + Commas(n)
    decreases v, 0, n
  {
    hide Canonical, Size;
    if n > 0 {
      ItemsLength(v, n - 1, order);
      SizeIsLength(v.items[n - 1], order);
    }
  }

  lemma {:induction false} MembersLength(v: Value, names: seq<Bytes>, order: Order)
    requires Lists(order) && v.Object? && (forall k | k in names :: k in v.fields)
    requires forall i, j | 0 <= i < j < |names| :: names[i] != names[j]
    ensures Names(names) <= v.fields.Keys
    ensures |MembersText(v, names, order)| == FieldsSize(v, Names(names)) + Commas(|names|)
    decreases v, 0, |names|
  {
    hide Canonical, Size, Quoted, StringSize;
    if names != [] {
      var name, later := names[0], names[1..];
      assert forall k | k in later :: k in names;
      MembersLength(v, later, order);
      SizeIsLength(v.fields[name], order);
      QuotedLength(name);
      assert Names(names) - {name} == Names(later);
      FieldsSizeAny(v, Names(names), name);
    } else {
      assert Names(names) == {};
    }
  }
}
