/** JSON pointers as `Value::pointer` and `Value::pointer_mut` read them: sections 3 and 4 of RFC 6901. */
module JsonPointer {
  import opened Wrappers
  import opened Utf8
  import opened Paths
  import opened Json

  const TILDE: Byte := 0x7E
  const ZERO: Byte := 0x30
  const ONE: Byte := 0x31

  type Pointer = Bytes
  type Tokens = seq<Bytes>

  // ---- tokens ----

  /** `str::replace` of a tilde and `second`. */
  function ReplacePair(t: Bytes, second: Byte, out: Byte): Bytes {
    if t == [] then []
    else if |t| >= 2 && t[0] == TILDE && t[1] == second then [out] + ReplacePair(t[2..], second, out)
    else [t[0]] + ReplacePair(t[1..], second, out)
  }

  /** Two passes, in the order that section 4 of RFC 6901 prescribes. */
  function Unescape(t: Bytes): Bytes {
    ReplacePair(ReplacePair(t, ONE, SLASH), ZERO, TILDE)
  }

  function Escape(t: Bytes): Bytes {
    if t == [] then []
    else if t[0] == TILDE then [TILDE, ZERO] + Escape(t[1..])
    else if t[0] == SLASH then [TILDE, ONE] + Escape(t[1..])
    else [t[0]] + Escape(t[1..])
  }

  /** A reference token: every tilde begins an escape. */
  predicate TokenOk(t: Bytes) {
    if t == [] then true
    else if t[0] == TILDE then |t| >= 2 && (t[1] == ZERO || t[1] == ONE) && TokenOk(t[2..])
    else t[0] != SLASH && TokenOk(t[1..])
  }

  lemma {:induction false} UnescapeEscape(t: Bytes)
    ensures Unescape(Escape(t)) == t && TokenOk(Escape(t))
  {
    if t != [] {
      UnescapeEscape(t[1..]);
      var r := Escape(t[1..]);
      assert ([TILDE, ZERO] + r)[1..] == [ZERO] + r && ([TILDE, ZERO] + r)[2..] == r && ([ZERO] + r)[1..] == r;
      assert ([TILDE, ONE] + r)[2..] == r && ([t[0]] + r)[1..] == r;
      UnescapePairs(r);
      if t[0] != TILDE && t[0] != SLASH {
        UnescapePlain(t[0], r);
      }
    }
  }

  lemma UnescapePlain(b: Byte, r: Bytes)
    requires b != TILDE
    ensures Unescape([b] + r) == [b] + Unescape(r)
  {
    assert ([b] + r)[1..] == r;
    var once := ReplacePair(r, ONE, SLASH);
    assert ([b] + once)[1..] == once;
  }

  lemma UnescapePairs(r: Bytes)
    ensures Unescape([TILDE, ZERO] + r) == [TILDE] + Unescape(r)
    ensures Unescape([TILDE, ONE] + r) == [SLASH] + Unescape(r)
  {
    var once := ReplacePair(r, ONE, SLASH);
    assert ([TILDE, ONE] + r)[2..] == r && ([SLASH] + once)[1..] == once;
    assert ([TILDE, ZERO] + r)[1..] == [ZERO] + r && ([ZERO] + r)[1..] == r;
    assert ReplacePair([TILDE, ZERO] + r, ONE, SLASH) == [TILDE] + ([ZERO] + once) == [TILDE, ZERO] + once;
    assert ([TILDE, ZERO] + once)[2..] == once;
  }

  lemma {:induction false} EscapeUnescape(t: Bytes)
    requires TokenOk(t)
    ensures Escape(Unescape(t)) == t
    decreases |t|
  {
    if t != [] {
      if t[0] == TILDE {
        EscapeUnescape(t[2..]);
        UnescapePairs(t[2..]);
        assert t == [TILDE, t[1]] + t[2..];
        var u := Unescape(t[2..]);
        assert ([TILDE] + u)[1..] == u && ([SLASH] + u)[1..] == u;
      } else {
        EscapeUnescape(t[1..]);
        UnescapePlain(t[0], t[1..]);
        assert t == [t[0]] + t[1..];
        var u := Unescape(t[1..]);
        assert ([t[0]] + u)[1..] == u;
      }
    }
  }

  // ---- pointers ----

  function UnescapeAll(parts: seq<Bytes>): Tokens {
    seq(|parts|, i requires 0 <= i < |parts| => Unescape(parts[i]))
  }

  function Parse(p: Pointer): Option<Tokens> {
    if p == [] then Some([])
    else if p[0] != SLASH then None
    else Some(UnescapeAll(Split(p)[1..]))
  }

  /** The grammar of section 3 of RFC 6901. */
  predicate WellFormedPointer(p: Pointer) {
    p == [] || (p[0] == SLASH && forall i | 1 <= i < |Split(p)| :: TokenOk(Split(p)[i]))
  }

  lemma SplitLeading(p: Pointer)
    requires p != [] && p[0] == SLASH
    ensures |Split(p)| >= 2 && Split(p)[0] == []
  {
  }

  /** Different well-formed pointers name different positions. */
  lemma PointerInjective(p: Pointer, q: Pointer)
    requires WellFormedPointer(p) && WellFormedPointer(q) && Parse(p) == Parse(q)
    ensures p == q
  {
    hide TokenOk, Split, Unescape, Join;
    if p != [] {
      SplitLeading(p);
    }
    if q != [] {
      SplitLeading(q);
    }
    if p != [] && q != [] {
      var a, b := Split(p), Split(q);
      assert UnescapeAll(a[1..]) == UnescapeAll(b[1..]);
      assert |UnescapeAll(a[1..])| == |a| - 1 && |UnescapeAll(b[1..])| == |b| - 1;
      forall i | 1 <= i < |a|
        ensures a[i] == b[i]
      {
        assert UnescapeAll(a[1..])[i - 1] == Unescape(a[i]) && UnescapeAll(b[1..])[i - 1] == Unescape(b[i]);
        EscapeUnescape(a[i]);
        EscapeUnescape(b[i]);
      }
      assert a == b;
      JoinSplit(p);
      JoinSplit(q);
    }
  }

  // ---- array indices ----

  predicate IsDigits(t: Bytes) {
    forall i | 0 <= i < |t| :: 0x30 <= t[i] <= 0x39
  }

  function Number(t: Bytes): nat
    requires IsDigits(t)
  {
    if t == [] then 0 else 10 * Number(t[..|t| - 1]) + (t[|t| - 1] - 0x30)
  }

  function Decimal(n: nat): Bytes {
    if n < 10 then [0x30 + n] else Decimal(n / 10) + [0x30 + n % 10]
  }

  /** `parse_index`. An index beyond the machine word misses every list, as a large one does here. */
  function ParseIndex(t: Bytes): Option<nat> {
    if t == [] || !IsDigits(t) || (t[0] == ZERO && |t| != 1) then None else Some(Number(t))
  }

  lemma DecimalDigit(d: nat)
    requires d < 10
    ensures Decimal(d) == [0x30 + d]
  {
  }

  lemma DecimalStep(n: nat, d: nat)
    requires n > 0 && d < 10
    ensures Decimal(10 * n + d) == Decimal(n) + [0x30 + d]
  {
  }

  lemma {:induction false} DecimalNumber(t: Bytes)
    requires t != [] && IsDigits(t) && (t[0] == ZERO ==> |t| == 1)
    ensures Decimal(Number(t)) == t && (t[0] != ZERO ==> Number(t) > 0)
  {
    var n := |t| - 1;
    hide Decimal;
    if n > 0 {
      assert t[..n][0] == t[0];
      DecimalNumber(t[..n]);
      assert t == t[..n] + [t[n]];
      DecimalStep(Number(t[..n]), t[n] - 0x30);
    } else {
      assert t[..n] == [] && t == [t[0]];
      DecimalDigit(t[0] - 0x30);
    }
  }

  lemma {:induction false} NumberDecimal(n: nat)
    ensures Decimal(n) != [] && IsDigits(Decimal(n)) && Number(Decimal(n)) == n
    ensures Decimal(n)[0] == ZERO ==> n == 0
  {
    var t := Decimal(n);
    if n >= 10 {
      NumberDecimal(n / 10);
      assert t[..|t| - 1] == Decimal(n / 10) && t[|t| - 1] == 0x30 + n % 10;
    } else {
      assert t[..0] == [];
    }
  }

  /** Each index has exactly one token. */
  lemma IndexToken(t: Bytes, n: nat)
    ensures ParseIndex(t) == Some(n) <==> t == Decimal(n)
  {
    if ParseIndex(t) == Some(n) {
      DecimalNumber(t);
    }
    NumberDecimal(n);
  }

  // ---- positions ----

  function Child(v: Value, token: Bytes): Option<Value> {
    match v
    case Object(fields) => if token in fields then Some(fields[token]) else None
    case Array(items) =>
      if ParseIndex(token).Some? && ParseIndex(token).value < |items| then Some(items[ParseIndex(token).value]) else None
    case _ => None
  }

  /** The walk of `pointer` along decoded tokens. */
  function Lookup(v: Value, tokens: Tokens): Option<Value>
    decreases |tokens|
  {
    if tokens == [] then Some(v)
    else if Child(v, tokens[0]).None? then None
    else Lookup(Child(v, tokens[0]).value, tokens[1..])
  }

  /** Assignment of a string through `pointer_mut`. */
  function Put(v: Value, tokens: Tokens, text: Bytes): Value
    requires Lookup(v, tokens).Some?
    decreases |tokens|
  {
    if tokens == [] then Text(text)
    else
      var below := Put(Child(v, tokens[0]).value, tokens[1..], text);
      match v
      case Object(fields) => Object(fields[tokens[0] := below])
      case Array(items) => Array(items[ParseIndex(tokens[0]).value := below])
  }

  predicate IsText(v: Value, tokens: Tokens) {
    Lookup(v, tokens).Some? && Lookup(v, tokens).value.Text?
  }

  /** Simultaneous replacement: the value at every position of `s` becomes the string given there. */
  function Substitute(v: Value, here: Tokens, s: map<Tokens, Bytes>): Value
    decreases v
  {
    if here in s then Text(s[here])
    else match v
      case Object(fields) => Object(map k | k in fields :: Substitute(fields[k], here + [k], s))
      case Array(items) =>
        Array(seq(|items|, i requires 0 <= i < |items| => Substitute(items[i], here + [Decimal(i)], s)))
      case _ => v
  }

  /** The substitutions agree at and below `here`. */
  ghost predicate AgreeBelow(here: Tokens, s: map<Tokens, Bytes>, t: map<Tokens, Bytes>) {
    forall p | here <= p :: (p in s <==> p in t) && (p in s ==> s[p] == t[p])
  }

  lemma AgreeHere(here: Tokens, s: map<Tokens, Bytes>, t: map<Tokens, Bytes>)
    requires AgreeBelow(here, s, t)
    ensures (here in s <==> here in t) && (here in s ==> s[here] == t[here])
    ensures forall k :: AgreeBelow(here + [k], s, t)
  {
    assert here <= here;
    forall k
      ensures AgreeBelow(here + [k], s, t)
    {
      forall p | here + [k] <= p
        ensures (p in s <==> p in t) && (p in s ==> s[p] == t[p])
      {
        assert here <= p;
      }
    }
  }

  /** Only the part of `s` at or below `here` matters. */
  lemma {:induction false} SubstituteLocal(v: Value, here: Tokens, s: map<Tokens, Bytes>, t: map<Tokens, Bytes>)
    requires AgreeBelow(here, s, t)
    ensures Substitute(v, here, s) == Substitute(v, here, t)
    decreases v
  {
    AgreeHere(here, s, t);
    hide AgreeBelow, Decimal;
    match v
    case Object(fields) =>
      forall k | k in fields
        ensures Substitute(fields[k], here + [k], s) == Substitute(fields[k], here + [k], t)
      {
        SubstituteLocal(fields[k], here + [k], s, t);
      }
    case Array(items) =>
      forall i | 0 <= i < |items|
        ensures Substitute(items[i], here + [Decimal(i)], s) == Substitute(items[i], here + [Decimal(i)], t)
      {
        SubstituteLocal(items[i], here + [Decimal(i)], s, t);
      }
    case _ =>
  }

  lemma {:induction false} SubstituteNothing(v: Value, here: Tokens, s: map<Tokens, Bytes>)
    requires forall p | p in s :: !(here <= p)
    ensures Substitute(v, here, s) == v
    decreases v
  {
    match v
    case Object(fields) =>
      forall k | k in fields
        ensures Substitute(fields[k], here + [k], s) == fields[k]
      {
        SubstituteNothing(fields[k], here + [k], s);
      }
      assert (map k | k in fields :: Substitute(fields[k], here + [k], s)) == fields;
    case Array(items) =>
      forall i | 0 <= i < |items|
        ensures Substitute(items[i], here + [Decimal(i)], s) == items[i]
      {
        SubstituteNothing(items[i], here + [Decimal(i)], s);
      }
    case _ =>
  }

  /** The child of a container after a substitution strictly below it. */
  lemma ChildOfSubstitute(v: Value, here: Tokens, s: map<Tokens, Bytes>, token: Bytes)
    requires here !in s
    ensures Child(Substitute(v, here, s), token) ==
            if Child(v, token).Some? then Some(Substitute(Child(v, token).value, here + [token], s)) else None
  {
    if v.Array? && ParseIndex(token).Some? {
      IndexToken(token, ParseIndex(token).value);
    }
  }

  /** What a substitution leaves at a position that no substituted position lies strictly above. */
  lemma {:induction false} LookupSubstitute(v: Value, here: Tokens, s: map<Tokens, Bytes>, tokens: Tokens)
    requires forall n | 0 <= n < |tokens| :: here + tokens[..n] !in s
    ensures Lookup(Substitute(v, here, s), tokens) ==
            if Lookup(v, tokens).Some? then Some(Substitute(Lookup(v, tokens).value, here + tokens, s)) else None
    decreases |tokens|
  {
    if tokens == [] {
      assert here + tokens == here;
    } else {
      assert here + tokens[..0] == here;
      ChildOfSubstitute(v, here, s, tokens[0]);
      if Child(v, tokens[0]).Some? {
        var below := here + [tokens[0]];
        forall n | 0 <= n < |tokens[1..]|
          ensures below + tokens[1..][..n] !in s
        {
          assert below + tokens[1..][..n] == here + tokens[..n + 1];
        }
        LookupSubstitute(Child(v, tokens[0]).value, below, s, tokens[1..]);
        assert below + tokens[1..] == here + tokens;
      }
    }
  }

  /** One more assignment extends the substitution. */
  lemma {:induction false} PutExtends(v: Value, here: Tokens, s: map<Tokens, Bytes>, tokens: Tokens, text: Bytes)
    requires Lookup(v, tokens).Some? && forall n | 0 <= n < |tokens| :: here + tokens[..n] !in s
    ensures Lookup(Substitute(v, here, s), tokens).Some?
    ensures Put(Substitute(v, here, s), tokens, text) == Substitute(v, here, s[here + tokens := text])
    decreases |tokens|
  {
    LookupSubstitute(v, here, s, tokens);
    if tokens == [] {
      assert here + tokens == here;
    } else {
      var t := s[here + tokens := text];
      assert here + tokens[..0] == here;
      assert here != here + tokens;
      var below := here + [tokens[0]];
      assert below + tokens[1..] == here + tokens;
      forall n | 0 <= n < |tokens[1..]|
        ensures below + tokens[1..][..n] !in s
      {
        assert below + tokens[1..][..n] == here + tokens[..n + 1];
      }
      ChildOfSubstitute(v, here, s, tokens[0]);
      PutExtends(Child(v, tokens[0]).value, below, s, tokens[1..], text);
      PutOneChild(v, here, s, t, tokens[0], here + tokens);
    }
  }

  /** Two substitutions that differ only below one child differ only in that child. */
  lemma PutOneChild(v: Value, here: Tokens, s: map<Tokens, Bytes>, t: map<Tokens, Bytes>, token: Bytes, at: Tokens)
    requires here !in s && here !in t && Child(v, token).Some?
    requires here + [token] <= at && at in t && t == s[at := t[at]]
    ensures
      var below := Substitute(Child(v, token).value, here + [token], t);
      match v
      case Object(fields) => Substitute(v, here, t) == Object(Substitute(v, here, s).fields[token := below])
      case Array(items) =>
        && |Substitute(v, here, s).items| == |items|
        && Substitute(v, here, t) == Array(Substitute(v, here, s).items[ParseIndex(token).value := below])
  {
    match v
    case Object(fields) =>
      forall k | k in fields && k != token
        ensures Substitute(fields[k], here + [k], s) == Substitute(fields[k], here + [k], t)
      {
        assert (here + [k])[|here|] == k && at[|here|] == token;
        SubstituteLocal(fields[k], here + [k], s, t);
      }
      assert Substitute(v, here, t).fields ==
             Substitute(v, here, s).fields[token := Substitute(fields[token], here + [token], t)];
    case Array(items) =>
      var index := ParseIndex(token).value;
      IndexToken(token, index);
      forall i | 0 <= i < |items| && i != index
        ensures Substitute(items[i], here + [Decimal(i)], s) == Substitute(items[i], here + [Decimal(i)], t)
      {
        IndexToken(Decimal(i), i);
        assert (here + [Decimal(i)])[|here|] == Decimal(i) && at[|here|] == token;
        SubstituteLocal(items[i], here + [Decimal(i)], s, t);
      }
    case _ => assert false;
  }
}
