/** UTF-8 against its definition: text is the concatenation of the encodings of scalar values (section 3
    of RFC 3629), and the tests on bytes mean what they say of those values. */
module Scalars {
  import opened Utf8
  import opened Limits
  import Paths
  import QueryText

  type Scalar = c: int | 0 <= c < 0xD800 || 0xE000 <= c < 0x11_0000

  /** Six bits to a byte. */
  function Encode(c: Scalar): (b: Bytes)
    ensures 1 <= |b| <= 4
  {
    var last := 0x80 + c % 64;
    if c < 0x80 then [c]
    else if c < 0x800 then [0xC0 + c / 64, last]
    else if c < 0x1_0000 then [0xE0 + c / 64 / 64, 0x80 + c / 64 % 64, last]
    else [0xF0 + c / 64 / 64 / 64, 0x80 + c / 64 / 64 % 64, 0x80 + c / 64 % 64, last]
  }

  function EncodeAll(text: seq<Scalar>): Bytes {
    if text == [] then [] else Encode(text[0]) + EncodeAll(text[1..])
  }

  lemma HeadOfEncoding(c: Scalar, rest: Bytes)
    ensures HeadLength(Encode(c) + rest) == |Encode(c)|
  {
  }

  lemma LastDigit(x: nat, d: nat)
    requires d < 64
    ensures (x * 64 + d) / 64 == x && (x * 64 + d) % 64 == d
  {
  }

  /** The scalar value of four groups of six bits. */
  function Value(a: nat, b: nat, c: nat, d: nat): nat {
    ((a * 64 + b) * 64 + c) * 64 + d
  }

  lemma Digits(a: nat, b: nat, c: nat, d: nat)
    requires b < 64 && c < 64 && d < 64
    ensures
      var v := Value(a, b, c, d);
      v % 64 == d && v / 64 % 64 == c && v / 64 / 64 % 64 == b && v / 64 / 64 / 64 == a && v / 64 / 64 == a * 64 + b
  {
    LastDigit((a * 64 + b) * 64 + c, d);
    LastDigit(a * 64 + b, c);
    LastDigit(a, b);
  }

  lemma EncodesTo(a: nat, b: nat, c: nat, d: nat)
    requires b < 64 && c < 64 && d < 64
    ensures a == 0 == b && 2 <= c < 32 ==> Encode(Value(a, b, c, d)) == [0xC0 + c, 0x80 + d]
    ensures a == 0 && b < 16 && (b == 0 ==> c >= 32) && (b == 13 ==> c < 32) ==>
      Encode(Value(a, b, c, d)) == [0xE0 + b, 0x80 + c, 0x80 + d]
    ensures a < 5 && (a == 0 ==> b >= 16) && (a == 4 ==> b < 16) ==>
      Encode(Value(a, b, c, d)) == [0xF0 + a, 0x80 + b, 0x80 + c, 0x80 + d]
  {
    Digits(a, b, c, d);
  }

  lemma HeadIsEncoding(s: Bytes) returns (c: Scalar)
    requires HeadLength(s) > 0
    ensures s[..HeadLength(s)] == Encode(c)
  {
    var n := HeadLength(s);
    if n == 1 {
      c := s[0];
    } else {
      var groups := if n == 2 then (0, 0, s[0] as int - 0xC0, s[1] as int - 0x80)
                    else if n == 3 then (0, s[0] as int - 0xE0, s[1] as int - 0x80, s[2] as int - 0x80)
                    else (s[0] as int - 0xF0, s[1] as int - 0x80, s[2] as int - 0x80, s[3] as int - 0x80);
      EncodesTo(groups.0, groups.1, groups.2, groups.3);
      hide Encode;
      c := Value(groups.0, groups.1, groups.2, groups.3);
    }
  }

  /** Every encoded text is valid, and counts as many characters as it has scalar values. */
  lemma {:induction false} EncodedIsValid(text: seq<Scalar>)
    ensures Valid(EncodeAll(text)) && CharCount(EncodeAll(text)) == |text|
  {
    if text != [] {
      var rest := EncodeAll(text[1..]);
      EncodedIsValid(text[1..]);
      HeadOfEncoding(text[0], rest);
      assert (Encode(text[0]) + rest)[|Encode(text[0])|..] == rest;
    }
  }

  /** Every valid byte string is an encoded text. */
  lemma {:induction false} ValidIsEncoded(s: Bytes) returns (text: seq<Scalar>)
    requires Valid(s)
    ensures s == EncodeAll(text)
    decreases |s|
  {
    if s == [] {
      text := [];
    } else {
      var c := HeadIsEncoding(s);
      var rest := ValidIsEncoded(s[HeadLength(s)..]);
      text := [c] + rest;
      assert text[1..] == rest && s == s[..HeadLength(s)] + s[HeadLength(s)..];
    }
  }

  // ---- control characters and queries ----

  /** `char::is_control` */
  predicate IsControl(c: Scalar) {
    c < 0x20 || 0x7F <= c < 0xA0
  }

  predicate ControlAt(s: Bytes, i: nat) {
    i < |s| && (s[i] < 0x20 || s[i] == 0x7F || (s[i] == 0xC2 && i + 1 < |s| && 0x80 <= s[i + 1] <= 0x9F))
  }

  lemma ControlAtIff(s: Bytes)
    ensures Paths.HasControl(s) <==> exists i: nat :: ControlAt(s, i)
  {
    forall i: nat
      ensures ControlAt(s, i) ==> Paths.HasControl(s)
    {
    }
    if Paths.HasControl(s) {
      var i :| 0 <= i < |s| && (s[i] < 0x20 || s[i] == 0x7F || (s[i] == 0xC2 && i + 1 < |s| && 0x80 <= s[i + 1] <= 0x9F));
      assert ControlAt(s, i);
    }
  }

  lemma ControlInHead(c: Scalar, rest: Bytes, i: nat)
    requires (rest == [] || !IsContinuation(rest[0])) && i < |Encode(c)|
    ensures ControlAt(Encode(c) + rest, i) <==> i == 0 && IsControl(c)
  {
  }

  lemma ControlAtHead(c: Scalar, rest: Bytes)
    requires rest == [] || !IsContinuation(rest[0])
    ensures Paths.HasControl(Encode(c) + rest) <==> IsControl(c) || Paths.HasControl(rest)
  {
    var n, s := |Encode(c)|, Encode(c) + rest;
    ControlAtIff(rest);
    ControlAtIff(s);
    ControlInHead(c, rest, 0);
    hide Encode, IsControl, Paths.HasControl;
    assert forall j | 0 <= j < |rest| :: s[n + j] == rest[j];
    forall j | 0 <= j < |rest|
      ensures ControlAt(s, n + j) <==> ControlAt(rest, j)
    {
      assert j + 1 < |rest| ==> s[n + (j + 1)] == rest[j + 1];
    }
    if i: nat :| ControlAt(s, i) {
      if i < n {
        ControlInHead(c, rest, i);
      } else {
        assert ControlAt(s, n + (i - n));
      }
    }
    if j: nat :| ControlAt(rest, j) {
      assert ControlAt(s, n + j);
    }
  }

  lemma {:induction false} ControlIff(text: seq<Scalar>)
    ensures Paths.HasControl(EncodeAll(text)) <==> exists c | c in text :: IsControl(c)
  {
    if text != [] {
      var rest := EncodeAll(text[1..]);
      EncodedIsValid(text[1..]);
      ControlIff(text[1..]);
      ControlAtHead(text[0], rest);
      assert text == [text[0]] + text[1..];
    }
  }

  /** A query is accepted exactly when it is text of at most 64 characters in at most 256 bytes, not
      empty and without control characters. */
  lemma QueryIff(query: Bytes)
    ensures QueryText.ValidQuery(query) <==>
            && 1 <= |query| <= 256
            && exists text: seq<Scalar> :: query == EncodeAll(text) && |text| <= 64 && Printable(text)
  {
    hide EncodeAll, Valid, Paths.HasControl, Printable;
    if Valid(query) {
      var text := ValidIsEncoded(query);
      assert query == EncodeAll(text) && CharCount(query) == |text| && (Paths.HasControl(query) <==> !Printable(text)) by {
        EncodedIsValid(text);
        TextIsPrintable(text);
      }
    }
    forall text: seq<Scalar> | query == EncodeAll(text)
      ensures Valid(query) && CharCount(query) == |text| && (Paths.HasControl(query) <==> !Printable(text))
    {
      EncodedIsValid(text);
      TextIsPrintable(text);
    }
  }

  ghost predicate Printable(text: seq<Scalar>) {
    forall c | c in text :: !IsControl(c)
  }

  lemma TextIsPrintable(text: seq<Scalar>)
    ensures Paths.HasControl(EncodeAll(text)) <==> !Printable(text)
  {
    ControlIff(text);
  }

  // ---- lossy decoding ----

  /** `p` is a proper beginning of the encoding of some scalar value. */
  ghost predicate Begins(p: Bytes) {
    exists c: Scalar :: 0 < |p| < |Encode(c)| && p == Encode(c)[..|p|]
  }

  predicate TwoOfThree(p: Bytes) {
    |p| == 2 && 0xE0 <= p[0] <= 0xEF && SecondOfThree(p[0], p[1])
  }

  predicate SomeOfFour(p: Bytes) {
    2 <= |p| <= 3 && 0xF0 <= p[0] <= 0xF4 && SecondOfFour(p[0], p[1]) && (|p| == 3 ==> IsContinuation(p[2]))
  }

  lemma BeginsWith(p: Bytes)
    requires TwoOfThree(p) || SomeOfFour(p)
    ensures Begins(p)
  {
    var third := if |p| == 3 then p[2] as int - 0x80 else 0;
    var groups := if TwoOfThree(p) then (0, p[0] as int - 0xE0, p[1] as int - 0x80, 0)
                  else (p[0] as int - 0xF0, p[1] as int - 0x80, third, 0);
    EncodesTo(groups.0, groups.1, groups.2, groups.3);
    hide Encode;
    var c: Scalar := Value(groups.0, groups.1, groups.2, groups.3);
    assert p == Encode(c)[..|p|];
  }

  lemma BeginningOf(c: Scalar, p: Bytes)
    requires 1 < |p| < |Encode(c)| && p == Encode(c)[..|p|]
    ensures TwoOfThree(p) || SomeOfFour(p)
  {
    assert p[0] == Encode(c)[0] && p[1] == Encode(c)[1];
  }

  lemma BeginsIff(p: Bytes)
    requires |p| > 1
    ensures Begins(p) <==> TwoOfThree(p) || SomeOfFour(p)
  {
    hide Encode, TwoOfThree, SomeOfFour;
    if TwoOfThree(p) || SomeOfFour(p) {
      BeginsWith(p);
    }
    if c: Scalar :| 0 < |p| < |Encode(c)| && p == Encode(c)[..|p|] {
      BeginningOf(c, p);
    }
  }

  /** The ill-formed head that one replacement stands for is the longest that begins an encoding, or one
      byte. */
  lemma BadLengthIff(s: Bytes, n: nat)
    requires s != [] && HeadLength(s) == 0 && 1 <= n <= |s|
    ensures n == BadLength(s) <==>
            (n == 1 || Begins(s[..n])) && forall m | n < m <= |s| :: !Begins(s[..m])
  {
    hide Begins;
    forall m | 1 < m <= |s|
      ensures Begins(s[..m]) <==> m <= BadLength(s)
    {
      BeginsIff(s[..m]);
    }
    if n < BadLength(s) {
      assert Begins(s[..BadLength(s)]);
    }
  }

  /** `from_utf8_lossy`, by the scalar values: text is kept, and where no scalar value is encoded one
      U+FFFD stands for the longest beginning of an encoding, or for one byte. */
  lemma LossyKeepsText(text: seq<Scalar>, rest: Bytes)
    ensures Lossy(EncodeAll(text) + rest) == EncodeAll(text) + Lossy(rest)
  {
    if text == [] {
      assert EncodeAll(text) + rest == rest;
    } else {
      var more := EncodeAll(text[1..]) + rest;
      assert EncodeAll(text) + rest == Encode(text[0]) + more;
      HeadOfEncoding(text[0], more);
      assert (Encode(text[0]) + more)[|Encode(text[0])|..] == more;
      LossyKeepsText(text[1..], rest);
    }
  }

  lemma LossyReplaces(s: Bytes, n: nat)
    requires 1 <= n <= |s| && (forall c: Scalar :: !(Encode(c) <= s))
    requires (n == 1 || Begins(s[..n])) && forall m | n < m <= |s| :: !Begins(s[..m])
    ensures Lossy(s) == Encode(0xFFFD) + Lossy(s[n..])
  {
    hide Begins, Encode;
    NoHead(s);
    BadLengthIff(s, n);
    Replacement();
  }

  lemma NoHead(s: Bytes)
    requires forall c: Scalar :: !(Encode(c) <= s)
    ensures HeadLength(s) == 0
  {
    assert s[..HeadLength(s)] <= s;
    if HeadLength(s) > 0 {
      var c := HeadIsEncoding(s);
    }
  }

  lemma Replacement()
    ensures Encode(0xFFFD) == REPLACEMENT
  {
  }
}
