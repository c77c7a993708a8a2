/** Byte strings and the UTF-8 facts the adapters rely on.

    A Rust `str` is a byte sequence that satisfies `Valid`; `len()` is `|s|` and
    `is_char_boundary(i)` is `IsBoundary(s, i)`. The lead- and second-byte ranges are those of
    section 4 of RFC 3629.
 */
module Utf8 {
  import opened Wrappers

  type Byte = b: int | 0 <= b < 256
  type Bytes = seq<Byte>

  const NEWLINE: Byte := 0x0A
  const CARRIAGE_RETURN: Byte := 0x0D
  const BACKSLASH: Byte := 0x5C

  /** A literal as bytes; every literal of this project is ASCII. */
  function Ascii(s: string): (b: Bytes)
    ensures |b| == |s| && forall i | 0 <= i < |s| && s[i] < 128 as char :: b[i] == s[i] as int
  {
    seq(|s|, i requires 0 <= i < |s| => s[i] as int % 128)
  }

  lemma HexDigit(b: Byte)
    ensures b in Ascii("0123456789abcdef") <==> 0x30 <= b <= 0x39 || 0x61 <= b <= 0x66
  {
    var all := Ascii("0123456789abcdef");
    assert |all| == 16 && all[0] == 0x30 && all[1] == 0x31 && all[2] == 0x32 && all[3] == 0x33 && all[4] == 0x34;
    assert all[5] == 0x35 && all[6] == 0x36 && all[7] == 0x37 && all[8] == 0x38 && all[9] == 0x39 && all[10] == 0x61;
    assert all[11] == 0x62 && all[12] == 0x63 && all[13] == 0x64 && all[14] == 0x65 && all[15] == 0x66;
  }

  predicate IsContinuation(b: Byte) {
    0x80 <= b < 0xC0
  }

  predicate SecondOfThree(lead: Byte, b: Byte) {
    if lead == 0xE0 then 0xA0 <= b <= 0xBF
    else if lead == 0xED then 0x80 <= b <= 0x9F
    else IsContinuation(b)
  }

  predicate SecondOfFour(lead: Byte, b: Byte) {
    if lead == 0xF0 then 0x90 <= b <= 0xBF
    else if lead == 0xF4 then 0x80 <= b <= 0x8F
    else IsContinuation(b)
  }

  /** Bytes of the scalar value encoded at the head of `s`, or 0 when none is. */
  function HeadLength(s: Bytes): (n: nat)
    ensures n <= |s| && n <= 4
    ensures n > 0 ==> !IsContinuation(s[0]) && forall k | 1 <= k < n :: IsContinuation(s[k])
  {
    if s == [] then 0
    else if s[0] < 0x80 then 1
    else if 0xC2 <= s[0] <= 0xDF then
      if |s| >= 2 && IsContinuation(s[1]) then 2 else 0
    else if 0xE0 <= s[0] <= 0xEF then
      if |s| >= 3 && SecondOfThree(s[0], s[1]) && IsContinuation(s[2]) then 3 else 0
    else if 0xF0 <= s[0] <= 0xF4 then
      if |s| >= 4 && SecondOfFour(s[0], s[1]) && IsContinuation(s[2]) && IsContinuation(s[3]) then 4 else 0
    else 0
  }

  predicate Valid(s: Bytes)
    decreases |s|
  {
    s == [] || (HeadLength(s) > 0 && Valid(s[HeadLength(s)..]))
  }

  /** `str::is_char_boundary`. */
  predicate IsBoundary(s: Bytes, i: nat) {
    i == 0 || i == |s| || (i < |s| && !IsContinuation(s[i]))
  }

  /** `str::chars().count()`. */
  function CharCount(s: Bytes): nat
    requires Valid(s)
    decreases |s|
  {
    if s == [] then 0 else 1 + CharCount(s[HeadLength(s)..])
  }

  lemma HeadLengthOfExtension(a: Bytes, b: Bytes)
    requires HeadLength(a) > 0
    ensures HeadLength(a + b) == HeadLength(a)
  {
  }

  lemma HeadLengthOfPrefix(s: Bytes, i: nat)
    requires HeadLength(s) > 0 && HeadLength(s) <= i <= |s|
    ensures HeadLength(s[..i]) == HeadLength(s)
  {
  }

  /** Cutting at a boundary leaves two valid strings, and their characters add up. */
  lemma {:induction false} ValidSplit(s: Bytes, i: nat)
    requires Valid(s) && i <= |s| && IsBoundary(s, i)
    ensures Valid(s[..i]) && Valid(s[i..])
    ensures CharCount(s) == CharCount(s[..i]) + CharCount(s[i..])
    decreases |s|
  {
    hide HeadLength;
    if i == 0 {
      assert s[..0] == [] && s[0..] == s;
    } else {
      var n := HeadLength(s);
      assert i >= n;
      ValidSplit(s[n..], i - n);
      assert s[n..][..i - n] == s[..i][n..] && s[n..][i - n..] == s[i..];
      HeadLengthOfPrefix(s, i);
    }
  }

  lemma {:induction false} ValidConcat(a: Bytes, b: Bytes)
    requires Valid(a) && Valid(b)
    ensures Valid(a + b) && IsBoundary(a + b, |a|)
    ensures CharCount(a + b) == CharCount(a) + CharCount(b)
    decreases |a|
  {
    if a == [] {
      assert a + b == b;
    } else {
      var n := HeadLength(a);
      HeadLengthOfExtension(a, b);
      assert (a + b)[n..] == a[n..] + b;
      ValidConcat(a[n..], b);
    }
  }

  lemma ValidSlice(s: Bytes, i: nat, j: nat)
    requires Valid(s) && i <= j <= |s| && IsBoundary(s, i) && IsBoundary(s, j)
    ensures Valid(s[i..j])
  {
    hide Valid, CharCount;
    ValidSplit(s, i);
    assert s[i..j] == s[i..][..j - i];
    if i < j < |s| {
      assert s[i..][j - i] == s[j];
    }
    ValidSplit(s[i..], j - i);
  }

  /** What follows a valid prefix of a valid string is valid. */
  lemma {:induction false} ValidRest(s: Bytes, n: nat)
    requires Valid(s) && n <= |s| && Valid(s[..n])
    ensures Valid(s[n..]) && IsBoundary(s, n)
    decreases |s|
  {
    hide HeadLength, Valid, IsBoundary;
    if n == 0 {
      assert s[0..] == s;
    } else {
      var h := HeadLength(s[..n]);
      ValidHead(s[..n]);
      ValidHead(s);
      assert s == s[..n] + s[n..];
      HeadLengthOfExtension(s[..n], s[n..]);
      assert s[..n][h..] == s[h..][..n - h] && s[h..][n - h..] == s[n..];
      ValidRest(s[h..], n - h);
    }
    RestIsBoundary(s, n);
  }

  lemma ValidHead(s: Bytes)
    requires Valid(s) && s != []
    ensures HeadLength(s) > 0 && Valid(s[HeadLength(s)..])
  {
  }

  lemma RestIsBoundary(s: Bytes, n: nat)
    requires n <= |s| && Valid(s[n..])
    ensures IsBoundary(s, n)
  {
    if n < |s| {
      assert s[n..][0] == s[n] && HeadLength(s[n..]) > 0;
    }
  }

  /** A boundary is exactly a place where a valid string can be cut into valid strings. */
  lemma BoundaryIffValidCut(s: Bytes, i: nat)
    requires Valid(s) && i <= |s|
    ensures IsBoundary(s, i) <==> Valid(s[..i]) && Valid(s[i..])
  {
    if IsBoundary(s, i) {
      ValidSplit(s, i);
    } else {
      assert s[i..][0] == s[i];
    }
  }

  /** Later boundaries have strictly more characters before them. */
  lemma CharCountIncreases(s: Bytes, i: nat, j: nat)
    requires Valid(s) && i < j <= |s| && IsBoundary(s, i) && IsBoundary(s, j)
    ensures Valid(s[..i]) && Valid(s[..j]) && CharCount(s[..i]) < CharCount(s[..j])
  {
    ValidSplit(s, i);
    ValidSplit(s, j);
    assert s[..j][..i] == s[..i] && s[..j][i..] != [];
    ValidSplit(s[..j], i);
  }

  /** Walking back from any position meets a boundary within three bytes. */
  lemma {:induction false} BoundaryNearby(s: Bytes, i: nat)
    requires Valid(s) && i <= |s|
    ensures exists j | i - 3 <= j <= i && 0 <= j :: IsBoundary(s, j)
    decreases |s|
  {
    if i == |s| {
      assert IsBoundary(s, i);
    } else if i < HeadLength(s) {
      assert IsBoundary(s, 0);
    } else {
      var n := HeadLength(s);
      BoundaryNearby(s[n..], i - n);
      var j :| i - n - 3 <= j <= i - n && 0 <= j && IsBoundary(s[n..], j);
      if j == 0 {
        assert s[n..][0] == s[n] && HeadLength(s[n..]) > 0;
      } else {
        assert j == |s[n..]| || s[n..][j] == s[n + j];
      }
      assert IsBoundary(s, n + j);
    }
  }

  // ---- walking to a boundary ----

  /** The nearest boundary at or below `i`, but not below `low`. */
  function BackTo(line: Bytes, i: nat, low: nat): (r: nat)
    requires low <= i
    ensures low <= r <= i && (r == low || IsBoundary(line, r))
    ensures forall k | r < k <= i :: !IsBoundary(line, k)
  {
    if i == low || IsBoundary(line, i) then i else BackTo(line, i - 1, low)
  }

  /** The loop `while i > low && !is_char_boundary(i) { i -= 1 }`. */
  method WalkBack(line: Bytes, i: nat, low: nat) returns (r: nat)
    requires low <= i
    ensures r == BackTo(line, i, low)
  {
    r := i;
    while r > low && !IsBoundary(line, r)
      invariant low <= r && BackTo(line, r, low) == BackTo(line, i, low)
    {
      r := r - 1;
    }
  }

  // ---- searching and splitting ----

  predicate OccursAt(source: Bytes, needle: Bytes, i: nat) {
    i + |needle| <= |source| && source[i..i + |needle|] == needle
  }

  /** `str::find`, looking at byte offsets from `i` on. */
  function FindFrom(source: Bytes, needle: Bytes, i: nat): (r: Option<nat>)
    ensures r.None? ==> forall k | i <= k :: !OccursAt(source, needle, k)
    ensures r.Some? ==> i <= r.value && OccursAt(source, needle, r.value)
    ensures r.Some? ==> forall k | i <= k < r.value :: !OccursAt(source, needle, k)
    decreases |source| - i
  {
    if OccursAt(source, needle, i) then Some(i)
    else if i >= |source| then None
    else FindFrom(source, needle, i + 1)
  }

  /** UTF-8 is self-synchronising: a non-empty string only occurs at character boundaries. */
  lemma {:induction false} OccurrenceAtBoundary(source: Bytes, needle: Bytes, i: nat)
    requires Valid(source) && Valid(needle) && needle != [] && OccursAt(source, needle, i)
    ensures IsBoundary(source, i) && IsBoundary(source, i + |needle|)
  {
    assert source[i] == needle[0];
    ValidSplit(source, i);
    assert source[i..][..|needle|] == needle;
    ValidRest(source[i..], |needle|);
    assert i + |needle| < |source| ==> source[i..][|needle|] == source[i + |needle|];
  }

  /** `str::split` at a one-byte separator. */
  function SplitOn(separator: Byte, s: Bytes): (r: seq<Bytes>)
    ensures |r| >= 1
    ensures forall c | c in r :: separator !in c
  {
    if s == [] then [[]]
    else if s[0] == separator then [[]] + SplitOn(separator, s[1..])
    else
      var r := SplitOn(separator, s[1..]);
      [[s[0]] + r[0]] + r[1..]
  }

  /** The index of the first `separator` at or after `i`, or the length. */
  function IndexOf(separator: Byte, s: Bytes, i: nat): (r: nat)
    requires i <= |s|
    ensures i <= r <= |s| && separator !in s[i..r] && (r < |s| ==> s[r] == separator)
    decreases |s| - i
  {
    if i == |s| || s[i] == separator then i
    else
      assert forall r | i + 1 <= r <= |s| :: s[i..r] == [s[i]] + s[i + 1..r];
      IndexOf(separator, s, i + 1)
  }

  function ConsFirst(b: Byte, parts: seq<Bytes>): seq<Bytes>
    requires parts != []
  {
    [[b] + parts[0]] + parts[1..]
  }

  lemma SplitCons(separator: Byte, b: Byte, s: Bytes)
    ensures SplitOn(separator, [b] + s) ==
            if b == separator then [[]] + SplitOn(separator, s) else ConsFirst(b, SplitOn(separator, s))
  {
    assert ([b] + s)[1..] == s;
  }

  lemma SplitEmpty(separator: Byte)
    ensures SplitOn(separator, []) == [[]]
  {
  }

  lemma ConsFirstConcat(b: Byte, l: seq<Bytes>, r: seq<Bytes>)
    requires l != []
    ensures ConsFirst(b, l + r) == ConsFirst(b, l) + r
  {
    assert (l + r)[1..] == l[1..] + r;
  }

  lemma {:induction false} SplitAtSeparator(separator: Byte, a: Bytes, b: Bytes)
    ensures SplitOn(separator, a + [separator] + b) == SplitOn(separator, a) + SplitOn(separator, b)
  {
    hide SplitOn;
    if a == [] {
      SplitEmpty(separator);
      assert a + [separator] + b == [separator] + b;
      SplitCons(separator, separator, b);
    } else {
      var rest := a[1..];
      SplitAtSeparator(separator, rest, b);
      assert a + [separator] + b == [a[0]] + (rest + [separator] + b) && a == [a[0]] + rest;
      SplitCons(separator, a[0], rest + [separator] + b);
      SplitCons(separator, a[0], rest);
      var l, r := SplitOn(separator, rest), SplitOn(separator, b);
      if a[0] == separator {
        assert [[]] + (l + r) == ([[]] + l) + r;
      } else {
        ConsFirstConcat(a[0], l, r);
      }
    }
  }

  lemma {:induction false} SplitPlain(separator: Byte, c: Bytes)
    requires separator !in c
    ensures SplitOn(separator, c) == [c]
  {
    if c != [] {
      assert c[0] in c;
      SplitPlain(separator, c[1..]);
      assert c == [c[0]] + c[1..];
    }
  }

  lemma AfterAscii(s: Bytes, k: nat)
    requires Valid(s) && k < |s| && s[k] < 0x80
    ensures IsBoundary(s, k) && IsBoundary(s, k + 1)
  {
    hide CharCount;
    ValidSplit(s, k);
    assert s[k..][0] == s[k] && HeadLength(s[k..]) == 1;
    assert k + 1 < |s| ==> s[k..][1..][0] == s[k + 1];
  }

  lemma SplitFirst(separator: Byte, s: Bytes, i: nat)
    requires i < |s| && separator !in s[..i] && s[i] == separator
    ensures SplitOn(separator, s) == [s[..i]] + SplitOn(separator, s[i + 1..])
  {
    hide SplitOn;
    assert s == s[..i] + [separator] + s[i + 1..];
    SplitAtSeparator(separator, s[..i], s[i + 1..]);
    SplitPlain(separator, s[..i]);
  }

  lemma ValidAround(s: Bytes, i: nat)
    requires Valid(s) && i < |s| && s[i] < 0x80
    ensures Valid(s[..i]) && Valid(s[i + 1..])
  {
    hide Valid, CharCount;
    AfterAscii(s, i);
    ValidSplit(s, i);
    ValidSplit(s, i + 1);
  }

  /** Splitting valid text at an ASCII byte gives valid pieces. */
  lemma {:induction false} SplitValid(separator: Byte, s: Bytes)
    requires Valid(s) && separator < 0x80
    ensures forall c | c in SplitOn(separator, s) :: Valid(c)
    decreases |s|
  {
    hide Valid, SplitOn;
    var i := IndexOf(separator, s, 0);
    assert s[0..i] == s[..i];
    if i == |s| {
      assert s[..i] == s;
      SplitPlain(separator, s);
    } else {
      ValidAround(s, i);
      SplitFirst(separator, s, i);
      SplitValid(separator, s[i + 1..]);
    }
  }

  // ---- lossy decoding ----

  // U+FFFD
  const REPLACEMENT: Bytes := [0xEF, 0xBF, 0xBD]

  /** Bytes of the ill-formed head that `String::from_utf8_lossy` replaces by one U+FFFD. */
  function BadLength(s: Bytes): (n: nat)
    requires s != [] && HeadLength(s) == 0
    ensures 1 <= n <= 3 && n <= |s|
  {
    if 0xE0 <= s[0] <= 0xEF && |s| >= 2 && SecondOfThree(s[0], s[1]) then 2
    else if 0xF0 <= s[0] <= 0xF4 && |s| >= 2 && SecondOfFour(s[0], s[1]) then
      if |s| >= 3 && IsContinuation(s[2]) then 3 else 2
    else 1
  }

  /** `String::from_utf8_lossy`. */
  function Lossy(s: Bytes): (r: Bytes)
    ensures Valid(s) ==> r == s
    decreases |s|
  {
    if s == [] then []
    else if HeadLength(s) > 0 then s[..HeadLength(s)] + Lossy(s[HeadLength(s)..])
    else REPLACEMENT + Lossy(s[BadLength(s)..])
  }

  lemma {:induction false} LossyIsValid(s: Bytes)
    ensures Valid(Lossy(s))
    decreases |s|
  {
    if s != [] {
      var n := HeadLength(s);
      if n > 0 {
        LossyIsValid(s[n..]);
        assert HeadLength(s[..n]) == n && s[..n][n..] == [];
        ValidConcat(s[..n], Lossy(s[n..]));
      } else {
        LossyIsValid(s[BadLength(s)..]);
        assert HeadLength(REPLACEMENT) == 3 && REPLACEMENT[3..] == [];
        ValidConcat(REPLACEMENT, Lossy(s[BadLength(s)..]));
      }
    }
  }
}
