/** The workspace path grammar of path.rs. */
module Paths {
  import opened Wrappers
  import opened Utf8

  const MAX_RELATIVE_PATH_BYTES: nat := 4096
  const MAX_COMPONENT_BYTES: nat := 255
  const MAX_COMPONENTS: nat := 256
  const SLASH: Byte := 0x2F
  const COLON: Byte := 0x3A
  const DOT: Byte := 0x2E
  const SPACE: Byte := 0x20

  datatype PathError = Invalid | OutsideBoundary
  type Component = Bytes
  type RelativePath = seq<Component>

  /** `workspace:` */
  function CanonicalPrefix(): (r: Bytes)
    ensures |r| == 10 && r[9] == COLON && SLASH !in r
  {
    Ascii("workspace:")
  }

  /** `WorkspaceId::new` */
  predicate IsWorkspaceId(id: Bytes) {
    && 0 < |id| <= 64
    && forall i | 0 <= i < |id| ::
         || 0x61 <= id[i] <= 0x7A
         || 0x30 <= id[i] <= 0x39
         || (i > 0 && id[i] in {DOT, 0x5F, 0x2D})
  }

  // ---- components ----

  /** `char::is_control`: C0, delete, and C1 (two bytes in UTF-8). */
  predicate HasControl(c: Component) {
    exists i | 0 <= i < |c| ::
      c[i] < 0x20 || c[i] == 0x7F || (c[i] == 0xC2 && i + 1 < |c| && 0x80 <= c[i + 1] <= 0x9F)
  }

  function StemEnd(c: Component, i: nat): (r: nat)
    requires i <= |c|
    ensures i <= r <= |c|
    decreases |c| - i
  {
    if i == |c| || c[i] == DOT then i else StemEnd(c, i + 1)
  }

  function TrimSpaces(c: Component): Component {
    if c != [] && c[|c| - 1] == SPACE then TrimSpaces(c[..|c| - 1]) else c
  }

  /** `to_uppercase`, as far as the reserved ASCII names can tell: `a`..`z`, and U+0131. */
  function Upper(c: Component): Component {
    if c == [] then []
    else if 0x61 <= c[0] <= 0x7A then [c[0] - 0x20] + Upper(c[1..])
    else if |c| >= 2 && c[0] == 0xC4 && c[1] == 0xB1 then [0x49] + Upper(c[2..])
    else [c[0]] + Upper(c[1..])
  }

  predicate DeviceNumbered(upper: Component, prefix: Component) {
    prefix <= upper
    && var suffix := upper[|prefix|..];
       || (|suffix| == 1 && 0x30 <= suffix[0] <= 0x39)
       || suffix in {[0xE2, 0x81, 0xB0], [0xC2, 0xB9], [0xC2, 0xB2], [0xC2, 0xB3]}
  }

  predicate IsWindowsDeviceName(c: Component) {
    var upper := Upper(TrimSpaces(c[..StemEnd(c, 0)]));
    || upper in {Ascii("CON"), Ascii("PRN"), Ascii("AUX"), Ascii("NUL"), Ascii("CLOCK$"), Ascii("CONIN$"), Ascii("CONOUT$")}
    || DeviceNumbered(upper, Ascii("COM"))
    || DeviceNumbered(upper, Ascii("LPT"))
  }

  /** `validate_component`; a slash is not looked for, because callers split at slashes first. */
  function ComponentError(c: Component): Option<PathError> {
    if c == [] || |c| > MAX_COMPONENT_BYTES then Some(Invalid)
    else if c == [DOT, DOT] then Some(OutsideBoundary)
    else if c == [DOT] then Some(Invalid)
    else if c[0] == SPACE || c[|c| - 1] == SPACE || c[|c| - 1] == DOT then Some(Invalid)
    else if HasControl(c) || exists i | 0 <= i < |c| ::
      c[i] in {BACKSLASH, COLON, 0x3C, 0x3E, 0x22, 0x7C, 0x3F, 0x2A} then Some(OutsideBoundary)
    else if IsWindowsDeviceName(c) then Some(Invalid)
    else None
  }

  // ---- the grammar of components, in bytes ----

  /** A C0 control, delete, or one of `" * : < > ? \ |`. */
  ghost predicate ForbiddenByte(b: Byte) {
    b < 0x20 || b == 0x7F || b in {0x22, 0x2A, 0x3A, 0x3C, 0x3E, 0x3F, 0x5C, 0x7C}
  }

  /** A forbidden byte, or a C1 control: the bytes C2 80 to C2 9F. */
  ghost predicate HasForbidden(c: Component) {
    || (exists b | b in c :: ForbiddenByte(b))
    || (exists i | 0 < i < |c| :: c[i - 1] == 0xC2 && 0x80 <= c[i] < 0xA0)
  }

  /** `t` is `name` with some letters in lower case; a dotless i also stands for `I`. */
  ghost predicate Spells(t: Component, name: Component) {
    if name == [] then t == []
    else
      || (t != [] && (t[0] == name[0] || (0x41 <= name[0] <= 0x5A && t[0] == name[0] + 0x20)) && Spells(t[1..], name[1..]))
      || (|t| >= 2 && name[0] == 0x49 && t[0] == 0xC4 && t[1] == 0xB1 && Spells(t[2..], name[1..]))
  }

  /** The reserved names: seven words, and `COM` or `LPT` with a digit or a superscript 0 to 3. */
  ghost predicate ReservedName(name: Component) {
    || name in {Ascii("CON"), Ascii("PRN"), Ascii("AUX"), Ascii("NUL"), Ascii("CLOCK$"), Ascii("CONIN$"), Ascii("CONOUT$")}
    || ((Ascii("COM") <= name || Ascii("LPT") <= name) && ReservedNumber(name[3..]))
  }

  ghost predicate ReservedNumber(n: Component) {
    n in {Ascii("0"), Ascii("1"), Ascii("2"), Ascii("3"), Ascii("4"), Ascii("5"), Ascii("6"), Ascii("7"), Ascii("8"),
          Ascii("9"), [0xE2, 0x81, 0xB0], [0xC2, 0xB9], [0xC2, 0xB2], [0xC2, 0xB3]}
  }

  /** A spelling of a reserved name, then spaces, then nothing or an extension. */
  ghost predicate NamesDevice(c: Component) {
    exists stem, spaces, rest, name ::
      && c == stem + spaces + rest && ReservedName(name) && Spells(stem, name)
      && (forall b | b in spaces :: b == SPACE) && (rest == [] || rest[0] == DOT)
  }

  /** The components the grammar admits; a slash is the business of whoever splits. */
  ghost predicate InGrammar(c: Component) {
    && 1 <= |c| <= 255 && c != Ascii(".") && c != Ascii("..")
    && c[0] != SPACE && c[|c| - 1] != SPACE && c[|c| - 1] != DOT
    && !HasForbidden(c) && !NamesDevice(c)
  }

  /** The components whose error says that they lead outside. */
  ghost predicate LeadsOutside(c: Component) {
    || c == Ascii("..")
    || (1 <= |c| <= 255 && c[0] != SPACE && c[|c| - 1] != SPACE && c[|c| - 1] != DOT && HasForbidden(c))
  }

  lemma ForbiddenIff(c: Component)
    ensures (HasControl(c) || exists i | 0 <= i < |c| ::
      c[i] in {BACKSLASH, COLON, 0x3C, 0x3E, 0x22, 0x7C, 0x3F, 0x2A}) <==> HasForbidden(c)
  {
    if HasForbidden(c) {
      if b :| b in c && ForbiddenByte(b) {
        var i :| 0 <= i < |c| && c[i] == b;
        assert HasControl(c) || c[i] in {BACKSLASH, COLON, 0x3C, 0x3E, 0x22, 0x7C, 0x3F, 0x2A};
      } else {
        var i :| 0 < i < |c| && c[i - 1] == 0xC2 && 0x80 <= c[i] < 0xA0;
        assert c[i - 1 + 1] == c[i];
      }
    }
    if HasControl(c) {
      var i :| 0 <= i < |c| && (c[i] < 0x20 || c[i] == 0x7F || (c[i] == 0xC2 && i + 1 < |c| && 0x80 <= c[i + 1] <= 0x9F));
      assert ForbiddenByte(c[i]) || (c[i + 1 - 1] == 0xC2 && 0x80 <= c[i + 1] < 0xA0);
    }
    forall i | 0 <= i < |c| && c[i] in {BACKSLASH, COLON, 0x3C, 0x3E, 0x22, 0x7C, 0x3F, 0x2A}
      ensures HasForbidden(c)
    {
      assert c[i] in c && ForbiddenByte(c[i]);
    }
  }

  /** Neither lower-case letters nor the first byte of a dotless i. */
  ghost predicate IsUpper(name: Component) {
    forall b | b in name :: !(0x61 <= b <= 0x7A) && b != 0xC4
  }

  lemma {:induction false} UpperIffSpells(t: Component, name: Component)
    requires IsUpper(name)
    ensures Upper(t) == name <==> Spells(t, name)
  {
    if t != [] && name != [] {
      assert name == [name[0]] + name[1..] && name[0] in name;
      assert forall b | b in name[1..] :: b in name;
      UpperIffSpells(t[1..], name[1..]);
      if |t| >= 2 {
        UpperIffSpells(t[2..], name[1..]);
      }
    }
  }

  lemma ReservedIff(upper: Component)
    ensures
      (|| upper in {Ascii("CON"), Ascii("PRN"), Ascii("AUX"), Ascii("NUL"), Ascii("CLOCK$"), Ascii("CONIN$"), Ascii("CONOUT$")}
       || DeviceNumbered(upper, Ascii("COM"))
       || DeviceNumbered(upper, Ascii("LPT"))) <==> ReservedName(upper)
  {
    assert |Ascii("COM")| == 3 == |Ascii("LPT")|;
    if |upper| >= 3 {
      NumberIff(upper[3..]);
    }
    hide Ascii, ReservedNumber;
  }

  lemma NumberIff(n: Component)
    ensures ReservedNumber(n) <==>
            || (|n| == 1 && 0x30 <= n[0] <= 0x39)
            || n in {[0xE2, 0x81, 0xB0], [0xC2, 0xB9], [0xC2, 0xB2], [0xC2, 0xB3]}
  {
    assert Ascii("0") == [0x30] && Ascii("1") == [0x31] && Ascii("2") == [0x32] && Ascii("3") == [0x33];
    assert Ascii("4") == [0x34] && Ascii("5") == [0x35] && Ascii("6") == [0x36] && Ascii("7") == [0x37];
    assert Ascii("8") == [0x38] && Ascii("9") == [0x39];
    if |n| == 1 && 0x30 <= n[0] <= 0x39 {
      assert n == [n[0]];
    }
  }

  /** What the proofs need to know about a reserved name. */
  ghost predicate Neat(name: Component) {
    IsUpper(name) && name != [] && name[|name| - 1] != SPACE && DOT !in name
  }

  lemma WordIsNeat(w: string)
    requires w != "" && forall i | 0 <= i < |w| :: 'A' <= w[i] <= 'Z' || w[i] == '$'
    ensures Neat(Ascii(w))
  {
  }

  lemma NumberIsNeat(n: Component)
    requires ReservedNumber(n)
    ensures Neat(n)
  {
    NumberIff(n);
    hide ReservedNumber;
    if |n| == 1 && 0x30 <= n[0] <= 0x39 {
      assert forall b | b in n :: b == n[0];
    }
  }

  lemma NeatTogether(a: Component, b: Component)
    requires Neat(a) && Neat(b)
    ensures Neat(a + b)
  {
  }

  lemma ReservedIsUpper(name: Component)
    requires ReservedName(name)
    ensures IsUpper(name) && name != [] && name[|name| - 1] != SPACE && DOT !in name
  {
    WordIsNeat("CON");
    WordIsNeat("PRN");
    WordIsNeat("AUX");
    WordIsNeat("NUL");
    WordIsNeat("CLOCK$");
    WordIsNeat("CONIN$");
    WordIsNeat("CONOUT$");
    WordIsNeat("COM");
    WordIsNeat("LPT");
    assert |Ascii("COM")| == 3 == |Ascii("LPT")|;
    hide Ascii, ReservedNumber, IsUpper;
    if |name| > 3 && ReservedNumber(name[3..]) {
      NumberIsNeat(name[3..]);
      assert name == name[..3] + name[3..];
      if Ascii("COM") <= name || Ascii("LPT") <= name {
        NeatTogether(name[..3], name[3..]);
      }
    }
    EmptyIsNoNumber();
  }

  lemma EmptyIsNoNumber()
    ensures !ReservedNumber([])
  {
    assert |Ascii("0")| == 1 && |Ascii("1")| == 1 && |Ascii("2")| == 1 && |Ascii("3")| == 1 && |Ascii("4")| == 1;
    assert |Ascii("5")| == 1 && |Ascii("6")| == 1 && |Ascii("7")| == 1 && |Ascii("8")| == 1 && |Ascii("9")| == 1;
  }

  lemma {:induction false} StemIs(c: Component, i: nat, n: nat)
    requires i <= n <= |c| && (n == |c| || c[n] == DOT) && forall k | i <= k < n :: c[k] != DOT
    ensures StemEnd(c, i) == n
    decreases n - i
  {
    if i < n {
      StemIs(c, i + 1, n);
    }
  }

  lemma {:induction false} StemParts(c: Component, i: nat)
    requires i <= |c|
    ensures forall k | i <= k < StemEnd(c, i) :: c[k] != DOT
    ensures StemEnd(c, i) == |c| || c[StemEnd(c, i)] == DOT
    decreases |c| - i
  {
    if i < |c| && c[i] != DOT {
      StemParts(c, i + 1);
    }
  }

  lemma {:induction false} TrimOf(stem: Component, spaces: Component)
    requires (forall b | b in spaces :: b == SPACE) && (stem == [] || stem[|stem| - 1] != SPACE)
    ensures TrimSpaces(stem + spaces) == stem
    decreases |spaces|
  {
    if spaces != [] {
      var fewer := spaces[..|spaces| - 1];
      assert spaces[|spaces| - 1] in spaces && forall b | b in fewer :: b in spaces;
      assert (stem + spaces)[..|stem + spaces| - 1] == stem + fewer;
      TrimOf(stem, fewer);
    } else {
      assert stem + spaces == stem;
    }
  }

  lemma {:induction false} TrimParts(c: Component) returns (spaces: Component)
    ensures c == TrimSpaces(c) + spaces && forall b | b in spaces :: b == SPACE
  {
    if c != [] && c[|c| - 1] == SPACE {
      spaces := TrimParts(c[..|c| - 1]);
      spaces := spaces + [SPACE];
      assert c == c[..|c| - 1] + [SPACE];
    } else {
      spaces := [];
    }
  }

  /** A spelling has no dot, and no space at its end, because the name has none. */
  lemma {:induction false} SpellingKeeps(t: Component, name: Component)
    requires Spells(t, name) && DOT !in name && IsUpper(name)
    ensures DOT !in t
    ensures name != [] && name[|name| - 1] != SPACE ==> t != [] && t[|t| - 1] != SPACE
  {
    if name != [] {
      assert name == [name[0]] + name[1..] && name[0] in name && forall b | b in name[1..] :: b in name;
      if t[0] == 0xC4 {
        assert !Spells(t[1..], name[1..]) || t[0] != name[0];
        SpellingKeeps(t[2..], name[1..]);
        assert t == [t[0], t[1]] + t[2..];
      } else {
        SpellingKeeps(t[1..], name[1..]);
        assert t == [t[0]] + t[1..];
      }
    }
  }

  lemma DeviceIff(c: Component)
    ensures IsWindowsDeviceName(c) <==> NamesDevice(c)
  {
    hide ReservedName, Spells, Upper, DeviceNumbered;
    var n := StemEnd(c, 0);
    var stem := TrimSpaces(c[..n]);
    ReservedIff(Upper(stem));
    if IsWindowsDeviceName(c) {
      var spaces := TrimParts(c[..n]);
      StemParts(c, 0);
      ReservedIsUpper(Upper(stem));
      UpperIffSpells(stem, Upper(stem));
      assert c == stem + spaces + c[n..];
    }
    if NamesDevice(c) {
      var stem', spaces, rest, name :|
        && c == stem' + spaces + rest && ReservedName(name) && Spells(stem', name)
        && (forall b | b in spaces :: b == SPACE) && (rest == [] || rest[0] == DOT);
      ReservedIsUpper(name);
      SpellingKeeps(stem', name);
      var m := |stem' + spaces|;
      forall k | 0 <= k < m
        ensures c[k] != DOT
      {
        assert c[k] == (stem' + spaces)[k] && (c[k] in stem' || c[k] in spaces);
      }
      StemIs(c, 0, m);
      assert c[..m] == stem' + spaces;
      TrimOf(stem', spaces);
      UpperIffSpells(stem', name);
    }
  }

  /** `validate_component` decides the grammar, and says which components lead outside. */
  lemma ComponentErrorMeans(c: Component)
    ensures ComponentError(c).None? <==> InGrammar(c)
    ensures ComponentError(c) == Some(OutsideBoundary) <==> LeadsOutside(c)
  {
    ForbiddenIff(c);
    DeviceIff(c);
    hide HasControl, IsWindowsDeviceName, HasForbidden, NamesDevice;
    assert Ascii(".") == [DOT] && Ascii("..") == [DOT, DOT];
  }

  /** What the proofs need to know about an accepted component. */
  lemma AcceptedComponent(c: Component)
    requires InGrammar(c)
    ensures c != [] && c != [DOT] && c != [DOT, DOT] && COLON !in c && BACKSLASH !in c
  {
    hide NamesDevice;
    assert Ascii(".") == [DOT] && Ascii("..") == [DOT, DOT];
    assert ForbiddenByte(COLON) && ForbiddenByte(BACKSLASH);
    assert forall b | b in c :: !ForbiddenByte(b);
  }

  // ---- splitting and joining at slashes ----

  /** `str::split('/')` */
  function Split(s: Bytes): (r: seq<Component>)
    ensures |r| >= 1
    ensures forall c | c in r :: SLASH !in c
  {
    SplitOn(SLASH, s)
  }

  /** `components.join("/")` */
  function Join(parts: seq<Component>): Bytes {
    if parts == [] then []
    else if |parts| == 1 then parts[0]
    else parts[0] + [SLASH] + Join(parts[1..])
  }

  lemma {:induction false} JoinSplit(s: Bytes)
    ensures Join(Split(s)) == s
  {
    if s != [] {
      JoinSplit(s[1..]);
      var r := Split(s[1..]);
      if s[0] == SLASH {
        assert ([[]] + r)[1..] == r;
        assert s == [SLASH] + s[1..];
      } else {
        var t := [[s[0]] + r[0]] + r[1..];
        assert t[1..] == r[1..];
        if |r| == 1 {
          assert s == [s[0]] + s[1..];
        } else {
          assert s == [s[0]] + (r[0] + [SLASH] + Join(r[1..]));
        }
      }
    }
  }

  lemma {:induction false} SplitJoin(parts: seq<Component>)
    requires parts != [] && forall c | c in parts :: SLASH !in c
    ensures Split(Join(parts)) == parts
  {
    SplitPlain(SLASH, parts[0]);
    if |parts| == 1 {
      assert parts == [parts[0]];
    } else {
      SplitJoin(parts[1..]);
      SplitAtSeparator(SLASH, parts[0], Join(parts[1..]));
      assert parts == [parts[0]] + parts[1..];
    }
  }

  lemma {:induction false} JoinConcat(a: seq<Component>, b: seq<Component>)
    requires a != [] && b != []
    ensures Join(a + b) == Join(a) + [SLASH] + Join(b)
  {
    if |a| == 1 {
      assert (a + b)[1..] == b;
    } else {
      JoinConcat(a[1..], b);
      assert (a + b)[1..] == a[1..] + b;
      assert Join(a + b) == a[0] + [SLASH] + (Join(a[1..]) + [SLASH] + Join(b));
    }
  }

  // ---- relative paths ----

  /** First error of the loop in `validate_relative`, entered with `count` components accepted. */
  function FirstError(parts: seq<Component>, count: nat): Option<PathError> {
    if parts == [] then None
    else if count == MAX_COMPONENTS then Some(Invalid)
    else if ComponentError(parts[0]).Some? then ComponentError(parts[0])
    else FirstError(parts[1..], count + 1)
  }

  function CheckRelative(relative: Bytes): Result<RelativePath, PathError> {
    if relative == [] || |relative| > MAX_RELATIVE_PATH_BYTES then Failure(Invalid)
    else if relative[0] == SLASH || relative[0] == BACKSLASH then Failure(OutsideBoundary)
    else if FirstError(Split(relative), 0).Some? then Failure(FirstError(Split(relative), 0).value)
    else Success(Split(relative))
  }

  ghost predicate AdmitsRelative(relative: Bytes) {
    && 1 <= |relative| <= 4096 && |Split(relative)| <= 256
    && forall c | c in Split(relative) :: InGrammar(c)
  }

  /** Component `k` is the first that is one too many or not in the grammar. */
  ghost predicate FirstBad(parts: seq<Component>, k: nat, error: PathError) {
    && k < |parts| && k <= 256 && (forall j | 0 <= j < k :: InGrammar(parts[j]))
    && if k == 256 then error == Invalid
       else !InGrammar(parts[k]) && (error == OutsideBoundary <==> LeadsOutside(parts[k]))
  }

  /** Why a relative path is refused: its size, its first byte, or its first bad component. */
  ghost predicate ExplainsRelative(relative: Bytes, error: PathError) {
    if relative == [] || |relative| > 4096 then error == Invalid
    else if relative[0] in {SLASH, BACKSLASH} then error == OutsideBoundary
    else exists k :: FirstBad(Split(relative), k, error)
  }

  lemma {:induction false} FirstErrorMeans(parts: seq<Component>, i: nat)
    requires i <= |parts| && i <= 256 && forall j | 0 <= j < i :: InGrammar(parts[j])
    ensures
      var e := FirstError(parts[i..], i);
      && (e.None? <==> |parts| <= 256 && forall c | c in parts :: InGrammar(c))
      && (e.Some? ==> exists k :: FirstBad(parts, k, e.value))
    decreases |parts| - i
  {
    hide ComponentError, InGrammar, LeadsOutside;
    if i < |parts| && i < 256 {
      ComponentErrorMeans(parts[i]);
      assert parts[i..][0] == parts[i] && parts[i..][1..] == parts[i + 1..];
      if InGrammar(parts[i]) {
        FirstErrorMeans(parts, i + 1);
      } else {
        assert parts[i] in parts;
        assert FirstBad(parts, i, ComponentError(parts[i]).value);
      }
    } else if i < |parts| {
      assert FirstBad(parts, i, Invalid);
    }
  }

  lemma RelativeMeans(relative: Bytes)
    ensures CheckRelative(relative).Success? <==> AdmitsRelative(relative)
    ensures CheckRelative(relative).Failure? ==> ExplainsRelative(relative, CheckRelative(relative).error)
  {
    hide ComponentError, FirstError, FirstBad;
    if relative != [] {
      var parts := Split(relative);
      assert parts[0..] == parts;
      FirstErrorMeans(parts, 0);
      if relative[0] == SLASH || relative[0] == BACKSLASH {
        FirstByte(relative);
      }
    }
  }

  /** A path that begins with a slash or a backslash has a first component outside the grammar. */
  lemma FirstByte(relative: Bytes)
    requires relative != [] && relative[0] in {SLASH, BACKSLASH}
    ensures Split(relative)[0] in Split(relative) && !InGrammar(Split(relative)[0])
  {
    hide InGrammar;
    var c := Split(relative)[0];
    if relative[0] == BACKSLASH {
      assert c[0] == BACKSLASH && BACKSLASH in c;
    }
    if InGrammar(c) {
      AcceptedComponent(c);
    }
  }

  /** A path whose first bad component is `..` leads outside, relative or canonical. */
  lemma ParentLeadsOutside(ws: Bytes, relative: Bytes, i: nat)
    requires 1 <= |relative| <= 4096 && relative[0] !in {SLASH, BACKSLASH}
    requires i < |Split(relative)| && i < 256 && Split(relative)[i] == Ascii("..")
    requires forall j | 0 <= j < i :: InGrammar(Split(relative)[j])
    ensures CheckRelative(relative) == Failure(OutsideBoundary)
    ensures ParseCanonical(ws, Root(ws) + [SLASH] + relative) == Failure(OutsideBoundary)
    ensures CanonicalResource(ws, Root(ws) + [SLASH] + relative) == Failure(OutsideBoundary)
  {
    RelativeMeans(relative);
    hide ComponentError, FirstError, CheckRelative, HasForbidden, NamesDevice;
    assert Split(relative)[i] in Split(relative);
    assert forall k, e :: FirstBad(Split(relative), k, e) ==> k == i;
    assert (Root(ws) + [SLASH] + relative)[|Root(ws) + [SLASH]|..] == relative;
    assert (Root(ws) + [SLASH] + relative)[0] != DOT;
  }

  /** `validate_relative`: accepts exactly at most 4096 bytes in at most 256 components of the grammar,
      and otherwise reports the first thing that is wrong. */
  method ValidateRelative(relative: Bytes) returns (r: Result<RelativePath, PathError>)
    ensures r == CheckRelative(relative)
    ensures r.Success? <==> AdmitsRelative(relative)
    ensures r.Success? ==> r.value == Split(relative)
    ensures r.Failure? ==> ExplainsRelative(relative, r.error)
  {
    RelativeMeans(relative);
    hide AdmitsRelative, ExplainsRelative;
    if relative == [] || |relative| > MAX_RELATIVE_PATH_BYTES {
      return Failure(Invalid);
    }
    if relative[0] == SLASH || relative[0] == BACKSLASH {
      return Failure(OutsideBoundary);
    }
    var parts := Split(relative);
    var components: seq<Component> := [];
    for i := 0 to |parts|
      invariant components == parts[..i]
      invariant FirstError(parts, 0) == FirstError(parts[i..], i)
    {
      hide ComponentError;
      assert parts[i..][1..] == parts[i + 1..];
      if |components| == MAX_COMPONENTS {
        return Failure(Invalid);
      }
      var error := ComponentError(parts[i]);
      if error.Some? {
        return Failure(error.value);
      }
      components := components + [parts[i]];
    }
    assert parts[|parts|..] == [] && parts[..|parts|] == parts;
    return Success(components);
  }

  /** The component lists the grammar admits. */
  ghost predicate WellFormed(p: RelativePath) {
    && 0 < |p| <= MAX_COMPONENTS
    && (forall c | c in p :: InGrammar(c) && SLASH !in c)
    && |Join(p)| <= MAX_RELATIVE_PATH_BYTES
  }

  /** Parsing and printing are inverse: exactly the printed forms of well-formed lists are accepted. */
  lemma RelativeIffWellFormed(s: Bytes, p: RelativePath)
    ensures CheckRelative(s) == Success(p) <==> WellFormed(p) && s == Join(p)
  {
    RelativeMeans(s);
    hide InGrammar, FirstError;
    if CheckRelative(s) == Success(p) {
      JoinSplit(s);
    }
    if WellFormed(p) && s == Join(p) {
      SplitJoin(p);
      assert p[0] in p;
      AcceptedComponent(p[0]);
      assert s != [];
    }
  }

  // ---- canonical resources ----

  function Root(ws: Bytes): Bytes {
    CanonicalPrefix() + ws
  }

  function StripPrefix(s: Bytes, prefix: Bytes): Option<Bytes> {
    if prefix <= s then Some(s[|prefix|..]) else None
  }

  function CanonicalResource(ws: Bytes, resource: Bytes): Result<Bytes, PathError> {
    if resource == [DOT] || resource == Root(ws) then Success(Root(ws))
    else
      var prefix := Root(ws) + [SLASH];
      var stripped := StripPrefix(resource, prefix);
      if stripped.None? && CanonicalPrefix() <= resource then Failure(OutsideBoundary)
      else
        var relative := if stripped.Some? then stripped.value else resource;
        var checked := CheckRelative(relative);
        if checked.Failure? then Failure(checked.error) else Success(prefix + relative)
  }

  function ParseCanonical(ws: Bytes, resource: Bytes): Result<RelativePath, PathError> {
    if resource == Root(ws) then Success([])
    else
      var stripped := StripPrefix(resource, Root(ws) + [SLASH]);
      if stripped.None? then Failure(OutsideBoundary) else CheckRelative(stripped.value)
  }

  /** `RelativePath::display` */
  function Display(p: RelativePath): Bytes {
    if p == [] then [DOT] else Join(p)
  }

  /** The canonical resource of a component list. */
  function Print(ws: Bytes, p: RelativePath): Bytes {
    if p == [] then Root(ws) else Root(ws) + [SLASH] + Join(p)
  }

  ghost predicate IsPath(p: RelativePath) {
    p == [] || WellFormed(p)
  }

  /** `parse_canonical` inverts printing, and accepts nothing else. */
  lemma ParseIffPrinted(ws: Bytes, s: Bytes, p: RelativePath)
    ensures ParseCanonical(ws, s) == Success(p) <==> IsPath(p) && s == Print(ws, p)
  {
    hide WellFormed, CheckRelative;
    var prefix := Root(ws) + [SLASH];
    if s == Root(ws) {
      if p != [] {
        assert |Print(ws, p)| > |s|;
      }
    } else if prefix <= s {
      RelativeIffWellFormed(s[|prefix|..], p);
      assert s == prefix + s[|prefix|..];
      EmptyIsNotWellFormed();
    } else {
      assert p != [] ==> prefix <= Print(ws, p);
    }
  }

  lemma EmptyIsNotWellFormed()
    ensures !WellFormed([])
  {
  }

  lemma NotPrefix(a: Bytes, s: Bytes)
    ensures a <= s <==> |a| <= |s| && forall i | 0 <= i < |a| :: a[i] == s[i]
  {
  }

  /** Within the first ten bytes a printed list ends, has a slash, or has no colon in tenth place. */
  lemma PrintedHead(p: RelativePath)
    requires WellFormed(p)
    ensures |Join(p)| < 10 || Join(p)[9] != COLON || exists i | 0 <= i < 10 :: Join(p)[i] == SLASH
  {
    hide InGrammar;
    assert p[0] in p;
    AcceptedComponent(p[0]);
    if |p[0]| > 9 {
      assert Join(p)[9] == p[0][9] && p[0][9] in p[0];
    } else if |p| > 1 {
      assert Join(p)[|p[0]|] == SLASH;
    }
  }

  /** A printed list never looks like a root, a dot or a prefixed resource. */
  lemma PlainText(ws: Bytes, p: RelativePath)
    requires WellFormed(p)
    ensures Join(p) != [DOT] && Join(p) != Root(ws) && !(CanonicalPrefix() <= Join(p))
  {
    var s := Join(p);
    PrintedHead(p);
    NotPrefix(CanonicalPrefix(), s);
    assert forall i | 0 <= i < 10 :: CanonicalPrefix()[i] in CanonicalPrefix();
    hide InGrammar;
    assert CanonicalPrefix() <= Root(ws);
    SplitJoin(p);
    SplitPlain(SLASH, [DOT]);
    assert p[0] in p;
    AcceptedComponent(p[0]);
  }

  /** Every resource denotes at most one component list: canonicalisation prints it. */
  lemma CanonicalPrints(ws: Bytes, p: RelativePath)
    requires IsPath(p)
    ensures CanonicalResource(ws, Display(p)) == Success(Print(ws, p))
    ensures CanonicalResource(ws, Print(ws, p)) == Success(Print(ws, p))
  {
    hide WellFormed, CheckRelative;
    if p != [] {
      RelativeIffWellFormed(Join(p), p);
      PlainText(ws, p);
      var prefix := Root(ws) + [SLASH];
      NotPrefix(prefix, Join(p));
      NotPrefix(CanonicalPrefix(), Join(p));
      assert forall i | 0 <= i < 10 :: CanonicalPrefix()[i] == prefix[i];
      assert Print(ws, p) == prefix + Join(p);
      assert Print(ws, p)[|prefix|..] == Join(p);
      assert Print(ws, p)[0] != DOT;
    } else {
      assert Root(ws)[0] != DOT;
    }
  }

  lemma CanonicalIsPrinted(ws: Bytes, s: Bytes)
    requires CanonicalResource(ws, s).Success?
    ensures exists p :: IsPath(p) && CanonicalResource(ws, s).value == Print(ws, p)
  {
    hide WellFormed, CheckRelative;
    var prefix := Root(ws) + [SLASH];
    if s == [DOT] || s == Root(ws) {
      assert IsPath([]) && Print(ws, []) == Root(ws);
    } else {
      var relative := if prefix <= s then s[|prefix|..] else s;
      var p := CheckRelative(relative).value;
      RelativeIffWellFormed(relative, p);
      EmptyIsNotWellFormed();
      assert IsPath(p) && Print(ws, p) == prefix + relative;
    }
  }

  /** Exactly the two ways to write a path canonicalise to it. */
  lemma {:induction false} CanonicalIff(ws: Bytes, s: Bytes, p: RelativePath)
    requires IsPath(p)
    ensures CanonicalResource(ws, s) == Success(Print(ws, p)) <==> s == Display(p) || s == Print(ws, p)
  {
    CanonicalPrints(ws, p);
    if CanonicalResource(ws, s) == Success(Print(ws, p)) {
      var prefix := Root(ws) + [SLASH];
      if prefix <= s {
        assert s == prefix + s[|prefix|..];
      }
      if p != [] && s != [DOT] && s != Root(ws) {
        assert forall r: Bytes :: (prefix + r)[|prefix|..] == r;
        assert Print(ws, p)[|prefix|..] == Join(p);
      }
      if s == [DOT] || s == Root(ws) {
        assert p != [] ==> |Print(ws, p)| > |Root(ws)|;
      }
      hide WellFormed, CheckRelative;
    }
  }

  /** The strings `parse_canonical` accepts are exactly the fixed points of `canonical_resource`. */
  lemma ParseIffFixpoint(ws: Bytes, s: Bytes)
    ensures ParseCanonical(ws, s).Success? <==> CanonicalResource(ws, s) == Success(s)
  {
    hide CanonicalResource, ParseCanonical, IsPath, Print;
    if ParseCanonical(ws, s).Success? {
      ParseIffPrinted(ws, s, ParseCanonical(ws, s).value);
      CanonicalPrints(ws, ParseCanonical(ws, s).value);
    }
    if CanonicalResource(ws, s) == Success(s) {
      CanonicalIsPrinted(ws, s);
      var p :| IsPath(p) && s == Print(ws, p);
      ParseIffPrinted(ws, s, p);
    }
  }

  lemma {:induction false} CanonicalIsIdempotent(ws: Bytes, s: Bytes)
    requires CanonicalResource(ws, s).Success?
    ensures CanonicalResource(ws, CanonicalResource(ws, s).value) == CanonicalResource(ws, s)
    ensures ParseCanonical(ws, CanonicalResource(ws, s).value).Success?
  {
    hide CanonicalResource, ParseCanonical, IsPath, Print;
    CanonicalIsPrinted(ws, s);
    var p :| IsPath(p) && CanonicalResource(ws, s).value == Print(ws, p);
    CanonicalPrints(ws, p);
    ParseIffPrinted(ws, Print(ws, p), p);
  }

  /** Printing a parsed path with `display` and canonicalising gives the original resource, and
      parsing that gives the path back. */
  lemma DisplayRoundTrip(ws: Bytes, s: Bytes, p: RelativePath)
    requires ParseCanonical(ws, s) == Success(p)
    ensures CanonicalResource(ws, Display(p)) == Success(s)
  {
    hide CanonicalResource, ParseCanonical, IsPath, Print;
    ParseIffPrinted(ws, s, p);
    CanonicalPrints(ws, p);
  }

  lemma PathRoundTrip(ws: Bytes, p: RelativePath)
    requires IsPath(p)
    ensures CanonicalResource(ws, Display(p)).Success?
    ensures ParseCanonical(ws, CanonicalResource(ws, Display(p)).value) == Success(p)
  {
    hide CanonicalResource, ParseCanonical, IsPath, Print;
    CanonicalPrints(ws, p);
    ParseIffPrinted(ws, Print(ws, p), p);
  }

  lemma DisplayIsInjective(p: RelativePath, q: RelativePath)
    requires IsPath(p) && IsPath(q) && Display(p) == Display(q)
    ensures p == q
  {
    hide CanonicalResource, ParseCanonical, IsPath, Print, Display;
    PathRoundTrip([], p);
    PathRoundTrip([], q);
  }

  /** No resource parses under two workspaces. */
  lemma OneWorkspace(ws: Bytes, ws': Bytes, s: Bytes)
    requires IsWorkspaceId(ws) && IsWorkspaceId(ws')
    requires ParseCanonical(ws, s).Success? && ParseCanonical(ws', s).Success?
    ensures ws == ws'
  {
    assert SLASH !in ws && SLASH !in ws';
    RootLength(ws, ws', s);
    RootLength(ws', ws, s);
    RootInside(ws, s);
    RootInside(ws', s);
  }

  lemma RootInside(ws: Bytes, s: Bytes)
    requires ParseCanonical(ws, s).Success?
    ensures |s| >= 10 + |ws| && s[10..10 + |ws|] == ws
  {
    hide CheckRelative;
    assert Root(ws)[10..] == ws && Root(ws) <= s;
  }

  lemma RootLength(ws: Bytes, ws': Bytes, s: Bytes)
    requires SLASH !in ws'
    requires ParseCanonical(ws, s).Success? && ParseCanonical(ws', s).Success?
    ensures |ws'| <= |ws|
  {
    hide CheckRelative;
    NotPrefix(Root(ws'), s);
    forall j | 10 <= j < 10 + |ws'|
      ensures s[j] != SLASH
    {
      assert Root(ws')[j] == ws'[j - 10] && ws'[j - 10] in ws';
    }
    assert |s| == 10 + |ws| || s[10 + |ws|] == SLASH;
  }

  // ---- join ----

  function TotalBytes(p: RelativePath): nat {
    if p == [] then 0 else |p[0]| + TotalBytes(p[1..])
  }

  /** `RelativePath::join` */
  function JoinPath(p: RelativePath, name: Component): Result<RelativePath, PathError> {
    if ComponentError(name).Some? then Failure(ComponentError(name).value)
    else if |p| == MAX_COMPONENTS then Failure(Invalid)
    else if TotalBytes(p + [name]) + |p| > MAX_RELATIVE_PATH_BYTES then Failure(Invalid)
    else Success(p + [name])
  }

  lemma {:induction false} JoinLength(p: RelativePath)
    requires p != []
    ensures |Join(p)| == TotalBytes(p) + |p| - 1
  {
    if |p| > 1 {
      JoinLength(p[1..]);
    } else {
      assert p[1..] == [];
    }
  }

  /** `join` with a slash-free name succeeds exactly when the longer path is in the grammar, so its
      result prints and parses back. */
  lemma JoinStaysInside(p: RelativePath, name: Component)
    requires IsPath(p) && SLASH !in name
    ensures JoinPath(p, name).Success? <==> WellFormed(p + [name])
    ensures JoinPath(p, name).Success? ==> JoinPath(p, name).value == p + [name]
  {
    ComponentErrorMeans(name);
    hide ComponentError, InGrammar;
    JoinLength(p + [name]);
    assert name in p + [name];
  }
}
