/** Bounded line input of the interactive loop: repl.rs. */
module LineReader {
  import opened Wrappers
  import opened Utf8

  const MAX_REPL_LINE_BYTES: nat := 16 * 1024
  const MAX_REPL_GOAL_BYTES: nat := 16 * 1024
  const ETX: Bytes := [0x03]

  datatype InputFailure = Unavailable | TooLarge | InvalidCommand

  /** `Result<Option<String>, InputFailure>` */
  type LineResult = Result<Option<Bytes>, InputFailure>

  // ---- lines of a stream ----

  /** Bytes of the first line, with its newline if it has one. */
  function LineLength(s: Bytes): (n: nat)
    ensures n <= |s| && (n == 0 <==> s == [])
  {
    var i := IndexOf(NEWLINE, s, 0);
    if i < |s| then i + 1 else i
  }

  function WithoutEnd(line: Bytes): Bytes {
    if line == [] || line[|line| - 1] != NEWLINE then line
    else
      var body := line[..|line| - 1];
      if body != [] && body[|body| - 1] == CARRIAGE_RETURN then body[..|body| - 1] else body
  }

  /** What one line gives, and nothing but that line. */
  function Judge(line: Bytes): LineResult {
    if |line| > MAX_REPL_LINE_BYTES + 2 then Failure(TooLarge)
    else if Valid(WithoutEnd(line)) then Success(Some(WithoutEnd(line)))
    else Failure(Unavailable)
  }

  /** The result of reading a line from a whole stream, and what is left. */
  function ReadLine(s: Bytes): (LineResult, Bytes) {
    if s == [] then (Success(None), []) else (Judge(s[..LineLength(s)]), s[LineLength(s)..])
  }

  // ---- the buffered reader ----

  datatype ReadError = Signalled | InvalidData | OtherError

  /** `BufRead`: `rest` is the input still to come, of which `filled` bytes are in the buffer. A
      reliable reader reports no errors. */
  class BufReader {
    var rest: Bytes
    var filled: nat
    const reliable: bool

    ghost predicate Valid()
      reads this
    {
      filled <= |rest|
    }

    constructor (input: Bytes, reliable: bool)
      ensures Valid() && rest == input && this.reliable == reliable
    {
      rest, filled := input, 0;
      this.reliable := reliable;
    }

    /** The buffer, filled by any non-empty amount when it was empty. */
    method FillBuf() returns (r: Result<Bytes, ReadError>)
      requires Valid()
      modifies this`filled
      ensures Valid()
      ensures reliable ==> r.Success?
      ensures r.Success? ==> r.value == rest[..filled] && (r.value == [] <==> rest == [])
    {
      if !reliable {
        var fails: bool := *;
        if fails {
          var interrupted: bool := *;
          var invalid: bool := *;
          return Failure(if interrupted then Signalled else if invalid then InvalidData else OtherError);
        }
      }
      if filled == 0 && rest != [] {
        var more: nat :| 0 < more <= |rest|;
        filled := more;
      }
      return Success(rest[..filled]);
    }

    method Consume(amount: nat)
      requires Valid() && amount <= filled
      modifies this
      ensures Valid() && rest == old(rest)[amount..]
    {
      rest := rest[amount..];
      filled := filled - amount;
    }
  }

  ghost predicate Plain(s: Bytes, n: nat)
    requires n <= |s|
  {
    forall k | 0 <= k < n :: s[k] != NEWLINE
  }

  lemma IndexFacts(s: Bytes)
    ensures var i := IndexOf(NEWLINE, s, 0); i <= |s| && Plain(s, i) && (i < |s| ==> s[i] == NEWLINE)
  {
    var i := IndexOf(NEWLINE, s, 0);
    assert forall k | 0 <= k < i :: s[k] == s[0..i][k] && s[k] in s[0..i];
  }

  lemma IndexIs(s: Bytes, i: nat)
    requires i <= |s| && Plain(s, i) && (i < |s| ==> s[i] == NEWLINE)
    ensures IndexOf(NEWLINE, s, 0) == i && LineLength(s) == if i < |s| then i + 1 else i
  {
    IndexFacts(s);
    hide IndexOf;
    var k := IndexOf(NEWLINE, s, 0);
  }

  /** The end of the line in the buffered part, or all of it. */
  lemma BufferedLine(rest: Bytes, available: Bytes)
    requires available <= rest && available != []
    ensures
      var i := IndexOf(NEWLINE, available, 0);
      && Plain(available, i)
      && (i < |available| ==> available[i] == NEWLINE && LineLength(rest) == i + 1)
      && (i == |available| ==> LineLength(rest) == |available| + LineLength(rest[|available|..]))
  {
    hide IndexOf, LineLength;
    IndexFacts(available);
    var i := IndexOf(NEWLINE, available, 0);
    if i < |available| {
      IndexIs(rest, i);
    } else {
      PastBuffer(rest, |available|);
    }
  }

  lemma PastBuffer(rest: Bytes, n: nat)
    requires n <= |rest| && Plain(rest, n)
    ensures LineLength(rest) == n + LineLength(rest[n..])
  {
    hide IndexOf;
    var tail := rest[n..];
    IndexFacts(tail);
    var j := IndexOf(NEWLINE, tail, 0);
    assert forall k | n <= k < n + j :: rest[k] == tail[k - n];
    IndexIs(rest, n + j);
    IndexIs(tail, j);
  }

  /** `drain_line`: consumes exactly the rest of the line. */
  method DrainLine(reader: BufReader) returns (r: Result<(), InputFailure>)
    requires reader.Valid()
    modifies reader
    ensures reader.Valid()
    ensures r.Success? ==> reader.rest == old(reader.rest)[LineLength(old(reader.rest))..]
    ensures reader.reliable ==> r.Success?
    ensures |reader.rest| <= |old(reader.rest)|
  {
    ghost var input := reader.rest;
    ghost var done: nat := 0;
    while true
      invariant reader.Valid() && done <= |input| && reader.rest == input[done..]
      invariant done + LineLength(reader.rest) == LineLength(input)
      decreases |reader.rest|
    {
      var filled := reader.FillBuf();
      if filled.Failure? {
        return Failure(Unavailable);
      }
      var available := filled.value;
      if available == [] {
        return Success(());
      }
      BufferedLine(reader.rest, available);
      var i := IndexOf(NEWLINE, available, 0);
      var take := if i < |available| then i + 1 else |available|;
      var last := i < |available|;
      reader.Consume(take);
      done := done + take;
      if last {
        return Success(());
      }
    }
  }

  /** `bytes` were read of `input`, all in its first line, and `rest` is what is left. */
  ghost predicate ReadSoFar(input: Bytes, bytes: Bytes, rest: Bytes) {
    && |bytes| <= |input| && bytes == input[..|bytes|] && rest == input[|bytes|..]
    && Plain(bytes, |bytes|) && |bytes| + LineLength(rest) == LineLength(input)
  }

  lemma TakeAll(input: Bytes, bytes: Bytes, rest: Bytes, available: Bytes)
    requires ReadSoFar(input, bytes, rest) && available <= rest && Plain(available, |available|)
    requires LineLength(rest) == |available| + LineLength(rest[|available|..])
    ensures ReadSoFar(input, bytes + available, rest[|available|..])
    ensures |bytes| + |available| <= LineLength(input) <= |input|
  {
    hide LineLength;
  }

  lemma TakeEnd(input: Bytes, bytes: Bytes, rest: Bytes, available: Bytes, take: nat)
    requires ReadSoFar(input, bytes, rest) && available <= rest && take <= |available| && LineLength(rest) == take
    ensures |bytes| + take == LineLength(input) <= |input|
    ensures bytes + available[..take] == input[..LineLength(input)] && rest[take..] == input[LineLength(input)..]
  {
    hide LineLength;
    assert available[..take] == rest[..take];
  }

  lemma WholeSlice(s: Bytes)
    ensures s[..|s|] == s
  {
  }

  lemma TakeMore(input: Bytes, bytes: Bytes, rest: Bytes, available: Bytes)
    requires ReadSoFar(input, bytes, rest) && available <= rest && available != []
    ensures
      var i := IndexOf(NEWLINE, available, 0);
      var take := if i < |available| then i + 1 else |available|;
      && |bytes| + take <= LineLength(input) <= |input|
      && (available[take - 1] == NEWLINE <==> i < |available|)
      && (i == |available| ==> ReadSoFar(input, bytes + available[..take], rest[take..]))
      && (i < |available| ==>
            && |bytes| + take == LineLength(input) && bytes + available[..take] == input[..LineLength(input)]
            && rest[take..] == input[LineLength(input)..])
  {
    BufferedLine(rest, available);
    var i := IndexOf(NEWLINE, available, 0);
    hide LineLength, IndexOf, ReadSoFar;
    if i < |available| {
      TakeEnd(input, bytes, rest, available, i + 1);
    } else {
      WholeSlice(available);
      TakeAll(input, bytes, rest, available);
    }
  }

  lemma AtEnd(input: Bytes, bytes: Bytes)
    requires ReadSoFar(input, bytes, [])
    ensures LineLength(input) == |bytes| == |input| && bytes == input[..LineLength(input)]
    ensures input[LineLength(input)..] == []
  {
  }

  /** `read_bounded_line`. Without read errors the result and what is left depend on the bytes alone,
      however they were buffered; an over-long line is consumed exactly. */
  method ReadBoundedLine(reader: BufReader) returns (r: LineResult)
    requires reader.Valid()
    modifies reader
    ensures reader.Valid()
    ensures reader.reliable ==> (r, reader.rest) == ReadLine(old(reader.rest))
    ensures |reader.rest| <= |old(reader.rest)|
  {
    hide Utf8.Valid, LineLength, IndexOf, ReadSoFar, WithoutEnd;
    ghost var input := reader.rest;
    var bytes: Bytes := [];
    NothingRead(input);
    while true
      invariant reader.Valid() && |bytes| <= MAX_REPL_LINE_BYTES + 2
      invariant ReadSoFar(input, bytes, reader.rest) && |reader.rest| <= |input|
      decreases |reader.rest|
    {
      var filled := reader.FillBuf();
      if filled.Failure? {
        match filled.error {
          case Signalled => return Success(Some(ETX));
          case InvalidData => return Failure(TooLarge);
          case OtherError => return Failure(Unavailable);
        }
      }
      var available := filled.value;
      if available == [] {
        AtEnd(input, bytes);
        if bytes == [] {
          return Success(None);
        }
        break;
      }
      TakeMore(input, bytes, reader.rest, available);
      var i := IndexOf(NEWLINE, available, 0);
      var take := if i < |available| then i + 1 else |available|;
      if |bytes| + take > MAX_REPL_LINE_BYTES + 2 {
        var lineEnded := available[take - 1] == NEWLINE;
        reader.Consume(take);
        if !lineEnded {
          RestOfLine(input, bytes + available[..take], reader.rest);
          var drained := DrainLine(reader);
          if drained.Failure? {
            return Failure(drained.error);
          }
        }
        return Failure(TooLarge);
      }
      bytes := bytes + available[..take];
      reader.Consume(take);
      if bytes[|bytes| - 1] == NEWLINE {
        break;
      }
    }
    var line := PopEnd(bytes);
    if !Utf8.Valid(line) {
      return Failure(Unavailable);
    }
    return Success(Some(line));
  }

  /** The newline goes, and a carriage return before it. */
  method PopEnd(bytes: Bytes) returns (line: Bytes)
    ensures line == WithoutEnd(bytes)
  {
    line := bytes;
    if line != [] && line[|line| - 1] == NEWLINE {
      line := line[..|line| - 1];
      if line != [] && line[|line| - 1] == CARRIAGE_RETURN {
        line := line[..|line| - 1];
      }
    }
  }

  lemma NothingRead(input: Bytes)
    ensures ReadSoFar(input, [], input)
  {
  }

  lemma RestOfLine(input: Bytes, bytes: Bytes, rest: Bytes)
    requires ReadSoFar(input, bytes, rest)
    ensures LineLength(input) <= |input| && LineLength(rest) <= |rest|
    ensures rest[LineLength(rest)..] == input[LineLength(input)..]
  {
  }

  // ---- the lines of a stream, one by one ----

  predicate Stops(r: LineResult) {
    r == Success(None) || r == Failure(Unavailable)
  }

  /** All results of reading a stream to its end, as the input thread does. */
  function Session(s: Bytes): seq<LineResult>
    decreases |s|
  {
    var (r, rest) := ReadLine(s);
    if Stops(r) then [r] else [r] + Session(rest)
  }

  /** The results line by line: every line but the last one ends in a newline. */
  function Results(lines: seq<Bytes>): seq<LineResult>
    requires lines != []
  {
    var last := |lines| == 1;
    if last && lines[0] == [] then [Success(None)]
    else
      var r := Judge(if last then lines[0] else lines[0] + [NEWLINE]);
      if Stops(r) then [r] else if last then [r, Success(None)] else [r] + Results(lines[1..])
  }

  /** `InterruptibleInput::stdin`: the reading loop of the input thread. */
  method ReadAll(reader: BufReader) returns (results: seq<LineResult>)
    requires reader.Valid() && reader.reliable
    modifies reader
    ensures results == Session(old(reader.rest))
    ensures results != [] && results[|results| - 1] in {Success(None), Failure(Unavailable)}
    ensures forall i | 0 <= i < |results| - 1 :: results[i] != Success(None) && results[i] != Failure(Unavailable)
  {
    hide Judge, LineLength;
    ghost var input := reader.rest;
    results := [];
    while true
      invariant reader.Valid() && Session(input) == results + Session(reader.rest)
      invariant forall i | 0 <= i < |results| :: results[i] != Success(None) && results[i] != Failure(Unavailable)
      decreases |reader.rest|
    {
      ghost var before := reader.rest;
      var r := ReadBoundedLine(reader);
      SessionStep(before);
      results := results + [r];
      if Stops(r) {
        return;
      }
    }
  }

  lemma SessionStep(s: Bytes)
    ensures
      var (r, rest) := ReadLine(s);
      && (Stops(r) ==> Session(s) == [r])
      && (!Stops(r) ==> Session(s) == [r] + Session(rest) && |rest| < |s|)
  {
  }

  lemma OneLine(s: Bytes)
    requires s != [] && Plain(s, |s|)
    ensures ReadLine(s) == (Judge(s), []) && SplitOn(NEWLINE, s) == [s]
  {
    hide Judge;
    IndexIs(s, |s|);
    SplitPlain(NEWLINE, s);
    assert s[..|s|] == s && s[|s|..] == [];
  }

  lemma FirstOfMany(s: Bytes, i: nat)
    requires i < |s| && Plain(s, i) && s[i] == NEWLINE
    ensures ReadLine(s) == (Judge(s[..i] + [NEWLINE]), s[i + 1..])
    ensures SplitOn(NEWLINE, s) == [s[..i]] + SplitOn(NEWLINE, s[i + 1..])
  {
    hide Judge, SplitOn, IndexOf, LineLength;
    IndexIs(s, i);
    assert forall k | 0 <= k < i :: s[..i][k] == s[k];
    SplitFirst(NEWLINE, s, i);
    assert s[..i + 1] == s[..i] + [NEWLINE];
  }

  /** The results depend on the lines alone: each line gives exactly one, over-long or not. */
  lemma {:induction false} SessionIsPerLine(s: Bytes)
    ensures Session(s) == Results(SplitOn(NEWLINE, s))
    decreases |s|
  {
    hide Judge, Stops;
    IndexFacts(s);
    var i := IndexOf(NEWLINE, s, 0);
    if i < |s| {
      FirstOfMany(s, i);
      hide SplitOn, ReadLine;
      var later := SplitOn(NEWLINE, s[i + 1..]);
      SessionIsPerLine(s[i + 1..]);
      assert ([s[..i]] + later)[1..] == later;
      SessionStep(s);
    } else if s != [] {
      OneLine(s);
      hide SplitOn, ReadLine;
      SessionStep(s);
      SessionOfNothing();
    }
  }

  lemma SessionOfNothing()
    ensures Session([]) == [Success(None)]
  {
  }

  // ---- relaying lines ----

  /** A line that fits with its newline and does not end in a carriage return. */
  predicate SurvivesRelay(line: Bytes) {
    |line| <= MAX_REPL_LINE_BYTES + 1 && (line == [] || line[|line| - 1] != CARRIAGE_RETURN)
  }

  /** `InterruptibleInput` hands every line on with a newline, and it is read again. The second
      reading gives the same line exactly when it survives. */
  lemma {:induction false} RelayedIff(line: Bytes)
    requires Valid(line) && Plain(line, |line|)
    ensures ReadLine(line + [NEWLINE]) == (Success(Some(line)), []) <==> SurvivesRelay(line)
    ensures ReadLine(line + [NEWLINE]).1 == []
  {
    hide Utf8.Valid, IndexOf, LineLength, WithoutEnd;
    var s := line + [NEWLINE];
    IndexIs(s, |line|);
    assert s[..|s|] == s && s[|s|..] == [];
    WithoutNewline(line);
  }

  lemma WithoutNewline(line: Bytes)
    ensures WithoutEnd(line + [NEWLINE]) ==
            if line != [] && line[|line| - 1] == CARRIAGE_RETURN then line[..|line| - 1] else line
  {
    assert (line + [NEWLINE])[..|line|] == line;
  }

  /** What becomes of one result of the input thread: lines are read again, the rest is passed on. */
  function Relayed(r: LineResult): LineResult {
    if r.Success? && r.value.Some? then ReadLine(r.value.value + [NEWLINE]).0 else r
  }

  function RelayedAll(results: seq<LineResult>): seq<LineResult> {
    seq(|results|, i requires 0 <= i < |results| => Relayed(results[i]))
  }

  /** `InterruptibleInput` and its reader: each line fills the buffer with its newline, and is read from it. */
  method RelayAll(results: seq<LineResult>) returns (relayed: seq<LineResult>)
    ensures relayed == RelayedAll(results)
  {
    hide ReadLine;
    relayed := [];
    for i := 0 to |results|
      invariant relayed == RelayedAll(results)[..i]
    {
      var r := results[i];
      if r.Success? && r.value.Some? {
        var buffer := new BufReader(r.value.value + [NEWLINE], true);
        r := ReadBoundedLine(buffer);
      }
      relayed := relayed + [r];
    }
  }

  predicate IsLine(r: LineResult) {
    r.Success? && r.value.Some?
  }

  ghost predicate PlainLine(r: LineResult) {
    IsLine(r) ==> Valid(r.value.value) && Plain(r.value.value, |r.value.value|)
  }

  /** Lines have no newline in them. */
  lemma LinesArePlain(s: Bytes)
    ensures PlainLine(ReadLine(s).0)
  {
    if s != [] {
      IndexFacts(s);
      var n := LineLength(s);
      hide IndexOf, Utf8.Valid;
      var body := WithoutEnd(s[..n]);
      assert forall k | 0 <= k < |body| :: body[k] == s[k];
      assert n > 0 && s[n - 1] != NEWLINE ==> n == |s|;
      hide LineLength;
    }
  }

  lemma {:induction false} SessionIsPlain(s: Bytes)
    ensures forall i | 0 <= i < |Session(s)| :: PlainLine(Session(s)[i])
    decreases |s|
  {
    hide PlainLine, Stops, ReadLine;
    LinesArePlain(s);
    SessionStep(s);
    if !Stops(ReadLine(s).0) {
      SessionIsPlain(ReadLine(s).1);
    }
  }

  /** The two readers together: what the loop is given is what the input thread read, result for
      result, exactly when every line survives. */
  lemma {:induction false} RelayIff(s: Bytes)
    ensures RelayedAll(Session(s)) == Session(s) <==>
            forall i | 0 <= i < |Session(s)| && IsLine(Session(s)[i]) :: SurvivesRelay(Session(s)[i].value.value)
  {
    var results := Session(s);
    SessionIsPlain(s);
    hide Session, ReadLine, SurvivesRelay;
    forall i | 0 <= i < |results|
      ensures Relayed(results[i]) == results[i] <==> IsLine(results[i]) ==> SurvivesRelay(results[i].value.value)
    {
      if IsLine(results[i]) {
        RelayedIff(results[i].value.value);
      }
    }
    assert forall i | 0 <= i < |results| :: RelayedAll(results)[i] == Relayed(results[i]);
  }

  /** The lines of the input that do not survive: those that end in two carriage returns and a newline,
      and an unterminated last one that ends in a carriage return or has the greatest length. */
  lemma {:induction false} LostLines(line: Bytes)
    requires line != [] && |line| <= MAX_REPL_LINE_BYTES + 2
    ensures !SurvivesRelay(WithoutEnd(line)) <==>
      if line[|line| - 1] == NEWLINE then
        |line| >= 3 && line[|line| - 2] == CARRIAGE_RETURN && line[|line| - 3] == CARRIAGE_RETURN
      else line[|line| - 1] == CARRIAGE_RETURN || |line| == MAX_REPL_LINE_BYTES + 2
  {
  }

  /** `a`, two carriage returns and a newline: the input thread reads `a` and a carriage return, the loop `a`. */
  lemma ReturnIsLost()
    ensures
      var s: Bytes := [0x61, CARRIAGE_RETURN, CARRIAGE_RETURN, NEWLINE];
      && ReadLine(s) == (Success(Some([0x61, CARRIAGE_RETURN])), [])
      && Relayed(ReadLine(s).0) == Success(Some([0x61]))
  {
    var s: Bytes := [0x61, CARRIAGE_RETURN, CARRIAGE_RETURN, NEWLINE];
    var line: Bytes := [0x61, CARRIAGE_RETURN];
    hide IndexOf, LineLength, WithoutEnd;
    IndexIs(s, 3);
    assert s[..4] == line + [CARRIAGE_RETURN] + [NEWLINE] && s[4..] == [];
    WithoutNewline(line + [CARRIAGE_RETURN]);
    assert (line + [CARRIAGE_RETURN])[..2] == line;
    AsciiIsText(line);
    var t := line + [NEWLINE];
    IndexIs(t, 2);
    assert t[..3] == t && t[3..] == [];
    WithoutNewline(line);
    assert line[..1] == [0x61];
    AsciiIsText([0x61]);
  }

  /** The longest last line that the input thread reads is too large for the loop. */
  lemma LongLineIsLost()
    ensures
      var s: Bytes := seq(MAX_REPL_LINE_BYTES + 2, _ => 0x61);
      ReadLine(s) == (Success(Some(s)), []) && Relayed(ReadLine(s).0) == Failure(TooLarge)
  {
    var s: Bytes := seq(MAX_REPL_LINE_BYTES + 2, _ => 0x61);
    hide IndexOf, LineLength;
    IndexIs(s, |s|);
    assert s[..|s|] == s && s[|s|..] == [];
    AsciiIsText(s);
    var t := s + [NEWLINE];
    IndexIs(t, |s|);
    assert t[..|t|] == t;
  }

  // ---- entries of several lines ----

  const BYTE_ORDER_MARK: Bytes := [0xEF, 0xBB, 0xBF]

  function TrailingBackslashes(line: Bytes): nat {
    if line == [] || line[|line| - 1] != BACKSLASH then 0 else 1 + TrailingBackslashes(line[..|line| - 1])
  }

  /** `has_continuation` */
  predicate HasContinuation(line: Bytes) {
    TrailingBackslashes(line) % 2 == 1
  }

  function TotalSize(lines: seq<Bytes>): nat {
    if lines == [] then 0 else TotalSize(lines[..|lines| - 1]) + |lines[|lines| - 1]|
  }

  /** `joined_size` */
  function JoinedSize(lines: seq<Bytes>): nat {
    TotalSize(lines) + (if lines == [] then 0 else |lines| - 1)
  }

  /** `lines.join("\n")` */
  function Joined(lines: seq<Bytes>): Bytes {
    if lines == [] then []
    else if |lines| == 1 then lines[0]
    else Joined(lines[..|lines| - 1]) + [NEWLINE] + lines[|lines| - 1]
  }

  lemma {:induction false} JoinedSizeExact(lines: seq<Bytes>)
    ensures |Joined(lines)| == JoinedSize(lines)
  {
    if |lines| > 1 {
      JoinedSizeExact(lines[..|lines| - 1]);
    } else if |lines| == 1 {
      assert lines[..0] == [] && TotalSize(lines[..0]) == 0;
    }
  }

  ghost predicate AllText(lines: seq<Bytes>) {
    forall i | 0 <= i < |lines| :: Valid(lines[i])
  }

  lemma {:induction false} JoinedIsText(lines: seq<Bytes>)
    requires AllText(lines)
    ensures Valid(Joined(lines))
  {
    if |lines| > 1 {
      var n := |lines| - 1;
      JoinedIsText(lines[..n]);
      assert [NEWLINE][1..] == [];
      ValidConcat(Joined(lines[..n]), [NEWLINE]);
      ValidConcat(Joined(lines[..n]) + [NEWLINE], lines[n]);
    }
  }

  datatype ReplEntry = Empty | Goal(text: Bytes) | Command(line: Bytes) | Interrupted | EndOfInput

  /** White space trimming and command recognition. */
  datatype Syntax = Syntax(trim: Bytes -> Bytes, isCommand: Bytes -> bool)

  function WithoutMark(line: Bytes, first: bool): Bytes {
    if first && BYTE_ORDER_MARK <= line then line[3..] else line
  }

  datatype EntryResult = EntryResult(result: Result<ReplEntry, InputFailure>, rest: Bytes, first: bool)

  /** What a complete line does after the lines `before`. */
  function Complete(syntax: Syntax, before: seq<Bytes>, line: Bytes): Result<ReplEntry, InputFailure> {
    var trimmed := syntax.trim(line);
    if before == [] && trimmed == [] then Success(Empty)
    else if before == [] && trimmed[0] == 0x2F then
      if syntax.isCommand(trimmed) then Success(Command(trimmed)) else Failure(InvalidCommand)
    else if JoinedSize(before + [line]) > MAX_REPL_GOAL_BYTES then Failure(TooLarge)
    else Success(Goal(Joined(before + [line])))
  }

  /** Reading one entry from a whole stream, after the continued lines `before`. */
  function Entry(syntax: Syntax, s: Bytes, before: seq<Bytes>, first: bool): EntryResult
    decreases |s|
  {
    var (r, rest) := ReadLine(s);
    if r.Failure? then EntryResult(Failure(r.error), rest, first)
    else if r.value.None? then
      EntryResult(Success(if before == [] then EndOfInput else Goal(Joined(before))), rest, first)
    else if r.value.value == ETX then EntryResult(Success(Interrupted), rest, first)
    else
      var line := WithoutMark(r.value.value, first);
      if !HasContinuation(line) then EntryResult(Complete(syntax, before, line), rest, false)
      else
        var lines := before + [line[..|line| - 1]];
        if JoinedSize(lines) > MAX_REPL_GOAL_BYTES then EntryResult(Failure(TooLarge), rest, false)
        else Entry(syntax, rest, lines, false)
  }

  /** `read_entry`: the entry, and how much of the stream it takes, depend on the bytes alone. */
  method ReadEntry(syntax: Syntax, reader: BufReader, firstInputLine: bool)
    returns (r: Result<ReplEntry, InputFailure>, first: bool)
    requires reader.Valid() && reader.reliable
    modifies reader
    ensures reader.Valid()
    ensures EntryResult(r, reader.rest, first) == Entry(syntax, old(reader.rest), [], firstInputLine)
  {
    hide ReadLine, HasContinuation, JoinedSize, Joined;
    var lines: seq<Bytes> := [];
    first := firstInputLine;
    while true
      invariant reader.Valid()
      invariant Entry(syntax, reader.rest, lines, first) == Entry(syntax, old(reader.rest), [], firstInputLine)
      decreases |reader.rest|
    {
      ghost var input := reader.rest;
      var read := ReadBoundedLine(reader);
      LineIsShorter(input);
      if read.Failure? {
        return Failure(read.error), first;
      }
      if read.value.None? {
        return Success(if lines == [] then EndOfInput else Goal(Joined(lines))), first;
      }
      if read.value.value == ETX {
        return Success(Interrupted), first;
      }
      ghost var marked := WithoutMark(read.value.value, first);
      var line := read.value.value;
      if first {
        first := false;
        if BYTE_ORDER_MARK <= line {
          line := line[3..];
        }
      }
      assert line == marked;
      if !HasContinuation(line) {
        ghost var completed := Complete(syntax, lines, line);
        if lines == [] {
          var trimmed := syntax.trim(line);
          if trimmed == [] {
            return Success(Empty), first;
          }
          if trimmed[0] == 0x2F {
            return if syntax.isCommand(trimmed) then Success(Command(trimmed)) else Failure(InvalidCommand), first;
          }
        }
        lines := lines + [line];
        if JoinedSize(lines) > MAX_REPL_GOAL_BYTES {
          return Failure(TooLarge), first;
        }
        return Success(Goal(Joined(lines))), first;
      }
      ContinuedIsNotEmpty(line);
      lines := lines + [line[..|line| - 1]];
      if JoinedSize(lines) > MAX_REPL_GOAL_BYTES {
        return Failure(TooLarge), first;
      }
    }
  }

  lemma LineIsShorter(s: Bytes)
    ensures ReadLine(s).0 != Success(None) ==> |ReadLine(s).1| < |s|
  {
  }

  lemma ContinuedIsNotEmpty(line: Bytes)
    requires HasContinuation(line)
    ensures line != [] && line[|line| - 1] == BACKSLASH
  {
  }

  /** A goal is text of at most 16 KiB, whatever was typed. */
  lemma {:induction false} GoalFits(syntax: Syntax, s: Bytes, before: seq<Bytes>, first: bool)
    requires AllText(before) && JoinedSize(before) <= MAX_REPL_GOAL_BYTES
    ensures
      var r := Entry(syntax, s, before, first).result;
      r.Success? && r.value.Goal? ==> Valid(r.value.text) && |r.value.text| <= MAX_REPL_GOAL_BYTES
    decreases |s|
  {
    hide Utf8.Valid, ReadLine, HasContinuation, JoinedSize, Joined, WithoutMark;
    LineIsShorter(s);
    LineIsText(s);
    JoinedSizeExact(before);
    JoinedIsText(before);
    var (r, rest) := ReadLine(s);
    if r.Success? && r.value.Some? && r.value.value != ETX {
      var line := WithoutMark(r.value.value, first);
      MarklessIsText(r.value.value, first);
      if HasContinuation(line) {
        ContinuedIsNotEmpty(line);
        ContinuedIsText(line);
        var lines := before + [line[..|line| - 1]];
        if JoinedSize(lines) <= MAX_REPL_GOAL_BYTES {
          GoalFits(syntax, rest, lines, false);
        }
      } else {
        JoinedSizeExact(before + [line]);
        JoinedIsText(before + [line]);
      }
    }
  }

  // ---- from keystrokes to entries ----

  /** A line as typed: with a newline or with a carriage return and a newline, it reads as itself. */
  lemma {:induction false} LineThenRest(line: Bytes, rest: Bytes)
    requires Valid(line) && NEWLINE !in line && |line| <= MAX_REPL_LINE_BYTES
    ensures ReadLine(line + [CARRIAGE_RETURN, NEWLINE] + rest) == (Success(Some(line)), rest)
    ensures (line == [] || line[|line| - 1] != CARRIAGE_RETURN) ==>
      ReadLine(line + [NEWLINE] + rest) == (Success(Some(line)), rest)
  {
    hide Utf8.Valid, ReadLine;
    var returned := line + [CARRIAGE_RETURN];
    assert line + [CARRIAGE_RETURN, NEWLINE] + rest == returned + [NEWLINE] + rest;
    assert returned[..|line|] == line;
    FirstLine(line, rest);
    FirstLine(returned, rest);
    WithoutNewline(line);
    WithoutNewline(returned);
  }

  lemma FirstLine(line: Bytes, rest: Bytes)
    requires NEWLINE !in line && |line| <= MAX_REPL_LINE_BYTES + 1
    ensures
      var body := WithoutEnd(line + [NEWLINE]);
      ReadLine(line + [NEWLINE] + rest) == (if Valid(body) then Success(Some(body)) else Failure(Unavailable), rest)
  {
    hide Utf8.Valid, SplitOn, IndexOf, LineLength, WithoutEnd;
    var s := line + [NEWLINE] + rest;
    FirstOfMany(s, |line|);
    assert s[..|line|] == line && s[|line| + 1..] == rest;
  }

  function Backslashes(n: nat): Bytes {
    seq(n, _ => BACKSLASH)
  }

  /** A line is continued exactly when it ends in an odd number of backslashes. */
  lemma {:induction false} ContinuationIff(head: Bytes, n: nat)
    requires head == [] || head[|head| - 1] != BACKSLASH
    ensures TrailingBackslashes(head + Backslashes(n)) == n
    ensures HasContinuation(head + Backslashes(n)) <==> n % 2 == 1
  {
    if n > 0 {
      ContinuationIff(head, n - 1);
      var line := head + Backslashes(n);
      assert line[..|line| - 1] == head + Backslashes(n - 1);
    } else {
      assert head + Backslashes(0) == head;
    }
  }

  lemma ContinuedBy(line: Bytes)
    ensures HasContinuation(line + [BACKSLASH]) <==> !HasContinuation(line)
  {
    assert (line + [BACKSLASH])[..|line|] == line;
  }

  /** The lines of a goal as they are typed: a backslash continues every line but the last. */
  function Typed(lines: seq<Bytes>): Bytes
    requires lines != []
  {
    if |lines| == 1 then lines[0] + [NEWLINE] else lines[0] + [BACKSLASH, NEWLINE] + Typed(lines[1..])
  }

  /** A line of text that does not look continued. */
  ghost predicate Typeable(line: Bytes) {
    Valid(line) && NEWLINE !in line && !HasContinuation(line)
  }

  /** The last line does not end in a carriage return and is not the interrupt. */
  ghost predicate Ends(line: Bytes) {
    line != ETX && (line == [] || line[|line| - 1] != CARRIAGE_RETURN)
  }

  lemma {:induction false} SizeGrows(lines: seq<Bytes>, n: nat)
    requires n <= |lines|
    ensures TotalSize(lines[..n]) <= TotalSize(lines) && JoinedSize(lines[..n]) <= JoinedSize(lines)
    ensures forall i | 0 <= i < |lines| :: |lines[i]| <= TotalSize(lines)
    decreases |lines|
  {
    if lines != [] {
      var before := lines[..|lines| - 1];
      SizeGrows(before, if n < |lines| then n else 0);
      assert n < |lines| ==> before[..n] == lines[..n];
      assert n == |lines| ==> lines[..n] == lines;
    }
  }

  /** A line typed with a backslash is read, and the next one is waited for. */
  lemma ContinuedLine(syntax: Syntax, before: seq<Bytes>, line: Bytes, rest: Bytes, first: bool)
    requires Typeable(line) && JoinedSize(before + [line]) <= MAX_REPL_GOAL_BYTES && |line| < MAX_REPL_LINE_BYTES
    requires first ==> !(BYTE_ORDER_MARK <= line)
    ensures Entry(syntax, line + [BACKSLASH, NEWLINE] + rest, before, first) == Entry(syntax, rest, before + [line], false)
  {
    hide Utf8.Valid, ReadLine, HasContinuation, JoinedSize, Complete;
    var typed := line + [BACKSLASH];
    AsciiIsText([BACKSLASH]);
    ValidConcat(line, [BACKSLASH]);
    ContinuedBy(line);
    LineThenRest(typed, rest);
    assert line + [BACKSLASH, NEWLINE] + rest == typed + [NEWLINE] + rest;
    assert typed[..|typed| - 1] == line && typed != ETX;
    assert typed[|typed| - 1] == BACKSLASH;
    if BYTE_ORDER_MARK <= typed {
      assert typed[2] == 0xBF;
    }
  }

  /** The last line of a goal completes it. */
  lemma LastLine(syntax: Syntax, before: seq<Bytes>, line: Bytes, rest: Bytes, first: bool)
    requires Typeable(line) && Ends(line) && JoinedSize(before + [line]) <= MAX_REPL_GOAL_BYTES && |line| <= MAX_REPL_LINE_BYTES
    requires first ==> !(BYTE_ORDER_MARK <= line)
    requires before == [] ==> syntax.trim(line) != [] && syntax.trim(line)[0] != 0x2F
    ensures Entry(syntax, line + [NEWLINE] + rest, before, first) ==
            EntryResult(Success(Goal(Joined(before + [line]))), rest, false)
  {
    hide Utf8.Valid, ReadLine, HasContinuation, JoinedSize, Joined;
    LineThenRest(line, rest);
  }

  lemma FirstFits(before: seq<Bytes>, lines: seq<Bytes>)
    requires |lines| > 1
    ensures before + lines == (before + [lines[0]]) + lines[1..]
    ensures JoinedSize(before + [lines[0]]) <= JoinedSize(before + lines)
  {
    assert (before + lines)[..|before| + 1] == before + [lines[0]];
    SizeGrows(before + lines, |before| + 1);
  }

  lemma TypedStep(lines: seq<Bytes>, rest: Bytes)
    requires |lines| > 1
    ensures Typed(lines) + rest == lines[0] + [BACKSLASH, NEWLINE] + (Typed(lines[1..]) + rest)
  {
  }

  lemma TypedLast(line: Bytes)
    ensures Typed([line]) == line + [NEWLINE]
  {
  }

  /** What is typed is what is asked: lines continued by a backslash are read as the goal that joins them
      with newlines, and nothing after them is consumed. A goal of one line must not be empty or look like a
      command after trimming. */
  lemma {:induction false} TypedGoal(syntax: Syntax, before: seq<Bytes>, lines: seq<Bytes>, rest: Bytes, first: bool)
    requires lines != [] && (forall line | line in lines :: Typeable(line) && |line| < MAX_REPL_LINE_BYTES)
    requires Ends(lines[|lines| - 1]) && JoinedSize(before + lines) <= MAX_REPL_GOAL_BYTES
    requires first ==> !(BYTE_ORDER_MARK <= lines[0])
    requires before == [] && |lines| == 1 ==> syntax.trim(lines[0]) != [] && syntax.trim(lines[0])[0] != 0x2F
    ensures Entry(syntax, Typed(lines) + rest, before, first) ==
            EntryResult(Success(Goal(Joined(before + lines))), rest, false)
    decreases |lines|
  {
    hide Typeable, Ends, Entry, JoinedSize, Joined, Typed;
    var line := lines[0];
    assert line in lines;
    if |lines| == 1 {
      assert lines == [line];
      TypedLast(line);
      LastLine(syntax, before, line, rest, first);
    } else {
      var later := lines[1..];
      FirstFits(before, lines);
      TypedStep(lines, rest);
      ContinuedLine(syntax, before, line, Typed(later) + rest, first);
      TypedGoal(syntax, before + [line], later, rest, false);
    }
  }

  /** The goal has the lines it was typed with. */
  lemma {:induction false} JoinedSplits(lines: seq<Bytes>)
    requires lines != [] && forall line | line in lines :: NEWLINE !in line
    ensures SplitOn(NEWLINE, Joined(lines)) == lines
  {
    hide SplitOn;
    var n := |lines| - 1;
    if n > 0 {
      JoinedSplits(lines[..n]);
      SplitAtSeparator(NEWLINE, Joined(lines[..n]), lines[n]);
      assert lines == lines[..n] + [lines[n]];
    } else {
      assert lines == [lines[0]];
    }
    SplitPlain(NEWLINE, lines[n]);
  }

  /** A single line that is no goal: blank, the interrupt, or a command, known or not. */
  lemma {:induction false} TypedCommand(syntax: Syntax, line: Bytes, rest: Bytes)
    requires Typeable(line) && |line| <= MAX_REPL_LINE_BYTES && (line == [] || line[|line| - 1] != CARRIAGE_RETURN)
    ensures
      var r := Entry(syntax, line + [NEWLINE] + rest, [], false);
      var trimmed := syntax.trim(line);
      && r.rest == rest
      && (line == ETX <==> r.result == Success(Interrupted))
      && (line != ETX ==>
            && (r.result == Success(Empty) <==> trimmed == [])
            && (r.result == Success(Command(trimmed)) <==> [0x2F] <= trimmed && syntax.isCommand(trimmed))
            && (r.result == Failure(InvalidCommand) <==> [0x2F] <= trimmed && !syntax.isCommand(trimmed)))
  {
    hide Utf8.Valid, ReadLine, HasContinuation, JoinedSize, Joined;
    LineThenRest(line, rest);
  }

  /** A byte order mark is dropped from the first line of the input, and from no other. */
  lemma {:induction false} MarkIsDropped(syntax: Syntax, line: Bytes, rest: Bytes)
    requires Typeable(line) && |line| + 3 <= MAX_REPL_LINE_BYTES && Ends(line)
    ensures Entry(syntax, BYTE_ORDER_MARK + line + [NEWLINE] + rest, [], true) ==
            Entry(syntax, line + [NEWLINE] + rest, [], false)
  {
    hide Utf8.Valid, ReadLine, HasContinuation, JoinedSize, Joined, Complete;
    var marked := BYTE_ORDER_MARK + line;
    MarkIsText();
    ValidConcat(BYTE_ORDER_MARK, line);
    assert marked[3..] == line;
    LineThenRest(marked, rest);
    LineThenRest(line, rest);
  }

  lemma MarkIsText()
    ensures Utf8.Valid(BYTE_ORDER_MARK) && NEWLINE !in BYTE_ORDER_MARK
  {
    assert BYTE_ORDER_MARK[3..] == [];
  }

  lemma LineIsText(s: Bytes)
    ensures var r := ReadLine(s).0; r.Success? && r.value.Some? ==> Valid(r.value.value)
  {
  }

  lemma MarklessIsText(line: Bytes, first: bool)
    requires Valid(line)
    ensures Valid(WithoutMark(line, first))
  {
    if first && BYTE_ORDER_MARK <= line {
      assert line[0] == 0xEF && line[1] == 0xBB && line[2] == 0xBF;
      assert HeadLength(line) == 3;
    }
  }

  lemma ContinuedIsText(line: Bytes)
    requires Valid(line) && line != [] && line[|line| - 1] == BACKSLASH
    ensures Valid(line[..|line| - 1])
  {
    AfterAscii(line, |line| - 1);
    ValidSplit(line, |line| - 1);
  }

  // ---- the goal of a later turn ----

  const GOAL_PREFIX: string := "Current user goal:\n"
  const GOAL_CONTEXT: string := "\n\nPrevious durable result (untrusted context; revalidate before acting):\n"

  /** The longest beginning of a text that fits in `room` bytes and does not cut a character. */
  function CutTo(text: Bytes, room: nat): Bytes {
    text[..BackTo(text, if |text| <= room then |text| else room, 0)]
  }

  /** `compose_session_goal`: the goal is always whole, the summary is cut to what fits, and the
      result stays within the bound when the goal does. */
  method ComposeSessionGoal(goal: Bytes, previousSummary: Option<Bytes>) returns (r: Bytes)
    requires Valid(goal) && (previousSummary.Some? ==> Valid(previousSummary.value))
    ensures Valid(r) && |r| <= (if |goal| > MAX_REPL_GOAL_BYTES then |goal| else MAX_REPL_GOAL_BYTES)
    ensures
      var fixed := |GOAL_PREFIX| + |goal| + |GOAL_CONTEXT|;
      if previousSummary.None? || fixed >= MAX_REPL_GOAL_BYTES then r == goal
      else r == Ascii(GOAL_PREFIX) + goal + Ascii(GOAL_CONTEXT) + CutTo(previousSummary.value, MAX_REPL_GOAL_BYTES - fixed)
  {
    hide Utf8.Valid, CutTo;
    if previousSummary.None? {
      return goal;
    }
    var summary := previousSummary.value;
    var fixed := |GOAL_PREFIX| + |goal| + |GOAL_CONTEXT|;
    if fixed >= MAX_REPL_GOAL_BYTES {
      return goal;
    }
    var available := MAX_REPL_GOAL_BYTES - fixed;
    var end := WalkBack(summary, if |summary| <= available then |summary| else available, 0);
    CutIsText(summary, available);
    FixedIsText();
    r := Ascii(GOAL_PREFIX) + goal + Ascii(GOAL_CONTEXT) + summary[..end];
    ValidConcat(Ascii(GOAL_PREFIX), goal);
    ValidConcat(Ascii(GOAL_PREFIX) + goal, Ascii(GOAL_CONTEXT));
    ValidConcat(Ascii(GOAL_PREFIX) + goal + Ascii(GOAL_CONTEXT), summary[..end]);
  }

  lemma CutIsText(text: Bytes, room: nat)
    requires Valid(text)
    ensures Valid(CutTo(text, room)) && |CutTo(text, room)| <= room
    ensures CutTo(text, room) == text[..BackTo(text, if |text| <= room then |text| else room, 0)]
    ensures |text| > room ==> room < |CutTo(text, room)| + 4
  {
    var limit := if |text| <= room then |text| else room;
    ValidSplit(text, BackTo(text, limit, 0));
    BoundaryNearby(text, limit);
  }

  lemma {:induction false} AsciiIsText(s: Bytes)
    requires forall i | 0 <= i < |s| :: s[i] < 0x80
    ensures Valid(s)
  {
    if s != [] {
      AsciiIsText(s[1..]);
    }
  }

  lemma FixedIsText()
    ensures Valid(Ascii(GOAL_PREFIX)) && Valid(Ascii(GOAL_CONTEXT))
  {
    AsciiIsText(Ascii(GOAL_PREFIX));
    AsciiIsText(Ascii(GOAL_CONTEXT));
  }
}
