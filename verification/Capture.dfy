/** Running a process and capturing its output: execution.rs and the output check of verifier.rs. */
module Capture {
  import opened Wrappers
  import opened Utf8
  import opened Json
  import opened QueryOutput

  const MIN_CAPTURE_BYTES: nat := 1024
  const MAX_CAPTURE_BYTES: nat := 32 * 1024
  const MIN_PROCESS_TIMEOUT_MS: nat := 100
  const MAX_PROCESS_TIMEOUT_MS: nat := 600_000
  const MAX_RESULT_DURATION_MS: nat := 660_000
  const BUFFER_BYTES: nat := 8 * 1024
  const NANOS_PER_MS: nat := 1_000_000
  const POLL_INTERVAL: nat := 10 * NANOS_PER_MS

  // ---- streams ----

  /** A pipe: `rest` is what the other end will still deliver before it closes. */
  class Pipe {
    var rest: Bytes

    constructor (stream: Bytes)
      ensures rest == stream
    {
      rest := stream;
    }

    /** `Read::read` hands out any non-empty piece that fits, nothing at the end, or an error. */
    method Read(capacity: nat) returns (r: Result<Bytes, ()>)
      requires capacity > 0
      modifies this
      ensures r.Failure? ==> rest == old(rest)
      ensures r.Success? ==>
        |r.value| <= capacity && r.value + rest == old(rest) && (r.value == [] <==> old(rest) == [])
    {
      var fails: bool := *;
      if fails {
        return Failure(());
      }
      if rest == [] {
        return Success([]);
      }
      var count :| 0 < count <= |rest| && count <= capacity;
      r := Success(rest[..count]);
      rest := rest[count..];
    }
  }

  datatype CapturedStream = CapturedStream(content: Bytes, truncated: bool)

  /** The longest beginning of a text that fits and does not cut a character. */
  function Fit(text: Bytes, maximum: nat): Bytes {
    if |text| <= maximum then text else text[..BackTo(text, maximum, 0)]
  }

  function Prefix(s: Bytes, n: nat): Bytes {
    if |s| <= n then s else s[..n]
  }

  /** What is captured of a whole stream. */
  function Captured(stream: Bytes, maximum: nat): CapturedStream {
    var text := Lossy(Prefix(stream, maximum));
    CapturedStream(Fit(text, maximum), |stream| > maximum || |text| > maximum)
  }

  lemma FitIsText(text: Bytes, maximum: nat)
    requires Valid(text)
    ensures Valid(Fit(text, maximum)) && |Fit(text, maximum)| <= maximum && Fit(text, maximum) <= text
    ensures |text| > maximum ==> maximum < |Fit(text, maximum)| + 4
  {
    if |text| > maximum {
      var end := BackTo(text, maximum, 0);
      assert IsBoundary(text, 0);
      ValidSplit(text, end);
      BoundaryNearby(text, maximum);
    }
  }

  /** A capture is text within the limit; it is complete exactly when it is not marked truncated. */
  lemma {:induction false} CaptureIsText(stream: Bytes, maximum: nat)
    ensures var c := Captured(stream, maximum); Valid(c.content) && |c.content| <= maximum
    ensures !Captured(stream, maximum).truncated <==> |stream| <= maximum && |Lossy(stream)| <= maximum
    ensures !Captured(stream, maximum).truncated ==> Captured(stream, maximum).content == Lossy(stream)
    ensures Valid(stream) && |stream| <= maximum ==> Captured(stream, maximum) == CapturedStream(stream, false)
    ensures Captured(stream, maximum).content <= Lossy(Prefix(stream, maximum))
  {
    LossyIsValid(Prefix(stream, maximum));
    FitIsText(Lossy(Prefix(stream, maximum)), maximum);
  }

  /** `capture_reader`: however the stream is cut into pieces, the result is that of the whole. */
  method CaptureReader(reader: Pipe, maximum: nat) returns (r: Result<CapturedStream, ()>)
    modifies reader
    ensures r.Success? ==> r.value == Captured(old(reader.rest), maximum) && reader.rest == []
  {
    var retained: Bytes := [];
    var truncated := false;
    ghost var stream: Bytes, consumed: nat := reader.rest, 0;
    while true
      invariant consumed <= |stream| && reader.rest == stream[consumed..]
      invariant retained == Prefix(stream[..consumed], maximum)
      invariant truncated <==> consumed > maximum
      decreases |reader.rest|
    {
      var piece :- reader.Read(BUFFER_BYTES);
      var count := |piece|;
      if count == 0 {
        break;
      }
      PieceTaken(stream, consumed, piece, reader.rest);
      var available := if |retained| <= maximum then maximum - |retained| else 0;
      var keep := if available <= count then available else count;
      PieceKept(stream, consumed, piece, maximum, keep);
      retained := retained + piece[..keep];
      truncated := truncated || keep < count;
      consumed := consumed + count;
    }
    assert stream[..consumed] == stream;
    var content := Lossy(retained);
    LossyIsValid(retained);
    if |content| > maximum {
      var end := WalkBack(content, maximum, 0);
      content := content[..end];
      truncated := true;
    }
    return Success(CapturedStream(content, truncated));
  }

  lemma PieceTaken(stream: Bytes, consumed: nat, piece: Bytes, rest: Bytes)
    requires consumed <= |stream| && piece + rest == stream[consumed..]
    ensures consumed + |piece| <= |stream| && rest == stream[consumed + |piece|..]
    ensures piece == stream[consumed..consumed + |piece|]
  {
    assert rest == (piece + rest)[|piece|..] && piece == (piece + rest)[..|piece|];
  }

  lemma PieceKept(stream: Bytes, consumed: nat, piece: Bytes, maximum: nat, keep: nat)
    requires consumed + |piece| <= |stream| && piece == stream[consumed..consumed + |piece|]
    requires
      var available := if consumed <= maximum then maximum - consumed else 0;
      keep == if available <= |piece| then available else |piece|
    ensures Prefix(stream[..consumed], maximum) + piece[..keep] == Prefix(stream[..consumed + |piece|], maximum)
    ensures consumed + |piece| > maximum <==> consumed > maximum || keep < |piece|
  {
  }

  // ---- the output and its check ----

  /** `ExitStatus`: a code unless a signal ended the process, and success means code 0. */
  datatype ExitStatus = ExitStatus(success: bool, code: Option<int>)

  ghost predicate StatusOk(status: ExitStatus) {
    && (status.success <==> status.code == Some(0))
    && (status.code.Some? ==> IsI32(status.code.value))
  }

  predicate IsI32(n: int) {
    -0x8000_0000 <= n < 0x8000_0000
  }

  function ExitCode(code: Option<int>): Value {
    if code.Some? then Number(code.value) else Null
  }

  function Output(outcome: Bytes, success: bool, code: Option<int>, stdout: CapturedStream, stderr: CapturedStream, duration: nat): (v: Value)
    ensures v.Object?
  {
    Object(FieldsOf(OutputKeys(), OutputValues(outcome, success, code, stdout, stderr, duration)))
  }

  function OutputValues(
    outcome: Bytes, success: bool, code: Option<int>, stdout: CapturedStream, stderr: CapturedStream, duration: nat)
    : (v: seq<Value>)
    ensures |v| == |OutputKeys()|
  {
    [Text(outcome), Bool(success), ExitCode(code), Text(stdout.content), Text(stderr.content),
     Bool(stdout.truncated), Bool(stderr.truncated), Number(duration)]
  }

  function GetBool(fields: map<Bytes, Value>, key: string): Option<bool> {
    match Get(fields, key)
    case Some(Bool(b)) => Some(b)
    case _ => None
  }

  /** The exit code of an output: absent, null, or a 32-bit integer. */
  function GetCode(fields: map<Bytes, Value>): Option<Option<int>> {
    match Get(fields, "exitCode")
    case Some(Null) => Some(None)
    case Some(Number(n)) => if IsI32(n) then Some(Some(n)) else None
    case _ => None
  }

  predicate StreamFits(fields: map<Bytes, Value>, key: string) {
    GetText(fields, key).Some? && |GetText(fields, key).value| <= MAX_CAPTURE_BYTES
  }

  /** Exited processes report success for code 0 alone; the others have no code and no success. */
  predicate OutcomeOk(outcome: Bytes, success: bool, code: Option<int>) {
    || (outcome == Ascii("exited") && (success <==> code == Some(0)))
    || ((outcome == Ascii("timed_out") || outcome == Ascii("launch_failed")) && !success && code.None?)
  }

  /** What `inspect_output` accepts, apart from the digest. */
  predicate WellShaped(v: Value) {
    && v.Object? && |v.fields| == 8
    && GetText(v.fields, "outcome").Some? && GetBool(v.fields, "success").Some? && GetCode(v.fields).Some?
    && StreamFits(v.fields, "stdout") && StreamFits(v.fields, "stderr")
    && GetBool(v.fields, "stdoutTruncated").Some? && GetBool(v.fields, "stderrTruncated").Some?
    && GetUnsigned(v.fields, "durationMs").Some? && GetUnsigned(v.fields, "durationMs").value <= MAX_RESULT_DURATION_MS
    && OutcomeOk(GetText(v.fields, "outcome").value, GetBool(v.fields, "success").value, GetCode(v.fields).value)
  }

  /** `inspect_output`: digest and size of what it accepts. */
  method InspectProcessOutput(e: Encoder, output: Value, expected: Option<Bytes>) returns (r: Option<(Bytes, nat)>)
    requires Lawful(e)
    ensures r.Some? <==> WellShaped(output) && (expected.Some? ==> expected.value == e.digest(output))
    ensures r.Some? ==> r.value == (e.digest(output), Size(output))
  {
    hide Size, Get, GetText, Ascii;
    if !output.Object? || |output.fields| != 8 {
      return None;
    }
    var outcome, success := GetText(output.fields, "outcome"), GetBool(output.fields, "success");
    var code := GetCode(output.fields);
    if outcome.None? || success.None? || code.None? {
      return None;
    }
    var keys := ["stdout", "stderr"];
    for i := 0 to 2
      invariant i > 0 ==> StreamFits(output.fields, "stdout")
      invariant i > 1 ==> StreamFits(output.fields, "stderr")
    {
      if !StreamFits(output.fields, keys[i]) {
        return None;
      }
    }
    if GetBool(output.fields, "stdoutTruncated").None? || GetBool(output.fields, "stderrTruncated").None? {
      return None;
    }
    var duration := GetUnsigned(output.fields, "durationMs");
    if duration.None? || duration.value > MAX_RESULT_DURATION_MS {
      return None;
    }
    if !OutcomeOk(outcome.value, success.value, code.value) {
      return None;
    }
    var digest := e.digest(output);
    if expected.Some? && expected.value != digest {
      return None;
    }
    return Some((digest, e.size(output)));
  }

  /** Different keys make as many fields, each with its value. */
  function FieldsOf(k: seq<Bytes>, v: seq<Value>): map<Bytes, Value>
    requires |k| == |v|
  {
    if k == [] then map[] else FieldsOf(k[1..], v[1..])[k[0] := v[0]]
  }

  lemma {:induction false} FieldsOfKeys(k: seq<Bytes>, v: seq<Value>)
    requires |k| == |v|
    ensures forall key :: key in FieldsOf(k, v) <==> key in k
  {
    if k != [] {
      FieldsOfKeys(k[1..], v[1..]);
      assert k == [k[0]] + k[1..];
    }
  }

  lemma {:induction false} FieldsOfExact(k: seq<Bytes>, v: seq<Value>)
    requires |k| == |v| && forall i, j | 0 <= i < j < |k| :: k[i] != k[j]
    ensures |FieldsOf(k, v)| == |k| && forall i | 0 <= i < |k| :: k[i] in FieldsOf(k, v) && FieldsOf(k, v)[k[i]] == v[i]
  {
    if k != [] {
      var rest := FieldsOf(k[1..], v[1..]);
      FieldsOfExact(k[1..], v[1..]);
      FieldsOfKeys(k[1..], v[1..]);
      assert k[0] !in rest;
      hide FieldsOf;
      var fields := rest[k[0] := v[0]];
      assert fields.Keys == rest.Keys + {k[0]} && |fields| == |fields.Keys| && |rest| == |rest.Keys|;
      forall i | 0 < i < |k|
        ensures k[i] in fields && fields[k[i]] == v[i]
      {
        assert k[i] == k[1..][i - 1] && v[i] == v[1..][i - 1];
      }
      FieldsOfStep(k, v);
    }
  }

  lemma FieldsOfStep(k: seq<Bytes>, v: seq<Value>)
    requires |k| == |v| && k != []
    ensures FieldsOf(k, v) == FieldsOf(k[1..], v[1..])[k[0] := v[0]]
  {
  }

  function OutputKeys(): seq<Bytes> {
    [Ascii("outcome"), Ascii("success"), Ascii("exitCode"), Ascii("stdout"), Ascii("stderr"),
     Ascii("stdoutTruncated"), Ascii("stderrTruncated"), Ascii("durationMs")]
  }

  lemma OutputKeysDiffer()
    ensures forall i, j | 0 <= i < j < 8 :: OutputKeys()[i] != OutputKeys()[j]
  {
    var k := OutputKeys();
    assert k[0][0] == 'o' as int && k[1][0] == 's' as int;
    assert k[3][3] == 'o' as int && k[4][3] == 'e' as int;
    assert k[5][3] == 'o' as int && k[6][3] == 'e' as int;
    var lengths := [7, 7, 8, 6, 6, 15, 15, 10];
    assert forall i | 0 <= i < 8 :: |k[i]| == lengths[i];
  }

  lemma OutputFields(outcome: Bytes, success: bool, code: Option<int>, stdout: CapturedStream, stderr: CapturedStream, duration: nat)
    ensures
      var fields := Output(outcome, success, code, stdout, stderr, duration).fields;
      && |fields| == 8
      && GetText(fields, "outcome") == Some(outcome) && GetBool(fields, "success") == Some(success)
      && Get(fields, "exitCode") == Some(ExitCode(code))
      && GetText(fields, "stdout") == Some(stdout.content) && GetText(fields, "stderr") == Some(stderr.content)
      && GetBool(fields, "stdoutTruncated") == Some(stdout.truncated)
      && GetBool(fields, "stderrTruncated") == Some(stderr.truncated)
      && Get(fields, "durationMs") == Some(Number(duration))
  {
    OutputKeysDiffer();
    hide Ascii, ExitCode, FieldsOf;
    var k := OutputKeys();
    var v := OutputValues(outcome, success, code, stdout, stderr, duration);
    FieldsOfExact(k, v);
    var fields := Output(outcome, success, code, stdout, stderr, duration).fields;
    assert fields[k[0]] == v[0] && fields[k[1]] == v[1] && fields[k[2]] == v[2] && fields[k[3]] == v[3];
    assert fields[k[4]] == v[4] && fields[k[5]] == v[5] && fields[k[6]] == v[6] && fields[k[7]] == v[7];
  }

  /** A process that exited, with success for code 0 alone, or one that did not, with neither. */
  ghost predicate Coherent(outcome: string, success: bool, code: Option<int>) {
    match outcome
    case "exited" =>
      if success then code == Some(0) else code != Some(0) && (code.Some? ==> -2147483648 <= code.value <= 2147483647)
    case "timed_out" => !success && code == None
    case "launch_failed" => !success && code == None
    case _ => false
  }

  lemma CoherentIff(outcome: string, success: bool, code: Option<int>)
    requires outcome in {"exited", "timed_out", "launch_failed"}
    ensures Coherent(outcome, success, code) <==> OutcomeOk(Ascii(outcome), success, code) && (code.Some? ==> IsI32(code.value))
  {
    assert |"exited"| == 6 && |"timed_out"| == 9 && |"launch_failed"| == 13;
    assert |Ascii("exited")| == 6 && |Ascii("timed_out")| == 9 && |Ascii("launch_failed")| == 13;
  }

  /** The check accepts exactly the outputs that can be built: eight members and no others, a coherent
      outcome, captures of at most 32 KiB and a bounded duration. */
  ghost predicate IsOutput(v: Value) {
    exists outcome: string, success, code, stdout, stderr, duration: nat ::
      && v == Output(Ascii(outcome), success, code, stdout, stderr, duration) && Coherent(outcome, success, code)
      && |stdout.content| <= 32768 && |stderr.content| <= 32768 && duration <= 660000
  }

  lemma {:induction false} ShapedIff(v: Value)
    ensures WellShaped(v) <==> IsOutput(v)
  {
    hide WellShaped, Output, Coherent, Ascii;
    if WellShaped(v) {
      var outcome, success, code, stdout, stderr, duration := Built(v);
    }
    if IsOutput(v) {
      var outcome: string, success, code, stdout, stderr, duration: nat :|
        && v == Output(Ascii(outcome), success, code, stdout, stderr, duration) && Coherent(outcome, success, code)
        && |stdout.content| <= 32768 && |stderr.content| <= 32768 && duration <= 660000;
      BuiltIsShaped(outcome, success, code, stdout, stderr, duration);
    }
  }

  lemma BuiltIsShaped(
    outcome: string, success: bool, code: Option<int>, stdout: CapturedStream, stderr: CapturedStream, duration: nat)
    requires Coherent(outcome, success, code)
    requires |stdout.content| <= 32768 && |stderr.content| <= 32768 && duration <= 660000
    ensures WellShaped(Output(Ascii(outcome), success, code, stdout, stderr, duration))
  {
    OutcomeIsKnown(outcome, success, code);
    CoherentIff(outcome, success, code);
    hide Ascii, OutcomeOk, Coherent, Get, IsI32, FieldsOf;
    OutputFields(Ascii(outcome), success, code, stdout, stderr, duration);
    hide Output;
  }

  lemma OutcomeIsKnown(outcome: string, success: bool, code: Option<int>)
    requires Coherent(outcome, success, code)
    ensures outcome in {"exited", "timed_out", "launch_failed"}
  {
  }

  lemma Named(text: Bytes, success: bool, code: Option<int>) returns (outcome: string)
    requires OutcomeOk(text, success, code)
    ensures text == Ascii(outcome) && outcome in {"exited", "timed_out", "launch_failed"}
  {
    outcome := if text == Ascii("exited") then "exited" else if text == Ascii("timed_out") then "timed_out" else "launch_failed";
  }

  lemma Built(v: Value)
    returns (outcome: string, success: bool, code: Option<int>, stdout: CapturedStream, stderr: CapturedStream, duration: nat)
    requires WellShaped(v)
    ensures v == Output(Ascii(outcome), success, code, stdout, stderr, duration) && Coherent(outcome, success, code)
    ensures |stdout.content| <= 32768 && |stderr.content| <= 32768 && duration <= 660000
  {
    var f := v.fields;
    outcome := Named(GetText(f, "outcome").value, GetBool(f, "success").value, GetCode(f).value);
    hide Ascii, OutcomeOk, Coherent, FieldsOf;
    success, code, duration := GetBool(f, "success").value, GetCode(f).value, GetUnsigned(f, "durationMs").value;
    stdout := CapturedStream(GetText(f, "stdout").value, GetBool(f, "stdoutTruncated").value);
    stderr := CapturedStream(GetText(f, "stderr").value, GetBool(f, "stderrTruncated").value);
    CoherentIff(outcome, success, code);
    OutputFields(Ascii(outcome), success, code, stdout, stderr, duration);
    hide Output, Get, IsI32;
    AllEight(f, Output(Ascii(outcome), success, code, stdout, stderr, duration).fields);
  }

  ghost predicate Alike(f: map<Bytes, Value>, g: map<Bytes, Value>, key: string) {
    Get(f, key).Some? && Get(f, key) == Get(g, key)
  }

  lemma AllEight(f: map<Bytes, Value>, g: map<Bytes, Value>)
    requires |f| == 8 == |g| && Alike(f, g, "outcome") && Alike(f, g, "success") && Alike(f, g, "exitCode")
    requires Alike(f, g, "stdout") && Alike(f, g, "stderr") && Alike(f, g, "stdoutTruncated")
    requires Alike(f, g, "stderrTruncated") && Alike(f, g, "durationMs")
    ensures f == g
  {
    OutputKeysDiffer();
    hide Ascii;
    SameFields(f, g, OutputKeys());
  }

  /** `build_output`: the check it runs on its own output passes exactly when the outcome is coherent. */
  method BuildOutput(
    e: Encoder, outcome: Bytes, success: bool, code: Option<int>, stdout: CapturedStream, stderr: CapturedStream, duration: nat)
    returns (r: Result<Value, UnknownReason>)
    requires Lawful(e) && (code.Some? ==> IsI32(code.value))
    ensures r.Success? <==>
      && |stdout.content| <= MAX_CAPTURE_BYTES && |stderr.content| <= MAX_CAPTURE_BYTES
      && duration <= MAX_RESULT_DURATION_MS && OutcomeOk(outcome, success, code)
    ensures r.Success? ==>
      r.value == Output(outcome, success, code, stdout, stderr, duration) && WellShaped(r.value)
    ensures r.Failure? ==> r.error.ResponseUnverifiable?
  {
    hide Get, GetText, Ascii, OutcomeOk, Size;
    OutputFields(outcome, success, code, stdout, stderr, duration);
    var output := Output(outcome, success, code, stdout, stderr, duration);
    var inspected := InspectProcessOutput(e, output, None);
    if inspected.None? {
      return Failure(ResponseUnverifiable);
    }
    return Success(output);
  }

  datatype UnknownReason = AdapterTerminated | TransportOutcomeUnknown | ResponseUnverifiable

  // ---- the process ----

  /** A clock in nanoseconds that never goes back. */
  class Clock {
    var now: nat

    constructor ()
      ensures now == 0
    {
      now := 0;
    }

    method Elapsed() returns (t: nat)
      modifies this
      ensures old(now) <= now == t
    {
      var later: nat :| later >= now;
      now := later;
      t := now;
    }

    method Sleep(duration: nat)
      modifies this
      ensures now >= old(now) + duration
    {
      var later: nat :| later >= now + duration;
      now := later;
    }
  }

  datatype ChildCall = Polled(answer: Poll) | Killed(ok: bool)
  datatype Poll = Ended(status: ExitStatus) | StillRunning | PollFailed

  /** A child process, as far as the loop sees it: any answer, except that exit statuses are coherent. */
  class Child {
    var killed: bool
    ghost var calls: seq<ChildCall>

    constructor ()
      ensures !killed && calls == []
    {
      killed, calls := false, [];
    }

    method TryWait() returns (p: Poll)
      modifies this`calls
      ensures p.Ended? ==> StatusOk(p.status)
      ensures calls == old(calls) + [Polled(p)]
    {
      var code: int :| IsI32(code);
      var which: nat :| which < 4;
      p := match which
        case 0 => StillRunning
        case 1 => PollFailed
        case 2 => Ended(ExitStatus(false, None))
        case _ => Ended(ExitStatus(code == 0, Some(code)));
      calls := calls + [Polled(p)];
    }

    /** `terminate_process_tree` */
    method Terminate() returns (ok: bool)
      modifies this
      ensures ok ==> killed
      ensures calls == old(calls) + [Killed(ok)]
    {
      ok := *;
      killed, calls := killed || ok, calls + [Killed(ok)];
    }
  }

  datatype Termination = Exited(status: ExitStatus) | TimedOut

  function Least(a: nat, b: nat): nat {
    if a <= b then a else b
  }

  ghost predicate AllRunning(calls: seq<ChildCall>) {
    forall c | c in calls :: c == Polled(StillRunning)
  }

  /** How the waiting ends: with the status that a poll gives, or a poll that fails, and then a kill; after
      the time with a kill that succeeds, or one that fails and a last poll. */
  ghost predicate Ends(tail: seq<ChildCall>, r: Result<Termination, UnknownReason>) {
    || (|tail| == 2 && tail[0].Polled? && tail[0].answer.Ended? && tail[1].Killed?
        && r == Success(Exited(tail[0].answer.status)))
    || (|tail| == 2 && tail[0] == Polled(PollFailed) && tail[1].Killed? && r == Failure(TransportOutcomeUnknown))
    || (tail == [Polled(StillRunning), Killed(true)] && r == Success(TimedOut))
    || (|tail| == 3 && tail[..2] == [Polled(StillRunning), Killed(false)] && tail[2].Polled?
        && r == if tail[2].answer.Ended? then Success(Exited(tail[2].answer.status)) else Failure(TransportOutcomeUnknown))
  }

  /** The child was running at every poll but those at the end, which explain the result. */
  ghost predicate Explains(calls: seq<ChildCall>, r: Result<Termination, UnknownReason>) {
    exists running, tail :: calls == running + tail && AllRunning(running) && Ends(tail, r)
  }

  lemma ExplainedBy(calls: seq<ChildCall>, running: seq<ChildCall>, tail: seq<ChildCall>, r: Result<Termination, UnknownReason>)
    requires calls == running + tail && AllRunning(running) && Ends(tail, r)
    ensures Explains(calls, r)
  {
  }

  /** The waiting loop of `run_process`: it ends, reports the status the child gave, a time-out only after
      the time and a successful kill, and polls at most once every ten milliseconds of the timeout. */
  method AwaitTermination(child: Child, clock: Clock, timeout: nat)
    returns (r: Result<Termination, UnknownReason>)
    requires clock.now == 0 && child.calls == []
    modifies child, clock
    ensures r.Success? && r.value.Exited? ==> StatusOk(r.value.status)
    ensures r.Success? && r.value.TimedOut? ==> clock.now >= timeout && child.killed
    ensures Explains(child.calls, r) && |child.calls| <= timeout / POLL_INTERVAL + 4
  {
    ghost var polls := 0;
    while true
      invariant AllRunning(child.calls) && |child.calls| == polls
      invariant clock.now < timeout ==> polls * POLL_INTERVAL <= clock.now
      invariant clock.now >= timeout ==> polls <= timeout / POLL_INTERVAL + 1
      decreases if clock.now <= timeout then timeout - clock.now else 0, if clock.now < timeout then 1 else 0
    {
      PollsSoFar(polls, clock.now, timeout);
      polls := polls + 1;
      ghost var running := child.calls;
      var poll := child.TryWait();
      match poll {
        case Ended(status) =>
          var killed := child.Terminate();
          ExplainedBy(child.calls, running, [Polled(poll), Killed(killed)], Success(Exited(status)));
          return Success(Exited(status));
        case StillRunning =>
          ghost var before := clock.now;
          var elapsed := clock.Elapsed();
          if elapsed >= timeout {
            var ok := child.Terminate();
            if ok {
              ExplainedBy(child.calls, running, [Polled(poll), Killed(ok)], Success(TimedOut));
              return Success(TimedOut);
            }
            var again := child.TryWait();
            ghost var tail := [Polled(poll), Killed(ok), Polled(again)];
            assert tail[..2] == [Polled(poll), Killed(ok)];
            if again.Ended? {
              ExplainedBy(child.calls, running, tail, Success(Exited(again.status)));
              return Success(Exited(again.status));
            }
            ExplainedBy(child.calls, running, tail, Failure(TransportOutcomeUnknown));
            return Failure(TransportOutcomeUnknown);
          }
          elapsed := clock.Elapsed();
          var remaining := if elapsed <= timeout then timeout - elapsed else 0;
          clock.Sleep(Least(POLL_INTERVAL, remaining));
        case PollFailed =>
          var killed := child.Terminate();
          ExplainedBy(child.calls, running, [Polled(poll), Killed(killed)], Failure(TransportOutcomeUnknown));
          return Failure(TransportOutcomeUnknown);
      }
    }
  }

  lemma PollsSoFar(polls: nat, now: nat, timeout: nat)
    requires now < timeout ==> polls * POLL_INTERVAL <= now
    requires now >= timeout ==> polls <= timeout / POLL_INTERVAL + 1
    ensures polls <= timeout / POLL_INTERVAL + 1
  {
  }

  /** `elapsed_ms` */
  function ElapsedMs(elapsed: nat): (r: nat)
    ensures r <= 660000 && (r < 660000 ==> r * 1000000 <= elapsed < (r + 1) * 1000000)
    ensures r == 660000 ==> elapsed >= 660000000000
  {
    Least(elapsed / NANOS_PER_MS, MAX_RESULT_DURATION_MS)
  }

  /** What is reported for the end of a process. */
  function OutputOf(t: Termination, stdout: CapturedStream, stderr: CapturedStream, duration: nat): Value {
    match t
    case Exited(status) => Output(Ascii("exited"), status.success, status.code, stdout, stderr, duration)
    case TimedOut => Output(Ascii("timed_out"), false, None, stdout, stderr, duration)
  }

  const NOTHING := CapturedStream([], false)

  /** `run_process` from the spawn on. `delivered` says whether a reader thread reported in time.
      Every output that is returned passes the check and holds the captures of the whole streams, and
      `ResponseUnverifiable` only ever means that a capture is missing. */
  method RunProcess(
    e: Encoder, spawned: bool, piped: bool, child: Child, clock: Clock, stdout: Pipe, stderr: Pipe,
    maximum: nat, timeout: nat, delivered: bool)
    returns (r: Result<Value, UnknownReason>, ghost captured: bool, ghost termination: Termination)
    requires Lawful(e) && maximum <= MAX_CAPTURE_BYTES && clock.now == 0 && child.calls == [] && stdout != stderr
    modifies child, clock, stdout, stderr
    ensures r.Success? ==> WellShaped(r.value)
    ensures r.Success? && spawned ==>
      && Explains(child.calls, Success(termination))
      && r.value == OutputOf(termination, Captured(old(stdout.rest), maximum), Captured(old(stderr.rest), maximum),
                             ElapsedMs(clock.now))
    ensures r.Success? && spawned && termination.TimedOut? ==> clock.now >= timeout && child.killed
    ensures !spawned ==>
      r == Success(Output(Ascii("launch_failed"), false, None, NOTHING, NOTHING, ElapsedMs(clock.now)))
    ensures spawned && !piped ==> r == Failure(AdapterTerminated)
    ensures r.Failure? && r.error.TransportOutcomeUnknown? ==> spawned && piped && Explains(child.calls, Failure(r.error))
    ensures r.Failure? && r.error.ResponseUnverifiable? ==> !captured
  {
    hide Captured, Output, WellShaped, Explains;
    captured, termination := false, TimedOut;
    if !spawned {
      var failed := clock.Elapsed();
      r := BuildOutput(e, Ascii("launch_failed"), false, None, NOTHING, NOTHING, ElapsedMs(failed));
      return;
    }
    if !piped {
      var ignored := child.Terminate();
      return Failure(AdapterTerminated), captured, termination;
    }
    CaptureIsText(stdout.rest, maximum);
    CaptureIsText(stderr.rest, maximum);
    var ended := AwaitTermination(child, clock, timeout);
    if ended.Failure? {
      return Failure(ended.error), captured, termination;
    }
    var out := CaptureReader(stdout, maximum);
    var err := CaptureReader(stderr, maximum);
    if !delivered || out.Failure? || err.Failure? {
      return Failure(ResponseUnverifiable), captured, termination;
    }
    captured, termination := true, ended.value;
    var elapsed := clock.Elapsed();
    assert OutputOf(termination, out.value, err.value, ElapsedMs(elapsed)).Object?;
    match ended.value {
      case Exited(status) =>
        r := BuildOutput(e, Ascii("exited"), status.success, status.code, out.value, err.value, ElapsedMs(elapsed));
      case TimedOut =>
        r := BuildOutput(e, Ascii("timed_out"), false, None, out.value, err.value, ElapsedMs(elapsed));
    }
  }

  // ---- bounds of the arguments ----

  datatype Limits = Limits(timeoutMs: nat, maxOutputBytes: nat)

  /** The two bounded numbers of `parse_arguments`. */
  function ParseLimits(fields: map<Bytes, Value>): Option<Limits> {
    var timeout, bytes := GetUnsigned(fields, "timeoutMs"), GetUnsigned(fields, "maxOutputBytes");
    if timeout.None? || !(MIN_PROCESS_TIMEOUT_MS <= timeout.value <= MAX_PROCESS_TIMEOUT_MS) then None
    else if bytes.None? || !(MIN_CAPTURE_BYTES <= bytes.value <= MAX_CAPTURE_BYTES) then None
    else Some(Limits(timeout.value, bytes.value))
  }

  /** Limits are accepted exactly as given: 100 ms to ten minutes, 1 to 32 KiB. */
  lemma {:induction false} LimitsIff(fields: map<Bytes, Value>, l: Limits)
    ensures ParseLimits(fields) == Some(l) <==>
            && Get(fields, "timeoutMs") == Some(Number(l.timeoutMs)) && 100 <= l.timeoutMs <= 600000
            && Get(fields, "maxOutputBytes") == Some(Number(l.maxOutputBytes)) && 1024 <= l.maxOutputBytes <= 32768
  {
    hide Get;
  }

  /** Accepted limits are those that `RunProcess` asks for, and bound the polls of its loop. */
  lemma {:induction false} LimitsSuffice(fields: map<Bytes, Value>)
    requires ParseLimits(fields).Some?
    ensures
      var limits := ParseLimits(fields).value;
      limits.maxOutputBytes <= MAX_CAPTURE_BYTES && limits.timeoutMs * NANOS_PER_MS / POLL_INTERVAL + 3 <= 60_003
  {
    hide GetUnsigned;
    var t := ParseLimits(fields).value.timeoutMs;
    assert t * NANOS_PER_MS <= MAX_PROCESS_TIMEOUT_MS * NANOS_PER_MS == 60_000 * POLL_INTERVAL;
    assert t * NANOS_PER_MS / POLL_INTERVAL <= 60_000;
  }
}
