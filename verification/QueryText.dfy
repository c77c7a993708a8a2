/** Matching inside one file: lines, occurrences, columns and previews (query.rs). */
module QueryText {
  import opened Limits
  import opened Wrappers
  import opened Utf8
  import opened Paths

  // ---- previews ----

  function PreviewStart(matchStart: nat, matchEnd: nat, line: Bytes): nat
    requires matchStart <= matchEnd <= matchStart + MAX_SEARCH_PREVIEW_BYTES
  {
    var margin := (MAX_SEARCH_PREVIEW_BYTES - (matchEnd - matchStart)) / 2;
    BackTo(line, if matchStart >= margin then matchStart - margin else 0, 0)
  }

  /** The preview of a match that leaves at least six bytes of margin. */
  function Preview(line: Bytes, matchStart: nat, matchEnd: nat): Bytes
    requires matchStart <= matchEnd <= |line| && matchEnd - matchStart <= MAX_SEARCH_PREVIEW_BYTES - 6
    requires Valid(line)
  {
    if |line| <= MAX_SEARCH_PREVIEW_BYTES then line
    else
      PreviewStartIsClose(line, matchStart, matchEnd);
      var start := PreviewStart(matchStart, matchEnd, line);
      var limit := start + MAX_SEARCH_PREVIEW_BYTES;
      line[start..BackTo(line, if limit < |line| then limit else |line|, matchEnd)]
  }

  lemma PreviewStartIsClose(line: Bytes, matchStart: nat, matchEnd: nat)
    requires Valid(line) && matchStart <= matchEnd <= |line|
    requires matchEnd - matchStart <= MAX_SEARCH_PREVIEW_BYTES - 6
    ensures
      var start := PreviewStart(matchStart, matchEnd, line);
      start <= matchStart && matchEnd <= start + MAX_SEARCH_PREVIEW_BYTES
  {
    var margin := (MAX_SEARCH_PREVIEW_BYTES - (matchEnd - matchStart)) / 2;
    var from := if matchStart >= margin then matchStart - margin else 0;
    BoundaryNearby(line, from);
  }

  /** The fallback loop of `bounded_preview`. */
  method WalkForward(line: Bytes, from: nat, matchStart: nat, matchEnd: nat) returns (r: nat)
    requires from <= matchStart <= matchEnd && IsBoundary(line, from) && IsBoundary(line, matchStart)
    ensures from == 0 ==> r == 0
    ensures matchEnd - matchStart <= MAX_SEARCH_PREVIEW_BYTES ==> from <= r <= matchStart && IsBoundary(line, r)
    ensures matchEnd - matchStart > MAX_SEARCH_PREVIEW_BYTES && from > 0 ==> r == matchEnd - MAX_SEARCH_PREVIEW_BYTES
  {
    r := from;
    while r > 0 && matchEnd - r > MAX_SEARCH_PREVIEW_BYTES
      invariant from <= r && (from == 0 ==> r == 0)
      invariant r <= matchStart ==> IsBoundary(line, r)
      invariant r <= matchStart || (matchEnd - matchStart > MAX_SEARCH_PREVIEW_BYTES && r <= matchEnd - MAX_SEARCH_PREVIEW_BYTES)
      decreases matchEnd - r
    {
      r := r + 1;
      while r < matchStart && !IsBoundary(line, r)
        invariant from < r && (r <= matchStart || r <= matchEnd - MAX_SEARCH_PREVIEW_BYTES)
        invariant r <= matchStart || (matchEnd - matchStart > MAX_SEARCH_PREVIEW_BYTES && r <= matchEnd - MAX_SEARCH_PREVIEW_BYTES)
      {
        r := r + 1;
      }
    }
  }

  /** The slice at the end of `bounded_preview` panics: a match longer than the preview, not at the start
      of the line, whose last 512 bytes begin inside a character. */
  predicate SlicePanics(line: Bytes, matchStart: nat, matchEnd: nat)
    requires matchStart <= matchEnd
  {
    && matchEnd - matchStart > MAX_SEARCH_PREVIEW_BYTES && matchStart > 0
    && !IsBoundary(line, matchEnd - MAX_SEARCH_PREVIEW_BYTES)
  }

  /** `bounded_preview`, `None` where its slice panics. For a match of at most 506 bytes the preview fits
      the limit and the fallback loop is never entered. The preview contains the match exactly when the
      match is at most 512 bytes long or starts the line. */
  method BoundedPreview(line: Bytes, matchStart: nat, matchEnd: nat)
    returns (r: Option<Bytes>, ghost start: nat, ghost fellBack: bool)
    requires Valid(line) && matchStart <= matchEnd <= |line|
    requires IsBoundary(line, matchStart) && IsBoundary(line, matchEnd)
    ensures r.None? <==> SlicePanics(line, matchStart, matchEnd)
    ensures r.Some? ==> Shows(line, matchStart, matchEnd, r.value, start)
    ensures matchEnd - matchStart <= MAX_SEARCH_PREVIEW_BYTES - 6 ==>
      r.Some? && |r.value| <= MAX_SEARCH_PREVIEW_BYTES && r.value == Preview(line, matchStart, matchEnd)
    ensures matchEnd - matchStart <= MAX_SEARCH_PREVIEW_BYTES - 6 ==> !fellBack
  {
    hide Valid, IsBoundary, Preview, Shows, SlicePanics;
    if |line| <= MAX_SEARCH_PREVIEW_BYTES {
      ShortLine(line, matchStart, matchEnd);
      return Some(line), 0, false;
    }
    var from, to;
    from, to, fellBack := PreviewRange(line, matchStart, matchEnd);
    start := from;
    r := if IsBoundary(line, from) && IsBoundary(line, to) then Some(line[from..to]) else None;
    SliceShows(line, matchStart, matchEnd, from, to);
  }

  /** The range that is sliced from a line longer than the limit. */
  method PreviewRange(line: Bytes, matchStart: nat, matchEnd: nat) returns (from: nat, to: nat, ghost fellBack: bool)
    requires Valid(line) && matchStart <= matchEnd <= |line| && |line| > MAX_SEARCH_PREVIEW_BYTES
    requires IsBoundary(line, matchStart) && IsBoundary(line, matchEnd)
    ensures matchEnd <= to <= |line| && from <= to && IsBoundary(line, to)
    ensures matchEnd - matchStart <= MAX_SEARCH_PREVIEW_BYTES ==> from <= matchStart && IsBoundary(line, from)
    ensures matchEnd - matchStart > MAX_SEARCH_PREVIEW_BYTES ==>
      from == if matchStart == 0 then 0 else matchEnd - MAX_SEARCH_PREVIEW_BYTES
    ensures matchEnd - matchStart <= MAX_SEARCH_PREVIEW_BYTES - 6 ==>
      !fellBack && to - from <= MAX_SEARCH_PREVIEW_BYTES && line[from..to] == Preview(line, matchStart, matchEnd)
  {
    hide Valid, IsBoundary, Preview, PreviewStart, BackTo;
    EndsAreBoundaries(line);
    var length := matchEnd - matchStart;
    var margin := if length <= MAX_SEARCH_PREVIEW_BYTES then (MAX_SEARCH_PREVIEW_BYTES - length) / 2 else 0;
    from := WalkBack(line, if matchStart >= margin then matchStart - margin else 0, 0);
    StartOfLong(line, matchStart);
    var limit := from + MAX_SEARCH_PREVIEW_BYTES;
    to := if limit < |line| then limit else |line|;
    if length <= MAX_SEARCH_PREVIEW_BYTES - 6 {
      PreviewUnfolds(line, matchStart, matchEnd);
    }
    if to > matchEnd {
      to := WalkBack(line, to, matchEnd);
    }
    fellBack := to < matchEnd;
    if to < matchEnd {
      to := matchEnd;
      from := WalkForward(line, from, matchStart, matchEnd);
    }
  }

  /** The preview ends at or after the match, is cut at boundaries, and contains the match exactly when
      the match fits or starts the line. */
  ghost predicate Shows(line: Bytes, matchStart: nat, matchEnd: nat, preview: Bytes, start: nat)
    requires matchStart <= matchEnd
  {
    && matchEnd <= start + |preview| <= |line| && preview == line[start..start + |preview|]
    && IsBoundary(line, start) && IsBoundary(line, start + |preview|)
    && (start <= matchStart <==> matchEnd - matchStart <= MAX_SEARCH_PREVIEW_BYTES || matchStart == 0)
  }

  lemma SliceShows(line: Bytes, matchStart: nat, matchEnd: nat, from: nat, to: nat)
    requires matchStart <= matchEnd <= to <= |line| && IsBoundary(line, to)
    requires matchEnd - matchStart <= MAX_SEARCH_PREVIEW_BYTES ==> from <= matchStart && IsBoundary(line, from)
    requires matchEnd - matchStart > MAX_SEARCH_PREVIEW_BYTES ==>
      from == if matchStart == 0 then 0 else matchEnd - MAX_SEARCH_PREVIEW_BYTES
    ensures IsBoundary(line, from) ==> Shows(line, matchStart, matchEnd, line[from..to], from)
    ensures IsBoundary(line, from) <==> !SlicePanics(line, matchStart, matchEnd)
  {
  }

  /** Without a margin the walk back stays at the match. */
  lemma StartOfLong(line: Bytes, matchStart: nat)
    requires IsBoundary(line, matchStart)
    ensures BackTo(line, matchStart, 0) == matchStart
  {
  }

  /** `n` times the euro sign, three bytes each. */
  function Euros(n: nat): Bytes {
    if n == 0 then [] else [0xE2, 0x82, 0xAC] + Euros(n - 1)
  }

  lemma {:induction false} EurosAreText(n: nat)
    ensures Valid(Euros(n)) && |Euros(n)| == 3 * n
    ensures forall i | 0 <= i < n :: Euros(n)[3 * i + 1] == 0x82
  {
    if n > 0 {
      EurosAreText(n - 1);
      var rest := Euros(n - 1);
      assert Euros(n)[3..] == rest && HeadLength(Euros(n)) == 3;
      forall i | 0 <= i < n
        ensures Euros(n)[3 * i + 1] == 0x82
      {
        assert i > 0 ==> Euros(n)[3 * i + 1] == rest[3 * (i - 1) + 1];
      }
    }
  }

  /** A line and a match in it, of more than 512 bytes, for which the slice panics. No query that is
      accepted can match so much. */
  lemma LongMatchPanics()
    ensures
      var line := [0x61] + Euros(171);
      && Valid(line) && |line| == 514 && IsBoundary(line, 1) && IsBoundary(line, 514) && SlicePanics(line, 1, 514)
  {
    EurosAreText(171);
    var line: Bytes := [0x61] + Euros(171);
    assert line[1..] == Euros(171) && HeadLength(line) == 1;
    assert Euros(171)[3 * 0 + 1] == 0x82 && line[2] == Euros(171)[1];
    assert Euros(171) == [0xE2, 0x82, 0xAC] + Euros(170) && line[1] == 0xE2;
  }

  lemma ShortLine(line: Bytes, matchStart: nat, matchEnd: nat)
    requires Valid(line) && matchStart <= matchEnd <= |line| <= MAX_SEARCH_PREVIEW_BYTES
    ensures Shows(line, matchStart, matchEnd, line, 0) && !SlicePanics(line, matchStart, matchEnd)
    ensures matchEnd - matchStart <= MAX_SEARCH_PREVIEW_BYTES - 6 ==> Preview(line, matchStart, matchEnd) == line
  {
    assert line == line[0..|line|];
  }

  lemma PreviewUnfolds(line: Bytes, matchStart: nat, matchEnd: nat)
    requires Valid(line) && matchStart <= matchEnd <= |line|
    requires matchEnd - matchStart <= MAX_SEARCH_PREVIEW_BYTES - 6
    ensures
      var margin := (MAX_SEARCH_PREVIEW_BYTES - (matchEnd - matchStart)) / 2;
      var start := BackTo(line, if matchStart >= margin then matchStart - margin else 0, 0);
      var limit := start + MAX_SEARCH_PREVIEW_BYTES;
      var to := if limit < |line| then limit else |line|;
      && start <= matchStart && matchEnd <= to
      && BackTo(line, matchEnd, matchEnd) == matchEnd
      && (|line| > MAX_SEARCH_PREVIEW_BYTES ==>
            Preview(line, matchStart, matchEnd) == line[start..BackTo(line, to, matchEnd)])
  {
    PreviewStartIsClose(line, matchStart, matchEnd);
  }

  lemma EndsAreBoundaries(line: Bytes)
    ensures IsBoundary(line, 0) && IsBoundary(line, |line|)
  {
  }

  lemma SliceOfSlice(s: Bytes, a: nat, b: nat, i: nat, j: nat)
    requires a <= i <= j <= b <= |s|
    ensures s[a..b][i - a..j - a] == s[i..j]
  {
    var t, u := s[a..b][i - a..j - a], s[i..j];
    assert forall k | 0 <= k < j - i :: t[k] == u[k];
  }

  /** A search preview is valid text of bounded size around the match. */
  lemma PreviewIsText(line: Bytes, matchStart: nat, matchEnd: nat)
    requires Valid(line) && matchStart <= matchEnd <= |line|
    requires IsBoundary(line, matchStart) && IsBoundary(line, matchEnd)
    requires matchEnd - matchStart <= MAX_SEARCH_QUERY_BYTES
    ensures
      var preview := Preview(line, matchStart, matchEnd);
      && Valid(preview) && |preview| <= MAX_SEARCH_PREVIEW_BYTES
      && exists at: nat :: OccursAt(preview, line[matchStart..matchEnd], at)
  {
    hide Valid, HeadLength;
    var preview := Preview(line, matchStart, matchEnd);
    if |line| <= MAX_SEARCH_PREVIEW_BYTES {
      assert OccursAt(preview, line[matchStart..matchEnd], matchStart);
    } else {
      PreviewStartIsClose(line, matchStart, matchEnd);
      var start := PreviewStart(matchStart, matchEnd, line);
      var limit := start + MAX_SEARCH_PREVIEW_BYTES;
      var to := BackTo(line, if limit < |line| then limit else |line|, matchEnd);
      ValidSlice(line, start, to);
      SliceOfSlice(line, start, to, matchStart, matchEnd);
      assert OccursAt(preview, line[matchStart..matchEnd], matchStart - start);
    }
  }

  // ---- occurrences in a line ----

  /** `line.match_indices(query)`: left to right, without overlaps. */
  function Offsets(line: Bytes, query: Bytes, from: nat): (r: seq<nat>)
    requires query != []
    ensures forall k | k in r :: from <= k && OccursAt(line, query, k)
    ensures forall i, j | 0 <= i < j < |r| :: r[i] + |query| <= r[j]
    decreases |line| - from
  {
    match FindFrom(line, query, from)
    case None => []
    case Some(k) =>
      var rest := Offsets(line, query, k + |query|);
      assert forall j | 0 <= j < |rest| :: rest[j] in rest;
      [k] + rest
  }

  /** An occurrence is reported exactly when no reported one to its left overlaps it. */
  lemma {:induction false} OffsetsAreGreedy(line: Bytes, query: Bytes, from: nat, k: nat)
    requires query != [] && from <= k
    ensures k in Offsets(line, query, from) <==>
      OccursAt(line, query, k) && !exists r | r in Offsets(line, query, from) :: r < k < r + |query|
    decreases |line| - from
  {
    var found := FindFrom(line, query, from);
    assert found.Some? ==> found.value + |query| <= |line|;
    hide OccursAt;
    if found.Some? {
      var first := found.value;
      var all, rest := Offsets(line, query, from), Offsets(line, query, first + |query|);
      assert all == [first] + rest && first in all;
      assert forall r :: r in all <==> r == first || r in rest;
      hide Offsets, FindFrom;
      if first + |query| <= k {
        OffsetsAreGreedy(line, query, first + |query|, k);
      } else if first < k {
        assert first < k < first + |query|;
      }
    }
  }

  /** A query that the adapter accepts, and that `--allow-path` authorises. */
  predicate ValidQuery(query: Bytes) {
    && query != [] && |query| <= MAX_SEARCH_QUERY_BYTES
    && Valid(query) && CharCount(query) <= MAX_SEARCH_QUERY_UNICODE_SCALARS
    && !HasControl(query)
  }

  // ---- matches of a file ----

  datatype Match = Match(path: Bytes, line: nat, column: nat, preview: Bytes)

  ghost predicate GoodQuery(query: Bytes) {
    query != [] && |query| <= MAX_SEARCH_QUERY_BYTES && Valid(query)
  }

  /** `line.strip_suffix('\r').unwrap_or(line)`: one carriage return at the end goes, nothing else. */
  function StripReturn(line: Bytes): (r: Bytes)
    ensures line == r || line == r + [CARRIAGE_RETURN]
    ensures line == r ==> !exists rest :: line == rest + [CARRIAGE_RETURN]
  {
    if line != [] && line[|line| - 1] == CARRIAGE_RETURN then line[..|line| - 1] else line
  }

  lemma StripReturnValid(line: Bytes)
    requires Valid(line)
    ensures Valid(StripReturn(line))
  {
    if line != [] && line[|line| - 1] == CARRIAGE_RETURN {
      AfterAscii(line, |line| - 1);
      ValidSplit(line, |line| - 1);
    }
  }

  lemma OccurrenceIsText(line: Bytes, query: Bytes, k: nat)
    requires Valid(line) && GoodQuery(query) && OccursAt(line, query, k)
    ensures IsBoundary(line, k) && IsBoundary(line, k + |query|) && Valid(line[..k])
  {
    OccurrenceAtBoundary(line, query, k);
    ValidSplit(line, k);
  }

  /** The report for the occurrence at byte `k` of a line: the column counts characters from 1. */
  ghost function MatchAt(path: Bytes, line: Bytes, number: nat, query: Bytes, k: nat): Match
    requires Valid(line) && GoodQuery(query) && OccursAt(line, query, k)
  {
    OccurrenceIsText(line, query, k);
    Match(path, number, CharCount(line[..k]) + 1, Preview(line, k, k + |query|))
  }

  ghost function LineMatches(path: Bytes, line: Bytes, number: nat, query: Bytes): seq<Match>
    requires Valid(line) && GoodQuery(query)
  {
    var offsets := Offsets(line, query, 0);
    seq(|offsets|, i requires 0 <= i < |offsets| =>
      assert offsets[i] in offsets; MatchAt(path, line, number, query, offsets[i]))
  }

  lemma LineMatchesAt(path: Bytes, line: Bytes, number: nat, query: Bytes, i: nat)
    requires Valid(line) && GoodQuery(query) && i < |Offsets(line, query, 0)|
    ensures
      var k := Offsets(line, query, 0)[i];
      && OccursAt(line, query, k) && k + |query| <= |line|
      && IsBoundary(line, k) && IsBoundary(line, k + |query|) && Valid(line[..k])
      && i < |LineMatches(path, line, number, query)|
      && LineMatches(path, line, number, query)[i] ==
         Match(path, number, CharCount(line[..k]) + 1, Preview(line, k, k + |query|))
  {
    hide Valid, Preview;
    var k := Offsets(line, query, 0)[i];
    assert k in Offsets(line, query, 0);
    OccurrenceIsText(line, query, k);
  }

  ghost predicate ValidLines(lines: seq<Bytes>) {
    forall l | l in lines :: Valid(StripReturn(l))
  }

  /** All matches of the first lines of a file, line numbers counting from 1. */
  ghost function LinesMatches(path: Bytes, lines: seq<Bytes>, query: Bytes): seq<Match>
    requires ValidLines(lines) && GoodQuery(query)
  {
    if lines == [] then []
    else
      var last := lines[|lines| - 1];
      assert last in lines;
      LinesMatches(path, lines[..|lines| - 1], query) + LineMatches(path, StripReturn(last), |lines|, query)
  }

  lemma LinesAreValid(content: Bytes)
    requires Valid(content)
    ensures ValidLines(SplitOn(NEWLINE, content))
  {
    SplitValid(NEWLINE, content);
    forall l | l in SplitOn(NEWLINE, content)
      ensures Valid(StripReturn(l))
    {
      StripReturnValid(l);
    }
  }

  ghost function FileMatches(path: Bytes, content: Bytes, query: Bytes): seq<Match>
    requires Valid(content) && GoodQuery(query)
  {
    LinesAreValid(content);
    LinesMatches(path, SplitOn(NEWLINE, content), query)
  }

  lemma LinesMatchesStep(path: Bytes, lines: seq<Bytes>, n: nat, query: Bytes)
    requires ValidLines(lines) && GoodQuery(query) && n < |lines|
    ensures ValidLines(lines[..n]) && ValidLines(lines[..n + 1]) && Valid(StripReturn(lines[n]))
    ensures LinesMatches(path, lines[..n + 1], query) ==
            LinesMatches(path, lines[..n], query) + LineMatches(path, StripReturn(lines[n]), n + 1, query)
  {
    assert lines[..n + 1][..n] == lines[..n] && lines[..n + 1][n] == lines[n];
    assert lines[n] in lines;
  }

  lemma {:induction false} LinesMatchesPrefix(path: Bytes, lines: seq<Bytes>, n: nat, query: Bytes)
    requires ValidLines(lines) && GoodQuery(query) && n <= |lines|
    ensures ValidLines(lines[..n])
    ensures LinesMatches(path, lines[..n], query) <= LinesMatches(path, lines, query)
    decreases |lines| - n
  {
    if n == |lines| {
      assert lines[..n] == lines;
    } else {
      LinesMatchesStep(path, lines, n, query);
      LinesMatchesPrefix(path, lines, n + 1, query);
    }
  }

  lemma LineMatchesExact(path: Bytes, line: Bytes, number: nat, query: Bytes, m: Match)
    requires Valid(line) && GoodQuery(query)
    ensures m in LineMatches(path, line, number, query) <==>
      exists k | k in Offsets(line, query, 0) :: m == MatchAt(path, line, number, query, k)
  {
    hide MatchAt, Valid;
    var offsets, here := Offsets(line, query, 0), LineMatches(path, line, number, query);
    if m in here {
      var i :| 0 <= i < |here| && here[i] == m;
      assert offsets[i] in offsets;
    }
    if k :| k in offsets && m == MatchAt(path, line, number, query, k) {
      var i :| 0 <= i < |offsets| && offsets[i] == k;
      assert here[i] == m;
    }
  }

  ghost predicate MatchedOn(path: Bytes, lines: seq<Bytes>, query: Bytes, m: Match, n: nat)
    requires ValidLines(lines) && GoodQuery(query) && n < |lines|
  {
    assert lines[n] in lines;
    exists k | k in Offsets(StripReturn(lines[n]), query, 0) ::
      m == MatchAt(path, StripReturn(lines[n]), n + 1, query, k)
  }

  /** Some line has the match. */
  ghost predicate MatchedSomewhere(path: Bytes, lines: seq<Bytes>, query: Bytes, m: Match)
    requires ValidLines(lines) && GoodQuery(query)
  {
    exists n | 0 <= n < |lines| :: MatchedOn(path, lines, query, m, n)
  }

  lemma MatchedBefore(path: Bytes, lines: seq<Bytes>, query: Bytes, m: Match, k: nat, n: nat)
    requires ValidLines(lines) && GoodQuery(query) && n < k <= |lines|
    ensures ValidLines(lines[..k]) && (MatchedOn(path, lines[..k], query, m, n) <==> MatchedOn(path, lines, query, m, n))
  {
    hide MatchAt, Valid, StripReturn, Offsets;
  }

  lemma MatchedOnLast(path: Bytes, lines: seq<Bytes>, query: Bytes, m: Match)
    requires ValidLines(lines) && GoodQuery(query) && lines != []
    ensures
      var n := |lines| - 1;
      && ValidLines(lines[..n])
      && (MatchedSomewhere(path, lines, query, m) <==>
            MatchedSomewhere(path, lines[..n], query, m) || MatchedOn(path, lines, query, m, n))
  {
    hide MatchedOn, Valid;
    var n := |lines| - 1;
    forall i | 0 <= i < n
      ensures ValidLines(lines[..n]) && (MatchedOn(path, lines[..n], query, m, i) <==> MatchedOn(path, lines, query, m, i))
    {
      MatchedBefore(path, lines, query, m, n, i);
    }
  }

  lemma MatchedOnExact(path: Bytes, lines: seq<Bytes>, query: Bytes, m: Match, n: nat)
    requires ValidLines(lines) && GoodQuery(query) && n < |lines|
    ensures Valid(StripReturn(lines[n]))
    ensures MatchedOn(path, lines, query, m, n) <==> m in LineMatches(path, StripReturn(lines[n]), n + 1, query)
  {
    hide MatchAt, Valid, LineMatches, StripReturn, Offsets;
    assert lines[n] in lines;
    LineMatchesExact(path, StripReturn(lines[n]), n + 1, query, m);
  }

  /** A match is reported for a file exactly when some line has an unoverlapped occurrence there. */
  lemma {:induction false} LinesMatchesExact(path: Bytes, lines: seq<Bytes>, query: Bytes, m: Match)
    requires ValidLines(lines) && GoodQuery(query)
    ensures m in LinesMatches(path, lines, query) <==> MatchedSomewhere(path, lines, query, m)
    decreases |lines|
  {
    hide MatchedOn, Valid, LineMatches, StripReturn, GoodQuery;
    if lines != [] {
      var n := |lines| - 1;
      MatchedOnLast(path, lines, query, m);
      MatchedOnExact(path, lines, query, m, n);
      hide MatchedSomewhere, ValidLines;
      LinesMatchesExact(path, lines[..n], query, m);
    }
  }

  // ---- order of the matches of one file ----

  ghost predicate Before(a: Match, b: Match) {
    a.line < b.line || (a.line == b.line && a.column < b.column)
  }

  ghost predicate InOrder(s: seq<Match>) {
    forall i, j | 0 <= i < j < |s| :: Before(s[i], s[j])
  }

  lemma LineMatchesInOrder(path: Bytes, line: Bytes, number: nat, query: Bytes)
    requires Valid(line) && GoodQuery(query)
    ensures InOrder(LineMatches(path, line, number, query))
  {
    var offsets, here := Offsets(line, query, 0), LineMatches(path, line, number, query);
    forall i, j | 0 <= i < j < |here|
      ensures Before(here[i], here[j])
    {
      assert offsets[i] in offsets && offsets[j] in offsets;
      OccurrenceIsText(line, query, offsets[i]);
      OccurrenceIsText(line, query, offsets[j]);
      CharCountIncreases(line, offsets[i], offsets[j]);
    }
  }

  ghost predicate WellPlaced(m: Match, path: Bytes, from: nat, to: nat) {
    m.path == path && from <= m.line <= to && 1 <= m.column && |m.preview| <= MAX_SEARCH_PREVIEW_BYTES
  }

  lemma LineMatchesPlaced(path: Bytes, line: Bytes, number: nat, query: Bytes, m: Match)
    requires Valid(line) && GoodQuery(query) && m in LineMatches(path, line, number, query)
    ensures WellPlaced(m, path, number, number)
  {
    hide Valid, Offsets, LineMatches, Preview, OccursAt, IsBoundary, CharCount;
    LineMatchesExact(path, line, number, query, m);
    var k :| k in Offsets(line, query, 0) && m == MatchAt(path, line, number, query, k);
    OccurrenceIsText(line, query, k);
    PreviewIsText(line, k, k + |query|);
  }

  lemma {:induction false} LinesMatchesInOrder(path: Bytes, lines: seq<Bytes>, query: Bytes)
    requires ValidLines(lines) && GoodQuery(query)
    ensures InOrder(LinesMatches(path, lines, query))
    ensures forall m | m in LinesMatches(path, lines, query) :: WellPlaced(m, path, 1, |lines|)
    decreases |lines|
  {
    if lines != [] {
      var n := |lines| - 1;
      var line := StripReturn(lines[n]);
      assert lines[n] in lines;
      LinesMatchesInOrder(path, lines[..n], query);
      LineMatchesInOrder(path, line, n + 1, query);
      hide Valid, LineMatches, StripReturn;
      var here := LineMatches(path, line, n + 1, query);
      forall m | m in here
        ensures WellPlaced(m, path, n + 1, n + 1)
      {
        LineMatchesPlaced(path, line, n + 1, query, m);
      }
      OrderedConcat(LinesMatches(path, lines[..n], query), LineMatches(path, line, n + 1, query), path, n);
    }
  }

  lemma OrderedConcat(a: seq<Match>, b: seq<Match>, path: Bytes, n: nat)
    requires InOrder(a) && InOrder(b)
    requires forall m | m in a :: WellPlaced(m, path, 1, n)
    requires forall m | m in b :: WellPlaced(m, path, n + 1, n + 1)
    ensures InOrder(a + b)
  {
    forall i, j | 0 <= i < j < |a + b|
      ensures Before((a + b)[i], (a + b)[j])
    {
      if i < |a| <= j {
        assert a[i] in a && b[j - |a|] in b;
      }
    }
  }

  // ---- bounds on line and column ----

  lemma {:induction false} CharCountBound(s: Bytes)
    requires Valid(s)
    ensures CharCount(s) <= |s|
    decreases |s|
  {
    if s != [] {
      CharCountBound(s[HeadLength(s)..]);
    }
  }

  lemma {:induction false} SplitSizes(separator: Byte, s: Bytes)
    ensures |SplitOn(separator, s)| <= |s| + 1
    ensures forall n | 0 <= n < |SplitOn(separator, s)| :: |SplitOn(separator, s)[n]| <= |s|
  {
    if s != [] {
      SplitSizes(separator, s[1..]);
    }
  }

  lemma FileMatchBounds(path: Bytes, content: Bytes, query: Bytes, m: Match)
    requires Valid(content) && GoodQuery(query) && m in FileMatches(path, content, query)
    ensures m.line <= |content| + 1 && m.column <= |content| + 1
  {
    hide Valid, Offsets, LineMatches, Preview, OccursAt, IsBoundary, CharCount, SplitOn, LinesMatches, ValidLines;
    var lines := SplitOn(NEWLINE, content);
    LinesAreValid(content);
    LinesMatchesExact(path, lines, query, m);
    var n :| 0 <= n < |lines| && MatchedOn(path, lines, query, m, n);
    var line := StripReturn(lines[n]);
    var k :| k in Offsets(line, query, 0) && m == MatchAt(path, line, n + 1, query, k);
    OccurrenceIsText(line, query, k);
    CharCountBound(line[..k]);
    SplitSizes(NEWLINE, content);
  }
}
