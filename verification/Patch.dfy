/** The exact-edit engine of apply_patch.rs. */
module Patch {
  import opened Limits
  import opened Wrappers
  import opened Utf8
  import opened Sorting

  const USIZE_MAX: nat := 0xFFFF_FFFF_FFFF_FFFF

  datatype PatchEdit = PatchEdit(oldText: Bytes, newText: Bytes)
  datatype Range = Range(start: nat, end: nat)
  datatype Resolved = Resolved(range: Range, edit: PatchEdit)
  datatype PatchFailure = ContextMissing | ContextAmbiguous | OverlappingEdits | ResultTooLarge

  /** The range of the only occurrence; the second search starts at the character after the first. */
  function UniqueRange(source: Bytes, needle: Bytes): Result<Range, PatchFailure> {
    match FindFrom(source, needle, 0)
    case None => Failure(ContextMissing)
    case Some(start) =>
      var first := HeadLength(source[start..]);
      if first < |source| - start && FindFrom(source, needle, start + first).Some? then
        Failure(ContextAmbiguous)
      else
        Success(Range(start, start + |needle|))
  }

  ghost predicate OnlyAt(source: Bytes, needle: Bytes, p: nat) {
    OccursAt(source, needle, p) && forall i: nat | OccursAt(source, needle, i) :: i == p
  }

  ghost predicate OccursNowhere(source: Bytes, needle: Bytes) {
    forall i: nat :: !OccursAt(source, needle, i)
  }

  ghost predicate OccursTwice(source: Bytes, needle: Bytes) {
    exists i: nat, j: nat :: i < j && OccursAt(source, needle, i) && OccursAt(source, needle, j)
  }

  /** After the first occurrence the next one starts no earlier than the next character. */
  lemma {:induction false} NextOccurrence(source: Bytes, needle: Bytes, start: nat, j: nat)
    requires Valid(source) && Valid(needle) && needle != []
    requires OccursAt(source, needle, start) && start < j && OccursAt(source, needle, j)
    ensures start + HeadLength(source[start..]) <= j
  {
    OccurrenceAtBoundary(source, needle, j);
    var first := HeadLength(source[start..]);
    if j < start + first {
      assert source[start..][j - start] == source[j];
    }
  }

  /** Over bytes, counting overlapping occurrences, `UniqueRange` is exact: the three outcomes name
      three exclusive situations. */
  lemma {:induction false} UniqueRangeExact(source: Bytes, needle: Bytes)
    requires Valid(source) && Valid(needle) && needle != []
    ensures UniqueRange(source, needle) == Failure(ContextMissing) <==> OccursNowhere(source, needle)
    ensures UniqueRange(source, needle) == Failure(ContextAmbiguous) <==> OccursTwice(source, needle)
    ensures UniqueRange(source, needle).Success? ==>
      var r := UniqueRange(source, needle).value;
      && OnlyAt(source, needle, r.start) && r.end == r.start + |needle|
      && IsBoundary(source, r.start) && IsBoundary(source, r.end)
    ensures UniqueRange(source, needle).Failure? ==> !exists p: nat :: OnlyAt(source, needle, p)
  {
    hide HeadLength, Valid, IsBoundary, OccursAt, OnlyAt, OccursNowhere, OccursTwice, FindFrom;
    FirstSearch(source, needle);
    if FindFrom(source, needle, 0).Some? {
      SecondSearch(source, needle, FindFrom(source, needle, 0).value);
    }
  }

  lemma FirstSearch(source: Bytes, needle: Bytes)
    ensures FindFrom(source, needle, 0).None? ==>
      OccursNowhere(source, needle) && !OccursTwice(source, needle) && !exists p: nat :: OnlyAt(source, needle, p)
    ensures FindFrom(source, needle, 0).Some? ==>
      var start := FindFrom(source, needle, 0).value;
      && !OccursNowhere(source, needle) && OccursAt(source, needle, start)
      && forall j: nat | OccursAt(source, needle, j) :: start <= j
  {
    hide OccursAt;
  }

  lemma SecondSearch(source: Bytes, needle: Bytes, start: nat)
    requires Valid(source) && Valid(needle) && needle != []
    requires OccursAt(source, needle, start) && forall j: nat | OccursAt(source, needle, j) :: start <= j
    ensures start <= |source| && IsBoundary(source, start) && IsBoundary(source, start + |needle|)
    ensures
      var next := start + HeadLength(source[start..]);
      && (next < |source| && FindFrom(source, needle, next).Some? <==> OccursTwice(source, needle))
      && (OccursTwice(source, needle) ==> !exists p: nat :: OnlyAt(source, needle, p))
      && (!OccursTwice(source, needle) ==> OnlyAt(source, needle, start))
  {
    OccurrenceAtBoundary(source, needle, start);
    HeadIsSome(source, needle, start);
    var next := start + HeadLength(source[start..]);
    forall j: nat | start < j && OccursAt(source, needle, j)
      ensures next <= j < |source|
    {
      NextOccurrence(source, needle, start, j);
      InsideSource(source, needle, j);
    }
    hide HeadLength, Valid, IsBoundary, OccursAt;
    if next < |source| && FindFrom(source, needle, next).Some? {
      assert OccursAt(source, needle, FindFrom(source, needle, next).value);
    }
  }

  lemma InsideSource(source: Bytes, needle: Bytes, j: nat)
    requires OccursAt(source, needle, j) && needle != []
    ensures j < |source|
  {
  }

  lemma HeadIsSome(source: Bytes, needle: Bytes, start: nat)
    requires Valid(source) && needle != [] && OccursAt(source, needle, start) && IsBoundary(source, start)
    ensures start < |source| && HeadLength(source[start..]) > 0
  {
    ValidSplit(source, start);
  }

  /** What a caller of the engine provides: text, with non-empty old texts (apply_patch.rs:351-355). */
  ghost predicate WellFormedEdits(edits: seq<PatchEdit>) {
    forall e | e in edits :: e.oldText != [] && Valid(e.oldText) && Valid(e.newText)
  }

  predicate ByStart(a: Resolved, b: Resolved) {
    a.range.start <= b.range.start
  }

  // ---- the specification: one left-to-right pass that never looks at the order of the edits ----

  /** The source from `p` on with every old text replaced where it occurs. */
  ghost function Rewrite(source: Bytes, edits: set<PatchEdit>, p: nat): Bytes
    decreases |source| - p
  {
    if p >= |source| then []
    else if exists e :: e in edits && StartsAt(source, e, p) then
      var e :| e in edits && StartsAt(source, e, p);
      e.newText + Rewrite(source, edits, p + |e.oldText|)
    else
      [source[p]] + Rewrite(source, edits, p + 1)
  }

  ghost predicate OccursOnce(source: Bytes, e: PatchEdit) {
    exists p: nat :: OnlyAt(source, e.oldText, p)
  }

  ghost predicate Overlap(source: Bytes, a: PatchEdit, b: PatchEdit) {
    exists i: nat, j: nat ::
      && OccursAt(source, a.oldText, i) && OccursAt(source, b.oldText, j)
      && i < j + |b.oldText| && j < i + |a.oldText|
  }

  ghost predicate AllOnce(source: Bytes, edits: multiset<PatchEdit>) {
    forall e | e in edits :: OccursOnce(source, e)
  }

  ghost predicate Separate(source: Bytes, edits: multiset<PatchEdit>) {
    && (forall e | e in edits :: edits[e] == 1)
    && (forall a, b | a in edits && b in edits && a != b :: !Overlap(source, a, b))
  }

  ghost function EditSet(edits: multiset<PatchEdit>): set<PatchEdit> {
    set e | e in edits
  }

  ghost predicate Applicable(source: Bytes, edits: multiset<PatchEdit>) {
    && AllOnce(source, edits)
    && Separate(source, edits)
    && |Rewrite(source, EditSet(edits), 0)| <= MAX_ATOMIC_TEXT_BYTES
  }

  // ---- sums ----

  function TotalOld(edits: seq<PatchEdit>): nat {
    if edits == [] then 0 else |edits[0].oldText| + TotalOld(edits[1..])
  }

  function TotalNew(edits: seq<PatchEdit>): nat {
    if edits == [] then 0 else |edits[0].newText| + TotalNew(edits[1..])
  }

  lemma {:induction false} TotalsOfConcat(a: seq<PatchEdit>, b: seq<PatchEdit>)
    ensures TotalOld(a + b) == TotalOld(a) + TotalOld(b)
    ensures TotalNew(a + b) == TotalNew(a) + TotalNew(b)
  {
    if a == [] {
      assert a + b == b;
    } else {
      TotalsOfConcat(a[1..], b);
      assert (a + b)[1..] == a[1..] + b;
    }
  }

  lemma RemoveAt<T>(s: seq<T>, i: nat)
    requires i < |s|
    ensures s == s[..i] + ([s[i]] + s[i + 1..])
    ensures multiset(s[..i] + s[i + 1..]) == multiset(s) - multiset{s[i]}
  {
    assert s == s[..i] + ([s[i]] + s[i + 1..]);
  }

  lemma {:induction false} TotalsPermute(a: seq<PatchEdit>, b: seq<PatchEdit>)
    requires multiset(a) == multiset(b)
    ensures TotalOld(a) == TotalOld(b) && TotalNew(a) == TotalNew(b)
    decreases |a|
  {
    SameElements(a, b);
    if a != [] {
      hide TotalOld, TotalNew;
      var i := DropMatching(a, b);
      TotalsPermute(a[..0] + a[1..], b[..i] + b[i + 1..]);
      TotalsAround(a, 0);
      TotalsAround(b, i);
    }
  }

  lemma DropMatching<T>(a: seq<T>, b: seq<T>) returns (i: nat)
    requires multiset(a) == multiset(b) && a != []
    ensures i < |b| && b[i] == a[0] && |a[..0] + a[1..]| < |a|
    ensures multiset(a[..0] + a[1..]) == multiset(b[..i] + b[i + 1..])
  {
    SameElements(a, b);
    assert a[0] in b;
    i :| 0 <= i < |b| && b[i] == a[0];
    RemoveAt(a, 0);
    RemoveAt(b, i);
  }

  lemma TotalsAround(b: seq<PatchEdit>, i: nat)
    requires i < |b|
    ensures TotalOld(b) == |b[i].oldText| + TotalOld(b[..i] + b[i + 1..])
    ensures TotalNew(b) == |b[i].newText| + TotalNew(b[..i] + b[i + 1..])
  {
    assert b == b[..i] + ([b[i]] + b[i + 1..]) && ([b[i]] + b[i + 1..])[1..] == b[i + 1..];
    TotalsOfConcat(b[..i], b[i + 1..]);
    TotalsOfConcat(b[..i], [b[i]] + b[i + 1..]);
  }

  /** A `try_fold` of `checked_add` over lengths. */
  function CheckedSum(lengths: seq<nat>, total: nat): Option<nat> {
    if lengths == [] then Some(total)
    else if total + lengths[0] > USIZE_MAX then None
    else CheckedSum(lengths[1..], total + lengths[0])
  }

  function OldLengths(s: seq<Resolved>): seq<nat> {
    seq(|s|, i requires 0 <= i < |s| => |s[i].edit.oldText|)
  }

  function NewLengths(s: seq<Resolved>): seq<nat> {
    seq(|s|, i requires 0 <= i < |s| => |s[i].edit.newText|)
  }

  lemma {:induction false} CheckedSumExact(s: seq<Resolved>, out: nat, into: nat)
    ensures CheckedSum(OldLengths(s), out) ==
            var total := out + TotalOld(EditsOf(s)); if total <= USIZE_MAX || s == [] then Some(total) else None
    ensures CheckedSum(NewLengths(s), into) ==
            var total := into + TotalNew(EditsOf(s)); if total <= USIZE_MAX || s == [] then Some(total) else None
  {
    if s != [] {
      var t := s[1..];
      CheckedSumExact(t, out + |s[0].edit.oldText|, into + |s[0].edit.newText|);
      assert EditsOf(s)[1..] == EditsOf(t);
      assert OldLengths(s)[1..] == OldLengths(t) && NewLengths(s)[1..] == NewLengths(t);
    }
  }

  /** `source.len().checked_sub(removed).and_then(checked_add inserted).filter(<= limit)`. */
  function CheckedSize(length: nat, removed: nat, inserted: nat): Option<nat> {
    if removed > length then None
    else
      var size := length - removed + inserted;
      if size <= USIZE_MAX && size <= MAX_ATOMIC_TEXT_BYTES then Some(size) else None
  }

  // ---- the resolved edits, in source order ----

  ghost predicate Placed(source: Bytes, s: seq<Resolved>) {
    forall i | 0 <= i < |s| :: PlacedOne(source, s[i])
  }

  ghost predicate PlacedOne(source: Bytes, x: Resolved) {
    && x.edit.oldText != []
    && OnlyAt(source, x.edit.oldText, x.range.start)
    && x.range.end == x.range.start + |x.edit.oldText|
  }

  /** The text side of a placed edit: it replaces whole characters by whole characters. */
  ghost predicate TextOne(source: Bytes, x: Resolved) {
    IsBoundary(source, x.range.start) && IsBoundary(source, x.range.end) && Valid(x.edit.newText)
  }

  ghost predicate TextOk(source: Bytes, s: seq<Resolved>) {
    Valid(source) && forall i | 0 <= i < |s| :: TextOne(source, s[i])
  }

  predicate AdjacentClash(s: seq<Resolved>) {
    exists i | 0 <= i < |s| - 1 :: s[i + 1].range.start < s[i].range.end
  }

  /** The adjacent-pair test is enough: sorted ranges that pass it are pairwise disjoint. */
  lemma {:induction false} AdjacentSuffices(source: Bytes, s: seq<Resolved>, i: nat, j: nat)
    requires Placed(source, s) && !AdjacentClash(s) && i < j < |s|
    ensures s[i].range.end <= s[j].range.start
    decreases j
  {
    assert s[j - 1 + 1].range.start >= s[j - 1].range.end;
    if i < j - 1 {
      AdjacentSuffices(source, s, i, j - 1);
      assert PlacedOne(source, s[j - 1]);
    }
  }

  lemma OverlapIffRangesMeet(source: Bytes, a: Resolved, b: Resolved)
    requires PlacedOne(source, a) && PlacedOne(source, b)
    ensures Overlap(source, a.edit, b.edit) <==>
            a.range.start < b.range.end && b.range.start < a.range.end
  {
  }

  ghost function EditsOf(s: seq<Resolved>): seq<PatchEdit> {
    seq(|s|, i requires 0 <= i < |s| => s[i].edit)
  }

  lemma {:induction false} EditsOfInsert(x: Resolved, s: seq<Resolved>)
    ensures multiset(EditsOf(Insert(ByStart, x, s))) == multiset(EditsOf([x] + s))
  {
    if s != [] && !ByStart(x, s[0]) {
      hide EditsOf;
      EditsOfInsert(x, s[1..]);
      EditsOfCons(s[0], Insert(ByStart, x, s[1..]));
      EditsOfCons(x, s[1..]);
      EditsOfCons(x, s);
      EditsOfCons(s[0], s[1..]);
      assert s == [s[0]] + s[1..];
    }
  }

  lemma {:induction false} EditsOfSort(s: seq<Resolved>)
    ensures multiset(EditsOf(Sort(ByStart, s))) == multiset(EditsOf(s))
  {
    if s != [] {
      hide EditsOf, Insert;
      EditsOfSort(s[1..]);
      var t := Sort(ByStart, s[1..]);
      EditsOfInsert(s[0], t);
      EditsOfCons(s[0], t);
      EditsOfCons(s[0], s[1..]);
      assert s == [s[0]] + s[1..];
    }
  }

  lemma EditsOfCons(x: Resolved, s: seq<Resolved>)
    ensures multiset(EditsOf([x] + s)) == multiset{x.edit} + multiset(EditsOf(s))
  {
    assert EditsOf([x] + s) == [x.edit] + EditsOf(s);
  }

  /** The adjacent-pair test on the sorted list decides whether the edits are separate. */
  lemma ClashIffNotSeparate(source: Bytes, s: seq<Resolved>)
    requires Placed(source, s) && Sorted(ByStart, s)
    ensures AdjacentClash(s) <==> !Separate(source, multiset(EditsOf(s)))
  {
    if AdjacentClash(s) {
      ClashMeansNotSeparate(source, s);
    } else {
      NoClashMeansSeparate(source, s);
    }
  }

  lemma ClashMeansNotSeparate(source: Bytes, s: seq<Resolved>)
    requires Placed(source, s) && Sorted(ByStart, s) && AdjacentClash(s)
    ensures !Separate(source, multiset(EditsOf(s)))
  {
    var edits := EditsOf(s);
    var i :| 0 <= i < |s| - 1 && s[i + 1].range.start < s[i].range.end;
    assert ByStart(s[i], s[i + 1]);
    assert PlacedOne(source, s[i]) && PlacedOne(source, s[i + 1]);
    OverlapIffRangesMeet(source, s[i], s[i + 1]);
    OverlappingPair(source, edits, i, i + 1);
  }

  lemma OverlappingPair(source: Bytes, edits: seq<PatchEdit>, i: nat, j: nat)
    requires i < j < |edits| && Overlap(source, edits[i], edits[j])
    ensures !Separate(source, multiset(edits))
  {
    hide Overlap;
    assert edits[i] in multiset(edits) && edits[j] in multiset(edits);
    if edits[i] == edits[j] {
      DuplicateCounts(edits, i, j);
    }
  }

  lemma NoClashMeansSeparate(source: Bytes, s: seq<Resolved>)
    requires Placed(source, s) && !AdjacentClash(s)
    ensures Separate(source, multiset(EditsOf(s)))
  {
    var edits := EditsOf(s);
    forall i, j | 0 <= i < j < |s|
      ensures !Overlap(source, edits[i], edits[j]) && !Overlap(source, edits[j], edits[i])
      ensures edits[i] != edits[j]
    {
      AdjacentSuffices(source, s, i, j);
      OverlapIffRangesMeet(source, s[i], s[j]);
      OverlapIffRangesMeet(source, s[j], s[i]);
      OverlapIffRangesMeet(source, s[i], s[i]);
    }
    DistinctCountsOne(edits);
    forall a, b | a in multiset(edits) && b in multiset(edits) && a != b
      ensures !Overlap(source, a, b)
    {
      var i :| 0 <= i < |edits| && edits[i] == a;
      var j :| 0 <= j < |edits| && edits[j] == b;
    }
  }

  lemma DuplicateCounts<T>(s: seq<T>, i: nat, j: nat)
    requires i < j < |s| && s[i] == s[j]
    ensures multiset(s)[s[i]] >= 2
  {
    assert s == s[..j] + [s[j]] + s[j + 1..];
    assert s[i] in s[..j];
  }

  lemma {:induction false} DistinctCountsOne<T>(s: seq<T>)
    requires forall i, j | 0 <= i < j < |s| :: s[i] != s[j]
    ensures forall x | x in multiset(s) :: multiset(s)[x] == 1
  {
    if s != [] {
      DistinctCountsOne(s[1..]);
      assert s == [s[0]] + s[1..];
      assert s[0] !in s[1..];
    }
  }

  // ---- the rewrite, seen from the sorted edits ----

  /** Everything the splice needs to know about the sorted list. */
  ghost predicate Layout(source: Bytes, s: seq<Resolved>, edits: set<PatchEdit>) {
    Placed(source, s) && !AdjacentClash(s) && edits == EditSet(multiset(EditsOf(s)))
  }

  lemma PlacedIsInPlan(s: seq<Resolved>, edits: set<PatchEdit>, i: nat)
    requires edits == EditSet(multiset(EditsOf(s))) && i < |s|
    ensures s[i].edit in edits
  {
    assert EditsOf(s)[i] in multiset(EditsOf(s));
  }

  /** An edit that occurs at `p` is one the list places there. */
  lemma OccurrenceIsPlaced(source: Bytes, s: seq<Resolved>, edits: set<PatchEdit>, e: PatchEdit, p: nat)
    returns (i: nat)
    requires Layout(source, s, edits) && e in edits && OccursAt(source, e.oldText, p)
    ensures i < |s| && s[i].edit == e && s[i].range == Range(p, p + |e.oldText|)
  {
    assert e in EditsOf(s);
    i :| 0 <= i < |s| && EditsOf(s)[i] == e;
    assert PlacedOne(source, s[i]);
  }

  ghost predicate StartsAt(source: Bytes, e: PatchEdit, p: nat) {
    e.oldText != [] && OccursAt(source, e.oldText, p)
  }

  lemma RewriteSkips(source: Bytes, edits: set<PatchEdit>, p: nat)
    requires p < |source| && forall e | e in edits :: !StartsAt(source, e, p)
    ensures Rewrite(source, edits, p) == [source[p]] + Rewrite(source, edits, p + 1)
  {
  }

  lemma RewriteReplaces(source: Bytes, edits: set<PatchEdit>, p: nat, x: PatchEdit)
    requires x in edits && StartsAt(source, x, p)
    requires forall e | e in edits && StartsAt(source, e, p) :: e == x
    ensures Rewrite(source, edits, p) == x.newText + Rewrite(source, edits, p + |x.oldText|)
  {
  }

  ghost predicate NoStart(source: Bytes, edits: set<PatchEdit>, p: nat, q: nat) {
    forall e, i: nat | e in edits && p <= i < q :: !StartsAt(source, e, i)
  }

  lemma {:induction false} RewriteGap(source: Bytes, edits: set<PatchEdit>, p: nat, q: nat)
    requires p <= q <= |source| && NoStart(source, edits, p, q)
    ensures Rewrite(source, edits, p) == source[p..q] + Rewrite(source, edits, q)
    decreases q - p
  {
    if p == q {
      assert source[p..q] == [];
    } else {
      RewriteGap(source, edits, p + 1, q);
      RewriteSkips(source, edits, p);
      ConsSlice(source, p, q, Rewrite(source, edits, q));
    }
  }

  lemma ConsSlice<T>(s: seq<T>, p: nat, q: nat, rest: seq<T>)
    requires p < q <= |s|
    ensures [s[p]] + (s[p + 1..q] + rest) == s[p..q] + rest
  {
  }

  lemma NoStartBetween(source: Bytes, s: seq<Resolved>, edits: set<PatchEdit>, p: nat, q: nat)
    requires Layout(source, s, edits)
    requires forall i | 0 <= i < |s| :: !(p <= s[i].range.start < q)
    ensures NoStart(source, edits, p, q)
  {
    forall e, i: nat | e in edits && p <= i < q
      ensures !StartsAt(source, e, i)
    {
      if StartsAt(source, e, i) {
        var k := OccurrenceIsPlaced(source, s, edits, e, i);
      }
    }
  }

  lemma RewriteEdit(source: Bytes, s: seq<Resolved>, edits: set<PatchEdit>, i: nat)
    requires Layout(source, s, edits) && i < |s|
    ensures s[i].range.start < s[i].range.end <= |source|
    ensures Rewrite(source, edits, s[i].range.start) ==
            s[i].edit.newText + Rewrite(source, edits, s[i].range.end)
  {
    hide Layout, Rewrite, StartsAt;
    var x := s[i];
    LayoutFacts(source, s, edits, i);
    forall e | e in edits && StartsAt(source, e, x.range.start)
      ensures e == x.edit
    {
      OnlyOneStarts(source, s, edits, i, e);
    }
    RewriteReplaces(source, edits, x.range.start, x.edit);
  }

  lemma LayoutFacts(source: Bytes, s: seq<Resolved>, edits: set<PatchEdit>, i: nat)
    requires Layout(source, s, edits) && i < |s|
    ensures s[i].range.start < s[i].range.end <= |source| && s[i].range.end == s[i].range.start + |s[i].edit.oldText|
    ensures s[i].edit in edits && StartsAt(source, s[i].edit, s[i].range.start)
    ensures forall j | i < j < |s| :: s[i].range.end <= s[j].range.start
  {
    assert PlacedOne(source, s[i]);
    PlacedIsInPlan(s, edits, i);
    forall j | i < j < |s|
      ensures s[i].range.end <= s[j].range.start
    {
      AdjacentSuffices(source, s, i, j);
    }
  }

  lemma OnlyOneStarts(source: Bytes, s: seq<Resolved>, edits: set<PatchEdit>, i: nat, e: PatchEdit)
    requires Layout(source, s, edits) && i < |s| && e in edits && StartsAt(source, e, s[i].range.start)
    ensures e == s[i].edit
  {
    var j := OccurrenceIsPlaced(source, s, edits, e, s[i].range.start);
    hide Layout, OccursAt;
    LayoutFacts(source, s, edits, i);
    LayoutFacts(source, s, edits, j);
  }

  /** Where the part of the source that `s[k..]` rewrites begins. */
  ghost function Cut(source: Bytes, s: seq<Resolved>, k: nat): nat
    requires k <= |s|
  {
    if k == |s| then |source| else s[k].range.start
  }

  /** The splice invariant one edit further left. */
  lemma RewriteStep(source: Bytes, s: seq<Resolved>, edits: set<PatchEdit>, k: nat)
    requires Layout(source, s, edits) && 0 < k <= |s| && Sorted(ByStart, s)
    ensures
      var x, cut := s[k - 1], Cut(source, s, k);
      && x.range.start < x.range.end <= cut <= |source|
      && Rewrite(source, edits, x.range.start) ==
         x.edit.newText + (source[x.range.end..cut] + Rewrite(source, edits, cut))
  {
    hide Rewrite, StartsAt, NoStart, Sorted, AdjacentClash, Placed, EditsOf;
    var x, cut := s[k - 1], Cut(source, s, k);
    RewriteEdit(source, s, edits, k - 1);
    LayoutFacts(source, s, edits, k - 1);
    if k < |s| {
      LayoutFacts(source, s, edits, k);
    }
    NoneBetween(source, s, k);
    NoStartBetween(source, s, edits, x.range.end, cut);
    hide Layout;
    RewriteGap(source, edits, x.range.end, cut);
  }

  lemma NoneBetween(source: Bytes, s: seq<Resolved>, k: nat)
    requires Placed(source, s) && Sorted(ByStart, s) && 0 < k <= |s|
    ensures forall i | 0 <= i < |s| :: !(s[k - 1].range.end <= s[i].range.start < Cut(source, s, k))
  {
    assert PlacedOne(source, s[k - 1]);
    hide Placed;
    forall i | 0 <= i < |s|
      ensures !(s[k - 1].range.end <= s[i].range.start < Cut(source, s, k))
    {
      if i < k - 1 {
        assert ByStart(s[i], s[k - 1]);
      } else if i > k {
        assert ByStart(s[k], s[i]);
      }
    }
  }

  lemma RewriteHead(source: Bytes, s: seq<Resolved>, edits: set<PatchEdit>)
    requires Layout(source, s, edits) && Sorted(ByStart, s)
    ensures Cut(source, s, 0) <= |source|
    ensures Rewrite(source, edits, 0) == source[..Cut(source, s, 0)] + Rewrite(source, edits, Cut(source, s, 0))
  {
    var cut := Cut(source, s, 0);
    if s != [] {
      RewriteEdit(source, s, edits, 0);
    }
    forall i | 0 <= i < |s|
      ensures !(0 <= s[i].range.start < cut)
    {
      if i > 0 {
        assert ByStart(s[0], s[i]);
      }
    }
    NoStartBetween(source, s, edits, 0, cut);
    RewriteGap(source, edits, 0, cut);
    assert source[0..cut] == source[..cut];
  }

  /** Size of the rewritten tail; in particular the removed bytes fit in the source. */
  lemma {:induction false} RewriteTailSize(source: Bytes, s: seq<Resolved>, edits: set<PatchEdit>, k: nat)
    requires Layout(source, s, edits) && Sorted(ByStart, s) && k <= |s|
    ensures
      var cut := Cut(source, s, k);
      && cut <= |source| && TotalOld(EditsOf(s)[k..]) <= |source| - cut
      && |Rewrite(source, edits, cut)| ==
         |source| - cut - TotalOld(EditsOf(s)[k..]) + TotalNew(EditsOf(s)[k..])
    decreases |s| - k
  {
    if k < |s| {
      RewriteTailSize(source, s, edits, k + 1);
      RewriteStep(source, s, edits, k + 1);
      assert PlacedOne(source, s[k]);
      assert EditsOf(s)[k..][1..] == EditsOf(s)[k + 1..];
    }
  }

  lemma RewriteStepValid(source: Bytes, s: seq<Resolved>, edits: set<PatchEdit>, k: nat)
    requires Layout(source, s, edits) && Sorted(ByStart, s) && TextOk(source, s) && k < |s|
    requires Valid(Rewrite(source, edits, Cut(source, s, k + 1)))
    ensures Valid(Rewrite(source, edits, Cut(source, s, k)))
  {
    hide Rewrite, Valid, HeadLength;
    RewriteStep(source, s, edits, k + 1);
    CutIsBoundary(source, s, k + 1);
    hide Layout, Sorted;
    var x, cut := s[k], Cut(source, s, k + 1);
    assert TextOne(source, x);
    ValidSlice(source, x.range.end, cut);
    ValidThree(x.edit.newText, source[x.range.end..cut], Rewrite(source, edits, cut));
  }

  lemma {:induction false} RewriteTailValid(source: Bytes, s: seq<Resolved>, edits: set<PatchEdit>, k: nat)
    requires Layout(source, s, edits) && Sorted(ByStart, s) && TextOk(source, s) && k <= |s|
    ensures Valid(Rewrite(source, edits, Cut(source, s, k)))
    decreases |s| - k
  {
    hide Layout, Sorted, TextOk, Rewrite, Valid, HeadLength;
    if k == |s| {
      RewriteEnd(source, edits);
    } else {
      RewriteTailValid(source, s, edits, k + 1);
      RewriteStepValid(source, s, edits, k);
    }
  }

  lemma RewriteEnd(source: Bytes, edits: set<PatchEdit>)
    ensures Rewrite(source, edits, |source|) == [] && Valid([])
  {
  }

  lemma ValidThree(a: Bytes, b: Bytes, c: Bytes)
    requires Valid(a) && Valid(b) && Valid(c)
    ensures Valid(a + (b + c))
  {
    ValidConcat(b, c);
    ValidConcat(a, b + c);
  }

  lemma CutIsBoundary(source: Bytes, s: seq<Resolved>, k: nat)
    requires TextOk(source, s) && k <= |s|
    ensures IsBoundary(source, Cut(source, s, k))
  {
    if k < |s| {
      assert TextOne(source, s[k]);
    }
  }

  /** `String::replace_range`, which panics off a character boundary. */
  function ReplaceRange(s: Bytes, range: Range, text: Bytes): Bytes
    requires range.start <= range.end <= |s|
    requires IsBoundary(s, range.start) && IsBoundary(s, range.end)
  {
    s[..range.start] + text + s[range.end..]
  }

  /** Replacing right to left never cuts a character, although later text has already changed. */
  lemma {:induction false} SpliceAtBoundaries(source: Bytes, s: seq<Resolved>, edits: set<PatchEdit>, k: nat, result: Bytes)
    requires Layout(source, s, edits) && Sorted(ByStart, s) && TextOk(source, s) && 0 < k <= |s|
    requires Cut(source, s, k) <= |source|
    requires result == source[..Cut(source, s, k)] + Rewrite(source, edits, Cut(source, s, k))
    ensures s[k - 1].range.start < s[k - 1].range.end <= Cut(source, s, k)
    ensures IsBoundary(result, s[k - 1].range.start) && IsBoundary(result, s[k - 1].range.end)
  {
    var x, cut := s[k - 1], Cut(source, s, k);
    RewriteStep(source, s, edits, k);
    RewriteTailValid(source, s, edits, k);
    CutIsBoundary(source, s, k);
    assert TextOne(source, x);
    ValidSplit(source, cut);
    ValidConcat(source[..cut], Rewrite(source, edits, cut));
  }

  /** The failure of the first edit that does not occur exactly once. */
  ghost predicate FirstBadContext(source: Bytes, edits: seq<PatchEdit>, error: PatchFailure) {
    exists i | 0 <= i < |edits| ::
      && AllOnce(source, multiset(edits[..i]))
      && error == ContextError(source, edits[i])
      && !OccursOnce(source, edits[i])
  }

  lemma ResolveOne(source: Bytes, e: PatchEdit)
    requires Valid(source) && e.oldText != [] && Valid(e.oldText) && Valid(e.newText)
    ensures UniqueRange(source, e.oldText).Success? <==> OccursOnce(source, e)
    ensures UniqueRange(source, e.oldText).Success? ==>
      var x := Resolved(UniqueRange(source, e.oldText).value, e);
      PlacedOne(source, x) && TextOne(source, x)
    ensures UniqueRange(source, e.oldText).Failure? ==>
      UniqueRange(source, e.oldText).error == ContextError(source, e)
  {
    UniqueRangeExact(source, e.oldText);
    if UniqueRange(source, e.oldText).Success? {
      assert OnlyAt(source, e.oldText, UniqueRange(source, e.oldText).value.start);
    }
  }

  ghost function ContextError(source: Bytes, e: PatchEdit): PatchFailure {
    if OccursNowhere(source, e.oldText) then ContextMissing else ContextAmbiguous
  }

  lemma AllOnceExtends(source: Bytes, edits: seq<PatchEdit>, i: nat)
    requires i < |edits|
    ensures AllOnce(source, multiset(edits[..i + 1])) <==>
            AllOnce(source, multiset(edits[..i])) && OccursOnce(source, edits[i])
    ensures AllOnce(source, multiset(edits)) ==> OccursOnce(source, edits[i])
  {
    assert edits[..i + 1] == edits[..i] + [edits[i]];
    assert edits[i] in multiset(edits);
  }

  lemma PlacedAppend(source: Bytes, s: seq<Resolved>, x: Resolved)
    requires Placed(source, s) && TextOk(source, s) && PlacedOne(source, x) && TextOne(source, x)
    ensures Placed(source, s + [x]) && TextOk(source, s + [x])
    ensures EditsOf(s + [x]) == EditsOf(s) + [x.edit]
  {
  }

  lemma FirstBad(source: Bytes, edits: seq<PatchEdit>, i: nat, error: PatchFailure)
    requires i < |edits| && AllOnce(source, multiset(edits[..i])) && !OccursOnce(source, edits[i])
    requires error == ContextError(source, edits[i])
    ensures FirstBadContext(source, edits, error) && !AllOnce(source, multiset(edits))
  {
    AllOnceExtends(source, edits, i);
  }

  /** The first loop of `apply_exact_edits`. */
  method ResolveEdits(source: Bytes, edits: seq<PatchEdit>) returns (r: Result<seq<Resolved>, PatchFailure>)
    requires Valid(source) && WellFormedEdits(edits)
    ensures r.Success? <==> AllOnce(source, multiset(edits))
    ensures r.Success? ==> EditsOf(r.value) == edits && Placed(source, r.value) && TextOk(source, r.value)
    ensures r.Failure? ==> FirstBadContext(source, edits, r.error)
  {
    hide FindFrom, UniqueRange;
    var resolved: seq<Resolved> := [];
    for i := 0 to |edits|
      invariant EditsOf(resolved) == edits[..i]
      invariant Placed(source, resolved) && TextOk(source, resolved)
      invariant AllOnce(source, multiset(edits[..i]))
    {
      var e := edits[i];
      assert e in edits;
      ResolveOne(source, e);
      AllOnceExtends(source, edits, i);
      var range := UniqueRange(source, e.oldText);
      if range.Failure? {
        FirstBad(source, edits, i, range.error);
        return Failure(range.error);
      }
      PlacedAppend(source, resolved, Resolved(range.value, e));
      resolved := resolved + [Resolved(range.value, e)];
    }
    assert edits[..|edits|] == edits;
    return Success(resolved);
  }

  /** The last loop of `apply_exact_edits`: splice right to left. */
  method Splice(source: Bytes, sorted: seq<Resolved>) returns (result: Bytes)
    requires Placed(source, sorted) && !AdjacentClash(sorted) && Sorted(ByStart, sorted) && TextOk(source, sorted)
    ensures result == Rewrite(source, EditSet(multiset(EditsOf(sorted))), 0)
  {
    ghost var plan := EditSet(multiset(EditsOf(sorted)));
    result := source;
    for k := |sorted| downto 0
      invariant Cut(source, sorted, k) <= |source|
      invariant result == source[..Cut(source, sorted, k)] + Rewrite(source, plan, Cut(source, sorted, k))
    {
      ghost var cut, x := Cut(source, sorted, k + 1), sorted[k];
      RewriteStep(source, sorted, plan, k + 1);
      SpliceAtBoundaries(source, sorted, plan, k + 1, result);
      ReplaceInPrefix(source, cut, Rewrite(source, plan, cut), x.range, x.edit.newText);
      result := ReplaceRange(result, sorted[k].range, sorted[k].edit.newText);
    }
    RewriteHead(source, sorted, plan);
  }

  lemma ReplaceInPrefix(source: Bytes, cut: nat, rest: Bytes, range: Range, text: Bytes)
    requires range.start <= range.end <= cut <= |source|
    ensures
      var s := source[..cut] + rest;
      s[..range.start] + text + s[range.end..] ==
      source[..range.start] + (text + (source[range.end..cut] + rest))
  {
  }

  /** What the sorted list says about size and validity of the rewrite. */
  lemma SortedFacts(source: Bytes, resolved: seq<Resolved>, sorted: seq<Resolved>)
    requires sorted == Sort(ByStart, resolved)
    requires Placed(source, resolved) && TextOk(source, resolved)
    ensures Sorted(ByStart, sorted) && Placed(source, sorted) && TextOk(source, sorted)
    ensures multiset(EditsOf(sorted)) == multiset(EditsOf(resolved))
    ensures TotalOld(EditsOf(sorted)) == TotalOld(EditsOf(resolved))
    ensures TotalNew(EditsOf(sorted)) == TotalNew(EditsOf(resolved))
  {
    SortSorted(ByStart, resolved);
    SameElements(sorted, resolved);
    forall i | 0 <= i < |sorted|
      ensures PlacedOne(source, sorted[i]) && TextOne(source, sorted[i])
    {
      assert sorted[i] in resolved;
    }
    EditsOfSort(resolved);
    TotalsPermute(EditsOf(sorted), EditsOf(resolved));
  }

  lemma RewriteFacts(source: Bytes, sorted: seq<Resolved>, edits: set<PatchEdit>)
    requires Layout(source, sorted, edits) && Sorted(ByStart, sorted) && TextOk(source, sorted)
    ensures TotalOld(EditsOf(sorted)) <= |source|
    ensures |Rewrite(source, edits, 0)| == |source| - TotalOld(EditsOf(sorted)) + TotalNew(EditsOf(sorted))
    ensures Valid(Rewrite(source, edits, 0))
  {
    RewriteTailSize(source, sorted, edits, 0);
    RewriteTailValid(source, sorted, edits, 0);
    RewriteHead(source, sorted, edits);
    assert EditsOf(sorted)[0..] == EditsOf(sorted);
    CutIsBoundary(source, sorted, 0);
    ValidSplit(source, Cut(source, sorted, 0));
    ValidConcat(source[..Cut(source, sorted, 0)], Rewrite(source, edits, Cut(source, sorted, 0)));
  }

  /** Everything after the sort. */
  method ApplySorted(source: Bytes, sorted: seq<Resolved>) returns (r: Result<Bytes, PatchFailure>)
    requires Placed(source, sorted) && Sorted(ByStart, sorted) && TextOk(source, sorted)
    requires |source| <= USIZE_MAX
    ensures
      var edits := multiset(EditsOf(sorted));
      var size := |source| - TotalOld(EditsOf(sorted)) + TotalNew(EditsOf(sorted));
      && (r == Failure(OverlappingEdits) <==> !Separate(source, edits))
      && (r == Failure(ResultTooLarge) <==> Separate(source, edits) && size > MAX_ATOMIC_TEXT_BYTES)
      && (Separate(source, edits) ==> |Rewrite(source, EditSet(edits), 0)| == size)
      && (r.Success? ==> r.value == Rewrite(source, EditSet(edits), 0) && Valid(r.value))
      && (r.Failure? ==> r.error.OverlappingEdits? || r.error.ResultTooLarge?)
  {
    ClashIffNotSeparate(source, sorted);
    if AdjacentClash(sorted) {
      return Failure(OverlappingEdits);
    }
    RewriteFacts(source, sorted, EditSet(multiset(EditsOf(sorted))));
    CheckedSumExact(sorted, 0, 0);
    var removed := CheckedSum(OldLengths(sorted), 0);
    var inserted := CheckedSum(NewLengths(sorted), 0);
    if removed.None? || inserted.None? {
      return Failure(ResultTooLarge);
    }
    var size := CheckedSize(|source|, removed.value, inserted.value);
    if size.None? {
      return Failure(ResultTooLarge);
    }
    var result := Splice(source, sorted);
    return Success(result);
  }

  /** `apply_exact_edits` is simultaneous substitution: it succeeds exactly on applicable edits, and
      both the condition and the result depend on the multiset of edits only. */
  method ApplyExactEdits(source: Bytes, edits: seq<PatchEdit>) returns (r: Result<Bytes, PatchFailure>)
    requires Valid(source) && |source| <= USIZE_MAX && WellFormedEdits(edits)
    ensures r.Success? <==> Applicable(source, multiset(edits))
    ensures r.Success? ==>
      && r.value == Rewrite(source, EditSet(multiset(edits)), 0)
      && Valid(r.value)
      && |r.value| == |source| - TotalOld(edits) + TotalNew(edits) <= MAX_ATOMIC_TEXT_BYTES
    ensures r == Failure(OverlappingEdits) <==>
            AllOnce(source, multiset(edits)) && !Separate(source, multiset(edits))
    ensures r == Failure(ResultTooLarge) <==>
            && AllOnce(source, multiset(edits)) && Separate(source, multiset(edits))
            && |source| - TotalOld(edits) + TotalNew(edits) > MAX_ATOMIC_TEXT_BYTES
    ensures r.Failure? && (r.error.ContextMissing? || r.error.ContextAmbiguous?) ==>
            FirstBadContext(source, edits, r.error)
  {
    var resolved :- ResolveEdits(source, edits);
    var sorted := Sort(ByStart, resolved);
    SortedFacts(source, resolved, sorted);
    r := ApplySorted(source, sorted);
  }
}
