/** The answer of a search does not depend on the order in which directories list their entries. */
module QueryDeterminism {
  import opened Limits
  import opened Wrappers
  import opened Utf8
  import opened Sorting
  import opened Paths
  import opened QueryText
  import opened QuerySearch
  import QueryOutput
  import QueryOperations

  // ---- trees that differ in the order of listings ----

  ghost predicate SameNode(a: Node, b: Node) {
    if a.Dir? && b.Dir? then a.listable == b.listable && multiset(a.entries) == multiset(b.entries) else a == b
  }

  ghost predicate SameTree(a: Tree, b: Tree) {
    forall p :: SameNode(a(p), b(p))
  }

  lemma SameEntries(a: Node, b: Node, e: Candidate)
    requires SameNode(a, b)
    ensures a.Dir? <==> b.Dir?
    ensures a.Dir? ==> |a.entries| == |b.entries| && (e in a.entries <==> e in b.entries)
  {
    if a.Dir? {
      assert |multiset(a.entries)| == |a.entries| && |multiset(b.entries)| == |b.entries|;
      assert e in multiset(a.entries) <==> e in multiset(b.entries);
    }
  }

  lemma SameLeads(a: Tree, b: Tree, path: RelativePath, name: Component)
    requires SameTree(a, b)
    ensures Leads(a, path, name) <==> Leads(b, path, name)
  {
    hide PassedOver;
    SameEntries(a(path), b(path), Named(name));
  }

  lemma SameReached(a: Tree, b: Tree, start: RelativePath, p: RelativePath)
    requires SameTree(a, b)
    ensures Reached(a, start, p) <==> Reached(b, start, p)
  {
    hide Leads;
    forall k | |start| <= k < |p|
      ensures Leads(a, p[..k], p[k]) <==> Leads(b, p[..k], p[k])
    {
      SameLeads(a, b, p[..k], p[k]);
    }
  }

  lemma SameHits(a: Tree, b: Tree, start: RelativePath, query: Bytes, m: Match)
    requires SameTree(a, b) && GoodQuery(query)
    ensures IsHit(a, start, query, m) <==> IsHit(b, start, query, m)
  {
    hide Reached, FileMatches, WellFormed, Display, Utf8.Valid;
    forall p
      ensures HitAt(a, start, query, m, p) <==> HitAt(b, start, query, m, p)
    {
      SameReached(a, b, start, p);
      assert SameNode(a(p), b(p));
    }
  }

  lemma SameObstacle(a: Tree, b: Tree, start: RelativePath)
    requires SameTree(a, b)
    ensures Obstacle(a, start) <==> Obstacle(b, start)
  {
    hide Reached, PassedOver, Utf8.Valid;
    forall p
      ensures Reached(a, start, p) <==> Reached(b, start, p)
      ensures ObstacleAt(a, p) <==> ObstacleAt(b, p)
    {
      SameReached(a, b, start, p);
      assert SameNode(a(p), b(p));
      forall e
        ensures a(p).Dir? ==> (e in a(p).entries <==> e in b(p).entries)
      {
        SameEntries(a(p), b(p), e);
      }
    }
  }

  lemma SameTrouble(a: Tree, b: Tree, start: RelativePath, error: QueryFailure)
    requires SameTree(a, b)
    ensures Trouble(a, start, error) <==> Trouble(b, start, error)
  {
    hide Reached;
    forall p
      ensures Reached(a, start, p) <==> Reached(b, start, p)
      ensures TroubleAt(a, start, p, error) <==> TroubleAt(b, start, p, error)
    {
      SameReached(a, b, start, p);
      assert SameNode(a(p), b(p));
      SameEntries(a(p), b(p), Unreadable);
    }
  }

  lemma {:induction false} SameTotal(v: RelativePath -> nat, w: RelativePath -> nat, s: set<RelativePath>)
    requires forall p :: v(p) == w(p)
    ensures Total(v, s) == Total(w, s)
    decreases |s|
  {
    if s != {} {
      var p :| p in s;
      TotalAny(v, s, p);
      TotalAny(w, s, p);
      SameTotal(v, w, s - {p});
    }
  }

  lemma SameSmall(a: Tree, b: Tree, path: RelativePath, query: Bytes)
    requires SameTree(a, b) && GoodQuery(query)
    ensures QueryOperations.Small(a, path, query) <==> QueryOperations.Small(b, path, query)
  {
    hide Reached, IsHit, KeysApart, GoodQuery;
    forall p
      ensures EntriesAt(a)(p) == EntriesAt(b)(p) && BytesAt(a)(p) == BytesAt(b)(p)
      ensures Reached(a, path, p) <==> Reached(b, path, p)
    {
      assert SameNode(a(p), b(p));
      SameEntries(a(p), b(p), Unreadable);
      SameReached(a, b, path, p);
    }
    forall s
      ensures Total(EntriesAt(a), s) == Total(EntriesAt(b), s) && Total(BytesAt(a), s) == Total(BytesAt(b), s)
      ensures AllReached(a, path, s) <==> AllReached(b, path, s)
    {
      SameTotal(EntriesAt(a), EntriesAt(b), s);
      SameTotal(BytesAt(a), BytesAt(b), s);
    }
    forall m: Match
      ensures IsHit(a, path, query, m) <==> IsHit(b, path, query, m)
    {
      SameHits(a, b, path, query, m);
    }
    hide Total, EntriesAt, BytesAt, AllReached;
  }

  // ---- one answer ----

  /** What `SearchText` ensures when it succeeds. */
  ghost predicate IsAnswer(
    tree: Tree, path: RelativePath, query: Bytes, found: seq<Match>, shown: seq<Match>, truncated: bool)
    requires GoodQuery(query)
  {
    && KeysApart(found) && QueryOperations.AsManyAsFit(found, shown)
    && QueryOperations.Law(tree, path, query, true, found, shown, truncated)
  }

  lemma SameSort(a: seq<Match>, b: seq<Match>)
    requires KeysApart(a) && KeysApart(b) && forall m :: m in a <==> m in b
    ensures Sort(QueryOperations.MatchLe, a) == Sort(QueryOperations.MatchLe, b)
  {
    QueryOperations.SortedMatches(a);
    QueryOperations.SortedMatches(b);
    hide Sort, KeysApart;
    OneIncreasingOrder(Sort(QueryOperations.MatchLe, a), Sort(QueryOperations.MatchLe, b));
  }

  /** An increasing list is determined by what it holds. */
  lemma {:induction false} OneIncreasingOrder(a: seq<Match>, b: seq<Match>)
    requires QueryOperations.IncreasingKeys(a) && QueryOperations.IncreasingKeys(b) && forall m :: m in a <==> m in b
    ensures a == b
    decreases |a|
  {
    if a == [] {
      assert forall m :: m !in b;
      assert forall i | 0 <= i < |b| :: b[i] in b;
    } else {
      assert a[0] in b && (b != [] ==> b[0] in a);
      FirstIsLeast(a, b);
      FirstIsLeast(b, a);
      KeysDecide(a[0], b[0]);
      hide QueryOperations.MatchLe;
      RestHolds(a, b);
      OneIncreasingOrder(a[1..], b[1..]);
    }
  }

  lemma FirstIsLeast(a: seq<Match>, b: seq<Match>)
    requires QueryOperations.IncreasingKeys(a) && a != [] && b != [] && b[0] in a
    ensures a[0] == b[0] || (QueryOperations.MatchLe(a[0], b[0]) && !SameKey(a[0], b[0]))
  {
    hide QueryOperations.MatchLe;
    var i :| 0 <= i < |a| && a[i] == b[0];
  }

  lemma KeysDecide(a: Match, b: Match)
    requires a == b || (QueryOperations.MatchLe(a, b) && !SameKey(a, b))
    requires a == b || (QueryOperations.MatchLe(b, a) && !SameKey(b, a))
    ensures a == b
  {
    LexTotal(a.path, b.path);
    hide LexLe;
  }

  lemma RestHolds(a: seq<Match>, b: seq<Match>)
    requires QueryOperations.IncreasingKeys(a) && QueryOperations.IncreasingKeys(b) && forall m :: m in a <==> m in b
    requires a != [] && b != [] && a[0] == b[0]
    ensures QueryOperations.IncreasingKeys(a[1..]) && QueryOperations.IncreasingKeys(b[1..])
    ensures forall m :: m in a[1..] <==> m in b[1..]
  {
    hide QueryOperations.MatchLe;
    forall m
      ensures m in a[1..] <==> m in a && !SameKey(a[0], m)
      ensures m in b[1..] <==> m in b && !SameKey(b[0], m)
    {
      OutsideFirst(a, m);
      OutsideFirst(b, m);
    }
  }

  lemma OutsideFirst(s: seq<Match>, m: Match)
    requires QueryOperations.IncreasingKeys(s) && s != []
    ensures m in s[1..] <==> m in s && !SameKey(s[0], m)
  {
    hide QueryOperations.MatchLe;
    if m in s[1..] {
      var i :| 0 <= i < |s[1..]| && s[1..][i] == m;
      assert s[i + 1] == m;
    }
    if m in s && !SameKey(s[0], m) {
      var i :| 0 <= i < |s| && s[i] == m;
      assert s[1..][i - 1] == m;
    }
  }

  lemma SameLength(a: seq<Match>, b: seq<Match>)
    requires KeysApart(a) && KeysApart(b) && forall m :: m in a <==> m in b
    ensures |a| == |b|
  {
    SameSort(a, b);
    QueryOperations.SortedMatches(a);
    QueryOperations.SortedMatches(b);
  }

  /** Where no budget can run out, two searches of trees that differ only in the order of their listings give
      the same matches, with the same mark; and the one fails exactly when the other does. */
  lemma {:induction false} ListingOrderIsIrrelevant(
    a: Tree, b: Tree, path: RelativePath, query: Bytes, found: seq<Match>, shown: seq<Match>, truncated: bool,
    found': seq<Match>, shown': seq<Match>, truncated': bool)
    requires GoodQuery(query) && SameTree(a, b) && QueryOperations.Small(a, path, query)
    ensures (forall e :: !Trouble(a, path, e)) <==> forall e :: !Trouble(b, path, e)
    ensures QueryOperations.Small(b, path, query)
    ensures IsAnswer(a, path, query, found, shown, truncated) && IsAnswer(b, path, query, found', shown', truncated') ==>
      shown == shown' && truncated == truncated'
  {
    SameSmall(a, b, path, query);
    SameObstacle(a, b, path);
    forall e: QueryFailure
      ensures Trouble(a, path, e) <==> Trouble(b, path, e)
    {
      SameTrouble(a, b, path, e);
    }
    hide SameTree, Trouble, Obstacle, KeysApart, QueryOperations.Small, GoodQuery, Sort;
    if IsAnswer(a, path, query, found, shown, truncated) && IsAnswer(b, path, query, found', shown', truncated') {
      forall m
        ensures m in found <==> m in found'
      {
        SameHits(a, b, path, query, m);
      }
      hide IsHit;
      SameSort(found, found');
      SameLength(found, found');
      SameFit(Sort(QueryOperations.MatchLe, found), shown, shown');
    }
  }

  lemma SameFit(s: seq<Match>, a: seq<Match>, b: seq<Match>)
    requires a <= s && b <= s
    requires QueryOutput.LongestFit(QueryOperations.MatchValues(s), |a|, QueryOutput.MAX_QUERY_OUTPUT_CANONICAL_BYTES)
    requires QueryOutput.LongestFit(QueryOperations.MatchValues(s), |b|, QueryOutput.MAX_QUERY_OUTPUT_CANONICAL_BYTES)
    ensures a == b
  {
    QueryOutput.OneLongestFit(QueryOperations.MatchValues(s), |a|, |b|, QueryOutput.MAX_QUERY_OUTPUT_CANONICAL_BYTES);
    hide QueryOutput.LongestFit;
    assert a == s[..|a|] && b == s[..|b|];
  }
}
