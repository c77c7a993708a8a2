/** Bounded recursive search of query.rs over a fixed directory tree. */
module QuerySearch {
  import opened Limits
  import opened Wrappers
  import opened Utf8
  import opened Sorting
  import opened Paths
  import opened QueryText

  const MAX_SEARCH_VISITED_ENTRIES: nat := 4096
  const MAX_SEARCH_FILE_BYTES: nat := 256 * 1024
  const MAX_SEARCH_TOTAL_BYTES: nat := 8 * 1024 * 1024

  datatype QueryFailure = Open | Read | TooManyEntries | Limit

  /** One item of a directory listing. */
  datatype Candidate = Unreadable | NotUnicode | Named(name: Component)

  /** What opening a path finds. `length` is the reported size, `content` what reading delivers. */
  datatype Node =
    | Dir(listable: bool, entries: seq<Candidate>)
    | File(hasMetadata: bool, length: nat, readable: bool, content: Bytes)
    | Unopenable

  /** A tree answers for every path, so it may be infinitely deep (a cycle seen through its paths). */
  type Tree = RelativePath -> Node

  /** What the operating system guarantees of listings: names without slashes, each name once. */
  ghost predicate ProperListing(entries: seq<Candidate>) {
    && (forall i | 0 <= i < |entries| && entries[i].Named? :: SLASH !in entries[i].name)
    && (forall i, j | 0 <= i < j < |entries| && entries[i].Named? :: entries[i] != entries[j])
  }

  ghost predicate ProperTree(tree: Tree) {
    forall p | tree(p).Dir? :: ProperListing(tree(p).entries)
  }

  predicate IsVersionControl(name: Component) {
    name == Ascii(".git") || name == Ascii(".hg") || name == Ascii(".svn")
  }

  // ---- the meaning of a search ----

  /** An item of a listing that the search passes over. */
  predicate PassedOver(path: RelativePath, e: Candidate) {
    e.Named? ==> IsVersionControl(e.name) || JoinPath(path, e.name).Failure?
  }

  /** `name` is listed in the directory `path` and not passed over. */
  ghost predicate Leads(tree: Tree, path: RelativePath, name: Component) {
    tree(path).Dir? && Named(name) in tree(path).entries && !PassedOver(path, Named(name))
  }

  /** `p` is reached from `start` through listed names that are not passed over. */
  ghost predicate Reached(tree: Tree, start: RelativePath, p: RelativePath) {
    start <= p && forall k | |start| <= k < |p| :: Leads(tree, p[..k], p[k])
  }

  /** A file the search reads completely and understands. */
  ghost predicate PlainFile(node: Node) {
    node.File? && node.hasMetadata && node.readable && node.length <= MAX_SEARCH_FILE_BYTES && Valid(node.content)
  }

  /** `m` reports an occurrence of the query in the file at `p` below `start`. */
  ghost predicate HitAt(tree: Tree, start: RelativePath, query: Bytes, m: Match, p: RelativePath)
    requires GoodQuery(query)
  {
    && Reached(tree, start, p) && WellFormed(p)
    && PlainFile(tree(p))
    && m in FileMatches(Display(p), tree(p).content, query)
  }

  ghost predicate IsHit(tree: Tree, start: RelativePath, query: Bytes, m: Match)
    requires GoodQuery(query)
  {
    exists p :: HitAt(tree, start, query, m, p)
  }

  /** The file has not grown since its length was reported. */
  ghost predicate Settled(node: Node) {
    node.File? ==> |node.content| <= node.length
  }

  ghost predicate ObstacleAt(tree: Tree, p: RelativePath) {
    match tree(p)
    case Dir(_, entries) => exists e | e in entries :: PassedOver(p, e)
    case File(_, length, _, content) => length > MAX_SEARCH_FILE_BYTES || !Valid(content)
    case Unopenable => true
  }

  /** Something below `start` that no search can look at completely. */
  ghost predicate Obstacle(tree: Tree, start: RelativePath) {
    exists p :: Reached(tree, start, p) && ObstacleAt(tree, p)
  }

  /** Why a search fails: a path that is no directory to begin with or a file without metadata cannot be
      opened, and a listing, one of its items or a file cannot be read. */
  ghost predicate TroubleAt(tree: Tree, start: RelativePath, p: RelativePath, error: QueryFailure) {
    match tree(p)
    case Dir(listable, entries) => error.Read? && (!listable || Unreadable in entries)
    case File(_, _, _, _) =>
      (error.Open? && p == start) || BadFile(tree(p), error)
    case Unopenable => error.Open? && p == start
  }

  ghost predicate Trouble(tree: Tree, start: RelativePath, error: QueryFailure) {
    exists p :: Reached(tree, start, p) && TroubleAt(tree, start, p, error)
  }

  lemma TroubleHere(tree: Tree, path: RelativePath, error: QueryFailure)
    requires TroubleAt(tree, path, path, error)
    ensures Trouble(tree, path, error)
  {
    assert Reached(tree, path, path);
  }

  lemma TroubleBelow(tree: Tree, path: RelativePath, name: Component, error: QueryFailure)
    requires Leads(tree, path, name) && tree(path + [name]).Dir?
    requires Trouble(tree, path + [name], error)
    ensures Trouble(tree, path, error)
  {
    var child := path + [name];
    var p :| Reached(tree, child, p) && TroubleAt(tree, child, p, error);
    ReachedStep(tree, path, name, p);
    assert TroubleAt(tree, path, p, error);
  }

  /** A file that cannot be examined or read. */
  predicate BadFile(node: Node, error: QueryFailure) {
    node.File? && ((error.Open? && !node.hasMetadata)
       || (error.Read? && node.hasMetadata && node.length <= MAX_SEARCH_FILE_BYTES && !node.readable))
  }

  lemma TroubleFile(tree: Tree, path: RelativePath, name: Component, error: QueryFailure)
    requires Leads(tree, path, name) && BadFile(tree(path + [name]), error)
    ensures Trouble(tree, path, error)
  {
    OneStep(tree, path, name);
    assert TroubleAt(tree, path, path + [name], error);
  }

  // ---- what a tree holds ----

  ghost function Total(w: RelativePath -> nat, s: set<RelativePath>): nat {
    if s == {} then 0
    else
      var p :| p in s;
      w(p) + Total(w, s - {p})
  }

  lemma {:induction false} TotalAny(w: RelativePath -> nat, s: set<RelativePath>, p: RelativePath)
    requires p in s
    ensures Total(w, s) == w(p) + Total(w, s - {p})
    decreases |s|
  {
    var q :| q in s && Total(w, s) == w(q) + Total(w, s - {q});
    if q != p {
      TotalAny(w, s - {q}, p);
      TotalAny(w, s - {p}, q);
      assert s - {q} - {p} == s - {p} - {q};
    }
  }

  lemma {:induction false} TotalUnion(w: RelativePath -> nat, a: set<RelativePath>, b: set<RelativePath>)
    requires a !! b
    ensures Total(w, a + b) == Total(w, a) + Total(w, b)
    decreases |a|
  {
    if a == {} {
      assert a + b == b;
    } else {
      var p :| p in a;
      TotalUnion(w, a - {p}, b);
      TotalAny(w, a, p);
      TotalAny(w, a + b, p);
      assert a + b - {p} == (a - {p}) + b;
    }
  }

  ghost function EntriesAt(tree: Tree): RelativePath -> nat {
    p => if tree(p).Dir? then |tree(p).entries| else 0
  }

  ghost function BytesAt(tree: Tree): RelativePath -> nat {
    p => if tree(p).File? then tree(p).length else 0
  }

  function ContentSize(node: Node): nat {
    if node.File? then |node.content| else 0
  }

  ghost predicate AllReached(tree: Tree, start: RelativePath, s: set<RelativePath>) {
    forall p | p in s :: Reached(tree, start, p)
  }

  /** At least 4096 entries below `start`, at least 8 MiB of files, at least 128 hits. */
  ghost predicate ManyEntries(tree: Tree, start: RelativePath) {
    exists s :: AllReached(tree, start, s) && Total(EntriesAt(tree), s) >= MAX_SEARCH_VISITED_ENTRIES
  }

  ghost predicate ManyBytes(tree: Tree, start: RelativePath) {
    exists s :: AllReached(tree, start, s) && Total(BytesAt(tree), s) >= MAX_SEARCH_TOTAL_BYTES
  }

  ghost predicate ManyHits(tree: Tree, start: RelativePath, query: Bytes)
    requires GoodQuery(query)
  {
    exists s :: |s| >= MAX_SEARCH_MATCHES && KeysApart(s) && forall m | m in s :: IsHit(tree, start, query, m)
  }

  /** The budgets taken between two moments of a search below `path` are paid for by the nodes it
      touched; `ends` says that the byte budget was found too small in between. */
  ghost predicate Paid(
    tree: Tree, path: RelativePath, touched: set<RelativePath>, v0: nat, v1: nat, s0: nat, s1: nat, ends: bool)
  {
    && AllReached(tree, path, touched)
    && v1 <= v0 + Total(EntriesAt(tree), touched)
    && s1 <= s0 + Total(BytesAt(tree), touched)
    && (ends ==> s0 + Total(BytesAt(tree), touched) >= MAX_SEARCH_TOTAL_BYTES)
  }

  /** The byte budget ran out at this file: it was used up, or the file is longer than what was left. */
  predicate RanOut(node: Node, s0: nat, s1: nat) {
    s1 == MAX_SEARCH_TOTAL_BYTES || (node.File? && node.length > MAX_SEARCH_TOTAL_BYTES - s0)
  }

  lemma PaidNothing(tree: Tree, path: RelativePath, v: nat, s: nat)
    ensures Paid(tree, path, {}, v, v, s, s, false)
  {
  }

  lemma TotalOne(w: RelativePath -> nat, p: RelativePath)
    ensures Total(w, {p}) == w(p)
  {
    TotalAny(w, {p}, p);
    assert {p} - {p} == {};
  }

  lemma PaidHere(tree: Tree, path: RelativePath, v0: nat, v1: nat, s: nat)
    requires tree(path).Dir? && v1 <= v0 + |tree(path).entries|
    ensures Paid(tree, path, {path}, v0, v1, s, s, false)
  {
    TotalOne(EntriesAt(tree), path);
    assert Reached(tree, path, path);
  }

  lemma PaidFile(tree: Tree, path: RelativePath, name: Component, v: nat, s0: nat, s1: nat, ends: bool)
    requires Leads(tree, path, name)
    requires Settled(tree(path + [name])) && s1 <= s0 + ContentSize(tree(path + [name]))
    requires ends ==> RanOut(tree(path + [name]), s0, s1)
    ensures Paid(tree, path, {path + [name]}, v, v, s0, s1, ends)
  {
    var child := path + [name];
    OneStep(tree, path, name);
    TotalOne(BytesAt(tree), child);
    TotalOne(EntriesAt(tree), child);
  }

  lemma PaidChild(
    tree: Tree, path: RelativePath, name: Component, touched: set<RelativePath>,
    v0: nat, v1: nat, s0: nat, s1: nat, ends: bool)
    requires Leads(tree, path, name)
    requires Paid(tree, path + [name], touched, v0, v1, s0, s1, ends)
    ensures Paid(tree, path, touched, v0, v1, s0, s1, ends)
    ensures forall p | p in touched :: path + [name] <= p
  {
    forall p | p in touched
      ensures path + [name] <= p && Reached(tree, path, p)
    {
      ReachedExtends(tree, path + [name], p);
      ReachedStep(tree, path, name, p);
    }
  }

  lemma PaidTogether(
    tree: Tree, path: RelativePath, a: set<RelativePath>, b: set<RelativePath>,
    v0: nat, v1: nat, v2: nat, s0: nat, s1: nat, s2: nat, x: bool, y: bool)
    requires Paid(tree, path, a, v0, v1, s0, s1, x) && Paid(tree, path, b, v1, v2, s1, s2, y) && a !! b
    ensures Paid(tree, path, a + b, v0, v2, s0, s2, x || y)
  {
    TotalUnion(EntriesAt(tree), a, b);
    TotalUnion(BytesAt(tree), a, b);
  }

  /** What was touched below the first names, and what is touched below another. */
  ghost predicate Beneath(path: RelativePath, names: seq<Component>, k: nat, touched: set<RelativePath>)
    requires k <= |names|
  {
    forall p | p in touched :: exists i | 0 <= i < k :: path + [names[i]] <= p
  }

  lemma BeneathNext(
    path: RelativePath, names: seq<Component>, k: nat, touched: set<RelativePath>, more: set<RelativePath>)
    requires k < |names| && forall i, j | 0 <= i < j < |names| :: names[i] != names[j]
    requires Beneath(path, names, k, touched) && forall p | p in more :: path + [names[k]] <= p
    ensures touched !! more && Beneath(path, names, k + 1, touched + more)
  {
    forall p | p in touched
      ensures p !in more
    {
      var i :| 0 <= i < k && path + [names[i]] <= p;
      assert p[|path|] == names[i];
    }
    forall p | p in touched + more
      ensures exists i | 0 <= i < k + 1 :: path + [names[i]] <= p
    {
      if p in touched {
        var i :| 0 <= i < k && path + [names[i]] <= p;
      } else {
        assert path + [names[k]] <= p;
      }
    }
  }

  lemma BeneathIsDeeper(path: RelativePath, names: seq<Component>, k: nat, touched: set<RelativePath>)
    requires k <= |names| && Beneath(path, names, k, touched)
    ensures path !in touched
  {
    forall p | p in touched
      ensures |p| > |path|
    {
      var i :| 0 <= i < k && path + [names[i]] <= p;
    }
  }

  lemma ObstacleHere(tree: Tree, path: RelativePath)
    requires ObstacleAt(tree, path)
    ensures Obstacle(tree, path)
  {
    assert Reached(tree, path, path);
  }

  lemma ObstacleListed(tree: Tree, path: RelativePath)
    requires tree(path).Dir?
    ensures (exists e | e in tree(path).entries :: PassedOver(path, e)) ==> Obstacle(tree, path)
  {
    if exists e | e in tree(path).entries :: PassedOver(path, e) {
      ObstacleHere(tree, path);
    }
  }

  lemma ObstacleBelow(tree: Tree, path: RelativePath, name: Component)
    requires Leads(tree, path, name)
    ensures Obstacle(tree, path + [name]) ==> Obstacle(tree, path)
  {
    hide ObstacleAt;
    if Obstacle(tree, path + [name]) {
      var p :| Reached(tree, path + [name], p) && ObstacleAt(tree, p);
      ReachedStep(tree, path, name, p);
    }
  }

  ghost predicate FromChild(tree: Tree, path: RelativePath, query: Bytes, name: Component, m: Match)
    requires GoodQuery(query)
  {
    exists p :: HitAt(tree, path, query, m, p) && path + [name] <= p
  }

  /** Nothing below `name` makes the search fail. */
  ghost predicate ChildUntroubled(tree: Tree, path: RelativePath, name: Component) {
    forall p, e | Reached(tree, path, p) && path + [name] <= p :: !TroubleAt(tree, path, p, e)
  }

  /** The name is not passed over, and nothing below it stands in the way. */
  ghost predicate ChildClear(tree: Tree, path: RelativePath, name: Component) {
    && !PassedOver(path, Named(name))
    && forall p | Reached(tree, path, p) && path + [name] <= p :: !ObstacleAt(tree, p)
  }

  /** Nothing is found, and nothing goes wrong, below a name that is passed over. */
  lemma NothingBehind(tree: Tree, path: RelativePath, query: Bytes, name: Component)
    requires GoodQuery(query) && PassedOver(path, Named(name))
    ensures forall m :: !FromChild(tree, path, query, name, m)
    ensures ChildUntroubled(tree, path, name)
  {
    hide PassedOver, TroubleAt, FileMatches, WellFormed, PlainFile;
    forall p | path + [name] <= p
      ensures !Reached(tree, path, p)
    {
      assert p[..|path|] == path && p[|path|] == name;
      assert !Leads(tree, path, name);
    }
  }

  lemma ReachedStep(tree: Tree, path: RelativePath, name: Component, p: RelativePath)
    requires Leads(tree, path, name) && path + [name] <= p
    ensures Reached(tree, path, p) <==> Reached(tree, path + [name], p)
  {
    assert path == p[..|path|] && name == p[|path|];
    if Reached(tree, path + [name], p) {
      forall k | |path| <= k < |p|
        ensures tree(p[..k]).Dir? && Named(p[k]) in tree(p[..k]).entries
      {
        assert k == |path| || |path + [name]| <= k;
      }
    }
  }

  lemma ChildOfReached(tree: Tree, path: RelativePath, p: RelativePath)
    requires Reached(tree, path, p) && p != path
    ensures |path| < |p| && Leads(tree, path, p[|path|]) && path + [p[|path|]] <= p
  {
    assert p[..|path|] == path;
  }

  /** The hits from a child are those of the subtree, or of the file, at the child. */
  lemma {:induction false} ChildHits(tree: Tree, path: RelativePath, query: Bytes, name: Component, m: Match)
    requires GoodQuery(query) && Leads(tree, path, name)
    ensures tree(path + [name]).Dir? ==> (FromChild(tree, path, query, name, m) <==> IsHit(tree, path + [name], query, m))
    ensures !tree(path + [name]).Dir? ==>
      (FromChild(tree, path, query, name, m) <==> HitAt(tree, path, query, m, path + [name]))
  {
    hide WellFormed, FileMatches, Valid, Reached;
    var child := path + [name];
    if FromChild(tree, path, query, name, m) {
      var p :| HitAt(tree, path, query, m, p) && child <= p;
      ReachedStep(tree, path, name, p);
      if !tree(child).Dir? {
        FileIsLeaf(tree, child, p);
      } else {
        assert HitAt(tree, child, query, m, p);
      }
    }
    if tree(child).Dir? && IsHit(tree, child, query, m) {
      var p :| HitAt(tree, child, query, m, p);
      assert child <= p by { ReachedExtends(tree, child, p); }
      ReachedStep(tree, path, name, p);
      assert HitAt(tree, path, query, m, p);
    }
  }

  lemma ReachedExtends(tree: Tree, start: RelativePath, p: RelativePath)
    requires Reached(tree, start, p)
    ensures start <= p
  {
  }

  lemma FileIsLeaf(tree: Tree, child: RelativePath, p: RelativePath)
    requires Reached(tree, child, p) && !tree(child).Dir?
    ensures p == child
  {
    if p != child {
      ChildOfReached(tree, child, p);
    }
  }

  /** What stands in the way below a child stands in the way below the directory, and so for trouble. */
  lemma ChildState(tree: Tree, path: RelativePath, name: Component)
    requires Leads(tree, path, name)
    ensures tree(path + [name]).Dir? && (forall e :: !Trouble(tree, path + [name], e)) ==> ChildUntroubled(tree, path, name)
    ensures tree(path + [name]).Dir? && !Obstacle(tree, path + [name]) ==> ChildClear(tree, path, name)
    ensures !tree(path + [name]).Dir? && (forall e :: !BadFile(tree(path + [name]), e)) ==> ChildUntroubled(tree, path, name)
    ensures !tree(path + [name]).Dir? && !ObstacleAt(tree, path + [name]) ==> ChildClear(tree, path, name)
  {
    hide ObstacleAt, PassedOver;
    var child := path + [name];
    forall p | Reached(tree, path, p) && child <= p
      ensures Reached(tree, child, p) && (!tree(child).Dir? ==> p == child)
    {
      ReachedStep(tree, path, name, p);
      if !tree(child).Dir? {
        FileIsLeaf(tree, child, p);
      }
    }
    if tree(child).Dir? {
      forall p, e | Reached(tree, path, p) && child <= p && TroubleAt(tree, path, p, e)
        ensures Trouble(tree, child, e)
      {
        assert TroubleAt(tree, child, p, e);
      }
    }
  }

  /** All children together make up the directory. */
  lemma DirectoryFromChildren(tree: Tree, path: RelativePath, query: Bytes, names: seq<Component>)
    requires GoodQuery(query) && tree(path).Dir?
    requires forall name | Leads(tree, path, name) :: name in names
    ensures forall m | IsHit(tree, path, query, m) :: exists i | 0 <= i < |names| :: FromChild(tree, path, query, names[i], m)
    ensures
      tree(path).listable && Unreadable !in tree(path).entries
      && (forall i | 0 <= i < |names| :: ChildUntroubled(tree, path, names[i])) ==>
        forall e :: !Trouble(tree, path, e)
    ensures
      (forall i | 0 <= i < |names| :: ChildClear(tree, path, names[i])) && !ObstacleAt(tree, path) ==>
      !Obstacle(tree, path)
  {
    hide WellFormed, PlainFile, FileMatches, Leads, ObstacleAt;
    forall m | IsHit(tree, path, query, m)
      ensures exists i | 0 <= i < |names| :: FromChild(tree, path, query, names[i], m)
    {
      var p :| HitAt(tree, path, query, m, p);
      FileIsBelow(tree, path, p);
      ChildOfReached(tree, path, p);
      var i :| 0 <= i < |names| && names[i] == p[|path|];
      assert FromChild(tree, path, query, names[i], m);
    }
    forall p | Reached(tree, path, p) && p != path
      ensures exists i | 0 <= i < |names| :: path + [names[i]] <= p
    {
      ChildOfReached(tree, path, p);
      var i :| 0 <= i < |names| && names[i] == p[|path|];
    }
  }

  lemma FileIsBelow(tree: Tree, path: RelativePath, p: RelativePath)
    requires tree(path).Dir? && PlainFile(tree(p))
    ensures p != path
  {
  }

  // ---- keys ----

  predicate SameKey(a: Match, b: Match) {
    a.path == b.path && a.line == b.line && a.column == b.column
  }

  ghost predicate KeysApart(s: seq<Match>) {
    forall i, j | 0 <= i < j < |s| :: !SameKey(s[i], s[j])
  }

  lemma HitPath(tree: Tree, start: RelativePath, query: Bytes, m: Match, p: RelativePath)
    requires GoodQuery(query) && HitAt(tree, start, query, m, p)
    ensures m.path == Display(p) && m.line >= 1 && m.column >= 1 && |m.preview| <= MAX_SEARCH_PREVIEW_BYTES
  {
    hide WellFormed, Valid, Reached, Display;
    LinesAreValid(tree(p).content);
    LinesMatchesInOrder(Display(p), SplitOn(NEWLINE, tree(p).content), query);
    assert WellPlaced(m, Display(p), 1, |SplitOn(NEWLINE, tree(p).content)|);
  }

  /** Matches from different children have different paths. */
  lemma ChildrenApart(tree: Tree, path: RelativePath, query: Bytes, a: Component, b: Component, m: Match, n: Match)
    requires GoodQuery(query) && a != b
    requires FromChild(tree, path, query, a, m) && FromChild(tree, path, query, b, n)
    ensures !SameKey(m, n)
  {
    hide WellFormed, Valid, Reached, Display, FileMatches;
    var p :| HitAt(tree, path, query, m, p) && path + [a] <= p;
    var q :| HitAt(tree, path, query, n, q) && path + [b] <= q;
    HitPath(tree, path, query, m, p);
    HitPath(tree, path, query, n, q);
    assert p[|path|] == a && q[|path|] == b;
    if Display(p) == Display(q) {
      DisplayIsInjective(p, q);
    }
  }

  // ---- the search itself ----

  function Min(a: nat, b: nat): nat {
    if a <= b then a else b
  }

  /** `after` is `before` and as much of `all` as there was room for. */
  ghost predicate Appended(before: seq<Match>, after: seq<Match>, all: seq<Match>) {
    |before| <= MAX_SEARCH_MATCHES && after == before + all[..Min(MAX_SEARCH_MATCHES - |before|, |all|)]
  }

  ghost predicate Overflows(before: seq<Match>, all: seq<Match>) {
    |before| + |all| > MAX_SEARCH_MATCHES
  }

  lemma AppendedStep(before: seq<Match>, mid: seq<Match>, after: seq<Match>, prev: seq<Match>, here: seq<Match>)
    requires Appended(before, mid, prev) && !Overflows(before, prev) && Appended(mid, after, here)
    ensures Appended(before, after, prev + here) && (Overflows(before, prev + here) <==> Overflows(mid, here))
  {
  }

  lemma AppendedPrefix(before: seq<Match>, after: seq<Match>, part: seq<Match>, all: seq<Match>)
    requires Appended(before, after, part) && Overflows(before, part) && part <= all
    ensures Appended(before, after, all) && Overflows(before, all)
  {
    assert all[..MAX_SEARCH_MATCHES - |before|] == part[..MAX_SEARCH_MATCHES - |before|];
  }

  ghost predicate TakenSoFar(before: seq<Match>, now: seq<Match>, all: seq<Match>, i: nat) {
    i <= |all| && now == before + all[..i] && |now| <= MAX_SEARCH_MATCHES
  }

  lemma TakenStep(before: seq<Match>, now: seq<Match>, all: seq<Match>, i: nat)
    requires TakenSoFar(before, now, all, i) && i < |all|
    ensures |now| == MAX_SEARCH_MATCHES ==> Appended(before, now, all) && Overflows(before, all)
    ensures |now| < MAX_SEARCH_MATCHES ==> TakenSoFar(before, now + [all[i]], all, i + 1)
  {
  }

  lemma TakenNone(before: seq<Match>, all: seq<Match>)
    requires |before| <= MAX_SEARCH_MATCHES
    ensures TakenSoFar(before, before, all, 0)
  {
  }

  lemma TakenAll(before: seq<Match>, now: seq<Match>, all: seq<Match>)
    requires TakenSoFar(before, now, all, |all|)
    ensures Appended(before, now, all) && !Overflows(before, all)
  {
  }

  lemma NothingAppended(before: seq<Match>)
    requires |before| <= MAX_SEARCH_MATCHES
    ensures Appended(before, before, []) && !Overflows(before, [])
  {
  }

  lemma AppendedBounds(before: seq<Match>, after: seq<Match>, all: seq<Match>)
    requires Appended(before, after, all)
    ensures |after| <= MAX_SEARCH_MATCHES && before <= after
    ensures after[|before|..] <= all
    ensures if Overflows(before, all) then |after| == MAX_SEARCH_MATCHES else after == before + all
  {
  }

  /** The lines before line `n`, and what line `n` adds. */
  ghost predicate LinesSoFar(path: Bytes, lines: seq<Bytes>, n: nat, query: Bytes, prev: seq<Match>)
    requires GoodQuery(query)
  {
    n <= |lines| && ValidLines(lines[..n]) && prev == LinesMatches(path, lines[..n], query)
  }

  lemma LinesStart(path: Bytes, lines: seq<Bytes>, query: Bytes)
    requires GoodQuery(query)
    ensures LinesSoFar(path, lines, 0, query, [])
  {
  }

  lemma LinesNext(path: Bytes, content: Bytes, lines: seq<Bytes>, n: nat, query: Bytes, prev: seq<Match>)
    requires Utf8.Valid(content) && lines == SplitOn(NEWLINE, content) && GoodQuery(query)
    requires n < |lines| && LinesSoFar(path, lines, n, query, prev)
    ensures Utf8.Valid(StripReturn(lines[n]))
    ensures
      var next := prev + LineMatches(path, StripReturn(lines[n]), n + 1, query);
      LinesSoFar(path, lines, n + 1, query, next) && next <= FileMatches(path, content, query)
  {
    hide Utf8.Valid, LineMatches;
    LinesAreValid(content);
    LinesMatchesStep(path, lines, n, query);
    LinesMatchesPrefix(path, lines, n + 1, query);
  }

  lemma LinesEnd(path: Bytes, content: Bytes, lines: seq<Bytes>, query: Bytes, prev: seq<Match>)
    requires Utf8.Valid(content) && lines == SplitOn(NEWLINE, content) && GoodQuery(query)
    requires LinesSoFar(path, lines, |lines|, query, prev)
    ensures prev == FileMatches(path, content, query)
  {
    assert lines[..|lines|] == lines;
  }

  // ---- one directory, child by child ----

  ghost predicate SettledTree(tree: Tree) {
    forall p :: Settled(tree(p))
  }

  /** Everything added so far comes from one of the first `k` children. */
  ghost predicate ChildrenSound(
    tree: Tree, path: RelativePath, query: Bytes, names: seq<Component>, k: nat, added: seq<Match>)
    requires GoodQuery(query) && k <= |names|
  {
    forall m | m in added :: exists i | 0 <= i < k :: FromChild(tree, path, query, names[i], m)
  }

  /** And nothing of those children is missing. */
  ghost predicate ChildrenComplete(
    tree: Tree, path: RelativePath, query: Bytes, names: seq<Component>, k: nat, added: seq<Match>)
    requires GoodQuery(query) && k <= |names|
  {
    forall i | 0 <= i < k ::
      && ChildUntroubled(tree, path, names[i])
      && forall m | FromChild(tree, path, query, names[i], m) :: m in added
  }

  ghost predicate ChildrenClear(tree: Tree, path: RelativePath, names: seq<Component>, k: nat)
    requires k <= |names|
  {
    forall i | 0 <= i < k :: ChildClear(tree, path, names[i])
  }

  lemma SortedNames(names: seq<Component>, sorted: seq<Component>)
    requires sorted == Sort(LexLe, names)
    requires forall i, j | 0 <= i < j < |names| :: names[i] != names[j]
    ensures |sorted| == |names| && forall n :: n in sorted <==> n in names
    ensures forall i, j | 0 <= i < j < |sorted| :: sorted[i] != sorted[j]
  {
    assert multiset(sorted) == multiset(names);
    hide Sort, LexLe;
    SameElements(sorted, names);
    DistinctPermutes(names, sorted);
  }

  lemma ListedBelow(tree: Tree, path: RelativePath, name: Component)
    requires Listed(tree, path, name) && IsPath(path)
    ensures |path| < MAX_COMPONENTS
  {
  }

  lemma ChildrenAreHits(tree: Tree, path: RelativePath, query: Bytes, names: seq<Component>, k: nat, added: seq<Match>)
    requires GoodQuery(query) && k <= |names| && ChildrenSound(tree, path, query, names, k, added)
    ensures forall m | m in added :: IsHit(tree, path, query, m)
  {
    hide HitAt;
    forall m | m in added
      ensures IsHit(tree, path, query, m)
    {
      var i :| 0 <= i < k && FromChild(tree, path, query, names[i], m);
      var p :| HitAt(tree, path, query, m, p) && path + [names[i]] <= p;
    }
  }

  /** Everything the listing leads to was visited, and there is no reason to fail in the listing itself. */
  ghost predicate AllVisited(tree: Tree, path: RelativePath, names: seq<Component>) {
    && tree(path).Dir? && tree(path).listable && Unreadable !in tree(path).entries
    && forall name | Leads(tree, path, name) :: name in names
  }

  lemma AllChildren(tree: Tree, path: RelativePath, query: Bytes, names: seq<Component>, added: seq<Match>)
    requires GoodQuery(query) && AllVisited(tree, path, names)
    requires ChildrenComplete(tree, path, query, names, |names|, added)
    ensures forall e :: !Trouble(tree, path, e)
    ensures forall m | IsHit(tree, path, query, m) :: m in added
    ensures ChildrenClear(tree, path, names, |names|) && !ObstacleAt(tree, path) ==> !Obstacle(tree, path)
  {
    hide IsHit, FromChild, Obstacle, ObstacleAt, Trouble, ChildUntroubled, ChildClear, Leads;
    DirectoryFromChildren(tree, path, query, names);
    forall m | IsHit(tree, path, query, m)
      ensures m in added
    {
      var i :| 0 <= i < |names| && FromChild(tree, path, query, names[i], m);
    }
  }

  /** Adding what child `k` contributes. */
  lemma ChildAdded(
    tree: Tree, path: RelativePath, query: Bytes, names: seq<Component>, k: nat, added: seq<Match>, more: seq<Match>)
    requires GoodQuery(query) && k < |names| && forall i, j | 0 <= i < j < |names| :: names[i] != names[j]
    requires ChildrenSound(tree, path, query, names, k, added) && KeysApart(added) && KeysApart(more)
    requires forall m | m in more :: FromChild(tree, path, query, names[k], m)
    ensures ChildrenSound(tree, path, query, names, k + 1, added + more) && KeysApart(added + more)
    ensures
      (ChildrenComplete(tree, path, query, names, k, added) && ChildUntroubled(tree, path, names[k])
       && forall m | FromChild(tree, path, query, names[k], m) :: m in more) ==>
      ChildrenComplete(tree, path, query, names, k + 1, added + more)
  {
    hide FromChild, ChildUntroubled, ChildClear;
    var both := added + more;
    forall i, j | 0 <= i < j < |both|
      ensures !SameKey(both[i], both[j])
    {
      if i < |added| <= j {
        assert both[i] in added && both[j] in more;
        var a :| 0 <= a < k && FromChild(tree, path, query, names[a], both[i]);
        ChildrenApart(tree, path, query, names[a], names[k], both[i], both[j]);
      }
    }
  }

  /** A child that is a directory contributes what was searched below it. */
  lemma DirectoryChild(
    tree: Tree, path: RelativePath, query: Bytes, name: Component, added: seq<Match>, all: bool, clear: bool)
    requires GoodQuery(query) && Leads(tree, path, name) && tree(path + [name]).Dir?
    requires Searched(tree, path + [name], query, added, all, clear)
    ensures ChildSearched(tree, path, query, name, added, all, clear)
  {
    hide Leads, FromChild, IsHit, Obstacle, Trouble, ChildUntroubled, ChildClear, KeysApart;
    forall m: Match
      ensures FromChild(tree, path, query, name, m) <==> IsHit(tree, path + [name], query, m)
    {
      ChildHits(tree, path, query, name, m);
    }
    ChildState(tree, path, name);
  }

  /** What a search of one file added. */
  ghost predicate FileSearched(tree: Tree, child: RelativePath, query: Bytes, added: seq<Match>, all: bool, clear: bool)
    requires GoodQuery(query)
  {
    var node := tree(child);
    && (added != [] ==> PlainFile(node) && added <= FileMatches(Display(child), node.content, query))
    && (all ==>
          && (forall e :: !BadFile(node, e))
          && (PlainFile(node) ==> added == FileMatches(Display(child), node.content, query)))
    && (clear ==> !ObstacleAt(tree, child))
  }

  /** A child that is a file contributes its own matches. */
  lemma FileChild(
    tree: Tree, path: RelativePath, query: Bytes, name: Component, added: seq<Match>, all: bool, clear: bool)
    requires GoodQuery(query) && Leads(tree, path, name) && !tree(path + [name]).Dir? && WellFormed(path + [name])
    requires FileSearched(tree, path + [name], query, added, all, clear)
    ensures ChildSearched(tree, path, query, name, added, all, clear)
  {
    hide Utf8.Valid, FromChild, FileMatches, WellFormed, ChildUntroubled, ChildClear, Display, Leads, ObstacleAt, BadFile;
    hide KeysApart;
    var child := path + [name];
    OneStep(tree, path, name);
    forall m: Match
      ensures FromChild(tree, path, query, name, m) <==> HitAt(tree, path, query, m, child)
    {
      ChildHits(tree, path, query, name, m);
    }
    if added != [] {
      FileKeysApart(Display(child), tree(child).content, query, added);
    } else {
      NoKeys();
    }
    ChildState(tree, path, name);
  }

  lemma NoKeys()
    ensures KeysApart([])
  {
  }

  ghost predicate Listed(tree: Tree, path: RelativePath, name: Component) {
    tree(path).Dir? && Named(name) in tree(path).entries && SLASH !in name && JoinPath(path, name).Success?
  }

  lemma OneStep(tree: Tree, path: RelativePath, name: Component)
    requires Leads(tree, path, name)
    ensures Reached(tree, path, path + [name])
  {
    hide Leads;
    assert (path + [name])[..|path|] == path;
  }

  lemma FileKeysApart(path: Bytes, content: Bytes, query: Bytes, part: seq<Match>)
    requires Utf8.Valid(content) && GoodQuery(query) && part <= FileMatches(path, content, query)
    ensures KeysApart(part)
  {
    LinesAreValid(content);
    LinesMatchesInOrder(path, SplitOn(NEWLINE, content), query);
    hide Utf8.Valid, LinesMatches;
    var all := FileMatches(path, content, query);
    forall i, j | 0 <= i < j < |part|
      ensures !SameKey(part[i], part[j])
    {
      assert part[i] == all[i] && part[j] == all[j] && Before(all[i], all[j]);
    }
  }

  /** What a search of the directory `path` added: only hits, each once. When `all`, every hit, and nothing
      below makes a search fail; when `clear`, there is nothing below that a search cannot look at. */
  ghost predicate Searched(tree: Tree, path: RelativePath, query: Bytes, added: seq<Match>, all: bool, clear: bool)
    requires GoodQuery(query)
  {
    && (forall m | m in added :: IsHit(tree, path, query, m))
    && KeysApart(added)
    && (all ==>
          && tree(path).Dir? && (forall e :: !Trouble(tree, path, e))
          && forall m | IsHit(tree, path, query, m) :: m in added)
    && (clear ==> !Obstacle(tree, path))
  }

  ghost predicate ChildSearched(
    tree: Tree, path: RelativePath, query: Bytes, name: Component, added: seq<Match>, all: bool, clear: bool)
    requires GoodQuery(query)
  {
    && (forall m | m in added :: FromChild(tree, path, query, name, m))
    && KeysApart(added)
    && (all ==> ChildUntroubled(tree, path, name) && forall m | FromChild(tree, path, query, name, m) :: m in added)
    && (clear ==> ChildClear(tree, path, name))
  }

  ghost predicate ChildrenSearched(
    tree: Tree, path: RelativePath, query: Bytes, names: seq<Component>, k: nat, added: seq<Match>, all: bool, clear: bool)
    requires GoodQuery(query)
  {
    && k <= |names|
    && ChildrenSound(tree, path, query, names, k, added)
    && KeysApart(added)
    && (all ==> ChildrenComplete(tree, path, query, names, k, added))
    && (clear ==> ChildrenClear(tree, path, names, k))
  }

  lemma NothingSearched(tree: Tree, path: RelativePath, query: Bytes, names: seq<Component>, name: Component, s: seq<Match>)
    requires GoodQuery(query)
    ensures Searched(tree, path, query, s[|s|..], false, false)
    ensures ChildSearched(tree, path, query, name, s[|s|..], false, false)
    ensures PassedOver(path, Named(name)) ==> ChildSearched(tree, path, query, name, s[|s|..], true, false)
    ensures ChildrenSearched(tree, path, query, names, 0, s[|s|..], true, true)
  {
    hide PassedOver, FromChild, ChildUntroubled;
    assert s[|s|..] == [];
    if PassedOver(path, Named(name)) {
      NothingBehind(tree, path, query, name);
    }
  }

  lemma NextChild(
    tree: Tree, path: RelativePath, query: Bytes, names: seq<Component>, k: nat,
    before: seq<Match>, mid: seq<Match>, after: seq<Match>, all: bool, clear: bool, all': bool, clear': bool)
    requires GoodQuery(query) && k < |names| && forall i, j | 0 <= i < j < |names| :: names[i] != names[j]
    requires before <= mid <= after
    requires ChildrenSearched(tree, path, query, names, k, mid[|before|..], all, clear)
    requires ChildSearched(tree, path, query, names[k], after[|mid|..], all', clear')
    ensures ChildrenSearched(tree, path, query, names, k + 1, after[|before|..], all && all', clear && clear')
  {
    hide ChildrenSound, ChildrenComplete, FromChild, KeysApart, ChildUntroubled, ChildClear;
    assert after[|before|..] == mid[|before|..] + after[|mid|..];
    ChildAdded(tree, path, query, names, k, mid[|before|..], after[|mid|..]);
  }

  lemma LastChild(
    tree: Tree, path: RelativePath, query: Bytes, names: seq<Component>, k: nat, added: seq<Match>, all: bool, clear: bool)
    requires GoodQuery(query) && ChildrenSearched(tree, path, query, names, k, added, all, clear)
    requires all ==> k == |names| && AllVisited(tree, path, names)
    requires clear ==> all && (ChildrenClear(tree, path, names, |names|) ==> !ObstacleAt(tree, path))
    ensures Searched(tree, path, query, added, all, clear)
  {
    hide FromChild, ChildUntroubled, ChildClear, ObstacleAt, Trouble, Obstacle, IsHit;
    ChildrenAreHits(tree, path, query, names, k, added);
    if all {
      AllChildren(tree, path, query, names, added);
    }
  }

  lemma WeakerChildren(
    tree: Tree, path: RelativePath, query: Bytes, names: seq<Component>, k: nat, added: seq<Match>,
    all: bool, clear: bool, all': bool, clear': bool)
    requires GoodQuery(query) && ChildrenSearched(tree, path, query, names, k, added, all, clear)
    requires (all' ==> all) && (clear' ==> clear)
    ensures ChildrenSearched(tree, path, query, names, k, added, all', clear')
  {
  }

  /** What a successful listing loop collected: names that lead somewhere or are under version control,
      each once; all of them when `all`; and nothing was passed over when `clear`. */
  ghost predicate NamesOf(path: RelativePath, entries: seq<Candidate>, names: seq<Component>, all: bool, clear: bool) {
    && (forall i | 0 <= i < |names| :: Named(names[i]) in entries && JoinPath(path, names[i]).Success?)
    && (forall i, j | 0 <= i < j < |names| :: names[i] != names[j])
    && (all ==>
          && Unreadable !in entries
          && forall e | e in entries && e.Named? && JoinPath(path, e.name).Success? :: e.name in names)
    && (clear ==> forall e | e in entries :: e.Named? && e.name in names)
  }

  lemma NamesGrow(path: RelativePath, entries: seq<Candidate>, k: nat, names: seq<Component>)
    requires k <= |entries| && (exists clear :: NamesOf(path, entries[..k], names, true, clear))
    ensures NamesOf(path, entries, names, false, false)
  {
    hide JoinPath;
  }

  /** The sorted names lead everywhere, and when their children are clear then so is the directory. */
  lemma SortedListing(
    tree: Tree, path: RelativePath, names: seq<Component>, sorted: seq<Component>, all: bool, clear: bool)
    requires ProperTree(tree) && tree(path).Dir? && tree(path).listable && sorted == Sort(LexLe, names)
    requires NamesOf(path, tree(path).entries, names, all, clear)
    ensures |sorted| == |names| && forall i | 0 <= i < |sorted| :: Listed(tree, path, sorted[i])
    ensures forall i, j | 0 <= i < j < |sorted| :: sorted[i] != sorted[j]
    ensures all ==> AllVisited(tree, path, sorted)
    ensures clear && ChildrenClear(tree, path, sorted, |sorted|) ==> !ObstacleAt(tree, path)
  {
    hide JoinPath, IsVersionControl;
    SortedNames(names, sorted);
    forall i | 0 <= i < |sorted|
      ensures Listed(tree, path, sorted[i])
    {
      assert sorted[i] in names;
    }
    if clear && ChildrenClear(tree, path, sorted, |sorted|) {
      forall e | e in tree(path).entries
        ensures !PassedOver(path, e)
      {
        assert e == Named(e.name) && e.name in sorted;
        var i :| 0 <= i < |sorted| && sorted[i] == e.name;
        assert ChildClear(tree, path, sorted[i]);
      }
    }
  }

  lemma VersionControlled(tree: Tree, path: RelativePath, name: Component)
    requires Listed(tree, path, name) && (name == Ascii(".git") || name == Ascii(".hg") || name == Ascii(".svn"))
    ensures PassedOver(path, Named(name)) && Obstacle(tree, path)
  {
    hide JoinPath;
    ObstacleHere(tree, path);
  }

  lemma ChildIsPath(tree: Tree, path: RelativePath, name: Component)
    requires Listed(tree, path, name) && IsPath(path)
    requires name != Ascii(".git") && name != Ascii(".hg") && name != Ascii(".svn")
    ensures Leads(tree, path, name) && WellFormed(path + [name]) && IsPath(path + [name])
    ensures JoinPath(path, name) == Success(path + [name])
  {
    hide JoinPath, WellFormed;
    JoinStaysInside(path, name);
  }

  lemma SettledAt(tree: Tree, p: RelativePath)
    requires SettledTree(tree)
    ensures Settled(tree(p))
  {
  }

  lemma NothingBeneath(path: RelativePath, names: seq<Component>)
    ensures Beneath(path, names, 0, {})
  {
  }

  class SearchState {
    var matches: seq<Match>
    var visitedEntries: nat
    var scannedBytes: nat
    var truncated: bool
    var exhausted: bool
    ghost var directoryCalls: nat

    ghost predicate Valid()
      reads this
    {
      && |matches| <= MAX_SEARCH_MATCHES
      && visitedEntries <= MAX_SEARCH_VISITED_ENTRIES
      && scannedBytes <= MAX_SEARCH_TOTAL_BYTES
      && (exhausted ==> truncated)
      && (scannedBytes == MAX_SEARCH_TOTAL_BYTES ==> exhausted)
    }

    /** A budget is used up. */
    ghost predicate Full()
      reads this
    {
      exhausted || |matches| == MAX_SEARCH_MATCHES || visitedEntries == MAX_SEARCH_VISITED_ENTRIES
    }

    /** Something may be missing because a budget is used up. */
    ghost predicate Cut()
      reads this
    {
      truncated && Full()
    }

    constructor ()
      ensures Valid() && matches == [] && visitedEntries == 0 && scannedBytes == 0
      ensures !truncated && !exhausted && directoryCalls == 0
    {
      matches, visitedEntries, scannedBytes := [], 0, 0;
      truncated, exhausted := false, false;
      directoryCalls := 0;
    }

    /** `collect_matches`: append the matches of a file until there is no room. */
    method CollectMatches(path: Bytes, content: Bytes, query: Bytes)
      requires |matches| <= MAX_SEARCH_MATCHES && Utf8.Valid(content) && GoodQuery(query)
      modifies this`matches, this`truncated
      ensures Appended(old(matches), matches, FileMatches(path, content, query))
      ensures truncated == (old(truncated) || Overflows(old(matches), FileMatches(path, content, query)))
    {
      hide Utf8.Valid, LineMatches, FileMatches, SplitOn, StripReturn, Appended, Overflows, LinesSoFar;
      var lines := SplitOn(NEWLINE, content);
      ghost var all, prev := FileMatches(path, content, query), [];
      LinesStart(path, lines, query);
      NothingAppended(matches);
      for n := 0 to |lines|
        invariant LinesSoFar(path, lines, n, query, prev)
        invariant Appended(old(matches), matches, prev) && !Overflows(old(matches), prev)
        invariant truncated == old(truncated)
      {
        LinesNext(path, content, lines, n, query, prev);
        AppendedBounds(old(matches), matches, prev);
        var line := StripReturn(lines[n]);
        ghost var here, mid := LineMatches(path, line, n + 1, query), matches;
        var full := CollectLine(path, line, n + 1, query, here);
        AppendedStep(old(matches), mid, matches, prev, here);
        prev := prev + here;
        if full {
          AppendedPrefix(old(matches), matches, prev, all);
          return;
        }
      }
      LinesEnd(path, content, lines, query, prev);
    }

    /** The inner loop; `full` when an occurrence found no room. */
    method CollectLine(path: Bytes, line: Bytes, number: nat, query: Bytes, ghost here: seq<Match>) returns (full: bool)
      requires |matches| <= MAX_SEARCH_MATCHES && Utf8.Valid(line) && GoodQuery(query)
      requires here == LineMatches(path, line, number, query)
      modifies this`matches, this`truncated
      ensures Appended(old(matches), matches, here)
      ensures full == Overflows(old(matches), here)
      ensures truncated == (old(truncated) || full)
    {
      var offsets := Offsets(line, query, 0);
      assert |here| == |offsets|;
      hide *;
      TakenNone(matches, here);
      for i := 0 to |offsets|
        invariant TakenSoFar(old(matches), matches, here, i)
        invariant truncated == old(truncated)
      {
        TakenStep(old(matches), matches, here, i);
        if |matches| == MAX_SEARCH_MATCHES {
          truncated := true;
          return true;
        }
        ReportMatch(path, line, number, query, offsets, i, here);
      }
      TakenAll(old(matches), matches, here);
      return false;
    }

    method ReportMatch(
      path: Bytes, line: Bytes, number: nat, query: Bytes, offsets: seq<nat>, i: nat, ghost here: seq<Match>)
      requires Utf8.Valid(line) && GoodQuery(query)
      requires offsets == Offsets(line, query, 0) && i < |offsets| == |here|
      requires here == LineMatches(path, line, number, query)
      modifies this`matches
      ensures matches == old(matches) + [here[i]]
    {
      hide Utf8.Valid, Preview, IsBoundary, Offsets, LineMatches, OccursAt;
      LineMatchesAt(path, line, number, query, i);
      var k := offsets[i];
      var preview, start, fellBack := BoundedPreview(line, k, k + |query|);
      matches := matches + [Match(path, number, CharCount(line[..k]) + 1, preview.value)];
    }

    /** `search_regular_file` */
    method SearchRegularFile(tree: Tree, path: RelativePath, query: Bytes) returns (r: Result<(), QueryFailure>)
      requires Valid() && GoodQuery(query) && !tree(path).Dir?
      modifies this`matches, this`truncated, this`exhausted, this`scannedBytes
      ensures Valid() && old(matches) <= matches && (old(truncated) ==> truncated) && (old(exhausted) ==> exhausted)
      ensures Settled(tree(path)) ==>
        FileSearched(tree, path, query, matches[|old(matches)|..], r.Success? && !Cut(), r.Success? && !truncated)
      ensures truncated && Settled(tree(path)) ==> old(truncated) || Full() || ObstacleAt(tree, path)
      ensures exhausted && !old(exhausted) ==> RanOut(tree(path), old(scannedBytes), scannedBytes)
      ensures r.Success? && !exhausted ==> tree(path).File? && tree(path).length <= MAX_SEARCH_FILE_BYTES ==>
        tree(path).length <= MAX_SEARCH_TOTAL_BYTES - old(scannedBytes)
      ensures old(scannedBytes) <= scannedBytes <= old(scannedBytes) + ContentSize(tree(path))
      ensures r.Failure? ==> BadFile(tree(path), r.error)
      ensures r.Success? && !truncated ==>
        && tree(path).File? && |tree(path).content| <= MAX_SEARCH_FILE_BYTES && Utf8.Valid(tree(path).content)
        && matches == old(matches) + FileMatches(Display(path), tree(path).content, query)
      ensures matches != old(matches) ==>
        tree(path).File? && (|tree(path).content| <= MAX_SEARCH_FILE_BYTES || scannedBytes == MAX_SEARCH_TOTAL_BYTES)
    {
      hide Utf8.Valid, FileMatches;
      var node := tree(path);
      if !node.File? {
        truncated := true;
        return Success(());
      }
      if !node.hasMetadata {
        return Failure(Open);
      }
      if node.length > MAX_SEARCH_FILE_BYTES {
        truncated := true;
        return Success(());
      }
      var remaining := MAX_SEARCH_TOTAL_BYTES - scannedBytes;
      if remaining == 0 || node.length > remaining {
        truncated, exhausted := true, true;
        return Success(());
      }
      var readLimit := Min(remaining, MAX_SEARCH_FILE_BYTES + 1);
      if !node.readable {
        return Failure(Read);
      }
      var bytes := node.content[..Min(readLimit, |node.content|)];
      assert Settled(node) ==> bytes == node.content;
      // checked_add cannot overflow here: the sum is at most MAX_SEARCH_TOTAL_BYTES
      scannedBytes := scannedBytes + |bytes|;
      if scannedBytes == MAX_SEARCH_TOTAL_BYTES {
        truncated, exhausted := true, true;
      }
      if |bytes| > MAX_SEARCH_FILE_BYTES {
        truncated := true;
        return Success(());
      }
      if !Utf8.Valid(bytes) {
        truncated := true;
        return Success(());
      }
      assert !truncated ==> bytes == node.content;
      ghost var before := matches;
      CollectMatches(Display(path), bytes, query);
      AppendedBounds(before, matches, FileMatches(Display(path), bytes, query));
      return Success(());
    }

    /** The listing loop of `search_directory`: the names to visit, unsorted. */
    method ListNames(path: RelativePath, entries: seq<Candidate>) returns (r: Result<seq<Component>, QueryFailure>)
      requires Valid() && ProperListing(entries)
      modifies this`visitedEntries, this`truncated
      ensures Valid() && old(visitedEntries) <= visitedEntries <= old(visitedEntries) + |entries|
      ensures old(truncated) ==> truncated
      ensures r.Success? ==> NamesOf(path, entries, r.value, !Cut(), !truncated)
      ensures r.Success? ==> |r.value| <= visitedEntries - old(visitedEntries)
      ensures truncated ==> old(truncated) || Full() || exists e | e in entries :: PassedOver(path, e)
      ensures r.Failure? ==> r.error.Read? && Unreadable in entries
    {
      hide JoinPath;
      var names: seq<Component> := [];
      var scanned := 0;
      for k := 0 to |entries|
        invariant Valid() && (old(truncated) ==> truncated)
        invariant scanned == k == visitedEntries - old(visitedEntries) && |names| <= k
        invariant NamesOf(path, entries[..k], names, true, !truncated)
        invariant truncated ==> old(truncated) || Full() || exists e | e in entries :: PassedOver(path, e)
      {
        assert entries[..k + 1] == entries[..k] + [entries[k]] && entries[..k] <= entries;
        if visitedEntries == MAX_SEARCH_VISITED_ENTRIES {
          truncated := true;
          NamesGrow(path, entries, k, names);
          return Success(names);
        }
        visitedEntries := visitedEntries + 1;
        scanned := scanned + 1;
        if scanned > MAX_DIRECTORY_SCAN_ENTRIES {
          // TooManyEntries is unreachable: what was scanned here was also counted as visited
          assert false;
        }
        match entries[k] {
          case Unreadable =>
            return Failure(Read);
          case NotUnicode =>
            assert PassedOver(path, entries[k]);
            truncated := true;
          case Named(name) =>
            if JoinPath(path, name).Failure? {
              assert PassedOver(path, entries[k]);
              truncated := true;
            } else {
              assert entries[k] !in entries[..k];
              names := names + [name];
            }
        }
      }
      assert entries[..|entries|] == entries;
      return Success(names);
    }

    /** One name of the directory: a subdirectory, a file, or something the search passes over. */
    method VisitChild(tree: Tree, path: RelativePath, name: Component, query: Bytes)
      returns (r: Result<(), QueryFailure>, stop: bool, ghost touched: set<RelativePath>)
      requires Valid() && GoodQuery(query) && ProperTree(tree) && SettledTree(tree) && IsPath(path)
      requires Listed(tree, path, name) && |path| < MAX_COMPONENTS && !exhausted
      modifies this
      ensures Valid() && old(matches) <= matches && (old(truncated) ==> truncated)
      ensures ChildSearched(
                tree, path, query, name, matches[|old(matches)|..], r.Success? && !Cut(), r.Success? && !truncated)
      ensures truncated ==> old(truncated) || Full() || Obstacle(tree, path)
      ensures Paid(tree, path, touched, old(visitedEntries), visitedEntries, old(scannedBytes), scannedBytes, exhausted)
      ensures forall p | p in touched :: path + [name] <= p
      ensures r.Failure? ==> Trouble(tree, path, r.error)
      ensures old(visitedEntries) <= visitedEntries
      ensures 0 <= directoryCalls - old(directoryCalls) <= 1 + visitedEntries - old(visitedEntries)
      ensures stop ==> Cut()
      decreases MAX_COMPONENTS - |path|, 0
    {
      hide Utf8.Valid, IsHit, KeysApart, JoinPath, FromChild, ChildUntroubled, ChildClear, FileMatches, WellFormed, Listed;
      hide Obstacle, ObstacleAt, Trouble, Paid, Leads, PassedOver, IsVersionControl, Searched, ChildSearched, FileSearched;
      hide SettledTree, ProperTree, Reached, RanOut, BadFile, IsPath, BytesAt, Settled, GoodQuery;
      NothingSearched(tree, path, query, [], name, matches);
      PaidNothing(tree, path, visitedEntries, scannedBytes);
      stop, touched := false, {};
      if name == Ascii(".git") || name == Ascii(".hg") || name == Ascii(".svn") {
        VersionControlled(tree, path, name);
        truncated := true;
        return Success(()), false, {};
      }
      ChildIsPath(tree, path, name);
      var child := JoinPath(path, name).value;
      ObstacleBelow(tree, path, name);
      ghost var v, s := visitedEntries, scannedBytes;
      if tree(child).Dir? {
        r, touched := SearchDirectory(tree, child, query);
        DirectoryChild(tree, path, query, name, matches[|old(matches)|..], r.Success? && !Cut(), r.Success? && !truncated);
        PaidChild(tree, path, name, touched, v, visitedEntries, s, scannedBytes, exhausted);
        if r.Failure? {
          TroubleBelow(tree, path, name, r.error);
        }
      } else {
        SettledAt(tree, child);
        r := SearchRegularFile(tree, child, query);
        stop, touched := exhausted, {child};
        FileChild(tree, path, query, name, matches[|old(matches)|..], r.Success? && !Cut(), r.Success? && !truncated);
        PaidFile(tree, path, name, visitedEntries, s, scannedBytes, exhausted);
        if ObstacleAt(tree, child) {
          ObstacleHere(tree, child);
        }
        if r.Failure? {
          TroubleFile(tree, path, name, r.error);
        }
      }
    }

    /** The second loop of `search_directory`. */
    method VisitChildren(tree: Tree, path: RelativePath, names: seq<Component>, query: Bytes)
      returns (r: Result<(), QueryFailure>, ghost done: nat, ghost touched: set<RelativePath>)
      requires Valid() && GoodQuery(query) && ProperTree(tree) && SettledTree(tree) && IsPath(path)
      requires forall i | 0 <= i < |names| :: Listed(tree, path, names[i])
      requires forall i, j | 0 <= i < j < |names| :: names[i] != names[j]
      modifies this
      ensures Valid() && old(matches) <= matches && (old(truncated) ==> truncated) && (old(exhausted) ==> exhausted)
      ensures ChildrenSearched(
                tree, path, query, names, done, matches[|old(matches)|..], r.Success? && !Cut(), r.Success? && !truncated)
      ensures r.Success? && !Cut() ==> done == |names|
      ensures truncated ==> old(truncated) || Full() || Obstacle(tree, path)
      ensures Paid(tree, path, touched, old(visitedEntries), visitedEntries, old(scannedBytes), scannedBytes,
                   exhausted && !old(exhausted))
      ensures done <= |names| && Beneath(path, names, done, touched)
      ensures r.Failure? ==> Trouble(tree, path, r.error)
      ensures old(visitedEntries) <= visitedEntries
      ensures 0 <= directoryCalls - old(directoryCalls) <= |names| + visitedEntries - old(visitedEntries)
      decreases MAX_COMPONENTS - |path|, 1
    {
      hide ChildrenSearched, ChildSearched, ProperTree, SettledTree, GoodQuery, Listed, WellFormed, Obstacle, Trouble;
      hide Paid, Beneath;
      NothingSearched(tree, path, query, names, [], matches);
      PaidNothing(tree, path, visitedEntries, scannedBytes);
      ghost var all, clear := true, true;
      done, touched := 0, {};
      NothingBeneath(path, names);
      for k := 0 to |names|
        invariant Valid() && old(matches) <= matches && (old(truncated) ==> truncated)
        invariant done == k && old(visitedEntries) <= visitedEntries
        invariant (!all ==> Cut()) && (!clear ==> truncated)
        invariant old(exhausted) ==> exhausted
        invariant truncated ==> old(truncated) || Full() || Obstacle(tree, path)
        invariant 0 <= directoryCalls - old(directoryCalls) <= k + visitedEntries - old(visitedEntries)
        invariant ChildrenSearched(tree, path, query, names, k, matches[|old(matches)|..], all, clear)
        invariant Paid(tree, path, touched, old(visitedEntries), visitedEntries, old(scannedBytes), scannedBytes,
                       exhausted && !old(exhausted))
        invariant Beneath(path, names, k, touched)
      {
        if exhausted || |matches| == MAX_SEARCH_MATCHES {
          truncated := true;
          WeakerChildren(tree, path, query, names, k, matches[|old(matches)|..], all, clear, false, false);
          return Success(()), k, touched;
        }
        ListedBelow(tree, path, names[k]);
        ghost var mid, v, s := matches, visitedEntries, scannedBytes;
        var stop;
        ghost var more;
        r, stop, more := VisitChild(tree, path, names[k], query);
        ghost var all', clear' := r.Success? && !Cut(), r.Success? && !truncated;
        NextChild(tree, path, query, names, k, old(matches), mid, matches, all, clear, all', clear');
        BeneathNext(path, names, k, touched, more);
        PaidTogether(tree, path, touched, more, old(visitedEntries), v, visitedEntries,
                     old(scannedBytes), s, scannedBytes, false, exhausted);
        all, clear, done, touched := all && all', clear && clear', k + 1, touched + more;
        if r.Failure? || stop {
          WeakerChildren(tree, path, query, names, done, matches[|old(matches)|..], all, clear, false, false);
          return r, done, touched;
        }
      }
      WeakerChildren(tree, path, query, names, done, matches[|old(matches)|..], all, clear, !Cut(), !truncated);
      return Success(()), done, touched;
    }

    /** `search_directory`. Sound always. Complete unless a budget was used up: every hit is found, and a
        search that succeeds left nothing out that would have made it fail. Truncated only when a budget
        was used up or something below cannot be looked at, and always in the second case. What the budgets
        lost was paid for by the nodes touched, each once. The recursion ends
        because a path that is joined onto has fewer than 256 components, whatever the tree. */
    method SearchDirectory(tree: Tree, path: RelativePath, query: Bytes)
      returns (r: Result<(), QueryFailure>, ghost touched: set<RelativePath>)
      requires Valid() && GoodQuery(query) && ProperTree(tree) && SettledTree(tree) && IsPath(path)
      modifies this
      ensures Valid() && old(matches) <= matches && (old(truncated) ==> truncated) && (old(exhausted) ==> exhausted)
      ensures Searched(tree, path, query, matches[|old(matches)|..], r.Success? && !Cut(), r.Success? && !truncated)
      ensures truncated ==> old(truncated) || Full() || Obstacle(tree, path)
      ensures Paid(tree, path, touched, old(visitedEntries), visitedEntries, old(scannedBytes), scannedBytes,
                   exhausted && !old(exhausted))
      ensures r.Failure? ==> Trouble(tree, path, r.error)
      ensures old(visitedEntries) <= visitedEntries
      ensures 1 <= directoryCalls - old(directoryCalls) <= 1 + visitedEntries - old(visitedEntries)
      decreases MAX_COMPONENTS - |path|, 2
    {
      hide Searched, ChildrenSearched, JoinPath, WellFormed, Listed, GoodQuery, Obstacle, PassedOver, Sort, LexLe;
      hide SettledTree, IsVersionControl, Paid, Trouble, Beneath, NamesOf, AllVisited;
      directoryCalls := directoryCalls + 1;
      NothingSearched(tree, path, query, [], [], matches);
      PaidNothing(tree, path, visitedEntries, scannedBytes);
      touched := {};
      if exhausted || |matches| == MAX_SEARCH_MATCHES || visitedEntries == MAX_SEARCH_VISITED_ENTRIES {
        truncated := true;
        return Success(()), {};
      }
      if !tree(path).Dir? {
        TroubleHere(tree, path, Open);
        return Failure(Open), {};
      }
      if !tree(path).listable {
        TroubleHere(tree, path, Read);
        return Failure(Read), {};
      }
      ghost var before, v, s := matches, visitedEntries, scannedBytes;
      ObstacleListed(tree, path);
      var names := ListNames(path, tree(path).entries);
      PaidHere(tree, path, v, visitedEntries, s);
      touched := {path};
      if names.Failure? {
        TroubleHere(tree, path, Read);
        return Failure(names.error), touched;
      }
      hide ObstacleAt;
      ghost var all, clear, v' := !Cut(), !truncated, visitedEntries;
      var sorted := Sort(LexLe, names.value);
      SortedListing(tree, path, names.value, sorted, all, clear);
      ghost var done, more;
      r, done, more := VisitChildren(tree, path, sorted, query);
      LastChild(tree, path, query, sorted, done, matches[|before|..], r.Success? && !Cut(), r.Success? && !truncated);
      BeneathIsDeeper(path, sorted, done, more);
      PaidTogether(tree, path, {path}, more, v, v', visitedEntries, s, s, scannedBytes, false, exhausted);
      touched := {path} + more;
    }
  }
}
