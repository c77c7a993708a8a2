/** What `resolve_invocation` guarantees about the arguments it returns. */
module ResolutionLaws {
  import opened Wrappers
  import opened Utf8
  import opened Sorting
  import opened Json
  import opened JsonPointer
  import opened Resolution
  import Paths

  // ---- the derivation is a function of the set of selectors ----

  lemma KeyOrderUnique(a: seq<Pointer>, b: seq<Pointer>, keys: set<Pointer>)
    requires KeyOrder(a, keys) && KeyOrder(b, keys)
    ensures a == b
  {
    LexIsTotalOrder();
    hide LexLe, TotalPreorder, Antisymmetric, Sorted;
    forall p: Pointer
      ensures multiset(a)[p] == multiset(b)[p]
    {
      OnceEach(a, p);
      OnceEach(b, p);
      assert p in multiset(a) <==> p in a;
      assert p in multiset(b) <==> p in b;
    }
    assert multiset(a) == multiset(b);
    SortedUnique(LexLe, a, b);
  }

  lemma NormalizesUnique(arguments: Value, canonical: map<Pointer, Bytes>, a: Value, b: Value)
    requires Normalizes(arguments, canonical, a) && Normalizes(arguments, canonical, b)
    ensures a == b
  {
    hide KeyOrder, Parse, Substitute, AllText;
    var o1 :| NormalizedBy(o1, arguments, canonical, a);
    var o2 :| NormalizedBy(o2, arguments, canonical, b);
    KeyOrderUnique(o1, o2, canonical.Keys);
  }

  lemma FailsOnce(resolver: Resolver, arguments: Value, s: seq<Selector>, i: nat, error: ResolutionError, n: nat)
    requires FailsAt(resolver, arguments, s, i, error) && n <= |s| && Fine(resolver, arguments, s[..n])
    ensures n <= i
  {
    hide Fine;
    var k := if i + 1 <= n then i + 1 else n;
    FinePrefix(resolver, arguments, s[..n], k);
    assert s[..n][..k] == s[..k];
  }

  /** The result is determined: success or failure, and which. */
  lemma {:induction false} DerivesUnique(
    resolver: Resolver, selectors: seq<Selector>, arguments: Value,
    a: Result<Derived, ResolutionError>, b: Result<Derived, ResolutionError>)
    requires Derives(resolver, selectors, arguments, a) && Derives(resolver, selectors, arguments, b)
    ensures a == b
  {
    var s := Sort(SelectorLe, selectors);
    hide Sort, Fine, Resources, Scopes, Canonicals, NormalizedBy, ErrorAt;
    assert s[..|s|] == s;
    if a.Success? && b.Success? {
      FineIsResolvable(resolver, arguments, s);
      NormalizesUnique(arguments, Canonicals(resolver, arguments, s), a.value.normalized, b.value.normalized);
    }
    if a.Failure? {
      var i :| FailsAt(resolver, arguments, s, i, a.error);
      if b.Success? {
        FailsOnce(resolver, arguments, s, i, a.error, |s|);
      } else {
        var j :| FailsAt(resolver, arguments, s, j, b.error);
        FailsOnce(resolver, arguments, s, i, a.error, j);
        FailsOnce(resolver, arguments, s, j, b.error, i);
      }
    } else if b.Failure? {
      var j :| FailsAt(resolver, arguments, s, j, b.error);
      FailsOnce(resolver, arguments, s, j, b.error, |s|);
    }
  }

  /** Listing the selectors in another order changes nothing, not even the error. */
  lemma {:induction false} SelectorOrderIrrelevant(
    resolver: Resolver, a: seq<Selector>, b: seq<Selector>, arguments: Value,
    ra: Result<Derived, ResolutionError>, rb: Result<Derived, ResolutionError>)
    requires multiset(a) == multiset(b)
    requires Derives(resolver, a, arguments, ra) && Derives(resolver, b, arguments, rb)
    ensures ra == rb
  {
    SelectorOrder();
    SortForgetsOrder(SelectorLe, a, b);
    hide Sort, Fine, Normalizes, FailsAt;
    DerivesUnique(resolver, a, arguments, ra, rb);
  }

  // ---- positions ----

  lemma {:induction false} WinnersExact(order: seq<Pointer>, canonical: map<Pointer, Bytes>, t: Tokens)
    requires forall p | p in order :: p in canonical && Parse(p).Some?
    ensures t in Winners(order, canonical) <==> exists p | p in order :: Parse(p) == Some(t)
    ensures t in Winners(order, canonical) ==>
      exists p | p in order :: Parse(p) == Some(t) && Winners(order, canonical)[t] == canonical[p]
  {
    hide Parse;
    if order != [] {
      var n := |order| - 1;
      WinnersExact(order[..n], canonical, t);
      assert order == order[..n] + [order[n]];
    }
  }

  /** Each selected position holds the value that won it. */
  lemma AtSelected(arguments: Value, order: seq<Pointer>, canonical: map<Pointer, Bytes>, p: Pointer)
    requires KeyOrder(order, canonical.Keys) && AllText(arguments, canonical.Keys) && p in canonical
    ensures
      var w := Winners(order, canonical);
      Parse(p).Some? && Parse(p).value in w && At(Substitute(arguments, [], w), p) == Some(Text(w[Parse(p).value]))
  {
    hide Lookup, IsText;
    var w, t := Winners(order, canonical), Parse(p).value;
    hide Parse;
    WinnersExact(order, canonical, t);
    WinnersAreText(arguments, order, canonical);
    TextExists(arguments, t);
    NothingAbove(arguments, w, t);
    LookupSubstitute(arguments, [], w, t);
    assert [] + t == t;
  }

  lemma TextExists(v: Value, t: Tokens)
    requires IsText(v, t)
    ensures Lookup(v, t).Some?
  {
  }

  /** Both are objects with the same keys, or lists of the same length. */
  predicate SameContainer(a: Value, b: Value) {
    || (a.Object? && b.Object? && a.fields.Keys == b.fields.Keys)
    || (a.Array? && b.Array? && |a.items| == |b.items|)
  }

  lemma {:induction false} LookupAppend(v: Value, a: Tokens, b: Tokens)
    ensures Lookup(v, a + b) == if Lookup(v, a).Some? then Lookup(Lookup(v, a).value, b) else None
    decreases |a|
  {
    if a == [] {
      assert a + b == b;
    } else {
      assert (a + b)[1..] == a[1..] + b;
      if Child(v, a[0]).Some? {
        LookupAppend(Child(v, a[0]).value, a[1..], b);
      }
    }
  }

  /** Nothing else changes: a position that is not selected and has no selected one below it keeps its
      value, and a container above a selected position keeps its keys or its length. */
  lemma UnselectedUnchanged(arguments: Value, canonical: map<Pointer, Bytes>, normalized: Value, u: Tokens)
    requires Normalizes(arguments, canonical, normalized)
    ensures (forall p | p in canonical :: Parse(p).Some? && !(u <= Parse(p).value)) ==>
      Lookup(normalized, u) == Lookup(arguments, u)
    ensures forall p | p in canonical && Parse(p).Some? && u <= Parse(p).value && u != Parse(p).value ::
      && Lookup(arguments, u).Some? && Lookup(normalized, u).Some?
      && SameContainer(Lookup(arguments, u).value, Lookup(normalized, u).value)
  {
    var order :| NormalizedBy(order, arguments, canonical, normalized);
    hide Parse, KeyOrder, Lookup, Substitute, IsText, SameContainer;
    KeysOf(order, canonical.Keys);
    var w := Winners(order, canonical);
    WinnersAreText(arguments, order, canonical);
    if forall p | p in canonical :: Parse(p).Some? && !(u <= Parse(p).value) {
      forall t | t in w
        ensures !(u <= t)
      {
        WinnersExact(order, canonical, t);
      }
      Outside(arguments, w, u);
    }
    forall p | p in canonical && Parse(p).Some? && u <= Parse(p).value && u != Parse(p).value
      ensures Lookup(arguments, u).Some? && Lookup(normalized, u).Some?
      ensures SameContainer(Lookup(arguments, u).value, Lookup(normalized, u).value)
    {
      Above(arguments, w, u, Parse(p).value);
    }
  }

  lemma Outside(arguments: Value, w: map<Tokens, Bytes>, u: Tokens)
    requires TextOnly(arguments, w.Keys) && forall t | t in w :: !(u <= t)
    ensures Lookup(Substitute(arguments, [], w), u) == Lookup(arguments, u)
  {
    var normalized := Substitute(arguments, [], w);
    hide Substitute, Lookup;
    if n :| 0 <= n < |u| && u[..n] in w {
      var t := u[..n];
      assert IsText(arguments, t);
      NothingAbove(arguments, w, t);
      LookupSubstitute(arguments, [], w, t);
      assert [] + t == t && u == t + u[n..];
      SubstitutedText(Lookup(arguments, t).value, t, w);
      LookupAppend(arguments, t, u[n..]);
      LookupAppend(normalized, t, u[n..]);
      NothingBelowText(Lookup(arguments, t).value, u[n..]);
      NothingBelowText(Lookup(normalized, t).value, u[n..]);
    } else {
      assert [] + u == u && forall n | 0 <= n < |u| :: [] + u[..n] == u[..n];
      LookupSubstitute(arguments, [], w, u);
      if Lookup(arguments, u).Some? {
        SubstituteNothing(Lookup(arguments, u).value, u, w);
      }
    }
  }

  lemma SubstitutedText(v: Value, here: Tokens, w: map<Tokens, Bytes>)
    requires here in w
    ensures Substitute(v, here, w).Text?
  {
  }

  lemma Above(arguments: Value, w: map<Tokens, Bytes>, u: Tokens, t: Tokens)
    requires TextOnly(arguments, w.Keys) && IsText(arguments, t) && u <= t && u != t
    ensures Lookup(arguments, u).Some? && Lookup(Substitute(arguments, [], w), u).Some?
    ensures SameContainer(Lookup(arguments, u).value, Lookup(Substitute(arguments, [], w), u).value)
  {
    var rest := t[|u|..];
    assert t == u + rest;
    LookupAppend(arguments, u, rest);
    NothingAbove(arguments, w, u);
    hide Lookup;
    LookupSubstitute(arguments, [], w, u);
    assert [] + u == u;
    if u in w {
      LeafIsLowest(arguments, u, t);
    }
    ContainerStays(Lookup(arguments, u).value, u, w, rest);
  }

  lemma ContainerStays(v: Value, here: Tokens, w: map<Tokens, Bytes>, rest: Tokens)
    requires rest != [] && Lookup(v, rest).Some? && here !in w
    ensures SameContainer(v, Substitute(v, here, w))
  {
  }

  // ---- resources and arguments agree ----

  /** Selectors whose pointers name the same position canonicalise it alike. */
  ghost predicate Consistent(resolver: Resolver, arguments: Value, s: seq<Selector>)
    requires AllResolvable(resolver, arguments, s)
  {
    forall i, j | 0 <= i < |s| && 0 <= j < |s| && Parse(s[i].pointer) == Parse(s[j].pointer) ::
      Canonical(resolver, arguments, s[i]) == Canonical(resolver, arguments, s[j])
  }

  /** The canonical resource of every selector stands at its pointer. */
  ghost predicate Faithful(resolver: Resolver, arguments: Value, s: seq<Selector>, normalized: Value)
    requires AllResolvable(resolver, arguments, s)
  {
    forall i | 0 <= i < |s| :: At(normalized, s[i].pointer) == Some(Text(Canonical(resolver, arguments, s[i])))
  }

  lemma WellFormedIsConsistent(resolver: Resolver, arguments: Value, s: seq<Selector>)
    requires Fine(resolver, arguments, s) && forall i | 0 <= i < |s| :: WellFormedPointer(s[i].pointer)
    ensures Consistent(resolver, arguments, s)
  {
    hide WellFormedPointer, Parse, Resolvable, Canonical;
    forall i, j | 0 <= i < |s| && 0 <= j < |s| && Parse(s[i].pointer) == Parse(s[j].pointer)
      ensures Canonical(resolver, arguments, s[i]) == Canonical(resolver, arguments, s[j])
    {
      PointerInjective(s[i].pointer, s[j].pointer);
      if i < j {
        assert Agree(resolver, arguments, s[i], s[j]);
      } else if j < i {
        assert Agree(resolver, arguments, s[j], s[i]);
      }
    }
  }

  /** The returned resources are the strings that the normalised arguments hold at the selectors,
      exactly when no two selectors name one position in two ways and disagree about it. */
  lemma {:induction false} FaithfulIffConsistent(resolver: Resolver, arguments: Value, s: seq<Selector>, normalized: Value)
    requires Fine(resolver, arguments, s)
    requires Normalizes(arguments, Canonicals(resolver, arguments, s), normalized)
    ensures Faithful(resolver, arguments, s, normalized) <==> Consistent(resolver, arguments, s)
  {
    var canonical := Canonicals(resolver, arguments, s);
    CanonicalsExact(resolver, arguments, s);
    hide Canonicals, Resolvable, Canonical, Parse, At, NormalizedBy, AllAgree, AllDistinct, Recorded, Pointers;
    var order :| NormalizedBy(order, arguments, canonical, normalized);
    if Consistent(resolver, arguments, s) {
      forall i | 0 <= i < |s|
        ensures At(normalized, s[i].pointer) == Some(Text(Canonical(resolver, arguments, s[i])))
      {
        ConsistentAt(resolver, arguments, s, canonical, order, normalized, i);
      }
    }
    if Faithful(resolver, arguments, s, normalized) {
      forall i, j | 0 <= i < |s| && 0 <= j < |s| && Parse(s[i].pointer) == Parse(s[j].pointer)
        ensures Canonical(resolver, arguments, s[i]) == Canonical(resolver, arguments, s[j])
      {
        SamePlace(normalized, s[i].pointer, s[j].pointer);
      }
    }
  }

  lemma ConsistentAt(
    resolver: Resolver, arguments: Value, s: seq<Selector>, canonical: map<Pointer, Bytes>, order: seq<Pointer>,
    normalized: Value, i: nat)
    requires AllResolvable(resolver, arguments, s) && Consistent(resolver, arguments, s) && i < |s|
    requires Recorded(resolver, arguments, s, canonical) && canonical.Keys == Pointers(s)
    requires NormalizedBy(order, arguments, canonical, normalized)
    ensures At(normalized, s[i].pointer) == Some(Text(Canonical(resolver, arguments, s[i])))
  {
    hide Resolvable, Canonical, Parse, At, Substitute, KeyOrder, Winners;
    var p := s[i].pointer;
    KeysOf(order, canonical.Keys);
    AtSelected(arguments, order, canonical, p);
    WinnersExact(order, canonical, Parse(p).value);
    var q :| q in order && Parse(q) == Parse(p) && Winners(order, canonical)[Parse(p).value] == canonical[q];
    assert q in Pointers(s);
    var j :| 0 <= j < |s| && s[j].pointer == q;
    assert canonical[s[j].pointer] == Canonical(resolver, arguments, s[j]);
  }

  lemma SamePlace(v: Value, p: Pointer, q: Pointer)
    requires Parse(p) == Parse(q)
    ensures At(v, p) == At(v, q)
  {
  }

  // ---- fixpoint ----

  lemma {:induction false} SubstituteTwice(v: Value, here: Tokens, w: map<Tokens, Bytes>)
    ensures Substitute(Substitute(v, here, w), here, w) == Substitute(v, here, w)
    decreases v
  {
    if here !in w {
      match v
      case Object(fields) =>
        forall k | k in fields {
          SubstituteTwice(fields[k], here + [k], w);
        }
      case Array(items) =>
        forall i | 0 <= i < |items| {
          SubstituteTwice(items[i], here + [Decimal(i)], w);
        }
      case _ =>
    }
  }

  ghost predicate SameSelection(resolver: Resolver, a: Value, b: Value, s: seq<Selector>) {
    forall i | 0 <= i < |s| :: Resolvable(resolver, a, s[i]) && Selected(resolver, a, s[i]) == Selected(resolver, b, s[i])
  }

  lemma {:induction false} SameCanonicals(resolver: Resolver, a: Value, b: Value, s: seq<Selector>)
    requires SameSelection(resolver, a, b, s) && AllResolvable(resolver, a, s) && AllResolvable(resolver, b, s)
    ensures Canonicals(resolver, a, s) == Canonicals(resolver, b, s)
  {
    hide Selected;
    if s != [] {
      SameCanonicals(resolver, a, b, s[..|s| - 1]);
    }
  }

  lemma SameFine(resolver: Resolver, a: Value, b: Value, s: seq<Selector>)
    requires SameSelection(resolver, a, b, s) && Fine(resolver, a, s)
    ensures Fine(resolver, b, s) && Resources(resolver, a, s) == Resources(resolver, b, s)
  {
    hide Selected;
    assert AllResolvable(resolver, b, s);
    forall i | 0 <= i < |s|
      ensures ResourceOf(resolver, a, s[i]) == ResourceOf(resolver, b, s[i])
    {
    }
    forall i, j | 0 <= i < j < |s|
      ensures Agree(resolver, b, s[i], s[j]) && ResourceOf(resolver, b, s[i]) != ResourceOf(resolver, b, s[j])
    {
      assert Agree(resolver, a, s[i], s[j]) && ResourceOf(resolver, a, s[i]) != ResourceOf(resolver, a, s[j]);
    }
  }

  lemma ReselectOne(resolver: Resolver, arguments: Value, normalized: Value, x: Selector)
    requires Idempotent(resolver) && Resolvable(resolver, arguments, x)
    requires At(normalized, x.pointer) == Some(Text(Canonical(resolver, arguments, x)))
    ensures Selected(resolver, normalized, x) == Selected(resolver, arguments, x)
  {
  }

  /** Resolving the normalised arguments again gives the same scopes, resources and arguments. */
  lemma {:induction false} ResolvingAgainIsStable(resolver: Resolver, selectors: seq<Selector>, arguments: Value, d: Derived)
    requires Idempotent(resolver) && Derives(resolver, selectors, arguments, Success(d))
    requires Consistent(resolver, arguments, Sort(SelectorLe, selectors))
    ensures Derives(resolver, selectors, d.normalized, Success(d))
  {
    var s := Sort(SelectorLe, selectors);
    hide Sort;
    FaithfulIffConsistent(resolver, arguments, s, d.normalized);
    hide Selected, Idempotent, Fine, Resources, Scopes, Canonicals, At, Consistent, Resolvable, Canonical;
    forall i | 0 <= i < |s|
      ensures Resolvable(resolver, arguments, s[i])
      ensures Selected(resolver, d.normalized, s[i]) == Selected(resolver, arguments, s[i])
    {
      ReselectOne(resolver, arguments, d.normalized, s[i]);
    }
    SameFine(resolver, arguments, d.normalized, s);
    FineIsResolvable(resolver, arguments, s);
    FineIsResolvable(resolver, d.normalized, s);
    SameCanonicals(resolver, arguments, d.normalized, s);
    SelectedText(resolver, d.normalized, s);
    NormalizedAgain(arguments, Canonicals(resolver, arguments, s), d.normalized);
  }

  lemma FineIsResolvable(resolver: Resolver, arguments: Value, s: seq<Selector>)
    requires Fine(resolver, arguments, s)
    ensures AllResolvable(resolver, arguments, s)
  {
  }

  lemma NormalizedAgain(arguments: Value, canonical: map<Pointer, Bytes>, normalized: Value)
    requires Normalizes(arguments, canonical, normalized) && AllText(normalized, canonical.Keys)
    ensures Normalizes(normalized, canonical, normalized)
  {
    hide KeyOrder, Parse, Substitute, IsText;
    var order :| NormalizedBy(order, arguments, canonical, normalized);
    KeysOf(order, canonical.Keys);
    SubstituteTwice(arguments, [], Winners(order, canonical));
    assert NormalizedBy(order, normalized, canonical, normalized);
  }

  // ---- a pointer with a bare tilde ----

  const MAX_EXECUTABLE_ID_BYTES: nat := 128
  const BARE: Pointer := [Paths.SLASH, 0x61, TILDE]
  const ESCAPED: Pointer := [Paths.SLASH, 0x61, TILDE, ZERO]

  lemma BareAndEscapedAgree()
    ensures Parse(BARE) == Parse(ESCAPED) == Some([[0x61, TILDE]]) && !WellFormedPointer(BARE)
  {
    var a, b := [0x61 as Byte, TILDE], [0x61 as Byte, TILDE, ZERO];
    Utf8.SplitPlain(Paths.SLASH, a);
    Utf8.SplitPlain(Paths.SLASH, b);
    assert BARE[1..] == a && ESCAPED[1..] == b;
    assert Paths.Split(BARE) == [[], a] && Paths.Split(ESCAPED) == [[], b];
    assert !TokenOk(a[1..]) by { assert a[1..] == [TILDE]; }
    assert !TokenOk(Paths.Split(BARE)[1]);
    UnescapeBare();
    assert UnescapeAll([a]) == [a] && UnescapeAll([b]) == [a];
    assert [[], a][1..] == [a] && [[], b][1..] == [b];
  }

  lemma UnescapeBare()
    ensures Unescape([0x61, TILDE]) == [0x61, TILDE] && Unescape([0x61, TILDE, ZERO]) == [0x61, TILDE]
  {
    UnescapePlain(0x61, [TILDE]);
    UnescapePlain(0x61, [TILDE, ZERO]);
    UnescapePairs([]);
    assert [TILDE, ZERO] + [] == [TILDE, ZERO] && [0x61] + [TILDE, ZERO] == [0x61, TILDE, ZERO];
    assert Unescape([]) == [];
    assert [0x61] + [TILDE] == [0x61, TILDE] && Unescape([TILDE]) == [TILDE];
  }

  // ---- the resolvers of the program ----

  const READ_SCOPE: Bytes := Ascii("filesystem.read")
  const WRITE_SCOPE: Bytes := Ascii("filesystem.write")
  const EXECUTE_SCOPE: Bytes := Ascii("process.execute")

  /** `WorkspaceResourceResolver::resolve` */
  function WorkspaceResolver(ws: Bytes): Resolver {
    (scope: Bytes, raw: Bytes) =>
      if scope != READ_SCOPE && scope != WRITE_SCOPE then Failure(UnsupportedScope)
      else match Paths.CanonicalResource(ws, raw)
        case Success(canonical) => Success(canonical)
        case Failure(error) => Failure(if error.Invalid? then InvalidResource else OutsideHostBoundary)
  }

  /** The workspace resolver takes the two ways to write a path, for its two scopes and no other. */
  lemma {:induction false} WorkspaceResolverIff(ws: Bytes, scope: Bytes, raw: Bytes, canonical: Bytes)
    ensures WorkspaceResolver(ws)(scope, raw) == Success(canonical) <==>
            && (scope == Ascii("filesystem.read") || scope == Ascii("filesystem.write"))
            && exists p :: Paths.IsPath(p) && canonical == Paths.Print(ws, p) && (raw == Paths.Display(p) || raw == canonical)
    ensures WorkspaceResolver(ws)(scope, raw) == Failure(UnsupportedScope) <==>
            scope != Ascii("filesystem.read") && scope != Ascii("filesystem.write")
    ensures
      var r := Paths.CanonicalResource(ws, raw);
      && (WorkspaceResolver(ws)(scope, raw) == Failure(OutsideHostBoundary) ==> r == Failure(Paths.OutsideBoundary))
      && (WorkspaceResolver(ws)(scope, raw) == Failure(InvalidResource) ==> r == Failure(Paths.Invalid))
      && WorkspaceResolver(ws)(scope, raw) != Failure(ResolverUnavailable)
  {
    hide Paths.CanonicalResource, Ascii, Paths.IsPath, Paths.Display, Paths.Print;
    if Paths.CanonicalResource(ws, raw).Success? {
      Paths.CanonicalIsPrinted(ws, raw);
    }
    forall p | Paths.IsPath(p)
      ensures Paths.CanonicalResource(ws, raw) == Success(Paths.Print(ws, p)) <==>
              raw == Paths.Display(p) || raw == Paths.Print(ws, p)
    {
      Paths.CanonicalIff(ws, raw, p);
    }
  }

  lemma {:induction false} WorkspaceResolverIsIdempotent(ws: Bytes)
    ensures Idempotent(WorkspaceResolver(ws))
  {
    hide Paths.CanonicalResource, Ascii;
    var resolver := WorkspaceResolver(ws);
    forall scope: Bytes, raw: Bytes | resolver(scope, raw).Success?
      ensures resolver(scope, resolver(scope, raw).value) == resolver(scope, raw)
    {
      Paths.CanonicalIsIdempotent(ws, raw);
    }
  }

  /** The workspace resolver alone never shows a disagreement: it gives every scope the same answer. */
  lemma {:induction false} WorkspaceResolverIsConsistent(ws: Bytes, arguments: Value, s: seq<Selector>)
    requires AllResolvable(WorkspaceResolver(ws), arguments, s)
    ensures Consistent(WorkspaceResolver(ws), arguments, s)
  {
    hide Paths.CanonicalResource, Ascii, Parse, At;
    var resolver := WorkspaceResolver(ws);
    forall i, j | 0 <= i < |s| && 0 <= j < |s| && Parse(s[i].pointer) == Parse(s[j].pointer)
      ensures Canonical(resolver, arguments, s[i]) == Canonical(resolver, arguments, s[j])
    {
      SamePlace(arguments, s[i].pointer, s[j].pointer);
      assert Resolvable(resolver, arguments, s[i]) && Resolvable(resolver, arguments, s[j]);
    }
  }

  /** `validate_executable_id` */
  predicate ValidExecutable(id: Bytes) {
    && 0 < |id| <= MAX_EXECUTABLE_ID_BYTES
    && forall i | 0 <= i < |id| ::
         0x61 <= id[i] <= 0x7A || 0x30 <= id[i] <= 0x39 || (i > 0 && id[i] in {0x2E, 0x5F, 0x2B, 0x2D})
  }

  function ExecutablePrefix(ws: Bytes): Bytes {
    Ascii("process:") + ws + Ascii("/executables/")
  }

  /** `ProcessResourceResolver::resolve` with `parse_resource`, for the executables in `ids`. */
  function ResolveExecutable(ws: Bytes, ids: set<Bytes>, raw: Bytes): Result<Bytes, Rejection> {
    var prefix := ExecutablePrefix(ws);
    if !(prefix <= raw) && Ascii("process:") <= raw then Failure(OutsideHostBoundary)
    else
      var id := if prefix <= raw then raw[|prefix|..] else raw;
      if !ValidExecutable(id) then Failure(InvalidResource)
      else if id in ids then Success(prefix + id) else Failure(OutsideHostBoundary)
  }

  /** `LocalResourceResolver::resolve` of the command line: executables, and the workspace for the rest. */
  function LocalResolver(ws: Bytes, process: Option<(Bytes, set<Bytes>)>): Resolver {
    (scope: Bytes, raw: Bytes) =>
      if scope == EXECUTE_SCOPE then
        if process.None? then Failure(UnsupportedScope) else ResolveExecutable(process.value.0, process.value.1, raw)
      else WorkspaceResolver(ws)(scope, raw)
  }

  /** 1 to 128 lower-case letters, digits, dots, underscores, pluses and dashes, the first a letter or digit. */
  ghost predicate IsExecutableId(id: Bytes) {
    1 <= |id| <= 128 && id[0] in Ascii(LETTERS) && forall b | b in id :: b in Ascii(LETTERS + "._+-")
  }

  const LETTERS := "abcdefghijklmnopqrstuvwxyz0123456789"

  lemma LettersAre(b: Byte)
    ensures b in Ascii(LETTERS) <==> 0x61 <= b <= 0x7A || 0x30 <= b <= 0x39
    ensures b in Ascii(LETTERS + "._+-") <==> b in Ascii(LETTERS) || b in {0x2E, 0x5F, 0x2B, 0x2D}
  {
    var all, more := Ascii(LETTERS), Ascii(LETTERS + "._+-");
    assert forall i | 0 <= i < 26 :: LETTERS[i] as int == 0x61 + i;
    assert forall i | 26 <= i < 36 :: LETTERS[i] as int == 0x30 + (i - 26);
    assert forall i | 0 <= i < 36 :: all[i] == LETTERS[i] as int;
    if 0x61 <= b <= 0x7A {
      assert all[b - 0x61] == b;
    } else if 0x30 <= b <= 0x39 {
      assert all[26 + (b - 0x30)] == b;
    }
    assert more[..36] == all && more[36] == 0x2E && more[37] == 0x5F && more[38] == 0x2B && more[39] == 0x2D;
    assert more == all + [0x2E, 0x5F, 0x2B, 0x2D];
  }

  lemma {:induction false} ExecutableIdIff(id: Bytes)
    ensures ValidExecutable(id) <==> IsExecutableId(id)
  {
    forall b: Byte
      ensures b in Ascii(LETTERS) <==> 0x61 <= b <= 0x7A || 0x30 <= b <= 0x39
      ensures b in Ascii(LETTERS + "._+-") <==> b in Ascii(LETTERS) || b in {0x2E, 0x5F, 0x2B, 0x2D}
    {
      LettersAre(b);
    }
    hide Ascii;
    if IsExecutableId(id) {
      assert forall i | 0 <= i < |id| :: id[i] in id;
    }
  }

  /** The process resolver takes an executable of the registry, by its name or as its resource. */
  lemma {:induction false} ExecutableIff(ws: Bytes, ids: set<Bytes>, raw: Bytes, canonical: Bytes)
    ensures ResolveExecutable(ws, ids, raw) == Success(canonical) <==>
            exists id | id in ids ::
              && IsExecutableId(id) && (raw == id || raw == canonical)
              && canonical == Ascii("process:") + ws + Ascii("/executables/") + id
    ensures
      var prefix := Ascii("process:") + ws + Ascii("/executables/");
      ResolveExecutable(ws, ids, raw) == Failure(OutsideHostBoundary) <==>
        || (Ascii("process:") <= raw && !(prefix <= raw))
        || exists id :: IsExecutableId(id) && id !in ids && (raw == id || raw == prefix + id)
  {
    var prefix := ExecutablePrefix(ws);
    forall id: Bytes
      ensures ValidExecutable(id) <==> IsExecutableId(id)
      ensures ValidExecutable(id) ==> !(Ascii("process:") <= id)
      ensures (prefix + id)[|prefix|..] == id
    {
      ExecutableIdIff(id);
      assert Ascii("process:")[7] == ':' as int;
    }
    assert Ascii("process:") <= prefix;
    hide Ascii, ValidExecutable, IsExecutableId;
    if prefix <= raw {
      assert raw == prefix + raw[|prefix|..];
    }
  }

  lemma ExecutableIsIdempotent(ws: Bytes, ids: set<Bytes>, raw: Bytes)
    requires ResolveExecutable(ws, ids, raw).Success?
    ensures ResolveExecutable(ws, ids, ResolveExecutable(ws, ids, raw).value) == ResolveExecutable(ws, ids, raw)
  {
    hide Ascii, ValidExecutable, ExecutablePrefix;
    var prefix, c := ExecutablePrefix(ws), ResolveExecutable(ws, ids, raw).value;
    var id := if prefix <= raw then raw[|prefix|..] else raw;
    assert c == prefix + id && c[|prefix|..] == id;
  }

  lemma LocalResolverIsIdempotent(ws: Bytes, process: Option<(Bytes, set<Bytes>)>)
    ensures Idempotent(LocalResolver(ws, process))
  {
    WorkspaceResolverIsIdempotent(ws);
    hide Ascii, WorkspaceResolver, ResolveExecutable;
    var resolver := LocalResolver(ws, process);
    forall scope: Bytes, raw: Bytes | resolver(scope, raw).Success?
      ensures resolver(scope, resolver(scope, raw).value) == resolver(scope, raw)
    {
      if scope == EXECUTE_SCOPE {
        ExecutableIsIdempotent(process.value.0, process.value.1, raw);
        var c := resolver(scope, raw).value;
        assert resolver(scope, c) == ResolveExecutable(process.value.0, process.value.1, c);
      } else {
        assert resolver(scope, raw) == WorkspaceResolver(ws)(scope, raw);
        var c := resolver(scope, raw).value;
        assert resolver(scope, c) == WorkspaceResolver(ws)(scope, c);
      }
    }
  }

  // ---- two scopes, one position ----

  /** The two selectors of the counterexample: a file to read, and an executable. */
  function BareSelectors(): seq<Selector> {
    [Selector(READ_SCOPE, ESCAPED), Selector(EXECUTE_SCOPE, BARE)]
  }

  function BareArguments(raw: Bytes): Value {
    Object(map[[0x61, TILDE] := Text(raw)])
  }

  /** A pointer outside the grammar can name a position that another selector also names. When the two
      scopes canonicalise the string there differently, the derivation still succeeds, with a resource
      that the arguments do not hold at its selector. */
  lemma {:induction false} MalformedPointersDisagree(resolver: Resolver, raw: Bytes)
    requires raw != [] && resolver(READ_SCOPE, raw).Success? && resolver(EXECUTE_SCOPE, raw).Success?
    requires resolver(READ_SCOPE, raw) != resolver(EXECUTE_SCOPE, raw)
    requires resolver(READ_SCOPE, raw).value != [] && resolver(EXECUTE_SCOPE, raw).value != []
    ensures
      var arguments, s := BareArguments(raw), BareSelectors();
      && Fine(resolver, arguments, s) && Sort(SelectorLe, s) == s
      && forall normalized | Normalizes(arguments, Canonicals(resolver, arguments, s), normalized) ::
           !Faithful(resolver, arguments, s, normalized)
  {
    var arguments, s := BareArguments(raw), BareSelectors();
    BareAndEscapedAgree();
    BareLookup(raw);
    BareSorted();
    hide Parse, Lookup, Sort, Ascii, BareArguments;
    BareFine(resolver, arguments, raw, s);
    forall normalized | Normalizes(arguments, Canonicals(resolver, arguments, s), normalized)
      ensures !Faithful(resolver, arguments, s, normalized)
    {
      FaithfulIffConsistent(resolver, arguments, s, normalized);
    }
  }

  lemma BareLookup(raw: Bytes)
    ensures Lookup(BareArguments(raw), [[0x61, TILDE]]) == Some(Text(raw))
  {
    var token: Bytes := [0x61, TILDE];
    assert Child(BareArguments(raw), token) == Some(Text(raw));
    assert [token][1..] == [];
  }

  lemma ScopesDiffer()
    ensures READ_SCOPE != EXECUTE_SCOPE && LexLe(READ_SCOPE, EXECUTE_SCOPE)
    ensures WRITE_SCOPE != EXECUTE_SCOPE
  {
    assert READ_SCOPE[0] == 'f' as int && WRITE_SCOPE[0] == 'f' as int && EXECUTE_SCOPE[0] == 'p' as int;
  }

  lemma BareSorted()
    ensures Sort(SelectorLe, BareSelectors()) == BareSelectors()
  {
    ScopesDiffer();
    hide LexLe, Ascii;
    var s := BareSelectors();
    assert SelectorLe(s[0], s[1]);
    assert s[1..] == [s[1]] && s[1..][1..] == [];
    assert Sort(SelectorLe, s[1..]) == [s[1]];
  }

  lemma BareFine(resolver: Resolver, arguments: Value, raw: Bytes, s: seq<Selector>)
    requires raw != [] && s == BareSelectors()
    requires resolver(READ_SCOPE, raw).Success? && resolver(EXECUTE_SCOPE, raw).Success?
    requires resolver(READ_SCOPE, raw) != resolver(EXECUTE_SCOPE, raw)
    requires resolver(READ_SCOPE, raw).value != [] && resolver(EXECUTE_SCOPE, raw).value != []
    requires At(arguments, BARE) == Some(Text(raw)) && At(arguments, ESCAPED) == Some(Text(raw))
    requires Parse(BARE) == Parse(ESCAPED)
    ensures Fine(resolver, arguments, s) && !Consistent(resolver, arguments, s)
  {
    ScopesDiffer();
    hide At, Parse, Ascii, LexLe;
    assert Selected(resolver, arguments, s[0]) == Success(resolver(READ_SCOPE, raw).value);
    assert Selected(resolver, arguments, s[1]) == Success(resolver(EXECUTE_SCOPE, raw).value);
    assert s[0].pointer != s[1].pointer;
    assert Canonical(resolver, arguments, s[0]) != Canonical(resolver, arguments, s[1]);
    assert Parse(s[0].pointer) == Parse(s[1].pointer);
  }

  /** The resolver of the command line shows it, for the executable and file name `a`. */
  lemma LocalResolverDisagrees(ws: Bytes, process: Bytes, ids: set<Bytes>)
    requires [0x61] in ids
    ensures
      var resolver, arguments, s := LocalResolver(ws, Some((process, ids))), BareArguments([0x61]), BareSelectors();
      && Idempotent(resolver) && Fine(resolver, arguments, s)
      && forall normalized | Normalizes(arguments, Canonicals(resolver, arguments, s), normalized) ::
           !Faithful(resolver, arguments, s, normalized)
  {
    var resolver, raw: Bytes := LocalResolver(ws, Some((process, ids))), [0x61];
    LocalResolverIsIdempotent(ws, Some((process, ids)));
    ReadsLetter(ws);
    RunsLetter(process, ids);
    ScopesDiffer();
    hide Idempotent, Fine, Faithful, Normalizes, Canonicals, Paths.CanonicalResource, ResolveExecutable, Ascii, LexLe;
    assert resolver(READ_SCOPE, raw) == WorkspaceResolver(ws)(READ_SCOPE, raw);
    assert resolver(EXECUTE_SCOPE, raw) == ResolveExecutable(process, ids, raw);
    MalformedPointersDisagree(resolver, raw);
  }

  lemma ReadsLetter(ws: Bytes)
    ensures
      var r := Paths.CanonicalResource(ws, [0x61]);
      r.Success? && r.value != [] && r.value[0] == 'w' as int
  {
    var p: Paths.RelativePath := [[0x61]];
    LetterIsWellFormed();
    assert Paths.Display(p) == [0x61];
    hide Paths.CanonicalResource, Paths.WellFormed;
    Paths.CanonicalPrints(ws, p);
    assert Ascii("workspace:")[0] == 'w' as int;
  }

  lemma LetterIsWellFormed()
    ensures Paths.WellFormed([[0x61]])
  {
    var c: Bytes := [0x61];
    assert Paths.Join([c]) == c;
    LetterIsAccepted();
    Paths.ComponentErrorMeans(c);
    hide Paths.InGrammar, Paths.ComponentError;
  }

  lemma LetterIsAccepted()
    ensures Paths.ComponentError([0x61]).None?
  {
    LetterIsNoDevice();
    hide Paths.IsWindowsDeviceName;
    assert !Paths.HasControl([0x61]);
  }

  lemma LetterIsNoDevice()
    ensures !Paths.IsWindowsDeviceName([0x61])
  {
    var c: Bytes := [0x61];
    assert c[..Paths.StemEnd(c, 0)] == c;
    assert Paths.TrimSpaces(c) == c;
    assert c[1..] == [] && Paths.Upper(c) == [0x41];
    assert |Ascii("CON")| == 3 && |Ascii("PRN")| == 3 && |Ascii("AUX")| == 3 && |Ascii("NUL")| == 3;
    assert |Ascii("CLOCK$")| == 6 && |Ascii("CONIN$")| == 6 && |Ascii("CONOUT$")| == 7;
    assert |Ascii("COM")| == 3 && |Ascii("LPT")| == 3;
  }

  lemma RunsLetter(ws: Bytes, ids: set<Bytes>)
    requires [0x61] in ids
    ensures
      var r := ResolveExecutable(ws, ids, [0x61]);
      r.Success? && r.value != [] && r.value[0] == 'p' as int
  {
    assert |Ascii("process:")| == 8 && Ascii("process:")[0] == 'p' as int;
    assert |ExecutablePrefix(ws)| > 1 && ExecutablePrefix(ws)[0] == 'p' as int;
  }
}
