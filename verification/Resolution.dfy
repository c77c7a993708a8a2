/** Deriving the permission request of an invocation from its arguments: resolution.rs. */
module Resolution {
  import opened Wrappers
  import opened Utf8
  import opened Sorting
  import opened Json
  import opened JsonPointer

  datatype Selector = Selector(scope: Bytes, pointer: Pointer)
  datatype Resource = Resource(scope: Bytes, canonical: Bytes)
  datatype Rejection = InvalidResource | OutsideHostBoundary | UnsupportedScope | ResolverUnavailable

  datatype ResolutionError =
    | UnsupportedDefinitionApiVersion(actual: Bytes)
    | UnsupportedRequiredExtensions(extensions: set<Bytes>)
    | EmptyInvocationIdentity
    | EmptyResourceSelectors
    | MissingResourceArgument(selector: Selector)
    | ResourceArgumentMustBeString(selector: Selector)
    | EmptyResourceArgument(selector: Selector)
    | ResolverRejected(scope: Bytes, code: Rejection)
    | EmptyCanonicalResource(scope: Bytes)
    | ConflictingPointerCanonicalization(pointer: Pointer)
    | DuplicateConcreteResource(scope: Bytes)
    | NormalizationTargetLost(pointer: Pointer)
    | DuplicateCriticalAction

  /** The trusted resolver: scope and raw resource to canonical resource. */
  type Resolver = (Bytes, Bytes) -> Result<Bytes, Rejection>

  ghost predicate Idempotent(resolver: Resolver) {
    forall scope, raw | resolver(scope, raw).Success? ::
      resolver(scope, resolver(scope, raw).value) == resolver(scope, raw)
  }

  // ---- one selector ----

  /** `Value::pointer` */
  function At(v: Value, pointer: Pointer): Option<Value> {
    if Parse(pointer).None? then None else Lookup(v, Parse(pointer).value)
  }

  /** `resolve_selected_resource`, reduced to the canonical resource. */
  function Selected(resolver: Resolver, arguments: Value, selector: Selector): Result<Bytes, ResolutionError> {
    match At(arguments, selector.pointer)
    case None => Failure(MissingResourceArgument(selector))
    case Some(Text(raw)) =>
      if raw == [] then Failure(EmptyResourceArgument(selector))
      else (match resolver(selector.scope, raw)
            case Failure(code) => Failure(ResolverRejected(selector.scope, code))
            case Success(canonical) =>
              if canonical == [] then Failure(EmptyCanonicalResource(selector.scope)) else Success(canonical))
    case Some(_) => Failure(ResourceArgumentMustBeString(selector))
  }

  /** What one selector gives: the canonical form of the non-empty string it points to, or the error for what
      it points to instead. */
  lemma {:induction false} SelectedIff(resolver: Resolver, arguments: Value, s: Selector, canonical: Bytes, code: Rejection)
    ensures
      var r, at := Selected(resolver, arguments, s), At(arguments, s.pointer);
      var asked := at.Some? && at.value.Text? && at.value.text != [];
      && (r == Success(canonical) <==>
            asked && canonical != [] && resolver(s.scope, at.value.text) == Success(canonical))
      && (r == Failure(MissingResourceArgument(s)) <==> at.None?)
      && (r == Failure(ResourceArgumentMustBeString(s)) <==> at.Some? && !at.value.Text?)
      && (r == Failure(EmptyResourceArgument(s)) <==> at == Some(Text([])))
      && (r == Failure(ResolverRejected(s.scope, code)) <==> asked && resolver(s.scope, at.value.text) == Failure(code))
      && (r == Failure(EmptyCanonicalResource(s.scope)) <==> asked && resolver(s.scope, at.value.text) == Success([]))
  {
    hide At;
  }

  predicate Resolvable(resolver: Resolver, arguments: Value, selector: Selector) {
    Selected(resolver, arguments, selector).Success?
  }

  function Canonical(resolver: Resolver, arguments: Value, selector: Selector): Bytes
    requires Resolvable(resolver, arguments, selector)
  {
    Selected(resolver, arguments, selector).value
  }

  // ---- all selectors ----

  predicate SelectorLe(a: Selector, b: Selector) {
    if a.scope != b.scope then LexLe(a.scope, b.scope) else LexLe(a.pointer, b.pointer)
  }

  lemma SelectorOrder()
    ensures TotalPreorder(SelectorLe) && Antisymmetric(SelectorLe)
  {
    hide LexLe;
    forall a: Selector, b: Selector
      ensures SelectorLe(a, b) || SelectorLe(b, a)
      ensures SelectorLe(a, b) && SelectorLe(b, a) ==> a == b
    {
      LexTotal(a.scope, b.scope);
      LexTotal(a.pointer, b.pointer);
    }
    forall a: Selector, b: Selector, c: Selector | SelectorLe(a, b) && SelectorLe(b, c)
      ensures SelectorLe(a, c)
    {
      LexTotal(a.scope, b.scope);
      LexTotal(b.scope, c.scope);
      if a.scope == b.scope == c.scope {
        LexTransitive(a.pointer, b.pointer, c.pointer);
      } else if a.scope != b.scope && b.scope != c.scope {
        LexTransitive(a.scope, b.scope, c.scope);
      }
    }
  }

  ghost predicate AllResolvable(resolver: Resolver, arguments: Value, s: seq<Selector>) {
    forall i | 0 <= i < |s| :: Resolvable(resolver, arguments, s[i])
  }

  ghost predicate Agree(resolver: Resolver, arguments: Value, a: Selector, b: Selector)
    requires Resolvable(resolver, arguments, a) && Resolvable(resolver, arguments, b)
  {
    a.pointer == b.pointer ==> Canonical(resolver, arguments, a) == Canonical(resolver, arguments, b)
  }

  function ResourceOf(resolver: Resolver, arguments: Value, selector: Selector): Resource
    requires Resolvable(resolver, arguments, selector)
  {
    Resource(selector.scope, Canonical(resolver, arguments, selector))
  }

  ghost predicate AllAgree(resolver: Resolver, arguments: Value, s: seq<Selector>)
    requires AllResolvable(resolver, arguments, s)
  {
    forall i, j | 0 <= i < j < |s| :: Agree(resolver, arguments, s[i], s[j])
  }

  ghost predicate AllDistinct(resolver: Resolver, arguments: Value, s: seq<Selector>)
    requires AllResolvable(resolver, arguments, s)
  {
    forall i, j | 0 <= i < j < |s| :: ResourceOf(resolver, arguments, s[i]) != ResourceOf(resolver, arguments, s[j])
  }

  /** Every selector resolves, equal pointers agree, and no resource is named twice. */
  ghost predicate Fine(resolver: Resolver, arguments: Value, s: seq<Selector>) {
    AllResolvable(resolver, arguments, s) && AllAgree(resolver, arguments, s) && AllDistinct(resolver, arguments, s)
  }

  ghost predicate Conflicts(resolver: Resolver, arguments: Value, s: seq<Selector>, x: Selector)
    requires AllResolvable(resolver, arguments, s) && Resolvable(resolver, arguments, x)
  {
    exists j | 0 <= j < |s| :: !Agree(resolver, arguments, s[j], x)
  }

  /** The error of selector `i` when the ones before it are fine. */
  ghost function ErrorAt(resolver: Resolver, arguments: Value, s: seq<Selector>, i: nat): ResolutionError
    requires i < |s| && Fine(resolver, arguments, s[..i])
  {
    if Selected(resolver, arguments, s[i]).Failure? then Selected(resolver, arguments, s[i]).error
    else if Conflicts(resolver, arguments, s[..i], s[i]) then
      ConflictingPointerCanonicalization(s[i].pointer)
    else DuplicateConcreteResource(s[i].scope)
  }

  ghost predicate FailsAt(resolver: Resolver, arguments: Value, s: seq<Selector>, i: nat, error: ResolutionError) {
    && i < |s| && Fine(resolver, arguments, s[..i]) && !Fine(resolver, arguments, s[..i + 1])
    && error == ErrorAt(resolver, arguments, s, i)
  }

  ghost function Scopes(s: seq<Selector>): set<Bytes> {
    set i | 0 <= i < |s| :: s[i].scope
  }

  ghost function Pointers(s: seq<Selector>): set<Pointer> {
    set i | 0 <= i < |s| :: s[i].pointer
  }

  ghost function Resources(resolver: Resolver, arguments: Value, s: seq<Selector>): set<Resource>
    requires AllResolvable(resolver, arguments, s)
  {
    set i | 0 <= i < |s| :: ResourceOf(resolver, arguments, s[i])
  }

  /** The canonical value recorded for each pointer. */
  ghost function Canonicals(resolver: Resolver, arguments: Value, s: seq<Selector>): map<Pointer, Bytes>
    requires AllResolvable(resolver, arguments, s)
  {
    if s == [] then map[]
    else
      var last := s[|s| - 1];
      Canonicals(resolver, arguments, s[..|s| - 1])[last.pointer := Canonical(resolver, arguments, last)]
  }

  // ---- normalising the arguments ----

  ghost predicate KeyOrder(order: seq<Pointer>, keys: set<Pointer>) {
    && Sorted(LexLe, order)
    && (forall i, j | 0 <= i < j < |order| :: order[i] != order[j])
    && (forall p :: p in order <==> p in keys)
  }

  /** The value that each position ends with when the pointers are assigned in order. */
  ghost function Winners(order: seq<Pointer>, canonical: map<Pointer, Bytes>): map<Tokens, Bytes>
    requires forall p | p in order :: p in canonical && Parse(p).Some?
  {
    if order == [] then map[]
    else
      var last := order[|order| - 1];
      Winners(order[..|order| - 1], canonical)[Parse(last).value := canonical[last]]
  }

  ghost predicate AllText(arguments: Value, pointers: set<Pointer>) {
    forall p | p in pointers :: Parse(p).Some? && IsText(arguments, Parse(p).value)
  }

  ghost predicate TextOnly(arguments: Value, positions: set<Tokens>) {
    forall t | t in positions :: IsText(arguments, t)
  }

  /** The keys of a map in the order of a `BTreeMap`. */
  method OrderedKeys(keys: set<Pointer>) returns (order: seq<Pointer>)
    ensures KeyOrder(order, keys)
  {
    var rest: set<Pointer> := keys;
    order := [];
    while rest != {}
      invariant rest <= keys
      invariant forall p :: p in order <==> p in keys - rest
      invariant forall i, j | 0 <= i < j < |order| :: order[i] != order[j]
      decreases |rest|
    {
      var p :| p in rest;
      assert p !in order;
      order := order + [p];
      rest := rest - {p};
    }
    ghost var unsorted := order;
    order := Sort(LexLe, order);
    SortedDistinct(unsorted, order);
  }

  lemma SortedDistinct(a: seq<Pointer>, b: seq<Pointer>)
    requires b == Sort(LexLe, a) && forall i, j | 0 <= i < j < |a| :: a[i] != a[j]
    ensures Sorted(LexLe, b) && (forall i, j | 0 <= i < j < |b| :: b[i] != b[j]) && forall p :: p in b <==> p in a
  {
    LexIsTotalOrder();
    SortSorted(LexLe, a);
    hide Sort, LexLe, TotalPreorder, Sorted;
    SameElements(a, b);
    DistinctPermutes(a, b);
  }

  // ---- the tree while pointers are assigned ----

  lemma NothingBelowText(v: Value, tokens: Tokens)
    requires v.Text?
    ensures Lookup(v, tokens).Some? ==> tokens == []
  {
  }

  /** A string has no position below it. */
  lemma {:induction false} LeafIsLowest(v: Value, a: Tokens, b: Tokens)
    requires IsText(v, a) && Lookup(v, b).Some? && a <= b
    ensures a == b
    decreases |a|
  {
    if a == [] {
      NothingBelowText(v, b);
    } else {
      assert a[0] == b[0] && a[1..] <= b[1..];
      LeafIsLowest(Child(v, a[0]).value, a[1..], b[1..]);
      assert a == [a[0]] + a[1..] && b == [b[0]] + b[1..];
    }
  }

  lemma NothingAbove(v: Value, s: map<Tokens, Bytes>, t: Tokens)
    requires TextOnly(v, s.Keys) && Lookup(v, t).Some?
    ensures forall n | 0 <= n < |t| :: [] + t[..n] !in s
  {
    forall n | 0 <= n < |t|
      ensures [] + t[..n] !in s
    {
      assert [] + t[..n] == t[..n];
      if t[..n] in s {
        LeafIsLowest(v, t[..n], t);
      }
    }
  }

  lemma AssignNext(arguments: Value, order: seq<Pointer>, n: nat, canonical: map<Pointer, Bytes>)
    requires KeyOrder(order, canonical.Keys) && AllText(arguments, canonical.Keys) && n < |order|
    ensures
      var t := Parse(order[n]);
      && t.Some? && TextOnly(arguments, Winners(order[..n], canonical).Keys)
      && var before := Substitute(arguments, [], Winners(order[..n], canonical));
      && Lookup(before, t.value).Some?
      && Put(before, t.value, canonical[order[n]]) == Substitute(arguments, [], Winners(order[..n + 1], canonical))
  {
    hide Parse, Lookup, Put, Substitute;
    WinnersAreText(arguments, order[..n], canonical);
    assert order[n] in order;
    var t, w := Parse(order[n]).value, Winners(order[..n], canonical);
    NothingAbove(arguments, w, t);
    PutExtends(arguments, [], w, t, canonical[order[n]]);
    assert [] + t == t;
    assert order[..n + 1][..n] == order[..n];
  }

  lemma {:induction false} WinnersAreText(arguments: Value, order: seq<Pointer>, canonical: map<Pointer, Bytes>)
    requires AllText(arguments, canonical.Keys) && forall p | p in order :: p in canonical
    ensures TextOnly(arguments, Winners(order, canonical).Keys)
  {
    hide Parse, IsText;
    if order != [] {
      WinnersAreText(arguments, order[..|order| - 1], canonical);
      assert order[|order| - 1] in order;
    }
  }

  /** `normalize_resource_arguments`. Assigning one pointer after the other is the simultaneous
      replacement of all selected strings, so no target is ever lost. */
  method NormalizeResourceArguments(arguments: Value, canonicalByPointer: map<Pointer, Bytes>)
    returns (r: Result<Value, ResolutionError>, ghost order: seq<Pointer>)
    ensures KeyOrder(order, canonicalByPointer.Keys)
    ensures AllText(arguments, canonicalByPointer.Keys) ==>
      r == Success(Substitute(arguments, [], Winners(order, canonicalByPointer)))
    ensures r.Failure? ==> exists p :: p in canonicalByPointer && r.error == NormalizationTargetLost(p)
  {
    hide Parse, Lookup, Put, Substitute, IsText, KeyOrder;
    var keys := OrderedKeys(canonicalByPointer.Keys);
    order := keys;
    var normalized := arguments;
    ghost var allText := AllText(arguments, canonicalByPointer.Keys);
    KeysOf(order, canonicalByPointer.Keys);
    if allText {
      AssignNothing(arguments, order, canonicalByPointer);
    }
    for n := 0 to |keys|
      invariant allText ==> normalized == Substitute(arguments, [], Winners(keys[..n], canonicalByPointer))
    {
      if allText {
        AssignNext(arguments, keys, n, canonicalByPointer);
      }
      var tokens := Parse(keys[n]);
      if tokens.None? || Lookup(normalized, tokens.value).None? {
        return Failure(NormalizationTargetLost(keys[n])), order;
      }
      normalized := Put(normalized, tokens.value, canonicalByPointer[keys[n]]);
    }
    assert keys[..|keys|] == keys;
    return Success(normalized), order;
  }

  lemma KeysOf(order: seq<Pointer>, keys: set<Pointer>)
    requires KeyOrder(order, keys)
    ensures forall p | p in order :: p in keys
    ensures forall i | 0 <= i < |order| :: order[i] in keys
  {
  }

  lemma AssignNothing(arguments: Value, order: seq<Pointer>, canonical: map<Pointer, Bytes>)
    requires KeyOrder(order, canonical.Keys) && AllText(arguments, canonical.Keys)
    ensures order[..0] == [] && Winners([], canonical) == map[] && Substitute(arguments, [], map[]) == arguments
    ensures forall p | p in order :: Parse(p).Some?
  {
    SubstituteNothing(arguments, [], map[]);
  }

  // ---- the derivation ----

  lemma FinePrefix(resolver: Resolver, arguments: Value, s: seq<Selector>, n: nat)
    requires Fine(resolver, arguments, s) && n <= |s|
    ensures Fine(resolver, arguments, s[..n])
  {
    hide Canonical, Resolvable;
  }

  ghost predicate Recorded(resolver: Resolver, arguments: Value, s: seq<Selector>, canonical: map<Pointer, Bytes>)
    requires AllResolvable(resolver, arguments, s)
  {
    forall i | 0 <= i < |s| ::
      s[i].pointer in canonical && canonical[s[i].pointer] == Canonical(resolver, arguments, s[i])
  }

  lemma RecordedStep(resolver: Resolver, arguments: Value, s: seq<Selector>, x: Selector, canonical: map<Pointer, Bytes>)
    requires AllResolvable(resolver, arguments, s + [x]) && AllAgree(resolver, arguments, s + [x])
    requires AllResolvable(resolver, arguments, s) && Recorded(resolver, arguments, s, canonical)
    requires Resolvable(resolver, arguments, x)
    ensures Recorded(resolver, arguments, s + [x], canonical[x.pointer := Canonical(resolver, arguments, x)])
  {
    hide Resolvable, Canonical;
    var t := s + [x];
    forall i | 0 <= i < |s|
      ensures x.pointer == s[i].pointer ==> Canonical(resolver, arguments, s[i]) == Canonical(resolver, arguments, x)
    {
      assert t[i] == s[i] && t[|s|] == x && Agree(resolver, arguments, t[i], t[|s|]);
    }
  }

  lemma {:induction false} CanonicalsExact(resolver: Resolver, arguments: Value, s: seq<Selector>)
    requires Fine(resolver, arguments, s)
    ensures Canonicals(resolver, arguments, s).Keys == Pointers(s)
    ensures Recorded(resolver, arguments, s, Canonicals(resolver, arguments, s))
  {
    hide Resolvable, Canonical, Recorded, Pointers, AllAgree, AllDistinct;
    if s == [] {
      NothingRecorded(resolver, arguments);
    } else {
      var n := |s| - 1;
      assert Resolvable(resolver, arguments, s[n]);
      FinePrefix(resolver, arguments, s, n);
      CanonicalsExact(resolver, arguments, s[..n]);
      PointersGrow(s[..n], s[n]);
      assert s == s[..n] + [s[n]];
      RecordedStep(resolver, arguments, s[..n], s[n], Canonicals(resolver, arguments, s[..n]));
    }
  }

  lemma NothingRecorded(resolver: Resolver, arguments: Value)
    ensures Pointers([]) == {} && Recorded(resolver, arguments, [], map[])
  {
  }

  lemma PointersGrow(s: seq<Selector>, x: Selector)
    ensures Pointers(s + [x]) == Pointers(s) + {x.pointer}
    ensures Scopes(s + [x]) == Scopes(s) + {x.scope}
  {
    var t := s + [x];
    forall p
      ensures p in Pointers(t) <==> p in Pointers(s) + {x.pointer}
    {
      if p in Pointers(s) {
        var i :| 0 <= i < |s| && s[i].pointer == p;
        assert t[i].pointer == p;
      }
      assert t[|s|] == x;
    }
    forall c
      ensures c in Scopes(t) <==> c in Scopes(s) + {x.scope}
    {
      if c in Scopes(s) {
        var i :| 0 <= i < |s| && s[i].scope == c;
        assert t[i].scope == c;
      }
      assert t[|s|] == x;
    }
  }

  lemma ResourcesGrow(resolver: Resolver, arguments: Value, s: seq<Selector>, x: Selector)
    requires AllResolvable(resolver, arguments, s) && Resolvable(resolver, arguments, x)
    ensures AllResolvable(resolver, arguments, s + [x])
    ensures Resources(resolver, arguments, s + [x]) == Resources(resolver, arguments, s) + {ResourceOf(resolver, arguments, x)}
  {
    hide Selected;
    var t := s + [x];
    forall c
      ensures c in Resources(resolver, arguments, t) <==>
              c in Resources(resolver, arguments, s) + {ResourceOf(resolver, arguments, x)}
    {
      if c in Resources(resolver, arguments, s) {
        var i :| 0 <= i < |s| && ResourceOf(resolver, arguments, s[i]) == c;
        assert t[i] == s[i];
      }
      assert t[|s|] == x;
    }
  }

  /** No selector before conflicts with `x`. */
  ghost predicate Joins(resolver: Resolver, arguments: Value, s: seq<Selector>, x: Selector)
    requires Fine(resolver, arguments, s)
  {
    && Resolvable(resolver, arguments, x)
    && (x.pointer in Canonicals(resolver, arguments, s) ==>
          Canonicals(resolver, arguments, s)[x.pointer] == Canonical(resolver, arguments, x))
    && ResourceOf(resolver, arguments, x) !in Resources(resolver, arguments, s)
  }

  lemma AgreeStep(resolver: Resolver, arguments: Value, s: seq<Selector>, x: Selector, canonical: map<Pointer, Bytes>)
    requires AllResolvable(resolver, arguments, s) && AllResolvable(resolver, arguments, s + [x])
    requires Resolvable(resolver, arguments, x) && AllAgree(resolver, arguments, s)
    requires Recorded(resolver, arguments, s, canonical) && canonical.Keys == Pointers(s)
    ensures AllAgree(resolver, arguments, s + [x]) <==>
            (x.pointer in canonical ==> canonical[x.pointer] == Canonical(resolver, arguments, x))
  {
    hide Resolvable, Canonical;
    var t := s + [x];
    assert t[|s|] == x && forall i | 0 <= i < |s| :: t[i] == s[i];
    if AllAgree(resolver, arguments, t) && x.pointer in canonical {
      var i :| 0 <= i < |s| && s[i].pointer == x.pointer;
      assert Agree(resolver, arguments, t[i], t[|s|]);
    }
  }

  lemma DistinctStep(resolver: Resolver, arguments: Value, s: seq<Selector>, x: Selector)
    requires AllResolvable(resolver, arguments, s) && AllResolvable(resolver, arguments, s + [x])
    requires Resolvable(resolver, arguments, x) && AllDistinct(resolver, arguments, s)
    ensures AllDistinct(resolver, arguments, s + [x]) <==>
            ResourceOf(resolver, arguments, x) !in Resources(resolver, arguments, s)
  {
    hide Resolvable, ResourceOf;
    var t := s + [x];
    assert t[|s|] == x && forall i | 0 <= i < |s| :: t[i] == s[i];
  }

  lemma FineStep(resolver: Resolver, arguments: Value, s: seq<Selector>, x: Selector)
    requires Fine(resolver, arguments, s)
    ensures Fine(resolver, arguments, s + [x]) <==> Joins(resolver, arguments, s, x)
  {
    CanonicalsExact(resolver, arguments, s);
    hide Resolvable, Canonicals, Canonical, ResourceOf, Resources, AllAgree, AllDistinct, Recorded, AllResolvable;
    ResolvableStep(resolver, arguments, s, x);
    if Resolvable(resolver, arguments, x) {
      AgreeStep(resolver, arguments, s, x, Canonicals(resolver, arguments, s));
      DistinctStep(resolver, arguments, s, x);
    }
  }

  lemma ResolvableStep(resolver: Resolver, arguments: Value, s: seq<Selector>, x: Selector)
    requires AllResolvable(resolver, arguments, s)
    ensures AllResolvable(resolver, arguments, s + [x]) <==> Resolvable(resolver, arguments, x)
  {
    hide Resolvable;
    var t := s + [x];
    assert t[|s|] == x && forall i | 0 <= i < |s| :: t[i] == s[i];
  }

  lemma ConflictMeans(resolver: Resolver, arguments: Value, s: seq<Selector>, x: Selector)
    requires Fine(resolver, arguments, s) && Resolvable(resolver, arguments, x)
    ensures
      var canonical := Canonicals(resolver, arguments, s);
      Conflicts(resolver, arguments, s, x) <==>
        x.pointer in canonical && canonical[x.pointer] != Canonical(resolver, arguments, x)
  {
    CanonicalsExact(resolver, arguments, s);
    hide Resolvable, Canonicals, Canonical, AllAgree, AllDistinct;
    var canonical := Canonicals(resolver, arguments, s);
    if x.pointer in canonical && canonical[x.pointer] != Canonical(resolver, arguments, x) {
      assert x.pointer in Pointers(s);
      var j :| 0 <= j < |s| && s[j].pointer == x.pointer;
      assert !Agree(resolver, arguments, s[j], x);
    }
  }

  lemma FineSelectsText(resolver: Resolver, arguments: Value, s: seq<Selector>)
    requires AllResolvable(resolver, arguments, s)
    ensures AllText(arguments, Pointers(s))
  {
  }

  datatype Derived = Derived(normalized: Value, scopes: set<Bytes>, resources: set<Resource>)

  ghost predicate NormalizedBy(order: seq<Pointer>, arguments: Value, canonical: map<Pointer, Bytes>, normalized: Value) {
    && KeyOrder(order, canonical.Keys) && AllText(arguments, canonical.Keys)
    && normalized == Substitute(arguments, [], Winners(order, canonical))
  }

  ghost predicate Normalizes(arguments: Value, canonical: map<Pointer, Bytes>, normalized: Value) {
    exists order :: NormalizedBy(order, arguments, canonical, normalized)
  }

  /** What `derive_invocation_resources` returns for these selectors. */
  ghost predicate Derives(resolver: Resolver, selectors: seq<Selector>, arguments: Value, r: Result<Derived, ResolutionError>) {
    var s := Sort(SelectorLe, selectors);
    match r
    case Success(d) =>
      && Fine(resolver, arguments, s)
      && d.scopes == Scopes(s) && d.resources == Resources(resolver, arguments, s)
      && Normalizes(arguments, Canonicals(resolver, arguments, s), d.normalized)
    case Failure(error) => exists i :: FailsAt(resolver, arguments, s, i, error)
  }

  /** `derive_invocation_resources` */
  method DeriveInvocationResources(resolver: Resolver, selectors: seq<Selector>, arguments: Value)
    returns (r: Result<Derived, ResolutionError>)
    ensures Derives(resolver, selectors, arguments, r)
  {
    hide Selected, Fine, Sort, Scopes, Resources, Pointers, KeyOrder, Winners, AllText, Canonicals, Conflicts;
    var s := Sort(SelectorLe, selectors);
    var requestedScopes: set<Bytes>, resources: set<Resource> := {}, {};
    var canonicalByPointer: map<Pointer, Bytes> := map[];
    NothingYet(resolver, arguments, s);
    for i := 0 to |s|
      invariant Fine(resolver, arguments, s[..i])
      invariant Collected(resolver, arguments, s[..i], requestedScopes, resources, canonicalByPointer)
    {
      var x := s[i];
      assert s[..i + 1] == s[..i] + [x];
      FineStep(resolver, arguments, s[..i], x);
      var selected := Selected(resolver, arguments, x);
      if selected.Failure? {
        SelectionFails(resolver, arguments, s, i);
        return Failure(selected.error);
      }
      ConflictMeans(resolver, arguments, s[..i], x);
      CollectedStep(resolver, arguments, s[..i], x, requestedScopes, resources, canonicalByPointer);
      if x.pointer in canonicalByPointer && canonicalByPointer[x.pointer] != selected.value {
        assert FailsAt(resolver, arguments, s, i, ConflictingPointerCanonicalization(x.pointer));
        return Failure(ConflictingPointerCanonicalization(x.pointer));
      }
      canonicalByPointer := canonicalByPointer[x.pointer := selected.value];
      requestedScopes := requestedScopes + {x.scope};
      var resource := Resource(x.scope, selected.value);
      if resource in resources {
        assert FailsAt(resolver, arguments, s, i, DuplicateConcreteResource(x.scope));
        return Failure(DuplicateConcreteResource(x.scope));
      }
      resources := resources + {resource};
    }
    assert s[..|s|] == s;
    SelectedText(resolver, arguments, s);
    var normalized, order := NormalizeResourceArguments(arguments, canonicalByPointer);
    assert NormalizedBy(order, arguments, canonicalByPointer, normalized.value);
    return Success(Derived(normalized.value, requestedScopes, resources));
  }

  ghost predicate Collected(
    resolver: Resolver, arguments: Value, s: seq<Selector>, scopes: set<Bytes>, resources: set<Resource>,
    canonical: map<Pointer, Bytes>)
  {
    && Fine(resolver, arguments, s) && scopes == Scopes(s) && resources == Resources(resolver, arguments, s)
    && canonical == Canonicals(resolver, arguments, s)
  }

  lemma NothingYet(resolver: Resolver, arguments: Value, s: seq<Selector>)
    ensures Fine(resolver, arguments, s[..0]) && Collected(resolver, arguments, s[..0], {}, {}, map[])
  {
  }

  lemma SelectionFails(resolver: Resolver, arguments: Value, s: seq<Selector>, i: nat)
    requires i < |s| && Fine(resolver, arguments, s[..i]) && Selected(resolver, arguments, s[i]).Failure?
    ensures FailsAt(resolver, arguments, s, i, Selected(resolver, arguments, s[i]).error)
  {
    hide Selected;
    assert s[..i + 1] == s[..i] + [s[i]];
    FineStep(resolver, arguments, s[..i], s[i]);
  }

  lemma CollectedStep(
    resolver: Resolver, arguments: Value, s: seq<Selector>, x: Selector, scopes: set<Bytes>, resources: set<Resource>,
    canonical: map<Pointer, Bytes>)
    requires Collected(resolver, arguments, s, scopes, resources, canonical) && Resolvable(resolver, arguments, x)
    ensures
      var c := Canonical(resolver, arguments, x);
      && canonical == Canonicals(resolver, arguments, s) && resources == Resources(resolver, arguments, s)
      && (Fine(resolver, arguments, s + [x]) ==>
            Collected(resolver, arguments, s + [x], scopes + {x.scope}, resources + {Resource(x.scope, c)},
                      canonical[x.pointer := c]))
  {
    hide Selected;
    PointersGrow(s, x);
    ResourcesGrow(resolver, arguments, s, x);
    assert (s + [x])[..|s|] == s;
  }

  lemma SelectedText(resolver: Resolver, arguments: Value, s: seq<Selector>)
    requires Fine(resolver, arguments, s)
    ensures AllText(arguments, Canonicals(resolver, arguments, s).Keys)
  {
    CanonicalsExact(resolver, arguments, s);
    FineSelectsText(resolver, arguments, s);
  }

  // ---- the whole invocation ----

  datatype CriticalAction =
    | IrreversibleDelete | CredentialExport | PaymentOrPurchase | ExternalPublishOrMessage
    | ProductionDeploy | PrivilegeEscalation | PersistentStartup

  function Rank(action: CriticalAction): nat {
    match action
    case IrreversibleDelete => 0
    case CredentialExport => 1
    case PaymentOrPurchase => 2
    case ExternalPublishOrMessage => 3
    case ProductionDeploy => 4
    case PrivilegeEscalation => 5
    case PersistentStartup => 6
  }

  predicate ActionLe(a: CriticalAction, b: CriticalAction) {
    Rank(a) <= Rank(b)
  }

  ghost predicate Repeats(actions: seq<CriticalAction>) {
    exists i, j :: 0 <= i < j < |actions| && actions[i] == actions[j]
  }

  /** `normalized_critical_actions`: looking at neighbours after sorting finds every repetition. */
  method NormalizedCriticalActions(actions: seq<CriticalAction>) returns (r: Result<seq<CriticalAction>, ResolutionError>)
    ensures r.Failure? <==> Repeats(actions)
    ensures r.Failure? ==> r.error == DuplicateCriticalAction
    ensures r.Success? ==>
      && (forall i, j | 0 <= i < j < |r.value| :: Rank(r.value[i]) < Rank(r.value[j]))
      && forall a :: a in r.value <==> a in actions
  {
    var sorted := Sort(ActionLe, actions);
    SortedActions(actions);
    hide Sort, ActionLe, Rank, Sorted;
    var k := 1;
    while k < |sorted|
      invariant 1 <= k <= |sorted| + 1
      invariant forall i | 0 < i < k && i < |sorted| :: sorted[i - 1] != sorted[i]
    {
      if sorted[k - 1] == sorted[k] {
        RepeatsPermute(sorted, actions, k);
        return Failure(DuplicateCriticalAction);
      }
      k := k + 1;
    }
    Ascending(sorted);
    DistinctPermutes(sorted, actions);
    return Success(sorted);
  }

  lemma SortedActions(actions: seq<CriticalAction>)
    ensures
      var sorted := Sort(ActionLe, actions);
      Sorted(ActionLe, sorted) && multiset(sorted) == multiset(actions) && forall a :: a in sorted <==> a in actions
  {
    assert TotalPreorder(ActionLe);
    SortSorted(ActionLe, actions);
    hide Sort;
    SameElements(Sort(ActionLe, actions), actions);
  }

  lemma RepeatsPermute(sorted: seq<CriticalAction>, actions: seq<CriticalAction>, k: nat)
    requires multiset(sorted) == multiset(actions) && 0 < k < |sorted| && sorted[k - 1] == sorted[k]
    ensures Repeats(actions)
  {
    if !Repeats(actions) {
      DistinctPermutes(actions, sorted);
    }
  }

  lemma Ascending(sorted: seq<CriticalAction>)
    requires Sorted(ActionLe, sorted) && forall i | 0 < i < |sorted| :: sorted[i - 1] != sorted[i]
    ensures forall i, j | 0 <= i < j < |sorted| :: Rank(sorted[i]) < Rank(sorted[j]) && sorted[i] != sorted[j]
  {
    forall i, j | 0 <= i < j < |sorted|
      ensures Rank(sorted[i]) < Rank(sorted[j])
    {
      assert ActionLe(sorted[i], sorted[i + 1]) && sorted[i + 1 - 1] != sorted[i + 1];
      if i + 1 < j {
        assert ActionLe(sorted[i + 1], sorted[j]);
      }
    }
  }

  datatype Definition = Definition(
    apiVersion: Bytes, requiredExtensions: seq<Bytes>, selectors: seq<Selector>, criticalActions: seq<CriticalAction>)

  datatype Invocation = Invocation(requestId: Bytes, runId: Bytes, stepId: Bytes)

  datatype Resolved = Resolved(derived: Derived, criticalActions: seq<CriticalAction>)

  /** `validate_derived_request_shape` */
  ghost predicate ShapeOk(version: Bytes, ids: Invocation, definition: Definition) {
    && definition.apiVersion == version && definition.requiredExtensions == []
    && ids.requestId != [] && ids.runId != [] && ids.stepId != [] && definition.selectors != []
  }

  /** The error of a definition or invocation that is out of shape; the checks come in this order. */
  ghost function ShapeError(version: Bytes, ids: Invocation, definition: Definition): ResolutionError {
    if definition.apiVersion != version then UnsupportedDefinitionApiVersion(definition.apiVersion)
    else if definition.requiredExtensions != [] then
      UnsupportedRequiredExtensions(set e | e in definition.requiredExtensions)
    else if ids.requestId == [] || ids.runId == [] || ids.stepId == [] then EmptyInvocationIdentity
    else EmptyResourceSelectors
  }

  /** The actions of a definition, each once, in increasing rank. */
  ghost predicate ActionsInOrder(actions: seq<CriticalAction>, ordered: seq<CriticalAction>) {
    && (forall i, j | 0 <= i < j < |ordered| :: Rank(ordered[i]) < Rank(ordered[j]))
    && forall a :: a in ordered <==> a in actions
  }

  /** `resolve_invocation` */
  method ResolveInvocation(resolver: Resolver, version: Bytes, ids: Invocation, definition: Definition, arguments: Value)
    returns (r: Result<Resolved, ResolutionError>)
    ensures r.Success? ==>
      && ShapeOk(version, ids, definition) && !Repeats(definition.criticalActions)
      && Derives(resolver, definition.selectors, arguments, Success(r.value.derived))
      && ActionsInOrder(definition.criticalActions, r.value.criticalActions)
    ensures !ShapeOk(version, ids, definition) ==> r == Failure(ShapeError(version, ids, definition))
    ensures r.Failure? && ShapeOk(version, ids, definition) ==>
      || Derives(resolver, definition.selectors, arguments, Failure(r.error))
      || (r.error.DuplicateCriticalAction? && Repeats(definition.criticalActions)
          && exists d :: Derives(resolver, definition.selectors, arguments, Success(d)))
  {
    hide Derives, Repeats, Rank;
    if definition.apiVersion != version {
      return Failure(UnsupportedDefinitionApiVersion(definition.apiVersion));
    }
    if definition.requiredExtensions != [] {
      return Failure(UnsupportedRequiredExtensions(set e | e in definition.requiredExtensions));
    }
    if ids.requestId == [] || ids.runId == [] || ids.stepId == [] {
      return Failure(EmptyInvocationIdentity);
    }
    if definition.selectors == [] {
      return Failure(EmptyResourceSelectors);
    }
    var derived := DeriveInvocationResources(resolver, definition.selectors, arguments);
    if derived.Failure? {
      return Failure(derived.error);
    }
    var actions := NormalizedCriticalActions(definition.criticalActions);
    if actions.Failure? {
      return Failure(actions.error);
    }
    return Success(Resolved(derived.value, actions.value));
  }
}
