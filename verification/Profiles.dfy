/** Model profiles and their collection: model_profile.rs. */
module Profiles {
  import opened Wrappers
  import opened Utf8
  import opened Sorting

  const MAX_PROFILES: nat := 64
  const MAX_PROFILE_NAME_BYTES: nat := 64
  const MAX_TIMEOUT_SECONDS: nat := 3600
  const MAX_OUTPUT_TOKENS: nat := 65536
  const NANOS: nat := 1_000_000_000

  datatype ProfileError =
    | InvalidProfile | InvalidProfileFile | ProfileNotFound | TooManyProfiles
    | ProfileStoreUnavailable | ConcurrentModification | ProfileCommitUnknown | MissingConfiguration

  datatype ResponseFormat = JsonSchema | JsonObject | JsonSchemaAtomicJson
  datatype ThinkingMode = ProviderDefault | Disabled | Enabled | ChatTemplateDisabled
  datatype RequestOptions = RequestOptions(responseFormat: ResponseFormat, thinking: ThinkingMode)

  /** A profile; the timeout counts nanoseconds, as a `Duration` does. */
  datatype Profile = Profile(
    name: Bytes, baseUrl: Bytes, model: Bytes, tokenizer: Bytes, credentialRef: Option<Bytes>,
    timeout: nat, maxOutputTokens: nat, options: RequestOptions)

  /** What the provider adapter accepts besides the limits. */
  type Provider = (Bytes, Bytes, Bytes, RequestOptions) -> bool

  predicate IsAlphanumeric(b: Byte) {
    0x30 <= b <= 0x39 || 0x41 <= b <= 0x5A || 0x61 <= b <= 0x7A
  }

  /** `valid_profile_name` */
  predicate ValidName(name: Bytes) {
    && 0 < |name| <= MAX_PROFILE_NAME_BYTES
    && forall i | 0 <= i < |name| :: IsAlphanumeric(name[i]) || (i > 0 && name[i] in {0x2E, 0x5F, 0x2D})
  }

  /** `valid_credential_ref` */
  predicate ValidCredential(value: Bytes) {
    && |value| == 37 && Ascii("cred-") <= value
    && forall i | 5 <= i < 37 :: 0x30 <= value[i] <= 0x39 || 0x61 <= value[i] <= 0x66
  }

  /** `InferenceLimits::new` */
  predicate ValidLimits(timeout: nat, tokens: nat) {
    0 < timeout <= MAX_TIMEOUT_SECONDS * NANOS && 0 < tokens <= MAX_OUTPUT_TOKENS
  }

  /** `ModelProfile::validate` */
  predicate ValidProfile(accepts: Provider, p: Profile) {
    && ValidName(p.name)
    && (p.credentialRef.Some? ==> ValidCredential(p.credentialRef.value))
    && accepts(p.baseUrl, p.model, p.tokenizer, p.options)
    && ValidLimits(p.timeout, p.maxOutputTokens)
  }

  predicate IsLetterOrDigit(c: char) {
    'a' <= c <= 'z' || 'A' <= c <= 'Z' || '0' <= c <= '9'
  }

  /** A name as documented: 1 to 64 letters, digits, dots, underscores and dashes, the first a letter or digit. */
  ghost predicate IsProfileName(name: Bytes) {
    exists s: string ::
      && name == Ascii(s) && 1 <= |s| <= 64 && IsLetterOrDigit(s[0])
      && forall i | 0 < i < |s| :: IsLetterOrDigit(s[i]) || s[i] in "._-"
  }

  ghost predicate IsCredential(value: Bytes) {
    exists hex :: |hex| == 32 && value == Ascii("cred-") + hex && forall b | b in hex :: b in Ascii("0123456789abcdef")
  }

  lemma {:induction false} NameIff(name: Bytes)
    ensures ValidName(name) <==> IsProfileName(name)
  {
    if ValidName(name) {
      var s: string := seq(|name|, i requires 0 <= i < |name| => if name[i] < 128 then name[i] as char else '?');
      assert forall i | 0 <= i < |name| :: s[i] as int == name[i];
      assert Ascii(s) == name;
    }
  }

  lemma {:induction false} CredentialIff(value: Bytes)
    ensures ValidCredential(value) <==> IsCredential(value)
  {
    forall b: Byte
      ensures b in Ascii("0123456789abcdef") <==> 0x30 <= b <= 0x39 || 0x61 <= b <= 0x66
    {
      HexDigit(b);
    }
    var prefix := Ascii("cred-");
    if ValidCredential(value) {
      var hex := value[5..];
      assert value == prefix + hex && forall i | 0 <= i < 32 :: hex[i] == value[i + 5];
    }
    if IsCredential(value) {
      var hex :| |hex| == 32 && value == prefix + hex && forall b | b in hex :: b in Ascii("0123456789abcdef");
      forall i | 5 <= i < 37
        ensures value[i] in Ascii("0123456789abcdef")
      {
        assert value[i] == hex[i - 5];
      }
    }
  }

  /** A profile is accepted exactly with a proper name and credential reference, what the provider takes,
      a positive timeout of at most an hour and 1 to 65536 tokens. */
  lemma {:induction false} ProfileIff(accepts: Provider, p: Profile)
    ensures ValidProfile(accepts, p) <==>
            && IsProfileName(p.name) && (p.credentialRef.Some? ==> IsCredential(p.credentialRef.value))
            && accepts(p.baseUrl, p.model, p.tokenizer, p.options)
            && 0 < p.timeout <= 3_600_000_000_000 && 1 <= p.maxOutputTokens <= 65536
  {
    NameIff(p.name);
    if p.credentialRef.Some? {
      CredentialIff(p.credentialRef.value);
    }
    hide ValidName, ValidCredential;
  }

  // ---- collections ----

  datatype Snapshot = Snapshot(active: Option<Bytes>, profiles: seq<Profile>)

  /** The meaning of a snapshot: profiles by name. */
  datatype Collection = Collection(active: Option<Bytes>, profiles: map<Bytes, Profile>)

  ghost predicate NamesApart(s: seq<Profile>) {
    forall i, j | 0 <= i < j < |s| :: s[i].name != s[j].name
  }

  ghost predicate Ordered(s: seq<Profile>) {
    forall i, j | 0 <= i < j < |s| :: LexLt(s[i].name, s[j].name)
  }

  predicate ByName(a: Profile, b: Profile) {
    LexLe(a.name, b.name)
  }

  lemma ByNameOrder()
    ensures TotalPreorder(ByName)
  {
    LexIsTotalOrder();
    hide LexLe;
  }

  ghost predicate AllValid(accepts: Provider, s: seq<Profile>) {
    forall i | 0 <= i < |s| :: ValidProfile(accepts, s[i])
  }

  ghost predicate Named(s: seq<Profile>, name: Bytes) {
    exists i :: 0 <= i < |s| && s[i].name == name
  }

  ghost function MapOf(s: seq<Profile>): map<Bytes, Profile>
    requires NamesApart(s)
  {
    map i | 0 <= i < |s| :: s[i].name := s[i]
  }

  /** What every collection the program holds satisfies. */
  ghost predicate ValidSnapshot(accepts: Provider, c: Snapshot) {
    && |c.profiles| <= MAX_PROFILES && NamesApart(c.profiles) && Ordered(c.profiles) && AllValid(accepts, c.profiles)
    && (c.active.Some? ==> Named(c.profiles, c.active.value))
  }

  ghost function CollectionOf(c: Snapshot): Collection
    requires NamesApart(c.profiles)
  {
    Collection(c.active, MapOf(c.profiles))
  }

  ghost predicate ValidCollection(accepts: Provider, c: Collection) {
    && |c.profiles| <= MAX_PROFILES
    && (forall n | n in c.profiles :: c.profiles[n].name == n && ValidProfile(accepts, c.profiles[n]))
    && (c.active.Some? ==> c.active.value in c.profiles)
  }

  lemma {:induction false} MapOfSize(s: seq<Profile>)
    requires NamesApart(s)
    ensures |MapOf(s)| == |s|
  {
    if s != [] {
      var n := |s| - 1;
      MapOfSize(s[..n]);
      assert s == s[..n] + [s[n]];
      Pushed(s[..n], s[n]);
      hide MapOf;
    }
  }

  lemma ValidMeaning(accepts: Provider, c: Snapshot)
    requires ValidSnapshot(accepts, c)
    ensures ValidCollection(accepts, CollectionOf(c))
  {
    MapOfSize(c.profiles);
  }

  /** `iter().position` by name */
  function Position(s: seq<Profile>, name: Bytes): (r: Option<nat>)
    ensures r.Some? ==> r.value < |s| && s[r.value].name == name
    ensures r.None? ==> forall i | 0 <= i < |s| :: s[i].name != name
  {
    if s == [] then None
    else if s[|s| - 1].name == name && Position(s[..|s| - 1], name).None? then Some(|s| - 1)
    else Position(s[..|s| - 1], name)
  }

  lemma SortKeepsMap(s: seq<Profile>)
    requires NamesApart(s)
    ensures
      var t := Sort(ByName, s);
      NamesApart(t) && Ordered(t) && MapOf(t) == MapOf(s) && |t| == |s| && forall p :: p in t <==> p in s
  {
    var t := Sort(ByName, s);
    ByNameOrder();
    SortSorted(ByName, s);
    hide Sort, LexLe, TotalPreorder, MapOf;
    SameElements(s, t);
    DistinctPermutes(s, t);
    forall i, j | 0 <= i < j < |t|
      ensures t[i].name != t[j].name
    {
      assert t[i] in s && t[j] in s;
    }
    forall i, j | 0 <= i < j < |t|
      ensures LexLt(t[i].name, t[j].name)
    {
      assert ByName(t[i], t[j]);
    }
    SameMap(s, t);
  }

  lemma SameMap(s: seq<Profile>, t: seq<Profile>)
    requires NamesApart(s) && NamesApart(t) && forall p :: p in t <==> p in s
    ensures MapOf(t) == MapOf(s)
  {
    forall n
      ensures n in MapOf(t) ==> n in MapOf(s) && MapOf(t)[n] == MapOf(s)[n]
    {
      if n in MapOf(t) {
        var i :| 0 <= i < |t| && t[i].name == n;
        assert t[i] in s;
      }
    }
    forall n
      ensures n in MapOf(s) ==> n in MapOf(t)
    {
      if n in MapOf(s) {
        var i :| 0 <= i < |s| && s[i].name == n;
        assert s[i] in t;
      }
    }
  }

  /** A snapshot in name order is determined by its meaning. */
  lemma {:induction false} OrderedUnique(a: seq<Profile>, b: seq<Profile>)
    requires Ordered(a) && Ordered(b) && NamesApart(a) && NamesApart(b) && MapOf(a) == MapOf(b)
    ensures a == b
  {
    hide LexLe;
    LexIsTotalOrder();
    hide TotalPreorder, Antisymmetric;
    SameMembers(a, b);
    forall p: Profile
      ensures multiset(a)[p] == multiset(b)[p]
    {
      OnceEach(a, p);
      OnceEach(b, p);
      assert p in multiset(a) <==> p in a;
      assert p in multiset(b) <==> p in b;
    }
    assert multiset(a) == multiset(b);
    OrderedArrangement(a, b);
  }

  lemma SameMembers(a: seq<Profile>, b: seq<Profile>)
    requires NamesApart(a) && NamesApart(b) && MapOf(a) == MapOf(b)
    ensures forall p :: p in a <==> p in b
  {
    forall p | p in a
      ensures p in b
    {
      MemberOfMap(a, b, p);
    }
    forall p | p in b
      ensures p in a
    {
      MemberOfMap(b, a, p);
    }
  }

  lemma MemberOfMap(a: seq<Profile>, b: seq<Profile>, p: Profile)
    requires NamesApart(a) && NamesApart(b) && MapOf(a) == MapOf(b) && p in a
    ensures p in b
  {
    var i :| 0 <= i < |a| && a[i] == p;
    assert p.name in MapOf(a) && MapOf(a)[p.name] == a[i];
    var j :| 0 <= j < |b| && b[j].name == p.name;
    assert MapOf(b)[p.name] == b[j];
  }

  lemma {:induction false} OrderedArrangement(a: seq<Profile>, b: seq<Profile>)
    requires Ordered(a) && Ordered(b) && multiset(a) == multiset(b)
    ensures a == b
    decreases |a|
  {
    SameElements(a, b);
    if a != [] {
      assert a[0] in b && b[0] in a;
      FirstIsLeast(a, b[0]);
      FirstIsLeast(b, a[0]);
      LexTotal(a[0].name, b[0].name);
      FirstOnly(a, b[0]);
      hide LexLe, Ordered;
      assert a[0] == b[0];
      SplitFirst(a);
      SplitFirst(b);
      OrderedArrangement(a[1..], b[1..]);
    }
  }

  lemma SplitFirst(s: seq<Profile>)
    requires Ordered(s) && s != []
    ensures Ordered(s[1..]) && s == [s[0]] + s[1..] && multiset(s[1..]) == multiset(s) - multiset{s[0]}
  {
    hide LexLe;
    assert s == [s[0]] + s[1..];
  }

  lemma FirstIsLeast(s: seq<Profile>, p: Profile)
    requires Ordered(s) && p in s
    ensures LexLe(s[0].name, p.name)
  {
    LexTotal(p.name, p.name);
  }

  lemma FirstOnly(s: seq<Profile>, p: Profile)
    requires Ordered(s) && p in s && s[0].name == p.name
    ensures s[0] == p
  {
    hide LexLe;
  }

  // ---- operations on a snapshot ----

  /** The replacing, pushing and sorting of `upsert`. */
  function Replaced(s: seq<Profile>, p: Profile): seq<Profile> {
    var at := Position(s, p.name);
    Sort(ByName, if at.Some? then s[at.value := p] else s + [p])
  }

  function Without(s: seq<Profile>, i: nat): seq<Profile>
    requires i < |s|
  {
    s[..i] + s[i + 1..]
  }

  lemma MapFromParts(s: seq<Profile>, m: map<Bytes, Profile>)
    requires NamesApart(s)
    requires forall i | 0 <= i < |s| :: s[i].name in m && m[s[i].name] == s[i]
    requires forall n | n in m :: Named(s, n)
    ensures MapOf(s) == m
  {
    forall n
      ensures n in MapOf(s) <==> n in m
      ensures n in m ==> m[n] == MapOf(s)[n]
    {
      if n in m {
        var i :| 0 <= i < |s| && s[i].name == n;
      }
    }
  }

  lemma MapParts(s: seq<Profile>, n: Bytes)
    requires NamesApart(s)
    ensures n in MapOf(s) <==> Named(s, n)
    ensures forall i | 0 <= i < |s| :: s[i].name in MapOf(s) && MapOf(s)[s[i].name] == s[i]
  {
  }

  lemma PositionMeaning(s: seq<Profile>, name: Bytes)
    requires NamesApart(s)
    ensures Position(s, name).Some? <==> name in MapOf(s)
    ensures Position(s, name).Some? ==> MapOf(s)[name] == s[Position(s, name).value]
  {
  }

  lemma ReplacedAt(s: seq<Profile>, i: nat, p: Profile)
    requires NamesApart(s) && i < |s| && s[i].name == p.name
    ensures NamesApart(s[i := p]) && MapOf(s[i := p]) == MapOf(s)[p.name := p]
    ensures p.name in MapOf(s) && MapOf(s)[p.name] == s[i]
    ensures forall n :: Named(s[i := p], n) <==> Named(s, n)
  {
    var t := s[i := p];
    assert forall k | 0 <= k < |s| :: t[k].name == s[k].name;
    assert NamesApart(t);
    forall n
      ensures Named(t, n) <==> Named(s, n)
    {
      if Named(s, n) {
        var k :| 0 <= k < |s| && s[k].name == n;
        assert t[k].name == n;
      }
    }
    MapParts(s, p.name);
    var m := MapOf(s);
    forall n | n in m
      ensures Named(t, n)
    {
      MapParts(s, n);
    }
    hide MapOf, Named;
    MapFromParts(t, m[p.name := p]);
  }

  lemma Pushed(s: seq<Profile>, p: Profile)
    requires NamesApart(s) && !Named(s, p.name)
    ensures NamesApart(s + [p]) && MapOf(s + [p]) == MapOf(s)[p.name := p] && p.name !in MapOf(s)
    ensures forall n :: Named(s + [p], n) <==> Named(s, n) || n == p.name
  {
    var t := s + [p];
    assert forall k | 0 <= k < |s| :: t[k] == s[k];
    assert t[|s|] == p;
    assert NamesApart(t);
    forall n
      ensures Named(t, n) <==> Named(s, n) || n == p.name
    {
      if Named(s, n) {
        var k :| 0 <= k < |s| && s[k].name == n;
        assert t[k].name == n;
      }
    }
    MapParts(s, p.name);
    var m := MapOf(s);
    forall n | n in m
      ensures Named(t, n)
    {
      MapParts(s, n);
    }
    hide MapOf, Named;
    MapFromParts(t, m[p.name := p]);
  }

  lemma InsertedApart(s: seq<Profile>, p: Profile)
    requires NamesApart(s)
    ensures
      var at := Position(s, p.name);
      var t := if at.Some? then s[at.value := p] else s + [p];
      && NamesApart(t) && MapOf(t) == MapOf(s)[p.name := p] && (at.Some? <==> p.name in MapOf(s))
      && (at.Some? ==> MapOf(s)[p.name] == s[at.value])
      && (forall q | q in t :: q == p || q in s)
      && (forall n | Named(s, n) :: Named(t, n))
  {
    var at := Position(s, p.name);
    if at.Some? {
      ReplacedAt(s, at.value, p);
    } else {
      Pushed(s, p);
    }
  }

  /** Upserting changes one name and keeps the order. */
  lemma UpsertMeaning(s: seq<Profile>, p: Profile)
    requires NamesApart(s)
    ensures
      var t := Replaced(s, p);
      && NamesApart(t) && Ordered(t) && MapOf(t) == MapOf(s)[p.name := p]
      && |t| == (if p.name in MapOf(s) then |s| else |s| + 1)
      && (forall q | q in t :: q == p || q in s)
      && (forall n | Named(s, n) :: Named(t, n))
  {
    hide MapOf, Sort, Ordered, NamesApart;
    InsertedApart(s, p);
    var at := Position(s, p.name);
    var u := if at.Some? then s[at.value := p] else s + [p];
    SortKeepsMap(u);
    forall n | Named(s, n)
      ensures Named(Replaced(s, p), n)
    {
      SortKeepsNames(u, n);
    }
  }

  lemma SortKeepsNames(u: seq<Profile>, n: Bytes)
    requires NamesApart(u) && Named(u, n)
    ensures Named(Sort(ByName, u), n)
  {
    SortKeepsMap(u);
    hide Sort;
    var i :| 0 <= i < |u| && u[i].name == n;
    assert u[i] in Sort(ByName, u);
  }

  lemma WithoutNames(s: seq<Profile>, i: nat, n: Bytes)
    requires NamesApart(s) && i < |s|
    ensures Named(Without(s, i), n) <==> Named(s, n) && n != s[i].name
  {
    var t := Without(s, i);
    assert forall k | 0 <= k < |t| :: t[k] == s[if k < i then k else k + 1];
    if Named(s, n) && n != s[i].name {
      var k :| 0 <= k < |s| && s[k].name == n;
      assert t[if k < i then k else k - 1] == s[k];
    }
  }

  lemma WithoutOrder(s: seq<Profile>, i: nat)
    requires i < |s|
    ensures NamesApart(s) ==> NamesApart(Without(s, i))
    ensures Ordered(s) ==> Ordered(Without(s, i))
    ensures forall q | q in Without(s, i) :: q in s
  {
    hide LexLt;
  }

  lemma RemoveMeaning(s: seq<Profile>, i: nat)
    requires NamesApart(s) && Ordered(s) && i < |s|
    ensures
      var t := Without(s, i);
      && NamesApart(t) && Ordered(t) && MapOf(t) == MapOf(s) - {s[i].name} && s[i].name in MapOf(s)
      && (forall q | q in t :: q in s)
      && (forall n | Named(s, n) && n != s[i].name :: Named(t, n))
  {
    var t := Without(s, i);
    WithoutOrder(s, i);
    var m := MapOf(s);
    MapParts(s, s[i].name);
    forall n
      ensures n in m <==> Named(s, n)
      ensures Named(t, n) <==> Named(s, n) && n != s[i].name
    {
      MapParts(s, n);
      WithoutNames(s, i, n);
    }
    forall k | 0 <= k < |t|
      ensures t[k].name in m - {s[i].name} && m[t[k].name] == t[k]
    {
      assert t[k] in s && Named(t, t[k].name);
    }
    hide MapOf, Named, Without, Ordered;
    MapFromParts(t, m - {s[i].name});
  }

  /** The least name left is the first one in order. */
  ghost predicate LeastOf(names: set<Bytes>, name: Bytes) {
    name in names && forall n | n in names :: LexLe(name, n)
  }

  lemma FirstIsLeastName(s: seq<Profile>)
    requires NamesApart(s) && Ordered(s) && s != []
    ensures LeastOf(MapOf(s).Keys, s[0].name)
  {
    forall n | n in MapOf(s)
      ensures LexLe(s[0].name, n)
    {
      var i :| 0 <= i < |s| && s[i].name == n;
      FirstIsLeast(s, s[i]);
    }
  }

  lemma LeastIsUnique(names: set<Bytes>, a: Bytes, b: Bytes)
    requires LeastOf(names, a) && LeastOf(names, b)
    ensures a == b
  {
    LexTotal(a, b);
  }

  // ---- the mutable collection ----

  class ModelProfiles {
    var active: Option<Bytes>
    var profiles: seq<Profile>
    var sourceDigest: Option<Bytes>

    function View(): Snapshot
      reads this
    {
      Snapshot(active, profiles)
    }

    ghost function Contents(): map<Bytes, Profile>
      reads this
      requires NamesApart(profiles)
    {
      MapOf(profiles)
    }

    ghost predicate Valid(accepts: Provider)
      reads this
    {
      ValidSnapshot(accepts, View())
    }

    /** `ModelProfiles::empty` */
    constructor (accepts: Provider)
      ensures Valid(accepts) && View() == Snapshot(None, []) && sourceDigest == None
    {
      active, profiles, sourceDigest := None, [], None;
    }

    /** `upsert` */
    method Upsert(accepts: Provider, p: Profile) returns (r: Result<Option<Profile>, ProfileError>)
      requires Valid(accepts)
      modifies this`profiles
      ensures Valid(accepts)
      ensures r.Success? <==>
        ValidProfile(accepts, p) && (p.name in old(Contents()) || |old(profiles)| < MAX_PROFILES)
      ensures r.Success? ==>
        && Contents() == old(Contents())[p.name := p] && profiles == Replaced(old(profiles), p)
        && r.value == if p.name in old(Contents()) then Some(old(Contents())[p.name]) else None
      ensures r.Failure? ==>
        && profiles == old(profiles)
        && r.error == if ValidProfile(accepts, p) then TooManyProfiles else InvalidProfile
    {
      hide Sort, LexLe, ValidProfile, Position, NamesApart, Ordered, Named, MapOf, AllValid;
      if !ValidProfile(accepts, p) {
        return Failure(InvalidProfile);
      }
      InsertedApart(profiles, p);
      UpsertMeaning(profiles, p);
      var at := Position(profiles, p.name);
      if at.None? && |profiles| >= MAX_PROFILES {
        return Failure(TooManyProfiles);
      }
      UpsertKeepsValid(accepts, View(), p);
      var previous: Option<Profile> := None;
      if at.Some? {
        previous := Some(profiles[at.value]);
        profiles := profiles[at.value := p];
      } else {
        profiles := profiles + [p];
      }
      profiles := Sort(ByName, profiles);
      return Success(previous);
    }

    /** `set_active` */
    method SetActive(accepts: Provider, name: Bytes) returns (r: Result<(), ProfileError>)
      requires Valid(accepts)
      modifies this`active
      ensures Valid(accepts)
      ensures r.Success? <==> name in Contents()
      ensures active == if r.Success? then Some(name) else old(active)
      ensures r.Failure? ==> r.error == ProfileNotFound
    {
      hide LexLe, ValidProfile;
      if Position(profiles, name).None? {
        return Failure(ProfileNotFound);
      }
      active := Some(name);
      return Success(());
    }

    /** `clear_credential` */
    method ClearCredential(accepts: Provider, name: Bytes) returns (r: Result<Option<Bytes>, ProfileError>)
      requires Valid(accepts)
      modifies this`profiles
      ensures Valid(accepts)
      ensures r.Success? <==> name in old(Contents())
      ensures r.Success? ==>
        var was := old(Contents())[name];
        Contents() == old(Contents())[name := was.(credentialRef := None)] && r.value == was.credentialRef
      ensures r.Failure? ==> r.error == ProfileNotFound && profiles == old(profiles)
    {
      hide LexLe, Position;
      var at := Position(profiles, name);
      if at.None? {
        return Failure(ProfileNotFound);
      }
      var taken := profiles[at.value].credentialRef;
      InsertedApart(profiles, profiles[at.value].(credentialRef := None));
      profiles := profiles[at.value := profiles[at.value].(credentialRef := None)];
      return Success(taken);
    }

    /** `remove`: the least remaining name becomes active when the active profile goes. */
    method Remove(accepts: Provider, name: Bytes) returns (r: Result<Profile, ProfileError>)
      requires Valid(accepts)
      modifies this`profiles, this`active
      ensures Valid(accepts)
      ensures r.Success? <==> name in old(Contents())
      ensures r.Success? ==> Contents() == old(Contents()) - {name} && r.value == old(Contents())[name]
      ensures r.Success? && old(active) != Some(name) ==> active == old(active)
      ensures r.Success? && old(active) == Some(name) ==>
        if Contents() == map[] then active == None
        else active.Some? && LeastOf(Contents().Keys, active.value)
      ensures r.Failure? ==> r.error == ProfileNotFound && profiles == old(profiles) && active == old(active)
    {
      hide LexLe, ValidProfile, Position, NamesApart, Ordered, MapOf, Without, AllValid, LeastOf, Named;
      PositionMeaning(profiles, name);
      var at := Position(profiles, name);
      if at.None? {
        return Failure(ProfileNotFound);
      }
      var removed := profiles[at.value];
      RemoveMeaning(profiles, at.value);
      RemoveKeepsValid(accepts, View(), at.value);
      profiles := Without(profiles, at.value);
      if active == Some(name) {
        active := if profiles == [] then None else Some(profiles[0].name);
      }
      return Success(removed);
    }
  }

  // ---- commands ----

  /** What one invocation of the program does to the collection: `model setup`, `use`, `logout`, `remove`. */
  datatype Command = Setup(profile: Profile) | Use(name: Bytes) | Logout(chosen: Option<Bytes>) | Drop(name: Bytes)

  /** The commands on collections by name. */
  ghost function Meaning(accepts: Provider, command: Command, c: Collection): Result<Collection, ProfileError> {
    match command
    case Setup(p) =>
      if !ValidProfile(accepts, p) then Failure(InvalidProfile)
      else if p.name !in c.profiles && |c.profiles| >= MAX_PROFILES then Failure(TooManyProfiles)
      else Success(Collection(Some(p.name), c.profiles[p.name := p]))
    case Use(name) =>
      if name !in c.profiles then Failure(ProfileNotFound) else Success(c.(active := Some(name)))
    case Logout(chosen) =>
      var selected := if chosen.Some? then chosen else c.active;
      if selected.None? then Failure(MissingConfiguration)
      else if selected.value !in c.profiles then Failure(ProfileNotFound)
      else
        var was := c.profiles[selected.value];
        Success(c.(profiles := c.profiles[selected.value := was.(credentialRef := None)]))
    case Drop(name) =>
      if name !in c.profiles then Failure(ProfileNotFound)
      else
        var left := c.profiles - {name};
        if c.active != Some(name) then Success(Collection(c.active, left))
        else if left == map[] then Success(Collection(None, left))
        else Success(Collection(Some(Least(left.Keys)), left))
  }

  ghost function Least(names: set<Bytes>): (name: Bytes)
    requires names != {}
    ensures LeastOf(names, name)
  {
    LeastExists(names);
    var name :| LeastOf(names, name);
    name
  }

  lemma {:induction false} LeastExists(names: set<Bytes>)
    requires names != {}
    ensures exists name :: LeastOf(names, name)
    decreases |names|
  {
    hide LexLe;
    var x :| x in names;
    LexTotal(x, x);
    if names == {x} {
      assert LeastOf(names, x);
    } else {
      var rest := names - {x};
      assert names == rest + {x} && rest != {};
      LeastExists(rest);
      var y :| LeastOf(rest, y);
      LexTotal(x, y);
      if LexLe(x, y) {
        forall n | n in rest
          ensures LexLe(x, n)
        {
          LexTransitive(x, y, n);
        }
        assert LeastOf(names, x);
      } else {
        assert LeastOf(names, y);
      }
    }
  }

  /** Every command keeps the collection valid. */
  lemma {:induction false} MeaningKeepsValid(accepts: Provider, command: Command, c: Collection)
    requires ValidCollection(accepts, c) && Meaning(accepts, command, c).Success?
    ensures ValidCollection(accepts, Meaning(accepts, command, c).value)
  {
    hide LexLe, ValidName, ValidCredential, ValidLimits;
    match command
    case Setup(p) => PutKeepsValid(accepts, c, p, Some(p.name));
    case Use(_) =>
    case Logout(chosen) =>
      var selected := (if chosen.Some? then chosen else c.active).value;
      PutKeepsValid(accepts, c, c.profiles[selected].(credentialRef := None), c.active);
    case Drop(name) =>
      var left := c.profiles - {name};
      SmallerSet(left.Keys, c.profiles.Keys);
      assert |left| == |left.Keys| && |c.profiles| == |c.profiles.Keys|;
  }

  lemma PutKeepsValid(accepts: Provider, c: Collection, p: Profile, active: Option<Bytes>)
    requires ValidCollection(accepts, c) && ValidProfile(accepts, p)
    requires p.name in c.profiles || |c.profiles| < MAX_PROFILES
    requires active == Some(p.name) || active == c.active
    ensures ValidCollection(accepts, Collection(active, c.profiles[p.name := p]))
  {
    hide ValidProfile;
    var m := c.profiles[p.name := p];
    assert m.Keys == c.profiles.Keys + {p.name} && |m| == |m.Keys| && |c.profiles| == |c.profiles.Keys|;
    if p.name in c.profiles {
      assert m.Keys == c.profiles.Keys;
    }
  }

  lemma SmallerSet<T>(a: set<T>, b: set<T>)
    requires a <= b
    ensures |a| <= |b|
  {
    assert b == a + (b - a);
  }

  /** Setting up a new profile and removing it again leaves the profiles as they were; the active
      name is then the least one left. */
  lemma {:induction false} SetupThenDrop(accepts: Provider, c: Collection, p: Profile)
    requires ValidCollection(accepts, c) && p.name !in c.profiles && Meaning(accepts, Setup(p), c).Success?
    ensures
      var d := Meaning(accepts, Drop(p.name), Meaning(accepts, Setup(p), c).value);
      && d.Success? && d.value.profiles == c.profiles
      && d.value.active == if c.profiles == map[] then None else Some(Least(c.profiles.Keys))
  {
    hide LexLe, ValidName, ValidCredential, ValidLimits, LeastOf;
    assert c.profiles[p.name := p] - {p.name} == c.profiles;
  }

  lemma SnapshotUnique(accepts: Provider, a: Snapshot, b: Snapshot)
    requires ValidSnapshot(accepts, a) && ValidSnapshot(accepts, b) && CollectionOf(a) == CollectionOf(b)
    ensures a == b
  {
    OrderedUnique(a.profiles, b.profiles);
  }

  /** The commands on snapshots. */
  function PerformOn(accepts: Provider, command: Command, c: Snapshot): Result<Snapshot, ProfileError> {
    match command
    case Setup(p) =>
      if !ValidProfile(accepts, p) then Failure(InvalidProfile)
      else if Position(c.profiles, p.name).None? && |c.profiles| >= MAX_PROFILES then Failure(TooManyProfiles)
      else Success(Snapshot(Some(p.name), Replaced(c.profiles, p)))
    case Use(name) =>
      if Position(c.profiles, name).None? then Failure(ProfileNotFound) else Success(c.(active := Some(name)))
    case Logout(chosen) =>
      var selected := if chosen.Some? then chosen else c.active;
      if selected.None? then Failure(MissingConfiguration)
      else
        var at := Position(c.profiles, selected.value);
        if at.None? then Failure(ProfileNotFound)
        else Success(c.(profiles := c.profiles[at.value := c.profiles[at.value].(credentialRef := None)]))
    case Drop(name) =>
      var at := Position(c.profiles, name);
      if at.None? then Failure(ProfileNotFound)
      else Success(Snapshot(NextActive(c, at.value), Without(c.profiles, at.value)))
  }

  ghost predicate Agrees(accepts: Provider, command: Command, c: Snapshot)
    requires NamesApart(c.profiles)
  {
    match Meaning(accepts, command, CollectionOf(c))
    case Failure(error) => PerformOn(accepts, command, c) == Failure(error)
    case Success(d) =>
      var performed := PerformOn(accepts, command, c);
      performed.Success? && ValidSnapshot(accepts, performed.value) && CollectionOf(performed.value) == d
  }

  lemma SetupAgrees(accepts: Provider, c: Snapshot, p: Profile)
    requires ValidSnapshot(accepts, c)
    ensures Agrees(accepts, Setup(p), c)
  {
    hide ValidProfile, Position, NamesApart, Ordered, MapOf, AllValid, Replaced, Named;
    MapOfSize(c.profiles);
    PositionMeaning(c.profiles, p.name);
    if ValidProfile(accepts, p) && (Position(c.profiles, p.name).Some? || |c.profiles| < MAX_PROFILES) {
      SetupIsValid(accepts, c, p);
    }
  }

  lemma SetupIsValid(accepts: Provider, c: Snapshot, p: Profile)
    requires ValidSnapshot(accepts, c) && ValidProfile(accepts, p)
    requires Position(c.profiles, p.name).Some? || |c.profiles| < MAX_PROFILES
    ensures ValidSnapshot(accepts, Snapshot(Some(p.name), Replaced(c.profiles, p)))
    ensures MapOf(Replaced(c.profiles, p)) == MapOf(c.profiles)[p.name := p]
  {
    hide ValidProfile, Position, NamesApart, Ordered, AllValid, Replaced;
    UpsertKeepsValid(accepts, c, p);
    UpsertMeaning(c.profiles, p);
    MapParts(Replaced(c.profiles, p), p.name);
  }

  lemma LogoutAgrees(accepts: Provider, c: Snapshot, chosen: Option<Bytes>)
    requires ValidSnapshot(accepts, c)
    ensures Agrees(accepts, Logout(chosen), c)
  {
    hide ValidProfile, Position, NamesApart, Ordered, MapOf, AllValid, Named;
    var selected := if chosen.Some? then chosen else c.active;
    if selected.Some? {
      PositionMeaning(c.profiles, selected.value);
      var at := Position(c.profiles, selected.value);
      if at.Some? {
        LogoutIsValid(accepts, c, at.value);
      }
    }
  }

  lemma LogoutIsValid(accepts: Provider, c: Snapshot, i: nat)
    requires ValidSnapshot(accepts, c) && i < |c.profiles|
    ensures
      var cleared := c.profiles[i].(credentialRef := None);
      && ValidSnapshot(accepts, c.(profiles := c.profiles[i := cleared]))
      && MapOf(c.profiles[i := cleared]) == MapOf(c.profiles)[cleared.name := cleared]
  {
    hide ValidProfile, NamesApart, Ordered, MapOf, AllValid, Named;
    ReplacedAt(c.profiles, i, c.profiles[i].(credentialRef := None));
    ClearedIsValid(accepts, c.profiles, i);
  }

  lemma ClearedIsValid(accepts: Provider, s: seq<Profile>, i: nat)
    requires i < |s| && AllValid(accepts, s) && Ordered(s)
    ensures var t := s[i := s[i].(credentialRef := None)]; AllValid(accepts, t) && Ordered(t)
  {
    hide LexLt, ValidName, ValidCredential, ValidLimits;
    var t := s[i := s[i].(credentialRef := None)];
    assert forall k | 0 <= k < |s| :: t[k].name == s[k].name && ValidProfile(accepts, s[k]);
  }

  /** The snapshot form of a command means what the collection form says. */
  lemma {:induction false} PerformOnMeaning(accepts: Provider, command: Command, c: Snapshot)
    requires ValidSnapshot(accepts, c)
    ensures Agrees(accepts, command, c)
  {
    match command
    case Setup(p) => SetupAgrees(accepts, c, p);
    case Use(name) =>
      PositionMeaning(c.profiles, name);
      MapParts(c.profiles, name);
      hide ValidProfile, Position, NamesApart, Ordered, MapOf, AllValid, Named;
    case Logout(chosen) => LogoutAgrees(accepts, c, chosen);
    case Drop(name) =>
      PositionMeaning(c.profiles, name);
      if Position(c.profiles, name).Some? {
        DropAgrees(accepts, c, Position(c.profiles, name).value);
      }
      hide ValidProfile, Position, NamesApart, Ordered, MapOf, AllValid, Named, Without, NextActive, LeastOf;
  }

  lemma DropAgrees(accepts: Provider, c: Snapshot, i: nat)
    requires ValidSnapshot(accepts, c) && i < |c.profiles|
    ensures
      var left := MapOf(c.profiles) - {c.profiles[i].name};
      var d := Snapshot(NextActive(c, i), Without(c.profiles, i));
      && ValidSnapshot(accepts, d) && MapOf(d.profiles) == left
      && d.active == if c.active != Some(c.profiles[i].name) then c.active
                     else if left == map[] then None else Some(Least(left.Keys))
  {
    RemoveMeaning(c.profiles, i);
    RemoveKeepsValid(accepts, c, i);
    var left := MapOf(c.profiles) - {c.profiles[i].name};
    if left != map[] && c.active == Some(c.profiles[i].name) {
      LeastIsUnique(left.Keys, Least(left.Keys), NextActive(c, i).value);
    }
    assert c.active != Some(c.profiles[i].name) ==> NextActive(c, i) == c.active;
    hide ValidProfile, Position, NamesApart, Ordered, MapOf, AllValid, Named, Without, NextActive, LeastOf;
  }

  /** The commands as `main.rs` performs them on the loaded collection. */
  method Perform(accepts: Provider, command: Command, m: ModelProfiles) returns (r: Result<(), ProfileError>)
    requires m.Valid(accepts)
    modifies m
    ensures m.Valid(accepts) && m.sourceDigest == old(m.sourceDigest)
    ensures r.Success? <==> Meaning(accepts, command, old(CollectionOf(m.View()))).Success?
    ensures r.Success? ==> CollectionOf(m.View()) == Meaning(accepts, command, old(CollectionOf(m.View()))).value
    ensures r.Failure? ==> r.error == Meaning(accepts, command, old(CollectionOf(m.View()))).error
    ensures r.Success? ==> PerformOn(accepts, command, old(m.View())) == Success(m.View())
  {
    hide LexLe, ValidProfile, Position, NamesApart, Ordered, MapOf, AllValid, LeastOf, Named, Replaced;
    ghost var before, c := m.View(), CollectionOf(m.View());
    PerformOnMeaning(accepts, command, before);
    MapOfSize(m.profiles);
    r := PerformSteps(accepts, command, m);
    if r.Success? {
      SnapshotUnique(accepts, m.View(), PerformOn(accepts, command, before).value);
    }
  }

  method PerformSteps(accepts: Provider, command: Command, m: ModelProfiles) returns (r: Result<(), ProfileError>)
    requires m.Valid(accepts)
    modifies m
    ensures m.Valid(accepts) && m.sourceDigest == old(m.sourceDigest)
    ensures r.Success? <==> Meaning(accepts, command, old(CollectionOf(m.View()))).Success?
    ensures r.Success? ==> CollectionOf(m.View()) == Meaning(accepts, command, old(CollectionOf(m.View()))).value
    ensures r.Failure? ==> r.error == Meaning(accepts, command, old(CollectionOf(m.View()))).error
  {
    hide LexLe, ValidProfile, Position, NamesApart, Ordered, MapOf, AllValid, LeastOf, Named, Replaced;
    ghost var c := CollectionOf(m.View());
    MapOfSize(m.profiles);
    match command {
      case Setup(p) =>
        var previous := m.Upsert(accepts, p);
        if previous.Failure? {
          return Failure(previous.error);
        }
        r := m.SetActive(accepts, p.name);
      case Use(name) =>
        r := m.SetActive(accepts, name);
      case Logout(chosen) =>
        var selected := if chosen.Some? then chosen else m.active;
        if selected.None? {
          return Failure(MissingConfiguration);
        }
        var taken := m.ClearCredential(accepts, selected.value);
        r := if taken.Success? then Success(()) else Failure(taken.error);
      case Drop(name) =>
        var removed := m.Remove(accepts, name);
        if removed.Failure? {
          return Failure(removed.error);
        }
        ghost var left := c.profiles - {name};
        if left != map[] && c.active == Some(name) {
          LeastIsUnique(left.Keys, Least(left.Keys), m.active.value);
        }
        r := Success(());
    }
  }

  lemma UpsertKeepsValid(accepts: Provider, c: Snapshot, p: Profile)
    requires ValidSnapshot(accepts, c) && ValidProfile(accepts, p)
    requires Position(c.profiles, p.name).Some? || |c.profiles| < MAX_PROFILES
    ensures ValidSnapshot(accepts, Snapshot(c.active, Replaced(c.profiles, p)))
  {
    UpsertMeaning(c.profiles, p);
    InsertedApart(c.profiles, p);
    hide Replaced, ValidProfile, MapOf, NamesApart, Ordered, Named, Position;
    MembersValid(accepts, c.profiles, Replaced(c.profiles, p), p);
  }

  lemma MembersValid(accepts: Provider, s: seq<Profile>, t: seq<Profile>, p: Profile)
    requires AllValid(accepts, s) && forall q | q in t :: q in s || (q == p && ValidProfile(accepts, p))
    ensures AllValid(accepts, t)
  {
    hide ValidProfile;
    forall i | 0 <= i < |t|
      ensures ValidProfile(accepts, t[i])
    {
      assert t[i] in t;
    }
  }

  /** The active name after removing profile `i`. */
  function NextActive(c: Snapshot, i: nat): Option<Bytes>
    requires i < |c.profiles|
  {
    if c.active != Some(c.profiles[i].name) then c.active
    else
      var left := Without(c.profiles, i);
      if left == [] then None else Some(left[0].name)
  }

  lemma RemoveKeepsValid(accepts: Provider, c: Snapshot, i: nat)
    requires ValidSnapshot(accepts, c) && i < |c.profiles|
    ensures ValidSnapshot(accepts, Snapshot(NextActive(c, i), Without(c.profiles, i)))
    ensures
      var left := MapOf(c.profiles) - {c.profiles[i].name};
      && (c.active == Some(c.profiles[i].name) && left == map[] ==> NextActive(c, i) == None)
      && (c.active == Some(c.profiles[i].name) && left != map[] ==>
            NextActive(c, i).Some? && LeastOf(left.Keys, NextActive(c, i).value))
  {
    RemoveMeaning(c.profiles, i);
    var left := Without(c.profiles, i);
    MembersValid(accepts, c.profiles, left, c.profiles[i]);
    if left != [] {
      FirstIsLeastName(left);
      MapParts(left, left[0].name);
      assert Named(left, left[0].name);
    } else {
      NothingMapped();
    }
    assert |left| < |c.profiles|;
    hide ValidProfile, MapOf, NamesApart, Ordered, Named, AllValid, LeastOf, Without;
  }

  lemma NothingMapped()
    ensures MapOf([]) == map[]
  {
  }
}
