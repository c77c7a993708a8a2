/** The stored form of the profile collection, and commands on loaded files: model_profile.rs. */
module ProfileStorage {
  import opened Wrappers
  import opened Utf8
  import opened Sorting
  import opened Profiles

  const PROFILE_FORMAT_VERSION: nat := 1
  const MAX_PROFILE_FILE_BYTES: nat := 256 * 1024

  datatype StoredProfile = StoredProfile(
    name: Bytes, baseUrl: Bytes, model: Bytes, tokenizer: Bytes, credentialRef: Option<Bytes>,
    timeoutSeconds: nat, maxOutputTokens: nat, options: RequestOptions)

  datatype StoredProfiles = StoredProfiles(formatVersion: nat, activeProfile: Option<Bytes>, profiles: seq<StoredProfile>)

  /** `StoredProfile::from_profile`: `as_secs` drops the fraction. */
  function FromProfile(p: Profile): StoredProfile {
    StoredProfile(
      p.name, p.baseUrl, p.model, p.tokenizer, p.credentialRef, p.timeout / NANOS, p.maxOutputTokens, p.options)
  }

  /** `StoredProfile::into_profile` */
  function IntoProfile(accepts: Provider, s: StoredProfile): Result<Profile, ProfileError> {
    var p := Profile(
      s.name, s.baseUrl, s.model, s.tokenizer, s.credentialRef, s.timeoutSeconds * NANOS, s.maxOutputTokens, s.options);
    if ValidProfile(accepts, p) then Success(p) else Failure(InvalidProfileFile)
  }

  function FromProfiles(c: Snapshot): StoredProfiles {
    StoredProfiles(
      PROFILE_FORMAT_VERSION, c.active, seq(|c.profiles|, i requires 0 <= i < |c.profiles| => FromProfile(c.profiles[i])))
  }

  /** `collect::<Result<Vec<_>, _>>` */
  function IntoAll(accepts: Provider, s: seq<StoredProfile>): Result<seq<Profile>, ProfileError> {
    if s == [] then Success([])
    else
      var first := IntoProfile(accepts, s[0]);
      if first.Failure? then Failure(first.error)
      else
        var rest := IntoAll(accepts, s[1..]);
        if rest.Failure? then rest else Success([first.value] + rest.value)
  }

  /** `ModelProfiles::validate` accepts */
  ghost predicate Acceptable(accepts: Provider, c: Snapshot) {
    && |c.profiles| <= MAX_PROFILES && (c.active.Some? ==> Named(c.profiles, c.active.value))
    && AllValid(accepts, c.profiles) && NamesApart(c.profiles)
  }

  /** `validate` */
  method Validate(accepts: Provider, c: Snapshot) returns (r: Result<(), ProfileError>)
    ensures r.Success? <==> Acceptable(accepts, c)
    ensures r.Failure? ==> r.error == InvalidProfileFile
  {
    hide ValidProfile, Position;
    if |c.profiles| > MAX_PROFILES || (c.active.Some? && Position(c.profiles, c.active.value).None?) {
      return Failure(InvalidProfileFile);
    }
    var names: set<Bytes> := {};
    for i := 0 to |c.profiles|
      invariant forall k | 0 <= k < i :: ValidProfile(accepts, c.profiles[k]) && c.profiles[k].name in names
      invariant forall n | n in names :: exists k :: 0 <= k < i && c.profiles[k].name == n
      invariant forall k, l | 0 <= k < l < i :: c.profiles[k].name != c.profiles[l].name
    {
      if !ValidProfile(accepts, c.profiles[i]) || c.profiles[i].name in names {
        return Failure(InvalidProfileFile);
      }
      names := names + {c.profiles[i].name};
    }
    return Success(());
  }

  /** `StoredProfiles::into_profiles` */
  ghost function IntoProfiles(accepts: Provider, s: StoredProfiles): Result<Snapshot, ProfileError> {
    if s.formatVersion != PROFILE_FORMAT_VERSION then Failure(InvalidProfileFile)
    else
      var all := IntoAll(accepts, s.profiles);
      if all.Failure? then Failure(all.error)
      else
        var c := Snapshot(s.activeProfile, Sort(ByName, all.value));
        if Acceptable(accepts, c) then Success(c) else Failure(InvalidProfileFile)
  }

  lemma {:induction false} IntoAllFails(accepts: Provider, s: seq<StoredProfile>)
    ensures IntoAll(accepts, s).Failure? ==> IntoAll(accepts, s).error == InvalidProfileFile
  {
    if s != [] {
      IntoAllFails(accepts, s[1..]);
    }
  }

  lemma IntoProfilesFails(accepts: Provider, s: StoredProfiles)
    ensures IntoProfiles(accepts, s).Failure? ==> IntoProfiles(accepts, s).error == InvalidProfileFile
  {
    hide IntoAll, Sort, Acceptable;
    IntoAllFails(accepts, s.profiles);
  }

  /** Whatever a file says, a collection that loads is valid and in name order. */
  lemma {:induction false} LoadedIsValid(accepts: Provider, s: StoredProfiles)
    requires IntoProfiles(accepts, s).Success?
    ensures ValidSnapshot(accepts, IntoProfiles(accepts, s).value)
  {
    var all, c := IntoAll(accepts, s.profiles).value, IntoProfiles(accepts, s).value;
    ByNameOrder();
    SortSorted(ByName, all);
    hide LexLe, ValidProfile, Sort, IntoAll;
    forall i, j | 0 <= i < j < |c.profiles|
      ensures LexLt(c.profiles[i].name, c.profiles[j].name)
    {
      assert ByName(c.profiles[i], c.profiles[j]);
    }
  }

  // ---- round trip ----

  predicate WholeSeconds(p: Profile) {
    p.timeout % NANOS == 0
  }

  /** The profile with the fraction of its timeout dropped. */
  function Truncated(p: Profile): Profile {
    p.(timeout := p.timeout / NANOS * NANOS)
  }

  lemma ProfileRoundTrip(accepts: Provider, p: Profile)
    requires ValidProfile(accepts, p)
    ensures IntoProfile(accepts, FromProfile(p)) ==
            if p.timeout < NANOS then Failure(InvalidProfileFile) else Success(Truncated(p))
    ensures Truncated(p) == p <==> WholeSeconds(p)
    ensures Truncated(p).name == p.name && (p.timeout >= NANOS ==> ValidProfile(accepts, Truncated(p)))
  {
    hide ValidName, ValidCredential;
    assert p.timeout == p.timeout / NANOS * NANOS + p.timeout % NANOS;
  }

  function TruncatedAll(s: seq<Profile>): seq<Profile> {
    seq(|s|, i requires 0 <= i < |s| => Truncated(s[i]))
  }

  /** Some timeout is below one second. */
  ghost predicate SubSecond(s: seq<Profile>) {
    exists p | p in s :: p.timeout < NANOS
  }

  lemma SubSecondCons(s: seq<Profile>)
    requires s != []
    ensures SubSecond(s) <==> s[0].timeout < NANOS || SubSecond(s[1..])
  {
    assert s == [s[0]] + s[1..];
  }

  lemma {:induction false} IntoAllOfFrom(accepts: Provider, s: seq<Profile>, stored: seq<StoredProfile>)
    requires AllValid(accepts, s)
    requires |stored| == |s| && forall i | 0 <= i < |s| :: stored[i] == FromProfile(s[i])
    ensures IntoAll(accepts, stored) ==
            if SubSecond(s) then Failure(InvalidProfileFile) else Success(TruncatedAll(s))
  {
    if s != [] {
      ProfileRoundTrip(accepts, s[0]);
      IntoAllOfFrom(accepts, s[1..], stored[1..]);
      hide ValidProfile, FromProfile, IntoProfile, SubSecond;
      SubSecondCons(s);
      assert TruncatedAll(s) == [Truncated(s[0])] + TruncatedAll(s[1..]);
    }
  }

  lemma {:induction false} SortOrdered(s: seq<Profile>)
    requires Ordered(s)
    ensures Sort(ByName, s) == s
  {
    if s != [] {
      hide LexLe;
      assert Ordered(s[1..]);
      SortOrdered(s[1..]);
      if |s| > 1 {
        assert ByName(s[0], s[1]);
      }
    }
  }

  lemma TruncatedIsValid(accepts: Provider, c: Snapshot)
    requires ValidSnapshot(accepts, c) && forall p | p in c.profiles :: p.timeout >= NANOS
    ensures ValidSnapshot(accepts, Snapshot(c.active, TruncatedAll(c.profiles)))
  {
    var t := TruncatedAll(c.profiles);
    forall i | 0 <= i < |t|
      ensures ValidProfile(accepts, t[i]) && t[i].name == c.profiles[i].name
    {
      assert c.profiles[i] in c.profiles;
      ProfileRoundTrip(accepts, c.profiles[i]);
    }
    hide ValidProfile, LexLe, TruncatedAll;
    if c.active.Some? {
      var i :| 0 <= i < |c.profiles| && c.profiles[i].name == c.active.value;
      assert t[i].name == c.active.value;
    }
  }

  /** What saving and loading a valid collection gives, for every collection: timeouts lose their
      fraction, and a timeout below one second makes the file unreadable. */
  lemma StoredRoundTrip(accepts: Provider, c: Snapshot)
    requires ValidSnapshot(accepts, c)
    ensures IntoProfiles(accepts, FromProfiles(c)) ==
            if SubSecond(c.profiles) then Failure(InvalidProfileFile)
            else Success(Snapshot(c.active, TruncatedAll(c.profiles)))
  {
    hide ValidProfile, LexLe, FromProfile, Sort;
    IntoAllOfFrom(accepts, c.profiles, FromProfiles(c).profiles);
    if forall p | p in c.profiles :: p.timeout >= NANOS {
      TruncatedIsValid(accepts, c);
      SortOrdered(TruncatedAll(c.profiles));
    }
  }

  /** The stored form gives the collection back exactly when every timeout is in whole seconds. */
  lemma {:induction false} RoundTripIffWholeSeconds(accepts: Provider, c: Snapshot)
    requires ValidSnapshot(accepts, c)
    ensures IntoProfiles(accepts, FromProfiles(c)) == Success(c) <==> forall p | p in c.profiles :: WholeSeconds(p)
  {
    StoredRoundTrip(accepts, c);
    forall p | p in c.profiles
      ensures Truncated(p) == p <==> WholeSeconds(p)
      ensures p.timeout < NANOS ==> !WholeSeconds(p)
    {
      var i :| 0 <= i < |c.profiles| && c.profiles[i] == p;
      assert ValidProfile(accepts, c.profiles[i]);
      ProfileRoundTrip(accepts, p);
    }
    hide ValidProfile, LexLe, IntoProfiles;
    var t := TruncatedAll(c.profiles);
    if forall p | p in c.profiles :: WholeSeconds(p) {
      assert t == c.profiles;
    }
    if t == c.profiles {
      forall p | p in c.profiles
        ensures WholeSeconds(p)
      {
        var i :| 0 <= i < |c.profiles| && c.profiles[i] == p;
        assert t[i] == Truncated(p);
      }
    }
  }
}
