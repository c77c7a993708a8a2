/** Workspace authorisation of allow_path.rs, and the patch arguments it has to agree with. */
module AllowPath {
  import opened Limits
  import opened Wrappers
  import opened Utf8
  import opened Paths
  import opened Json
  import opened Patch
  import QueryText

  const MAX_ALLOW_PATH_ENTRIES: nat := 64
  const MAX_APPLY_PATCH_EDITS: nat := 32

  /** `contains_resource`: a string test. */
  predicate ContainsResource(directory: Bytes, resource: Bytes) {
    || resource == directory
    || (directory <= resource && |directory| < |resource| && resource[|directory|] == SLASH)
  }

  /** The string test is component containment. */
  lemma ContainmentIsComponentwise(ws: Bytes, d: Bytes, r: Bytes, dp: RelativePath, rp: RelativePath)
    requires ParseCanonical(ws, d) == Success(dp) && ParseCanonical(ws, r) == Success(rp)
    ensures ContainsResource(d, r) <==> dp <= rp
  {
    hide ParseCanonical;
    ParseIffPrinted(ws, d, dp);
    ParseIffPrinted(ws, r, rp);
    hide InGrammar;
    if dp == [] {
      assert rp != [] ==> r == d + [SLASH] + Join(rp);
    } else if rp == [] {
      assert |r| < |d|;
    } else {
      PrefixOfJoin(dp, rp);
      var root := Root(ws) + [SLASH];
      assert d == root + Join(dp) && r == root + Join(rp);
      ContainsShift(root, Join(dp), Join(rp));
    }
  }

  lemma ContainsShift(root: Bytes, a: Bytes, b: Bytes)
    ensures ContainsResource(root + a, root + b) <==> ContainsResource(a, b)
  {
    NotPrefix(root + a, root + b);
    NotPrefix(a, b);
    if a <= b {
      assert root + b == (root + a) + b[|a|..];
    }
    if root + a <= root + b {
      assert (root + b)[..|root + a|] == root + a;
      assert b[..|a|] == (root + b)[|root|..][..|a|] == (root + a)[|root|..] == a;
    }
    if root + a == root + b {
      assert (root + a)[|root|..] == a && (root + b)[|root|..] == b;
    }
  }

  lemma PrefixOfJoin(dp: RelativePath, rp: RelativePath)
    requires dp != [] && rp != []
    requires forall c | c in dp :: SLASH !in c
    requires forall c | c in rp :: SLASH !in c
    ensures ContainsResource(Join(dp), Join(rp)) <==> dp <= rp
  {
    var a, b := Join(dp), Join(rp);
    SplitJoin(dp);
    SplitJoin(rp);
    if dp <= rp {
      if dp != rp {
        assert rp == dp + rp[|dp|..];
        JoinConcat(dp, rp[|dp|..]);
      }
    }
    if ContainsResource(a, b) && a != b {
      var rest := b[|a| + 1..];
      assert b == a + [SLASH] + rest;
      SplitAtSeparator(SLASH, a, rest);
      assert rp == dp + Split(rest);
    }
  }

  // ---- building the authorisation ----

  datatype AuthorizationError = EmptyDirectorySet | TooManyEntries | InvalidEntry | DuplicateEntry
  datatype Authorization = Authorization(files: set<Bytes>, directories: set<Bytes>)

  predicate EntryOk(ws: Bytes, value: Bytes, allowRoot: bool) {
    CanonicalResource(ws, value).Success? && (allowRoot || SLASH in CanonicalResource(ws, value).value)
  }

  /** An entry is one of the two ways to write a path, and for a file not that of the root. */
  lemma {:induction false} EntryIff(ws: Bytes, value: Bytes, allowRoot: bool)
    requires IsWorkspaceId(ws)
    ensures EntryOk(ws, value, allowRoot) <==>
            exists p :: IsPath(p) && (allowRoot || p != []) && (value == Display(p) || value == Print(ws, p))
  {
    hide CanonicalResource, IsPath, Print, Display;
    if CanonicalResource(ws, value).Success? {
      CanonicalIsPrinted(ws, value);
      var p :| IsPath(p) && CanonicalResource(ws, value).value == Print(ws, p);
      CanonicalIff(ws, value, p);
      PrintedSlash(ws, p);
    }
    forall p | IsPath(p) && (value == Display(p) || value == Print(ws, p))
      ensures CanonicalResource(ws, value) == Success(Print(ws, p)) && (SLASH in Print(ws, p) <==> p != [])
    {
      CanonicalIff(ws, value, p);
      PrintedSlash(ws, p);
    }
  }

  lemma PrintedSlash(ws: Bytes, p: RelativePath)
    requires IsWorkspaceId(ws)
    ensures SLASH in Print(ws, p) <==> p != []
  {
    assert SLASH !in ws && SLASH !in CanonicalPrefix();
  }

  ghost predicate Collectable(ws: Bytes, values: seq<Bytes>, allowRoot: bool) {
    && |values| <= MAX_ALLOW_PATH_ENTRIES
    && (forall i | 0 <= i < |values| :: EntryOk(ws, values[i], allowRoot))
    && (forall i, j | 0 <= i < j < |values| ::
          CanonicalResource(ws, values[i]) != CanonicalResource(ws, values[j]))
  }

  ghost predicate IsCollection(ws: Bytes, values: seq<Bytes>, s: set<Bytes>) {
    && |s| == |values|
    && (forall i | 0 <= i < |values| ::
          CanonicalResource(ws, values[i]).Success? && CanonicalResource(ws, values[i]).value in s)
    && (forall c | c in s :: exists i | 0 <= i < |values| :: CanonicalResource(ws, values[i]) == Success(c))
  }

  ghost predicate FirstEntryError(ws: Bytes, values: seq<Bytes>, allowRoot: bool, error: AuthorizationError) {
    exists i | 0 <= i < |values| ::
      && Collectable(ws, values[..i], allowRoot) && !Collectable(ws, values[..i + 1], allowRoot)
      && error == if i == MAX_ALLOW_PATH_ENTRIES then TooManyEntries
                  else if !EntryOk(ws, values[i], allowRoot) then InvalidEntry
                  else DuplicateEntry
  }

  /** `canonical_set` */
  method CanonicalSet(ws: Bytes, values: seq<Bytes>, allowRoot: bool)
    returns (r: Result<set<Bytes>, AuthorizationError>)
    ensures r.Success? <==> Collectable(ws, values, allowRoot)
    ensures r.Success? ==> IsCollection(ws, values, r.value)
    ensures r.Failure? ==> FirstEntryError(ws, values, allowRoot, r.error)
  {
    hide CanonicalResource, FirstEntryError, Collectable, IsCollection;
    var s: set<Bytes> := {};
    NothingCollected(ws, allowRoot);
    assert values[..0] == [];
    for i := 0 to |values|
      invariant Collectable(ws, values[..i], allowRoot) && IsCollection(ws, values[..i], s)
    {
      var value := values[i];
      assert values[..i + 1] == values[..i] + [value];
      CollectionSize(ws, values[..i], s);
      if |s| == MAX_ALLOW_PATH_ENTRIES {
        EntryFails(ws, values, i, allowRoot);
        return Failure(TooManyEntries);
      }
      if !EntryOk(ws, value, allowRoot) {
        EntryFails(ws, values, i, allowRoot);
        return Failure(InvalidEntry);
      }
      var canonical := CanonicalResource(ws, value).value;
      if canonical in s {
        Collected(ws, values[..i], s, canonical);
        EntryFails(ws, values, i, allowRoot);
        return Failure(DuplicateEntry);
      }
      CollectionSizeFits(ws, values[..i], allowRoot);
      CollectionGrows(ws, values[..i], value, s);
      CollectableGrows(ws, values[..i], value, allowRoot);
      s := s + {canonical};
    }
    assert values[..|values|] == values;
    return Success(s);
  }

  lemma NothingCollected(ws: Bytes, allowRoot: bool)
    ensures Collectable(ws, [], allowRoot) && IsCollection(ws, [], {})
  {
  }

  lemma CollectionSize(ws: Bytes, values: seq<Bytes>, s: set<Bytes>)
    requires IsCollection(ws, values, s)
    ensures |s| == |values|
  {
  }

  lemma CollectionSizeFits(ws: Bytes, values: seq<Bytes>, allowRoot: bool)
    requires Collectable(ws, values, allowRoot)
    ensures |values| <= MAX_ALLOW_PATH_ENTRIES
  {
  }

  lemma Collected(ws: Bytes, values: seq<Bytes>, s: set<Bytes>, canonical: Bytes)
    requires IsCollection(ws, values, s) && canonical in s
    ensures exists j | 0 <= j < |values| :: CanonicalResource(ws, values[j]) == Success(canonical)
  {
    hide CanonicalResource;
  }

  lemma CollectableGrows(ws: Bytes, values: seq<Bytes>, value: Bytes, allowRoot: bool)
    requires Collectable(ws, values, allowRoot) && |values| < MAX_ALLOW_PATH_ENTRIES && EntryOk(ws, value, allowRoot)
    requires forall i | 0 <= i < |values| :: CanonicalResource(ws, values[i]) != CanonicalResource(ws, value)
    ensures Collectable(ws, values + [value], allowRoot)
  {
    hide CanonicalResource, EntryOk;
  }

  lemma EntryFails(ws: Bytes, values: seq<Bytes>, i: nat, allowRoot: bool)
    requires i < |values| && Collectable(ws, values[..i], allowRoot)
    requires
      || i == MAX_ALLOW_PATH_ENTRIES
      || !EntryOk(ws, values[i], allowRoot)
      || exists j | 0 <= j < i :: CanonicalResource(ws, values[..i][j]) == CanonicalResource(ws, values[i])
    ensures !Collectable(ws, values, allowRoot)
    ensures FirstEntryError(ws, values, allowRoot,
      if i == MAX_ALLOW_PATH_ENTRIES then TooManyEntries
      else if !EntryOk(ws, values[i], allowRoot) then InvalidEntry
      else DuplicateEntry)
  {
    hide CanonicalResource;
    var shorter := values[..i + 1];
    assert shorter[i] == values[i] && shorter[..i] == values[..i];
    if j :| 0 <= j < i && CanonicalResource(ws, values[..i][j]) == CanonicalResource(ws, values[i]) {
      assert shorter[j] == values[..i][j] == values[j];
    }
  }

  lemma CollectionGrows(ws: Bytes, values: seq<Bytes>, value: Bytes, s: set<Bytes>)
    requires IsCollection(ws, values, s) && CanonicalResource(ws, value).Success?
    requires CanonicalResource(ws, value).value !in s
    ensures IsCollection(ws, values + [value], s + {CanonicalResource(ws, value).value})
    ensures forall i | 0 <= i < |values| :: CanonicalResource(ws, values[i]) != CanonicalResource(ws, value)
  {
    hide CanonicalResource;
    var v, t := values + [value], s + {CanonicalResource(ws, value).value};
    forall c | c in t
      ensures exists i | 0 <= i < |v| :: CanonicalResource(ws, v[i]) == Success(c)
    {
      if c in s {
        var i :| 0 <= i < |values| && CanonicalResource(ws, values[i]) == Success(c);
        assert v[i] == values[i];
      } else {
        assert v[|values|] == value;
      }
    }
  }

  /** Every entry is a canonical resource of the workspace. */
  ghost predicate CanonicalEntries(ws: Bytes, s: set<Bytes>) {
    forall c | c in s :: ParseCanonical(ws, c).Success?
  }

  lemma CollectionIsCanonical(ws: Bytes, values: seq<Bytes>, s: set<Bytes>)
    requires IsCollection(ws, values, s)
    ensures CanonicalEntries(ws, s)
  {
    hide CanonicalResource, ParseCanonical;
    forall c | c in s
      ensures ParseCanonical(ws, c).Success?
    {
      var i :| 0 <= i < |values| && CanonicalResource(ws, values[i]) == Success(c);
      CanonicalIsIdempotent(ws, values[i]);
    }
  }

  /** A file entry and a directory entry name the same resource. */
  ghost predicate Shared(ws: Bytes, files: seq<Bytes>, directories: seq<Bytes>) {
    exists i, j :: 0 <= i < |files| && 0 <= j < |directories|
      && CanonicalResource(ws, files[i]) == CanonicalResource(ws, directories[j])
  }

  /** When `new` succeeds. */
  ghost predicate Authorizable(ws: Bytes, files: seq<Bytes>, directories: seq<Bytes>) {
    && Collectable(ws, files, false) && Collectable(ws, directories, true) && directories != []
    && |files| + |directories| <= MAX_ALLOW_PATH_ENTRIES && !Shared(ws, files, directories)
  }

  /** Which error is returned otherwise: the files come first, then the directories, then the sets together. */
  ghost predicate AuthorizationFails(ws: Bytes, files: seq<Bytes>, directories: seq<Bytes>, error: AuthorizationError) {
    if !Collectable(ws, files, false) then FirstEntryError(ws, files, false, error)
    else if !Collectable(ws, directories, true) then FirstEntryError(ws, directories, true, error)
    else if directories == [] then error == EmptyDirectorySet
    else if |files| + |directories| > MAX_ALLOW_PATH_ENTRIES then error == TooManyEntries
    else Shared(ws, files, directories) && error == DuplicateEntry
  }

  lemma SharedIff(ws: Bytes, files: seq<Bytes>, directories: seq<Bytes>, f: set<Bytes>, d: set<Bytes>)
    requires IsCollection(ws, files, f) && IsCollection(ws, directories, d)
    ensures Shared(ws, files, directories) <==> exists path | path in f :: path in d
    ensures |f| == |files| && |d| == |directories|
  {
    hide CanonicalResource;
    if path :| path in f && path in d {
      var i :| 0 <= i < |files| && CanonicalResource(ws, files[i]) == Success(path);
      var j :| 0 <= j < |directories| && CanonicalResource(ws, directories[j]) == Success(path);
    }
    if Shared(ws, files, directories) {
      var i, j :| 0 <= i < |files| && 0 <= j < |directories|
        && CanonicalResource(ws, files[i]) == CanonicalResource(ws, directories[j]);
      assert CanonicalResource(ws, files[i]).value in f && CanonicalResource(ws, directories[j]).value in d;
    }
  }

  /** `WorkspaceReadAuthorization::new`, without the planner hint and the catalog digest. */
  method NewAuthorization(ws: Bytes, files: seq<Bytes>, directories: seq<Bytes>)
    returns (r: Result<Authorization, AuthorizationError>)
    ensures r.Success? <==> Authorizable(ws, files, directories)
    ensures r.Failure? ==> AuthorizationFails(ws, files, directories, r.error)
    ensures r.Success? ==>
      && IsCollection(ws, files, r.value.files) && IsCollection(ws, directories, r.value.directories)
      && r.value.directories != {} && r.value.files !! r.value.directories
      && |r.value.files| + |r.value.directories| <= MAX_ALLOW_PATH_ENTRIES
      && CanonicalEntries(ws, r.value.files) && CanonicalEntries(ws, r.value.directories)
  {
    hide CanonicalResource, ParseCanonical, IsCollection, Collectable, FirstEntryError, Shared, CanonicalEntries;
    var fileSet :- CanonicalSet(ws, files, false);
    var directorySet :- CanonicalSet(ws, directories, true);
    CollectionIsCanonical(ws, files, fileSet);
    CollectionIsCanonical(ws, directories, directorySet);
    SharedIff(ws, files, directories, fileSet, directorySet);
    if directorySet == {} {
      return Failure(EmptyDirectorySet);
    }
    if |fileSet| + |directorySet| > MAX_ALLOW_PATH_ENTRIES {
      return Failure(TooManyEntries);
    }
    if exists path | path in fileSet :: path in directorySet {
      return Failure(DuplicateEntry);
    }
    return Success(Authorization(fileSet, directorySet));
  }

  // ---- authorising ----

  datatype Capability = ReadText | Stat | ListDirectory | SearchText | WriteAtomic | ApplyPatch | OtherCapability

  predicate AuthorizesDirectory(a: Authorization, resource: Bytes) {
    exists d | d in a.directories :: ContainsResource(d, resource)
  }

  predicate AuthorizesResource(a: Authorization, capability: Capability, resource: Bytes) {
    match capability
    case ReadText => resource in a.files || AuthorizesDirectory(a, resource)
    case Stat => resource in a.files || AuthorizesDirectory(a, resource)
    case OtherCapability => false
    case _ => AuthorizesDirectory(a, resource)
  }

  predicate ValidExpectedDigest(value: Value) {
    value.Null? || (value.Text? && CanonicalDigest(value.text))
  }

  predicate AuthorizesMaterial(a: Authorization, capability: Capability, arguments: Value) {
    arguments.Object? && GetText(arguments.fields, "path").Some? &&
    var fields, path := arguments.fields, GetText(arguments.fields, "path").value;
    match capability
    case ReadText => |fields| == 1 && (path in a.files || AuthorizesDirectory(a, path))
    case Stat => |fields| == 1 && (path in a.files || AuthorizesDirectory(a, path))
    case ListDirectory => |fields| == 1 && AuthorizesDirectory(a, path)
    case SearchText =>
      && |fields| == 2
      && GetText(fields, "query").Some? && QueryText.ValidQuery(GetText(fields, "query").value)
      && AuthorizesDirectory(a, path)
    case WriteAtomic =>
      && |fields| == 3
      && GetText(fields, "content").Some? && |GetText(fields, "content").value| <= MAX_ATOMIC_TEXT_BYTES
      && Get(fields, "expectedDigest").Some? && ValidExpectedDigest(Get(fields, "expectedDigest").value)
      && AuthorizesDirectory(a, path)
    case ApplyPatch => PatchShape(fields) && AuthorizesDirectory(a, path)
    case OtherCapability => false
  }

  /** A parsed path has no `..`. */
  lemma NoParent(ws: Bytes, resource: Bytes, path: RelativePath)
    requires ParseCanonical(ws, resource) == Success(path)
    ensures [DOT, DOT] !in path
  {
    hide ParseCanonical, InGrammar;
    ParseIffPrinted(ws, resource, path);
    forall c | c in path
      ensures c != [DOT, DOT]
    {
      AcceptedComponent(c);
    }
  }

  /** Component-wise, `path` lies under an allowed directory. */
  ghost predicate Inside(ws: Bytes, directories: set<Bytes>, path: RelativePath) {
    exists d, dp | d in directories :: ParseCanonical(ws, d) == Success(dp) && dp <= path
  }

  /** A parsed resource is authorised exactly when it is an allowed file (for reading) or its
      components continue those of an allowed directory. */
  lemma AuthorizedIffInside(ws: Bytes, a: Authorization, capability: Capability, resource: Bytes, path: RelativePath)
    requires CanonicalEntries(ws, a.directories) && ParseCanonical(ws, resource) == Success(path)
    ensures AuthorizesResource(a, capability, resource) <==>
      && !capability.OtherCapability?
      && (Inside(ws, a.directories, path)
          || ((capability.ReadText? || capability.Stat?) && resource in a.files))
    ensures [DOT, DOT] !in path
  {
    hide ContainsResource, ParseCanonical;
    NoParent(ws, resource, path);
    forall d | d in a.directories
      ensures ContainsResource(d, resource) <==> ParseCanonical(ws, d).value <= path
    {
      ContainmentIsComponentwise(ws, d, resource, ParseCanonical(ws, d).value, path);
    }
    if AuthorizesDirectory(a, resource) {
      var d :| d in a.directories && ContainsResource(d, resource);
      assert ParseCanonical(ws, d) == Success(ParseCanonical(ws, d).value);
    }
  }

  /** Authorised material names an authorised resource: no argument shape widens the reach. */
  lemma MaterialIsInside(ws: Bytes, a: Authorization, capability: Capability, arguments: Value, path: RelativePath)
    requires CanonicalEntries(ws, a.directories) && AuthorizesMaterial(a, capability, arguments)
    requires ParseCanonical(ws, GetText(arguments.fields, "path").value) == Success(path)
    ensures
      || Inside(ws, a.directories, path)
      || ((capability.ReadText? || capability.Stat?) && GetText(arguments.fields, "path").value in a.files)
    ensures [DOT, DOT] !in path && IsPath(path)
  {
    NoParent(ws, GetText(arguments.fields, "path").value, path);
    ParseIffPrinted(ws, GetText(arguments.fields, "path").value, path);
    hide ContainsResource, ParseCanonical, QueryText.ValidQuery, CanonicalDigest, PatchShape, Inside;
    AuthorizedIffInside(ws, a, capability, GetText(arguments.fields, "path").value, path);
  }

  // ---- the shapes of authorised arguments ----

  /** `sha256:` and 64 lower-case hexadecimal digits. */
  ghost predicate IsDigest(value: Bytes) {
    exists hex :: |hex| == 64 && value == Ascii("sha256:") + hex && forall b | b in hex :: b in Ascii("0123456789abcdef")
  }

  lemma {:induction false} DigestIff(value: Bytes)
    ensures CanonicalDigest(value) <==> IsDigest(value)
  {
    forall b: Byte
      ensures b in Ascii("0123456789abcdef") <==> 0x30 <= b <= 0x39 || 0x61 <= b <= 0x66
    {
      HexDigit(b);
    }
    var prefix := Ascii("sha256:");
    if CanonicalDigest(value) {
      var hex := value[7..];
      assert value == prefix + hex && forall i | 0 <= i < 64 :: hex[i] == value[i + 7];
    }
    if IsDigest(value) {
      var hex :| |hex| == 64 && value == prefix + hex && forall b | b in hex :: b in Ascii("0123456789abcdef");
      forall i | 7 <= i < 71
        ensures value[i] in Ascii("0123456789abcdef")
      {
        assert value[i] == hex[i - 7];
      }
    }
  }

  /** The members each operation's arguments consist of, beside nothing else. */
  ghost predicate MaterialShape(capability: Capability, path: Bytes, arguments: Value) {
    var p := Ascii("path");
    match capability
    case ReadText => arguments == Object(map[p := Text(path)])
    case Stat => arguments == Object(map[p := Text(path)])
    case ListDirectory => arguments == Object(map[p := Text(path)])
    case SearchText =>
      exists query ::
        arguments == Object(map[p := Text(path), Ascii("query") := Text(query)]) && QueryText.ValidQuery(query)
    case WriteAtomic =>
      exists content, expected ::
        && arguments == Object(map[p := Text(path), Ascii("content") := Text(content), Ascii("expectedDigest") := expected])
        && |content| <= 65536
        && (expected == Null || (expected.Text? && IsDigest(expected.text)))
    case ApplyPatch =>
      exists digest, edits ::
        && arguments == Object(map[p := Text(path), Ascii("expectedDigest") := Text(digest), Ascii("edits") := Array(edits)])
        && IsDigest(digest) && 1 <= |edits| <= 32 && (forall v | v in edits :: IsEdit(v)) && EditsShape(edits)
    case OtherCapability => false
  }

  ghost predicate IsEdit(v: Value) {
    exists was, now ::
      v == Object(map[Ascii("oldText") := Text(was), Ascii("newText") := Text(now)]) && was != [] && was != now
  }

  lemma NamesDiffer()
    ensures Ascii("path") != Ascii("query") && Ascii("oldText") != Ascii("newText")
    ensures Ascii("path") != Ascii("content") && Ascii("path") != Ascii("expectedDigest")
    ensures Ascii("content") != Ascii("expectedDigest") && Ascii("path") != Ascii("edits")
    ensures Ascii("edits") != Ascii("expectedDigest")
  {
    assert |Ascii("path")| == 4 && |Ascii("query")| == 5 && |Ascii("content")| == 7 && |Ascii("expectedDigest")| == 14;
    assert Ascii("edits")[0] == 0x65 && Ascii("query")[0] == 0x71 && Ascii("content")[0] == 0x63;
    assert Ascii("oldText")[0] == 0x6F && Ascii("newText")[0] == 0x6E;
  }

  lemma EditIff(v: Value)
    ensures EditShape(v) <==> IsEdit(v)
  {
    NamesDiffer();
    var a, b := Ascii("oldText"), Ascii("newText");
    if v.Object? && a in v.fields && b in v.fields {
      TwoKeys(v.fields, a, b);
    }
    hide Ascii;
  }

  lemma ReadMaterial(a: Authorization, capability: Capability, fields: map<Bytes, Value>, path: Bytes)
    requires capability.ReadText? || capability.Stat? || capability.ListDirectory?
    requires GetText(fields, "path") == Some(path)
    ensures AuthorizesMaterial(a, capability, Object(fields)) <==>
            MaterialShape(capability, path, Object(fields)) && AuthorizesResource(a, capability, path)
  {
    OneKey(fields, Ascii("path"));
    hide AuthorizesDirectory;
  }

  lemma SearchMaterial(a: Authorization, fields: map<Bytes, Value>, path: Bytes)
    requires GetText(fields, "path") == Some(path)
    ensures AuthorizesMaterial(a, SearchText, Object(fields)) <==>
            MaterialShape(SearchText, path, Object(fields)) && AuthorizesResource(a, SearchText, path)
  {
    NamesDiffer();
    hide QueryText.ValidQuery, Ascii, AuthorizesDirectory;
    if Ascii("query") in fields {
      TwoKeys(fields, Ascii("path"), Ascii("query"));
    }
    if AuthorizesMaterial(a, SearchText, Object(fields)) {
      var query := GetText(fields, "query").value;
      assert Object(fields) == Object(map[Ascii("path") := Text(path), Ascii("query") := Text(query)]);
    }
  }

  ghost predicate WriteShape(fields: map<Bytes, Value>, path: Bytes) {
    var p, c, e := Ascii("path"), Ascii("content"), Ascii("expectedDigest");
    && c in fields && fields[c].Text? && |fields[c].text| <= 65536
    && e in fields && (fields[e].Null? || (fields[e].Text? && IsDigest(fields[e].text)))
    && fields == map[p := Text(path), c := fields[c], e := fields[e]]
  }

  lemma IsWriteShape(fields: map<Bytes, Value>, path: Bytes, content: Bytes, expected: Value)
    requires fields == map[Ascii("path") := Text(path), Ascii("content") := Text(content), Ascii("expectedDigest") := expected]
    requires |content| <= 65536 && (expected == Null || (expected.Text? && IsDigest(expected.text)))
    ensures WriteShape(fields, path)
  {
    NamesDiffer();
    hide Ascii, IsDigest;
  }

  lemma WriteShapeIff(fields: map<Bytes, Value>, path: Bytes)
    ensures MaterialShape(WriteAtomic, path, Object(fields)) <==> WriteShape(fields, path)
  {
    var p, c, e := Ascii("path"), Ascii("content"), Ascii("expectedDigest");
    if WriteShape(fields, path) {
      hide Ascii, IsDigest;
      assert Object(fields) == Object(map[p := Text(path), c := Text(fields[c].text), e := fields[e]]);
    }
    hide IsDigest, WriteShape, Ascii;
    if MaterialShape(WriteAtomic, path, Object(fields)) {
      var content, expected :|
        && Object(fields) == Object(map[p := Text(path), c := Text(content), e := expected])
        && |content| <= 65536
        && (expected == Null || (expected.Text? && IsDigest(expected.text)));
      IsWriteShape(fields, path, content, expected);
    }
  }

  lemma WriteMaterial(a: Authorization, fields: map<Bytes, Value>, path: Bytes)
    requires GetText(fields, "path") == Some(path)
    ensures AuthorizesMaterial(a, WriteAtomic, Object(fields)) <==>
            MaterialShape(WriteAtomic, path, Object(fields)) && AuthorizesResource(a, WriteAtomic, path)
  {
    NamesDiffer();
    WriteShapeIff(fields, path);
    hide MaterialShape, CanonicalDigest, IsDigest, Ascii, AuthorizesDirectory;
    var p, c, e := Ascii("path"), Ascii("content"), Ascii("expectedDigest");
    if e in fields && fields[e].Text? {
      DigestIff(fields[e].text);
    }
    if c in fields && e in fields {
      ThreeKeys(fields, p, c, e);
    }
  }

  lemma PatchMaterial(a: Authorization, fields: map<Bytes, Value>, path: Bytes)
    requires GetText(fields, "path") == Some(path)
    ensures AuthorizesMaterial(a, ApplyPatch, Object(fields)) <==>
            MaterialShape(ApplyPatch, path, Object(fields)) && AuthorizesResource(a, ApplyPatch, path)
  {
    NamesDiffer();
    PatchShapeIff(fields, path);
    hide PatchShape, MaterialShape, AuthorizesDirectory;
  }

  lemma PatchShapeIff(fields: map<Bytes, Value>, path: Bytes)
    requires GetText(fields, "path") == Some(path)
    ensures PatchShape(fields) <==> MaterialShape(ApplyPatch, path, Object(fields))
  {
    NamesDiffer();
    var p, d, e := Ascii("path"), Ascii("expectedDigest"), Ascii("edits");
    forall value: Bytes
      ensures CanonicalDigest(value) <==> IsDigest(value)
    {
      DigestIff(value);
    }
    forall v: Value
      ensures EditShape(v) <==> IsEdit(v)
    {
      EditIff(v);
    }
    hide CanonicalDigest, IsDigest, Ascii, EditShape, IsEdit, EditBytes;
    if d in fields && e in fields {
      ThreeKeys(fields, p, d, e);
    }
    if PatchShape(fields) {
      var digest, edits := GetText(fields, "expectedDigest").value, fields[e].items;
      assert Object(fields) == Object(map[p := Text(path), d := Text(digest), e := Array(edits)]);
    }
  }

  /** Material is authorised exactly when its arguments are the members of the operation, in their
      shapes and nothing else, and the path is an authorised resource of the operation. */
  lemma {:induction false} MaterialIff(a: Authorization, capability: Capability, arguments: Value)
    ensures AuthorizesMaterial(a, capability, arguments) <==>
            exists path :: MaterialShape(capability, path, arguments) && AuthorizesResource(a, capability, path)
  {
    forall path | MaterialShape(capability, path, arguments)
      ensures arguments.Object? && GetText(arguments.fields, "path") == Some(path)
    {
      ShapeHasPath(capability, path, arguments);
    }
    hide MaterialShape, QueryText.ValidQuery, PatchShape, AuthorizesDirectory, GetText, Get, AuthorizesResource;
    if arguments.Object? && GetText(arguments.fields, "path").Some? {
      var fields, path := arguments.fields, GetText(arguments.fields, "path").value;
      match capability {
        case SearchText => SearchMaterial(a, fields, path);
        case WriteAtomic => WriteMaterial(a, fields, path);
        case ApplyPatch => PatchMaterial(a, fields, path);
        case OtherCapability => assert !AuthorizesResource(a, capability, path) by { NothingElse(a, path); }
        case _ => ReadMaterial(a, capability, fields, path);
      }
    }
  }

  lemma NothingElse(a: Authorization, path: Bytes)
    ensures !AuthorizesResource(a, OtherCapability, path)
  {
  }

  lemma ShapeHasPath(capability: Capability, path: Bytes, arguments: Value)
    requires MaterialShape(capability, path, arguments)
    ensures arguments.Object? && GetText(arguments.fields, "path") == Some(path)
  {
    NamesDiffer();
    hide Ascii, QueryText.ValidQuery, EditsShape, IsDigest;
  }

  // ---- patch arguments: the caller's check and the adapter's ----

  /** One element of `edits` that both sides accept. */
  predicate EditShape(value: Value) {
    && value.Object? && |value.fields| == 2
    && GetText(value.fields, "oldText").Some? && GetText(value.fields, "newText").Some?
    && GetText(value.fields, "oldText").value != []
    && GetText(value.fields, "oldText").value != GetText(value.fields, "newText").value
  }

  function EditOf(value: Value): PatchEdit
    requires EditShape(value)
  {
    PatchEdit(GetText(value.fields, "oldText").value, GetText(value.fields, "newText").value)
  }

  function EditBytes(values: seq<Value>): nat
    requires forall v | v in values :: EditShape(v)
  {
    if values == [] then 0
    else EditBytes(values[..|values| - 1]) + |EditOf(values[|values| - 1]).oldText| + |EditOf(values[|values| - 1]).newText|
  }

  predicate EditsShape(values: seq<Value>) {
    && 0 < |values| <= MAX_APPLY_PATCH_EDITS
    && (forall v | v in values :: EditShape(v))
    && EditBytes(values) <= MAX_ATOMIC_TEXT_BYTES
  }

  predicate PatchShape(fields: map<Bytes, Value>) {
    && |fields| == 3
    && GetText(fields, "expectedDigest").Some? && CanonicalDigest(GetText(fields, "expectedDigest").value)
    && Get(fields, "edits").Some? && Get(fields, "edits").value.Array?
    && EditsShape(Get(fields, "edits").value.items)
  }

  lemma {:induction false} EditBytesPrefix(values: seq<Value>, n: nat)
    requires n <= |values| && forall v | v in values :: EditShape(v)
    ensures EditBytes(values[..n]) <= EditBytes(values)
    decreases |values|
  {
    if n < |values| {
      var rest := values[..|values| - 1];
      assert rest[..n] == values[..n];
      EditBytesPrefix(rest, n);
    } else {
      assert values[..n] == values;
    }
  }

  /** `valid_patch_shape` of allow_path.rs. */
  method ValidPatchShape(fields: map<Bytes, Value>) returns (ok: bool)
    ensures ok <==> PatchShape(fields)
  {
    if |fields| != 3 || GetText(fields, "expectedDigest").None?
       || !CanonicalDigest(GetText(fields, "expectedDigest").value) {
      return false;
    }
    var edits := Get(fields, "edits");
    if edits.None? || !edits.value.Array? || edits.value.items == [] || |edits.value.items| > MAX_APPLY_PATCH_EDITS {
      return false;
    }
    ok := CheckEdits(edits.value.items);
  }

  /** The closure over `edits` in `valid_patch_shape`. */
  method CheckEdits(values: seq<Value>) returns (ok: bool)
    requires 0 < |values| <= MAX_APPLY_PATCH_EDITS
    ensures ok <==> EditsShape(values)
  {
    hide GetText;
    var total := 0;
    for i := 0 to |values|
      invariant forall v | v in values[..i] :: EditShape(v)
      invariant total == EditBytes(values[..i]) <= MAX_ATOMIC_TEXT_BYTES
    {
      assert values[..i + 1] == values[..i] + [values[i]] && values[..i + 1][..i] == values[..i];
      if !EditShape(values[i]) {
        assert values[i] in values;
        return false;
      }
      total := total + |EditOf(values[i]).oldText| + |EditOf(values[i]).newText|;
      if total > MAX_ATOMIC_TEXT_BYTES {
        if forall v | v in values :: EditShape(v) {
          EditBytesPrefix(values, i + 1);
        }
        return false;
      }
    }
    assert values[..|values|] == values;
    return true;
  }

  /** The loop over `edits` in `parse_arguments` of apply_patch.rs. */
  method CollectEdits(values: seq<Value>) returns (r: Option<seq<PatchEdit>>)
    requires 0 < |values| <= MAX_APPLY_PATCH_EDITS
    ensures r.Some? <==> EditsShape(values)
    ensures r.Some? ==> IsEdits(values, r.value)
  {
    hide GetText;
    var total := 0;
    var edits: seq<PatchEdit> := [];
    for i := 0 to |values|
      invariant forall v | v in values[..i] :: EditShape(v)
      invariant total == EditBytes(values[..i]) <= MAX_ATOMIC_TEXT_BYTES
      invariant |edits| == i && forall k | 0 <= k < i :: EditShape(values[k]) && edits[k] == EditOf(values[k])
    {
      var value := values[i];
      assert values[..i + 1] == values[..i] + [value] && values[..i + 1][..i] == values[..i];
      if !EditShape(value) {
        assert value in values;
        return None;
      }
      var edit := EditOf(value);
      total := total + |edit.oldText| + |edit.newText|;
      if total > MAX_ATOMIC_TEXT_BYTES {
        if forall v | v in values :: EditShape(v) {
          EditBytesPrefix(values, i + 1);
        }
        return None;
      }
      edits := edits + [edit];
    }
    assert values[..|values|] == values;
    return Some(edits);
  }

  /** Edit `i` is the one that element `i` of the argument describes. */
  ghost predicate IsEdits(values: seq<Value>, edits: seq<PatchEdit>) {
    && |edits| == |values| && forall i | 0 <= i < |values| :: EditShape(values[i]) && edits[i] == EditOf(values[i])
  }

  /** The texts of the edits are UTF-8, as all strings are. */
  ghost predicate TextsAreValid(values: seq<Value>) {
    forall i | 0 <= i < |values| && EditShape(values[i]) ::
      Valid(EditOf(values[i]).oldText) && Valid(EditOf(values[i]).newText)
  }

  /** The edits are what the engine asks for. */
  lemma EditsAreWellFormed(values: seq<Value>, edits: seq<PatchEdit>)
    requires IsEdits(values, edits)
    ensures TextsAreValid(values) ==> WellFormedEdits(edits)
    ensures forall e | e in edits :: e.oldText != [] && e.oldText != e.newText
  {
    hide Valid, GetText;
    forall e | e in edits
      ensures e.oldText != [] && e.oldText != e.newText
      ensures TextsAreValid(values) ==> Valid(e.oldText) && Valid(e.newText)
    {
      var i :| 0 <= i < |edits| && edits[i] == e;
      assert EditShape(values[i]);
    }
  }

  datatype ParsedPatch = ParsedPatch(path: RelativePath, expectedDigest: Bytes, edits: seq<PatchEdit>)

  /** `parse_arguments` of apply_patch.rs accepts exactly what `valid_patch_shape` accepts, for a
      path that parses below the root; and what it hands to the engine has non-empty old texts. */
  method ParsePatchArguments(ws: Bytes, arguments: Value) returns (r: Option<ParsedPatch>)
    ensures r.Some? <==>
      && arguments.Object? && PatchShape(arguments.fields)
      && GetText(arguments.fields, "path").Some?
      && ParseCanonical(ws, GetText(arguments.fields, "path").value).Success?
      && ParseCanonical(ws, GetText(arguments.fields, "path").value).value != []
    ensures r.Some? ==>
      && r.value.expectedDigest == GetText(arguments.fields, "expectedDigest").value
      && r.value.path == ParseCanonical(ws, GetText(arguments.fields, "path").value).value
      && IsEdits(Get(arguments.fields, "edits").value.items, r.value.edits)
      && (TextsAreValid(Get(arguments.fields, "edits").value.items) ==> WellFormedEdits(r.value.edits))
      && forall e | e in r.value.edits :: e.oldText != [] && e.oldText != e.newText
  {
    hide ParseCanonical, CanonicalDigest;
    if !arguments.Object? || |arguments.fields| != 3 {
      return None;
    }
    var path := GetText(arguments.fields, "path");
    if path.None? {
      return None;
    }
    var relative := ParseCanonical(ws, path.value);
    if relative.Failure? || relative.value == [] {
      return None;
    }
    var expected := GetText(arguments.fields, "expectedDigest");
    if expected.None? || !CanonicalDigest(expected.value) {
      return None;
    }
    var values := Get(arguments.fields, "edits");
    if values.None? || !values.value.Array? || values.value.items == [] || |values.value.items| > MAX_APPLY_PATCH_EDITS {
      return None;
    }
    var edits := CollectEdits(values.value.items);
    if edits.None? {
      return None;
    }
    EditsAreWellFormed(values.value.items, edits.value);
    return Some(ParsedPatch(relative.value, expected.value, edits.value));
  }
}
