/** `apply_patch_to_file`: read, check the digest, substitute, commit. */
module PatchFile {
  import opened Limits
  import opened Wrappers
  import opened Utf8
  import opened Patch
  import opened AtomicCommit
  import opened CommitProcedure

  datatype FileFailure =
    | ReadSource
    | PreconditionConflict
    | Engine(patch: PatchFailure)
    | Atomic(commit: CommitFailure)
  {
    predicate OutcomeIsUnknown() {
      Atomic? && commit.OutcomeIsUnknown()
    }
  }

  /** `digest`, `byte_size` and `changed` of the source. */
  datatype PatchCommit = PatchCommit(digest: Digest, byteSize: nat, changed: bool)

  /** What `read_text` delivers: a regular file of bounded UTF-8 text. */
  predicate Readable(node: Option<Node>) {
    node.Some? && node.value.Regular? && |node.value.content| <= MAX_ATOMIC_TEXT_BYTES
    && Valid(node.value.content)
  }

  method ReadText(parent: Parent, leaf: Name) returns (r: Option<Bytes>)
    ensures r.Some? ==>
      && leaf in parent.nodes && parent.nodes[leaf].Regular? && r.value == parent.nodes[leaf].content
      && |r.value| <= MAX_ATOMIC_TEXT_BYTES && Valid(r.value)
  {
    var ok: bool := *;
    r := if ok && Readable(Lookup(parent.nodes, leaf)) then Some(parent.nodes[leaf].content) else None;
  }

  /** What a failure says of the file that was patched. */
  ghost predicate Explained(hash: Hash, source: Option<Node>, expected: Digest, edits: seq<PatchEdit>, e: FileFailure)
    requires WellFormedEdits(edits)
  {
    match e
    case ReadSource => true
    case PreconditionConflict => Readable(source) && hash(source.value.content) != expected
    case Engine(_) =>
      Readable(source) && hash(source.value.content) == expected && !Applicable(source.value.content, multiset(edits))
    case Atomic(c) =>
      && Readable(source) && hash(source.value.content) == expected && Applicable(source.value.content, multiset(edits))
      && !c.Conflict?
  }

  /** With no other writer, a successful patch leaves exactly the simultaneous substitution of the
      text whose digest was expected; any failure whose outcome is known leaves the file alone. */
  method ApplyPatchToFile(parent: Parent, hash: Hash, leaf: Name, expected: Digest, edits: seq<PatchEdit>)
    returns (r: Result<PatchCommit, FileFailure>)
    requires Injective(hash) && !IsTemporaryName(leaf) && WellFormedEdits(edits)
    modifies parent
    ensures r.Success? ==>
      var source, now := Lookup(old(parent.nodes), leaf), Lookup(parent.nodes, leaf);
      && Readable(source) && hash(source.value.content) == expected
      && Applicable(source.value.content, multiset(edits))
      && Readable(now) && now.value.content == Rewrite(source.value.content, EditSet(multiset(edits)), 0)
      && r.value.digest == hash(now.value.content) && r.value.byteSize == |now.value.content|
      && (r.value.changed <==> now.value.content != source.value.content)
    ensures r.Failure? ==> Explained(hash, Lookup(old(parent.nodes), leaf), expected, edits, r.error)
    ensures r.Failure? && !r.error.OutcomeIsUnknown() ==> Lookup(parent.nodes, leaf) == Lookup(old(parent.nodes), leaf)
    ensures forall n | !IsTemporaryName(n) && n != leaf :: Lookup(parent.nodes, n) == Lookup(old(parent.nodes), n)
  {
    hide Rewrite, Applicable, Valid, IsTemporaryName, Can;
    var observed := ReadText(parent, leaf);
    if observed.None? {
      return Failure(ReadSource);
    }
    if hash(observed.value) != expected {
      return Failure(PreconditionConflict);
    }
    var desired := ApplyExactEdits(observed.value, edits);
    if desired.Failure? {
      return Failure(Engine(desired.error));
    }
    var job := Job(leaf, desired.value, Some(expected));
    var committed := CommitAtomic(parent, hash, job);
    if committed.Failure? {
      return Failure(Atomic(committed.error));
    }
    return Success(PatchCommit(hash(desired.value), |desired.value|, committed.value));
  }
}
