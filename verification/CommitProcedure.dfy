/** `commit_atomic` as written: one directory updated call by call, with every call free to fail.
    The procedure is proved to be a run of the step machine with a single committer. */
module CommitProcedure {
  import opened Limits
  import opened Wrappers
  import opened Utf8
  import opened AtomicCommit
  import opened CommitRecovery

  /** Some run of a lone committer leads from `first` to `dir` and `phase`. */
  ghost predicate Can(hash: Hash, job: Job, first: Directory, dir: Directory, phase: Phase) {
    exists turns, s :: Run(hash, [job], Start(first, 1), turns, s) && s.dir == dir && s.phases == [phase]
  }

  lemma CanStart(hash: Hash, job: Job, first: Directory)
    ensures Can(hash, job, first, first, Opening)
  {
    assert Run(hash, [job], Start(first, 1), [], Start(first, 1));
  }

  lemma Follow(hash: Hash, job: Job, first: Directory, dir: Directory, phase: Phase, c: Choice) returns (seen: nat)
    requires Can(hash, job, first, dir, phase)
    requires phase.Creating? && !c.fails ==> IsTemporaryName(c.name)
    ensures
      var m := Advance(hash, job, phase, dir, c, seen);
      Can(hash, job, first, m.dir, m.phase)
  {
    hide Advance, Run;
    var turns, s :| Run(hash, [job], Start(first, 1), turns, s) && s.dir == dir && s.phases == [phase];
    var t := Turn(0, c);
    assert phase.Creating? ==> Held(phase).None?;
    RunStep(hash, [job], Start(first, 1), turns, s, t);
    seen := |s.log|;
    var m := Advance(hash, job, phase, dir, c, seen);
    var s' := Step(hash, [job], s, t);
    assert s'.dir == m.dir && s'.phases == [m.phase];
  }

  ghost predicate SameBut(names: set<Name>, before: Directory, after: Directory) {
    forall n | n !in names :: Lookup(after, n) == Lookup(before, n)
  }

  datatype Creation = Created | AlreadyExists | Refused

  /** The parent directory handle. */
  class Parent {
    var nodes: Directory

    constructor (entries: Directory)
      ensures nodes == entries
    {
      nodes := entries;
    }

    method Observe(hash: Hash, leaf: Name)
      returns (r: Result<Option<Observation>, CommitFailure>, ghost fails: bool)
      ensures r == if fails then Failure(InspectTarget) else Inspect(hash, Lookup(nodes, leaf))
    {
      var f: bool := *;
      fails := f;
      r := if f then Failure(InspectTarget) else Inspect(hash, Lookup(nodes, leaf));
    }

    method CreateNew(name: Name) returns (r: Creation)
      modifies this
      ensures r.AlreadyExists? ==> name in nodes
      ensures r.Created? ==> name !in old(nodes) && nodes == old(nodes)[name := Regular([], DEFAULT_PERMISSIONS)]
      ensures !r.Created? ==> nodes == old(nodes)
    {
      var f: bool := *;
      if f {
        r := Refused;
      } else if name in nodes {
        r := AlreadyExists;
      } else {
        nodes := nodes[name := Regular([], DEFAULT_PERMISSIONS)];
        r := Created;
      }
    }

    method SetPermissions(name: Name, permissions: nat) returns (ok: bool)
      requires name in nodes && nodes[name].Regular?
      modifies this
      ensures nodes == if ok then old(nodes)[name := old(nodes)[name].(permissions := permissions)] else old(nodes)
    {
      ok := *;
      if ok {
        nodes := nodes[name := nodes[name].(permissions := permissions)];
      }
    }

    /** One `write`: it takes a non-empty part of what is offered, or fails. */
    method Write(name: Name, offered: Bytes) returns (ok: bool, count: nat)
      requires name in nodes && nodes[name].Regular? && offered != []
      modifies this
      ensures 1 <= count <= |offered|
      ensures ok ==>
        nodes == old(nodes)[name := old(nodes)[name].(content := old(nodes)[name].content + offered[..count])]
      ensures !ok ==> nodes == old(nodes)
    {
      ok := *;
      count :| 1 <= count <= |offered|;
      if ok {
        nodes := nodes[name := nodes[name].(content := nodes[name].content + offered[..count])];
      }
    }

    method RemoveFile(name: Name) returns (ok: bool)
      modifies this
      ensures nodes == if ok then old(nodes) - {name} else old(nodes)
    {
      ok := *;
      if ok {
        nodes := nodes - {name};
      }
    }

    /** `rename` is atomic; when it reports failure it may have happened or not. */
    method RenameTo(from: Name, to: Name) returns (ok: bool, ghost effect: bool)
      requires from in nodes
      modifies this
      ensures nodes == if ok || effect then Rename(old(nodes), from, to) else old(nodes)
    {
      ok := *;
      var e: bool := *;
      effect := e;
      if ok || e {
        nodes := Rename(nodes, from, to);
      }
    }
  }

  /** Any system call whose only report is success or failure. */
  method Attempt() returns (ok: bool) {
    ok := *;
  }

  method RandomName() returns (r: Option<Name>)
    ensures r.Some? ==> IsTemporaryName(r.value)
  {
    var ok: bool := *;
    var middle: Bytes := seq(32, _ => 0x30);
    var name := Ascii(".xgeny-write-") + middle + Ascii(".tmp");
    r := if ok then Some(name) else None;
  }

  function Call(ok: bool): Choice {
    Choice(!ok, [], 0, false)
  }

  method CreateFresh(parent: Parent, hash: Hash, ghost job: Job, ghost first: Directory, initial: Option<Observation>)
    returns (r: Result<Name, CommitFailure>)
    requires Can(hash, job, first, parent.nodes, Creating(initial, 0))
    modifies parent
    ensures r.Failure? ==>
      && r.error == CreateTemporary && parent.nodes == old(parent.nodes)
      && Can(hash, job, first, parent.nodes, Done(Failure(CreateTemporary)))
    ensures r.Success? ==>
      && r.value !in old(parent.nodes) && IsTemporaryName(r.value)
      && parent.nodes == old(parent.nodes)[r.value := Regular([], DEFAULT_PERMISSIONS)]
      && Can(hash, job, first, parent.nodes,
             if initial.Some? then Permitting(initial, r.value) else Writing(initial, r.value))
  {
    hide Can, IsTemporaryName;
    for attempt := 0 to TEMP_CREATE_ATTEMPTS
      invariant parent.nodes == old(parent.nodes)
      invariant attempt < TEMP_CREATE_ATTEMPTS ==> Can(hash, job, first, parent.nodes, Creating(initial, attempt))
      invariant attempt == TEMP_CREATE_ATTEMPTS ==>
        Can(hash, job, first, parent.nodes, Done(Failure(CreateTemporary)))
    {
      var name := RandomName();
      var created := Refused;
      if name.Some? {
        created := parent.CreateNew(name.value);
      }
      ghost var c := Choice(name.None? || created.Refused?, if name.Some? then name.value else [], 0, false);
      ghost var seen := Follow(hash, job, first, old(parent.nodes), Creating(initial, attempt), c);
      if created.Created? {
        return Success(name.value);
      }
      if created.Refused? {
        return Failure(CreateTemporary);
      }
    }
    return Failure(CreateTemporary);
  }

  /** `write_all` followed by `sync_all`. */
  method FillTemporary(parent: Parent, hash: Hash, job: Job, ghost first: Directory, ghost initial: Option<Observation>, temp: Name)
    returns (ok: bool)
    requires Can(hash, job, first, parent.nodes, Writing(initial, temp))
    requires temp in parent.nodes && parent.nodes[temp].Regular? && parent.nodes[temp].content == []
    modifies parent
    ensures temp in parent.nodes && parent.nodes[temp].Regular?
    ensures ok ==> parent.nodes[temp].content == job.content
    ensures parent.nodes[temp].permissions == old(parent.nodes)[temp].permissions
    ensures SameBut({temp}, old(parent.nodes), parent.nodes)
    ensures Can(hash, job, first, parent.nodes,
      if ok then Reinspecting(initial, temp) else Removing(temp, Failure(WriteTemporary)))
  {
    hide Can;
    var written := 0;
    while written < |job.content|
      invariant written <= |job.content|
      invariant Can(hash, job, first, parent.nodes, Writing(initial, temp))
      invariant temp in parent.nodes && parent.nodes[temp].Regular?
      invariant parent.nodes[temp].content == job.content[..written]
      invariant parent.nodes[temp].permissions == old(parent.nodes)[temp].permissions
      invariant SameBut({temp}, old(parent.nodes), parent.nodes)
    {
      ghost var before := parent.nodes;
      var took, count := parent.Write(temp, job.content[written..]);
      ghost var c := Choice(!took, [], count - 1, false);
      ghost var seen := Follow(hash, job, first, before, Writing(initial, temp), c);
      if !took {
        return false;
      }
      assert job.content[..written] + job.content[written..][..count] == job.content[..written + count];
      written := written + count;
    }
    ok := Attempt();
    ghost var seen := Follow(hash, job, first, parent.nodes, Writing(initial, temp), Call(ok));
  }

  /** `let _ = parent.remove_file(..)`, then report. */
  method Discard(parent: Parent, hash: Hash, ghost job: Job, ghost first: Directory, temp: Name, outcome: Outcome)
    requires Can(hash, job, first, parent.nodes, Removing(temp, outcome))
    modifies parent
    ensures Can(hash, job, first, parent.nodes, Done(outcome))
    ensures SameBut({temp}, old(parent.nodes), parent.nodes)
  {
    ghost var before := parent.nodes;
    var removed := parent.RemoveFile(temp);
    ghost var seen := Follow(hash, job, first, before, Removing(temp, outcome), Call(removed));
  }

  /** How the second half may end when the target did not change since the first look: not in a conflict
      and not in `Ok(false)`, and the target is what it was or the temporary. */
  ghost predicate Concluded(leaf: Name, temp: Name, before: Directory, after: Directory, r: Outcome)
    requires temp in before
  {
    match r
    case Success(changed) => changed && Lookup(after, leaf) == Some(before[temp])
    case Failure(e) =>
      match e
      case InspectTarget => Lookup(after, leaf) == Lookup(before, leaf)
      case CommitRenameUnknown => Lookup(after, leaf) == Lookup(before, leaf) || Lookup(after, leaf) == Some(before[temp])
      case CommitSyncUnknown => Lookup(after, leaf) == Some(before[temp])
      case CommitVerifyUnknown => Lookup(after, leaf) == Some(before[temp])
      case _ => false
  }

  /** The second look, the rename and the final check. */
  method CommitTemporary(parent: Parent, hash: Hash, job: Job, ghost first: Directory, initial: Option<Observation>, temp: Name)
    returns (r: Outcome)
    requires Can(hash, job, first, parent.nodes, Reinspecting(initial, temp)) && temp in parent.nodes
    modifies parent
    ensures Can(hash, job, first, parent.nodes, Done(r))
    ensures SameBut({temp, job.leaf}, old(parent.nodes), parent.nodes)
    ensures r == Success(true) ==> Already(hash, parent.nodes, job)
    ensures (Inspect(hash, Lookup(old(parent.nodes), job.leaf)) == Success(initial) && temp != job.leaf
             && !HasDigest(initial, hash(job.content))) ==>
      Concluded(job.leaf, temp, old(parent.nodes), parent.nodes, r)
  {
    var current, failed := parent.Observe(hash, job.leaf);
    ghost var seen := Follow(hash, job, first, parent.nodes, Reinspecting(initial, temp), Call(!failed));
    if current.Failure? {
      Discard(parent, hash, job, first, temp, Failure(current.error));
      return Failure(current.error);
    }
    if HasDigest(current.value, hash(job.content)) {
      Discard(parent, hash, job, first, temp, Success(false));
      return Success(false);
    }
    if current.value != initial {
      Discard(parent, hash, job, first, temp, Failure(Conflict));
      return Failure(Conflict);
    }
    ghost var before := parent.nodes;
    var renamed, effect := parent.RenameTo(temp, job.leaf);
    ghost var seen' := Follow(hash, job, first, before, Renaming(initial, temp, seen), Choice(!renamed, [], 0, effect));
    if !renamed {
      Discard(parent, hash, job, first, temp, Failure(CommitRenameUnknown));
      return Failure(CommitRenameUnknown);
    }
    r := ConfirmCommit(parent, hash, job, first);
  }

  method ConfirmCommit(parent: Parent, hash: Hash, job: Job, ghost first: Directory) returns (r: Outcome)
    requires Can(hash, job, first, parent.nodes, Syncing)
    ensures Can(hash, job, first, parent.nodes, Done(r))
    ensures r == Success(true) || r == Failure(CommitSyncUnknown) || r == Failure(CommitVerifyUnknown)
    ensures r == Success(true) ==> Already(hash, parent.nodes, job)
  {
    var synced := Attempt();
    ghost var seen := Follow(hash, job, first, parent.nodes, Syncing, Call(synced));
    if !synced {
      return Failure(CommitSyncUnknown);
    }
    var committed, failed := parent.Observe(hash, job.leaf);
    seen := Follow(hash, job, first, parent.nodes, Verifying, Call(!failed));
    if committed.Failure? || !HasDigest(committed.value, hash(job.content)) {
      return Failure(CommitVerifyUnknown);
    }
    InspectMeans(hash, parent.nodes, job);
    return Success(true);
  }

  /** What each report means, in the directory before and after: `Ok(false)` exactly says that the target
      already was as desired; a conflict, that it was neither that nor as expected; everything from the
      creation of the temporary on, that it was as expected. The new target has the desired content
      and the permissions of the old one. */
  ghost predicate Reported(hash: Hash, job: Job, before: Directory, after: Directory, r: Outcome) {
    var was, now := Lookup(before, job.leaf), Lookup(after, job.leaf);
    var expected := Expects(hash, before, job) && !Already(hash, before, job);
    var replaced := now == Some(Regular(job.content, if job.leaf in before && before[job.leaf].Regular? then
                                                       before[job.leaf].permissions else DEFAULT_PERMISSIONS));
    match r
    case Success(changed) =>
      if changed then expected && replaced && Already(hash, after, job) else Already(hash, before, job) && now == was
    case Failure(e) =>
      match e
      case OpenParent => now == was
      case InspectTarget => now == was
      case Conflict =>
        CanInspect(before, job.leaf) && !Expects(hash, before, job) && !Already(hash, before, job) && now == was
      case CreateTemporary => expected && now == was
      case WriteTemporary => expected && now == was
      case CommitRenameUnknown => expected && (now == was || replaced)
      case CommitSyncUnknown => expected && replaced
      case CommitVerifyUnknown => expected && replaced
  }

  /** Without other writers: a run of the machine, and a report that means what it says. */
  method CommitAtomic(parent: Parent, hash: Hash, job: Job) returns (r: Outcome)
    requires !IsTemporaryName(job.leaf)
    modifies parent
    ensures Can(hash, job, old(parent.nodes), parent.nodes, Done(r))
    ensures Reported(hash, job, old(parent.nodes), parent.nodes, r)
    ensures forall n | !IsTemporaryName(n) && n != job.leaf :: Lookup(parent.nodes, n) == Lookup(old(parent.nodes), n)
  {
    hide Can, IsTemporaryName;
    ghost var first := parent.nodes;
    CanStart(hash, job, first);
    InspectMeans(hash, first, job);
    hide Inspect, MeetsPrecondition, HasDigest, Expects, Already;
    var isOpen := Attempt();
    ghost var seen := Follow(hash, job, first, parent.nodes, Opening, Call(isOpen));
    if !isOpen {
      return Failure(OpenParent);
    }
    var initial, failed := parent.Observe(hash, job.leaf);
    seen := Follow(hash, job, first, parent.nodes, Inspecting, Call(!failed));
    if initial.Failure? {
      return Failure(initial.error);
    }
    if HasDigest(initial.value, hash(job.content)) {
      return Success(false);
    }
    if !MeetsPrecondition(initial.value, job.expected) {
      return Failure(Conflict);
    }
    var temp := CreateFresh(parent, hash, job, first, initial.value);
    if temp.Failure? {
      return Failure(temp.error);
    }
    if initial.value.Some? {
      ghost var before := parent.nodes;
      var ok := parent.SetPermissions(temp.value, initial.value.value.permissions);
      seen := Follow(hash, job, first, before, Permitting(initial.value, temp.value), Call(ok));
      if !ok {
        return Failure(WriteTemporary);
      }
    }
    var filled := FillTemporary(parent, hash, job, first, initial.value, temp.value);
    if !filled {
      Discard(parent, hash, job, first, temp.value, Failure(WriteTemporary));
      return Failure(WriteTemporary);
    }
    r := CommitTemporary(parent, hash, job, first, initial.value, temp.value);
  }
}
