/** The commit protocol of atomic_commit.rs as a step machine: any number of committers in one
    directory, any interleaving, any I/O failure, and a stop after any step. */
module AtomicCommit {
  import opened Limits
  import opened Wrappers
  import opened Utf8

  const TEMP_CREATE_ATTEMPTS: nat := 8
  const DEFAULT_PERMISSIONS: nat := 0

  type Name = Bytes
  type Digest = Bytes
  type Hash = Bytes -> Digest

  /** A directory entry; `Special` is whatever `inspect_target` refuses (a link, a directory, ...). */
  datatype Node = Regular(content: Bytes, permissions: nat) | Special
  type Directory = map<Name, Node>

  ghost predicate Injective(hash: Hash) {
    forall a, b :: hash(a) == hash(b) ==> a == b
  }

  /** `.xgeny-write-<32 characters>.tmp` */
  predicate IsTemporaryName(n: Name) {
    |n| == 49 && n[..13] == Ascii(".xgeny-write-") && n[45..] == Ascii(".tmp")
  }

  datatype CommitFailure =
    | OpenParent
    | InspectTarget
    | Conflict
    | CreateTemporary
    | WriteTemporary
    | CommitRenameUnknown
    | CommitSyncUnknown
    | CommitVerifyUnknown
  {
    predicate OutcomeIsUnknown() {
      CommitRenameUnknown? || CommitSyncUnknown? || CommitVerifyUnknown?
    }
  }

  type Outcome = Result<bool, CommitFailure>
  datatype Observation = Observation(digest: Digest, permissions: nat)
  datatype Job = Job(leaf: Name, content: Bytes, expected: Option<Digest>)

  function Lookup(dir: Directory, name: Name): Option<Node> {
    if name in dir then Some(dir[name]) else None
  }

  /** What `inspect_target` reports when no system call fails. */
  function Inspect(hash: Hash, node: Option<Node>): Result<Option<Observation>, CommitFailure> {
    match node
    case None => Success(None)
    case Some(Special) => Failure(InspectTarget)
    case Some(Regular(content, permissions)) =>
      if |content| > MAX_ATOMIC_TEXT_BYTES then Failure(InspectTarget)
      else Success(Some(Observation(hash(content), permissions)))
  }

  predicate HasDigest(o: Option<Observation>, d: Digest) {
    o.Some? && o.value.digest == d
  }

  /** `verify_precondition` */
  predicate MeetsPrecondition(o: Option<Observation>, expected: Option<Digest>) {
    (o.None? && expected.None?) || (o.Some? && expected.Some? && o.value.digest == expected.value)
  }

  // ---- the same in terms of the directory ----

  /** There is no target, or a file of bounded size. */
  predicate CanInspect(dir: Directory, leaf: Name) {
    leaf in dir ==> dir[leaf].Regular? && |dir[leaf].content| <= MAX_ATOMIC_TEXT_BYTES
  }

  predicate HasContent(hash: Hash, dir: Directory, leaf: Name, d: Digest) {
    && leaf in dir && dir[leaf].Regular? && |dir[leaf].content| <= MAX_ATOMIC_TEXT_BYTES
    && hash(dir[leaf].content) == d
  }

  /** The target is as the job expects it: absent, or a file whose content has the expected digest. */
  predicate Expects(hash: Hash, dir: Directory, job: Job) {
    match job.expected
    case None => job.leaf !in dir
    case Some(d) => HasContent(hash, dir, job.leaf, d)
  }

  /** The target already is as desired. */
  predicate Already(hash: Hash, dir: Directory, job: Job) {
    HasContent(hash, dir, job.leaf, hash(job.content))
  }

  /** What an observation, and the two tests on it, say of the directory. */
  lemma InspectMeans(hash: Hash, dir: Directory, job: Job)
    ensures
      var r := Inspect(hash, Lookup(dir, job.leaf));
      && (r.Success? <==> CanInspect(dir, job.leaf)) && (r.Failure? ==> r.error == InspectTarget)
      && (r == Success(None) <==> job.leaf !in dir)
      && (r.Success? && r.value.Some? ==>
            r.value.value == Observation(hash(dir[job.leaf].content), dir[job.leaf].permissions))
      && (r.Success? ==>
            && (MeetsPrecondition(r.value, job.expected) <==> Expects(hash, dir, job))
            && (HasDigest(r.value, hash(job.content)) <==> Already(hash, dir, job)))
  {
  }

  /** Where one committer stands. `seen` counts the renames that happened before its last look. */
  datatype Phase =
    | Opening
    | Inspecting
    | Creating(initial: Option<Observation>, attempts: nat)
    | Permitting(initial: Option<Observation>, temp: Name)
    | Writing(initial: Option<Observation>, temp: Name)
    | Reinspecting(initial: Option<Observation>, temp: Name)
    | Renaming(initial: Option<Observation>, temp: Name, seen: nat)
    | Removing(temp: Name, outcome: Outcome)
    | Syncing
    | Verifying
    | Done(outcome: Outcome)

  /** What the environment decides at a step: whether the system call fails, the random name, how
      many bytes a write takes, and whether a rename that reports failure happened all the same. */
  datatype Choice = Choice(fails: bool, name: Name, count: nat, effect: bool)

  datatype Commit = Commit(who: nat, permissions: nat)
  datatype State = State(dir: Directory, phases: seq<Phase>, log: seq<Commit>)

  /** The result of one step of one committer. */
  datatype Move = Move(phase: Phase, dir: Directory, renamed: bool)

  function Rename(dir: Directory, from: Name, to: Name): Directory
    requires from in dir
  {
    (dir - {from})[to := dir[from]]
  }

  /** One system call of `commit_atomic`, in source order. */
  function Advance(hash: Hash, job: Job, phase: Phase, dir: Directory, c: Choice, seen: nat): Move {
    var observed := Inspect(hash, Lookup(dir, job.leaf));
    var desired := hash(job.content);
    match phase
    case Opening =>
      Move(if c.fails then Done(Failure(OpenParent)) else Inspecting, dir, false)
    case Inspecting =>
      if c.fails || observed.Failure? then Move(Done(Failure(InspectTarget)), dir, false)
      else if HasDigest(observed.value, desired) then Move(Done(Success(false)), dir, false)
      else if !MeetsPrecondition(observed.value, job.expected) then Move(Done(Failure(Conflict)), dir, false)
      else Move(Creating(observed.value, 0), dir, false)
    case Creating(initial, attempts) =>
      if c.fails then Move(Done(Failure(CreateTemporary)), dir, false)
      else if c.name in dir then
        if attempts + 1 >= TEMP_CREATE_ATTEMPTS then Move(Done(Failure(CreateTemporary)), dir, false)
        else Move(Creating(initial, attempts + 1), dir, false)
      else
        Move(if initial.Some? then Permitting(initial, c.name) else Writing(initial, c.name),
             dir[c.name := Regular([], DEFAULT_PERMISSIONS)], false)
    case Permitting(initial, temp) =>
      // set_permissions fails: the temporary stays behind
      if c.fails || initial.None? || temp !in dir || dir[temp].Special? then
        Move(Done(Failure(WriteTemporary)), dir, false)
      else
        Move(Writing(initial, temp), dir[temp := dir[temp].(permissions := initial.value.permissions)], false)
    case Writing(initial, temp) =>
      if c.fails || temp !in dir || dir[temp].Special? then Move(Removing(temp, Failure(WriteTemporary)), dir, false)
      else if |dir[temp].content| >= |job.content| then Move(Reinspecting(initial, temp), dir, false)
      else
        var written := |dir[temp].content| + 1 + c.count;
        var content := if written <= |job.content| then job.content[..written] else job.content;
        Move(phase, dir[temp := dir[temp].(content := content)], false)
    case Reinspecting(initial, temp) =>
      if c.fails || observed.Failure? then Move(Removing(temp, Failure(InspectTarget)), dir, false)
      else if HasDigest(observed.value, desired) then Move(Removing(temp, Success(false)), dir, false)
      else if observed.value != initial then Move(Removing(temp, Failure(Conflict)), dir, false)
      else Move(Renaming(initial, temp, seen), dir, false)
    case Renaming(_, temp, _) =>
      if temp !in dir then Move(Removing(temp, Failure(CommitRenameUnknown)), dir, false)
      else if !c.fails then Move(Syncing, Rename(dir, temp, job.leaf), true)
      else if c.effect then
        Move(Removing(temp, Failure(CommitRenameUnknown)), Rename(dir, temp, job.leaf), true)
      else Move(Removing(temp, Failure(CommitRenameUnknown)), dir, false)
    case Removing(temp, outcome) =>
      Move(Done(outcome), if c.fails then dir else dir - {temp}, false)
    case Syncing =>
      Move(if c.fails then Done(Failure(CommitSyncUnknown)) else Verifying, dir, false)
    case Verifying =>
      if c.fails || observed.Failure? || !HasDigest(observed.value, desired) then
        Move(Done(Failure(CommitVerifyUnknown)), dir, false)
      else Move(Done(Success(true)), dir, false)
    case Done(_) =>
      Move(phase, dir, false)
  }

  /** The temporary a running committer still means to use or remove. */
  function Held(phase: Phase): Option<Name> {
    if phase.Permitting? || phase.Writing? || phase.Reinspecting? || phase.Renaming? || phase.Removing?
    then Some(phase.temp) else None
  }

  // ---- all committers together ----

  datatype Turn = Turn(who: nat, choice: Choice)

  function Start(dir: Directory, n: nat): State {
    State(dir, seq(n, _ => Opening), [])
  }

  function Step(hash: Hash, jobs: seq<Job>, s: State, t: Turn): State
    requires |s.phases| == |jobs| && t.who < |jobs|
  {
    var m := Advance(hash, jobs[t.who], s.phases[t.who], s.dir, t.choice, |s.log|);
    State(m.dir, s.phases[t.who := m.phase],
          if m.renamed then s.log + [Commit(t.who, PermissionsAt(s.dir, Held(s.phases[t.who])))] else s.log)
  }

  function PermissionsAt(dir: Directory, temp: Option<Name>): nat {
    if temp.Some? && temp.value in dir && dir[temp.value].Regular? then dir[temp.value].permissions
    else DEFAULT_PERMISSIONS
  }

  /** A turn the environment may take: random names have the temporary form. One that exists is tried
      again with another; one that does not is not the name that another running committer, whose
      temporary has just been renamed or lost, is still about to remove. */
  ghost predicate Allowed(jobs: seq<Job>, s: State, t: Turn) {
    && |s.phases| == |jobs| && t.who < |jobs|
    && (s.phases[t.who].Creating? && !t.choice.fails ==>
          && IsTemporaryName(t.choice.name)
          && (t.choice.name !in s.dir ==> forall j | 0 <= j < |jobs| :: Held(s.phases[j]) != Some(t.choice.name)))
  }

  ghost predicate Stepped(hash: Hash, jobs: seq<Job>, s: State, t: Turn, s': State) {
    Allowed(jobs, s, t) && s' == Step(hash, jobs, s, t)
  }

  /** `turns` leads from `first` to `last`. */
  ghost predicate Run(hash: Hash, jobs: seq<Job>, first: State, turns: seq<Turn>, last: State)
    decreases |turns|
  {
    if turns == [] then first == last
    else
      var t, before := turns[|turns| - 1], turns[..|turns| - 1];
      exists s :: Run(hash, jobs, first, before, s) && Stepped(hash, jobs, s, t, last)
  }

  // ---- the invariant ----

  /** The directory after the logged renames, one whole content at a time. */
  function Replay(jobs: seq<Job>, dir: Directory, log: seq<Commit>): Directory
    requires forall c | c in log :: c.who < |jobs|
  {
    if log == [] then dir
    else
      var c := log[|log| - 1];
      Replay(jobs, dir, log[..|log| - 1])[jobs[c.who].leaf := Regular(jobs[c.who].content, c.permissions)]
  }

  ghost predicate LogNames(jobs: seq<Job>, log: seq<Commit>) {
    forall c | c in log :: c.who < |jobs|
  }

  /** Names that are not temporaries hold what the log says: nothing else ever touches them. */
  ghost predicate LeavesFollowLog(jobs: seq<Job>, first: Directory, s: State) {
    && LogNames(jobs, s.log)
    && forall n | !IsTemporaryName(n) :: Lookup(s.dir, n) == Lookup(Replay(jobs, first, s.log), n)
  }

  ghost predicate IsPrefix(a: Bytes, b: Bytes) {
    |a| <= |b| && a == b[..|a|]
  }

  /** What a committer can rely on for the temporary it holds. */
  ghost predicate TempOk(job: Job, phase: Phase, dir: Directory) {
    && (Held(phase).Some? ==> IsTemporaryName(phase.temp))
    && (phase.Permitting? || phase.Writing? || phase.Reinspecting? || phase.Renaming? ==>
          && phase.temp in dir && dir[phase.temp].Regular?
          && IsPrefix(dir[phase.temp].content, job.content)
          && (phase.Permitting? ==> phase.initial.Some?)
          && (!phase.Permitting? && phase.initial.Some? ==>
                dir[phase.temp].permissions == phase.initial.value.permissions))
    && (phase.Reinspecting? || phase.Renaming? ==> dir[phase.temp].content == job.content)
  }

  ghost predicate TempsOk(jobs: seq<Job>, s: State) {
    |s.phases| == |jobs| && forall i | 0 <= i < |jobs| :: TempOk(jobs[i], s.phases[i], s.dir)
  }

  ghost predicate TempsApart(s: State) {
    forall i, j | 0 <= i < j < |s.phases| && Held(s.phases[i]).Some? ::
      Held(s.phases[i]) != Held(s.phases[j])
  }

  predicate InLog(log: seq<Commit>, i: nat) {
    exists k | 0 <= k < |log| :: log[k].who == i
  }

  predicate MustHaveRenamed(p: Phase) {
    || p.Syncing? || p.Verifying? || p == Done(Success(true))
    || p == Done(Failure(CommitSyncUnknown)) || p == Done(Failure(CommitVerifyUnknown))
  }

  predicate MayHaveRenamed(p: Phase) {
    || MustHaveRenamed(p)
    || ((p.Removing? || p.Done?) && p.outcome == Failure(CommitRenameUnknown))
  }

  /** Each committer renames at most once, and what it reports agrees with whether it did. */
  ghost predicate LogHonest(s: State) {
    && (forall i, j | 0 <= i < j < |s.log| :: s.log[i].who != s.log[j].who)
    && forall i | 0 <= i < |s.phases| ::
         && (InLog(s.log, i) ==> MayHaveRenamed(s.phases[i]))
         && (MustHaveRenamed(s.phases[i]) ==> InLog(s.log, i))
         && RemovingOk(s.phases[i])
  }

  /** What a committer that removes its temporary is going to report. */
  predicate RemovingOk(p: Phase) {
    && (p.Removing? && p.outcome.Success? ==> p.outcome == Success(false))
    && (p.Removing? && p.outcome.Failure? ==>
          !p.outcome.error.CommitSyncUnknown? && !p.outcome.error.CommitVerifyUnknown?)
  }

  ghost predicate Inv(jobs: seq<Job>, first: Directory, s: State) {
    && TempsOk(jobs, s)
    && TempsApart(s)
    && LeavesFollowLog(jobs, first, s)
    && LogHonest(s)
  }

  ghost predicate LeavesAreNotTemporaries(jobs: seq<Job>) {
    forall i | 0 <= i < |jobs| :: !IsTemporaryName(jobs[i].leaf)
  }

  /** A step touches only the committer's own temporary and, when it renames, its leaf. */
  lemma AdvanceFrame(hash: Hash, job: Job, phase: Phase, dir: Directory, c: Choice, seen: nat, n: Name)
    requires Held(phase) != Some(n)
    requires phase.Creating? && !c.fails ==> c.name != n || n in dir
    ensures var m := Advance(hash, job, phase, dir, c, seen);
      Lookup(m.dir, n) == (if m.renamed && n == job.leaf then Some(dir[phase.temp]) else Lookup(dir, n))
  {
  }

  lemma AdvanceKeepsTempOk(hash: Hash, job: Job, phase: Phase, dir: Directory, c: Choice, seen: nat)
    requires TempOk(job, phase, dir)
    requires phase.Creating? && !c.fails ==> IsTemporaryName(c.name)
    ensures var m := Advance(hash, job, phase, dir, c, seen); TempOk(job, m.phase, m.dir)
  {
  }

  lemma AdvanceHeld(hash: Hash, job: Job, phase: Phase, dir: Directory, c: Choice, seen: nat)
    ensures var m := Advance(hash, job, phase, dir, c, seen);
      || Held(m.phase) == None
      || Held(m.phase) == Held(phase)
      || (phase.Creating? && !c.fails && c.name !in dir && Held(m.phase) == Some(c.name))
  {
  }

  lemma StepKeepsTemps(hash: Hash, jobs: seq<Job>, s: State, t: Turn)
    requires LeavesAreNotTemporaries(jobs)
    requires TempsOk(jobs, s) && TempsApart(s) && Allowed(jobs, s, t)
    ensures TempsOk(jobs, Step(hash, jobs, s, t)) && TempsApart(Step(hash, jobs, s, t))
  {
    var s', i, p := Step(hash, jobs, s, t), t.who, s.phases[t.who];
    assert TempOk(jobs[i], p, s.dir);
    AdvanceKeepsTempOk(hash, jobs[i], p, s.dir, t.choice, |s.log|);
    AdvanceHeld(hash, jobs[i], p, s.dir, t.choice, |s.log|);
    forall j | 0 <= j < |jobs|
      ensures TempOk(jobs[j], s'.phases[j], s'.dir)
      ensures j != i && Held(s'.phases[i]).Some? ==> Held(s'.phases[i]) != Held(s'.phases[j])
    {
      if j != i {
        assert TempOk(jobs[j], s.phases[j], s.dir);
        if Held(s.phases[j]).Some? {
          assert Held(p) != Held(s.phases[j]);
          AdvanceFrame(hash, jobs[i], p, s.dir, t.choice, |s.log|, s.phases[j].temp);
        }
      }
    }
  }

  lemma ReplayAppend(jobs: seq<Job>, first: Directory, log: seq<Commit>, c: Commit)
    requires LogNames(jobs, log) && c.who < |jobs|
    ensures LogNames(jobs, log + [c])
    ensures Replay(jobs, first, log + [c]) ==
            Replay(jobs, first, log)[jobs[c.who].leaf := Regular(jobs[c.who].content, c.permissions)]
  {
    assert (log + [c])[..|log|] == log;
  }

  lemma StepKeepsLeaves(hash: Hash, jobs: seq<Job>, first: Directory, s: State, t: Turn)
    requires LeavesAreNotTemporaries(jobs)
    requires TempsOk(jobs, s) && LeavesFollowLog(jobs, first, s) && Allowed(jobs, s, t)
    ensures LeavesFollowLog(jobs, first, Step(hash, jobs, s, t))
  {
    var s', i, p := Step(hash, jobs, s, t), t.who, s.phases[t.who];
    assert TempOk(jobs[i], p, s.dir);
    var m := Advance(hash, jobs[i], p, s.dir, t.choice, |s.log|);
    if m.renamed {
      var c := Commit(i, PermissionsAt(s.dir, Held(p)));
      ReplayAppend(jobs, first, s.log, c);
      assert s.dir[p.temp] == Regular(jobs[i].content, c.permissions);
    }
    forall n | !IsTemporaryName(n)
      ensures Lookup(s'.dir, n) == Lookup(Replay(jobs, first, s'.log), n)
    {
      AdvanceFrame(hash, jobs[i], p, s.dir, t.choice, |s.log|, n);
    }
  }

  lemma InLogAppend(log: seq<Commit>, c: Commit)
    ensures forall i: nat :: InLog(log + [c], i) <==> InLog(log, i) || i == c.who
  {
    forall i: nat
      ensures InLog(log + [c], i) <==> InLog(log, i) || i == c.who
    {
      assert (log + [c])[|log|].who == c.who;
      if k :| 0 <= k < |log| && log[k].who == i {
        assert (log + [c])[k].who == i;
      }
    }
  }

  /** What a step says about renames. */
  lemma AdvanceReports(hash: Hash, job: Job, phase: Phase, dir: Directory, c: Choice, seen: nat)
    requires RemovingOk(phase)
    ensures
      var m := Advance(hash, job, phase, dir, c, seen);
      && (m.renamed ==> !MayHaveRenamed(phase) && MayHaveRenamed(m.phase))
      && (MayHaveRenamed(phase) ==> MayHaveRenamed(m.phase))
      && (MustHaveRenamed(m.phase) ==> m.renamed || MustHaveRenamed(phase))
      && RemovingOk(m.phase)
  {
    hide Inspect, HasDigest, MeetsPrecondition, Lookup;
  }

  lemma StepKeepsLogHonest(hash: Hash, jobs: seq<Job>, s: State, t: Turn)
    requires LogHonest(s) && Allowed(jobs, s, t)
    ensures LogHonest(Step(hash, jobs, s, t))
  {
    var i, p := t.who, s.phases[t.who];
    var m := Advance(hash, jobs[i], p, s.dir, t.choice, |s.log|);
    AdvanceReports(hash, jobs[i], p, s.dir, t.choice, |s.log|);
    hide Advance, MayHaveRenamed, MustHaveRenamed, RemovingOk, InLog;
    if m.renamed {
      var c := Commit(i, PermissionsAt(s.dir, Held(p)));
      InLogAppend(s.log, c);
      NotInLog(s.log, i);
    }
  }

  lemma NotInLog(log: seq<Commit>, i: nat)
    requires !InLog(log, i)
    ensures forall k | 0 <= k < |log| :: log[k].who != i
  {
  }

  lemma {:induction false} StepKeepsInv(hash: Hash, jobs: seq<Job>, first: Directory, s: State, t: Turn)
    requires LeavesAreNotTemporaries(jobs) && Inv(jobs, first, s) && Allowed(jobs, s, t)
    ensures Inv(jobs, first, Step(hash, jobs, s, t))
  {
    StepKeepsTemps(hash, jobs, s, t);
    StepKeepsLeaves(hash, jobs, first, s, t);
    StepKeepsLogHonest(hash, jobs, s, t);
  }

  lemma {:induction false} RunKeepsInv(hash: Hash, jobs: seq<Job>, first: Directory, turns: seq<Turn>, s: State)
    requires LeavesAreNotTemporaries(jobs) && Run(hash, jobs, Start(first, |jobs|), turns, s)
    ensures Inv(jobs, first, s)
    decreases |turns|
  {
    if turns != [] {
      var t := turns[|turns| - 1];
      var p :| Run(hash, jobs, Start(first, |jobs|), turns[..|turns| - 1], p) && Stepped(hash, jobs, p, t, s);
      RunKeepsInv(hash, jobs, first, turns[..|turns| - 1], p);
      StepKeepsInv(hash, jobs, first, p, t);
    }
  }

  // ---- what every run guarantees ----

  lemma {:induction false} ReplayIsWholeContent(jobs: seq<Job>, dir: Directory, log: seq<Commit>, n: Name)
    requires LogNames(jobs, log)
    ensures
      || (Lookup(Replay(jobs, dir, log), n) == Lookup(dir, n) && forall c | c in log :: jobs[c.who].leaf != n)
      || exists c | c in log :: jobs[c.who].leaf == n
           && Lookup(Replay(jobs, dir, log), n) == Some(Regular(jobs[c.who].content, c.permissions))
  {
    if log != [] {
      var c := log[|log| - 1];
      ReplayIsWholeContent(jobs, dir, log[..|log| - 1], n);
      assert c in log && log == log[..|log| - 1] + [c];
    }
  }

  /** Whatever the schedule and the failures, a target never shows a partial content: it is what it
      was, or the complete content of a committer of that target that did rename. */
  lemma TargetIsWholeContent(hash: Hash, jobs: seq<Job>, first: Directory, turns: seq<Turn>, s: State, n: Name)
    requires LeavesAreNotTemporaries(jobs) && Run(hash, jobs, Start(first, |jobs|), turns, s)
    requires !IsTemporaryName(n)
    ensures
      || Lookup(s.dir, n) == Lookup(first, n)
      || exists i, permissions | 0 <= i < |jobs| && jobs[i].leaf == n && InLog(s.log, i) ::
           Lookup(s.dir, n) == Some(Regular(jobs[i].content, permissions))
  {
    RunKeepsInv(hash, jobs, first, turns, s);
    ReplayIsWholeContent(jobs, first, s.log, n);
    if Lookup(s.dir, n) != Lookup(first, n) {
      var c :| c in s.log && jobs[c.who].leaf == n && Lookup(s.dir, n) == Some(Regular(jobs[c.who].content, c.permissions));
      assert InLog(s.log, c.who);
    }
  }

  /** `Ok(false)` and a failure whose outcome is known mean that no rename was performed; `Ok(true)`
      means that exactly one was. */
  lemma ReportIsHonest(hash: Hash, jobs: seq<Job>, first: Directory, turns: seq<Turn>, s: State, i: nat)
    requires LeavesAreNotTemporaries(jobs) && Run(hash, jobs, Start(first, |jobs|), turns, s)
    requires i < |jobs| && s.phases[i].Done?
    ensures s.phases[i].outcome == Success(false) ==> !InLog(s.log, i)
    ensures s.phases[i].outcome.Failure? && !s.phases[i].outcome.error.OutcomeIsUnknown() ==> !InLog(s.log, i)
    ensures s.phases[i].outcome == Success(true) ==> InLog(s.log, i)
    ensures forall k, l | 0 <= k < |s.log| && 0 <= l < |s.log| && s.log[k].who == i == s.log[l].who :: k == l
  {
    hide Run, TempOk, TempsApart, LeavesFollowLog;
    RunKeepsInv(hash, jobs, first, turns, s);
  }

  /** A temporary nobody holds any more is never touched again. */
  lemma {:induction false} OrphanPersists(
    hash: Hash, jobs: seq<Job>, s: State, turns: seq<Turn>, s': State, temp: Name)
    requires LeavesAreNotTemporaries(jobs) && TempsOk(jobs, s) && TempsApart(s)
    requires Run(hash, jobs, s, turns, s')
    requires IsTemporaryName(temp) && temp in s.dir && forall i | 0 <= i < |jobs| :: Held(s.phases[i]) != Some(temp)
    ensures TempsOk(jobs, s') && TempsApart(s')
    ensures Lookup(s'.dir, temp) == Lookup(s.dir, temp)
    ensures forall i | 0 <= i < |jobs| :: Held(s'.phases[i]) != Some(temp)
    decreases |turns|
  {
    if turns != [] {
      var t := turns[|turns| - 1];
      var p :| Run(hash, jobs, s, turns[..|turns| - 1], p) && Stepped(hash, jobs, p, t, s');
      OrphanPersists(hash, jobs, s, turns[..|turns| - 1], p, temp);
      StepKeepsTemps(hash, jobs, p, t);
      AdvanceFrame(hash, jobs[t.who], p.phases[t.who], p.dir, t.choice, |p.log|, temp);
      AdvanceHeld(hash, jobs[t.who], p.phases[t.who], p.dir, t.choice, |p.log|);
    }
  }

  /** A committer reports `Ok` only on seeing its own content: `Ok(true)` right after the last check,
      `Ok(false)` after one of its two looks. */
  lemma {:induction false} OkIsSeen(hash: Hash, jobs: seq<Job>, s: State, t: Turn)
    requires Allowed(jobs, s, t)
    ensures
      var p, q := s.phases[t.who], Step(hash, jobs, s, t).phases[t.who];
      && (q == Done(Success(true)) && p != q && !p.Removing? ==> p.Verifying? && Already(hash, s.dir, jobs[t.who]))
      && (q == Done(Success(false)) && p != q && !p.Removing? ==> p.Inspecting? && Already(hash, s.dir, jobs[t.who]))
      && (q.Removing? && q.outcome.Success? && !p.Removing? ==>
            p.Reinspecting? && q.outcome == Success(false) && Already(hash, s.dir, jobs[t.who]))
      && (q.Done? && p.Removing? ==> q.outcome == p.outcome)
  {
    InspectMeans(hash, s.dir, jobs[t.who]);
    hide Inspect, MeetsPrecondition, HasDigest, Lookup, IsTemporaryName, Already;
  }

  // ---- temporaries that stay behind ----

  ghost predicate HeldBySome(s: State, n: Name) {
    exists i :: 0 <= i < |s.phases| && Held(s.phases[i]) == Some(n)
  }

  /** In this turn a committer lets go of `n` without removing it: setting the permissions failed, or
      the removal did. */
  predicate Leaves(s: State, t: Turn, n: Name) {
    && t.who < |s.phases| && Held(s.phases[t.who]) == Some(n) && t.choice.fails
    && (s.phases[t.who].Permitting? || (s.phases[t.who].Removing? && n in s.dir))
  }

  lemma MoverLeaves(hash: Hash, job: Job, phase: Phase, dir: Directory, c: Choice, seen: nat, n: Name)
    requires TempOk(job, phase, dir) && n != job.leaf
    ensures
      var m := Advance(hash, job, phase, dir, c, seen);
      var leaves := Held(phase) == Some(n) && c.fails && (phase.Permitting? || (phase.Removing? && n in dir));
      && (n in dir && Held(phase) != Some(n) ==> n in m.dir && (Held(m.phase) == Some(n) ==> Held(phase) == Some(n)))
      && (n in dir && Held(phase) == Some(n) && Held(m.phase) != Some(n) ==> (n in m.dir <==> leaves))
      && (leaves ==> Held(m.phase) != Some(n) && n in m.dir)
      && (n !in dir && n in m.dir ==> Held(m.phase) == Some(n))
      && (n !in dir ==> !leaves)
  {
    hide Inspect, MeetsPrecondition, HasDigest, Lookup, IsTemporaryName;
  }

  lemma OthersKeep(hash: Hash, jobs: seq<Job>, s: State, t: Turn, n: Name)
    requires Allowed(jobs, s, t)
    ensures
      var s' := Step(hash, jobs, s, t);
      && (HeldBySome(s', n) ==> Held(s'.phases[t.who]) == Some(n) || HeldBySome(s, n))
      && (HeldBySome(s, n) ==> Held(s.phases[t.who]) == Some(n) || HeldBySome(s', n))
      && (Held(s'.phases[t.who]) == Some(n) ==> HeldBySome(s', n))
      && (Held(s.phases[t.who]) == Some(n) ==> HeldBySome(s, n))
  {
    hide Advance;
    var s' := Step(hash, jobs, s, t);
    assert forall i | 0 <= i < |jobs| && i != t.who :: s'.phases[i] == s.phases[i];
  }

  lemma HolderIsAlone(s: State, i: nat, n: Name)
    requires TempsApart(s) && i < |s.phases| && Held(s.phases[i]) == Some(n)
    ensures forall j | 0 <= j < |s.phases| && j != i :: Held(s.phases[j]) != Some(n)
  {
  }

  lemma StepLeaves(hash: Hash, jobs: seq<Job>, s: State, t: Turn, n: Name)
    requires LeavesAreNotTemporaries(jobs) && TempsOk(jobs, s) && TempsApart(s) && Allowed(jobs, s, t) && IsTemporaryName(n)
    ensures
      var s' := Step(hash, jobs, s, t);
      && (n in s.dir && !HeldBySome(s, n) ==> n in s'.dir && !HeldBySome(s', n) && !Leaves(s, t, n))
      && (n in s.dir && HeldBySome(s, n) ==>
            if HeldBySome(s', n) then !Leaves(s, t, n) else (n in s'.dir <==> Leaves(s, t, n)))
      && (n !in s.dir ==> !Leaves(s, t, n) && (n in s'.dir ==> HeldBySome(s', n)))
  {
    var i, p, s' := t.who, s.phases[t.who], Step(hash, jobs, s, t);
    assert TempOk(jobs[i], p, s.dir) && n != jobs[i].leaf;
    MoverLeaves(hash, jobs[i], p, s.dir, t.choice, |s.log|, n);
    AdvanceHeld(hash, jobs[i], p, s.dir, t.choice, |s.log|);
    OthersKeep(hash, jobs, s, t, n);
    if Held(p) == Some(n) {
      HolderIsAlone(s, i, n);
    }
    hide TempOk, TempsOk, TempsApart, Advance, IsTemporaryName;
    assert forall j | 0 <= j < |jobs| && j != i :: s'.phases[j] == s.phases[j];
  }

  lemma {:induction false} RunDeterministic(hash: Hash, jobs: seq<Job>, first: State, turns: seq<Turn>, s: State, s': State)
    requires Run(hash, jobs, first, turns, s) && Run(hash, jobs, first, turns, s')
    ensures s == s'
    decreases |turns|
  {
    hide Step, Allowed;
    if turns != [] {
      var t, before := turns[|turns| - 1], turns[..|turns| - 1];
      var p :| Run(hash, jobs, first, before, p) && Stepped(hash, jobs, p, t, s);
      var p' :| Run(hash, jobs, first, before, p') && Stepped(hash, jobs, p', t, s');
      RunDeterministic(hash, jobs, first, before, p, p');
    }
  }

  ghost predicate LeavesAt(hash: Hash, jobs: seq<Job>, first: State, turns: seq<Turn>, k: nat, n: Name)
    requires k < |turns|
  {
    var before, t := turns[..k], turns[k];
    exists s :: Run(hash, jobs, first, before, s) && Leaves(s, t, n)
  }

  /** Somewhere in the run a committer left `n` behind. */
  ghost predicate LeftBehind(hash: Hash, jobs: seq<Job>, first: State, turns: seq<Turn>, n: Name) {
    exists k | 0 <= k < |turns| :: LeavesAt(hash, jobs, first, turns, k, n)
  }

  lemma LeftBehindGrows(hash: Hash, jobs: seq<Job>, first: State, turns: seq<Turn>, s: State, n: Name)
    requires turns != [] && Run(hash, jobs, first, turns[..|turns| - 1], s)
    ensures LeftBehind(hash, jobs, first, turns, n) <==>
            LeftBehind(hash, jobs, first, turns[..|turns| - 1], n) || Leaves(s, turns[|turns| - 1], n)
  {
    hide Run, Leaves;
    var last, before := |turns| - 1, turns[..|turns| - 1];
    forall k | 0 <= k < last
      ensures LeavesAt(hash, jobs, first, turns, k, n) <==> LeavesAt(hash, jobs, first, before, k, n)
    {
      assert before[..k] == turns[..k] && before[k] == turns[k];
    }
    if LeavesAt(hash, jobs, first, turns, last, n) {
      var p :| Run(hash, jobs, first, turns[..last], p) && Leaves(p, turns[last], n);
      RunDeterministic(hash, jobs, first, turns[..last], p, s);
    }
    hide LeavesAt;
  }

  lemma {:induction false} OrphansExplained(hash: Hash, jobs: seq<Job>, first: Directory, turns: seq<Turn>, s: State, n: Name)
    requires LeavesAreNotTemporaries(jobs) && Run(hash, jobs, Start(first, |jobs|), turns, s)
    requires IsTemporaryName(n) && n !in first
    ensures LeftBehind(hash, jobs, Start(first, |jobs|), turns, n) ==> n in s.dir && !HeldBySome(s, n)
    ensures n in s.dir && !HeldBySome(s, n) ==> LeftBehind(hash, jobs, Start(first, |jobs|), turns, n)
    decreases |turns|
  {
    if turns != [] {
      var t, before, start := turns[|turns| - 1], turns[..|turns| - 1], Start(first, |jobs|);
      var p :| Run(hash, jobs, start, before, p) && Stepped(hash, jobs, p, t, s);
      OrphansExplained(hash, jobs, first, before, p, n);
      RunKeepsInv(hash, jobs, first, before, p);
      hide Run, Step, TempsOk, TempsApart, LeavesFollowLog, LogHonest, LeftBehind, HeldBySome, Leaves, Allowed;
      StepLeaves(hash, jobs, p, t, n);
      LeftBehindGrows(hash, jobs, start, turns, p, n);
    }
  }

  /** What is left when everybody is done, over every run: a temporary that was not there before is in
      the directory exactly when some committer failed to set its permissions or to remove it. */
  lemma {:induction false} LeftBehindIff(hash: Hash, jobs: seq<Job>, first: Directory, turns: seq<Turn>, s: State, n: Name)
    requires LeavesAreNotTemporaries(jobs) && Run(hash, jobs, Start(first, |jobs|), turns, s)
    requires IsTemporaryName(n) && n !in first && forall i | 0 <= i < |s.phases| :: s.phases[i].Done?
    ensures n in s.dir <==> LeftBehind(hash, jobs, Start(first, |jobs|), turns, n)
  {
    hide Run, LeftBehind, IsTemporaryName;
    OrphansExplained(hash, jobs, first, turns, s, n);
  }
}
