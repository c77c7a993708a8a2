/** Processes that lock, load, change and save the profile file: model_profile.rs, `load`, `try_lock`
    and `save`, with the discipline of the commands in main.rs. */
module ProfileProtocol {
  import opened Wrappers
  import opened Utf8
  import opened Profiles
  import opened ProfileStorage
  import opened Sorting

  type File = Option<Bytes>

  /** The provider's checks, the JSON codec and the hash. */
  datatype Env = Env(
    accepts: Provider, encode: StoredProfiles -> Bytes, decode: Bytes -> Option<StoredProfiles>, hash: Bytes -> Bytes)

  ghost predicate Lawful(env: Env) {
    && (forall s :: env.decode(env.encode(s)) == Some(s))
    && (forall a, b :: env.hash(a) == env.hash(b) ==> a == b)
  }

  function DigestOf(env: Env, file: File): Option<Bytes> {
    if file.Some? then Some(env.hash(file.value)) else None
  }

  /** `load`, when no call fails */
  ghost function Load(env: Env, file: File): Result<Snapshot, ProfileError> {
    if file.None? then Success(Snapshot(None, []))
    else if |file.value| > MAX_PROFILE_FILE_BYTES then Failure(InvalidProfileFile)
    else
      var stored := env.decode(file.value);
      if stored.None? then Failure(InvalidProfileFile) else IntoProfiles(env.accepts, stored.value)
  }

  /** The bytes that a command saves over `file`, or why it does not. */
  ghost function Next(env: Env, command: Command, file: File): Result<Bytes, ProfileError> {
    var loaded := Load(env, file);
    if loaded.Failure? then Failure(loaded.error)
    else
      var performed := PerformOn(env.accepts, command, loaded.value);
      if performed.Failure? then Failure(performed.error)
      else
        var bytes := env.encode(FromProfiles(performed.value));
        if |bytes| > MAX_PROFILE_FILE_BYTES then Failure(InvalidProfileFile) else Success(bytes)
  }

  // ---- one process, step by step ----

  /** `early` is `model setup`, which loads the collection before it takes the lock. */
  datatype Job = Job(command: Command, early: bool)

  datatype Stage = CheckingDesired | CheckingSource | WritingTemporary | Rechecking | Renaming

  /** Where a process ended: before `save`, at a stage of it (and whether that stage still took effect),
      at the sync, or at the last check. */
  datatype Point = BeforeSave | AtStage(stage: Stage, tookEffect: bool) | AtSync | AtVerify

  predicate TookEffect(p: Point) {
    p.AtSync? || p.AtVerify? || (p.AtStage? && p.tookEffect)
  }

  datatype Phase =
    | Starting
    | Prepared(early: Option<File>)
    | Locked(early: Option<File>, grant: nat)
    | Saving(source: File, desired: Bytes, grant: nat, stage: Stage)
    | Syncing(desired: Bytes, grant: nat)
    | Verifying(desired: Bytes, grant: nat)
    | Done(result: Result<(), ProfileError>, point: Point)
    | Crashed(saved: bool)

  /** What the environment does to a step. A rename that reports an error may have happened. */
  datatype Choice = Proceed | Fail | RenameFails(happened: bool) | Crash

  datatype Commit = Commit(who: nat, grant: nat)

  datatype State = State(file: File, lock: Option<nat>, phases: seq<Phase>, log: seq<Commit>, grants: nat)

  predicate Holding(p: Phase) {
    p.Locked? || p.Saving? || p.Syncing? || p.Verifying?
  }

  predicate Running(p: Phase) {
    !p.Done? && !p.Crashed?
  }

  /** What a step does: the next phase, the file, and whether the command took effect or the lock was taken. */
  datatype Outcome = Outcome(phase: Phase, file: File, commits: bool, locks: bool)

  function Stay(file: File, phase: Phase): Outcome {
    Outcome(phase, file, false, false)
  }

  function Stop(file: File, error: ProfileError, point: Point): Outcome {
    Stay(file, Done(Failure(error), point))
  }

  ghost function Advance(env: Env, job: Job, p: Phase, s: State, c: Choice): Outcome
    requires Running(p)
  {
    if c.Crash? then Stay(s.file, Crashed(p.Syncing? || p.Verifying?))
    else match p
      case Starting =>
        if !job.early then Stay(s.file, Prepared(None))
        else if c.Fail? then Stop(s.file, ProfileStoreUnavailable, BeforeSave)
        else if Load(env, s.file).Failure? then Stop(s.file, Load(env, s.file).error, BeforeSave)
        else Stay(s.file, Prepared(Some(s.file)))
      case Prepared(early) =>
        if c.Fail? then Stop(s.file, ProfileStoreUnavailable, BeforeSave)
        else if s.lock.Some? then Stop(s.file, ConcurrentModification, BeforeSave)
        else Outcome(Locked(early, s.grants + 1), s.file, false, true)
      case Locked(early, grant) =>
        if c.Fail? then Stop(s.file, ProfileStoreUnavailable, BeforeSave)
        else if Load(env, s.file).Failure? then Stop(s.file, Load(env, s.file).error, BeforeSave)
        else if early.Some? && DigestOf(env, early.value) != DigestOf(env, s.file) then
          Stop(s.file, ConcurrentModification, BeforeSave)
        else if Next(env, job.command, s.file).Failure? then Stop(s.file, Next(env, job.command, s.file).error, BeforeSave)
        else Stay(s.file, Saving(s.file, Next(env, job.command, s.file).value, grant, CheckingDesired))
      case Saving(source, desired, grant, stage) => Save(env, s.file, source, desired, grant, stage, c)
      case Syncing(desired, grant) =>
        if c.Fail? then Stop(s.file, ProfileCommitUnknown, AtSync) else Stay(s.file, Verifying(desired, grant))
      case Verifying(desired, grant) =>
        if c.Fail? then Stop(s.file, ProfileStoreUnavailable, AtVerify)
        else if DigestOf(env, s.file) != Some(env.hash(desired)) then Stop(s.file, ProfileCommitUnknown, AtVerify)
        else Stay(s.file, Done(Success(()), AtVerify))
  }

  /** `save` up to its rename. */
  ghost function Save(env: Env, file: File, source: File, desired: Bytes, grant: nat, stage: Stage, c: Choice): Outcome {
    if c.Fail? then Stop(file, ProfileStoreUnavailable, AtStage(stage, false))
    else match stage
      case CheckingDesired =>
        if DigestOf(env, file) == Some(env.hash(desired)) then Outcome(Done(Success(()), AtStage(stage, true)), file, true, false)
        else Stay(file, Saving(source, desired, grant, CheckingSource))
      case CheckingSource =>
        if DigestOf(env, file) != DigestOf(env, source) then Stop(file, ConcurrentModification, AtStage(stage, false))
        else Stay(file, Saving(source, desired, grant, WritingTemporary))
      case WritingTemporary => Stay(file, Saving(source, desired, grant, Rechecking))
      case Rechecking =>
        if DigestOf(env, file) != DigestOf(env, source) then Stop(file, ConcurrentModification, AtStage(stage, false))
        else Stay(file, Saving(source, desired, grant, Renaming))
      case Renaming =>
        if c.RenameFails? && !c.happened then Stop(file, ProfileCommitUnknown, AtStage(stage, false))
        else if c.RenameFails? then Outcome(Done(Failure(ProfileCommitUnknown), AtStage(stage, true)), Some(desired), true, false)
        else Outcome(Syncing(desired, grant), Some(desired), true, false)
  }

  datatype Turn = Turn(who: nat, choice: Choice)

  ghost predicate Allowed(jobs: seq<Job>, s: State, t: Turn) {
    |s.phases| == |jobs| && t.who < |jobs| && Running(s.phases[t.who])
  }

  /** The lock goes with its holder, however that ends. */
  ghost function Step(env: Env, jobs: seq<Job>, s: State, t: Turn): State
    requires Allowed(jobs, s, t)
  {
    var o := Advance(env, jobs[t.who], s.phases[t.who], s, t.choice);
    var grants := if o.locks then s.grants + 1 else s.grants;
    var lock :=
      if o.locks then Some(t.who)
      else if Holding(s.phases[t.who]) && !Holding(o.phase) then None
      else s.lock;
    State(o.file, lock, s.phases[t.who := o.phase], if o.commits then s.log + [Commit(t.who, grants)] else s.log, grants)
  }

  ghost function Start(jobs: seq<Job>, first: File): State {
    State(first, None, seq(|jobs|, _ => Starting), [], 0)
  }

  ghost predicate Run(env: Env, jobs: seq<Job>, first: File, turns: seq<Turn>, s: State)
    decreases |turns|
  {
    if turns == [] then s == Start(jobs, first)
    else
      var before, last := turns[..|turns| - 1], turns[|turns| - 1];
      exists p :: Run(env, jobs, first, before, p) && Stepped(env, jobs, p, last, s)
  }

  ghost predicate Stepped(env: Env, jobs: seq<Job>, p: State, t: Turn, s: State) {
    Allowed(jobs, p, t) && s == Step(env, jobs, p, t)
  }

  // ---- invariant ----

  ghost predicate LogNames(jobs: seq<Job>, log: seq<Commit>) {
    forall k | 0 <= k < |log| :: log[k].who < |jobs|
  }

  /** The file after the commands of the log, one after the other. */
  ghost function Replay(env: Env, jobs: seq<Job>, first: File, log: seq<Commit>): Result<File, ProfileError>
    requires LogNames(jobs, log)
  {
    if log == [] then Success(first)
    else
      var before := Replay(env, jobs, first, log[..|log| - 1]);
      if before.Failure? then before
      else
        var next := Next(env, jobs[log[|log| - 1].who].command, before.value);
        if next.Failure? then Failure(next.error) else Success(Some(next.value))
  }

  ghost predicate Logged(log: seq<Commit>, who: nat) {
    exists k :: 0 <= k < |log| && log[k].who == who
  }

  ghost predicate GrantsBelow(log: seq<Commit>, grant: nat) {
    forall k | 0 <= k < |log| :: log[k].grant < grant
  }

  /** Each process at most once, in the order in which the lock was granted. */
  ghost predicate InLockOrder(log: seq<Commit>) {
    forall k, l | 0 <= k < l < |log| :: log[k].grant < log[l].grant && log[k].who != log[l].who
  }

  /** A result that says nothing was changed: every error but the two whose meaning `EffectIff` gives. */
  predicate ChangedNothing(error: ProfileError) {
    !error.ProfileStoreUnavailable? && !error.ProfileCommitUnknown?
  }

  ghost predicate PhaseOk(env: Env, job: Job, i: nat, p: Phase, s: State) {
    match p
    case Starting => !Logged(s.log, i)
    case Prepared(_) => !Logged(s.log, i)
    case Locked(_, grant) => grant == s.grants && GrantsBelow(s.log, grant) && !Logged(s.log, i)
    case Saving(source, desired, grant, _) =>
      && source == s.file && Next(env, job.command, source) == Success(desired)
      && grant == s.grants && GrantsBelow(s.log, grant) && !Logged(s.log, i)
    case Syncing(desired, _) => s.file == Some(desired) && Logged(s.log, i)
    case Verifying(desired, _) => s.file == Some(desired) && Logged(s.log, i)
    case Done(result, point) => (Logged(s.log, i) <==> TookEffect(point)) && ReportOk(result, point)
    case Crashed(saved) => Logged(s.log, i) <==> saved
  }

  /** Which results come from where. */
  predicate ReportOk(result: Result<(), ProfileError>, point: Point) {
    match result
    case Success(_) => point == AtVerify || point == AtStage(CheckingDesired, true)
    case Failure(ProfileStoreUnavailable) => point.BeforeSave? || point.AtVerify? || (point.AtStage? && !point.tookEffect)
    case Failure(ProfileCommitUnknown) => point.AtSync? || (point.AtStage? && point.stage.Renaming?)
    case Failure(_) => point.BeforeSave?
  }

  ghost predicate LockOk(s: State) {
    forall i | 0 <= i < |s.phases| :: Holding(s.phases[i]) <==> s.lock == Some(i)
  }

  ghost predicate FileOk(env: Env, jobs: seq<Job>, first: File, s: State) {
    && LogNames(jobs, s.log) && Replay(env, jobs, first, s.log) == Success(s.file)
    && InLockOrder(s.log) && GrantsBelow(s.log, s.grants + 1)
  }

  ghost predicate PhasesOk(env: Env, jobs: seq<Job>, s: State)
    requires |s.phases| == |jobs|
  {
    forall i | 0 <= i < |jobs| :: PhaseOk(env, jobs[i], i, s.phases[i], s)
  }

  ghost predicate Inv(env: Env, jobs: seq<Job>, first: File, s: State) {
    && |s.phases| == |jobs| && LockOk(s) && FileOk(env, jobs, first, s) && PhasesOk(env, jobs, s)
  }

  /** What a step may do to the file and the log. */
  ghost predicate OutcomeOk(env: Env, job: Job, p: Phase, s: State, o: Outcome) {
    && (o.commits ==> p.Saving? && o.file == Some(p.desired))
    && (!o.commits ==> o.file == s.file)
    && (o.locks ==> s.lock.None? && !Holding(p) && o.phase.Locked? && o.phase.grant == s.grants + 1)
    && (!o.locks ==> (Holding(o.phase) ==> Holding(p)) && !(o.phase.Locked? && !p.Locked?))
    && (o.commits ==> o.phase.Syncing? || o.phase.Done?)
  }

  lemma AdvanceOutcome(env: Env, job: Job, p: Phase, s: State, c: Choice)
    requires Lawful(env) && Running(p)
    ensures OutcomeOk(env, job, p, s, Advance(env, job, p, s, c))
  {
    hide Load, Next;
  }

  lemma LoggedGrows(log: seq<Commit>, who: nat, grant: nat, i: nat)
    ensures Logged(log + [Commit(who, grant)], i) <==> Logged(log, i) || i == who
  {
    var t := log + [Commit(who, grant)];
    assert t[|log|] == Commit(who, grant);
    if Logged(log, i) {
      var k :| 0 <= k < |log| && log[k].who == i;
      assert t[k].who == i;
    }
  }

  lemma CommitReplays(
    env: Env, jobs: seq<Job>, first: File, file: File, log: seq<Commit>, commit: Commit, desired: Bytes)
    requires LogNames(jobs, log) && commit.who < |jobs| && Replay(env, jobs, first, log) == Success(file)
    requires Next(env, jobs[commit.who].command, file) == Success(desired)
    ensures LogNames(jobs, log + [commit]) && Replay(env, jobs, first, log + [commit]) == Success(Some(desired))
  {
    hide Next;
    assert (log + [commit])[..|log|] == log;
  }

  lemma CommitInOrder(log: seq<Commit>, commit: Commit)
    requires InLockOrder(log) && GrantsBelow(log, commit.grant) && !Logged(log, commit.who)
    ensures InLockOrder(log + [commit]) && GrantsBelow(log + [commit], commit.grant + 1)
  {
    NotLogged(log, commit.who);
    hide Logged;
  }

  lemma StepKeepsFile(env: Env, jobs: seq<Job>, first: File, s: State, t: Turn)
    requires Lawful(env) && Allowed(jobs, s, t)
    requires FileOk(env, jobs, first, s) && PhaseOk(env, jobs[t.who], t.who, s.phases[t.who], s)
    ensures FileOk(env, jobs, first, Step(env, jobs, s, t))
  {
    var p := s.phases[t.who];
    var o := Advance(env, jobs[t.who], p, s, t.choice);
    AdvanceOutcome(env, jobs[t.who], p, s, t.choice);
    hide Advance, Lawful, Next, Logged, Replay, InLockOrder, LogNames;
    if o.commits {
      CommitReplays(env, jobs, first, s.file, s.log, Commit(t.who, s.grants), p.desired);
      CommitInOrder(s.log, Commit(t.who, s.grants));
    }
  }

  lemma NotLogged(log: seq<Commit>, who: nat)
    requires !Logged(log, who)
    ensures forall k | 0 <= k < |log| :: log[k].who != who
  {
  }

  lemma StepKeepsLock(env: Env, jobs: seq<Job>, s: State, t: Turn)
    requires Lawful(env) && Allowed(jobs, s, t) && LockOk(s)
    ensures LockOk(Step(env, jobs, s, t))
  {
    AdvanceOutcome(env, jobs[t.who], s.phases[t.who], s, t.choice);
    hide Advance, Lawful;
  }

  /** Another process sees no difference: without the lock it looks at nothing, and with it nobody
      else changes anything. */
  lemma StepKeepsOther(env: Env, jobs: seq<Job>, s: State, t: Turn, i: nat)
    requires Lawful(env) && Allowed(jobs, s, t) && LockOk(s) && i < |jobs| && i != t.who
    requires PhaseOk(env, jobs[i], i, s.phases[i], s)
    ensures PhaseOk(env, jobs[i], i, s.phases[i], Step(env, jobs, s, t))
  {
    var p, s' := s.phases[t.who], Step(env, jobs, s, t);
    var o := Advance(env, jobs[t.who], p, s, t.choice);
    AdvanceOutcome(env, jobs[t.who], p, s, t.choice);
    hide Advance, Lawful, Next;
    assert Holding(s.phases[i]) ==> !o.commits && !o.locks && s'.log == s.log && s'.file == s.file;
    if o.commits {
      LoggedGrows(s.log, t.who, s.grants, i);
    }
  }

  lemma StepKeepsMover(env: Env, jobs: seq<Job>, first: File, s: State, t: Turn)
    requires Lawful(env) && Allowed(jobs, s, t) && FileOk(env, jobs, first, s)
    requires PhaseOk(env, jobs[t.who], t.who, s.phases[t.who], s)
    ensures
      var s' := Step(env, jobs, s, t);
      PhaseOk(env, jobs[t.who], t.who, s'.phases[t.who], s')
  {
    var p, i, job := s.phases[t.who], t.who, jobs[t.who];
    AdvanceOutcome(env, job, p, s, t.choice);
    LoggedGrows(s.log, i, s.grants, i);
    if p.Saving? {
      MoverSaves(env, job, i, p, s, t.choice);
    } else {
      MoverWaits(env, job, i, p, s, t.choice);
    }
    hide Logged, Load, Next, Advance, Lawful, Replay, LogNames, InLockOrder;
  }

  lemma MoverWaits(env: Env, job: Job, i: nat, p: Phase, s: State, c: Choice)
    requires Lawful(env) && Running(p) && !p.Saving? && PhaseOk(env, job, i, p, s)
    ensures
      var o := Advance(env, job, p, s, c);
      match o.phase
      case Starting => false
      case Prepared(_) => p.Starting?
      case Locked(_, grant) => p.Prepared? && o.locks && grant == s.grants + 1
      case Saving(source, desired, grant, _) =>
        && p.Locked? && source == s.file && grant == p.grant && !o.locks
        && Next(env, job.command, source) == Success(desired)
      case Syncing(_, _) => false
      case Verifying(desired, _) => p.Syncing? && desired == p.desired && !o.locks
      case Done(result, point) =>
        && ReportOk(result, point) && (point == AtSync <==> p.Syncing?) && (point == AtVerify <==> p.Verifying?)
        && (point == BeforeSave <==> p.Starting? || p.Prepared? || p.Locked?)
      case Crashed(saved) => saved <==> p.Syncing? || p.Verifying?
  {
    NextFails(env, job.command, s.file);
    hide Load, Next, Logged;
  }

  /** Loading and the command itself only fail in ways that change nothing. */
  lemma NextFails(env: Env, command: Command, file: File)
    ensures Load(env, file).Failure? ==> ChangedNothing(Load(env, file).error)
    ensures Next(env, command, file).Failure? ==> ChangedNothing(Next(env, command, file).error)
  {
    if file.Some? && env.decode(file.value).Some? {
      IntoProfilesFails(env.accepts, env.decode(file.value).value);
    }
    hide IntoProfiles;
    if Load(env, file).Success? {
      PerformOnFails(env.accepts, command, Load(env, file).value);
    }
    hide PerformOn;
  }

  lemma PerformOnFails(accepts: Provider, command: Command, c: Snapshot)
    ensures PerformOn(accepts, command, c).Failure? ==> ChangedNothing(PerformOn(accepts, command, c).error)
  {
    hide ValidProfile, Position, Replaced, NextActive;
  }

  lemma MoverSaves(env: Env, job: Job, i: nat, p: Phase, s: State, c: Choice)
    requires Lawful(env) && p.Saving? && PhaseOk(env, job, i, p, s)
    ensures
      var o := Advance(env, job, p, s, c);
      match o.phase
      case Saving(source, desired, grant, _) => source == p.source && desired == p.desired && grant == p.grant
      case Syncing(desired, _) => desired == p.desired && o.commits
      case Done(result, point) =>
        && ReportOk(result, point) && point.AtStage? && point.stage == p.stage && (point.tookEffect <==> o.commits)
        && (p.stage.Renaming? && point.tookEffect ==> c == RenameFails(true))
      case Crashed(saved) => !saved && !o.commits
      case _ => false
  {
    hide Load, Next;
  }

  lemma {:induction false} StepKeepsInv(env: Env, jobs: seq<Job>, first: File, s: State, t: Turn)
    requires Lawful(env) && Allowed(jobs, s, t) && Inv(env, jobs, first, s)
    ensures Inv(env, jobs, first, Step(env, jobs, s, t))
  {
    var s' := Step(env, jobs, s, t);
    hide Lawful, PhaseOk, FileOk, LockOk;
    StepKeepsFile(env, jobs, first, s, t);
    StepKeepsLock(env, jobs, s, t);
    StepKeepsMover(env, jobs, first, s, t);
    forall i | 0 <= i < |jobs| && i != t.who
      ensures PhaseOk(env, jobs[i], i, s'.phases[i], s')
    {
      StepKeepsOther(env, jobs, s, t, i);
    }
  }

  lemma {:induction false} RunKeepsInv(env: Env, jobs: seq<Job>, first: File, turns: seq<Turn>, s: State)
    requires Lawful(env) && Run(env, jobs, first, turns, s)
    ensures Inv(env, jobs, first, s)
    decreases |turns|
  {
    hide Lawful, Step, Allowed;
    if turns == [] {
      StartIsOk(env, jobs, first);
    } else {
      var before, last := turns[..|turns| - 1], turns[|turns| - 1];
      var p :| Run(env, jobs, first, before, p) && Stepped(env, jobs, p, last, s);
      RunKeepsInv(env, jobs, first, before, p);
      StepKeepsInv(env, jobs, first, p, last);
    }
  }

  lemma StartIsOk(env: Env, jobs: seq<Job>, first: File)
    ensures Inv(env, jobs, first, Start(jobs, first))
  {
  }

  // ---- what the runs guarantee ----

  ghost predicate LoggedOnce(log: seq<Commit>, who: nat) {
    exists k :: 0 <= k < |log| && log[k].who == who && forall l | 0 <= l < |log| && log[l].who == who :: l == k
  }

  /** The result of a process that has returned. */
  predicate Returned(p: Phase, result: Result<(), ProfileError>) {
    p.Done? && p.result == result
  }

  /** No update is lost. In every interleaving, with failures and crashes anywhere, the file is the
      result of the logged commands one after the other in lock order; a command whose save returned
      `Ok` is in the log exactly once; one that failed in a way that says nothing changed is not. */
  lemma {:induction false} NoLostUpdates(env: Env, jobs: seq<Job>, first: File, turns: seq<Turn>, s: State)
    requires Lawful(env) && Run(env, jobs, first, turns, s)
    ensures |s.phases| == |jobs| && LogNames(jobs, s.log)
    ensures Replay(env, jobs, first, s.log) == Success(s.file) && InLockOrder(s.log)
    ensures forall i | 0 <= i < |jobs| && Returned(s.phases[i], Success(())) :: LoggedOnce(s.log, i)
    ensures forall i | 0 <= i < |jobs| && s.phases[i].Done? && s.phases[i].result.Failure?
      && ChangedNothing(s.phases[i].result.error) :: !Logged(s.log, i)
  {
    hide Lawful, Replay, Run;
    RunKeepsInv(env, jobs, first, turns, s);
    forall i | 0 <= i < |jobs| && Returned(s.phases[i], Success(()))
      ensures LoggedOnce(s.log, i)
    {
      assert PhaseOk(env, jobs[i], i, s.phases[i], s);
      OnlyOnce(s.log, i);
    }
    forall i | 0 <= i < |jobs| && s.phases[i].Done? && s.phases[i].result.Failure?
      && ChangedNothing(s.phases[i].result.error)
      ensures !Logged(s.log, i)
    {
      assert PhaseOk(env, jobs[i], i, s.phases[i], s);
    }
  }

  /** When a process that ended has changed the file, over every run: exactly when it ended at or after
      a stage that took effect. For `ProfileStoreUnavailable` that is the last check alone; for
      `ProfileCommitUnknown` it is everywhere but at a rename that did not happen. */
  lemma EffectIff(env: Env, jobs: seq<Job>, first: File, turns: seq<Turn>, s: State, i: nat)
    requires Lawful(env) && Run(env, jobs, first, turns, s) && i < |jobs| == |s.phases|
    ensures s.phases[i].Done? ==> (Logged(s.log, i) <==> TookEffect(s.phases[i].point))
    ensures Returned(s.phases[i], Failure(ProfileStoreUnavailable)) ==>
      (Logged(s.log, i) <==> s.phases[i].point == AtVerify)
    ensures Returned(s.phases[i], Failure(ProfileCommitUnknown)) ==>
      (Logged(s.log, i) <==> s.phases[i].point != AtStage(Renaming, false))
    ensures s.phases[i].Crashed? ==> (Logged(s.log, i) <==> s.phases[i].saved)
    ensures Logged(s.log, i) ==> LoggedOnce(s.log, i)
  {
    RunKeepsInv(env, jobs, first, turns, s);
    assert PhaseOk(env, jobs[i], i, s.phases[i], s);
    hide Load, Next, Run, Logged;
    if Logged(s.log, i) {
      OnlyOnce(s.log, i);
    }
  }

  /** The same for the step in which a process returns: the phase it leaves tells what became of the file. */
  lemma LastStepTells(env: Env, jobs: seq<Job>, first: File, turns: seq<Turn>, s: State, t: Turn)
    requires Lawful(env) && Run(env, jobs, first, turns, s) && Allowed(jobs, s, t)
    ensures
      var before, s' := s.phases[t.who], Step(env, jobs, s, t);
      var after := s'.phases[t.who];
      && (Returned(after, Failure(ProfileStoreUnavailable)) ==> (Logged(s'.log, t.who) <==> before.Verifying?))
      && (Returned(after, Failure(ProfileCommitUnknown)) ==>
            (Logged(s'.log, t.who) <==>
             before.Syncing? || (before.Saving? && before.stage.Renaming? && t.choice == RenameFails(true))))
  {
    hide Run, Load, Next, Logged, PhaseOk, FileOk, LockOk, Lawful;
    var p, i, job := s.phases[t.who], t.who, jobs[t.who];
    RunKeepsInv(env, jobs, first, turns, s);
    StepKeepsInv(env, jobs, first, s, t);
    var s' := Step(env, jobs, s, t);
    EndedTells(env, job, i, s'.phases[i], s');
    if p.Saving? {
      MoverSaves(env, job, i, p, s, t.choice);
    } else {
      MoverWaits(env, job, i, p, s, t.choice);
    }
    hide Advance;
  }

  lemma EndedTells(env: Env, job: Job, i: nat, p: Phase, s: State)
    requires PhaseOk(env, job, i, p, s)
    ensures p.Done? ==> (Logged(s.log, i) <==> TookEffect(p.point)) && ReportOk(p.result, p.point)
  {
    hide Next, Logged;
  }

  // ---- the collection loaded before the lock ----

  /** In turn `k` process `i` loaded `file`, before it took the lock. */
  ghost predicate LoadedAt(env: Env, jobs: seq<Job>, first: File, turns: seq<Turn>, k: nat, i: nat, file: File) {
    && k < |turns| && turns[k].who == i
    && exists p :: Run(env, jobs, first, turns[..k], p) && i < |p.phases| && p.phases[i].Starting? && p.file == file
  }

  ghost predicate LoadedEarly(env: Env, jobs: seq<Job>, first: File, turns: seq<Turn>, i: nat, file: File) {
    exists k: nat :: LoadedAt(env, jobs, first, turns, k, i, file)
  }

  lemma LoadedStays(env: Env, jobs: seq<Job>, first: File, turns: seq<Turn>, t: Turn, i: nat, file: File)
    requires LoadedEarly(env, jobs, first, turns, i, file)
    ensures LoadedEarly(env, jobs, first, turns + [t], i, file)
  {
    hide Run;
    var k: nat :| LoadedAt(env, jobs, first, turns, k, i, file);
    assert (turns + [t])[..k] == turns[..k] && (turns + [t])[k] == turns[k];
    assert LoadedAt(env, jobs, first, turns + [t], k, i, file);
  }

  lemma LoadedNow(env: Env, jobs: seq<Job>, first: File, turns: seq<Turn>, p: State, t: Turn)
    requires Run(env, jobs, first, turns, p) && t.who < |p.phases| && p.phases[t.who].Starting?
    ensures LoadedEarly(env, jobs, first, turns + [t], t.who, p.file)
  {
    hide Run;
    assert (turns + [t])[..|turns|] == turns && (turns + [t])[|turns|] == t;
    assert LoadedAt(env, jobs, first, turns + [t], |turns|, t.who, p.file);
  }

  /** A process that loads early still knows what it loaded, and saves only over that. */
  ghost predicate EarlyOk(env: Env, jobs: seq<Job>, first: File, turns: seq<Turn>, i: nat, p: Phase)
    requires i < |jobs| && jobs[i].early
  {
    match p
    case Prepared(early) => early.Some? && LoadedEarly(env, jobs, first, turns, i, early.value)
    case Locked(early, _) => early.Some? && LoadedEarly(env, jobs, first, turns, i, early.value)
    case Saving(source, _, _, _) => LoadedEarly(env, jobs, first, turns, i, source)
    case _ => true
  }

  /** The same for what it saved: the file just before its entry in the log is the one it loaded. */
  ghost predicate EntryOk(env: Env, jobs: seq<Job>, first: File, turns: seq<Turn>, log: seq<Commit>, k: nat)
    requires k < |log| && LogNames(jobs, log)
  {
    && LogNames(jobs, log[..k])
    && exists file :: LoadedEarly(env, jobs, first, turns, log[k].who, file)
                      && Replay(env, jobs, first, log[..k]) == Success(file)
  }

  ghost predicate EarlyKept(env: Env, jobs: seq<Job>, first: File, turns: seq<Turn>, s: State) {
    && |s.phases| == |jobs| && LogNames(jobs, s.log)
    && (forall i | 0 <= i < |jobs| && jobs[i].early :: EarlyOk(env, jobs, first, turns, i, s.phases[i]))
    && (forall k | 0 <= k < |s.log| && jobs[s.log[k].who].early :: EntryOk(env, jobs, first, turns, s.log, k))
  }

  lemma EarlyStays(env: Env, jobs: seq<Job>, first: File, turns: seq<Turn>, t: Turn, i: nat, p: Phase)
    requires i < |jobs| && jobs[i].early && EarlyOk(env, jobs, first, turns, i, p)
    ensures EarlyOk(env, jobs, first, turns + [t], i, p)
  {
    hide LoadedEarly;
    match p
    case Prepared(early) => LoadedStays(env, jobs, first, turns, t, i, early.value);
    case Locked(early, _) => LoadedStays(env, jobs, first, turns, t, i, early.value);
    case Saving(source, _, _, _) => LoadedStays(env, jobs, first, turns, t, i, source);
    case _ =>
  }

  lemma EntryStays(env: Env, jobs: seq<Job>, first: File, turns: seq<Turn>, t: Turn, log: seq<Commit>, more: seq<Commit>, k: nat)
    requires LogNames(jobs, log + more) && LogNames(jobs, log) && k < |log| && EntryOk(env, jobs, first, turns, log, k)
    ensures EntryOk(env, jobs, first, turns + [t], log + more, k)
  {
    hide LoadedEarly, Replay;
    assert (log + more)[..k] == log[..k] && (log + more)[k] == log[k];
    var file :| LoadedEarly(env, jobs, first, turns, log[k].who, file) && Replay(env, jobs, first, log[..k]) == Success(file);
    LoadedStays(env, jobs, first, turns, t, log[k].who, file);
  }

  /** Where a step takes what it remembers from. */
  lemma MoverRemembers(env: Env, job: Job, p: Phase, s: State, c: Choice)
    requires Lawful(env) && Running(p) && job.early
    ensures
      var o := Advance(env, job, p, s, c);
      match o.phase
      case Prepared(early) => p.Starting? && early == Some(s.file)
      case Locked(early, _) => p.Prepared? && early == p.early
      case Saving(source, _, _, _) =>
        (p.Saving? && source == p.source) || (p.Locked? && source == s.file && (p.early.Some? ==> p.early.value == s.file))
      case _ => true
  {
    hide Load, Next;
  }

  lemma StepKeepsEarly(env: Env, jobs: seq<Job>, first: File, turns: seq<Turn>, s: State, t: Turn)
    requires Lawful(env) && Run(env, jobs, first, turns, s) && Allowed(jobs, s, t) && Inv(env, jobs, first, s)
    requires EarlyKept(env, jobs, first, turns, s)
    ensures EarlyKept(env, jobs, first, turns + [t], Step(env, jobs, s, t))
  {
    hide Advance, Run, Lawful, LoadedEarly, Next, Load, Replay, EntryOk, EarlyOk, PhaseOk, Logged, InLockOrder, GrantsBelow;
    var s', i, p := Step(env, jobs, s, t), t.who, s.phases[t.who];
    AdvanceOutcome(env, jobs[i], p, s, t.choice);
    var o := Advance(env, jobs[i], p, s, t.choice);
    if jobs[i].early {
      MoverStaysEarly(env, jobs, first, turns, s, t);
    }
    forall j | 0 <= j < |jobs| && jobs[j].early
      ensures EarlyOk(env, jobs, first, turns + [t], j, s'.phases[j])
    {
      if j != i {
        EarlyStays(env, jobs, first, turns, t, j, s.phases[j]);
      }
    }
    var more := if o.commits then [Commit(i, if o.locks then s.grants + 1 else s.grants)] else [];
    assert s'.log == s.log + more;
    forall k | 0 <= k < |s'.log| && jobs[s'.log[k].who].early
      ensures EntryOk(env, jobs, first, turns + [t], s'.log, k)
    {
      if k < |s.log| {
        EntryStays(env, jobs, first, turns, t, s.log, more, k);
      } else {
        assert s'.log[..k] == s.log && s'.log[k].who == i;
        EntryFrom(env, jobs, first, turns + [t], s'.log, k, s.file);
      }
    }
  }

  /** The process that moves still knows what it loaded; and when it commits, that is the file. */
  lemma MoverStaysEarly(env: Env, jobs: seq<Job>, first: File, turns: seq<Turn>, s: State, t: Turn)
    requires Lawful(env) && Run(env, jobs, first, turns, s) && Allowed(jobs, s, t) && jobs[t.who].early
    requires PhaseOk(env, jobs[t.who], t.who, s.phases[t.who], s)
    requires EarlyOk(env, jobs, first, turns, t.who, s.phases[t.who])
    ensures
      var o := Advance(env, jobs[t.who], s.phases[t.who], s, t.choice);
      && EarlyOk(env, jobs, first, turns + [t], t.who, o.phase)
      && (o.commits ==> LoadedEarly(env, jobs, first, turns + [t], t.who, s.file))
  {
    var i, p := t.who, s.phases[t.who];
    AdvanceOutcome(env, jobs[i], p, s, t.choice);
    MoverRemembers(env, jobs[i], p, s, t.choice);
    if p.Starting? {
      LoadedNow(env, jobs, first, turns, s, t);
    }
    EarlyStays(env, jobs, first, turns, t, i, p);
    hide Advance, Run, Lawful, LoadedEarly, Next, Load, Logged, GrantsBelow;
  }

  lemma EntryFrom(env: Env, jobs: seq<Job>, first: File, turns: seq<Turn>, log: seq<Commit>, k: nat, file: File)
    requires LogNames(jobs, log) && k < |log| && LogNames(jobs, log[..k])
    requires LoadedEarly(env, jobs, first, turns, log[k].who, file) && Replay(env, jobs, first, log[..k]) == Success(file)
    ensures EntryOk(env, jobs, first, turns, log, k)
  {
  }

  lemma {:induction false} RunKeepsEarly(env: Env, jobs: seq<Job>, first: File, turns: seq<Turn>, s: State)
    requires Lawful(env) && Run(env, jobs, first, turns, s)
    ensures EarlyKept(env, jobs, first, turns, s)
    decreases |turns|
  {
    hide Lawful, Step, Allowed, EarlyOk, EntryOk;
    if turns == [] {
      NothingEarly(env, jobs, first);
    } else {
      var before, last := turns[..|turns| - 1], turns[|turns| - 1];
      var p :| Run(env, jobs, first, before, p) && Stepped(env, jobs, p, last, s);
      RunKeepsEarly(env, jobs, first, before, p);
      RunKeepsInv(env, jobs, first, before, p);
      StepKeepsEarly(env, jobs, first, before, p, last);
      assert turns == before + [last];
    }
  }

  lemma NothingEarly(env: Env, jobs: seq<Job>, first: File)
    ensures EarlyKept(env, jobs, first, [], Start(jobs, first))
  {
  }

  /** A setup never acts on a stale load. In every run, a process that loads before it takes the lock and
      saves, or has changed the file, or returned `Ok`, did load the very file that its save started from:
      the one that all commands before it in the log had left. */
  lemma {:induction false} EarlyIsCurrent(env: Env, jobs: seq<Job>, first: File, turns: seq<Turn>, s: State, i: nat)
    requires Lawful(env) && Run(env, jobs, first, turns, s) && i < |jobs| && jobs[i].early
    ensures |s.phases| == |jobs| && LogNames(jobs, s.log)
    ensures s.phases[i].Saving? ==>
      LoadedEarly(env, jobs, first, turns, i, s.file) && Replay(env, jobs, first, s.log) == Success(s.file)
    ensures forall k | 0 <= k < |s.log| && s.log[k].who == i ::
      && LogNames(jobs, s.log[..k])
      && exists file ::
           LoadedEarly(env, jobs, first, turns, i, file) && Replay(env, jobs, first, s.log[..k]) == Success(file)
    ensures Returned(s.phases[i], Success(())) ==> Logged(s.log, i)
  {
    RunKeepsEarly(env, jobs, first, turns, s);
    RunKeepsInv(env, jobs, first, turns, s);
    assert PhaseOk(env, jobs[i], i, s.phases[i], s);
    hide Run, Lawful, LoadedEarly, Next, Load, Replay, Logged;
    assert EarlyOk(env, jobs, first, turns, i, s.phases[i]);
    assert forall k | 0 <= k < |s.log| && s.log[k].who == i :: EntryOk(env, jobs, first, turns, s.log, k);
  }

  /** When a command meets a conflict, over every run: exactly when another process has the lock, or the
      file is no longer the one it loaded before. The comparisons of `save` under the lock never fail. */
  lemma {:induction false} ConflictIff(env: Env, jobs: seq<Job>, first: File, turns: seq<Turn>, s: State, t: Turn)
    requires Lawful(env) && Run(env, jobs, first, turns, s) && Allowed(jobs, s, t)
    requires !t.choice.Fail? && !t.choice.Crash?
    ensures
      var p := s.phases[t.who];
      Returned(Step(env, jobs, s, t).phases[t.who], Failure(ConcurrentModification)) <==>
        || (p.Prepared? && s.lock.Some?)
        || (p.Locked? && Load(env, s.file).Success? && p.early.Some? && p.early.value != s.file)
  {
    hide Run, Logged, FileOk, LockOk, Load, Next, Lawful, PhaseOk, Advance;
    var i, p := t.who, s.phases[t.who];
    RunKeepsInv(env, jobs, first, turns, s);
    if p.Saving? {
      MoverSaves(env, jobs[i], i, p, s, t.choice);
    } else {
      MoverConflicts(env, jobs[i], p, s, t.choice);
    }
  }

  lemma MoverConflicts(env: Env, job: Job, p: Phase, s: State, c: Choice)
    requires Lawful(env) && Running(p) && !p.Saving? && !c.Fail? && !c.Crash?
    ensures Returned(Advance(env, job, p, s, c).phase, Failure(ConcurrentModification)) <==>
      || (p.Prepared? && s.lock.Some?)
      || (p.Locked? && Load(env, s.file).Success? && p.early.Some? && p.early.value != s.file)
  {
    hide Load, Next, Lawful, DigestOf, Save;
    NoConflictInside(env, job.command, s.file);
    if p.Locked? && p.early.Some? {
      SameDigest(env, p.early.value, s.file);
    }
  }

  lemma SameDigest(env: Env, a: File, b: File)
    requires Lawful(env)
    ensures DigestOf(env, a) == DigestOf(env, b) <==> a == b
  {
  }

  /** Loading and the command itself report no conflict. */
  lemma NoConflictInside(env: Env, command: Command, file: File)
    ensures Load(env, file).Failure? ==> Load(env, file).error != ConcurrentModification
    ensures Next(env, command, file).Failure? ==> Next(env, command, file).error != ConcurrentModification
  {
    if file.Some? && env.decode(file.value).Some? {
      IntoProfilesFails(env.accepts, env.decode(file.value).value);
    }
    hide IntoProfiles;
    if Load(env, file).Success? {
      PerformOnNoConflict(env.accepts, command, Load(env, file).value);
    }
    hide PerformOn;
  }

  lemma PerformOnNoConflict(accepts: Provider, command: Command, c: Snapshot)
    ensures PerformOn(accepts, command, c).Failure? ==> PerformOn(accepts, command, c).error != ConcurrentModification
  {
    hide ValidProfile, Position, Replaced, NextActive;
  }

  // ---- particular runs ----

  lemma RunOn(env: Env, jobs: seq<Job>, first: File, turns: seq<Turn>, s: State, t: Turn)
    requires Run(env, jobs, first, turns, s) && Allowed(jobs, s, t)
    ensures Run(env, jobs, first, turns + [t], Step(env, jobs, s, t))
  {
    assert (turns + [t])[..|turns|] == turns;
    assert Stepped(env, jobs, s, t, Step(env, jobs, s, t));
  }

  /** One process among others that stand still: it is to start, and has something to save over `first`. */
  datatype Scene = Scene(env: Env, jobs: seq<Job>, phases: seq<Phase>, who: nat, first: File, desired: Bytes)

  ghost predicate HasWork(x: Scene) {
    && Lawful(x.env) && |x.jobs| == |x.phases| && x.who < |x.jobs| && !x.jobs[x.who].early
    && Next(x.env, x.jobs[x.who].command, x.first) == Success(x.desired) && x.first != Some(x.desired)
  }

  lemma IsInside(x: Scene)
    requires HasWork(x)
    ensures |x.jobs| == |x.phases| && x.who < |x.phases|
  {
    hide Lawful, Next;
  }

  /** The process in `phase`, without the lock or with it. */
  ghost function Waiting(x: Scene, phase: Phase): State
    requires x.who < |x.phases|
  {
    State(x.first, None, x.phases[x.who := phase], [], 0)
  }

  ghost function Working(x: Scene, file: File, phase: Phase, log: seq<Commit>): State
    requires x.who < |x.phases|
  {
    State(file, Some(x.who), x.phases[x.who := phase], log, 1)
  }

  ghost function AtSaving(x: Scene, stage: Stage): State
    requires x.who < |x.phases|
  {
    Working(x, x.first, Saving(x.first, x.desired, 1, stage), [])
  }

  ghost function AtEnd(x: Scene, file: File, log: seq<Commit>, result: Result<(), ProfileError>, point: Point): State
    requires x.who < |x.phases|
  {
    State(file, None, x.phases[x.who := Done(result, point)], log, 1)
  }

  /** One step of the process. */
  ghost predicate Leads(x: Scene, s: State, c: Choice, s': State) {
    Allowed(x.jobs, s, Turn(x.who, c)) && Step(x.env, x.jobs, s, Turn(x.who, c)) == s'
  }

  lemma LeadOn(x: Scene, start: File, turns: seq<Turn>, s: State, c: Choice, s': State)
    requires Run(x.env, x.jobs, start, turns, s) && Leads(x, s, c, s')
    ensures Run(x.env, x.jobs, start, turns + [Turn(x.who, c)], s')
  {
    hide Step, Run, Allowed;
    RunOn(x.env, x.jobs, start, turns, s, Turn(x.who, c));
  }

  /** The three steps up to `save`. */
  lemma EntrySteps(x: Scene)
    requires HasWork(x)
    ensures Leads(x, Waiting(x, Starting), Proceed, Waiting(x, Prepared(None)))
    ensures Leads(x, Waiting(x, Prepared(None)), Proceed, Working(x, x.first, Locked(None, 1), []))
  {
    hide Load, Next, Save, DigestOf;
  }

  lemma LoadAdvances(env: Env, job: Job, s: State)
    requires Load(env, s.file).Success? && Next(env, job.command, s.file).Success?
    ensures Advance(env, job, Locked(None, 1), s, Proceed) ==
            Stay(s.file, Saving(s.file, Next(env, job.command, s.file).value, 1, CheckingDesired))
  {
    hide Load, Next, Save, DigestOf;
  }

  lemma LoadStep(x: Scene)
    requires HasWork(x)
    ensures Leads(x, Working(x, x.first, Locked(None, 1), []), Proceed, AtSaving(x, CheckingDesired))
  {
    hide Load, Next, Save, DigestOf, Lawful;
    LoadedForNext(x.env, x.jobs[x.who].command, x.first);
    LoadAdvances(x.env, x.jobs[x.who], Working(x, x.first, Locked(None, 1), []));
    hide Advance;
  }

  lemma ReachSaving(x: Scene, start: File, turns: seq<Turn>) returns (turns': seq<Turn>)
    requires HasWork(x) && Run(x.env, x.jobs, start, turns, Waiting(x, Starting))
    ensures Run(x.env, x.jobs, start, turns', AtSaving(x, CheckingDesired))
  {
    hide Run, Leads, HasWork, Step, Working, Waiting, AtSaving, AtEnd;
    EntrySteps(x);
    LoadStep(x);
    IsInside(x);
    LeadOn(x, start, turns, Waiting(x, Starting), Proceed, Waiting(x, Prepared(None)));
    turns' := turns + [Turn(x.who, Proceed)];
    LeadOn(x, start, turns', Waiting(x, Prepared(None)), Proceed, Working(x, x.first, Locked(None, 1), []));
    turns' := turns' + [Turn(x.who, Proceed)];
    LeadOn(x, start, turns', Working(x, x.first, Locked(None, 1), []), Proceed, AtSaving(x, CheckingDesired));
    turns' := turns' + [Turn(x.who, Proceed)];
  }

  lemma RunNothing(env: Env, jobs: seq<Job>, first: File)
    ensures Run(env, jobs, first, [], Start(jobs, first))
  {
  }

  lemma LoadedForNext(env: Env, command: Command, file: File)
    requires Next(env, command, file).Success?
    ensures Load(env, file).Success?
  {
    hide Load;
  }

  /** The stages of `save` up to the rename, undisturbed. */
  lemma StageStep(x: Scene, stage: Stage, next: Stage)
    requires HasWork(x)
    requires (stage.CheckingDesired? && next.CheckingSource?) || (stage.CheckingSource? && next.WritingTemporary?)
          || (stage.WritingTemporary? && next.Rechecking?) || (stage.Rechecking? && next.Renaming?)
    ensures Leads(x, AtSaving(x, stage), Proceed, AtSaving(x, next))
  {
    hide Load, Next;
  }

  lemma ReachRename(x: Scene, start: File, turns: seq<Turn>) returns (turns': seq<Turn>)
    requires HasWork(x) && Run(x.env, x.jobs, start, turns, Waiting(x, Starting))
    ensures Run(x.env, x.jobs, start, turns', AtSaving(x, Renaming))
  {
    hide Run, Leads, HasWork, Step, Working, Waiting, AtSaving, AtEnd;
    IsInside(x);
    turns' := ReachSaving(x, start, turns);
    var stages := [CheckingDesired, CheckingSource, WritingTemporary, Rechecking, Renaming];
    for k := 0 to 4
      invariant Run(x.env, x.jobs, start, turns', AtSaving(x, stages[k]))
    {
      StageStep(x, stages[k], stages[k + 1]);
      LeadOn(x, start, turns', AtSaving(x, stages[k]), Proceed, AtSaving(x, stages[k + 1]));
      turns' := turns' + [Turn(x.who, Proceed)];
    }
  }

  /** The steps from the rename on. */
  lemma RenameSteps(x: Scene)
    requires HasWork(x)
    ensures Leads(x, AtSaving(x, Renaming), Proceed, Working(x, Some(x.desired), Syncing(x.desired, 1), [Commit(x.who, 1)]))
    ensures Leads(x, AtSaving(x, Renaming), Fail,
                  AtEnd(x, x.first, [], Failure(ProfileStoreUnavailable), AtStage(Renaming, false)))
    ensures Leads(x, AtSaving(x, Renaming), RenameFails(true),
                  AtEnd(x, Some(x.desired), [Commit(x.who, 1)], Failure(ProfileCommitUnknown), AtStage(Renaming, true)))
    ensures Leads(x, AtSaving(x, Renaming), RenameFails(false),
                  AtEnd(x, x.first, [], Failure(ProfileCommitUnknown), AtStage(Renaming, false)))
  {
    hide Load, Next, Lawful, DigestOf;
  }

  lemma CheckSteps(x: Scene)
    requires HasWork(x)
    ensures
      var log, file := [Commit(x.who, 1)], Some(x.desired);
      && Leads(x, Working(x, file, Syncing(x.desired, 1), log), Proceed, Working(x, file, Verifying(x.desired, 1), log))
      && Leads(x, Working(x, file, Verifying(x.desired, 1), log), Fail,
               AtEnd(x, file, log, Failure(ProfileStoreUnavailable), AtVerify))
      && Leads(x, Working(x, file, Verifying(x.desired, 1), log), Proceed, AtEnd(x, file, log, Success(()), AtVerify))
  {
    hide Load, Next, Save;
  }

  lemma ReachVerifying(x: Scene, start: File, turns: seq<Turn>) returns (turns': seq<Turn>)
    requires HasWork(x) && Run(x.env, x.jobs, start, turns, Waiting(x, Starting))
    ensures Run(x.env, x.jobs, start, turns',
                Working(x, Some(x.desired), Verifying(x.desired, 1), [Commit(x.who, 1)]))
  {
    hide Run, Leads, HasWork, Step, Working, Waiting, AtSaving, AtEnd;
    IsInside(x);
    turns' := ReachRename(x, start, turns);
    RenameSteps(x);
    CheckSteps(x);
    var log, file := [Commit(x.who, 1)], Some(x.desired);
    LeadOn(x, start, turns', AtSaving(x, Renaming), Proceed, Working(x, file, Syncing(x.desired, 1), log));
    turns' := turns' + [Turn(x.who, Proceed)];
    LeadOn(x, start, turns', Working(x, file, Syncing(x.desired, 1), log), Proceed,
           Working(x, file, Verifying(x.desired, 1), log));
    turns' := turns' + [Turn(x.who, Proceed)];
  }

  /** A process with something to save, left to itself, returns `Ok` and its file is in place. */
  lemma ReachOk(x: Scene, start: File, turns: seq<Turn>) returns (turns': seq<Turn>)
    requires HasWork(x) && Run(x.env, x.jobs, start, turns, Waiting(x, Starting))
    ensures Run(x.env, x.jobs, start, turns', AtEnd(x, Some(x.desired), [Commit(x.who, 1)], Success(()), AtVerify))
  {
    hide Run, Leads, HasWork, Step, Working, Waiting, AtSaving, AtEnd;
    IsInside(x);
    turns' := ReachVerifying(x, start, turns);
    CheckSteps(x);
    var log, file := [Commit(x.who, 1)], Some(x.desired);
    LeadOn(x, start, turns', Working(x, file, Verifying(x.desired, 1), log), Proceed,
           AtEnd(x, file, log, Success(()), AtVerify));
    turns' := turns' + [Turn(x.who, Proceed)];
  }

  /** A command that has something to save, run by itself. */
  ghost function Single(env: Env, command: Command, first: File, desired: Bytes): Scene {
    Scene(env, [Job(command, false)], [Starting], 0, first, desired)
  }

  lemma SingleStarts(env: Env, command: Command, first: File, desired: Bytes)
    ensures
      var x := Single(env, command, first, desired);
      Run(env, x.jobs, first, [], Waiting(x, Starting))
  {
    RunNothing(env, [Job(command, false)], first);
    assert Start([Job(command, false)], first).phases == [Starting] == [Starting][0 := Starting];
  }

  /** A run of `command` alone that ends with `error`, with the file as `file`. */
  ghost predicate CanEnd(env: Env, command: Command, first: File, result: Result<(), ProfileError>, file: File, logged: bool) {
    exists turns, s :: Run(env, [Job(command, false)], first, turns, s) && EndsWith(s, result, file, logged)
  }

  ghost predicate EndsWith(s: State, result: Result<(), ProfileError>, file: File, logged: bool) {
    |s.phases| == 1 && Returned(s.phases[0], result) && s.file == file && (Logged(s.log, 0) <==> logged)
  }

  lemma EndStates(x: Scene, file: File, result: Result<(), ProfileError>, point: Point)
    requires |x.phases| == 1 && x.who == 0
    ensures EndsWith(AtEnd(x, file, [], result, point), result, file, false)
    ensures EndsWith(AtEnd(x, file, [Commit(0, 1)], result, point), result, file, true)
  {
    assert [Commit(0, 1)][0].who == 0;
  }

  /** A command with something to save can succeed, and its file is then in place; but the error
      `ProfileStoreUnavailable` comes after the command was saved, by a failing last check, and without it. */
  lemma {:induction false} UnavailableSaysNothing(env: Env, command: Command, first: File, desired: Bytes)
    requires HasWork(Single(env, command, first, desired))
    ensures CanEnd(env, command, first, Success(()), Some(desired), true)
    ensures CanEnd(env, command, first, Failure(ProfileStoreUnavailable), Some(desired), true)
    ensures CanEnd(env, command, first, Failure(ProfileStoreUnavailable), first, false)
  {
    hide Run, Leads, HasWork, EndsWith, Step, Working, Waiting, AtSaving, AtEnd;
    var x := Single(env, command, first, desired);
    SingleStarts(env, command, first, desired);
    RenameSteps(x);
    CheckSteps(x);
    EndStates(x, first, Failure(ProfileStoreUnavailable), AtStage(Renaming, false));
    EndStates(x, Some(desired), Failure(ProfileStoreUnavailable), AtVerify);
    EndStates(x, Some(desired), Success(()), AtVerify);
    var log := [Commit(0, 1)];
    var renaming := ReachRename(x, first, []);
    LeadOn(x, first, renaming, AtSaving(x, Renaming), Fail,
           AtEnd(x, first, [], Failure(ProfileStoreUnavailable), AtStage(Renaming, false)));
    var verifying := ReachVerifying(x, first, []);
    LeadOn(x, first, verifying, Working(x, Some(desired), Verifying(desired, 1), log), Fail,
           AtEnd(x, Some(desired), log, Failure(ProfileStoreUnavailable), AtVerify));
    var ended := ReachOk(x, first, []);
  }

  /** `ProfileCommitUnknown` of a rename that happened, and of one that did not. */
  lemma {:induction false} CommitUnknownSaysNothing(env: Env, command: Command, first: File, desired: Bytes)
    requires HasWork(Single(env, command, first, desired))
    ensures CanEnd(env, command, first, Failure(ProfileCommitUnknown), Some(desired), true)
    ensures CanEnd(env, command, first, Failure(ProfileCommitUnknown), first, false)
  {
    hide Run, Leads, HasWork, EndsWith, Step, Working, Waiting, AtSaving, AtEnd;
    var x := Single(env, command, first, desired);
    SingleStarts(env, command, first, desired);
    RenameSteps(x);
    EndStates(x, first, Failure(ProfileCommitUnknown), AtStage(Renaming, false));
    EndStates(x, Some(desired), Failure(ProfileCommitUnknown), AtStage(Renaming, true));
    var turns := ReachRename(x, first, []);
    LeadOn(x, first, turns, AtSaving(x, Renaming), RenameFails(true),
           AtEnd(x, Some(desired), [Commit(0, 1)], Failure(ProfileCommitUnknown), AtStage(Renaming, true)));
    LeadOn(x, first, turns, AtSaving(x, Renaming), RenameFails(false),
           AtEnd(x, first, [], Failure(ProfileCommitUnknown), AtStage(Renaming, false)));
  }

  /** A setup loads, another process saves and returns `Ok`, the setup takes the lock and meets the
      conflict: there is such a run for every file that can be loaded and every other command that changes it. */
  lemma {:induction false} StaleSetupConflicts(env: Env, setup: Command, other: Command, first: File, desired: Bytes)
    returns (turns: seq<Turn>, s: State)
    requires Lawful(env) && Next(env, other, first) == Success(desired) && first != Some(desired)
    requires Load(env, Some(desired)).Success?
    ensures Run(env, [Job(setup, true), Job(other, false)], first, turns, s) && |s.phases| == 2
    ensures Returned(s.phases[0], Failure(ConcurrentModification)) && Returned(s.phases[1], Success(()))
    ensures s.file == Some(desired)
  {
    hide Run, Step, Load, Next, Lawful, Allowed, Waiting, AtEnd, HasWork;
    var jobs := [Job(setup, true), Job(other, false)];
    var x := Scene(env, jobs, [Prepared(Some(first)), Starting], 1, first, desired);
    LoadedForNext(env, other, first);
    RunNothing(env, jobs, first);
    SetupLoads(x, setup, other);
    RunOn(env, jobs, first, [], Start(jobs, first), Turn(0, Proceed));
    OtherHasWork(x, setup, other);
    turns := ReachOk(x, first, [] + [Turn(0, Proceed)]);
    var s1 := AtEnd(x, Some(desired), [Commit(1, 1)], Success(()), AtVerify);
    SetupLocks(x, setup, other);
    RunOn(env, jobs, first, turns, s1, Turn(0, Proceed));
    var s2 := Step(env, jobs, s1, Turn(0, Proceed));
    SetupCompares(x, setup, other, s2);
    RunOn(env, jobs, first, turns + [Turn(0, Proceed)], s2, Turn(0, Proceed));
    turns, s := turns + [Turn(0, Proceed)] + [Turn(0, Proceed)], Step(env, jobs, s2, Turn(0, Proceed));
  }

  lemma OtherHasWork(x: Scene, setup: Command, other: Command)
    requires x.jobs == [Job(setup, true), Job(other, false)] && x.phases == [Prepared(Some(x.first)), Starting] && x.who == 1
    requires Lawful(x.env) && Next(x.env, other, x.first) == Success(x.desired) && x.first != Some(x.desired)
    ensures HasWork(x)
  {
    hide Lawful, Next;
  }

  lemma SetupLoads(x: Scene, setup: Command, other: Command)
    requires x.jobs == [Job(setup, true), Job(other, false)] && x.phases == [Prepared(Some(x.first)), Starting] && x.who == 1
    requires Load(x.env, x.first).Success?
    ensures Allowed(x.jobs, Start(x.jobs, x.first), Turn(0, Proceed))
    ensures Step(x.env, x.jobs, Start(x.jobs, x.first), Turn(0, Proceed)) == Waiting(x, Starting)
  {
    hide Load, Next, Save;
    assert Start(x.jobs, x.first).phases == [Starting, Starting];
  }

  lemma SetupLocks(x: Scene, setup: Command, other: Command)
    requires x.jobs == [Job(setup, true), Job(other, false)] && x.phases == [Prepared(Some(x.first)), Starting] && x.who == 1
    ensures
      var s := AtEnd(x, Some(x.desired), [Commit(1, 1)], Success(()), AtVerify);
      Allowed(x.jobs, s, Turn(0, Proceed))
      && Step(x.env, x.jobs, s, Turn(0, Proceed)) ==
         State(Some(x.desired), Some(0), [Locked(Some(x.first), 2), Done(Success(()), AtVerify)], s.log, 2)
  {
    hide Load, Next, Save;
  }

  lemma SetupCompares(x: Scene, setup: Command, other: Command, s: State)
    requires Lawful(x.env) && x.jobs == [Job(setup, true), Job(other, false)] && x.first != Some(x.desired)
    requires s.file == Some(x.desired) && Load(x.env, s.file).Success?
    requires s.phases == [Locked(Some(x.first), 2), Done(Success(()), AtVerify)]
    ensures Allowed(x.jobs, s, Turn(0, Proceed))
    ensures
      var s' := Step(x.env, x.jobs, s, Turn(0, Proceed));
      s'.phases == [Done(Failure(ConcurrentModification), BeforeSave), Done(Success(()), AtVerify)] && s'.file == s.file
  {
    SameDigest(x.env, x.first, s.file);
    hide Load, Next, Save, DigestOf;
  }

  lemma OnlyOnce(log: seq<Commit>, who: nat)
    requires InLockOrder(log) && Logged(log, who)
    ensures LoggedOnce(log, who)
  {
    var k :| 0 <= k < |log| && log[k].who == who;
    assert forall l | 0 <= l < |log| && log[l].who == who :: l == k;
  }

  // ---- what the file says ----

  ghost predicate AllWhole(s: seq<Profile>) {
    forall p | p in s :: WholeSeconds(p)
  }

  lemma {:induction false} IntoAllIsWhole(accepts: Provider, s: seq<StoredProfile>)
    ensures IntoAll(accepts, s).Success? ==> AllWhole(IntoAll(accepts, s).value)
  {
    hide ValidProfile;
    if s != [] {
      IntoAllIsWhole(accepts, s[1..]);
    }
  }

  /** A loaded collection is valid, with timeouts in whole seconds. */
  lemma LoadedIsWhole(env: Env, file: File)
    requires Load(env, file).Success?
    ensures ValidSnapshot(env.accepts, Load(env, file).value) && AllWhole(Load(env, file).value.profiles)
  {
    hide ValidProfile, LexLe, IntoAll, Sort;
    if file.Some? {
      var stored := env.decode(file.value).value;
      LoadedIsValid(env.accepts, stored);
      IntoAllIsWhole(env.accepts, stored.profiles);
      var all := IntoAll(env.accepts, stored.profiles).value;
      SameElements(Sort(ByName, all), all);
    }
  }

  /** The profiles after a command are those before, one of them perhaps without its credential, and
      the one set up. */
  lemma PerformedMembers(accepts: Provider, command: Command, c: Snapshot, q: Profile)
    requires ValidSnapshot(accepts, c) && PerformOn(accepts, command, c).Success?
    requires q in PerformOn(accepts, command, c).value.profiles
    ensures q in c.profiles || (command.Setup? && q == command.profile)
         || exists p | p in c.profiles :: q == p.(credentialRef := None)
  {
    hide ValidProfile, MapOf, LexLe, Position, NextActive, Replaced;
    match command
    case Setup(p) => UpsertMeaning(c.profiles, p);
    case Use(_) =>
    case Logout(chosen) =>
    case Drop(name) =>
  }

  ghost predicate WholeCommand(command: Command) {
    command.Setup? ==> WholeSeconds(command.profile)
  }

  const DEFAULT_TIMEOUT_SECONDS: nat := 300
  const DEFAULT_OUTPUT_TOKENS: nat := 1024

  /** Inference limits as the command line asks for them: an argument or a variable of the environment. */
  datatype LimitChoice = LimitChoice(argument: Option<nat>, variable: Option<nat>)

  function Resolve(choice: LimitChoice, otherwise: nat): nat {
    if choice.argument.Some? then choice.argument.value
    else if choice.variable.Some? then choice.variable.value
    else otherwise
  }

  /** `resolve_inference_limits`: timeout and tokens, the timeout always built from seconds. */
  function ResolveLimits(timeout: LimitChoice, tokens: LimitChoice, profile: Option<Profile>): Option<(nat, nat)> {
    var seconds := Resolve(timeout, if profile.Some? then profile.value.timeout / NANOS else DEFAULT_TIMEOUT_SECONDS);
    var budget := Resolve(tokens, if profile.Some? then profile.value.maxOutputTokens else DEFAULT_OUTPUT_TOKENS);
    if ValidLimits(seconds * NANOS, budget) then Some((seconds * NANOS, budget)) else None
  }

  /** The commands that the command line can give. */
  ghost predicate FromCommandLine(command: Command) {
    command.Setup? ==> exists timeout, tokens, profile ::
      ResolveLimits(timeout, tokens, profile) == Some((command.profile.timeout, command.profile.maxOutputTokens))
  }

  /** The command line only builds timeouts in whole seconds, and none below one: a shorter timeout
      can only come from another caller of the profile constructors. */
  lemma {:induction false} CommandLineIsWhole(command: Command)
    requires FromCommandLine(command)
    ensures WholeCommand(command) && (command.Setup? ==> command.profile.timeout >= NANOS)
  {
  }

  lemma PerformedIsWhole(accepts: Provider, command: Command, c: Snapshot)
    requires ValidSnapshot(accepts, c) && AllWhole(c.profiles) && PerformOn(accepts, command, c).Success?
    ensures WholeCommand(command) ==> AllWhole(PerformOn(accepts, command, c).value.profiles)
    ensures SubSecond(PerformOn(accepts, command, c).value.profiles) ==> command.Setup? && command.profile.timeout < NANOS
  {
    var performed := PerformOn(accepts, command, c).value.profiles;
    forall q | q in performed
      ensures q.timeout >= NANOS || (command.Setup? && q == command.profile)
      ensures WholeSeconds(q) || (command.Setup? && q == command.profile)
    {
      PerformedMembers(accepts, command, c, q);
      if q in c.profiles {
        WholeIsLong(accepts, c, q);
      } else if !(command.Setup? && q == command.profile) {
        var p :| p in c.profiles && q == p.(credentialRef := None);
        WholeIsLong(accepts, c, p);
      }
    }
  }

  lemma WholeIsLong(accepts: Provider, c: Snapshot, p: Profile)
    requires ValidSnapshot(accepts, c) && AllWhole(c.profiles) && p in c.profiles
    ensures WholeSeconds(p) && p.timeout >= NANOS
  {
    hide ValidName, ValidCredential;
    var i :| 0 <= i < |c.profiles| && c.profiles[i] == p;
    assert ValidProfile(accepts, c.profiles[i]);
  }

  /** A command whose timeout is in whole seconds saves a file that loads as its result. */
  lemma NextLoads(env: Env, command: Command, file: File)
    requires Lawful(env) && Next(env, command, file).Success? && WholeCommand(command)
    ensures
      var c := Load(env, file).value;
      var after := Load(env, Some(Next(env, command, file).value));
      && Load(env, file).Success? && ValidSnapshot(env.accepts, c)
      && after == PerformOn(env.accepts, command, c) && after.Success? && ValidSnapshot(env.accepts, after.value)
      && Meaning(env.accepts, command, CollectionOf(c)) == Success(CollectionOf(after.value))
  {
    LoadedIsWhole(env, file);
    var c := Load(env, file).value;
    PerformOnMeaning(env.accepts, command, c);
    PerformedIsWhole(env.accepts, command, c);
    var performed := PerformOn(env.accepts, command, c).value;
    hide ValidSnapshot, PerformOn, Meaning, WholeSeconds, IntoProfiles;
    assert ValidSnapshot(env.accepts, performed) by { AgreedIsValid(env.accepts, command, c); }
    RoundTripIffWholeSeconds(env.accepts, performed);
  }

  lemma AgreedIsValid(accepts: Provider, command: Command, c: Snapshot)
    requires ValidSnapshot(accepts, c) && PerformOn(accepts, command, c).Success?
    ensures ValidSnapshot(accepts, PerformOn(accepts, command, c).value)
    ensures Meaning(accepts, command, CollectionOf(c)) == Success(CollectionOf(PerformOn(accepts, command, c).value))
  {
    hide PerformOn, Meaning;
    PerformOnMeaning(accepts, command, c);
  }

  /** Setting up a profile leaves a readable file exactly when its timeout is at least one second.
      Otherwise every later command fails. */
  lemma {:induction false} SetupReadableIff(env: Env, p: Profile, file: File)
    requires Lawful(env) && Next(env, Setup(p), file).Success?
    ensures
      var after := Some(Next(env, Setup(p), file).value);
      && (Load(env, after).Success? <==> p.timeout >= NANOS)
      && (p.timeout < NANOS ==> forall command :: Next(env, command, after) == Failure(InvalidProfileFile))
  {
    hide ValidSnapshot, Meaning, PerformOn, WholeSeconds, SubSecond, IntoProfiles;
    LoadedIsWhole(env, file);
    var c := Load(env, file).value;
    PerformedIsWhole(env.accepts, Setup(p), c);
    AgreedIsValid(env.accepts, Setup(p), c);
    var performed := PerformOn(env.accepts, Setup(p), c).value;
    StoredRoundTrip(env.accepts, performed);
    SetupHolds(env.accepts, c, p);
    if p.timeout < NANOS {
      HeldIsShort(performed.profiles, p);
    }
  }

  lemma SetupHolds(accepts: Provider, c: Snapshot, p: Profile)
    requires ValidSnapshot(accepts, c) && PerformOn(accepts, Setup(p), c).Success?
    ensures p in PerformOn(accepts, Setup(p), c).value.profiles
  {
    hide ValidProfile, LexLe, Position, Replaced, Ordered;
    UpsertMeaning(c.profiles, p);
    var t := Replaced(c.profiles, p);
    assert p.name in MapOf(t) && MapOf(t)[p.name] == p;
    var i :| 0 <= i < |t| && t[i].name == p.name;
    assert MapOf(t)[t[i].name] == t[i];
  }

  lemma HeldIsShort(s: seq<Profile>, p: Profile)
    requires p in s && p.timeout < NANOS
    ensures SubSecond(s)
  {
  }

  /** The commands of the log, applied to the collection of the first file. */
  ghost function Fold(env: Env, jobs: seq<Job>, c: Collection, log: seq<Commit>): Result<Collection, ProfileError>
    requires LogNames(jobs, log)
  {
    if log == [] then Success(c)
    else
      var before := Fold(env, jobs, c, log[..|log| - 1]);
      if before.Failure? then before else Meaning(env.accepts, jobs[log[|log| - 1].who].command, before.value)
  }

  ghost predicate Says(env: Env, file: File, c: Collection) {
    && Load(env, file).Success? && ValidSnapshot(env.accepts, Load(env, file).value)
    && CollectionOf(Load(env, file).value) == c
  }

  lemma {:induction false} ReplayIsFold(env: Env, jobs: seq<Job>, first: File, c: Collection, log: seq<Commit>)
    requires Lawful(env) && LogNames(jobs, log) && forall i | 0 <= i < |jobs| :: WholeCommand(jobs[i].command)
    requires Says(env, first, c) && Replay(env, jobs, first, log).Success?
    ensures Fold(env, jobs, c, log).Success?
    ensures Says(env, Replay(env, jobs, first, log).value, Fold(env, jobs, c, log).value)
  {
    hide Lawful, Load, Meaning, WholeCommand, ValidSnapshot, Next;
    if log != [] {
      var before, last := log[..|log| - 1], log[|log| - 1];
      ReplayIsFold(env, jobs, first, c, before);
      NextLoads(env, jobs[last.who].command, Replay(env, jobs, first, before).value);
    }
  }

  /** In every run the stored collection is valid and is the result of the logged commands, in lock
      order, on the collection of the first file, when timeouts are in whole seconds. */
  lemma {:induction false} StoredIsFold(env: Env, jobs: seq<Job>, first: File, turns: seq<Turn>, s: State)
    requires Lawful(env) && Run(env, jobs, first, turns, s)
    requires Load(env, first).Success? && forall i | 0 <= i < |jobs| :: WholeCommand(jobs[i].command)
    ensures ValidSnapshot(env.accepts, Load(env, first).value) && LogNames(jobs, s.log)
    ensures Load(env, s.file).Success? && ValidSnapshot(env.accepts, Load(env, s.file).value)
    ensures Fold(env, jobs, CollectionOf(Load(env, first).value), s.log) == Success(CollectionOf(Load(env, s.file).value))
  {
    hide Lawful, Load, Meaning, WholeCommand, Next, Run, Says;
    hide NamesApart, Ordered, AllValid, Named;
    NoLostUpdates(env, jobs, first, turns, s);
    LoadedIsWhole(env, first);
    assert Says(env, first, CollectionOf(Load(env, first).value)) by { SaysItself(env, first); }
    ReplayIsFold(env, jobs, first, CollectionOf(Load(env, first).value), s.log);
    SaysMeans(env, s.file, Fold(env, jobs, CollectionOf(Load(env, first).value), s.log).value);
  }

  lemma SaysItself(env: Env, file: File)
    requires Load(env, file).Success? && ValidSnapshot(env.accepts, Load(env, file).value)
    ensures Says(env, file, CollectionOf(Load(env, file).value))
  {
    hide Load;
  }

  lemma SaysMeans(env: Env, file: File, c: Collection)
    requires Says(env, file, c)
    ensures Load(env, file).Success? && ValidSnapshot(env.accepts, Load(env, file).value)
    ensures CollectionOf(Load(env, file).value) == c
  {
    hide Load;
  }
}
