/** Consequences of the commit protocol: what a rename replaces, and how a re-run recovers. */
module CommitRecovery {
  import opened Limits
  import opened Wrappers
  import opened Utf8
  import opened AtomicCommit

  predicate HasInitial(p: Phase) {
    p.Creating? || p.Permitting? || p.Writing? || p.Reinspecting? || p.Renaming?
  }

  // ---- the commit is not a compare-and-swap ----

  /** What a committer has seen: the precondition held at its first look, and at its last look the
      target was what the log said then. */
  ghost predicate Looked(hash: Hash, jobs: seq<Job>, first: Directory, s: State, i: nat)
    requires i < |jobs| == |s.phases| && LogNames(jobs, s.log)
  {
    var p := s.phases[i];
    && (HasInitial(p) ==>
          && MeetsPrecondition(p.initial, jobs[i].expected)
          && !HasDigest(p.initial, hash(jobs[i].content)))
    && (p.Renaming? ==>
          && p.seen <= |s.log|
          && Inspect(hash, Lookup(Replay(jobs, first, s.log[..p.seen]), jobs[i].leaf)) == Success(p.initial))
  }

  ghost predicate AllLooked(hash: Hash, jobs: seq<Job>, first: Directory, s: State) {
    && |s.phases| == |jobs| && LogNames(jobs, s.log)
    && forall i | 0 <= i < |jobs| :: Looked(hash, jobs, first, s, i)
  }

  lemma MoverLooked(hash: Hash, jobs: seq<Job>, first: Directory, s: State, t: Turn)
    requires Allowed(jobs, s, t) && LogNames(jobs, s.log)
    requires Lookup(s.dir, jobs[t.who].leaf) == Lookup(Replay(jobs, first, s.log), jobs[t.who].leaf)
    requires Looked(hash, jobs, first, s, t.who)
    requires LogNames(jobs, Step(hash, jobs, s, t).log)
    ensures Looked(hash, jobs, first, Step(hash, jobs, s, t), t.who)
  {
    assert s.log[..|s.log|] == s.log;
    AdvanceLooks(hash, jobs[t.who], s.phases[t.who], s.dir, t.choice, |s.log|);
    hide Replay, Advance, MeetsPrecondition, HasDigest, Inspect;
  }

  /** Where a step gets its observation from. */
  lemma AdvanceLooks(hash: Hash, job: Job, phase: Phase, dir: Directory, c: Choice, seen: nat)
    ensures
      var m, observed := Advance(hash, job, phase, dir, c, seen), Inspect(hash, Lookup(dir, job.leaf));
      && (HasInitial(m.phase) ==>
            || (HasInitial(phase) && m.phase.initial == phase.initial)
            || (MeetsPrecondition(m.phase.initial, job.expected) && !HasDigest(m.phase.initial, hash(job.content))))
      && (m.phase.Renaming? ==>
            HasInitial(phase) && !m.renamed && m.phase.seen == seen && observed == Success(m.phase.initial))
  {
    hide Inspect, MeetsPrecondition, HasDigest, Lookup;
  }

  lemma OthersLooked(hash: Hash, jobs: seq<Job>, first: Directory, s: State, t: Turn, i: nat)
    requires Allowed(jobs, s, t) && LogNames(jobs, s.log) && i < |jobs| && i != t.who
    requires Looked(hash, jobs, first, s, i)
    requires LogNames(jobs, Step(hash, jobs, s, t).log)
    ensures Looked(hash, jobs, first, Step(hash, jobs, s, t), i)
  {
    var p := s.phases[i];
    if p.Renaming? {
      assert Step(hash, jobs, s, t).log[..p.seen] == s.log[..p.seen];
    }
  }

  lemma StepKeepsLooked(hash: Hash, jobs: seq<Job>, first: Directory, s: State, t: Turn)
    requires LeavesAreNotTemporaries(jobs) && Inv(jobs, first, s) && Allowed(jobs, s, t)
    requires AllLooked(hash, jobs, first, s)
    ensures AllLooked(hash, jobs, first, Step(hash, jobs, s, t))
  {
    var s' := Step(hash, jobs, s, t);
    StepKeepsInv(hash, jobs, first, s, t);
    assert Lookup(s.dir, jobs[t.who].leaf) == Lookup(Replay(jobs, first, s.log), jobs[t.who].leaf);
    hide Step, Inv;
    forall i | 0 <= i < |jobs|
      ensures Looked(hash, jobs, first, s', i)
    {
      assert Looked(hash, jobs, first, s, i);
      if i == t.who {
        MoverLooked(hash, jobs, first, s, t);
      } else {
        OthersLooked(hash, jobs, first, s, t, i);
      }
    }
  }

  lemma {:induction false} RunKeepsLooked(hash: Hash, jobs: seq<Job>, first: Directory, turns: seq<Turn>, s: State)
    requires LeavesAreNotTemporaries(jobs) && Run(hash, jobs, Start(first, |jobs|), turns, s)
    ensures AllLooked(hash, jobs, first, s)
    decreases |turns|
  {
    if turns != [] {
      var t, before := turns[|turns| - 1], turns[..|turns| - 1];
      var p :| Run(hash, jobs, Start(first, |jobs|), before, p) && Stepped(hash, jobs, p, t, s);
      RunKeepsLooked(hash, jobs, first, before, p);
      RunKeepsInv(hash, jobs, first, before, p);
      StepKeepsLooked(hash, jobs, first, p, t);
    }
  }

  ghost predicate Untouched(jobs: seq<Job>, log: seq<Commit>, n: Name, from: nat)
    requires LogNames(jobs, log)
  {
    forall k | from <= k < |log| :: jobs[log[k].who].leaf != n
  }

  lemma ReplayLast(jobs: seq<Job>, dir: Directory, log: seq<Commit>, n: Name)
    requires LogNames(jobs, log) && log != []
    ensures
      var last, rest := log[|log| - 1], log[..|log| - 1];
      Lookup(Replay(jobs, dir, log), n) ==
        if jobs[last.who].leaf == n then Some(Regular(jobs[last.who].content, last.permissions))
        else Lookup(Replay(jobs, dir, rest), n)
  {
  }

  /** Commit `k` is the last one on `n`, and `node` is what it left. */
  ghost predicate LastOn(jobs: seq<Job>, log: seq<Commit>, n: Name, k: nat, node: Option<Node>)
    requires LogNames(jobs, log)
  {
    && k < |log| && jobs[log[k].who].leaf == n && Untouched(jobs, log, n, k + 1)
    && node == Some(Regular(jobs[log[k].who].content, log[k].permissions))
  }

  lemma {:induction false} ReplaySince(jobs: seq<Job>, dir: Directory, log: seq<Commit>, n: Name, from: nat)
    requires LogNames(jobs, log) && from <= |log|
    ensures LogNames(jobs, log[..from])
    ensures Untouched(jobs, log, n, from) ==>
      Lookup(Replay(jobs, dir, log), n) == Lookup(Replay(jobs, dir, log[..from]), n)
    ensures !Untouched(jobs, log, n, from) ==>
      exists k | from <= k < |log| :: LastOn(jobs, log, n, k, Lookup(Replay(jobs, dir, log), n))
  {
    if from == |log| {
      assert log[..from] == log;
    } else {
      var rest, last := log[..|log| - 1], |log| - 1;
      ReplaySince(jobs, dir, rest, n, from);
      assert rest[..from] == log[..from];
      ReplayLast(jobs, dir, log, n);
      hide Replay, Lookup;
      if jobs[log[last].who].leaf == n {
        assert LastOn(jobs, log, n, last, Lookup(Replay(jobs, dir, log), n));
      } else if !Untouched(jobs, rest, n, from) {
        var k :| from <= k < |rest| && LastOn(jobs, rest, n, k, Lookup(Replay(jobs, dir, rest), n));
        assert LastOn(jobs, log, n, k, Lookup(Replay(jobs, dir, log), n));
      }
    }
  }

  /** What a committer about to rename will replace. If no rename on its target fell between its
      second look and now, that is what it expects: nothing if it expects no target, else a file whose
      content has the expected digest. Otherwise it is the content of the last such rename, whatever it
      expected. */
  lemma WhatARenameReplaces(hash: Hash, jobs: seq<Job>, first: Directory, turns: seq<Turn>, s: State, i: nat)
    requires LeavesAreNotTemporaries(jobs) && Run(hash, jobs, Start(first, |jobs|), turns, s)
    requires i < |jobs| == |s.phases| && s.phases[i].Renaming?
    ensures
      var p, leaf := s.phases[i], jobs[i].leaf;
      && LogNames(jobs, s.log) && p.seen <= |s.log|
      && (Untouched(jobs, s.log, leaf, p.seen) ==> Expects(hash, s.dir, jobs[i]) && !Already(hash, s.dir, jobs[i]))
      && (!Untouched(jobs, s.log, leaf, p.seen) ==>
            exists k | p.seen <= k < |s.log| :: LastOn(jobs, s.log, leaf, k, Lookup(s.dir, leaf)))
  {
    RunKeepsInv(hash, jobs, first, turns, s);
    RunKeepsLooked(hash, jobs, first, turns, s);
    assert Looked(hash, jobs, first, s, i);
    ReplaySince(jobs, first, s.log, jobs[i].leaf, s.phases[i].seen);
    InspectMeans(hash, s.dir, jobs[i]);
  }

  lemma RunStep(hash: Hash, jobs: seq<Job>, first: State, turns: seq<Turn>, s: State, t: Turn)
    requires Run(hash, jobs, first, turns, s) && Allowed(jobs, s, t)
    ensures Run(hash, jobs, first, turns + [t], Step(hash, jobs, s, t))
  {
    assert (turns + [t])[..|turns|] == turns;
    assert Stepped(hash, jobs, s, t, Step(hash, jobs, s, t));
  }

  function Smooth(name: Name, count: nat): Choice {
    Choice(false, name, count, false)
  }

  ghost function With(s: State, i: nat, dir: Directory, phase: Phase): State
    requires i < |s.phases|
  {
    State(dir, s.phases[i := phase], s.log)
  }

  /** The undisturbed steps up to the creation of the temporary. */
  lemma SmoothLook(hash: Hash, jobs: seq<Job>, s: State, i: nat, c: Choice)
    requires |s.phases| == |jobs| && i < |jobs| && !c.fails && Inspect(hash, Lookup(s.dir, jobs[i].leaf)).Success?
    ensures s.phases[i] == Opening ==> Step(hash, jobs, s, Turn(i, c)) == With(s, i, s.dir, Inspecting)
    ensures
      var o := Inspect(hash, Lookup(s.dir, jobs[i].leaf)).value;
      s.phases[i] == Inspecting && MeetsPrecondition(o, jobs[i].expected) && !HasDigest(o, hash(jobs[i].content)) ==>
        Step(hash, jobs, s, Turn(i, c)) == With(s, i, s.dir, Creating(o, 0))
  {
  }

  lemma SmoothCreate(hash: Hash, jobs: seq<Job>, s: State, i: nat, c: Choice)
    requires |s.phases| == |jobs| && i < |jobs| && !c.fails && s.phases[i].Creating? && c.name !in s.dir
    ensures
      var o := s.phases[i].initial;
      Step(hash, jobs, s, Turn(i, c)) ==
        With(s, i, s.dir[c.name := Regular([], DEFAULT_PERMISSIONS)],
             if o.Some? then Permitting(o, c.name) else Writing(o, c.name))
  {
  }

  lemma SmoothFill(hash: Hash, jobs: seq<Job>, s: State, i: nat, c: Choice)
    requires |s.phases| == |jobs| && i < |jobs| && !c.fails
    requires Held(s.phases[i]).Some? && s.phases[i].temp in s.dir && s.dir[s.phases[i].temp].Regular?
    ensures s.phases[i].Permitting? && s.phases[i].initial.Some? ==>
      var p := s.phases[i];
      Step(hash, jobs, s, Turn(i, c)) ==
        With(s, i, s.dir[p.temp := s.dir[p.temp].(permissions := p.initial.value.permissions)], Writing(p.initial, p.temp))
    ensures s.phases[i].Writing? && s.dir[s.phases[i].temp].content == [] && c.count >= |jobs[i].content| > 0 ==>
      var p := s.phases[i];
      Step(hash, jobs, s, Turn(i, c)) ==
        With(s, i, s.dir[p.temp := s.dir[p.temp].(content := jobs[i].content)], p)
    ensures s.phases[i].Writing? && s.dir[s.phases[i].temp].content == jobs[i].content ==>
      var p := s.phases[i];
      Step(hash, jobs, s, Turn(i, c)) == With(s, i, s.dir, Reinspecting(p.initial, p.temp))
  {
  }

  lemma SmoothRelook(hash: Hash, jobs: seq<Job>, s: State, i: nat, c: Choice)
    requires |s.phases| == |jobs| && i < |jobs| && !c.fails && s.phases[i].Reinspecting?
    requires Inspect(hash, Lookup(s.dir, jobs[i].leaf)) == Success(s.phases[i].initial)
    requires !HasDigest(s.phases[i].initial, hash(jobs[i].content))
    ensures
      var p := s.phases[i];
      Step(hash, jobs, s, Turn(i, c)) == With(s, i, s.dir, Renaming(p.initial, p.temp, |s.log|))
  {
  }

  function Permissions(o: Option<Observation>): nat {
    if o.Some? then o.value.permissions else DEFAULT_PERMISSIONS
  }

  /** The committer may start, will find work to do, and can have `temp`. */
  ghost predicate CanProceed(hash: Hash, jobs: seq<Job>, s: State, i: nat, temp: Name, o: Option<Observation>) {
    && |s.phases| == |jobs| && i < |jobs| && s.phases[i] == Opening
    && IsTemporaryName(temp) && temp !in s.dir && temp != jobs[i].leaf
    && (forall j | 0 <= j < |jobs| :: Held(s.phases[j]) != Some(temp))
    && Inspect(hash, Lookup(s.dir, jobs[i].leaf)) == Success(o)
    && MeetsPrecondition(o, jobs[i].expected) && !HasDigest(o, hash(jobs[i].content))
  }

  lemma ReachWriting(
    hash: Hash, jobs: seq<Job>, first: State, turns: seq<Turn>, s: State, i: nat, temp: Name, o: Option<Observation>)
    returns (turns': seq<Turn>, s': State)
    requires Run(hash, jobs, first, turns, s) && CanProceed(hash, jobs, s, i, temp, o)
    ensures Run(hash, jobs, first, turns', s')
    ensures s' == With(s, i, s.dir[temp := Regular([], Permissions(o))], Writing(o, temp))
  {
    hide Step, Run, Inspect, MeetsPrecondition, HasDigest;
    var go := Turn(i, Smooth(temp, 0));
    SmoothLook(hash, jobs, s, i, go.choice);
    RunStep(hash, jobs, first, turns, s, go);
    var s1 := With(s, i, s.dir, Inspecting);
    SmoothLook(hash, jobs, s1, i, go.choice);
    RunStep(hash, jobs, first, turns + [go], s1, go);
    var s2 := With(s, i, s.dir, Creating(o, 0));
    assert Step(hash, jobs, s1, go) == s2;
    SmoothCreate(hash, jobs, s2, i, go.choice);
    RunStep(hash, jobs, first, turns + [go] + [go], s2, go);
    turns', s' := turns + [go] + [go] + [go], Step(hash, jobs, s2, go);
    if o.Some? {
      SmoothFill(hash, jobs, s', i, go.choice);
      RunStep(hash, jobs, first, turns', s', go);
      turns', s' := turns' + [go], Step(hash, jobs, s', go);
    }
  }

  lemma WriteOut(hash: Hash, jobs: seq<Job>, first: State, turns: seq<Turn>, s: State, i: nat, dir: Directory)
    returns (turns': seq<Turn>, s': State)
    requires Run(hash, jobs, first, turns, s) && |s.phases| == |jobs| && i < |jobs| && s.phases[i].Writing?
    requires var p := s.phases[i]; exists permissions :: s.dir == dir[p.temp := Regular([], permissions)]
    ensures Run(hash, jobs, first, turns', s')
    ensures
      var p := s.phases[i];
      p.temp in s.dir && s.dir[p.temp].Regular?
      && s' == With(s, i, dir[p.temp := s.dir[p.temp].(content := jobs[i].content)], Reinspecting(p.initial, p.temp))
  {
    hide Step, Run;
    turns', s' := turns, s;
    var go := Turn(i, Smooth([], |jobs[i].content|));
    if jobs[i].content != [] {
      SmoothFill(hash, jobs, s', i, go.choice);
      RunStep(hash, jobs, first, turns', s', go);
      turns', s' := turns' + [go], Step(hash, jobs, s', go);
    }
    SmoothFill(hash, jobs, s', i, go.choice);
    RunStep(hash, jobs, first, turns', s', go);
    turns', s' := turns' + [go], Step(hash, jobs, s', go);
  }

  /** A committer left alone for a while gets to its rename. */
  lemma ReachRenaming(
    hash: Hash, jobs: seq<Job>, first: State, turns: seq<Turn>, s: State, i: nat, temp: Name, o: Option<Observation>)
    returns (turns': seq<Turn>, s': State)
    requires Run(hash, jobs, first, turns, s) && CanProceed(hash, jobs, s, i, temp, o)
    ensures Run(hash, jobs, first, turns', s')
    ensures s' == With(s, i, s.dir[temp := Regular(jobs[i].content, Permissions(o))], Renaming(o, temp, |s.log|))
  {
    var t1, s1 := ReachWriting(hash, jobs, first, turns, s, i, temp, o);
    hide Step, Run, Inspect, MeetsPrecondition, HasDigest;
    var t2, s2 := WriteOut(hash, jobs, first, t1, s1, i, s.dir);
    var go := Turn(i, Smooth([], 0));
    SmoothRelook(hash, jobs, s2, i, go.choice);
    RunStep(hash, jobs, first, t2, s2, go);
    turns', s' := t2 + [go], Step(hash, jobs, s2, go);
  }

  lemma SmoothFinish(hash: Hash, jobs: seq<Job>, s: State, i: nat, c: Choice)
    requires |s.phases| == |jobs| && i < |jobs| && !c.fails
    ensures s.phases[i].Renaming? && s.phases[i].temp in s.dir ==>
      var s' := Step(hash, jobs, s, Turn(i, c));
      s'.dir == Rename(s.dir, s.phases[i].temp, jobs[i].leaf) && s'.phases == s.phases[i := Syncing]
    ensures s.phases[i].Syncing? ==> Step(hash, jobs, s, Turn(i, c)) == With(s, i, s.dir, Verifying)
    ensures (s.phases[i].Verifying? && Lookup(s.dir, jobs[i].leaf).Some? && s.dir[jobs[i].leaf].Regular?
             && s.dir[jobs[i].leaf].content == jobs[i].content && |jobs[i].content| <= MAX_ATOMIC_TEXT_BYTES) ==>
      Step(hash, jobs, s, Turn(i, c)) == With(s, i, s.dir, Done(Success(true)))
  {
  }

  /** From its rename on, a committer left alone ends in `Ok(true)`. */
  lemma FinishRenaming(hash: Hash, jobs: seq<Job>, first: State, turns: seq<Turn>, s: State, i: nat)
    returns (turns': seq<Turn>, s': State)
    requires Run(hash, jobs, first, turns, s) && |s.phases| == |jobs| && i < |jobs| && s.phases[i].Renaming?
    requires s.phases[i].temp in s.dir && s.dir[s.phases[i].temp].Regular?
    requires s.dir[s.phases[i].temp].content == jobs[i].content && |jobs[i].content| <= MAX_ATOMIC_TEXT_BYTES
    ensures Run(hash, jobs, first, turns', s')
    ensures s'.dir == Rename(s.dir, s.phases[i].temp, jobs[i].leaf)
    ensures s'.phases == s.phases[i := Done(Success(true))]
  {
    hide Step, Run;
    var c := Smooth([], 0);
    var go := Turn(i, c);
    SmoothFinish(hash, jobs, s, i, c);
    RunStep(hash, jobs, first, turns, s, go);
    s' := Step(hash, jobs, s, go);
    SmoothFinish(hash, jobs, s', i, c);
    RunStep(hash, jobs, first, turns + [go], s', go);
    s' := Step(hash, jobs, s', go);
    SmoothFinish(hash, jobs, s', i, c);
    RunStep(hash, jobs, first, turns + [go] + [go], s', go);
    s' := Step(hash, jobs, s', go);
    turns' := turns + [go] + [go] + [go];
  }

  /** For any two distinct replacements of the same content there is a run in which both committers
      expected that content and both report success: the first update is lost. */
  lemma NotCompareAndSwap(hash: Hash, leaf: Name, was: Bytes, a: Bytes, b: Bytes, ta: Name, tb: Name)
    requires Injective(hash) && |was| <= MAX_ATOMIC_TEXT_BYTES
    requires |a| <= MAX_ATOMIC_TEXT_BYTES && |b| <= MAX_ATOMIC_TEXT_BYTES && was != a && was != b
    requires !IsTemporaryName(leaf) && IsTemporaryName(ta) && IsTemporaryName(tb) && ta != tb
    ensures
      var jobs := [Job(leaf, a, Some(hash(was))), Job(leaf, b, Some(hash(was)))];
      var first := map[leaf := Regular(was, 0)];
      exists turns, s :: Run(hash, jobs, Start(first, 2), turns, s)
        && s.phases == [Done(Success(true)), Done(Success(true))]
        && Lookup(s.dir, leaf) == Some(Regular(b, 0))
  {
    var jobs := [Job(leaf, a, Some(hash(was))), Job(leaf, b, Some(hash(was)))];
    var start := Start(map[leaf := Regular(was, 0)], 2);
    assert Run(hash, jobs, start, [], start);
    var o := Some(Observation(hash(was), 0));
    var t1, s1 := ReachRenaming(hash, jobs, start, [], start, 0, ta, o);
    var t2, s2 := ReachRenaming(hash, jobs, start, t1, s1, 1, tb, o);
    var t3, s3 := FinishRenaming(hash, jobs, start, t2, s2, 0);
    var t4, s4 := FinishRenaming(hash, jobs, start, t3, s3, 1);
    assert s4.phases == [Done(Success(true)), Done(Success(true))];
  }

  /** The temporary of a committer whose `set_permissions` fails stays for good: there is such a run from
      any directory in which it has an existing target to replace and a free temporary name. */
  lemma {:induction false} OrphanWitness(hash: Hash, job: Job, first: Directory, temp: Name)
    returns (turns: seq<Turn>, s: State)
    requires job.leaf in first && Expects(hash, first, job) && !Already(hash, first, job)
    requires IsTemporaryName(temp) && temp !in first && job.leaf != temp
    ensures Run(hash, [job], Start(first, 1), turns, s) && s.phases == [Done(Failure(WriteTemporary))]
    ensures temp in s.dir && Lookup(s.dir, job.leaf) == Lookup(first, job.leaf)
    ensures LeftBehind(hash, [job], Start(first, 1), turns, temp)
  {
    var jobs, start := [job], Start(first, 1);
    assert Run(hash, jobs, start, [], start);
    InspectMeans(hash, first, job);
    assert CanInspect(first, job.leaf);
    var o := Inspect(hash, Lookup(first, job.leaf)).value;
    hide Run, Step, Leaves, LeavesAt, LeftBehind, IsTemporaryName, MeetsPrecondition, HasDigest, Inspect;
    var go, fail := Turn(0, Smooth(temp, 0)), Turn(0, Choice(true, temp, 0, false));
    LookSteps(hash, jobs, start, go.choice, o);
    var s1, s2 := With(start, 0, first, Inspecting), With(start, 0, first, Creating(o, 0));
    RunStep(hash, jobs, start, [], start, go);
    RunStep(hash, jobs, start, [] + [go], s1, go);
    SmoothCreate(hash, jobs, s2, 0, go.choice);
    RunStep(hash, jobs, start, [] + [go] + [go], s2, go);
    turns := [] + [go] + [go] + [go];
    var s3 := Step(hash, jobs, s2, go);
    PermittingFails(hash, jobs, s3, fail);
    RunStep(hash, jobs, start, turns, s3, fail);
    LeavesLast(hash, jobs, start, turns, s3, fail, temp);
    turns, s := turns + [fail], Step(hash, jobs, s3, fail);
  }

  lemma PermittingFails(hash: Hash, jobs: seq<Job>, s: State, t: Turn)
    requires |jobs| == 1 == |s.phases| && t.who == 0 && s.phases[0].Permitting? && t.choice.fails
    ensures Allowed(jobs, s, t) && Leaves(s, t, s.phases[0].temp)
    ensures Step(hash, jobs, s, t).phases == [Done(Failure(WriteTemporary))] && Step(hash, jobs, s, t).dir == s.dir
  {
  }

  lemma LeavesLast(hash: Hash, jobs: seq<Job>, start: State, turns: seq<Turn>, s: State, t: Turn, n: Name)
    requires Run(hash, jobs, start, turns, s) && Leaves(s, t, n)
    ensures LeftBehind(hash, jobs, start, turns + [t], n)
  {
    hide Run, Leaves;
    assert (turns + [t])[..|turns|] == turns && (turns + [t])[|turns|] == t;
    assert LeavesAt(hash, jobs, start, turns + [t], |turns|, n);
  }

  lemma LookSteps(hash: Hash, jobs: seq<Job>, start: State, c: Choice, o: Option<Observation>)
    requires |jobs| == 1 && start.phases == [Opening] && !c.fails
    requires Inspect(hash, Lookup(start.dir, jobs[0].leaf)) == Success(o)
    requires MeetsPrecondition(o, jobs[0].expected) && !HasDigest(o, hash(jobs[0].content))
    ensures Step(hash, jobs, start, Turn(0, c)) == With(start, 0, start.dir, Inspecting)
    ensures Step(hash, jobs, With(start, 0, start.dir, Inspecting), Turn(0, c)) ==
            With(start, 0, start.dir, Creating(o, 0))
  {
    hide Step, Inspect, MeetsPrecondition, HasDigest;
    SmoothLook(hash, jobs, start, 0, c);
    SmoothLook(hash, jobs, With(start, 0, start.dir, Inspecting), 0, c);
  }

  // ---- recovery ----

  ghost predicate FaultFree(turns: seq<Turn>) {
    forall t | t in turns :: !t.choice.fails
  }

  /** A single committer, seen against the target it started from; `clean` when no call failed. */
  ghost predicate Alone(hash: Hash, job: Job, o: Option<Observation>, s: State, clean: bool) {
    && |s.phases| == 1
    && var p := s.phases[0];
    && (p.Opening? || p.Inspecting? || HasInitial(p) ==> s.log == [])
    && (HasInitial(p) ==>
          p.initial == o && MeetsPrecondition(o, job.expected) && !HasDigest(o, hash(job.content)))
    && (s.log != [] ==> MeetsPrecondition(o, job.expected) && !HasDigest(o, hash(job.content)))
    && (p == Done(Success(false)) ==> HasDigest(o, hash(job.content)))
    && (p.Removing? ==> p.outcome != Success(false))
    && (clean ==>
          && !p.Removing?
          && (p.Done? && p.outcome.Failure? ==>
                || p.outcome.error.CreateTemporary?
                || (p.outcome.error.Conflict? && !MeetsPrecondition(o, job.expected)
                    && !HasDigest(o, hash(job.content)))))
  }

  /** What one step of a lone committer may see and report. */
  ghost predicate MoveOk(hash: Hash, job: Job, o: Option<Observation>, p: Phase, q: Phase, renamed: bool, clean: bool) {
    && (renamed ==> p.Renaming? && !HasInitial(q) && !q.Opening? && !q.Inspecting?)
    && (q.Opening? || q.Inspecting? ==> p.Opening? || p.Inspecting?)
    && (HasInitial(q) ==>
          || (HasInitial(p) && q.initial == p.initial)
          || (p.Inspecting? && q.initial == o && MeetsPrecondition(o, job.expected) && !HasDigest(o, hash(job.content))))
    && (q == Done(Success(false)) ==>
          || p == q || (p.Inspecting? && HasDigest(o, hash(job.content))) || (p.Removing? && p.outcome == Success(false)))
    && (q.Removing? && q.outcome == Success(false) ==> p.Removing? && p.outcome == q.outcome)
    && (clean && q.Removing? ==> p.Removing?)
    && (clean && q.Done? && q.outcome.Failure? ==>
          || p == q || p.Removing? || q.outcome.error.CreateTemporary?
          || (q.outcome.error.Conflict? && !MeetsPrecondition(o, job.expected) && !HasDigest(o, hash(job.content))))
  }

  /** A lone committer looks at the target it started from until it renames, and at its own content
      afterwards. */
  lemma LoneMove(hash: Hash, job: Job, o: Option<Observation>, p: Phase, dir: Directory, c: Choice, seen: nat, clean: bool)
    requires TempOk(job, p, dir) && (clean ==> !c.fails) && (HasInitial(p) ==> p.initial == o)
    requires HasInitial(p) ==> !HasDigest(o, hash(job.content))
    requires HasInitial(p) || p.Opening? || p.Inspecting? ==> Inspect(hash, Lookup(dir, job.leaf)) == Success(o)
    requires clean && (p.Syncing? || p.Verifying?) ==>
      exists permissions :: Inspect(hash, Lookup(dir, job.leaf)) == Success(Some(Observation(hash(job.content), permissions)))
    ensures
      var m := Advance(hash, job, p, dir, c, seen);
      MoveOk(hash, job, o, p, m.phase, m.renamed, clean)
  {
    hide Inspect, MeetsPrecondition, Lookup, IsTemporaryName;
  }

  lemma StepKeepsAlone(hash: Hash, job: Job, first: Directory, o: Option<Observation>, s: State, t: Turn, clean: bool)
    requires !IsTemporaryName(job.leaf) && (clean ==> |job.content| <= MAX_ATOMIC_TEXT_BYTES)
    requires Inspect(hash, Lookup(first, job.leaf)) == Success(o)
    requires Inv([job], first, s) && Allowed([job], s, t) && (clean ==> !t.choice.fails)
    requires Alone(hash, job, o, s, clean)
    ensures Alone(hash, job, o, Step(hash, [job], s, t), clean)
  {
    var p := s.phases[0];
    LoneTarget(hash, job, first, o, s);
    assert [job][0] == job && TempOk([job][0], p, s.dir);
    hide Inv, Inspect, MeetsPrecondition, HasDigest, TempOk, Lookup, IsTemporaryName;
    LoneMove(hash, job, o, p, s.dir, t.choice, |s.log|, clean);
    hide Advance;
  }

  /** The target as a lone committer sees it. */
  lemma LoneTarget(hash: Hash, job: Job, first: Directory, o: Option<Observation>, s: State)
    requires !IsTemporaryName(job.leaf)
    requires Inspect(hash, Lookup(first, job.leaf)) == Success(o) && Inv([job], first, s) && |s.phases| == 1
    ensures s.log == [] ==> Inspect(hash, Lookup(s.dir, job.leaf)) == Success(o)
    ensures s.log != [] && |job.content| <= MAX_ATOMIC_TEXT_BYTES ==> exists permissions ::
      Inspect(hash, Lookup(s.dir, job.leaf)) == Success(Some(Observation(hash(job.content), permissions)))
    ensures s.phases[0].Syncing? || s.phases[0].Verifying? ==> s.log != []
  {
    assert Lookup(s.dir, job.leaf) == Lookup(Replay([job], first, s.log), job.leaf);
    if s.log != [] {
      LogHasOne(job, first, s);
      var mine := Some(Observation(hash(job.content), s.log[0].permissions));
      assert |job.content| <= MAX_ATOMIC_TEXT_BYTES ==> Inspect(hash, Lookup(s.dir, job.leaf)) == Success(mine);
    }
    assert MustHaveRenamed(s.phases[0]) ==> InLog(s.log, 0);
  }

  /** A single committer renames at most once, so the log holds at most its own entry. */
  lemma LogHasOne(job: Job, first: Directory, s: State)
    requires Inv([job], first, s) && s.log != []
    ensures s.log == [Commit(0, s.log[0].permissions)]
    ensures Lookup(Replay([job], first, s.log), job.leaf) == Some(Regular(job.content, s.log[0].permissions))
  {
    assert s.log[0] in s.log;
    assert s.log[|s.log| - 1] in s.log;
  }

  lemma {:induction false} RunKeepsAlone(
    hash: Hash, job: Job, first: Directory, o: Option<Observation>, turns: seq<Turn>, s: State, clean: bool)
    requires !IsTemporaryName(job.leaf) && (clean ==> |job.content| <= MAX_ATOMIC_TEXT_BYTES)
    requires Inspect(hash, Lookup(first, job.leaf)) == Success(o)
    requires Run(hash, [job], Start(first, 1), turns, s) && (clean ==> FaultFree(turns))
    ensures Inv([job], first, s) && Alone(hash, job, o, s, clean)
    decreases |turns|
  {
    RunKeepsInv(hash, [job], first, turns, s);
    if turns != [] {
      var t, before := turns[|turns| - 1], turns[..|turns| - 1];
      var p :| Run(hash, [job], Start(first, 1), before, p) && Stepped(hash, [job], p, t, s);
      RunKeepsAlone(hash, job, first, o, before, p, clean);
      StepKeepsAlone(hash, job, first, o, p, t, clean);
    }
  }

  /** The target of a lone committer: untouched until it renames, its content afterwards. It renames only
      when the target was as expected and not yet as desired, and when nothing fails that alone decides
      what it reports, once it has a temporary. */
  ghost predicate LoneOutcome(hash: Hash, job: Job, first: Directory, s: State, clean: bool) {
    var was, p := Lookup(first, job.leaf), s.phases;
    && |p| == 1
    && (s.log == [] ==> Lookup(s.dir, job.leaf) == was)
    && (s.log != [] ==>
          && Expects(hash, first, job) && !Already(hash, first, job)
          && Lookup(s.dir, job.leaf) == Some(Regular(job.content, s.log[0].permissions)))
    && (p[0] == Done(Success(true)) ==> s.log != [])
    && (p[0] == Done(Success(false)) ==> s.log == [] && Already(hash, first, job))
    && (p[0] == Done(Failure(Conflict)) ==> s.log == [])
    && (clean && p[0].Done? && p[0].outcome != Failure(CreateTemporary) ==>
          p[0].outcome == if Already(hash, first, job) then Success(false)
                          else if Expects(hash, first, job) then Success(true)
                          else Failure(Conflict))
  }

  lemma AloneMeans(hash: Hash, job: Job, first: Directory, o: Option<Observation>, s: State, clean: bool)
    requires !IsTemporaryName(job.leaf) && Inv([job], first, s) && Alone(hash, job, o, s, clean)
    requires Inspect(hash, Lookup(first, job.leaf)) == Success(o)
    ensures LoneOutcome(hash, job, first, s, clean)
  {
    InspectMeans(hash, first, job);
    assert Lookup(s.dir, job.leaf) == Lookup(Replay([job], first, s.log), job.leaf);
    if s.log != [] {
      LogHasOne(job, first, s);
      assert s.log[0].who == 0;
    }
    assert InLog(s.log, 0) ==> MayHaveRenamed(s.phases[0]);
    assert MustHaveRenamed(s.phases[0]) ==> InLog(s.log, 0);
    hide Expects, Already, MeetsPrecondition, HasDigest, Inspect;
    var p := s.phases[0];
    if clean && p.Done? {
      match p.outcome {
        case Success(changed) =>
          assert p == Done(Success(changed)) && p.outcome == Success(changed);
        case Failure(e) =>
          assert e == CreateTemporary || e == Conflict;
          assert p.outcome == Failure(e);
      }
    }
  }

  lemma {:induction false} AloneTarget(hash: Hash, job: Job, first: Directory, turns: seq<Turn>, s: State, clean: bool)
    requires !IsTemporaryName(job.leaf) && (clean ==> |job.content| <= MAX_ATOMIC_TEXT_BYTES)
    requires CanInspect(first, job.leaf)
    requires Run(hash, [job], Start(first, 1), turns, s) && (clean ==> FaultFree(turns))
    ensures LoneOutcome(hash, job, first, s, clean)
  {
    InspectMeans(hash, first, job);
    var o := Inspect(hash, Lookup(first, job.leaf)).value;
    RunKeepsAlone(hash, job, first, o, turns, s, clean);
    AloneMeans(hash, job, first, o, s, clean);
  }

  // ---- every commit ends ----

  /** The most steps a committer in this phase can still take. */
  function StepsLeft(job: Job, p: Phase, dir: Directory): nat {
    match p
    case Opening => 17 + |job.content|
    case Inspecting => 16 + |job.content|
    case Creating(_, attempts) =>
      7 + |job.content| + (if attempts < TEMP_CREATE_ATTEMPTS then TEMP_CREATE_ATTEMPTS - attempts else 0)
    case Permitting(_, _) => 6 + |job.content|
    case Writing(_, temp) =>
      var written := if temp in dir && dir[temp].Regular? then |dir[temp].content| else 0;
      5 + (if written < |job.content| then |job.content| - written else 0)
    case Reinspecting(_, _) => 4
    case Renaming(_, _, _) => 3
    case Removing(_, _) => 1
    case Syncing => 2
    case Verifying => 1
    case Done(_) => 0
  }

  function TurnsOf(turns: seq<Turn>, i: nat): nat {
    if turns == [] then 0
    else TurnsOf(turns[..|turns| - 1], i) + if turns[|turns| - 1].who == i then 1 else 0
  }

  lemma MoverProgresses(hash: Hash, job: Job, p: Phase, dir: Directory, c: Choice, seen: nat)
    requires TempOk(job, p, dir) && !p.Done?
    ensures var m := Advance(hash, job, p, dir, c, seen); StepsLeft(job, m.phase, m.dir) < StepsLeft(job, p, dir)
  {
    hide Inspect, MeetsPrecondition, HasDigest, Lookup, IsTemporaryName;
  }

  lemma OthersDoNotDelay(hash: Hash, jobs: seq<Job>, s: State, t: Turn, i: nat)
    requires LeavesAreNotTemporaries(jobs) && TempsOk(jobs, s) && TempsApart(s) && Allowed(jobs, s, t)
    requires i < |jobs| && i != t.who
    ensures StepsLeft(jobs[i], s.phases[i], Step(hash, jobs, s, t).dir) == StepsLeft(jobs[i], s.phases[i], s.dir)
  {
    hide Advance, IsTemporaryName;
    if Held(s.phases[i]).Some? {
      assert TempOk(jobs[i], s.phases[i], s.dir);
      AdvanceFrame(hash, jobs[t.who], s.phases[t.who], s.dir, t.choice, |s.log|, s.phases[i].temp);
    }
  }

  lemma {:induction false} StepsBounded(hash: Hash, jobs: seq<Job>, first: Directory, turns: seq<Turn>, s: State, i: nat)
    requires LeavesAreNotTemporaries(jobs) && Run(hash, jobs, Start(first, |jobs|), turns, s) && i < |jobs|
    ensures |s.phases| == |jobs|
    ensures s.phases[i].Done? || TurnsOf(turns, i) + StepsLeft(jobs[i], s.phases[i], s.dir) <= 17 + |jobs[i].content|
    decreases |turns|
  {
    if turns != [] {
      var t, before := turns[|turns| - 1], turns[..|turns| - 1];
      var p :| Run(hash, jobs, Start(first, |jobs|), before, p) && Stepped(hash, jobs, p, t, s);
      StepsBounded(hash, jobs, first, before, p, i);
      RunKeepsInv(hash, jobs, first, before, p);
      hide Run, LeavesFollowLog, LogHonest, TempOk, StepsLeft, IsTemporaryName;
      if i == t.who {
        assert TempOk(jobs[i], p.phases[i], p.dir);
        if p.phases[i].Done? {
          DoneStays(hash, jobs[i], p.phases[i], p.dir, t.choice, |p.log|);
        } else {
          MoverProgresses(hash, jobs[i], p.phases[i], p.dir, t.choice, |p.log|);
        }
      } else {
        OthersDoNotDelay(hash, jobs, p, t, i);
      }
      hide Advance;
    }
  }

  lemma DoneStays(hash: Hash, job: Job, p: Phase, dir: Directory, c: Choice, seen: nat)
    requires p.Done?
    ensures Advance(hash, job, p, dir, c, seen).phase == p
  {
  }

  /** Whatever the others do and whatever fails, a committer is done after so many turns of its own. */
  lemma {:induction false} EveryCommitEnds(hash: Hash, jobs: seq<Job>, first: Directory, turns: seq<Turn>, s: State, i: nat)
    requires LeavesAreNotTemporaries(jobs) && Run(hash, jobs, Start(first, |jobs|), turns, s) && i < |jobs|
    requires TurnsOf(turns, i) >= 17 + |jobs[i].content|
    ensures |s.phases| == |jobs| && s.phases[i].Done?
  {
    hide Run, StepsLeft;
    StepsBounded(hash, jobs, first, turns, s, i);
    NotDoneLeft(jobs[i], s.phases[i], s.dir);
  }

  lemma NotDoneLeft(job: Job, p: Phase, dir: Directory)
    ensures p.Done? || StepsLeft(job, p, dir) > 0
  {
  }

  // ---- the draws of a lone committer ----

  /** The committer has something to write: the target is as expected and not yet as desired. */
  predicate NeedsWork(hash: Hash, job: Job, dir: Directory) {
    Expects(hash, dir, job) && !Already(hash, dir, job)
  }

  /** Among the eight names drawn after the two first steps, one is free. */
  ghost predicate DrawsFresh(turns: seq<Turn>, dir: Directory) {
    exists k | 2 <= k < 2 + TEMP_CREATE_ATTEMPTS && k < |turns| :: turns[k].choice.name !in dir
  }

  ghost predicate AllTaken(turns: seq<Turn>, n: nat, dir: Directory)
    requires n <= |turns|
  {
    forall k | 2 <= k < n :: turns[k].choice.name in dir
  }

  /** How far the draws of an undisturbed lone run explain its phase. */
  ghost predicate DrawOk(hash: Hash, job: Job, first: Directory, turns: seq<Turn>, p: Phase, dir: Directory) {
    match p
    case Opening => turns == [] && dir == first
    case Inspecting => |turns| == 1 && dir == first
    case Creating(_, attempts) =>
      && attempts < TEMP_CREATE_ATTEMPTS && |turns| == 2 + attempts && dir == first
      && AllTaken(turns, |turns|, first) && NeedsWork(hash, job, first)
    case Done(outcome) =>
      if outcome == Failure(CreateTemporary) then
        |turns| >= 2 + TEMP_CREATE_ATTEMPTS && AllTaken(turns, 2 + TEMP_CREATE_ATTEMPTS, first) && NeedsWork(hash, job, first)
      else DrawsFresh(turns, first) || !NeedsWork(hash, job, first)
    case Removing(_, outcome) => outcome != Failure(CreateTemporary) && DrawsFresh(turns, first)
    case _ => DrawsFresh(turns, first)
  }

  lemma DrawsGrow(turns: seq<Turn>, t: Turn, dir: Directory)
    ensures DrawsFresh(turns, dir) ==> DrawsFresh(turns + [t], dir)
    ensures 2 <= |turns| < 2 + TEMP_CREATE_ATTEMPTS && t.choice.name !in dir ==> DrawsFresh(turns + [t], dir)
    ensures forall n: nat | n <= |turns| :: AllTaken(turns + [t], n, dir) == AllTaken(turns, n, dir)
    ensures |turns| == 1 ==> AllTaken(turns + [t], 2, dir)
    ensures t.choice.name in dir && AllTaken(turns, |turns|, dir) ==> AllTaken(turns + [t], |turns| + 1, dir)
  {
    var u := turns + [t];
    assert forall k | 0 <= k < |turns| :: u[k] == turns[k];
    assert u[|turns|] == t;
  }

  lemma AdvanceDraws(hash: Hash, job: Job, first: Directory, turns: seq<Turn>, p: Phase, dir: Directory, t: Turn, seen: nat)
    requires DrawOk(hash, job, first, turns, p, dir) && !t.choice.fails
    ensures
      var m := Advance(hash, job, p, dir, t.choice, seen);
      DrawOk(hash, job, first, turns + [t], m.phase, m.dir)
  {
    DrawsGrow(turns, t, first);
    InspectMeans(hash, dir, job);
    assert Expects(hash, dir, job) ==> CanInspect(dir, job.leaf);
    hide Expects, Already, CanInspect;
    hide DrawsFresh, AllTaken, Inspect, MeetsPrecondition, HasDigest, Lookup;
  }

  lemma {:induction false} LoneDraws(hash: Hash, job: Job, first: Directory, turns: seq<Turn>, s: State)
    requires Run(hash, [job], Start(first, 1), turns, s) && FaultFree(turns)
    ensures |s.phases| == 1 && DrawOk(hash, job, first, turns, s.phases[0], s.dir) && TurnsOf(turns, 0) == |turns|
    decreases |turns|
  {
    hide DrawOk, Advance;
    if turns == [] {
      StartDraws(hash, job, first);
    } else {
      var t, before := turns[|turns| - 1], turns[..|turns| - 1];
      var p :| Run(hash, [job], Start(first, 1), before, p) && Stepped(hash, [job], p, t, s);
      assert turns == before + [t] && t in turns && forall u | u in before :: u in turns;
      hide Run;
      LoneDraws(hash, job, first, before, p);
      AdvanceDraws(hash, job, first, before, p.phases[0], p.dir, t, |p.log|);
    }
  }

  lemma StartDraws(hash: Hash, job: Job, first: Directory)
    ensures DrawOk(hash, job, first, [], Opening, first) && Start(first, 1).phases == [Opening]
  {
  }

  /** An undisturbed lone run fails to create its temporary exactly when there is work to do and all
      eight names it draws exist already. */
  lemma CreationFailsIff(hash: Hash, job: Job, first: Directory, turns: seq<Turn>, s: State)
    requires Run(hash, [job], Start(first, 1), turns, s) && FaultFree(turns)
    requires |s.phases| == 1 && s.phases[0].Done?
    ensures s.phases[0].outcome == Failure(CreateTemporary) <==>
            NeedsWork(hash, job, first) && !DrawsFresh(turns, first)
  {
    LoneDraws(hash, job, first, turns, s);
    hide Run, NeedsWork;
  }

  /** The same undisturbed turn over and over, drawing `name`. */
  function Repeat(name: Name, n: nat): seq<Turn> {
    seq(n, _ => Turn(0, Smooth(name, 0)))
  }

  /** There is an undisturbed run of any length, for any name to draw. */
  lemma {:induction false} RerunExists(hash: Hash, job: Job, first: Directory, name: Name, n: nat) returns (s: State)
    requires IsTemporaryName(name)
    ensures Run(hash, [job], Start(first, 1), Repeat(name, n), s) && |s.phases| == 1 && FaultFree(Repeat(name, n))
  {
    if n == 0 {
      s := Start(first, 1);
      assert Repeat(name, 0) == [];
    } else {
      var p := RerunExists(hash, job, first, name, n - 1);
      var t := Turn(0, Smooth(name, 0));
      assert p.phases[0].Creating? ==> Held(p.phases[0]).None?;
      hide Run, Step;
      RunStep(hash, [job], Start(first, 1), Repeat(name, n - 1), p, t);
      assert Repeat(name, n) == Repeat(name, n - 1) + [t];
      s := Step(hash, [job], p, t);
      StepKeepsCount(hash, [job], p, t);
    }
  }

  lemma StepKeepsCount(hash: Hash, jobs: seq<Job>, s: State, t: Turn)
    requires Allowed(jobs, s, t)
    ensures |Step(hash, jobs, s, t).phases| == |s.phases|
  {
    hide Advance;
  }

  /** Stop a commit anywhere, with any failures, then run it again from the start undisturbed. With
      enough turns the re-run ends. It cannot create its temporary exactly when it has work to do and
      all eight names it draws exist. Otherwise, if the original target met the precondition or already
      was the desired content, it succeeds and the target is the desired content; if not, it is a
      conflict and the target is untouched. */
  lemma {:induction false} CrashRecovery(
    hash: Hash, job: Job, first: Directory, turns: seq<Turn>, s: State, turns': seq<Turn>, s': State)
    requires Injective(hash) && !IsTemporaryName(job.leaf) && |job.content| <= MAX_ATOMIC_TEXT_BYTES
    requires CanInspect(first, job.leaf)
    requires Run(hash, [job], Start(first, 1), turns, s)
    requires Run(hash, [job], Start(s.dir, 1), turns', s') && FaultFree(turns') && |turns'| >= 17 + |job.content|
    ensures |s'.phases| == 1 && s'.phases[0].Done?
    ensures s'.phases[0].outcome == Failure(CreateTemporary) <==>
            Expects(hash, s.dir, job) && !Already(hash, s.dir, job) && !DrawsFresh(turns', s.dir)
    ensures s'.phases[0].outcome != Failure(CreateTemporary) ==>
      if Expects(hash, first, job) || Already(hash, first, job) then
        && s'.phases[0].outcome.Success?
        && job.leaf in s'.dir && s'.dir[job.leaf].Regular? && s'.dir[job.leaf].content == job.content
      else
        && s'.phases[0].outcome == Failure(Conflict)
        && Lookup(s'.dir, job.leaf) == Lookup(first, job.leaf)
  {
    hide Run, DrawsFresh, StepsLeft, DrawOk;
    LoneDraws(hash, job, s.dir, turns', s');
    EveryCommitEnds(hash, [job], s.dir, turns', s', 0);
    CreationFailsIff(hash, job, s.dir, turns', s');
    AloneTarget(hash, job, first, turns, s, false);
    WhereTheReRunStarts(hash, job, first, s);
    AloneTarget(hash, job, s.dir, turns', s', true);
  }

  /** The re-run starts from the target as it was, or from the desired content. */
  lemma WhereTheReRunStarts(hash: Hash, job: Job, first: Directory, s: State)
    requires |job.content| <= MAX_ATOMIC_TEXT_BYTES && CanInspect(first, job.leaf)
    requires LoneOutcome(hash, job, first, s, false)
    ensures CanInspect(s.dir, job.leaf)
    ensures Lookup(s.dir, job.leaf) == Lookup(first, job.leaf) ==>
      (Expects(hash, s.dir, job) <==> Expects(hash, first, job)) && (Already(hash, s.dir, job) <==> Already(hash, first, job))
    ensures Lookup(s.dir, job.leaf) != Lookup(first, job.leaf) ==> Expects(hash, first, job) && Already(hash, s.dir, job)
  {
  }
}
