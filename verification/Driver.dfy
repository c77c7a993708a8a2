/** The bounded driver loop over its ports: driver.rs. */
module Driver {
  import opened Wrappers

  type StepId = string

  // ---- durable state, as far as the driver reads it ----

  datatype CoreClass = CoreReadOnly | Reversible | CoreIdempotent | CoreNonIdempotent
  datatype EffectClass = ReadOnly | Compensatable | Idempotent | NonIdempotent

  /** `domain_effect_class` */
  function DomainClass(c: CoreClass): EffectClass {
    match c
    case CoreReadOnly => ReadOnly
    case Reversible => Compensatable
    case CoreIdempotent => Idempotent
    case CoreNonIdempotent => NonIdempotent
  }

  datatype StepState = StepState(intentCommitted: bool, intent: Option<CoreClass>)
  datatype ModelCalls = ModelCalls(active: bool, reserved: nat, maximum: nat)
  datatype Agent = Agent(modelCalls: Option<ModelCalls>, candidate: bool, acceptedTurns: nat, maximumTurns: nat)

  /** What `derive_frontier` finds: whether there is a next action, a failed step, a manual step. */
  datatype Frontier = Frontier(nextAction: bool, failed: bool, manual: bool)

  /** `frontier` is `None` when it cannot be derived. */
  datatype RunState = RunState(steps: map<StepId, StepState>, agent: Option<Agent>, frontier: Option<Frontier>)

  datatype DriverError =
    | StoreError | AgentLoopError | MaterialRecoveryError | AdmissionError | ExecutorError
    | VerificationError | FrontierError | RouteError | ApprovalError | RunNotInitialized | StepNotFound(step: StepId)

  /** `model_call_may_be_next`, once the state is loaded. */
  function ModelCallMayBeNext(state: Option<RunState>): Result<bool, DriverError> {
    match state
    case None => Success(false)
    case Some(s) =>
      if s.agent.None? || s.agent.value.modelCalls.None? then Success(false)
      else
        var agent, calls := s.agent.value, s.agent.value.modelCalls.value;
        if calls.active || agent.candidate then Success(false)
        else if s.frontier.None? then Failure(FrontierError)
        else
          var f := s.frontier.value;
          Success(!f.nextAction && !f.failed && !f.manual
                  && agent.acceptedTurns < agent.maximumTurns && calls.reserved < calls.maximum)
  }

  /** The states in which the next tick may call the model: model calls are configured, none is active, no
      candidate waits, the frontier is empty, and both budgets have room. */
  ghost predicate CallMayFollow(state: Option<RunState>) {
    match state
    case Some(RunState(_, Some(Agent(Some(ModelCalls(active, reserved, maximum)), candidate, accepted, turns)), Some(f))) =>
      !active && !candidate && f == Frontier(false, false, false) && accepted < turns && reserved < maximum
    case _ => false
  }

  /** The states in which the question depends on a frontier that cannot be derived. */
  ghost predicate Underivable(state: Option<RunState>) {
    match state
    case Some(RunState(_, Some(Agent(Some(ModelCalls(false, _, _)), false, _, _)), None)) => true
    case _ => false
  }

  lemma {:induction false} MayBeNextMeans(state: Option<RunState>)
    ensures ModelCallMayBeNext(state) ==
            if Underivable(state) then Failure(FrontierError) else Success(CallMayFollow(state))
  {
  }

  // ---- ports ----

  datatype Progress =
    | ModelCallStarting | PlanCommitted | ApprovalRequired(kind: EffectClass) | ActionAuthorized(kind: EffectClass)
    | EffectStarting(kind: EffectClass) | EffectCommitted(kind: EffectClass)
    | VerificationStarting | VerificationCommitted | CompletionCommitted

  datatype Control = Continue | Cancel
  datatype Action = Admit | DriveEffect | Verify

  datatype Tick =
    | Configured | LifecycleConfigured | ModelCallAbandoned | PlanAccepted
    | ActionRequired(action: Action, step: StepId)
    | CompletionReached | Quiescent | PlannerUnavailable | ProposalRejected | MaterializerUnavailable
    | RecoveryRequired | ModelCallRejected

  datatype Request = Request(id: nat, effectClass: EffectClass)
  datatype Decision = Approved(inputs: nat) | Denied | Pending

  /** One call of a port, with what the driver learned from it (`None` for a failed call). */
  datatype Event =
    | Loaded(state: Option<RunState>, ok: bool)
    | Ticked(before: Option<RunState>, tick: Option<Tick>)
    | Observed(progress: Progress, control: Control)
    | Routed(step: StepId, ok: bool)
    | Prepared(step: StepId, pending: Option<Request>)
    | Decided(request: Request, decision: Option<Decision>)
    | Committed(request: Request, inputs: nat, authorized: Option<bool>)
    | Recovered(step: StepId, ok: bool)
    | Drove(step: StepId, withMaterial: bool, ok: bool)
    | Verified(step: StepId, ok: bool)

  /** All ports together. Every call is recorded and may answer anything; only loading and observing
      leave the durable state alone. */
  class Ports {
    var state: Option<RunState>
    ghost var trace: seq<Event>

    constructor (state: Option<RunState>)
      ensures this.state == state && trace == []
    {
      this.state, trace := state, [];
    }

    method Load() returns (r: Result<Option<RunState>, DriverError>)
      modifies this`trace
      ensures trace == old(trace) + [Loaded(state, r.Success?)]
      ensures r == if r.Success? then Success(state) else Failure(StoreError)
    {
      var fails: bool := *;
      r := if fails then Failure(StoreError) else Success(state);
      trace := trace + [Loaded(state, r.Success?)];
    }

    method Observe(progress: Progress) returns (control: Control)
      modifies this`trace
      ensures trace == old(trace) + [Observed(progress, control)]
    {
      control := *;
      trace := trace + [Observed(progress, control)];
    }

    method Disturb()
      modifies this`state
    {
      state := *;
    }

    method DoTick() returns (tick: Option<Tick>)
      modifies this
      ensures trace == old(trace) + [Ticked(old(state), tick)]
    {
      tick := *;
      trace := trace + [Ticked(state, tick)];
      Disturb();
    }

    method Route(step: StepId) returns (ok: bool)
      modifies this
      ensures trace == old(trace) + [Routed(step, ok)]
    {
      ok := *;
      trace := trace + [Routed(step, ok)];
      Disturb();
    }

    method Prepare(step: StepId) returns (pending: Option<Request>)
      modifies this
      ensures trace == old(trace) + [Prepared(step, pending)]
    {
      pending := *;
      trace := trace + [Prepared(step, pending)];
      Disturb();
    }

    method Decide(request: Request) returns (decision: Option<Decision>)
      modifies this
      ensures trace == old(trace) + [Decided(request, decision)]
    {
      decision := *;
      trace := trace + [Decided(request, decision)];
      Disturb();
    }

    /** `authorize_and_commit`: failed, not authorized, or authorized. */
    method AuthorizeAndCommit(request: Request, inputs: nat) returns (authorized: Option<bool>)
      modifies this
      ensures trace == old(trace) + [Committed(request, inputs, authorized)]
    {
      authorized := *;
      trace := trace + [Committed(request, inputs, authorized)];
      Disturb();
    }

    method Recover(step: StepId) returns (ok: bool)
      modifies this
      ensures trace == old(trace) + [Recovered(step, ok)]
    {
      ok := *;
      trace := trace + [Recovered(step, ok)];
      Disturb();
    }

    method Drive(step: StepId, withMaterial: bool) returns (ok: bool)
      modifies this
      ensures trace == old(trace) + [Drove(step, withMaterial, ok)]
    {
      ok := *;
      trace := trace + [Drove(step, withMaterial, ok)];
      Disturb();
    }

    method VerifyStep(step: StepId) returns (ok: bool)
      modifies this
      ensures trace == old(trace) + [Verified(step, ok)]
    {
      ok := *;
      trace := trace + [Verified(step, ok)];
      Disturb();
    }
  }

  // ---- safe traces ----

  /** The agent asked for this action `n` events before. */
  ghost predicate Asked(t: seq<Event>, k: int, n: nat, action: Action, step: StepId) {
    n <= k < |t| && t[k - n].Ticked? && t[k - n].tick == Some(ActionRequired(action, step))
  }

  /** The agent runs on a state that was just loaded. Where that may call the model, the call is permitted
      and was announced in between. */
  ghost predicate TickOk(t: seq<Event>, k: nat, egress: bool)
    requires k < |t| && t[k].Ticked?
  {
    if CallMayFollow(t[k].before) then
      egress && k >= 2 && t[k - 1] == Observed(ModelCallStarting, Continue) && t[k - 2] == Loaded(t[k].before, true)
    else k >= 1 && t[k - 1] == Loaded(t[k].before, true) && !Underivable(t[k].before)
  }

  /** A commit follows the approval of the very request that was prepared for the step. */
  ghost predicate CommitOk(t: seq<Event>, k: nat)
    requires k < |t| && t[k].Committed?
  {
    && k >= 5 && t[k - 1] == Decided(t[k].request, Some(Approved(t[k].inputs)))
    && t[k - 2].Prepared? && t[k - 2].pending == Some(t[k].request)
    && t[k - 3] == Routed(t[k - 2].step, true) && Asked(t, k, 5, Admit, t[k - 2].step)
  }

  /** The same class on both sides: what one calls reversible the other calls compensatable. */
  ghost predicate Corresponds(c: CoreClass, e: EffectClass) {
    && (c.CoreReadOnly? <==> e.ReadOnly?) && (c.Reversible? <==> e.Compensatable?)
    && (c.CoreIdempotent? <==> e.Idempotent?) && (c.CoreNonIdempotent? <==> e.NonIdempotent?)
  }

  /** The step as it stood when the effect was announced at `j`. */
  ghost predicate Announced(t: seq<Event>, j: nat, step: StepId, withMaterial: bool) {
    && 2 <= j < |t| && t[j - 1].Loaded? && t[j - 1].ok && t[j - 1].state.Some? && step in t[j - 1].state.value.steps
    && var s := t[j - 1].state.value.steps[step];
       (s.intent.Some? && withMaterial == s.intentCommitted
        && t[j].Observed? && t[j].control == Continue && t[j].progress.EffectStarting?
        && Corresponds(s.intent.value, t[j].progress.kind))
  }

  /** An effect is announced with its class, the observer did not object, and its material was
      recovered exactly when the intent had only been committed. */
  ghost predicate DriveOk(t: seq<Event>, k: nat)
    requires k < |t| && t[k].Drove?
  {
    var n := if t[k].withMaterial then 2 else 1;
    && k >= n + 2 && Announced(t, k - n, t[k].step, t[k].withMaterial)
    && (t[k].withMaterial ==> t[k - 1] == Recovered(t[k].step, true))
    && Asked(t, k, n + 2, DriveEffect, t[k].step)
  }

  ghost predicate VerifyOk(t: seq<Event>, k: nat)
    requires k < |t| && t[k].Verified?
  {
    k >= 2 && t[k - 1] == Observed(VerificationStarting, Continue) && Asked(t, k, 2, Verify, t[k].step)
  }

  /** What is reported as done was done, with the class it was announced with. */
  ghost predicate ReportOk(t: seq<Event>, k: nat, progress: Progress, egress: bool)
    requires k < |t|
  {
    match progress
    case ModelCallStarting =>
      egress && k >= 1 && t[k - 1].Loaded? && t[k - 1].ok && CallMayFollow(t[k - 1].state)
    case PlanCommitted => k >= 1 && t[k - 1].Ticked? && t[k - 1].tick == Some(PlanAccepted)
    case ApprovalRequired(kind) =>
      k >= 2 && t[k - 1].Decided? && t[k - 1].decision == Some(Pending) && t[k - 1].request.effectClass == kind
      && t[k - 2].Prepared?
    case ActionAuthorized(kind) =>
      k >= 1 && t[k - 1].Committed? && t[k - 1].authorized == Some(true) && t[k - 1].request.effectClass == kind
    case EffectCommitted(kind) =>
      && k >= 2 && t[k - 1].Drove? && t[k - 1].ok
      && var j := if t[k - 1].withMaterial then k - 3 else k - 2;
         (j >= 0 && t[j] == Observed(EffectStarting(kind), Continue))
    case VerificationCommitted => k >= 1 && t[k - 1].Verified? && t[k - 1].ok
    case CompletionCommitted => k >= 1 && t[k - 1].Ticked? && t[k - 1].tick == Some(CompletionReached)
    case _ => true
  }

  ghost predicate SafeAt(t: seq<Event>, k: nat, egress: bool)
    requires k < |t|
  {
    match t[k]
    case Ticked(_, _) => TickOk(t, k, egress)
    case Committed(_, _, _) => CommitOk(t, k)
    case Drove(_, _, _) => DriveOk(t, k)
    case Verified(_, _) => VerifyOk(t, k)
    case Routed(step, _) =>
      && k >= 2 && t[k - 1].Loaded? && t[k - 1].ok && t[k - 1].state.Some? && Asked(t, k, 2, Admit, step)
    case Prepared(step, _) => k >= 1 && t[k - 1] == Routed(step, true)
    case Decided(request, _) => k >= 1 && t[k - 1].Prepared? && t[k - 1].pending == Some(request)
    case Recovered(step, _) => k >= 3 && Announced(t, k - 1, step, true) && Asked(t, k, 3, DriveEffect, step)
    case Observed(progress, _) => ReportOk(t, k, progress, egress)
    case _ => true
  }

  ghost predicate Safe(t: seq<Event>, egress: bool) {
    forall k | 0 <= k < |t| :: SafeAt(t, k, egress)
  }

  predicate IsCancel(e: Event) {
    e.Observed? && e.control.Cancel?
  }

  /** A cancel answer ends everything. */
  ghost predicate CancelEnds(t: seq<Event>) {
    forall k | 0 <= k < |t| && IsCancel(t[k]) :: k == |t| - 1
  }

  ghost function Ticks(t: seq<Event>): nat {
    if t == [] then 0 else Ticks(t[..|t| - 1]) + if t[|t| - 1].Ticked? then 1 else 0
  }

  lemma {:induction false} TicksConcat(a: seq<Event>, b: seq<Event>)
    ensures Ticks(a + b) == Ticks(a) + Ticks(b)
  {
    if b == [] {
      assert a + b == a;
    } else {
      TicksConcat(a, b[..|b| - 1]);
      assert (a + b)[..|a + b| - 1] == a + b[..|b| - 1];
    }
  }

  lemma SafeConcat(a: seq<Event>, b: seq<Event>, egress: bool)
    requires Safe(a, egress) && Safe(b, egress)
    ensures Safe(a + b, egress)
  {
    var t := a + b;
    forall k | 0 <= k < |t|
      ensures SafeAt(t, k, egress)
    {
      if k < |a| {
        SafeEarlier(a, b, k, egress);
      } else {
        SafeLater(a, b, k - |a|, egress);
      }
    }
  }

  lemma SafeEarlier(a: seq<Event>, b: seq<Event>, k: nat, egress: bool)
    requires k < |a| && SafeAt(a, k, egress)
    ensures SafeAt(a + b, k, egress)
  {
    assert forall i | 0 <= i <= k :: (a + b)[i] == a[i];
  }

  lemma SafeLater(a: seq<Event>, b: seq<Event>, k: nat, egress: bool)
    requires k < |b| && SafeAt(b, k, egress)
    ensures SafeAt(a + b, |a| + k, egress)
  {
    var t, n := a + b, |a| + k;
    assert forall i | 0 <= i <= k :: t[|a| + i] == b[i];
    assert t[n] == b[k] && (k >= 1 ==> t[n - 1] == b[k - 1]) && (k >= 2 ==> t[n - 2] == b[k - 2])
        && (k >= 3 ==> t[n - 3] == b[k - 3]) && (k >= 4 ==> t[n - 4] == b[k - 4]) && (k >= 5 ==> t[n - 5] == b[k - 5]);
  }

  // ---- one turn ----

  /** Why the driver returns; `Stopped` passes the agent's own outcome on. */
  datatype Outcome =
    | Stopped(tick: Tick)
    | ApprovalPending(step: StepId, effectClass: EffectClass) | ApprovalDenied(step: StepId)
    | AdmissionNotAuthorized(step: StepId)
    | ModelEgressRequired | Cancelled | TickBudgetExhausted

  type Verdict = Option<Result<Outcome, DriverError>>

  /** The events of a turn in which the agent asked for `action`, nothing objected to so far. */
  ghost predicate Underway(t: seq<Event>, egress: bool) {
    Safe(t, egress) && (forall k | 0 <= k < |t| :: !IsCancel(t[k])) && Ticks(t) == 1
  }

  /** The answers of the observer that stop the driver. */
  predicate Heeded(progress: Progress) {
    !progress.ApprovalRequired? && !progress.CompletionCommitted?
  }

  /** Announcements of what is still to come. */
  predicate Starts(progress: Progress) {
    progress.ModelCallStarting? || progress.EffectStarting? || progress.VerificationStarting?
  }

  ghost predicate EndsCancelled(t: seq<Event>) {
    t != [] && IsCancel(t[|t| - 1]) && Heeded(t[|t| - 1].progress)
  }

  predicate AsksAction(e: Event) {
    e.Ticked? && e.tick.Some? && e.tick.value.ActionRequired?
  }

  /** The last event of a turn decides how the turn ends, and a turn does not end anywhere else. */
  ghost predicate Concludes(t: seq<Event>, r: Verdict) {
    && t != []
    && var n := |t| - 1;
       (match t[n]
        case Loaded(state, ok) =>
          if !ok then r == Some(Failure(StoreError))
          else if n == 0 then
            if Underivable(state) then r == Some(Failure(FrontierError))
            else CallMayFollow(state) && r == Some(Success(ModelEgressRequired))
          else if !AsksAction(t[n - 1]) then false
          else if state.None? then r == Some(Failure(RunNotInitialized))
          else Unready(state.value, t[n - 1].tick.value.step) && r == Some(Failure(StepNotFound(t[n - 1].tick.value.step)))
        case Ticked(_, tick) =>
          if tick.None? then r == Some(Failure(AgentLoopError))
          else if tick.value.Configured? || tick.value.LifecycleConfigured? || tick.value.ModelCallAbandoned? then r == None
          else !tick.value.PlanAccepted? && !tick.value.ActionRequired? && !tick.value.CompletionReached?
               && r == Some(Success(Stopped(tick.value)))
        case Observed(progress, control) =>
          if control.Cancel? && Heeded(progress) then r == Some(Success(Cancelled))
          else match progress {
            case ApprovalRequired(kind) =>
              n >= 2 && t[n - 2].Prepared? && r == Some(Success(ApprovalPending(t[n - 2].step, kind)))
            case CompletionCommitted => r == Some(Success(Stopped(CompletionReached)))
            case ModelCallStarting => false
            case EffectStarting(_) => false
            case VerificationStarting => false
            case _ => r == None
          }
        case Routed(_, ok) => !ok && r == Some(Failure(RouteError))
        case Prepared(_, pending) => pending.None? && r == Some(Failure(MaterialRecoveryError))
        case Decided(_, decision) =>
          if decision.None? then r == Some(Failure(ApprovalError))
          else decision.value.Denied? && n >= 1 && t[n - 1].Prepared? && r == Some(Success(ApprovalDenied(t[n - 1].step)))
        case Committed(_, _, authorized) =>
          if authorized.None? then r == Some(Failure(AdmissionError))
          else !authorized.value && n >= 2 && t[n - 2].Prepared?
               && r == Some(Success(AdmissionNotAuthorized(t[n - 2].step)))
        case Recovered(_, ok) => !ok && r == Some(Failure(MaterialRecoveryError))
        case Drove(_, _, ok) => !ok && r == Some(Failure(ExecutorError))
        case Verified(_, ok) => !ok && r == Some(Failure(VerificationError)))
  }

  /** The step is not there, or has no intent. */
  predicate Unready(state: RunState, step: StepId) {
    step !in state.steps || state.steps[step].intent.None?
  }

  /** What one turn may record, given how it ended. */
  ghost predicate TurnOk(t: seq<Event>, egress: bool, r: Verdict) {
    && Safe(t, egress) && CancelEnds(t) && Ticks(t) <= 1 && Concludes(t, r)
    && (r == Some(Success(Cancelled)) <==> EndsCancelled(t))
    && (r.None? ==> Ticks(t) == 1 && (forall k | 0 <= k < |t| :: !IsCancel(t[k])))
    && r != Some(Success(TickBudgetExhausted))
    && (r == Some(Success(ModelEgressRequired)) ==> !egress)
  }

  lemma Extend(t: seq<Event>, e: Event, egress: bool)
    requires Underway(t, egress) && !e.Ticked? && SafeAt(t + [e], |t|, egress)
    ensures Safe(t + [e], egress) && CancelEnds(t + [e]) && Ticks(t + [e]) == 1
    ensures !IsCancel(e) ==> Underway(t + [e], egress)
    ensures EndsCancelled(t + [e]) <==> IsCancel(e) && Heeded(e.progress)
  {
    hide SafeAt;
    var u := t + [e];
    assert u[..|t|] == t;
    forall k | 0 <= k < |t|
      ensures SafeAt(u, k, egress)
    {
      SafeEarlier(t, [e], k, egress);
    }
  }

  lemma Quiet(t: seq<Event>, egress: bool)
    requires Underway(t, egress)
    ensures Safe(t, egress) && CancelEnds(t) && Ticks(t) == 1 && !EndsCancelled(t)
  {
  }

  lemma Suffix(head: seq<Event>, mid: seq<Event>, t: seq<Event>)
    requires head <= mid <= t
    ensures head <= t && t[|head|..] == mid[|head|..] + t[|mid|..]
  {
  }

  lemma Ended(t: seq<Event>, egress: bool, r: Verdict)
    requires Safe(t, egress) && CancelEnds(t) && Ticks(t) == 1 && Concludes(t, r) && !EndsCancelled(t)
    requires r.Some? && r != Some(Success(Cancelled)) && r != Some(Success(ModelEgressRequired))
    ensures TurnOk(t, egress, r)
  {
    hide Safe, Ticks, CancelEnds, EndsCancelled;
  }

  /** The admission of a step. `head` are the events of this turn so far. */
  method AdmitStep(ports: Ports, step: StepId, egress: bool, ghost head: seq<Event>)
    returns (r: Verdict, ghost t: seq<Event>)
    requires Underway(head, egress) && head != []
    requires var last := head[|head| - 1]; last.Ticked? && last.tick == Some(ActionRequired(Admit, step))
    modifies ports
    ensures head <= t && ports.trace == old(ports.trace) + t[|head|..]
    ensures TurnOk(t, egress, r)
  {
    hide Underway, Safe, CancelEnds, Ticks, EndsCancelled, TurnOk;
    t := head;
    QuietTurn(t, egress);
    var loaded := ports.Load();
    Extend(t, Loaded(ports.state, loaded.Success?), egress);
    t := t + [Loaded(ports.state, loaded.Success?)];
    QuietTurn(t, egress);
    if loaded.Failure? {
      return Some(Failure(loaded.error)), t;
    }
    if loaded.value.None? {
      return Some(Failure(RunNotInitialized)), t;
    }
    var routed := ports.Route(step);
    Extend(t, Routed(step, routed), egress);
    t := t + [Routed(step, routed)];
    QuietTurn(t, egress);
    if !routed {
      return Some(Failure(RouteError)), t;
    }
    var pending := ports.Prepare(step);
    Extend(t, Prepared(step, pending), egress);
    t := t + [Prepared(step, pending)];
    QuietTurn(t, egress);
    if pending.None? {
      return Some(Failure(MaterialRecoveryError)), t;
    }
    ghost var mid := t;
    r, t := Approve(ports, step, pending.value, egress, t);
    Suffix(head, mid, t);
  }

  /** The decision on a prepared request, and its commit. */
  method Approve(ports: Ports, step: StepId, request: Request, egress: bool, ghost head: seq<Event>)
    returns (r: Verdict, ghost t: seq<Event>)
    requires Underway(head, egress) && |head| >= 4
    requires
      var n := |head|;
      && head[n - 1] == Prepared(step, Some(request)) && head[n - 2] == Routed(step, true)
      && head[n - 4].Ticked? && head[n - 4].tick == Some(ActionRequired(Admit, step))
    modifies ports
    ensures head <= t && ports.trace == old(ports.trace) + t[|head|..]
    ensures TurnOk(t, egress, r)
  {
    hide Underway, Safe, CancelEnds, Ticks, EndsCancelled, TurnOk;
    t := head;
    var decision := ports.Decide(request);
    Extend(t, Decided(request, decision), egress);
    t := t + [Decided(request, decision)];
    QuietTurn(t, egress);
    if decision.None? {
      return Some(Failure(ApprovalError)), t;
    }
    match decision.value {
      case Pending =>
        var ignored := ports.Observe(ApprovalRequired(request.effectClass));
        Extend(t, Observed(ApprovalRequired(request.effectClass), ignored), egress);
        t := t + [Observed(ApprovalRequired(request.effectClass), ignored)];
        Ended(t, egress, Some(Success(ApprovalPending(step, request.effectClass))));
        return Some(Success(ApprovalPending(step, request.effectClass))), t;
      case Denied =>
        return Some(Success(ApprovalDenied(step))), t;
      case Approved(inputs) =>
        var authorized := ports.AuthorizeAndCommit(request, inputs);
        Extend(t, Committed(request, inputs, authorized), egress);
        t := t + [Committed(request, inputs, authorized)];
        QuietTurn(t, egress);
        if authorized.None? {
          return Some(Failure(AdmissionError)), t;
        }
        if !authorized.value {
          return Some(Success(AdmissionNotAuthorized(step))), t;
        }
        ghost var mid := t;
        r, t := Announce(ports, ActionAuthorized(request.effectClass), egress, t);
        Suffix(head, mid, t);
    }
  }

  /** Report progress; a cancel answer ends the run. */
  method Announce(ports: Ports, progress: Progress, egress: bool, ghost head: seq<Event>)
    returns (r: Verdict, ghost t: seq<Event>)
    requires Underway(head, egress) && Heeded(progress)
    requires ReportOk(head + [Observed(progress, Continue)], |head|, progress, egress)
    modifies ports`trace
    ensures head <= t && |t| == |head| + 1 && ports.trace == old(ports.trace) + t[|head|..]
    ensures r.Some? || !Starts(progress) ==> TurnOk(t, egress, r)
    ensures r.None? ==> Underway(t, egress) && t == head + [Observed(progress, Continue)]
    ensures r.Some? ==> r == Some(Success(Cancelled))
  {
    hide Safe, Ticks;
    var control := ports.Observe(progress);
    Extend(head, Observed(progress, control), egress);
    t := head + [Observed(progress, control)];
    return if control.Cancel? then Some(Success(Cancelled)) else None, t;
  }

  /** The effect of a step. */
  method DriveStep(ports: Ports, step: StepId, egress: bool, ghost head: seq<Event>)
    returns (r: Verdict, ghost t: seq<Event>)
    requires Underway(head, egress) && head != []
    requires var last := head[|head| - 1]; last.Ticked? && last.tick == Some(ActionRequired(DriveEffect, step))
    modifies ports
    ensures head <= t && ports.trace == old(ports.trace) + t[|head|..]
    ensures TurnOk(t, egress, r)
  {
    hide Underway, Safe, CancelEnds, Ticks, EndsCancelled, TurnOk, SafeAt, Announced, DomainClass;
    t := head;
    var loaded := ports.Load();
    LoadIsSafe(t, ports.state, loaded.Success?, egress);
    Extend(t, Loaded(ports.state, loaded.Success?), egress);
    t := t + [Loaded(ports.state, loaded.Success?)];
    QuietTurn(t, egress);
    if loaded.Failure? {
      return Some(Failure(loaded.error)), t;
    }
    if loaded.value.None? {
      return Some(Failure(RunNotInitialized)), t;
    }
    var steps := loaded.value.value.steps;
    if step !in steps || steps[step].intent.None? {
      return Some(Failure(StepNotFound(step))), t;
    }
    var effectClass, withMaterial := DomainClass(steps[step].intent.value), steps[step].intentCommitted;
    r, t := Announce(ports, EffectStarting(effectClass), egress, t);
    if r.Some? {
      return;
    }
    AnnouncedNow(head, t, loaded.value, step, effectClass, withMaterial);
    ghost var mid := t;
    r, t := Execute(ports, step, effectClass, withMaterial, egress, t);
    Suffix(head, mid, t);
  }

  /** The announced effect: its material, the effect, and the report. */
  method Execute(
    ports: Ports, step: StepId, effectClass: EffectClass, withMaterial: bool, egress: bool, ghost head: seq<Event>)
    returns (r: Verdict, ghost t: seq<Event>)
    requires Underway(head, egress) && Starting(head, step, withMaterial)
    requires head[|head| - 1] == Observed(EffectStarting(effectClass), Continue)
    modifies ports
    ensures head <= t && ports.trace == old(ports.trace) + t[|head|..]
    ensures TurnOk(t, egress, r)
  {
    hide Underway, Safe, CancelEnds, Ticks, EndsCancelled, TurnOk, SafeAt, Announced;
    t := head;
    if withMaterial {
      var recovered := ports.Recover(step);
      RecoverIsSafe(t, step, recovered, egress);
      Extend(t, Recovered(step, recovered), egress);
      t := t + [Recovered(step, recovered)];
      QuietTurn(t, egress);
      if !recovered {
        return Some(Failure(MaterialRecoveryError)), t;
      }
    }
    var driven := ports.Drive(step, withMaterial);
    DriveIsSafe(head, t, step, withMaterial, driven, egress);
    Extend(t, Drove(step, withMaterial, driven), egress);
    t := t + [Drove(step, withMaterial, driven)];
    QuietTurn(t, egress);
    if !driven {
      return Some(Failure(ExecutorError)), t;
    }
    ghost var mid := t;
    r, t := Announce(ports, EffectCommitted(effectClass), egress, t);
    Suffix(head, mid, t);
  }

  /** The agent asked for the effect of the step, and it was announced. */
  ghost predicate Starting(head: seq<Event>, step: StepId, withMaterial: bool) {
    && |head| >= 3 && Announced(head, |head| - 1, step, withMaterial)
    && head[|head| - 3].Ticked? && head[|head| - 3].tick == Some(ActionRequired(DriveEffect, step))
  }

  lemma LoadIsSafe(t: seq<Event>, state: Option<RunState>, ok: bool, egress: bool)
    ensures SafeAt(t + [Loaded(state, ok)], |t|, egress)
  {
  }

  lemma AnnouncedNow(
    head: seq<Event>, t: seq<Event>, state: Option<RunState>, step: StepId, effectClass: EffectClass, withMaterial: bool)
    requires head != [] && head[|head| - 1].Ticked? && head[|head| - 1].tick == Some(ActionRequired(DriveEffect, step))
    requires t == head + [Loaded(state, true)] + [Observed(EffectStarting(effectClass), Continue)]
    requires state.Some? && step in state.value.steps && state.value.steps[step].intent.Some?
    requires effectClass == DomainClass(state.value.steps[step].intent.value)
    requires withMaterial == state.value.steps[step].intentCommitted
    ensures Starting(t, step, withMaterial)
  {
  }

  lemma RecoverIsSafe(head: seq<Event>, step: StepId, ok: bool, egress: bool)
    requires Starting(head, step, true)
    ensures SafeAt(head + [Recovered(step, ok)], |head|, egress)
  {
    var t := head + [Recovered(step, ok)];
    assert forall k | 0 <= k < |head| :: t[k] == head[k];
  }

  lemma DriveIsSafe(head: seq<Event>, t: seq<Event>, step: StepId, withMaterial: bool, ok: bool, egress: bool)
    requires Starting(head, step, withMaterial)
    requires t == if withMaterial then head + [Recovered(step, true)] else head
    ensures SafeAt(t + [Drove(step, withMaterial, ok)], |t|, egress)
  {
    var u := t + [Drove(step, withMaterial, ok)];
    assert forall k | 0 <= k < |head| :: u[k] == head[k];
  }

  /** The verification of a step. */
  method VerifyEffect(ports: Ports, step: StepId, egress: bool, ghost head: seq<Event>)
    returns (r: Verdict, ghost t: seq<Event>)
    requires Underway(head, egress) && head != []
    requires var last := head[|head| - 1]; last.Ticked? && last.tick == Some(ActionRequired(Verify, step))
    modifies ports
    ensures head <= t && ports.trace == old(ports.trace) + t[|head|..]
    ensures TurnOk(t, egress, r)
  {
    hide Underway, Safe, CancelEnds, Ticks, EndsCancelled, TurnOk;
    r, t := Announce(ports, VerificationStarting, egress, head);
    if r.Some? {
      return;
    }
    var verified := ports.VerifyStep(step);
    Extend(t, Verified(step, verified), egress);
    t := t + [Verified(step, verified)];
    QuietTurn(t, egress);
    if !verified {
      return Some(Failure(VerificationError)), t;
    }
    ghost var mid := t;
    r, t := Announce(ports, VerificationCommitted, egress, t);
    Suffix(head, mid, t);
  }

  /** The part of a turn before the tick: a model call needs permission and is announced. */
  method BeforeTick(ports: Ports, egress: bool) returns (r: Verdict, ghost t: seq<Event>)
    modifies ports`trace
    ensures ports.trace == old(ports.trace) + t
    ensures r.Some? ==> TurnOk(t, egress, r)
    ensures r.None? ==> forall tick :: Underway(t + [Ticked(ports.state, tick)], egress)
  {
    var loaded := ports.Load();
    t := [Loaded(ports.state, loaded.Success?)];
    MayBeNextMeans(ports.state);
    hide ModelCallMayBeNext, CallMayFollow, Underivable;
    LoneEvents(ports.state, loaded.Success?, egress);
    hide Safe, CancelEnds, Ticks, Underway, EndsCancelled;
    if loaded.Failure? {
      return Some(Failure(loaded.error)), t;
    }
    var next := ModelCallMayBeNext(loaded.value);
    if next.Failure? {
      return Some(Failure(next.error)), t;
    }
    if next.value {
      if !egress {
        return Some(Success(ModelEgressRequired)), t;
      }
      var control := ports.Observe(ModelCallStarting);
      t := [Loaded(ports.state, loaded.Success?), Observed(ModelCallStarting, control)];
      if control.Cancel? {
        return Some(Success(Cancelled)), t;
      }
    }
    forall tick
      ensures Underway(t + [Ticked(ports.state, tick)], egress)
    {
      FirstTick(t, ports.state, tick, egress);
    }
    r := None;
  }

  lemma LoneEvents(state: Option<RunState>, ok: bool, egress: bool)
    ensures
      var t := [Loaded(state, ok)];
      Safe(t, egress) && CancelEnds(t) && Ticks(t) == 0 && !EndsCancelled(t)
    ensures ok && egress && CallMayFollow(state) ==>
      forall control ::
        var t := [Loaded(state, ok), Observed(ModelCallStarting, control)];
        Safe(t, egress) && CancelEnds(t) && Ticks(t) == 0 && (EndsCancelled(t) <==> control.Cancel?)
  {
    hide CallMayFollow;
    forall control
      ensures Ticks([Loaded(state, ok), Observed(ModelCallStarting, control)]) == 0
    {
      NoTicks(state, ok, control);
    }
  }

  lemma NoTicks(state: Option<RunState>, ok: bool, control: Control)
    ensures Ticks([Loaded(state, ok)]) == 0 && Ticks([Loaded(state, ok), Observed(ModelCallStarting, control)]) == 0
  {
    var t := [Loaded(state, ok), Observed(ModelCallStarting, control)];
    assert t[..1] == [Loaded(state, ok)] && [Loaded(state, ok)][..0] == [];
    assert Ticks([]) == 0;
    assert Ticks(t[..1]) == 0;
  }

  lemma FirstTick(t: seq<Event>, state: Option<RunState>, tick: Option<Tick>, egress: bool)
    requires !Underivable(state)
    requires
      if CallMayFollow(state) then egress && t == [Loaded(state, true), Observed(ModelCallStarting, Continue)]
      else t == [Loaded(state, true)]
    ensures Underway(t + [Ticked(state, tick)], egress)
  {
    var u := t + [Ticked(state, tick)];
    assert u[..|t|] == t;
    LoneEvents(state, true, egress);
    hide CallMayFollow, Underivable;
    assert TickOk(u, |t|, egress);
  }

  /** One round of the loop. */
  method Turn(ports: Ports, egress: bool) returns (r: Verdict, ghost t: seq<Event>)
    modifies ports
    ensures ports.trace == old(ports.trace) + t
    ensures TurnOk(t, egress, r)
  {
    hide Safe, CancelEnds, Ticks, Underway, EndsCancelled, TurnOk, ModelCallMayBeNext;
    r, t := BeforeTick(ports, egress);
    if r.Some? {
      return;
    }
    ghost var before := ports.state;
    var tick := ports.DoTick();
    t := t + [Ticked(before, tick)];
    QuietTurn(t, egress);
    if tick.None? {
      return Some(Failure(AgentLoopError)), t;
    }
    ghost var head := t;
    match tick.value {
      case Configured => r := None;
      case LifecycleConfigured => r := None;
      case ModelCallAbandoned => r := None;
      case PlanAccepted => r, t := Announce(ports, PlanCommitted, egress, t);
      case ActionRequired(action, step) =>
        match action {
          case Admit => r, t := AdmitStep(ports, step, egress, t);
          case DriveEffect => r, t := DriveStep(ports, step, egress, t);
          case Verify => r, t := VerifyEffect(ports, step, egress, t);
        }
      case CompletionReached => r, t := Complete(ports, egress, t);
      case _ => r := Some(Success(Stopped(tick.value)));
    }
    assert head <= t && t == head + t[|head|..];
  }

  lemma QuietTurn(t: seq<Event>, egress: bool)
    requires Underway(t, egress)
    ensures forall r | Concludes(t, r) && r != Some(Success(ModelEgressRequired)) :: TurnOk(t, egress, r)
  {
    Quiet(t, egress);
    hide Safe;
  }

  /** A completion is reported, whatever the observer answers. */
  method Complete(ports: Ports, egress: bool, ghost head: seq<Event>) returns (r: Verdict, ghost t: seq<Event>)
    requires Underway(head, egress) && head != []
    requires var last := head[|head| - 1]; last.Ticked? && last.tick == Some(CompletionReached)
    modifies ports`trace
    ensures head <= t && ports.trace == old(ports.trace) + t[|head|..]
    ensures TurnOk(t, egress, r)
  {
    hide Safe, Ticks, Underway;
    var ignored := ports.Observe(CompletionCommitted);
    Extend(head, Observed(CompletionCommitted, ignored), egress);
    t := head + [Observed(CompletionCommitted, ignored)];
    r := Some(Success(Stopped(CompletionReached)));
  }

  // ---- the loop ----

  /** What the driver guarantees for every behaviour of its ports. */
  ghost predicate Driven(t: seq<Event>, egress: bool, maxTicks: nat, r: Result<Outcome, DriverError>) {
    && Safe(t, egress) && CancelEnds(t) && Ticks(t) <= maxTicks
    && (r == Success(Cancelled) <==> EndsCancelled(t))
    && (r == Success(TickBudgetExhausted) ==> Ticks(t) == maxTicks)
    && (r != Success(TickBudgetExhausted) ==> exists n :: 0 <= n <= |t| && Concludes(t[n..], Some(r)))
    && (r == Success(ModelEgressRequired) <==> !egress && AwaitsPermission(t))
  }

  /** The last thing that happened is that a round began on a state in which the model may be called. */
  ghost predicate AwaitsPermission(t: seq<Event>) {
    var n := |t| - 1;
    n >= 0 && t[n].Loaded? && t[n].ok && CallMayFollow(t[n].state) && (n == 0 || !AsksAction(t[n - 1]))
  }

  /** `drive_until_pause_with_model_egress_observed` */
  method DriveUntilPause(ports: Ports, maxTicks: nat, egress: bool)
    returns (r: Result<Outcome, DriverError>, ghost t: seq<Event>)
    requires maxTicks > 0
    modifies ports
    ensures ports.trace == old(ports.trace) + t
    ensures Driven(t, egress, maxTicks, r)
  {
    hide Safe, CancelEnds, Ticks, EndsCancelled, TurnOk;
    t := [];
    NothingYet(egress);
    for i := 0 to maxTicks
      invariant ports.trace == old(ports.trace) + t
      invariant SoFar(t, egress, i)
    {
      var verdict, turn := Turn(ports, egress);
      OneMoreTurn(t, turn, egress, verdict, i);
      t := t + turn;
      if verdict.Some? {
        return verdict.value, t;
      }
    }
    SoFarMeans(t, egress, maxTicks);
    return Success(TickBudgetExhausted), t;
  }

  ghost predicate SoFar(t: seq<Event>, egress: bool, ticks: nat) {
    && Safe(t, egress) && (forall k | 0 <= k < |t| :: !IsCancel(t[k])) && Ticks(t) == ticks
    && (t != [] ==> !t[|t| - 1].Loaded? && !AsksAction(t[|t| - 1]))
  }

  lemma NothingYet(egress: bool)
    ensures SoFar([], egress, 0)
  {
  }

  lemma SoFarMeans(t: seq<Event>, egress: bool, ticks: nat)
    requires SoFar(t, egress, ticks)
    ensures Driven(t, egress, ticks, Success(TickBudgetExhausted))
  {
    hide Safe;
  }

  lemma OneMoreTurn(t: seq<Event>, turn: seq<Event>, egress: bool, verdict: Verdict, ticks: nat)
    requires SoFar(t, egress, ticks) && TurnOk(turn, egress, verdict)
    ensures verdict.None? ==> SoFar(t + turn, egress, ticks + 1)
    ensures verdict.Some? ==> forall maximum | maximum > ticks :: Driven(t + turn, egress, maximum, verdict.value)
  {
    hide Safe, Ticks, Concludes, CancelEnds, EndsCancelled, AwaitsPermission, AsksAction, IsCancel;
    LastEvent(t, turn, verdict);
    SafeConcat(t, turn, egress);
    TicksConcat(t, turn);
    if verdict.None? {
      NoCancelConcat(t, turn);
    } else {
      LastTurn(t, turn, verdict);
      FinalTurn(t + turn, egress, verdict.value, ticks + 1);
    }
  }

  lemma FinalTurn(t: seq<Event>, egress: bool, r: Result<Outcome, DriverError>, ticks: nat)
    requires Safe(t, egress) && CancelEnds(t) && Ticks(t) <= ticks && r != Success(TickBudgetExhausted)
    requires (r == Success(Cancelled) <==> EndsCancelled(t))
    requires exists n :: 0 <= n <= |t| && Concludes(t[n..], Some(r))
    requires (r == Success(ModelEgressRequired) <==> !egress && AwaitsPermission(t))
    ensures forall maximum | maximum >= ticks :: Driven(t, egress, maximum, r)
  {
    hide Safe, Ticks, Concludes, CancelEnds, EndsCancelled, AwaitsPermission;
  }

  lemma LastEvent(t: seq<Event>, turn: seq<Event>, verdict: Verdict)
    requires Concludes(turn, verdict) && (t != [] ==> !AsksAction(t[|t| - 1]))
    ensures
      var u := t + turn;
      && u != [] && (verdict.None? ==> !u[|u| - 1].Loaded? && !AsksAction(u[|u| - 1]))
      && (verdict.Some? ==> (verdict.value == Success(ModelEgressRequired) <==> AwaitsPermission(u)))
  {
    if turn[|turn| - 1].Loaded? {
      MayBeNextMeans(turn[|turn| - 1].state);
    }
    var u := t + turn;
    assert u[|u| - 1] == turn[|turn| - 1] && (|turn| > 1 ==> u[|u| - 2] == turn[|turn| - 2]);
    assert |turn| == 1 && t != [] ==> u[|u| - 2] == t[|t| - 1];
  }

  lemma NoCancelConcat(a: seq<Event>, b: seq<Event>)
    requires forall k | 0 <= k < |a| :: !IsCancel(a[k])
    requires forall k | 0 <= k < |b| :: !IsCancel(b[k])
    ensures forall k | 0 <= k < |a + b| :: !IsCancel((a + b)[k])
  {
  }

  lemma LastTurn(t: seq<Event>, turn: seq<Event>, verdict: Verdict)
    requires (forall k | 0 <= k < |t| :: !IsCancel(t[k])) && CancelEnds(turn) && Concludes(turn, verdict) && verdict.Some?
    ensures CancelEnds(t + turn) && (EndsCancelled(t + turn) <==> EndsCancelled(turn))
    ensures exists n :: 0 <= n <= |t + turn| && Concludes((t + turn)[n..], verdict)
  {
    ConcludesSomething(turn, verdict);
    hide Concludes;
    assert (t + turn)[|t|..] == turn;
  }

  lemma ConcludesSomething(turn: seq<Event>, verdict: Verdict)
    requires Concludes(turn, verdict)
    ensures turn != []
  {
  }
}
