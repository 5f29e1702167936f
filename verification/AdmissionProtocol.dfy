/**
 The admission state machine on values: its states, its transitions, the exact legality of each
 step, and runs of steps. `AdmissionMachine` (in its own module) performs the same steps in place.
 */
module AdmissionProtocol {
  import opened Wrappers
  import opened Bytes
  import opened AdmissionPolicy

  datatype StateKind =
    | InDiagnostic | InUnanchored | InAdmitted | InRefused | InCancelled | InIndeterminate

  datatype DiagnosticPhase =
    | Created
    | Preflighted(snapshot: AuthorityId, anchor: AuthorityId, generation: uint64)

  /** Evidence that one authorized publication transaction succeeded. */
  datatype PublicationSuccess = PublicationSuccess(
    requestIdentity: AuthorityId, attempt: uint16, publicationCapability: AuthorityId,
    fence: AuthorityId, receipt: AuthorityId, observation: AuthorityId)

  datatype AdmittedPhase =
    | Active(snapshot: AuthorityId, anchor: AuthorityId, generation: uint64)
    | CompletionPending(snapshot: AuthorityId, anchor: AuthorityId, generation: uint64,
                        quiescence: AuthorityId)
    | Completed(receipt: AuthorityId)
    | PublicationPending(snapshot: AuthorityId, anchor: AuthorityId, generation: uint64,
                         quiescence: AuthorityId)
    | PublicationReady(snapshot: AuthorityId, anchor: AuthorityId, generation: uint64,
                       fence: AuthorityId, quiescence: AuthorityId)
    | PublicationCommitting(fence: AuthorityId, receipt: AuthorityId, quiescence: AuthorityId)
    | Published(receipt: AuthorityId, success: PublicationSuccess)

  datatype TerminalPhase = Pending | Finalized

  datatype CancellationPhase = CancelRequested | CancelDraining | CancelFinalized

  datatype CancellationCause = RequestedCause | DeadlineCause | ParentScopeCause | InjectedFaultCause

  /** Outstanding processes, files and output fragments. */
  datatype DrainObligations = DrainObligations(processes: uint32, files: uint32, outputs: uint32) {
    predicate IsEmpty() {
      processes == 0 && files == 0 && outputs == 0
    }

    function CheckedSub(progress: DrainObligations): (r: Option<DrainObligations>)
      ensures r.Some? <==>
              progress.processes <= processes && progress.files <= files && progress.outputs <= outputs
      ensures r.Some? ==>
                && r.value.processes + progress.processes == processes
                && r.value.files + progress.files == files
                && r.value.outputs + progress.outputs == outputs
    {
      if progress.processes <= processes && progress.files <= files && progress.outputs <= outputs
      then Some(DrainObligations(processes - progress.processes, files - progress.files,
                                 outputs - progress.outputs))
      else None
    }
  }

  datatype AdmissionState =
    | Diagnostic(diagnostic: DiagnosticPhase)
    | Unanchored(phase: TerminalPhase)
    | Admitted(admitted: AdmittedPhase)
    | Refused(rule: AdmissionRule, phase: TerminalPhase)
    | Cancelled(cause: CancellationCause, cancellation: CancellationPhase, remaining: DrainObligations)
    | Indeterminate(rule: AdmissionRule, phase: TerminalPhase)
  {
    function Kind(): StateKind {
      match this
      case Diagnostic(_) => InDiagnostic
      case Unanchored(_) => InUnanchored
      case Admitted(_) => InAdmitted
      case Refused(_, _) => InRefused
      case Cancelled(_, _, _) => InCancelled
      case Indeterminate(_, _) => InIndeterminate
    }

    predicate AttemptIsFinalized() {
      match this
      case Diagnostic(_) => false
      case Unanchored(phase) => phase.Finalized?
      case Admitted(admitted) => admitted.Completed? || admitted.Published?
      case Refused(_, phase) => phase.Finalized?
      case Cancelled(_, cancellation, _) => cancellation.CancelFinalized?
      case Indeterminate(_, phase) => phase.Finalized?
    }
  }

  datatype AnchorObservation = Unavailable | Observed(identity: AuthorityId, generation: uint64)

  datatype BudgetCharge =
    | Work(units: uint64)
    | Memory(bytes: uint64)
    | Processes(count: uint32)
    | Files(count: uint32)
    | Output(bytes: uint64)
    | Network(requests: uint32, bytes: uint64)

  datatype BudgetConsumption = BudgetConsumption(
    workUnits: uint64, memoryBytes: uint64, processes: uint32, files: uint32, outputBytes: uint64,
    networkRequests: uint32, networkBytes: uint64, retries: uint16)

  const NO_CONSUMPTION := BudgetConsumption(0, 0, 0, 0, 0, 0, 0, 0)

  datatype RefusalReason =
    | InputRejectedReason | SourceRejectedReason | CapabilityRejectedReason | ExecutableRejectedReason
    | BudgetInfeasibleReason | DeadlineElapsedReason | PolicyDeniedReason
  {
    function Rule(): AdmissionRule {
      match this
      case InputRejectedReason => InputRejected
      case SourceRejectedReason => SourceRejected
      case CapabilityRejectedReason => CapabilityRejected
      case ExecutableRejectedReason => ExecutableRejected
      case BudgetInfeasibleReason => BudgetInfeasible
      case DeadlineElapsedReason => DeadlineExceeded
      case PolicyDeniedReason => PolicyDenied
    }
  }

  datatype IndeterminateReason =
    | EffectUnknownReason | DrainIncompleteReason | DrainUnobservableReason
    | FinalizationUnknownReason | StabilityChangedReason
  {
    function Rule(): AdmissionRule {
      match this
      case EffectUnknownReason => EffectOutcomeUnknown
      case DrainIncompleteReason => DrainIncomplete
      case DrainUnobservableReason => DrainObservationUnavailable
      case FinalizationUnknownReason => FinalizationOutcomeUnknown
      case StabilityChangedReason => PostEffectStabilityChanged
    }
  }

  datatype PublicationFailureReason =
    | CommitFailedReason | CommitUnknownReason | DurabilityUnknownReason | ReceiptUnknownReason
  {
    function Rule(): AdmissionRule {
      match this
      case CommitFailedReason => PublicationCommitFailed
      case CommitUnknownReason => PublicationOutcomeUnknown
      case DurabilityUnknownReason => PublicationDurabilityUnknown
      case ReceiptUnknownReason => PublicationFinalizationUnknown
    }
  }

  datatype TransitionKind =
    | KindPreflight | KindStabilityRecheck | KindCharge | KindRefuse | KindRequestCancellation
    | KindDrain | KindFinalizeTerminal | KindDeclareIndeterminate | KindBeginPublication
    | KindPublicationRecheck | KindFinalizePublication | KindRetry | KindPollCancellation
    | KindAuthorizePublication | KindPublicationFailed | KindBeginReadOnlyCompletion
    | KindCompleteReadOnly

  datatype AdmissionTransition =
    | Preflight(snapshot: AuthorityId, anchor: AnchorObservation, atTick: uint64)
    | StabilityRecheck(snapshot: AuthorityId, anchor: AnchorObservation, atTick: uint64)
    | Charge(charge: BudgetCharge, atTick: uint64)
    | Refuse(refusal: RefusalReason, observation: AuthorityId)
    | RequestCancellation(cause: CancellationCause, obligations: DrainObligations,
                          observation: AuthorityId)
    | Drain(completed: DrainObligations, observation: AuthorityId)
    | FinalizeTerminal(receipt: AuthorityId)
    | DeclareIndeterminate(uncertainty: IndeterminateReason, observation: AuthorityId)
    | BeginPublication(quiescence: AuthorityId, atTick: uint64)
    | PublicationRecheck(snapshot: AuthorityId, anchor: AnchorObservation, fence: AuthorityId,
                         atTick: uint64)
    | AuthorizePublication(receipt: AuthorityId, atTick: uint64)
    | FinalizePublication(success: PublicationSuccess)
    | PublicationFailed(failure: PublicationFailureReason, observation: AuthorityId)
    | BeginReadOnlyCompletion(quiescence: AuthorityId, atTick: uint64)
    | CompleteReadOnly(snapshot: AuthorityId, anchor: AnchorObservation, receipt: AuthorityId,
                       atTick: uint64)
    | Retry(nextCx: CxBinding, atTick: uint64)
    | PollCancellation(workSinceLastPoll: uint64, atTick: uint64)
  {
    function Kind(): TransitionKind {
      match this
      case Preflight(_, _, _) => KindPreflight
      case StabilityRecheck(_, _, _) => KindStabilityRecheck
      case Charge(_, _) => KindCharge
      case Refuse(_, _) => KindRefuse
      case RequestCancellation(_, _, _) => KindRequestCancellation
      case Drain(_, _) => KindDrain
      case FinalizeTerminal(_) => KindFinalizeTerminal
      case DeclareIndeterminate(_, _) => KindDeclareIndeterminate
      case BeginPublication(_, _) => KindBeginPublication
      case PublicationRecheck(_, _, _, _) => KindPublicationRecheck
      case AuthorizePublication(_, _) => KindAuthorizePublication
      case FinalizePublication(_) => KindFinalizePublication
      case PublicationFailed(_, _) => KindPublicationFailed
      case BeginReadOnlyCompletion(_, _) => KindBeginReadOnlyCompletion
      case CompleteReadOnly(_, _, _, _) => KindCompleteReadOnly
      case Retry(_, _) => KindRetry
      case PollCancellation(_, _) => KindPollCancellation
    }

    /** Kinds that observe no clock. */
    predicate IsTickFree() {
      || Refuse? || RequestCancellation? || Drain? || FinalizeTerminal?
      || DeclareIndeterminate? || FinalizePublication? || PublicationFailed?
    }

    function ObservedTick(): Option<uint64> {
      if IsTickFree() then None else Some(atTick)
    }
  }

  /** Coarse candidate table over state and action kinds. */
  predicate TransitionKindMayApply(from: StateKind, action: TransitionKind) {
    match from
    case InDiagnostic =>
      action in {KindPreflight, KindStabilityRecheck, KindCharge, KindPollCancellation, KindRefuse}
    case InUnanchored => action in {KindFinalizeTerminal, KindRetry}
    case InAdmitted =>
      action in {KindCharge, KindPollCancellation, KindRequestCancellation, KindDeclareIndeterminate,
                 KindBeginPublication, KindBeginReadOnlyCompletion, KindCompleteReadOnly,
                 KindPublicationRecheck, KindAuthorizePublication, KindFinalizePublication,
                 KindPublicationFailed}
    case InRefused => action in {KindFinalizeTerminal, KindRetry}
    case InIndeterminate => action == KindFinalizeTerminal
    case InCancelled =>
      action in {KindDrain, KindFinalizeTerminal, KindDeclareIndeterminate, KindRetry}
  }

  datatype AdmissionEvent = AdmissionEvent(
    sequence: uint16, attempt: uint16, from: StateKind, action: TransitionKind, to: StateKind,
    terminalRule: Option<AdmissionRule>, consumption: BudgetConsumption,
    observedTick: Option<uint64>)

  /** Every field of the machine. */
  datatype MachineState = MachineState(
    context: AdmissionContext,
    currentCx: CxBinding,
    state: AdmissionState,
    consumption: BudgetConsumption,
    attempt: uint16,
    lastObservedTick: Option<uint64>,
    history: seq<AdmissionTransition>,
    events: seq<AdmissionEvent>)

  function Initial(context: AdmissionContext): MachineState {
    MachineState(context, context.cx, Diagnostic(Created), NO_CONSUMPTION, 0, None, [], [])
  }

  // ----- Evaluating one transition -----

  datatype Evaluated = Evaluated(
    state: AdmissionState, consumption: BudgetConsumption, attempt: uint16, cx: CxBinding,
    terminalRule: Option<AdmissionRule>)

  type Verdict = Result<Evaluated, AdmissionRule>

  function MoveTo(m: MachineState, state: AdmissionState, rule: Option<AdmissionRule>): Verdict {
    Success(Evaluated(state, m.consumption, m.attempt, m.currentCx, rule))
  }

  function CheckedCharge(current: nat, added: nat, cap: nat, width: nat): (r: Result<nat, AdmissionRule>)
    ensures r.Success? ==> r.value == current + added <= cap
    ensures r.Failure? <==> current + added > width || current + added > cap
  {
    if current + added > width then Failure(BudgetOverflow)
    else if current + added > cap then Failure(BudgetExceeded)
    else Success(current + added)
  }

  function ChargeBudget(fetch: FetchAuthority, budgets: AdmissionBudgets, current: BudgetConsumption,
                        charge: BudgetCharge): Result<BudgetConsumption, AdmissionRule> {
    match charge
    case Work(units) =>
      var next :- CheckedCharge(current.workUnits, units, budgets.compute.workUnits, MAX_UINT64);
      Success(current.(workUnits := next))
    case Memory(bytes) =>
      var next :- CheckedCharge(current.memoryBytes, bytes, budgets.compute.memoryBytes, MAX_UINT64);
      Success(current.(memoryBytes := next))
    case Processes(count) =>
      var next :- CheckedCharge(current.processes, count, budgets.io.processes, MAX_UINT32);
      Success(current.(processes := next))
    case Files(count) =>
      var next :- CheckedCharge(current.files, count, budgets.io.files, MAX_UINT32);
      Success(current.(files := next))
    case Output(bytes) =>
      var next :- CheckedCharge(current.outputBytes, bytes, budgets.io.outputBytes, MAX_UINT64);
      Success(current.(outputBytes := next))
    case Network(requests, bytes) =>
      if fetch.Offline? then Failure(NetworkAuthorityDenied)
      else
        var nextRequests :-
          CheckedCharge(current.networkRequests, requests, budgets.network.requests, MAX_UINT32);
        var nextBytes :- CheckedCharge(current.networkBytes, bytes, budgets.network.bytes, MAX_UINT64);
        Success(current.(networkRequests := nextRequests, networkBytes := nextBytes))
  }

  function EvaluatePreflight(m: MachineState, snapshot: AuthorityId, anchor: AnchorObservation): Verdict {
    if m.state != Diagnostic(Created) then Failure(IllegalTransition)
    else match m.context.trustAnchor
      case UnanchoredRequest => MoveTo(m, Unanchored(Pending), Some(TrustAnchorUnavailable))
      case Anchored(identity, generation) =>
        if anchor.Unavailable? then
          MoveTo(m, Refused(TrustAnchorUnavailable, Pending), Some(TrustAnchorUnavailable))
        else if anchor == Observed(identity, generation) then
          MoveTo(m, Diagnostic(Preflighted(snapshot, identity, generation)), None)
        else MoveTo(m, Refused(TrustAnchorMismatch, Pending), Some(TrustAnchorMismatch))
  }

  function EvaluateStabilityRecheck(m: MachineState, snapshot: AuthorityId, anchor: AnchorObservation): Verdict {
    if !m.state.Diagnostic? || !m.state.diagnostic.Preflighted? then Failure(IllegalTransition)
    else
      var expected := m.state.diagnostic;
      if snapshot == expected.snapshot && anchor == Observed(expected.anchor, expected.generation) then
        MoveTo(m, Admitted(Active(snapshot, expected.anchor, expected.generation)), None)
      else MoveTo(m, Refused(StabilityChanged, Pending), Some(StabilityChanged))
  }

  /** Work is admitted while diagnosing and while active. */
  predicate AcceptsWork(state: AdmissionState) {
    state.Diagnostic? || (state.Admitted? && state.admitted.Active?)
  }

  function EvaluateCharge(m: MachineState, charge: BudgetCharge): Verdict {
    if !AcceptsWork(m.state) then Failure(IllegalTransition)
    else
      var consumption :- ChargeBudget(m.context.fetch, m.context.budgets, m.consumption, charge);
      Success(Evaluated(m.state, consumption, m.attempt, m.currentCx, None))
  }

  function EvaluatePoll(m: MachineState, work: uint64): Verdict {
    if !AcceptsWork(m.state) then Failure(IllegalTransition)
    else if work > m.currentCx.maxUnpolledWork then Failure(PollIntervalExceeded)
    else MoveTo(m, m.state, None)
  }

  function EvaluateRefuse(m: MachineState, reason: RefusalReason): Verdict {
    if !m.state.Diagnostic? then Failure(IllegalTransition)
    else MoveTo(m, Refused(reason.Rule(), Pending), Some(reason.Rule()))
  }

  predicate CanCancel(phase: AdmittedPhase) {
    phase.Active? || phase.CompletionPending? || phase.PublicationPending? || phase.PublicationReady?
  }

  function EvaluateCancel(m: MachineState, cause: CancellationCause, obligations: DrainObligations): Verdict {
    if !m.state.Admitted? || !CanCancel(m.state.admitted) then Failure(IllegalTransition)
    else MoveTo(m, Cancelled(cause, CancelRequested, obligations), None)
  }

  function EvaluateDrain(m: MachineState, completed: DrainObligations): Verdict {
    if !m.state.Cancelled? || m.state.cancellation.CancelFinalized? then Failure(IllegalTransition)
    else match m.state.remaining.CheckedSub(completed)
      case None => Failure(DrainOverrun)
      case Some(remaining) => MoveTo(m, Cancelled(m.state.cause, CancelDraining, remaining), None)
  }

  function EvaluateFinalizeTerminal(m: MachineState): Verdict {
    match m.state
    case Unanchored(Pending) => MoveTo(m, Unanchored(Finalized), None)
    case Refused(rule, Pending) => MoveTo(m, Refused(rule, Finalized), None)
    case Indeterminate(rule, Pending) => MoveTo(m, Indeterminate(rule, Finalized), None)
    case Cancelled(cause, CancelDraining, remaining) =>
      if !remaining.IsEmpty() then Failure(DrainIncomplete)
      else MoveTo(m, Cancelled(cause, CancelFinalized, remaining), None)
    case Cancelled(_, CancelRequested, _) => Failure(DrainIncomplete)
    case _ => Failure(IllegalTransition)
  }

  predicate CanDeclareIndeterminate(state: AdmissionState) {
    || (state.Admitted? && (CanCancel(state.admitted) || state.admitted.PublicationCommitting?))
    || (state.Cancelled? && !state.cancellation.CancelFinalized?)
  }

  function EvaluateDeclareIndeterminate(m: MachineState, reason: IndeterminateReason): Verdict {
    if !CanDeclareIndeterminate(m.state) then Failure(IllegalTransition)
    else MoveTo(m, Indeterminate(reason.Rule(), Pending), Some(reason.Rule()))
  }

  function EvaluateBeginReadOnly(m: MachineState, quiescence: AuthorityId): Verdict {
    if !m.state.Admitted? || !m.state.admitted.Active? then Failure(IllegalTransition)
    else if !m.context.command.AdmitsReadOnlyCompletion() || !m.context.publication.Prohibited? then
      Failure(ReadOnlyCompletionForbidden)
    else
      var active := m.state.admitted;
      MoveTo(m, Admitted(CompletionPending(active.snapshot, active.anchor, active.generation, quiescence)),
             None)
  }

  function EvaluateCompleteReadOnly(m: MachineState, snapshot: AuthorityId, anchor: AnchorObservation,
                                    receipt: AuthorityId): Verdict {
    if !m.state.Admitted? || !m.state.admitted.CompletionPending? then Failure(IllegalTransition)
    else
      var pending := m.state.admitted;
      if snapshot == pending.snapshot && anchor == Observed(pending.anchor, pending.generation) then
        MoveTo(m, Admitted(Completed(receipt)), None)
      else
        MoveTo(m, Indeterminate(PostEffectStabilityChanged, Pending), Some(PostEffectStabilityChanged))
  }

  function EvaluateBeginPublication(m: MachineState, quiescence: AuthorityId): Verdict {
    if !m.state.Admitted? || !m.state.admitted.Active? then Failure(IllegalTransition)
    else if m.context.publication.Prohibited? then Failure(PublicationAuthorityDenied)
    else
      var active := m.state.admitted;
      MoveTo(m, Admitted(PublicationPending(active.snapshot, active.anchor, active.generation, quiescence)),
             None)
  }

  function EvaluatePublicationRecheck(m: MachineState, snapshot: AuthorityId, anchor: AnchorObservation,
                                      fence: AuthorityId): Verdict {
    if !m.state.Admitted? || !m.state.admitted.PublicationPending? then Failure(IllegalTransition)
    else
      var pending := m.state.admitted;
      if snapshot == pending.snapshot && anchor == Observed(pending.anchor, pending.generation) then
        MoveTo(m, Admitted(PublicationReady(snapshot, pending.anchor, pending.generation, fence,
                                            pending.quiescence)), None)
      else
        MoveTo(m, Indeterminate(PublicationStabilityChanged, Pending), Some(PublicationStabilityChanged))
  }

  function EvaluateAuthorize(m: MachineState, receipt: AuthorityId): Verdict {
    if !m.state.Admitted? || !m.state.admitted.PublicationReady? then Failure(IllegalTransition)
    else
      var ready := m.state.admitted;
      MoveTo(m, Admitted(PublicationCommitting(ready.fence, receipt, ready.quiescence)), None)
  }

  /** The evidence names exactly this request, attempt, target, fence and receipt. */
  predicate BindsTransaction(success: PublicationSuccess, m: MachineState, target: AuthorityId,
                             fence: AuthorityId, receipt: AuthorityId) {
    && success.requestIdentity == m.context.requestIdentity
    && success.attempt == m.attempt
    && success.publicationCapability == target
    && success.fence == fence
    && success.receipt == receipt
  }

  function EvaluateFinalizePublication(m: MachineState, success: PublicationSuccess): Verdict {
    if !m.state.Admitted? || !m.state.admitted.PublicationCommitting? then Failure(IllegalTransition)
    else
      var committing := m.state.admitted;
      match m.context.publication.Target()
      case None => Failure(PublicationAuthorityDenied)
      case Some(target) =>
        if !BindsTransaction(success, m, target, committing.fence, committing.receipt) then
          Failure(PublicationSuccessEvidenceMismatch)
        else MoveTo(m, Admitted(Published(committing.receipt, success)), None)
  }

  function EvaluatePublicationFailed(m: MachineState, reason: PublicationFailureReason): Verdict {
    if !m.state.Admitted? || !m.state.admitted.PublicationCommitting? then Failure(IllegalTransition)
    else MoveTo(m, Indeterminate(reason.Rule(), Pending), Some(reason.Rule()))
  }

  predicate ReusesAttemptAuthority(next: CxBinding, prior: CxBinding) {
    || next.cx == prior.cx
    || next.cx == prior.cancellation
    || next.cancellation == prior.cx
    || next.cancellation == prior.cancellation
  }

  predicate ReusesPriorBinding(m: MachineState, next: CxBinding) {
    || ReusesAttemptAuthority(next, m.context.cx)
    || exists i | 0 <= i < |m.history| ::
         m.history[i].Retry? && ReusesAttemptAuthority(next, m.history[i].nextCx)
  }

  /** Finalized attempts other than success and indeterminate ones may be retried. */
  predicate CanRetry(state: AdmissionState) {
    && state.AttemptIsFinalized()
    && (state.Unanchored? || state.Refused? || state.Cancelled?)
  }

  function EvaluateRetry(m: MachineState, nextCx: CxBinding): Verdict {
    if m.state.Indeterminate? && m.state.phase.Finalized? then Failure(IndeterminateRetryForbidden)
    else if !CanRetry(m.state) then Failure(IllegalTransition)
    else if nextCx.clock != m.context.budgets.deadline.clock then Failure(ClockBindingMismatch)
    else if ReusesPriorBinding(m, nextCx) then Failure(RetryCxNotFresh)
    else if m.consumption.retries == MAX_UINT16 then Failure(RetryBudgetExceeded)
    else if m.consumption.retries + 1 > m.context.budgets.retries then Failure(RetryBudgetExceeded)
    else if m.attempt == MAX_UINT16 then Failure(RetryBudgetExceeded)
    else Success(Evaluated(Diagnostic(Created),
                           m.consumption.(retries := m.consumption.retries + 1),
                           m.attempt + 1, nextCx, None))
  }

  function Evaluate(m: MachineState, t: AdmissionTransition): Verdict {
    match t
    case Preflight(snapshot, anchor, _) => EvaluatePreflight(m, snapshot, anchor)
    case StabilityRecheck(snapshot, anchor, _) => EvaluateStabilityRecheck(m, snapshot, anchor)
    case Charge(charge, _) => EvaluateCharge(m, charge)
    case Refuse(reason, _) => EvaluateRefuse(m, reason)
    case RequestCancellation(cause, obligations, _) => EvaluateCancel(m, cause, obligations)
    case Drain(completed, _) => EvaluateDrain(m, completed)
    case FinalizeTerminal(_) => EvaluateFinalizeTerminal(m)
    case DeclareIndeterminate(reason, _) => EvaluateDeclareIndeterminate(m, reason)
    case BeginPublication(quiescence, _) => EvaluateBeginPublication(m, quiescence)
    case PublicationRecheck(snapshot, anchor, fence, _) =>
      EvaluatePublicationRecheck(m, snapshot, anchor, fence)
    case AuthorizePublication(receipt, _) => EvaluateAuthorize(m, receipt)
    case FinalizePublication(success) => EvaluateFinalizePublication(m, success)
    case PublicationFailed(reason, _) => EvaluatePublicationFailed(m, reason)
    case BeginReadOnlyCompletion(quiescence, _) => EvaluateBeginReadOnly(m, quiescence)
    case CompleteReadOnly(snapshot, anchor, receipt, _) =>
      EvaluateCompleteReadOnly(m, snapshot, anchor, receipt)
    case Retry(nextCx, _) => EvaluateRetry(m, nextCx)
    case PollCancellation(work, _) => EvaluatePoll(m, work)
  }

  // ----- Committing one transition -----

  /** Event slots that a state needs in order to end its attempt. */
  function MinimumTerminalEvents(state: AdmissionState): nat {
    match state
    case Diagnostic(_) => 2
    case Admitted(admitted) => if admitted.Completed? || admitted.Published? then 0 else 2
    case Unanchored(phase) => if phase.Pending? then 1 else 0
    case Refused(_, phase) => if phase.Pending? then 1 else 0
    case Indeterminate(_, phase) => if phase.Pending? then 1 else 0
    case Cancelled(_, CancelRequested, _) => 2
    case Cancelled(_, CancelDraining, remaining) => if remaining.IsEmpty() then 1 else 2
    case Cancelled(_, CancelFinalized, _) => 0
  }

  /** The clock never regresses and never passes the inclusive deadline. */
  function TickRefusal(m: MachineState, t: AdmissionTransition): Option<AdmissionRule> {
    match t.ObservedTick()
    case None => None
    case Some(tick) =>
      if m.lastObservedTick.Some? && tick < m.lastObservedTick.value then Some(ClockRegression)
      else if tick > m.context.budgets.deadline.notAfterTick then Some(DeadlineExceeded)
      else None
  }

  function EventOf(m: MachineState, t: AdmissionTransition, e: Evaluated): AdmissionEvent
    requires |m.events| <= MAX_UINT16
  {
    AdmissionEvent(|m.events|, e.attempt, m.state.Kind(), t.Kind(), e.state.Kind(), e.terminalRule,
                   e.consumption, t.ObservedTick())
  }

  function Commit(m: MachineState, t: AdmissionTransition, e: Evaluated): MachineState
    requires |m.events| <= MAX_UINT16
  {
    MachineState(m.context, e.cx, e.state, e.consumption, e.attempt,
                 if t.IsTickFree() then m.lastObservedTick else t.ObservedTick(),
                 m.history + [t], m.events + [EventOf(m, t, e)])
  }

  /** One call to apply: the machine after an accepted transition, or the rule that refused it. */
  function Step(m: MachineState, t: AdmissionTransition): Result<MachineState, AdmissionRule> {
    if |m.history| >= MAX_ADMISSION_EVENTS then Failure(EventLimitExceeded)
    else if TickRefusal(m, t).Some? then Failure(TickRefusal(m, t).value)
    else if m.state.Admitted? && (m.state.admitted.Completed? || m.state.admitted.Published?) then
      Failure(IllegalTransition)
    else if m.state.Indeterminate? && m.state.phase.Finalized? && t.Retry? then
      Failure(IndeterminateRetryForbidden)
    else if !TransitionKindMayApply(m.state.Kind(), t.Kind()) then Failure(IllegalTransition)
    else
      var e :- Evaluate(m, t);
      if MAX_ADMISSION_EVENTS - (|m.history| + 1) < MinimumTerminalEvents(e.state) then
        Failure(TerminalHeadroomRequired)
      else if |m.events| > MAX_UINT16 then Failure(EventLimitExceeded)
      else Success(Commit(m, t, e))
  }

  // ----- Runs -----

  /** A refused call leaves the machine as it was. */
  function Attempt(m: MachineState, t: AdmissionTransition): MachineState {
    match Step(m, t)
    case Success(next) => next
    case Failure(_) => m
  }

  /** Any sequence of calls, accepted or not. */
  function Run(m: MachineState, calls: seq<AdmissionTransition>): MachineState {
    if calls == [] then m
    else Attempt(Run(m, calls[..|calls| - 1]), calls[|calls| - 1])
  }

  /** A sequence of calls all of which must be accepted. */
  function Replay(m: MachineState, calls: seq<AdmissionTransition>): Result<MachineState, AdmissionRule> {
    if calls == [] then Success(m)
    else
      var prior :- Replay(m, calls[..|calls| - 1]);
      Step(prior, calls[|calls| - 1])
  }

  /** The machines that live executions produce: replaying the history gives the machine back. */
  ghost predicate Reachable(m: MachineState) {
    ValidContext(m.context) && Replay(Initial(m.context), m.history) == Success(m)
  }

  /** What an accepted step changes and what it leaves alone. */
  lemma StepFrame(m: MachineState, t: AdmissionTransition)
    requires Step(m, t).Success?
    ensures |m.events| <= MAX_UINT16 && Evaluate(m, t).Success?
    ensures Step(m, t).value == Commit(m, t, Evaluate(m, t).value)
    ensures var next := Step(m, t).value;
            && (!t.Retry? ==> next.attempt == m.attempt && next.currentCx == m.currentCx)
            && (!t.Retry? && !t.Charge? ==> next.consumption == m.consumption)
  {
  }

  lemma {:induction false} ReplayKeepsContext(m: MachineState, calls: seq<AdmissionTransition>)
    requires Replay(m, calls).Success?
    ensures Replay(m, calls).value.context == m.context
    ensures Replay(m, calls).value.history == m.history + calls
  {
    if calls != [] {
      ReplayKeepsContext(m, calls[..|calls| - 1]);
      assert calls == calls[..|calls| - 1] + [calls[|calls| - 1]];
    }
  }

  lemma InitialIsReachable(context: AdmissionContext)
    requires ValidContext(context)
    ensures Reachable(Initial(context))
  {
  }

  lemma StepKeepsReachable(m: MachineState, t: AdmissionTransition)
    requires Reachable(m)
    ensures Reachable(Attempt(m, t)) && Attempt(m, t).context == m.context
  {
    if Step(m, t).Success? {
      StepFrame(m, t);
      var calls := m.history + [t];
      assert calls[..|calls| - 1] == m.history;
    }
  }

  /** Whatever sequence of calls is made, the machine's own history replays to it: refused calls
      leave no trace. */
  lemma {:induction false} RunsAreReachable(context: AdmissionContext, calls: seq<AdmissionTransition>)
    requires ValidContext(context)
    ensures Reachable(Run(Initial(context), calls))
    ensures Run(Initial(context), calls).context == context
  {
    if calls == [] {
      InitialIsReachable(context);
    } else {
      RunsAreReachable(context, calls[..|calls| - 1]);
      StepKeepsReachable(Run(Initial(context), calls[..|calls| - 1]), calls[|calls| - 1]);
    }
  }

  lemma LastStep(m: MachineState)
    requires Reachable(m) && m.history != []
    ensures var n := |m.history| - 1;
            var earlier := Replay(Initial(m.context), m.history[..n]);
            && earlier.Success? && Reachable(earlier.value) && earlier.value.context == m.context
            && m.history == earlier.value.history + [m.history[n]]
            && Step(earlier.value, m.history[n]) == Success(m)
  {
    hide Step, ValidContext;
    var n := |m.history| - 1;
    ReplayKeepsContext(Initial(m.context), m.history[..n]);
    var prior := Replay(Initial(m.context), m.history[..n]).value;
    assert m.history == m.history[..n] + [m.history[n]];
    assert prior.history == m.history[..n] && prior.context == m.context;
  }

  /** The machine one committed step earlier. */
  ghost function Prior(m: MachineState): (prior: MachineState)
    requires Reachable(m) && m.history != []
    ensures Reachable(prior) && prior.context == m.context
    ensures m.history == prior.history + [m.history[|m.history| - 1]]
    ensures Step(prior, m.history[|m.history| - 1]) == Success(m)
  {
    hide Step, ValidContext;
    LastStep(m);
    Replay(Initial(m.context), m.history[..|m.history| - 1]).value
  }
}
