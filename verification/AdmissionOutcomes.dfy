/** What each call does to a machine with time and room left, phase by phase, and that success is within reach. */
module AdmissionOutcomes {
  import opened Wrappers
  import opened Bytes
  import opened AdmissionPolicy
  import opened AdmissionProtocol
  import opened AdmissionRuns
  import opened AdmissionProvenance

  /** One event slot for the next call, and two more for ending the attempt after it. */
  ghost predicate Open(m: MachineState) {
    Reachable(m) && |m.history| + 3 <= MAX_ADMISSION_EVENTS
  }

  predicate InTime(m: MachineState, tick: uint64) {
    && (m.lastObservedTick.Some? ==> m.lastObservedTick.value <= tick)
    && tick <= m.context.budgets.deadline.notAfterTick
  }

  /** The call is accepted, the machine goes to `state`, and the event records `rule`; the attempt is the same. */
  ghost predicate Leads(m: MachineState, t: AdmissionTransition, state: AdmissionState, rule: Option<AdmissionRule>) {
    Step(m, t).Success? &&
    var next := Step(m, t).value;
    && next.state == state
    && next.consumption == m.consumption && next.attempt == m.attempt && next.currentCx == m.currentCx
    && next.events != [] && next.events[|next.events| - 1].terminalRule == rule
  }

  ghost predicate Refuses(m: MachineState, t: AdmissionTransition, rule: AdmissionRule) {
    Step(m, t) == Failure(rule)
  }

  /** The calls that a phase listens to; some of them it may still refuse for what they carry. */
  function Listens(state: AdmissionState): set<TransitionKind> {
    match state
    case Diagnostic(Created) => {KindPreflight, KindCharge, KindPollCancellation, KindRefuse}
    case Diagnostic(Preflighted(_, _, _)) => {KindStabilityRecheck, KindCharge, KindPollCancellation, KindRefuse}
    case Unanchored(phase) => if phase.Pending? then {KindFinalizeTerminal} else {KindRetry}
    case Refused(_, phase) => if phase.Pending? then {KindFinalizeTerminal} else {KindRetry}
    case Indeterminate(_, phase) => if phase.Pending? then {KindFinalizeTerminal} else {}
    case Cancelled(_, CancelFinalized, _) => {KindRetry}
    case Cancelled(_, _, _) => {KindDrain, KindFinalizeTerminal, KindDeclareIndeterminate}
    case Admitted(Active(_, _, _)) =>
      {KindCharge, KindPollCancellation, KindRequestCancellation, KindDeclareIndeterminate,
       KindBeginPublication, KindBeginReadOnlyCompletion}
    case Admitted(CompletionPending(_, _, _, _)) =>
      {KindRequestCancellation, KindDeclareIndeterminate, KindCompleteReadOnly}
    case Admitted(PublicationPending(_, _, _, _)) =>
      {KindRequestCancellation, KindDeclareIndeterminate, KindPublicationRecheck}
    case Admitted(PublicationReady(_, _, _, _, _)) =>
      {KindRequestCancellation, KindDeclareIndeterminate, KindAuthorizePublication}
    case Admitted(PublicationCommitting(_, _, _)) =>
      {KindDeclareIndeterminate, KindFinalizePublication, KindPublicationFailed}
    case Admitted(Completed(_)) => {}
    case Admitted(Published(_, _)) => {}
  }

  /** With time and room, a step is its evaluation. */
  lemma OpenStep(m: MachineState, t: AdmissionTransition)
    requires Open(m) && (t.IsTickFree() || InTime(m, t.atTick))
    ensures |m.events| == |m.history|
    ensures Step(m, t) == match Evaluate(m, t)
                          case Success(e) => Success(Commit(m, t, e))
                          case Failure(rule) => Failure(rule)
  {
    hide Reachable, TickRefusal, Commit, Evaluate, MinimumTerminalEvents, TransitionKindMayApply;
    LogOfReachable(m);
    InTimeIsNotRefused(m, t);
    TwoSlotsEndAnAttempt(m.state);
    CoarseRefusalsAreExact(m, t);
    if Evaluate(m, t).Success? {
      TwoSlotsEndAnAttempt(Evaluate(m, t).value.state);
    }
  }

  lemma InTimeIsNotRefused(m: MachineState, t: AdmissionTransition)
    requires t.IsTickFree() || InTime(m, t.atTick)
    ensures TickRefusal(m, t).None?
  {
  }

  lemma TwoSlotsEndAnAttempt(state: AdmissionState)
    ensures MinimumTerminalEvents(state) <= 2
  {
  }

  lemma CoarseRefusalsAreExact(m: MachineState, t: AdmissionTransition)
    ensures m.state.Admitted? && (m.state.admitted.Completed? || m.state.admitted.Published?) ==>
              Evaluate(m, t) == Failure(IllegalTransition)
    ensures m.state.Indeterminate? && m.state.phase.Finalized? && t.Retry? ==>
              Evaluate(m, t) == Failure(IndeterminateRetryForbidden)
    ensures !TransitionKindMayApply(m.state.Kind(), t.Kind())
            && !(m.state.Indeterminate? && m.state.phase.Finalized? && t.Retry?) ==>
              Evaluate(m, t) == Failure(IllegalTransition)
  {
    hide ChargeBudget, ReusesPriorBinding;
  }

  lemma EvaluationDecides(m: MachineState, t: AdmissionTransition)
    requires Open(m) && (t.IsTickFree() || InTime(m, t.atTick))
    ensures match Evaluate(m, t)
            case Success(e) =>
              e.consumption == m.consumption && e.attempt == m.attempt && e.cx == m.currentCx ==>
                Leads(m, t, e.state, e.terminalRule)
            case Failure(rule) => Refuses(m, t, rule)
  {
    hide Reachable, Step, Evaluate;
    OpenStep(m, t);
  }

  /** The calls that a phase does not listen to are illegal, and no others are. */
  lemma PhaseTable(m: MachineState, t: AdmissionTransition)
    requires Open(m) && (t.IsTickFree() || InTime(m, t.atTick))
    ensures Refuses(m, t, IllegalTransition) <==>
            t.Kind() !in Listens(m.state) && !(m.state.Indeterminate? && m.state.phase.Finalized? && t.Retry?)
    ensures m.state.Indeterminate? && m.state.phase.Finalized? && t.Retry? ==>
              Refuses(m, t, IndeterminateRetryForbidden)
  {
    hide Reachable, Step, Commit, Evaluate, Listens;
    OpenStep(m, t);
    PhasesOfEvaluate(m, t);
  }

  lemma PhasesOfEvaluate(m: MachineState, t: AdmissionTransition)
    ensures Evaluate(m, t) == Failure(IllegalTransition) <==>
            t.Kind() !in Listens(m.state) && !(m.state.Indeterminate? && m.state.phase.Finalized? && t.Retry?)
    ensures m.state.Indeterminate? && m.state.phase.Finalized? && t.Retry? ==>
              Evaluate(m, t) == Failure(IndeterminateRetryForbidden)
  {
    hide ChargeBudget, ReusesPriorBinding;
    if t.Charge? {
      ChargeIsNeverIllegal(m, t);
    }
  }

  lemma ChargeIsNeverIllegal(m: MachineState, t: AdmissionTransition)
    requires t.Charge?
    ensures ChargeBudget(m.context.fetch, m.context.budgets, m.consumption, t.charge) != Failure(IllegalTransition)
  {
  }

  /** A clock that runs backwards, a deadline that has passed, or a full log refuses every call that looks at it. */
  lemma LateCallsAreRefused(m: MachineState, t: AdmissionTransition)
    requires Reachable(m)
    ensures |m.history| == MAX_ADMISSION_EVENTS ==> Refuses(m, t, EventLimitExceeded)
    ensures |m.history| < MAX_ADMISSION_EVENTS && t.ObservedTick().Some? ==>
              && (m.lastObservedTick.Some? && t.atTick < m.lastObservedTick.value ==> Refuses(m, t, ClockRegression))
              && (m.lastObservedTick.None? || m.lastObservedTick.value <= t.atTick ==>
                    t.atTick > m.context.budgets.deadline.notAfterTick ==> Refuses(m, t, DeadlineExceeded))
  {
    hide Reachable, Evaluate, MinimumTerminalEvents, TransitionKindMayApply;
  }

  // ----- Admission -----

  /** A fresh attempt that sees the expected anchor is preflighted; any other observation ends it. */
  lemma PreflightDecides(m: MachineState, snapshot: AuthorityId, anchor: AnchorObservation, tick: uint64)
    requires Open(m) && InTime(m, tick) && m.state == Diagnostic(Created)
    ensures var t := Preflight(snapshot, anchor, tick);
            match m.context.trustAnchor
            case UnanchoredRequest => Leads(m, t, Unanchored(Pending), Some(TrustAnchorUnavailable))
            case Anchored(identity, generation) =>
              if anchor == Observed(identity, generation) then
                Leads(m, t, Diagnostic(Preflighted(snapshot, identity, generation)), None)
              else if anchor == Unavailable then
                Leads(m, t, Refused(TrustAnchorUnavailable, Pending), Some(TrustAnchorUnavailable))
              else Leads(m, t, Refused(TrustAnchorMismatch, Pending), Some(TrustAnchorMismatch))
  {
    hide Reachable, Step, Leads, Refuses;
    EvaluationDecides(m, Preflight(snapshot, anchor, tick));
  }

  /** The attempt is admitted exactly when the second look finds the same snapshot under the same anchor. */
  lemma RecheckDecides(m: MachineState, snapshot: AuthorityId, anchor: AnchorObservation, tick: uint64)
    requires Open(m) && InTime(m, tick) && m.state.Diagnostic? && m.state.diagnostic.Preflighted?
    ensures var t, seen := StabilityRecheck(snapshot, anchor, tick), m.state.diagnostic;
            if snapshot == seen.snapshot && anchor == Observed(seen.anchor, seen.generation) then
              Leads(m, t, Admitted(Active(seen.snapshot, seen.anchor, seen.generation)), None)
            else Leads(m, t, Refused(StabilityChanged, Pending), Some(StabilityChanged))
  {
    hide Reachable, Step, Leads, Refuses;
    EvaluationDecides(m, StabilityRecheck(snapshot, anchor, tick));
  }

  lemma RefuseDecides(m: MachineState, reason: RefusalReason, observation: AuthorityId)
    requires Open(m) && m.state.Diagnostic?
    ensures var rule := match reason
                        case InputRejectedReason => InputRejected
                        case SourceRejectedReason => SourceRejected
                        case CapabilityRejectedReason => CapabilityRejected
                        case ExecutableRejectedReason => ExecutableRejected
                        case BudgetInfeasibleReason => BudgetInfeasible
                        case DeadlineElapsedReason => DeadlineExceeded
                        case PolicyDeniedReason => PolicyDenied;
            Leads(m, Refuse(reason, observation), Refused(rule, Pending), Some(rule))
  {
    hide Reachable, Step, Leads, Refuses;
    EvaluationDecides(m, Refuse(reason, observation));
  }

  // ----- Work -----

  predicate Working(state: AdmissionState) {
    state.Diagnostic? || (state.Admitted? && state.admitted.Active?)
  }

  /** A poll passes exactly when no more work went unpolled than the attempt's own context allows. */
  lemma PollDecides(m: MachineState, work: uint64, tick: uint64)
    requires Open(m) && InTime(m, tick) && Working(m.state)
    ensures var t := PollCancellation(work, tick);
            if work <= m.currentCx.maxUnpolledWork then Leads(m, t, m.state, None)
            else Refuses(m, t, PollIntervalExceeded)
  {
    hide Reachable, Step, Leads, Refuses;
    EvaluationDecides(m, PollCancellation(work, tick));
  }

  /** The charge fits what is left of its budgets. */
  predicate Affordable(m: MachineState, charge: BudgetCharge) {
    var spent, caps := m.consumption, m.context.budgets;
    match charge
    case Work(units) => spent.workUnits + units <= caps.compute.workUnits
    case Memory(bytes) => spent.memoryBytes + bytes <= caps.compute.memoryBytes
    case Processes(count) => spent.processes + count <= caps.io.processes
    case Files(count) => spent.files + count <= caps.io.files
    case Output(bytes) => spent.outputBytes + bytes <= caps.io.outputBytes
    case Network(requests, bytes) =>
      && !m.context.fetch.Offline?
      && spent.networkRequests + requests <= caps.network.requests
      && spent.networkBytes + bytes <= caps.network.bytes
  }

  function Spent(c: BudgetConsumption, charge: BudgetCharge): (int, int, int, int, int, int, int) {
    var (w, m, p, f, o, r, b) :=
      (c.workUnits, c.memoryBytes, c.processes, c.files, c.outputBytes, c.networkRequests, c.networkBytes);
    match charge
    case Work(units) => (w + units, m, p, f, o, r, b)
    case Memory(bytes) => (w, m + bytes, p, f, o, r, b)
    case Processes(count) => (w, m, p + count, f, o, r, b)
    case Files(count) => (w, m, p, f + count, o, r, b)
    case Output(bytes) => (w, m, p, f, o + bytes, r, b)
    case Network(requests, bytes) => (w, m, p, f, o, r + requests, b + bytes)
  }

  /** A charge is accepted exactly when it is affordable; then it alone is added, and the state stays. */
  lemma ChargeDecides(m: MachineState, charge: BudgetCharge, tick: uint64)
    requires Open(m) && InTime(m, tick) && Working(m.state)
    ensures var step := Step(m, Charge(charge, tick));
            && (step.Success? <==> Affordable(m, charge))
            && (step.Success? ==>
                  var c := step.value.consumption;
                  && step.value.state == m.state
                  && Spent(m.consumption, charge)
                     == (c.workUnits, c.memoryBytes, c.processes, c.files, c.outputBytes,
                         c.networkRequests, c.networkBytes)
                  && c.retries == m.consumption.retries)
            && (step.Failure? ==> step.error in {BudgetOverflow, BudgetExceeded, NetworkAuthorityDenied})
            && (step == Failure(NetworkAuthorityDenied) <==> m.context.fetch.Offline? && charge.Network?)
  {
    hide Reachable, Step, ChargeBudget;
    OpenStep(m, Charge(charge, tick));
    ChargeBudgetIsExact(m, charge);
    hide Affordable, Spent, Open, InTime;
  }

  lemma ChargeBudgetIsExact(m: MachineState, charge: BudgetCharge)
    ensures var r := ChargeBudget(m.context.fetch, m.context.budgets, m.consumption, charge);
            && (r.Success? <==> Affordable(m, charge))
            && (r.Success? ==>
                  var c := r.value;
                  && Spent(m.consumption, charge)
                     == (c.workUnits, c.memoryBytes, c.processes, c.files, c.outputBytes,
                         c.networkRequests, c.networkBytes)
                  && c.retries == m.consumption.retries)
            && (r.Failure? ==> r.error in {BudgetOverflow, BudgetExceeded, NetworkAuthorityDenied})
            && (r == Failure(NetworkAuthorityDenied) <==> m.context.fetch.Offline? && charge.Network?)
  {
  }

  // ----- Read-only completion -----

  lemma ReadOnlyIsProhibited(m: MachineState)
    requires Reachable(m)
    ensures m.context.publication.Prohibited? <==> m.context.command.AdmitsReadOnlyCompletion()
  {
    hide ValidContext, Replay;
    ValidContextGrants(m.context);
  }

  /** Only a command without publication authority may close read-only. */
  lemma BeginReadOnlyDecides(m: MachineState, quiescence: AuthorityId, tick: uint64)
    requires Open(m) && InTime(m, tick) && m.state.Admitted? && m.state.admitted.Active?
    ensures var t, a := BeginReadOnlyCompletion(quiescence, tick), m.state.admitted;
            if m.context.publication.Prohibited? then
              Leads(m, t, Admitted(CompletionPending(a.snapshot, a.anchor, a.generation, quiescence)), None)
            else Refuses(m, t, ReadOnlyCompletionForbidden)
  {
    hide Reachable, Step, Leads, Refuses;
    ReadOnlyIsProhibited(m);
    hide ValidContext;
    EvaluationDecides(m, BeginReadOnlyCompletion(quiescence, tick));
  }

  lemma CompleteReadOnlyDecides(
    m: MachineState, snapshot: AuthorityId, anchor: AnchorObservation, receipt: AuthorityId, tick: uint64)
    requires Open(m) && InTime(m, tick) && m.state.Admitted? && m.state.admitted.CompletionPending?
    ensures var t, a := CompleteReadOnly(snapshot, anchor, receipt, tick), m.state.admitted;
            if snapshot == a.snapshot && anchor == Observed(a.anchor, a.generation) then
              Leads(m, t, Admitted(Completed(receipt)), None)
            else Leads(m, t, Indeterminate(PostEffectStabilityChanged, Pending), Some(PostEffectStabilityChanged))
  {
    hide Reachable, Step, Leads, Refuses;
    EvaluationDecides(m, CompleteReadOnly(snapshot, anchor, receipt, tick));
  }

  // ----- Publication -----

  lemma BeginPublicationDecides(m: MachineState, quiescence: AuthorityId, tick: uint64)
    requires Open(m) && InTime(m, tick) && m.state.Admitted? && m.state.admitted.Active?
    ensures var t, a := BeginPublication(quiescence, tick), m.state.admitted;
            if m.context.publication.Prohibited? then Refuses(m, t, PublicationAuthorityDenied)
            else Leads(m, t, Admitted(PublicationPending(a.snapshot, a.anchor, a.generation, quiescence)), None)
  {
    hide Reachable, Step, Leads, Refuses;
    EvaluationDecides(m, BeginPublication(quiescence, tick));
  }

  lemma PublicationRecheckDecides(
    m: MachineState, snapshot: AuthorityId, anchor: AnchorObservation, fence: AuthorityId, tick: uint64)
    requires Open(m) && InTime(m, tick) && m.state.Admitted? && m.state.admitted.PublicationPending?
    ensures var t, a := PublicationRecheck(snapshot, anchor, fence, tick), m.state.admitted;
            if snapshot == a.snapshot && anchor == Observed(a.anchor, a.generation) then
              Leads(m, t, Admitted(PublicationReady(a.snapshot, a.anchor, a.generation, fence, a.quiescence)), None)
            else Leads(m, t, Indeterminate(PublicationStabilityChanged, Pending), Some(PublicationStabilityChanged))
  {
    hide Reachable, Step, Leads, Refuses;
    EvaluationDecides(m, PublicationRecheck(snapshot, anchor, fence, tick));
  }

  lemma AuthorizeDecides(m: MachineState, receipt: AuthorityId, tick: uint64)
    requires Open(m) && InTime(m, tick) && m.state.Admitted? && m.state.admitted.PublicationReady?
    ensures var a := m.state.admitted;
            Leads(m, AuthorizePublication(receipt, tick),
                  Admitted(PublicationCommitting(a.fence, receipt, a.quiescence)), None)
  {
    hide Reachable, Step, Leads, Refuses;
    EvaluationDecides(m, AuthorizePublication(receipt, tick));
  }

  /** Publication succeeds exactly on evidence of this request, attempt, target, fence and receipt. */
  lemma FinalizePublicationDecides(m: MachineState, success: PublicationSuccess)
    requires Open(m) && m.state.Admitted? && m.state.admitted.PublicationCommitting?
    requires !m.context.publication.Prohibited?
    ensures var t, a := FinalizePublication(success), m.state.admitted;
            if success == PublicationSuccess(m.context.requestIdentity, m.attempt, m.context.publication.capability,
                                             a.fence, a.receipt, success.observation)
            then Leads(m, t, Admitted(Published(a.receipt, success)), None)
            else Refuses(m, t, PublicationSuccessEvidenceMismatch)
  {
    hide Reachable, Step, Leads, Refuses;
    EvaluationDecides(m, FinalizePublication(success));
  }

  lemma PublicationFailedDecides(m: MachineState, reason: PublicationFailureReason, observation: AuthorityId)
    requires Open(m) && m.state.Admitted? && m.state.admitted.PublicationCommitting?
    ensures var rule := match reason
                        case CommitFailedReason => PublicationCommitFailed
                        case CommitUnknownReason => PublicationOutcomeUnknown
                        case DurabilityUnknownReason => PublicationDurabilityUnknown
                        case ReceiptUnknownReason => PublicationFinalizationUnknown;
            Leads(m, PublicationFailed(reason, observation), Indeterminate(rule, Pending), Some(rule))
  {
    hide Reachable, Step, Leads, Refuses;
    EvaluationDecides(m, PublicationFailed(reason, observation));
  }

  // ----- Cancellation and ending -----

  /** An admitted attempt may be cancelled until its publication is authorized. */
  lemma CancelDecides(m: MachineState, cause: CancellationCause, owed: DrainObligations, observation: AuthorityId)
    requires Open(m) && m.state.Admitted?
    requires !m.state.admitted.PublicationCommitting? && !m.state.admitted.Completed? && !m.state.admitted.Published?
    ensures Leads(m, RequestCancellation(cause, owed, observation), Cancelled(cause, CancelRequested, owed), None)
  {
    hide Reachable, Step, Leads, Refuses;
    EvaluationDecides(m, RequestCancellation(cause, owed, observation));
  }

  /** A drain takes off what it completed, and more than is owed is refused. */
  lemma DrainDecides(m: MachineState, done: DrainObligations, observation: AuthorityId)
    requires Open(m) && m.state.Cancelled? && !m.state.cancellation.CancelFinalized?
    ensures var t, owed := Drain(done, observation), m.state.remaining;
            if done.processes > owed.processes || done.files > owed.files || done.outputs > owed.outputs
            then Refuses(m, t, DrainOverrun)
            else Leads(m, t, Cancelled(m.state.cause, CancelDraining,
                                       DrainObligations(owed.processes - done.processes, owed.files - done.files,
                                                        owed.outputs - done.outputs)), None)
  {
    hide Reachable, Step, Leads, Refuses;
    EvaluationDecides(m, Drain(done, observation));
  }

  /** Ending an attempt keeps why it ended. */
  lemma FinalizeDecides(m: MachineState, receipt: AuthorityId)
    requires Open(m) && (m.state.Unanchored? || m.state.Refused? || m.state.Indeterminate?) && m.state.phase.Pending?
    ensures Leads(m, FinalizeTerminal(receipt), m.state.(phase := Finalized), None)
  {
    hide Reachable, Step, Leads, Refuses;
    EvaluationDecides(m, FinalizeTerminal(receipt));
  }

  /** A cancelled attempt ends only after a drain that leaves nothing owed. */
  lemma FinalizeCancelledDecides(m: MachineState, receipt: AuthorityId)
    requires Open(m) && m.state.Cancelled? && !m.state.cancellation.CancelFinalized?
    ensures var t := FinalizeTerminal(receipt);
            if m.state.cancellation.CancelDraining? && m.state.remaining == DrainObligations(0, 0, 0)
            then Leads(m, t, m.state.(cancellation := CancelFinalized), None)
            else Refuses(m, t, DrainIncomplete)
  {
    hide Reachable, Step, Leads, Refuses;
    EvaluationDecides(m, FinalizeTerminal(receipt));
  }

  /** Until an admitted attempt has ended well, and while a cancelled one drains, its outcome may turn out unknown. */
  lemma DeclareDecides(m: MachineState, reason: IndeterminateReason, observation: AuthorityId)
    requires Open(m)
    requires || (m.state.Admitted? && !m.state.admitted.Completed? && !m.state.admitted.Published?)
             || (m.state.Cancelled? && !m.state.cancellation.CancelFinalized?)
    ensures var rule := match reason
                        case EffectUnknownReason => EffectOutcomeUnknown
                        case DrainIncompleteReason => DrainIncomplete
                        case DrainUnobservableReason => DrainObservationUnavailable
                        case FinalizationUnknownReason => FinalizationOutcomeUnknown
                        case StabilityChangedReason => PostEffectStabilityChanged;
            Leads(m, DeclareIndeterminate(reason, observation), Indeterminate(rule, Pending), Some(rule))
  {
    hide Reachable, Step, Leads, Refuses;
    EvaluationDecides(m, DeclareIndeterminate(reason, observation));
  }

  // ----- Retry -----

  /** The binding shares no identity with that of any attempt so far. */
  ghost predicate Fresh(m: MachineState, next: CxBinding) {
    && next.cx !in {m.context.cx.cx, m.context.cx.cancellation}
    && next.cancellation !in {m.context.cx.cx, m.context.cx.cancellation}
    && (forall i | 0 <= i < |m.history| && m.history[i].Retry? ::
          && next.cx !in {m.history[i].nextCx.cx, m.history[i].nextCx.cancellation}
          && next.cancellation !in {m.history[i].nextCx.cx, m.history[i].nextCx.cancellation})
  }

  /** A retry is accepted exactly when it is on the request's clock, freshly bound, and within the retry budget. */
  lemma RetryDecides(m: MachineState, next: CxBinding, tick: uint64)
    requires Open(m) && InTime(m, tick) && m.state.AttemptIsFinalized()
    requires m.state.Unanchored? || m.state.Refused? || m.state.Cancelled?
    ensures var step := Step(m, Retry(next, tick));
            && (step.Success? <==>
                  next.clock == m.context.cx.clock && Fresh(m, next) && m.attempt < m.context.budgets.retries)
            && (step.Success? ==>
                  && step.value.state == Diagnostic(Created)
                  && step.value.attempt == m.attempt + 1
                  && step.value.currentCx == next
                  && step.value.consumption.retries == m.consumption.retries + 1
                  && step.value.consumption.(retries := m.consumption.retries) == m.consumption)
            && (step.Failure? ==> step.error in {ClockBindingMismatch, RetryCxNotFresh, RetryBudgetExceeded})
            && (step == Failure(ClockBindingMismatch) <==> next.clock != m.context.cx.clock)
            && (step == Failure(RetryCxNotFresh) <==> next.clock == m.context.cx.clock && !Fresh(m, next))
  {
    hide Reachable, Step, ReusesPriorBinding, ValidContext;
    OpenStep(m, Retry(next, tick));
    RetriesCountAttempts(m);
    ClockOfRequest(m);
    FreshMeansNotReused(m, next);
    hide Fresh;
  }

  lemma ClockOfRequest(m: MachineState)
    requires Reachable(m)
    ensures m.context.budgets.deadline.clock == m.context.cx.clock
  {
    hide ValidContext, Replay;
    ValidContextGrants(m.context);
  }

  lemma FreshMeansNotReused(m: MachineState, next: CxBinding)
    ensures Fresh(m, next) <==> !ReusesPriorBinding(m, next)
  {
    if !ReusesPriorBinding(m, next) {
      forall i | 0 <= i < |m.history| && m.history[i].Retry?
        ensures !ReusesAttemptAuthority(next, m.history[i].nextCx)
      {
      }
    }
  }

  // ----- Success is within reach -----

  /** The earliest tick that a call may still carry. */
  function Now(m: MachineState): uint64 {
    if m.lastObservedTick.Some? then m.lastObservedTick.value else 0
  }

  lemma NowIsInTime(m: MachineState)
    requires Reachable(m)
    ensures InTime(m, Now(m))
  {
    hide Reachable;
    LastTickWithinDeadline(m);
  }

  lemma LastTickWithinDeadline(m: MachineState)
    requires Reachable(m)
    ensures m.lastObservedTick.Some? ==> m.lastObservedTick.value <= m.context.budgets.deadline.notAfterTick
    decreases |m.history|
  {
    hide Replay, ValidContext, Evaluate, MinimumTerminalEvents, TransitionKindMayApply;
    EmptyHistoryIsInitial(m);
    if m.history != [] {
      LastTickWithinDeadline(Prior(m));
    }
  }

  lemma StepStaysReachable(m: MachineState, t: AdmissionTransition)
    requires Reachable(m) && Step(m, t).Success?
    ensures var next := Step(m, t).value;
            Reachable(next) && next.context == m.context && |next.history| == |m.history| + 1
            && Now(next) == (if t.IsTickFree() then Now(m) else t.atTick)
  {
    hide Reachable, Evaluate;
    StepKeepsReachable(m, t);
  }

  /** The calls are all accepted, leave the attempt and the clock where they were, and end in `state`. */
  ghost predicate Reaches(m: MachineState, calls: seq<AdmissionTransition>, state: AdmissionState) {
    Replay(m, calls).Success? &&
    var next := Replay(m, calls).value;
    && Reachable(next) && next.state == state && next.context == m.context && next.attempt == m.attempt
    && Now(next) == Now(m) && |next.history| == |m.history| + |calls|
  }

  /** The machine that an accepted sequence of calls arrives at. */
  ghost function After(m: MachineState, calls: seq<AdmissionTransition>, state: AdmissionState): (next: MachineState)
    requires Reaches(m, calls, state)
    ensures Reachable(next) && next.state == state && next.context == m.context && next.attempt == m.attempt
    ensures Now(next) == Now(m) && |next.history| == |m.history| + |calls|
    ensures InTime(next, Now(m))
  {
    hide Reachable, Replay;
    NowIsInTime(Replay(m, calls).value);
    Replay(m, calls).value
  }

  lemma OneMoreCall(
    m: MachineState, calls: seq<AdmissionTransition>, state: AdmissionState, t: AdmissionTransition,
    next: AdmissionState)
    requires Reaches(m, calls, state) && Leads(After(m, calls, state), t, next, None)
    requires t.IsTickFree() || t.atTick == Now(m)
    ensures Reaches(m, calls + [t], next)
  {
    hide Reachable, Step, Replay, Now;
    StepStaysReachable(After(m, calls, state), t);
    AfterIsReplay(m, calls, state);
    ReplayLast(m, calls, t);
  }

  lemma AfterIsReplay(m: MachineState, calls: seq<AdmissionTransition>, state: AdmissionState)
    requires Reaches(m, calls, state)
    ensures Replay(m, calls) == Success(After(m, calls, state))
  {
    hide Reachable, Replay, Now;
  }

  lemma ReplayLast(m: MachineState, calls: seq<AdmissionTransition>, t: AdmissionTransition)
    requires Replay(m, calls).Success?
    ensures Replay(m, calls + [t]) == Step(Replay(m, calls).value, t)
  {
    hide Step;
    assert (calls + [t])[..|calls|] == calls;
  }

  /** Two observations of one snapshot under the expected anchor. */
  function AdmittingCalls(anchor: TrustAnchorState, snapshot: AuthorityId, tick: uint64): seq<AdmissionTransition>
    requires anchor.Anchored?
  {
    var seen := Observed(anchor.identity, anchor.generation);
    [Preflight(snapshot, seen, tick), StabilityRecheck(snapshot, seen, tick)]
  }

  lemma AdmissionIsReached(m: MachineState, snapshot: AuthorityId)
    requires Reachable(m) && |m.history| + 4 <= MAX_ADMISSION_EVENTS
    requires m.state == Diagnostic(Created) && m.context.trustAnchor.Anchored?
    ensures var anchor := m.context.trustAnchor;
            Reaches(m, AdmittingCalls(anchor, snapshot, Now(m)),
                    Admitted(Active(snapshot, anchor.identity, anchor.generation)))
  {
    hide Reachable, Step, Leads;
    var anchor, calls := m.context.trustAnchor, AdmittingCalls(m.context.trustAnchor, snapshot, Now(m));
    var seen := calls[0].anchor;
    var preflighted := Diagnostic(Preflighted(snapshot, anchor.identity, anchor.generation));
    assert Reaches(m, [], m.state);
    hide Reaches;
    PreflightDecides(After(m, [], m.state), snapshot, seen, Now(m));
    OneMoreCall(m, [], m.state, calls[0], preflighted);
    assert [] + [calls[0]] == [calls[0]];
    RecheckDecides(After(m, [calls[0]], preflighted), snapshot, seen, Now(m));
    OneMoreCall(m, [calls[0]], preflighted, calls[1],
                Admitted(Active(snapshot, anchor.identity, anchor.generation)));
    assert [calls[0]] + [calls[1]] == calls;
  }

  /** What each party contributes to a successful attempt. */
  datatype Evidence = Evidence(
    snapshot: AuthorityId, quiescence: AuthorityId, fence: AuthorityId, receipt: AuthorityId, observation: AuthorityId)

  /** Closes the work, looks a third time, authorizes and finalizes. */
  function PublishingCalls(m: MachineState, e: Evidence): seq<AdmissionTransition>
    requires m.context.trustAnchor.Anchored? && !m.context.publication.Prohibited?
  {
    var anchor := m.context.trustAnchor;
    AdmittingCalls(anchor, e.snapshot, Now(m))
    + [BeginPublication(e.quiescence, Now(m)),
       PublicationRecheck(e.snapshot, Observed(anchor.identity, anchor.generation), e.fence, Now(m)),
       AuthorizePublication(e.receipt, Now(m)),
       FinalizePublication(SuccessOf(m, e))]
  }

  function SuccessOf(m: MachineState, e: Evidence): PublicationSuccess
    requires !m.context.publication.Prohibited?
  {
    PublicationSuccess(m.context.requestIdentity, m.attempt, m.context.publication.capability, e.fence, e.receipt,
                       e.observation)
  }

  /** From every fresh anchored attempt with publication authority and room, publication is six calls away. */
  lemma PublicationIsReached(m: MachineState, e: Evidence)
    requires Reachable(m) && |m.history| + 8 <= MAX_ADMISSION_EVENTS
    requires m.state == Diagnostic(Created)
    requires m.context.trustAnchor.Anchored? && !m.context.publication.Prohibited?
    ensures Reaches(m, PublishingCalls(m, e), Admitted(Published(e.receipt, SuccessOf(m, e))))
  {
    hide Reachable, Step, Leads, Reaches;
    var anchor, calls := m.context.trustAnchor, PublishingCalls(m, e);
    var seen := Observed(anchor.identity, anchor.generation);
    var active := Admitted(Active(e.snapshot, anchor.identity, anchor.generation));
    var pending := Admitted(PublicationPending(e.snapshot, anchor.identity, anchor.generation, e.quiescence));
    var ready := Admitted(PublicationReady(e.snapshot, anchor.identity, anchor.generation, e.fence, e.quiescence));
    var committing := Admitted(PublicationCommitting(e.fence, e.receipt, e.quiescence));
    AdmissionIsReached(m, e.snapshot);
    assert calls[..2] == AdmittingCalls(anchor, e.snapshot, Now(m));
    BeginPublicationDecides(After(m, calls[..2], active), e.quiescence, Now(m));
    OneMoreCall(m, calls[..2], active, calls[2], pending);
    assert calls[..2] + [calls[2]] == calls[..3];
    PublicationRecheckDecides(After(m, calls[..3], pending), e.snapshot, seen, e.fence, Now(m));
    OneMoreCall(m, calls[..3], pending, calls[3], ready);
    assert calls[..3] + [calls[3]] == calls[..4];
    AuthorizeDecides(After(m, calls[..4], ready), e.receipt, Now(m));
    OneMoreCall(m, calls[..4], ready, calls[4], committing);
    assert calls[..4] + [calls[4]] == calls[..5];
    FinalizePublicationDecides(After(m, calls[..5], committing), SuccessOf(m, e));
    OneMoreCall(m, calls[..5], committing, calls[5], Admitted(Published(e.receipt, SuccessOf(m, e))));
    assert calls[..5] + [calls[5]] == calls;
  }

  function CompletingCalls(m: MachineState, e: Evidence): seq<AdmissionTransition>
    requires m.context.trustAnchor.Anchored?
  {
    var anchor := m.context.trustAnchor;
    AdmittingCalls(anchor, e.snapshot, Now(m))
    + [BeginReadOnlyCompletion(e.quiescence, Now(m)),
       CompleteReadOnly(e.snapshot, Observed(anchor.identity, anchor.generation), e.receipt, Now(m))]
  }

  /** From every fresh anchored attempt without publication authority and with room, completion is four calls away. */
  lemma CompletionIsReached(m: MachineState, e: Evidence)
    requires Reachable(m) && |m.history| + 6 <= MAX_ADMISSION_EVENTS
    requires m.state == Diagnostic(Created)
    requires m.context.trustAnchor.Anchored? && m.context.publication.Prohibited?
    ensures Reaches(m, CompletingCalls(m, e), Admitted(Completed(e.receipt)))
  {
    hide Reachable, Step, Leads, Reaches;
    var anchor, calls := m.context.trustAnchor, CompletingCalls(m, e);
    var seen := Observed(anchor.identity, anchor.generation);
    var active := Admitted(Active(e.snapshot, anchor.identity, anchor.generation));
    var pending := Admitted(CompletionPending(e.snapshot, anchor.identity, anchor.generation, e.quiescence));
    AdmissionIsReached(m, e.snapshot);
    assert calls[..2] == AdmittingCalls(anchor, e.snapshot, Now(m));
    BeginReadOnlyDecides(After(m, calls[..2], active), e.quiescence, Now(m));
    OneMoreCall(m, calls[..2], active, calls[2], pending);
    assert calls[..2] + [calls[2]] == calls[..3];
    CompleteReadOnlyDecides(After(m, calls[..3], pending), e.snapshot, seen, e.receipt, Now(m));
    OneMoreCall(m, calls[..3], pending, calls[3], Admitted(Completed(e.receipt)));
    assert calls[..3] + [calls[3]] == calls;
  }

  lemma {:induction false} AcceptedRun(m: MachineState, calls: seq<AdmissionTransition>)
    requires Replay(m, calls).Success?
    ensures Run(m, calls) == Replay(m, calls).value
  {
    hide Step;
    if calls != [] {
      AcceptedRun(m, calls[..|calls| - 1]);
    }
  }

  predicate IsPublished(m: MachineState) {
    m.state.Admitted? && m.state.admitted.Published?
  }

  predicate IsCompleted(m: MachineState) {
    m.state.Admitted? && m.state.admitted.Completed?
  }

  /**
   A request has a run that ends in publication exactly when it is anchored and may publish, and one
   that ends in read-only completion exactly when it is anchored and may not.
   */
  lemma SuccessIsPossible(context: AdmissionContext, e: Evidence)
    requires ValidContext(context)
    ensures (exists calls :: IsPublished(Run(Initial(context), calls)))
            <==> context.trustAnchor.Anchored? && !context.publication.Prohibited?
    ensures (exists calls :: IsCompleted(Run(Initial(context), calls)))
            <==> context.trustAnchor.Anchored? && context.publication.Prohibited?
  {
    hide Run, Replay, ValidContext, Reachable;
    var m := Initial(context);
    InitialIsReachable(context);
    if context.trustAnchor.Anchored? {
      if context.publication.Prohibited? {
        CompletionIsReached(m, e);
        AcceptedRun(m, CompletingCalls(m, e));
        assert IsCompleted(Run(m, CompletingCalls(m, e)));
      } else {
        PublicationIsReached(m, e);
        AcceptedRun(m, PublishingCalls(m, e));
        assert IsPublished(Run(m, PublishingCalls(m, e)));
      }
    }
    forall calls | IsPublished(Run(m, calls)) || IsCompleted(Run(m, calls))
      ensures context.trustAnchor.Anchored?
      ensures context.publication.Prohibited? <==> IsCompleted(Run(m, calls))
    {
      RunsAreReachable(context, calls);
      SuccessNeedsAnchor(Run(m, calls));
    }
  }

  lemma SuccessNeedsAnchor(m: MachineState)
    requires Reachable(m) && (IsPublished(m) || IsCompleted(m))
    ensures m.context.trustAnchor.Anchored? && (m.context.publication.Prohibited? <==> IsCompleted(m))
  {
    hide Reachable;
    if IsPublished(m) {
      var from, first, second, basis, fence := PublishedProvenance(m);
    } else {
      var from, first, second, basis := CompletedProvenance(m);
    }
  }
}
