/** What every run of the admission machine keeps, whatever calls are made on it. */
module AdmissionRuns {
  import opened Wrappers
  import opened Bytes
  import opened AdmissionPolicy
  import opened AdmissionProtocol

  // ----- The candidate table -----

  /** The coarse table and the early refusals never decide: a call is accepted exactly when the
      exact phase guard accepts it and clock, capacity and headroom allow it. */
  lemma AcceptanceIsExact(m: MachineState, t: AdmissionTransition)
    requires |m.events| == |m.history|
    ensures Step(m, t).Success?
            <==> && |m.history| < MAX_ADMISSION_EVENTS
                 && TickRefusal(m, t).None?
                 && Evaluate(m, t).Success?
                 && |m.history| + 1 + MinimumTerminalEvents(Evaluate(m, t).value.state)
                    <= MAX_ADMISSION_EVENTS
  {
  }

  lemma EmptyHistoryIsInitial(m: MachineState)
    requires Reachable(m)
    ensures m.history == [] ==> m == Initial(m.context)
  {
  }

  // ----- Event log -----

  /** Event `i` records call `i` and starts where event `i - 1` ended. */
  ghost predicate EntryMatches(m: MachineState, i: nat)
    requires i < |m.events| == |m.history|
  {
    && m.events[i].sequence == i
    && m.events[i].action == m.history[i].Kind()
    && m.events[i].observedTick == m.history[i].ObservedTick()
    && m.events[i].from == (if i == 0 then InDiagnostic else m.events[i - 1].to)
  }

  /** The log has one matching event for each committed call and ends in the current state. */
  ghost predicate LogMatches(m: MachineState) {
    && |m.events| == |m.history|
    && (forall i | 0 <= i < |m.events| :: EntryMatches(m, i))
    && m.state.Kind() == (if m.events == [] then InDiagnostic else m.events[|m.events| - 1].to)
  }

  lemma CommitKeepsLog(m: MachineState, t: AdmissionTransition, e: Evaluated)
    requires LogMatches(m) && |m.events| <= MAX_UINT16
    ensures LogMatches(Commit(m, t, e))
  {
    var next := Commit(m, t, e);
    forall i | 0 <= i < |next.events|
      ensures EntryMatches(next, i)
    {
      if i < |m.events| {
        assert EntryMatches(m, i);
      }
    }
  }

  lemma {:induction false} LogOfReachable(m: MachineState)
    requires Reachable(m)
    ensures LogMatches(m)
    decreases |m.history|
  {
    if m.history != [] {
      LogOfReachable(Prior(m));
      var prior, t := Prior(m), m.history[|m.history| - 1];
      StepFrame(prior, t);
      CommitKeepsLog(prior, t, Evaluate(prior, t).value);
    }
  }

  // ----- Terminal headroom -----

  /** In every reachable state the slots needed to end the attempt are still free. */
  lemma HeadroomRemains(m: MachineState)
    requires Reachable(m)
    ensures |m.history| + MinimumTerminalEvents(m.state) <= MAX_ADMISSION_EVENTS
  {
    hide Evaluate, MinimumTerminalEvents, TransitionKindMayApply, TryNew;
    EmptyHistoryIsInitial(m);
    if m.history != [] {
      LogOfReachable(Prior(m));
      AcceptanceIsExact(Prior(m), m.history[|m.history| - 1]);
      StepFrame(Prior(m), m.history[|m.history| - 1]);
    } else {
      InitialHeadroom(m.context);
    }
  }

  lemma InitialHeadroom(context: AdmissionContext)
    ensures MinimumTerminalEvents(Initial(context).state) == 2
  {
  }

  predicate IsEscape(t: AdmissionTransition) {
    t.Refuse? || t.DeclareIndeterminate? || t.Drain? || t.FinalizeTerminal?
  }

  /** A way out of each state that needs no clock and no budget. */
  function EscapePlan(state: AdmissionState, evidence: AuthorityId): (plan: seq<AdmissionTransition>)
    ensures forall t | t in plan :: IsEscape(t) && t.IsTickFree()
    ensures |plan| == MinimumTerminalEvents(state)
  {
    if state.AttemptIsFinalized() then []
    else match state
      case Diagnostic(_) => [Refuse(PolicyDeniedReason, evidence), FinalizeTerminal(evidence)]
      case Admitted(_) =>
        [DeclareIndeterminate(EffectUnknownReason, evidence), FinalizeTerminal(evidence)]
      case Cancelled(_, phase, remaining) =>
        if phase.CancelDraining? && remaining.IsEmpty() then [FinalizeTerminal(evidence)]
        else [Drain(remaining, evidence), FinalizeTerminal(evidence)]
      case _ => [FinalizeTerminal(evidence)]
  }

  /** The last step of every plan finalizes. */
  lemma FinalizeEnds(m: MachineState, evidence: AuthorityId)
    requires |m.history| == |m.events| < MAX_ADMISSION_EVENTS
    requires || (m.state.Unanchored? && m.state.phase.Pending?)
             || (m.state.Refused? && m.state.phase.Pending?)
             || (m.state.Indeterminate? && m.state.phase.Pending?)
             || (m.state.Cancelled? && m.state.cancellation.CancelDraining? && m.state.remaining.IsEmpty())
    ensures Step(m, FinalizeTerminal(evidence)).Success?
    ensures Step(m, FinalizeTerminal(evidence)).value.state.AttemptIsFinalized()
  {
  }

  /** The first step of a two-step plan leads to a state that the last step finalizes. */
  lemma FirstEscapeStep(m: MachineState, evidence: AuthorityId)
    requires |m.history| == |m.events| <= MAX_ADMISSION_EVENTS - 2
    requires MinimumTerminalEvents(m.state) == 2
    ensures Step(m, EscapePlan(m.state, evidence)[0]).Success?
    ensures var next := Step(m, EscapePlan(m.state, evidence)[0]).value;
            && |next.history| == |next.events| == |m.history| + 1
            && (|| (next.state.Refused? && next.state.phase.Pending?)
                || (next.state.Indeterminate? && next.state.phase.Pending?)
                || (&& next.state.Cancelled? && next.state.cancellation.CancelDraining?
                    && next.state.remaining.IsEmpty()))
  {
  }

  lemma ReplayOne(m: MachineState, t: AdmissionTransition)
    ensures Replay(m, [t]) == Step(m, t)
  {
    assert [t][..0] == [];
    assert Replay(m, []) == Success(m);
  }

  lemma ReplayTwo(m: MachineState, first: AdmissionTransition, second: AdmissionTransition)
    requires Step(m, first).Success?
    ensures Replay(m, [first, second]) == Step(Step(m, first).value, second)
  {
    ReplayOne(m, first);
    assert [first, second][..1] == [first];
  }

  /** From every reachable state the plan is accepted, whatever the deadline, the clock and the
      remaining budgets, and it ends the attempt. */
  lemma EscapeSucceeds(m: MachineState, evidence: AuthorityId)
    requires Reachable(m)
    ensures Replay(m, EscapePlan(m.state, evidence)).Success?
    ensures Replay(m, EscapePlan(m.state, evidence)).value.state.AttemptIsFinalized()
  {
    HeadroomRemains(m);
    LogOfReachable(m);
    EscapeFromHeadroom(m, evidence);
  }

  lemma EscapeFromHeadroom(m: MachineState, evidence: AuthorityId)
    requires |m.history| == |m.events|
    requires |m.history| + MinimumTerminalEvents(m.state) <= MAX_ADMISSION_EVENTS
    ensures Replay(m, EscapePlan(m.state, evidence)).Success?
    ensures Replay(m, EscapePlan(m.state, evidence)).value.state.AttemptIsFinalized()
  {
    var plan := EscapePlan(m.state, evidence);
    if |plan| == 1 {
      FinalizeEnds(m, evidence);
      ReplayOne(m, plan[0]);
      assert plan == [plan[0]];
    } else if |plan| == 2 {
      FirstEscapeStep(m, evidence);
      FinalizeEnds(Step(m, plan[0]).value, evidence);
      ReplayTwo(m, plan[0], plan[1]);
      assert plan == [plan[0], plan[1]];
    }
  }

  lemma EscapeStepCost(m: MachineState, t: AdmissionTransition)
    requires IsEscape(t) && Step(m, t).Success?
    ensures MinimumTerminalEvents(Step(m, t).value.state) + 1 >= MinimumTerminalEvents(m.state)
  {
  }

  /** No shorter sequence of escape steps ends the attempt. */
  lemma {:induction false} EscapeIsShortest(m: MachineState, plan: seq<AdmissionTransition>)
    requires forall t | t in plan :: IsEscape(t)
    requires Replay(m, plan).Success?
    ensures MinimumTerminalEvents(Replay(m, plan).value.state) + |plan| >= MinimumTerminalEvents(m.state)
    ensures Replay(m, plan).value.state.AttemptIsFinalized() ==> |plan| >= MinimumTerminalEvents(m.state)
  {
    if plan != [] {
      var prefix, last := plan[..|plan| - 1], plan[|plan| - 1];
      EscapeIsShortest(m, prefix);
      EscapeStepCost(Replay(m, prefix).value, last);
    }
  }

  // ----- At most one publication -----

  ghost function CountKind(history: seq<AdmissionTransition>, kind: TransitionKind): (n: nat)
    ensures n <= |history|
  {
    if history == [] then 0
    else
      CountKind(history[..|history| - 1], kind)
      + if history[|history| - 1].Kind() == kind then 1 else 0
  }

  lemma CountAppend(history: seq<AdmissionTransition>, t: AdmissionTransition, kind: TransitionKind)
    ensures CountKind(history + [t], kind) == CountKind(history, kind) + if t.Kind() == kind then 1 else 0
  {
    assert (history + [t])[..|history|] == history;
  }

  /** States an authorized publication can lead to. */
  predicate AfterAuthorization(state: AdmissionState) {
    || state.Indeterminate?
    || (state.Admitted? && (state.admitted.PublicationCommitting? || state.admitted.Published?))
  }

  ghost predicate PublicationBound(m: MachineState) {
    && CountKind(m.history, KindAuthorizePublication) <= 1
    && CountKind(m.history, KindFinalizePublication)
       == (if m.state.Admitted? && m.state.admitted.Published? then 1 else 0)
    && (CountKind(m.history, KindAuthorizePublication) == 1 ==> AfterAuthorization(m.state))
    && (forall i | 0 <= i < |m.history| :: m.history[i].AuthorizePublication? ==>
          CountKind(m.history, KindAuthorizePublication) == 1)
    && (forall i, j | 0 <= i < j < |m.history| ::
          m.history[i].AuthorizePublication? ==> !m.history[j].Retry?)
  }

  /** Where authorization and publication sit among the states. */
  lemma AuthorizationMoves(m: MachineState, t: AdmissionTransition, e: Evaluated)
    requires Evaluate(m, t) == Success(e)
    ensures t.AuthorizePublication? ==> !AfterAuthorization(m.state) && AfterAuthorization(e.state)
    ensures t.FinalizePublication? <==> e.state.Admitted? && e.state.admitted.Published?
    ensures AfterAuthorization(m.state) ==> AfterAuthorization(e.state) && !t.Retry?
    ensures !(m.state.Admitted? && m.state.admitted.Published?)
  {
  }

  lemma StepKeepsPublicationBound(m: MachineState, t: AdmissionTransition)
    requires PublicationBound(m) && Step(m, t).Success?
    ensures PublicationBound(Step(m, t).value)
  {
    StepFrame(m, t);
    hide Step, Evaluate;
    AuthorizationMoves(m, t, Evaluate(m, t).value);
    CountAppend(m.history, t, KindAuthorizePublication);
    CountAppend(m.history, t, KindFinalizePublication);
  }

  /** Over all attempts of one request at most one publication is authorized and at most one
      finalizes; after an authorization the request is never retried. */
  lemma {:induction false} PublicationAtMostOnce(m: MachineState)
    requires Reachable(m)
    ensures PublicationBound(m)
    decreases |m.history|
  {
    if m.history != [] {
      var prior, t := Prior(m), m.history[|m.history| - 1];
      PublicationAtMostOnce(prior);
      StepKeepsPublicationBound(prior, t);
    }
  }

  /** Success and finalized uncertainty accept nothing further. */
  lemma FinalStatesAcceptNothing(m: MachineState, t: AdmissionTransition)
    requires || (m.state.Admitted? && (m.state.admitted.Completed? || m.state.admitted.Published?))
             || (m.state.Indeterminate? && m.state.phase.Finalized?)
    ensures Step(m, t).Failure?
  {
  }

  /** Every other finalized attempt accepts only a retry. */
  lemma FinalizedAttemptAcceptsOnlyRetry(m: MachineState, t: AdmissionTransition)
    requires m.state.AttemptIsFinalized() && Step(m, t).Success?
    ensures t.Retry? && CanRetry(m.state) && Step(m, t).value.state == Diagnostic(Created)
  {
  }

  // ----- Conservation of budgets -----

  datatype Dimension =
    | WorkUnits | MemoryBytes | ProcessStarts | FileOpens | OutputBytes
    | NetworkRequests | NetworkBytes | Retries

  ghost function Consumed(c: BudgetConsumption, d: Dimension): nat {
    match d
    case WorkUnits => c.workUnits
    case MemoryBytes => c.memoryBytes
    case ProcessStarts => c.processes
    case FileOpens => c.files
    case OutputBytes => c.outputBytes
    case NetworkRequests => c.networkRequests
    case NetworkBytes => c.networkBytes
    case Retries => c.retries
  }

  ghost function Cap(b: AdmissionBudgets, d: Dimension): nat {
    match d
    case WorkUnits => b.compute.workUnits
    case MemoryBytes => b.compute.memoryBytes
    case ProcessStarts => b.io.processes
    case FileOpens => b.io.files
    case OutputBytes => b.io.outputBytes
    case NetworkRequests => b.network.requests
    case NetworkBytes => b.network.bytes
    case Retries => b.retries
  }

  /** What one committed transition charges to one dimension. */
  ghost function ChargedBy(t: AdmissionTransition, d: Dimension): nat {
    match t
    case Retry(_, _) => if d == Retries then 1 else 0
    case Charge(charge, _) =>
      (match charge
       case Work(units) => if d == WorkUnits then units else 0
       case Memory(bytes) => if d == MemoryBytes then bytes else 0
       case Processes(count) => if d == ProcessStarts then count else 0
       case Files(count) => if d == FileOpens then count else 0
       case Output(bytes) => if d == OutputBytes then bytes else 0
       case Network(requests, bytes) =>
         if d == NetworkRequests then requests else if d == NetworkBytes then bytes else 0)
    case _ => 0
  }

  ghost function TotalCharged(history: seq<AdmissionTransition>, d: Dimension): nat {
    if history == [] then 0
    else TotalCharged(history[..|history| - 1], d) + ChargedBy(history[|history| - 1], d)
  }

  lemma ChargedAppend(history: seq<AdmissionTransition>, t: AdmissionTransition, d: Dimension)
    ensures TotalCharged(history + [t], d) == TotalCharged(history, d) + ChargedBy(t, d)
  {
    assert (history + [t])[..|history|] == history;
  }

  lemma StepConserves(m: MachineState, t: AdmissionTransition, d: Dimension)
    requires Step(m, t).Success?
    ensures Consumed(Step(m, t).value.consumption, d) == Consumed(m.consumption, d) + ChargedBy(t, d)
    ensures Consumed(m.consumption, d) <= Cap(m.context.budgets, d)
            ==> Consumed(Step(m, t).value.consumption, d) <= Cap(m.context.budgets, d)
    ensures Step(m, t).value.attempt == m.attempt + ChargedBy(t, Retries)
  {
    StepFrame(m, t);
    if t.Charge? {
      ChargeConserves(m, t.charge, d);
    }
  }

  lemma ChargeConserves(m: MachineState, charge: BudgetCharge, d: Dimension)
    requires EvaluateCharge(m, charge).Success?
    ensures var next := EvaluateCharge(m, charge).value.consumption;
            && Consumed(next, d) == Consumed(m.consumption, d) + ChargedBy(Charge(charge, 0), d)
            && (Consumed(m.consumption, d) <= Cap(m.context.budgets, d)
                ==> Consumed(next, d) <= Cap(m.context.budgets, d))
  {
  }

  /** Consumption of each dimension is the sum of everything ever charged to it, across all
      attempts, and stays within its cap. */
  lemma {:induction false} BudgetsAreConserved(m: MachineState, d: Dimension)
    requires Reachable(m)
    ensures Consumed(m.consumption, d) == TotalCharged(m.history, d) <= Cap(m.context.budgets, d)
    decreases |m.history|
  {
    if m.history == [] {
      EmptyHistoryIsInitial(m);
    } else {
      var prior, t := Prior(m), m.history[|m.history| - 1];
      BudgetsAreConserved(prior, d);
      StepConserves(prior, t, d);
      ChargedAppend(prior.history, t, d);
    }
  }

  lemma StepCountsRetries(m: MachineState, t: AdmissionTransition)
    requires Step(m, t).Success?
    requires m.attempt == m.consumption.retries == CountKind(m.history, KindRetry)
    ensures var next := Step(m, t).value;
            next.attempt == next.consumption.retries == CountKind(next.history, KindRetry)
  {
    StepFrame(m, t);
    StepConserves(m, t, Retries);
    CountAppend(m.history, t, KindRetry);
  }

  lemma {:induction false} RetriesAreCounted(m: MachineState)
    requires Reachable(m)
    ensures m.attempt == m.consumption.retries == CountKind(m.history, KindRetry)
    decreases |m.history|
  {
    if m.history == [] {
      EmptyHistoryIsInitial(m);
    } else {
      RetriesAreCounted(Prior(m));
      StepCountsRetries(Prior(m), m.history[|m.history| - 1]);
    }
  }

  /** Retries, attempts and committed Retry steps are the same number, within the retry cap. */
  lemma RetriesCountAttempts(m: MachineState)
    requires Reachable(m)
    ensures m.attempt == m.consumption.retries == CountKind(m.history, KindRetry) <= m.context.budgets.retries
  {
    hide Reachable;
    RetriesAreCounted(m);
    BudgetsAreConserved(m, Retries);
  }

  /** An offline request never spends anything on the network, however large the charges asked. */
  lemma OfflineSpendsNoNetwork(m: MachineState, d: Dimension)
    requires Reachable(m) && m.context.fetch.Offline?
    requires d == NetworkRequests || d == NetworkBytes
    ensures Consumed(m.consumption, d) == 0
  {
    ValidContextGrants(m.context);
    BudgetsAreConserved(m, d);
  }

  // ----- The clock -----

  /** Observed ticks never decrease and never pass the deadline. */
  ghost predicate ClockIsMonotone(m: MachineState) {
    && (forall i | 0 <= i < |m.history| :: !m.history[i].IsTickFree() ==>
          && m.history[i].atTick <= m.context.budgets.deadline.notAfterTick
          && m.lastObservedTick.Some? && m.history[i].atTick <= m.lastObservedTick.value)
    && (forall i, j | 0 <= i < j < |m.history| ::
          !m.history[i].IsTickFree() && !m.history[j].IsTickFree()
          ==> m.history[i].atTick <= m.history[j].atTick)
  }

  lemma StepKeepsClock(m: MachineState, t: AdmissionTransition, e: Evaluated)
    requires ClockIsMonotone(m) && TickRefusal(m, t).None? && |m.events| <= MAX_UINT16
    ensures ClockIsMonotone(Commit(m, t, e))
  {
  }

  lemma {:induction false} ClockOfReachable(m: MachineState)
    requires Reachable(m)
    ensures ClockIsMonotone(m)
    decreases |m.history|
  {
    if m.history != [] {
      var prior, t := Prior(m), m.history[|m.history| - 1];
      ClockOfReachable(prior);
      StepFrame(prior, t);
      StepKeepsClock(prior, t, Evaluate(prior, t).value);
    }
  }

  // ----- Fresh identities for every attempt -----

  /** The cx and cancellation identities of every attempt so far, in order. */
  ghost function AttemptIdentities(context: AdmissionContext, history: seq<AdmissionTransition>): seq<AuthorityId> {
    if history == [] then [context.cx.cx, context.cx.cancellation]
    else
      var t := history[|history| - 1];
      AttemptIdentities(context, history[..|history| - 1])
      + if t.Retry? then [t.nextCx.cx, t.nextCx.cancellation] else []
  }

  ghost predicate AllDistinct<T>(items: seq<T>) {
    forall i, j | 0 <= i < j < |items| :: items[i] != items[j]
  }

  lemma {:induction false} FreshBindingIsNew(m: MachineState, h: seq<AdmissionTransition>, next: CxBinding)
    requires h <= m.history && !ReusesPriorBinding(m, next)
    ensures next.cx !in AttemptIdentities(m.context, h)
    ensures next.cancellation !in AttemptIdentities(m.context, h)
    decreases |h|
  {
    if h != [] {
      FreshBindingIsNew(m, h[..|h| - 1], next);
      assert h[|h| - 1] == m.history[|h| - 1];
    }
  }

  ghost predicate IdentitiesFresh(m: MachineState) {
    var ids := AttemptIdentities(m.context, m.history);
    && |ids| == 2 * (m.attempt + 1)
    && AllDistinct(ids)
    && m.context.cx.clock !in ids
    && ids[|ids| - 2] == m.currentCx.cx && ids[|ids| - 1] == m.currentCx.cancellation
    && m.currentCx.clock == m.context.cx.clock == m.context.budgets.deadline.clock
  }

  lemma IdentitiesAppend(context: AdmissionContext, h: seq<AdmissionTransition>, t: AdmissionTransition)
    ensures AttemptIdentities(context, h + [t])
            == AttemptIdentities(context, h)
               + if t.Retry? then [t.nextCx.cx, t.nextCx.cancellation] else []
  {
    assert (h + [t])[..|h|] == h;
  }

  lemma RetryKeepsIdentities(m: MachineState, t: AdmissionTransition, e: Evaluated)
    requires IdentitiesFresh(m) && t.Retry?
    requires EvaluateRetry(m, t.nextCx) == Success(e) && |m.events| <= MAX_UINT16
    ensures IdentitiesFresh(Commit(m, t, e))
  {
    IdentitiesAppend(m.context, m.history, t);
    FreshBindingIsNew(m, m.history, t.nextCx);
  }

  lemma StepKeepsIdentities(m: MachineState, t: AdmissionTransition)
    requires IdentitiesFresh(m) && Step(m, t).Success?
    ensures IdentitiesFresh(Step(m, t).value)
  {
    StepFrame(m, t);
    if t.Retry? {
      RetryKeepsIdentities(m, t, Evaluate(m, t).value);
    } else {
      IdentitiesAppend(m.context, m.history, t);
    }
  }

  /** After k retries all 2(k+1) attempt identities are pairwise distinct and differ from the one
      clock, which never changes. */
  lemma {:induction false} AttemptIdentitiesAreFresh(m: MachineState)
    requires Reachable(m)
    ensures IdentitiesFresh(m)
    decreases |m.history|
  {
    if m.history == [] {
      EmptyHistoryIsInitial(m);
    } else {
      AttemptIdentitiesAreFresh(Prior(m));
      StepKeepsIdentities(Prior(m), m.history[|m.history| - 1]);
    }
  }

  // ----- Cancellation drains exactly what was outstanding -----

  datatype Amounts = Amounts(processes: nat, files: nat, outputs: nat)

  ghost function AmountsOf(o: DrainObligations): Amounts {
    Amounts(o.processes, o.files, o.outputs)
  }

  ghost function Plus(a: Amounts, b: Amounts): Amounts {
    Amounts(a.processes + b.processes, a.files + b.files, a.outputs + b.outputs)
  }

  /** Everything drained from position `from` on. */
  ghost function DrainedSince(history: seq<AdmissionTransition>, from: nat): Amounts
    decreases |history|
  {
    if |history| <= from then Amounts(0, 0, 0)
    else
      var t := history[|history| - 1];
      var before := DrainedSince(history[..|history| - 1], from);
      if t.Drain? then Plus(before, AmountsOf(t.completed)) else before
  }

  lemma DrainedAppend(history: seq<AdmissionTransition>, t: AdmissionTransition, from: nat)
    requires from <= |history|
    ensures DrainedSince(history + [t], from)
            == if t.Drain? then Plus(DrainedSince(history, from), AmountsOf(t.completed))
               else DrainedSince(history, from)
  {
    assert (history + [t])[..|history|] == history;
  }

  /** Position `at` requested the cancellation, and only drains follow, up to position `end`. */
  ghost predicate DrainTrail(history: seq<AdmissionTransition>, at: nat, end: nat) {
    && at < end <= |history|
    && history[at].RequestCancellation?
    && forall k | at < k < end :: history[k].Drain?
  }

  ghost predicate CancellationTrail(m: MachineState, at: nat) {
    && m.state.Cancelled?
    && var n := |m.history|;
       && (match m.state.cancellation
           case CancelRequested => at == n - 1 && DrainTrail(m.history, at, n)
           case CancelDraining => at < n - 1 && DrainTrail(m.history, at, n)
           case CancelFinalized =>
             && at < n - 2 && DrainTrail(m.history, at, n - 1)
             && m.history[n - 1].FinalizeTerminal? && m.state.remaining.IsEmpty())
       && Plus(DrainedSince(m.history, at + 1), AmountsOf(m.state.remaining))
          == AmountsOf(m.history[at].obligations)
  }

  lemma RequestStartsTrail(m: MachineState, t: AdmissionTransition)
    requires Step(m, t).Success? && t.RequestCancellation?
    ensures CancellationTrail(Step(m, t).value, |m.history|)
  {
    StepFrame(m, t);
    assert DrainedSince(m.history + [t], |m.history| + 1) == Amounts(0, 0, 0);
  }

  lemma DrainKeepsTrail(m: MachineState, t: AdmissionTransition, at: nat)
    requires Step(m, t).Success? && t.Drain? && CancellationTrail(m, at)
    ensures CancellationTrail(Step(m, t).value, at)
  {
    StepFrame(m, t);
    assert Evaluate(m, t) == EvaluateDrain(m, t.completed);
    DrainedAppend(m.history, t, at + 1);
  }

  lemma FinalizeKeepsTrail(m: MachineState, t: AdmissionTransition, at: nat)
    requires Step(m, t).Success? && t.FinalizeTerminal? && CancellationTrail(m, at)
    ensures CancellationTrail(Step(m, t).value, at)
  {
    StepFrame(m, t);
    assert Evaluate(m, t) == EvaluateFinalizeTerminal(m);
    DrainedAppend(m.history, t, at + 1);
  }

  lemma CancelledComesFrom(m: MachineState, t: AdmissionTransition)
    requires Step(m, t).Success? && Step(m, t).value.state.Cancelled?
    ensures t.RequestCancellation? || (m.state.Cancelled? && (t.Drain? || t.FinalizeTerminal?))
  {
    StepFrame(m, t);
  }

  /** A cancelled attempt is one request, then drains; what was drained and what remains always
      add up to the obligations fixed by the request. A finalized cancellation has drained at
      least once and leaves nothing. */
  lemma {:induction false} CancellationDrainsExactly(m: MachineState) returns (at: nat)
    requires Reachable(m) && m.state.Cancelled?
    ensures CancellationTrail(m, at)
    decreases |m.history|
  {
    EmptyHistoryIsInitial(m);
    var prior, t := Prior(m), m.history[|m.history| - 1];
    CancelledComesFrom(prior, t);
    if t.RequestCancellation? {
      at := |m.history| - 1;
      RequestStartsTrail(prior, t);
    } else {
      at := CancellationDrainsExactly(prior);
      if t.Drain? {
        DrainKeepsTrail(prior, t, at);
      } else {
        FinalizeKeepsTrail(prior, t, at);
      }
    }
  }
}
