/** Where the states of a run come from: what an attempt must have observed, and in which order,
    before it may be active, completed or published. */
module AdmissionProvenance {
  import opened Wrappers
  import opened Bytes
  import opened AdmissionPolicy
  import opened AdmissionProtocol
  import opened AdmissionRuns

  /** One exact source snapshot under one exact anchor generation. */
  datatype Basis = Basis(snapshot: AuthorityId, anchor: AuthorityId, generation: uint64)

  /** `t` is an observation and it saw exactly `basis`. */
  ghost predicate Saw(t: AdmissionTransition, basis: Basis) {
    && (t.Preflight? || t.StabilityRecheck? || t.PublicationRecheck? || t.CompleteReadOnly?)
    && t.snapshot == basis.snapshot
    && t.anchor == Observed(basis.anchor, basis.generation)
  }

  predicate IsWork(t: AdmissionTransition) {
    t.Charge? || t.PollCancellation?
  }

  /** An attempt opened at position `from`: at the start of the run or right after a retry. */
  ghost predicate Opened(h: seq<AdmissionTransition>, from: nat) {
    from <= |h| && (from == 0 || h[from - 1].Retry?)
  }

  ghost predicate CreatedTrail(h: seq<AdmissionTransition>, from: nat) {
    && Opened(h, from)
    && forall k | from <= k < |h| :: IsWork(h[k])
  }

  ghost predicate PreflightTrail(m: MachineState, from: nat, first: nat, basis: Basis) {
    var h := m.history;
    && Opened(h, from) && from <= first < |h|
    && m.context.trustAnchor == Anchored(basis.anchor, basis.generation)
    && h[first].Preflight? && Saw(h[first], basis)
    && forall k | from <= k < |h| && k != first :: IsWork(h[k])
  }

  /** Up to `end`, the attempt opened at `from` made two observations of the expected anchor and
      of one snapshot, at `first` and `second`, and otherwise only charged and polled. */
  ghost predicate AdmittedTrail(m: MachineState, end: nat, from: nat, first: nat, second: nat, basis: Basis) {
    var h := m.history;
    && Opened(h, from) && from <= first < second < end <= |h|
    && m.context.trustAnchor == Anchored(basis.anchor, basis.generation)
    && h[first].Preflight? && Saw(h[first], basis)
    && h[second].StabilityRecheck? && Saw(h[second], basis)
    && forall k | from <= k < end && k != first && k != second :: IsWork(h[k])
  }

  ghost predicate Admits(m: MachineState, end: nat, basis: Basis) {
    exists from, first, second :: AdmittedTrail(m, end, from, first, second, basis)
  }

  /** The last three calls up to `end` opened, rechecked and authorized a publication. */
  ghost predicate AuthorizedTrail(m: MachineState, end: nat, basis: Basis, fence: AuthorityId,
                                  receipt: AuthorityId, quiescence: AuthorityId) {
    var h := m.history;
    && 3 <= end <= |h|
    && !m.context.publication.Prohibited?
    && h[end - 3].BeginPublication? && h[end - 3].quiescence == quiescence
    && h[end - 2].PublicationRecheck? && Saw(h[end - 2], basis) && h[end - 2].fence == fence
    && h[end - 1].AuthorizePublication? && h[end - 1].receipt == receipt
    && Admits(m, end - 3, basis)
  }

  /** The history that each state of the current attempt requires. */
  ghost predicate Provenance(m: MachineState) {
    var h, n := m.history, |m.history|;
    match m.state
    case Diagnostic(Created) => exists from :: CreatedTrail(h, from)
    case Diagnostic(Preflighted(snapshot, anchor, generation)) =>
      exists from, first :: PreflightTrail(m, from, first, Basis(snapshot, anchor, generation))
    case Admitted(Active(snapshot, anchor, generation)) => Admits(m, n, Basis(snapshot, anchor, generation))
    case Admitted(CompletionPending(snapshot, anchor, generation, quiescence)) =>
      && n > 0 && h[n - 1].BeginReadOnlyCompletion? && h[n - 1].quiescence == quiescence
      && m.context.publication.Prohibited?
      && Admits(m, n - 1, Basis(snapshot, anchor, generation))
    case Admitted(Completed(receipt)) => CompletedTrail(m, receipt)
    case Admitted(PublicationPending(snapshot, anchor, generation, quiescence)) =>
      && n > 0 && h[n - 1].BeginPublication? && h[n - 1].quiescence == quiescence
      && !m.context.publication.Prohibited?
      && Admits(m, n - 1, Basis(snapshot, anchor, generation))
    case Admitted(PublicationReady(snapshot, anchor, generation, fence, quiescence)) =>
      && n > 1 && h[n - 2].BeginPublication? && h[n - 2].quiescence == quiescence
      && !m.context.publication.Prohibited?
      && h[n - 1].PublicationRecheck? && Saw(h[n - 1], Basis(snapshot, anchor, generation))
      && h[n - 1].fence == fence
      && Admits(m, n - 2, Basis(snapshot, anchor, generation))
    case Admitted(PublicationCommitting(fence, receipt, quiescence)) =>
      exists basis :: AuthorizedTrail(m, n, basis, fence, receipt, quiescence)
    case Admitted(Published(receipt, success)) => PublishedTrail(m, receipt, success)
    case _ => true
  }

  /** A read-only success closed its work and then saw the admitted basis a third time. */
  ghost predicate CompletedTrail(m: MachineState, receipt: AuthorityId) {
    var h, n := m.history, |m.history|;
    && n > 1 && m.context.publication.Prohibited?
    && h[n - 2].BeginReadOnlyCompletion?
    && h[n - 1].CompleteReadOnly? && h[n - 1].receipt == receipt
    && exists basis :: CompletedOn(m, basis)
  }

  ghost predicate CompletedOn(m: MachineState, basis: Basis) {
    var h, n := m.history, |m.history|;
    n > 1 && Saw(h[n - 1], basis) && Admits(m, n - 2, basis)
  }

  /** A publication ran BeginPublication, PublicationRecheck, AuthorizePublication and
      FinalizePublication back to back, saw the admitted basis a third time, and its evidence
      names this request, this attempt, the declared target, the rechecked fence and the
      authorized receipt. */
  ghost predicate PublishedTrail(m: MachineState, receipt: AuthorityId, success: PublicationSuccess) {
    var h, n := m.history, |m.history|;
    && n > 0 && h[n - 1] == FinalizePublication(success)
    && m.context.publication.Target().Some?
    && exists basis, fence, quiescence :: PublishedOn(m, basis, fence, quiescence, receipt, success)
  }

  ghost predicate PublishedOn(m: MachineState, basis: Basis, fence: AuthorityId, quiescence: AuthorityId,
                              receipt: AuthorityId, success: PublicationSuccess) {
    && m.history != []
    && AuthorizedTrail(m, |m.history| - 1, basis, fence, receipt, quiescence)
    && m.context.publication.Target().Some?
    && BindsTransaction(success, m, m.context.publication.Target().value, fence, receipt)
  }

  // ----- Each step keeps the provenance of its result -----

  /** Trails read only positions below `end`, so a longer history keeps them. */
  lemma AdmitsExtends(m: MachineState, next: MachineState, t: AdmissionTransition, end: nat, basis: Basis)
    requires next.context == m.context && next.history == m.history + [t]
    requires Admits(m, end, basis)
    ensures Admits(next, end, basis)
  {
    var from, first, second :| AdmittedTrail(m, end, from, first, second, basis);
    assert AdmittedTrail(next, end, from, first, second, basis);
  }

  lemma WorkKeepsProvenance(m: MachineState, t: AdmissionTransition, e: Evaluated)
    requires Provenance(m) && IsWork(t) && AcceptsWork(m.state) && e.state == m.state
    requires |m.events| <= MAX_UINT16
    ensures Provenance(Commit(m, t, e))
  {
    var next := Commit(m, t, e);
    match m.state
    case Diagnostic(Created) =>
      var from :| CreatedTrail(m.history, from);
      assert CreatedTrail(next.history, from);
    case Diagnostic(Preflighted(snapshot, anchor, generation)) =>
      var basis := Basis(snapshot, anchor, generation);
      var from, first :| PreflightTrail(m, from, first, basis);
      assert PreflightTrail(next, from, first, basis);
    case Admitted(Active(snapshot, anchor, generation)) =>
      var basis := Basis(snapshot, anchor, generation);
      var from, first, second :| AdmittedTrail(m, |m.history|, from, first, second, basis);
      assert AdmittedTrail(next, |next.history|, from, first, second, basis);
  }

  lemma PreflightKeepsProvenance(m: MachineState, t: AdmissionTransition, e: Evaluated)
    requires Provenance(m) && t.Preflight? && Evaluate(m, t) == Success(e)
    requires |m.events| <= MAX_UINT16
    ensures Provenance(Commit(m, t, e))
  {
    if e.state.Diagnostic? {
      var from :| CreatedTrail(m.history, from);
      var d := e.state.diagnostic;
      assert PreflightTrail(Commit(m, t, e), from, |m.history|, Basis(d.snapshot, d.anchor, d.generation));
    }
  }

  lemma RecheckKeepsProvenance(m: MachineState, t: AdmissionTransition, e: Evaluated)
    requires Provenance(m) && t.StabilityRecheck? && Evaluate(m, t) == Success(e)
    requires |m.events| <= MAX_UINT16
    ensures Provenance(Commit(m, t, e))
  {
    if e.state.Admitted? {
      var d := m.state.diagnostic;
      var basis := Basis(d.snapshot, d.anchor, d.generation);
      var from, first :| PreflightTrail(m, from, first, basis);
      assert AdmittedTrail(Commit(m, t, e), |m.history| + 1, from, first, |m.history|, basis);
    }
  }

  lemma ClosingKeepsProvenance(m: MachineState, t: AdmissionTransition, e: Evaluated)
    requires Provenance(m) && Evaluate(m, t) == Success(e)
    requires t.BeginReadOnlyCompletion? || t.BeginPublication?
    requires |m.events| <= MAX_UINT16
    ensures Provenance(Commit(m, t, e))
  {
    var active := m.state.admitted;
    AdmitsExtends(m, Commit(m, t, e), t, |m.history|,
                  Basis(active.snapshot, active.anchor, active.generation));
  }

  lemma ObservingKeepsProvenance(m: MachineState, t: AdmissionTransition, e: Evaluated)
    requires Provenance(m) && Evaluate(m, t) == Success(e)
    requires t.CompleteReadOnly? || t.PublicationRecheck?
    requires |m.events| <= MAX_UINT16
    ensures Provenance(Commit(m, t, e))
  {
    if e.state.Admitted? {
      var pending := m.state.admitted;
      var basis := Basis(pending.snapshot, pending.anchor, pending.generation);
      AdmitsExtends(m, Commit(m, t, e), t, |m.history| - 1, basis);
      assert t.CompleteReadOnly? ==> CompletedOn(Commit(m, t, e), basis);
    }
  }

  lemma AuthorizeKeepsProvenance(m: MachineState, t: AdmissionTransition, e: Evaluated)
    requires Provenance(m) && t.AuthorizePublication? && Evaluate(m, t) == Success(e)
    requires |m.events| <= MAX_UINT16
    ensures Provenance(Commit(m, t, e))
  {
    assert Evaluate(m, t) == EvaluateAuthorize(m, t.receipt);
    hide Evaluate;
    var ready, next := m.state.admitted, Commit(m, t, e);
    var basis := Basis(ready.snapshot, ready.anchor, ready.generation);
    AdmitsExtends(m, next, t, |m.history| - 2, basis);
    assert AuthorizedTrail(next, |next.history|, basis, ready.fence, t.receipt, ready.quiescence);
  }

  lemma FinalizeKeepsProvenance(m: MachineState, t: AdmissionTransition, e: Evaluated)
    requires Provenance(m) && t.FinalizePublication? && Evaluate(m, t) == Success(e)
    requires |m.events| <= MAX_UINT16
    ensures Provenance(Commit(m, t, e))
  {
    assert Evaluate(m, t) == EvaluateFinalizePublication(m, t.success);
    hide Evaluate;
    var c, next, n := m.state.admitted, Commit(m, t, e), |m.history|;
    var basis :| AuthorizedTrail(m, n, basis, c.fence, c.receipt, c.quiescence);
    AdmitsExtends(m, next, t, n - 3, basis);
    assert PublishedOn(next, basis, c.fence, c.quiescence, c.receipt, t.success);
  }

  /** All other transitions lead to states without requirements. */
  lemma OtherKeepsProvenance(m: MachineState, t: AdmissionTransition, e: Evaluated)
    requires Evaluate(m, t) == Success(e) && |m.events| <= MAX_UINT16
    requires || t.Refuse? || t.RequestCancellation? || t.Drain? || t.FinalizeTerminal?
             || t.DeclareIndeterminate? || t.PublicationFailed?
    ensures Provenance(Commit(m, t, e))
  {
  }

  lemma RetryKeepsProvenance(m: MachineState, t: AdmissionTransition, e: Evaluated)
    requires t.Retry? && Evaluate(m, t) == Success(e) && |m.events| <= MAX_UINT16
    ensures Provenance(Commit(m, t, e))
  {
    assert CreatedTrail(m.history + [t], |m.history| + 1);
  }

  lemma StepKeepsProvenance(m: MachineState, t: AdmissionTransition)
    requires Provenance(m) && Step(m, t).Success?
    ensures Provenance(Step(m, t).value)
  {
    StepFrame(m, t);
    EvaluatedKeepsProvenance(m, t, Evaluate(m, t).value);
  }

  lemma EvaluatedKeepsProvenance(m: MachineState, t: AdmissionTransition, e: Evaluated)
    requires Provenance(m) && Evaluate(m, t) == Success(e) && |m.events| <= MAX_UINT16
    ensures Provenance(Commit(m, t, e))
  {
    match t
    case Charge(_, _) => WorkKeepsProvenance(m, t, e);
    case PollCancellation(_, _) => WorkKeepsProvenance(m, t, e);
    case Preflight(_, _, _) => PreflightKeepsProvenance(m, t, e);
    case StabilityRecheck(_, _, _) => RecheckKeepsProvenance(m, t, e);
    case BeginReadOnlyCompletion(_, _) => ClosingKeepsProvenance(m, t, e);
    case BeginPublication(_, _) => ClosingKeepsProvenance(m, t, e);
    case CompleteReadOnly(_, _, _, _) => ObservingKeepsProvenance(m, t, e);
    case PublicationRecheck(_, _, _, _) => ObservingKeepsProvenance(m, t, e);
    case AuthorizePublication(_, _) => AuthorizeKeepsProvenance(m, t, e);
    case FinalizePublication(_) => FinalizeKeepsProvenance(m, t, e);
    case Retry(_, _) => RetryKeepsProvenance(m, t, e);
    case _ => OtherKeepsProvenance(m, t, e);
  }

  /** Every state of every run has the history it requires. */
  lemma {:induction false} ProvenanceOfReachable(m: MachineState)
    requires Reachable(m)
    ensures Provenance(m)
    decreases |m.history|
  {
    if m.history == [] {
      EmptyHistoryIsInitial(m);
      assert CreatedTrail(m.history, 0);
    } else {
      ProvenanceOfReachable(Prior(m));
      StepKeepsProvenance(Prior(m), m.history[|m.history| - 1]);
    }
  }

  /** A published run, call by call: the whole of its last attempt and the binding of its evidence. */
  ghost predicate PublishedShape(m: MachineState, from: nat, first: nat, second: nat, basis: Basis,
                                 fence: AuthorityId) {
    var h, n := m.history, |m.history|;
    && m.state.Admitted? && m.state.admitted.Published?
    && n > 3
    && AdmittedTrail(m, n - 4, from, first, second, basis)
    && h[n - 4].BeginPublication?
    && h[n - 3].PublicationRecheck? && Saw(h[n - 3], basis) && h[n - 3].fence == fence
    && h[n - 2].AuthorizePublication? && h[n - 2].receipt == m.state.admitted.receipt
    && h[n - 1] == FinalizePublication(m.state.admitted.success)
    && m.context.publication.Target().Some?
    && BindsTransaction(m.state.admitted.success, m, m.context.publication.Target().value,
                        fence, m.state.admitted.receipt)
  }

  lemma PublishedHasShape(m: MachineState)
    returns (from: nat, first: nat, second: nat, basis: Basis, fence: AuthorityId)
    requires Provenance(m) && m.state.Admitted? && m.state.admitted.Published?
    ensures PublishedShape(m, from, first, second, basis, fence)
  {
    var receipt, success := m.state.admitted.receipt, m.state.admitted.success;
    var b, f, q :| PublishedOn(m, b, f, q, receipt, success);
    basis, fence := b, f;
    var end := |m.history| - 4;
    from, first, second :| AdmittedTrail(m, end, from, first, second, basis);
  }

  lemma PublishedProvenance(m: MachineState)
    returns (from: nat, first: nat, second: nat, basis: Basis, fence: AuthorityId)
    requires Reachable(m) && m.state.Admitted? && m.state.admitted.Published?
    ensures PublishedShape(m, from, first, second, basis, fence)
    ensures m.attempt == CountKind(m.history, KindRetry)
  {
    hide Reachable, Provenance, PublishedShape;
    ProvenanceOfReachable(m);
    RetriesCountAttempts(m);
    from, first, second, basis, fence := PublishedHasShape(m);
  }

  /** A read-only success, likewise: it holds no publication authority and saw its basis three times. */
  lemma CompletedProvenance(m: MachineState)
    returns (from: nat, first: nat, second: nat, basis: Basis)
    requires Reachable(m) && m.state.Admitted? && m.state.admitted.Completed?
    ensures m.context.publication.Prohibited? && |m.history| > 1
    ensures AdmittedTrail(m, |m.history| - 2, from, first, second, basis)
    ensures m.history[|m.history| - 2].BeginReadOnlyCompletion?
    ensures m.history[|m.history| - 1].CompleteReadOnly? && Saw(m.history[|m.history| - 1], basis)
    ensures m.history[|m.history| - 1].receipt == m.state.admitted.receipt
  {
    hide Reachable, Provenance, AdmittedTrail;
    ProvenanceOfReachable(m);
    from, first, second, basis := CompletedWitness(m);
  }

  lemma CompletedWitness(m: MachineState)
    returns (from: nat, first: nat, second: nat, basis: Basis)
    requires m.state.Admitted? && m.state.admitted.Completed? && CompletedTrail(m, m.state.admitted.receipt)
    ensures AdmittedTrail(m, |m.history| - 2, from, first, second, basis)
    ensures Saw(m.history[|m.history| - 1], basis)
  {
    basis :| CompletedOn(m, basis);
    var end := |m.history| - 2;
    from, first, second :| AdmittedTrail(m, end, from, first, second, basis);
  }

  /** A refused or unanchored attempt was never admitted: nothing it did could have had effects. */
  ghost predicate NeverAdmitted(m: MachineState, from: nat) {
    && Opened(m.history, from)
    && |m.events| == |m.history|
    && forall k | from <= k < |m.events| :: m.events[k].to != InAdmitted
  }

  lemma StepKeepsNeverAdmitted(m: MachineState, t: AdmissionTransition, from: nat)
    requires NeverAdmitted(m, from) && Step(m, t).Success? && !Step(m, t).value.state.Admitted?
    ensures NeverAdmitted(Step(m, t).value, from)
  {
    StepFrame(m, t);
    var next := Step(m, t).value;
    assert forall k | from <= k < |m.events| :: next.events[k] == m.events[k];
  }

  lemma PreEffectComesFrom(m: MachineState, t: AdmissionTransition)
    requires Step(m, t).Success? && !t.Retry?
    requires var s := Step(m, t).value.state; s.Diagnostic? || s.Refused? || s.Unanchored?
    ensures m.state.Diagnostic? || m.state.Refused? || m.state.Unanchored?
  {
    StepFrame(m, t);
  }

  lemma RetryNeverAdmitted(m: MachineState, t: AdmissionTransition)
    requires Step(m, t).Success? && t.Retry? && |m.events| == |m.history|
    ensures NeverAdmitted(Step(m, t).value, |m.history| + 1)
  {
    StepFrame(m, t);
  }

  lemma {:induction false} RefusalPrecedesEffects(m: MachineState) returns (from: nat)
    requires Reachable(m)
    requires m.state.Diagnostic? || m.state.Refused? || m.state.Unanchored?
    ensures NeverAdmitted(m, from)
    decreases |m.history|
  {
    if m.history == [] {
      EmptyHistoryIsInitial(m);
      from := 0;
    } else {
      var prior, t := Prior(m), m.history[|m.history| - 1];
      if t.Retry? {
        LogOfReachable(prior);
        RetryNeverAdmitted(prior, t);
        from := |m.history|;
      } else {
        PreEffectComesFrom(prior, t);
        from := RefusalPrecedesEffects(prior);
        StepKeepsNeverAdmitted(prior, t, from);
      }
    }
  }
}
