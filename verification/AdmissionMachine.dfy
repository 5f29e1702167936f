/** The live machine, updated in place, and decoding by replay on a fresh one. */
module AdmissionMachines {
  import opened Wrappers
  import opened Bytes
  import opened AdmissionPolicy
  import opened AdmissionProtocol
  import opened AdmissionRuns
  import opened AdmissionCodec
  import opened AdmissionEnvelope
  import opened AdmissionRoundTrip
  import opened AdmissionWire

  class AdmissionMachine {
    const context: AdmissionContext
    var currentCx: CxBinding
    var state: AdmissionState
    var consumption: BudgetConsumption
    var attempt: uint16
    var lastObservedTick: Option<uint64>
    var history: seq<AdmissionTransition>
    var events: seq<AdmissionEvent>

    function View(): MachineState
      reads this
    {
      MachineState(context, currentCx, state, consumption, attempt, lastObservedTick, history, events)
    }

    /** Every live machine is the result of its own history. */
    ghost predicate Valid()
      reads this
    {
      Reachable(View())
    }

    constructor (context: AdmissionContext)
      requires ValidContext(context)
      ensures Valid() && View() == Initial(context)
    {
      this.context := context;
      currentCx := context.cx;
      state := Diagnostic(Created);
      consumption := NO_CONSUMPTION;
      attempt := 0;
      lastObservedTick := None;
      history := [];
      events := [];
    }

    /** Applies one transition transactionally: all checks come before any field changes. */
    method Apply(transition: AdmissionTransition) returns (r: Result<AdmissionEvent, AdmissionRule>)
      requires Valid()
      modifies this
      ensures Valid() && View() == Attempt(old(View()), transition)
      ensures match Step(old(View()), transition)
              case Success(next) =>
                && View() == next && history == old(history) + [transition]
                && |events| == |old(events)| + 1 && events[..|old(events)|] == old(events)
                && r == Success(events[|old(events)|])
              case Failure(rule) => View() == old(View()) && r == Failure(rule)
    {
      hide Evaluate, MinimumTerminalEvents, TransitionKindMayApply, Reachable;
      LogOfReachable(View());
      StepKeepsReachable(View(), transition);
      ghost var before := View();
      if |history| >= MAX_ADMISSION_EVENTS {
        return Failure(EventLimitExceeded);
      }
      if !transition.IsTickFree() {
        var tick := transition.atTick;
        if lastObservedTick.Some? && tick < lastObservedTick.value {
          return Failure(ClockRegression);
        }
        if tick > context.budgets.deadline.notAfterTick {
          return Failure(DeadlineExceeded);
        }
      }
      if state.Admitted? && (state.admitted.Completed? || state.admitted.Published?) {
        return Failure(IllegalTransition);
      }
      if state.Indeterminate? && state.phase.Finalized? && transition.Retry? {
        return Failure(IndeterminateRetryForbidden);
      }
      if !TransitionKindMayApply(state.Kind(), transition.Kind()) {
        return Failure(IllegalTransition);
      }
      var from := state.Kind();
      var evaluated :- Evaluate(View(), transition);
      var remainingCapacity := MAX_ADMISSION_EVENTS - (|history| + 1);
      if remainingCapacity < MinimumTerminalEvents(evaluated.state) {
        return Failure(TerminalHeadroomRequired);
      }
      var event := AdmissionEvent(
        |events|, evaluated.attempt, from, transition.Kind(), evaluated.state.Kind(),
        evaluated.terminalRule, evaluated.consumption, transition.ObservedTick());
      state := evaluated.state;
      consumption := evaluated.consumption;
      attempt := evaluated.attempt;
      currentCx := evaluated.cx;
      if !transition.IsTickFree() {
        lastObservedTick := Some(transition.atTick);
      }
      history := history + [transition];
      events := events + [event];
      assert View() == Commit(before, transition, evaluated);
      return Success(event);
    }

    /** Encodes policy and history; a live machine is never too large. */
    method Encode() returns (r: Result<seq<uint8>, AdmissionRule>)
      requires Valid()
      ensures r == Success(EncodeEnvelope(context, history)) == EncodeCanonical(View())
    {
      hide EncodeHeader, EncodeContext, EncodeTransition, EncodeUint16, LittleEndian, Reachable;
      EncodingNeverFails(View());
      CountCode(|history|);
      var encoder := new Encoder();
      encoder.AppendContext(context);
      encoder.Uint16(|history|);
      var i := 0;
      assert history[0..] == history;
      while i < |history|
        invariant 0 <= i <= |history|
        invariant encoder.bytes + EncodeHistory(history[i..]) == EncodeEnvelope(context, history)
      {
        ghost var before := encoder.bytes;
        assert history[i..][1..] == history[i + 1..];
        encoder.AppendTransition(history[i]);
        AppendShifts(before, EncodeTransition(history[i]), EncodeHistory(history[i + 1..]));
        i := i + 1;
      }
      assert history[i..] == [];
      assert encoder.bytes + [] == encoder.bytes;
      if |encoder.bytes| > MAX_ADMISSION_BYTES {
        return Failure(EncodedInputTooLarge);
      }
      return Success(encoder.bytes);
    }
  }

  /** Reads declaration and history; the whole input must be used. */
  method DecodeFields(bytes: seq<uint8>) returns (r: Result<(AdmissionContext, seq<AdmissionTransition>), AdmissionRule>)
    ensures r == ReadFields(bytes)
  {
    hide ReadHeader, ReadDeclaration, ReadUint16, ReadHistory, TryNew;
    var decoder := new Decoder(bytes);
    var _ :- decoder.Header();
    var declared :- decoder.Declaration();
    var _ :- TryNew(declared);
    var count :- decoder.Uint16();
    if count > MAX_ADMISSION_EVENTS {
      return Failure(EventLimitExceeded);
    }
    var calls :- decoder.History(count);
    if decoder.cursor != |bytes| {
      return Failure(TrailingBytes);
    }
    return Success((declared, calls));
  }

  /** Decodes and replays an envelope on a fresh machine. The record it returns is inert. */
  method Decode(bytes: seq<uint8>) returns (r: Result<RecordedAdmission, AdmissionRule>)
    ensures r == DecodeRecorded(bytes)
  {
    hide ReadFields, TryNew, EncodeCanonical, ReplayRecorded, Reachable;
    if |bytes| > MAX_ADMISSION_BYTES {
      return Failure(EncodedInputTooLarge);
    }
    var fields :- DecodeFields(bytes);
    FieldsOfDecoded(bytes);
    TryNewIsCanonical(fields.0);
    var replay :- ReplayOnFreshMachine(TryNew(fields.0).value, fields.1);
    var canonical := replay.Encode();
    if canonical.value != bytes {
      return Failure(NonCanonicalEncoding);
    }
    return Success(RecordedAdmission(replay.View(), canonical.value));
  }

  /** Applies every recorded call to a new machine; any refusal makes the record impossible. */
  method ReplayOnFreshMachine(context: AdmissionContext, calls: seq<AdmissionTransition>)
    returns (r: Result<AdmissionMachine, AdmissionRule>)
    requires ValidContext(context)
    ensures match ReplayRecorded(context, calls)
            case Success(m) => r.Success? && fresh(r.value) && r.value.Valid() && r.value.View() == m
            case Failure(rule) => r == Failure(rule)
  {
    hide Step, Reachable, ValidContext;
    var replay := new AdmissionMachine(context);
    var i := 0;
    while i < |calls|
      invariant 0 <= i <= |calls|
      invariant replay.Valid() && fresh(replay)
      invariant Replay(Initial(context), calls[..i]) == Success(replay.View())
    {
      assert calls[..i + 1][..i] == calls[..i];
      var event := replay.Apply(calls[i]);
      if event.Failure? {
        ReplayStopsAtRefusal(Initial(context), calls, i + 1);
        return Failure(ImpossibleHistory);
      }
      i := i + 1;
    }
    assert calls[..i] == calls;
    return Success(replay);
  }

  /** Once one call is refused, the whole sequence is. */
  lemma {:induction false} ReplayStopsAtRefusal(m: MachineState, calls: seq<AdmissionTransition>, n: nat)
    requires n <= |calls| && Replay(m, calls[..n]).Failure?
    ensures Replay(m, calls).Failure?
    decreases |calls|
  {
    if n < |calls| {
      var prefix := calls[..|calls| - 1];
      assert prefix[..n] == calls[..n];
      ReplayStopsAtRefusal(m, prefix, n);
    } else {
      assert calls[..n] == calls;
    }
  }
}
