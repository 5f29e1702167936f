/** Encoding and decoding are inverse on exactly what live machines produce. */
module AdmissionRoundTrip {
  import opened Wrappers
  import opened Bytes
  import opened AdmissionPolicy
  import opened AdmissionProtocol
  import opened AdmissionRuns
  import opened AdmissionCodec
  import opened AdmissionEnvelope

  lemma EnvelopeSize(context: AdmissionContext, history: seq<AdmissionTransition>)
    requires WithinRowLimits(context) && |history| <= MAX_ADMISSION_EVENTS
    ensures |EncodeEnvelope(context, history)| <= MAX_ADMISSION_BYTES
  {
    hide EncodeHeader, EncodeAuthority, EncodeLimits, EncodeCapabilities, EncodeHistory, LittleEndian;
    HistorySize(history);
    assert |EncodeContext(context)| <= 99 + 231 + 2 + 33 * 7;
    assert |EncodeHistory(history)| <= 163 * MAX_ADMISSION_EVENTS;
  }

  lemma ReachableBounds(m: MachineState)
    requires Reachable(m)
    ensures TryNew(m.context) == Success(m.context) && WithinRowLimits(m.context)
    ensures |m.history| <= MAX_ADMISSION_EVENTS
  {
    ValidContextGrants(m.context);
    HeadroomRemains(m);
  }

  /** No reachable machine is too large to encode. */
  lemma EncodingNeverFails(m: MachineState)
    requires Reachable(m)
    ensures EncodeCanonical(m) == Success(EncodeEnvelope(m.context, m.history))
  {
    ReachableBounds(m);
    EnvelopeSize(m.context, m.history);
  }

  /** Decoding the bytes of a reachable machine returns that machine: context, state, consumption,
      attempt, cx, tick, history and events. */
  lemma RoundTrip(m: MachineState)
    requires Reachable(m)
    ensures EncodeCanonical(m).Success?
    ensures DecodeRecorded(EncodeCanonical(m).value)
            == Success(RecordedAdmission(m, EncodeCanonical(m).value))
  {
    hide EncodeEnvelope, ReadFields, Replay, TryNew;
    ReachableBounds(m);
    EncodingNeverFails(m);
    EnvelopeSize(m.context, m.history);
    FieldsExact(EncodeEnvelope(m.context, m.history), m.context, m.history);
    ReachableReplays(m);
  }

  lemma ReachableReplays(m: MachineState)
    requires Reachable(m)
    ensures ReplayRecorded(m.context, m.history) == Success(m)
  {
  }

  /** Whatever calls are made on a live machine, its record is the machine. */
  lemma EveryRunRoundTrips(context: AdmissionContext, calls: seq<AdmissionTransition>)
    requires ValidContext(context)
    ensures var m := Run(Initial(context), calls);
            && EncodeCanonical(m).Success?
            && DecodeRecorded(EncodeCanonical(m).value).Success?
            && DecodeRecorded(EncodeCanonical(m).value).value.machine == m
  {
    hide EncodeCanonical, DecodeRecorded, Run, Reachable, ValidContext;
    RunsAreReachable(context, calls);
    RoundTrip(Run(Initial(context), calls));
  }

  lemma ReplayedIsReachable(context: AdmissionContext, history: seq<AdmissionTransition>)
    requires ValidContext(context) && ReplayRecorded(context, history).Success?
    ensures var m := ReplayRecorded(context, history).value;
            Reachable(m) && m.context == context && m.history == history
  {
    hide Step, TryNew;
    ReplayKeepsContext(Initial(context), history);
    assert [] + history == history;
  }

  /** The context, history and machine behind well-formed fields. */
  lemma FieldsOfDecoded(bytes: seq<uint8>)
    requires ReadFields(bytes).Success?
    ensures var (declared, history) := ReadFields(bytes).value;
            && WithinRowLimits(declared) && TryNew(declared).Success?
            && |history| <= MAX_ADMISSION_EVENTS
            && bytes == EncodeEnvelope(declared, history)
  {
    hide EncodeEnvelope, ReadHeader, ReadHistory, ReadUint16, ReadDeclaration, TryNew;
    var (declared, history) := ReadFields(bytes).value;
    var start := ReadHeader(bytes, 0).value;
    DeclarationEnd(bytes, start);
    hide WithinRowLimits;
    FieldsExact(bytes, declared, history);
  }

  /** Only bytes that some live machine encodes can be decoded. */
  lemma DecodedIsLive(bytes: seq<uint8>)
    requires DecodeRecorded(bytes).Success?
    ensures var r := DecodeRecorded(bytes).value;
            Reachable(r.machine) && r.canonical == bytes && EncodeCanonical(r.machine) == Success(bytes)
  {
    hide EncodeEnvelope, EncodeCanonical, ReadFields, ReplayRecorded, TryNew;
    var (declared, history) := ReadFields(bytes).value;
    TryNewIsCanonical(declared);
    ReplayedIsReachable(TryNew(declared).value, history);
  }

  /** Different reachable machines have different bytes. */
  lemma EncodingIsInjective(a: MachineState, b: MachineState)
    requires Reachable(a) && Reachable(b) && EncodeCanonical(a) == EncodeCanonical(b)
    ensures a == b
  {
    hide EncodeCanonical, DecodeRecorded, Replay, TryNew;
    RoundTrip(a);
    RoundTrip(b);
  }

  lemma CanonicalKeepsLimits(declared: AdmissionContext)
    requires TryNew(declared).Success? && WithinRowLimits(declared)
    ensures WithinRowLimits(TryNew(declared).value) && ValidContext(TryNew(declared).value)
    ensures TryNew(declared).value == declared
            <==> AscendingByKey(declared.pathCapabilities, PathKey)
                 && AscendingByKey(declared.executableCapabilities, ExecutableKey)
  {
    TryNewIsCanonical(declared);
    ValidContextGrants(TryNew(declared).value);
  }

  /** For bytes whose fields are well formed and whose history replays, the one thing that can
      still make them non-canonical is a capability row out of slot order. */
  lemma NonCanonicalExactlyWhenUnsorted(bytes: seq<uint8>)
    requires |bytes| <= MAX_ADMISSION_BYTES && ReadFields(bytes).Success?
    requires var (declared, history) := ReadFields(bytes).value;
             TryNew(declared).Success? && ReplayRecorded(TryNew(declared).value, history).Success?
    ensures var (declared, history) := ReadFields(bytes).value;
            var sorted := AscendingByKey(declared.pathCapabilities, PathKey)
                          && AscendingByKey(declared.executableCapabilities, ExecutableKey);
            && (sorted <==> DecodeRecorded(bytes).Success?)
            && (!sorted <==> DecodeRecorded(bytes) == Failure(NonCanonicalEncoding))
  {
    hide EncodeEnvelope, EncodeCanonical, ReadFields, ReplayRecorded, TryNew, AscendingByKey;
    var (declared, history) := ReadFields(bytes).value;
    var context := TryNew(declared).value;
    FieldsOfDecoded(bytes);
    CanonicalKeepsLimits(declared);
    ReplayedIsReachable(context, history);
    EncodingNeverFails(ReplayRecorded(context, history).value);
    if bytes == EncodeEnvelope(context, history) {
      FieldsExact(bytes, context, history);
    }
  }
}
