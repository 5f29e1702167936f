/**
 The canonical byte form of contexts and transitions, as functions: `Encode*` gives the bytes,
 `Read*` reads them back at an offset, and for each type one lemma says that a read returns `x`
 exactly when the encoding of `x` stands at that offset.
 */
module AdmissionCodec {
  import opened Wrappers
  import opened Bytes
  import opened AdmissionPolicy
  import opened AdmissionProtocol

  const ADMISSION_VERSION := 3
  const ADMISSION_SCHEMA := "frankensim-constellation-admission-v3"
  const ADMISSION_DOMAIN := "org.frankensim.xtask.constellation-admission.v3"

  /** A value together with the offset after it. */
  type Parsed<T> = Result<(T, nat), AdmissionRule>

  // ----- Integers and identities -----

  function Read(bytes: seq<uint8>, pos: nat, width: nat): (r: Parsed<nat>)
    ensures r.Success? ==> r.value.0 < Pow256(width) && r.value.1 == pos + width
  {
    if pos + width <= |bytes| then Success((FromLittleEndian(bytes[pos..pos + width]), pos + width))
    else Failure(TruncatedEncoding)
  }

  lemma ReadAt(bytes: seq<uint8>, pos: nat, width: nat, value: nat)
    requires value < Pow256(width)
    ensures At(bytes, pos, LittleEndian(value, width)) <==> Read(bytes, pos, width) == Success((value, pos + width))
  {
    LittleEndianAt(bytes, pos, width, value);
  }

  function EncodeUint8(value: uint8): (code: seq<uint8>)
    ensures |code| == 1
  {
    LittleEndian(value, 1)
  }

  function EncodeUint16(value: uint16): (code: seq<uint8>)
    ensures |code| == 2
  {
    LittleEndian(value, 2)
  }

  function EncodeUint32(value: uint32): (code: seq<uint8>)
    ensures |code| == 4
  {
    LittleEndian(value, 4)
  }

  function EncodeUint64(value: uint64): (code: seq<uint8>)
    ensures |code| == 8
  {
    LittleEndian(value, 8)
  }

  function EncodeId(id: AuthorityId): (code: seq<uint8>)
    ensures |code| == ID_BYTES
  {
    LittleEndian(id, ID_BYTES)
  }

  function ReadUint8(bytes: seq<uint8>, pos: nat): (r: Parsed<uint8>)
    ensures r.Success? ==> r.value.1 == pos + 1
  {
    var (value, next) :- Read(bytes, pos, 1);
    Pow256Values();
    Success((value, next))
  }

  function ReadUint16(bytes: seq<uint8>, pos: nat): (r: Parsed<uint16>)
    ensures r.Success? ==> r.value.1 == pos + 2
  {
    var (value, next) :- Read(bytes, pos, 2);
    Pow256Values();
    Success((value, next))
  }

  function ReadUint32(bytes: seq<uint8>, pos: nat): (r: Parsed<uint32>)
    ensures r.Success? ==> r.value.1 == pos + 4
  {
    var (value, next) :- Read(bytes, pos, 4);
    Pow256Values();
    Success((value, next))
  }

  function ReadUint64(bytes: seq<uint8>, pos: nat): (r: Parsed<uint64>)
    ensures r.Success? ==> r.value.1 == pos + 8
  {
    var (value, next) :- Read(bytes, pos, 8);
    Pow256Values();
    Success((value, next))
  }

  lemma Pow256Sum(a: nat, b: nat)
    ensures Pow256(a + b) == Pow256(a) * Pow256(b)
    decreases a
  {
    if a > 0 {
      Pow256Sum(a - 1, b);
    }
  }

  lemma IdLimit()
    ensures Pow256(ID_BYTES) == ID_LIMIT
  {
    Pow256Values();
    hide Pow256;
    Pow256Sum(8, 8);
    Pow256Sum(16, 16);
  }

  function ReadId(bytes: seq<uint8>, pos: nat): (r: Parsed<AuthorityId>)
    ensures r.Success? ==> r.value.1 == pos + ID_BYTES
  {
    var (value, next) :- Read(bytes, pos, ID_BYTES);
    IdLimit();
    if value == 0 then Failure(ZeroIdentity) else Success((value, next))
  }

  lemma Uint8At(bytes: seq<uint8>, pos: nat, value: uint8)
    ensures At(bytes, pos, EncodeUint8(value)) <==> ReadUint8(bytes, pos) == Success((value, pos + 1))
  {
    Pow256Values();
    ReadAt(bytes, pos, 1, value);
  }

  lemma Uint16At(bytes: seq<uint8>, pos: nat, value: uint16)
    ensures At(bytes, pos, EncodeUint16(value)) <==> ReadUint16(bytes, pos) == Success((value, pos + 2))
  {
    Pow256Values();
    ReadAt(bytes, pos, 2, value);
  }

  lemma Uint32At(bytes: seq<uint8>, pos: nat, value: uint32)
    ensures At(bytes, pos, EncodeUint32(value)) <==> ReadUint32(bytes, pos) == Success((value, pos + 4))
  {
    Pow256Values();
    ReadAt(bytes, pos, 4, value);
  }

  lemma Uint64At(bytes: seq<uint8>, pos: nat, value: uint64)
    ensures At(bytes, pos, EncodeUint64(value)) <==> ReadUint64(bytes, pos) == Success((value, pos + 8))
  {
    Pow256Values();
    ReadAt(bytes, pos, 8, value);
  }

  lemma IdAt(bytes: seq<uint8>, pos: nat, id: AuthorityId)
    ensures At(bytes, pos, EncodeId(id)) <==> ReadId(bytes, pos) == Success((id, pos + ID_BYTES))
  {
    IdLimit();
    ReadAt(bytes, pos, ID_BYTES, id);
  }

  // ----- Several fields in a row -----

  lemma At3(bytes: seq<uint8>, pos: nat, a: seq<uint8>, b: seq<uint8>, c: seq<uint8>)
    ensures At(bytes, pos, a + b + c)
            <==> At(bytes, pos, a) && At(bytes, pos + |a|, b) && At(bytes, pos + |a| + |b|, c)
  {
    AtConcat(bytes, pos, a + b, c);
    AtConcat(bytes, pos, a, b);
  }

  lemma At4(bytes: seq<uint8>, pos: nat, a: seq<uint8>, b: seq<uint8>, c: seq<uint8>, d: seq<uint8>)
    ensures At(bytes, pos, a + b + c + d)
            <==> && At(bytes, pos, a) && At(bytes, pos + |a|, b) && At(bytes, pos + |a| + |b|, c)
                 && At(bytes, pos + |a| + |b| + |c|, d)
  {
    AtConcat(bytes, pos, a + b + c, d);
    At3(bytes, pos, a, b, c);
  }

  lemma At6(bytes: seq<uint8>, pos: nat, a: seq<uint8>, b: seq<uint8>, c: seq<uint8>, d: seq<uint8>,
            e: seq<uint8>, f: seq<uint8>)
    ensures At(bytes, pos, a + b + c + d + e + f)
            <==> && At(bytes, pos, a) && At(bytes, pos + |a|, b) && At(bytes, pos + |a| + |b|, c)
                 && At(bytes, pos + |a| + |b| + |c|, d)
                 && At(bytes, pos + |a| + |b| + |c| + |d|, e)
                 && At(bytes, pos + |a| + |b| + |c| + |d| + |e|, f)
  {
    AtConcat(bytes, pos, a + b + c + d + e, f);
    AtConcat(bytes, pos, a + b + c + d, e);
    At4(bytes, pos, a, b, c, d);
  }

  // ----- Closed vocabularies -----

  function CommandTag(command: CommandClass): uint8 {
    match command
    case DiagnosticOnly => 0
    case VerifyOnly => 1
    case Snapshot => 2
    case Bootstrap => 3
    case LockConstellation => 4
    case DsrQuality => 5
    case DsrBuild => 6
    case RchProbe => 7
    case ShellVerifyOnly => 8
    case ShellSnapshot => 9
    case ShellBootstrap => 10
  }

  function CommandFromTag(tag: uint8): (r: Option<CommandClass>)
    ensures forall c :: r == Some(c) <==> CommandTag(c) == tag
  {
    match tag
    case 0 => Some(DiagnosticOnly)
    case 1 => Some(VerifyOnly)
    case 2 => Some(Snapshot)
    case 3 => Some(Bootstrap)
    case 4 => Some(LockConstellation)
    case 5 => Some(DsrQuality)
    case 6 => Some(DsrBuild)
    case 7 => Some(RchProbe)
    case 8 => Some(ShellVerifyOnly)
    case 9 => Some(ShellSnapshot)
    case 10 => Some(ShellBootstrap)
    case _ => None
  }

  function PathFromTag(tag: uint8): (r: Option<PathSlot>)
    ensures forall s :: r == Some(s) <==> PathTag(s) == tag
  {
    match tag
    case 0 => Some(WorkspaceRoot)
    case 1 => Some(ConstellationLock)
    case 2 => Some(DestinationRoot)
    case 3 => Some(SourceCache)
    case 4 => Some(OutputRoot)
    case 5 => Some(PublicationTarget)
    case _ => None
  }

  function ExecutableFromTag(tag: uint8): (r: Option<ExecutableSlot>)
    ensures forall s :: r == Some(s) <==> ExecutableTag(s) == tag
  {
    match tag
    case 0 => Some(Git)
    case 1 => Some(Shell)
    case 2 => Some(Dsr)
    case 3 => Some(Rch)
    case _ => None
  }

  function CauseTag(cause: CancellationCause): uint8 {
    match cause
    case RequestedCause => 0
    case DeadlineCause => 1
    case ParentScopeCause => 2
    case InjectedFaultCause => 3
  }

  function CauseFromTag(tag: uint8): (r: Option<CancellationCause>)
    ensures forall c :: r == Some(c) <==> CauseTag(c) == tag
  {
    match tag
    case 0 => Some(RequestedCause)
    case 1 => Some(DeadlineCause)
    case 2 => Some(ParentScopeCause)
    case 3 => Some(InjectedFaultCause)
    case _ => None
  }

  function RefusalTag(reason: RefusalReason): uint8 {
    match reason
    case InputRejectedReason => 0
    case SourceRejectedReason => 1
    case CapabilityRejectedReason => 2
    case ExecutableRejectedReason => 3
    case BudgetInfeasibleReason => 4
    case DeadlineElapsedReason => 5
    case PolicyDeniedReason => 6
  }

  function RefusalFromTag(tag: uint8): (r: Option<RefusalReason>)
    ensures forall x :: r == Some(x) <==> RefusalTag(x) == tag
  {
    match tag
    case 0 => Some(InputRejectedReason)
    case 1 => Some(SourceRejectedReason)
    case 2 => Some(CapabilityRejectedReason)
    case 3 => Some(ExecutableRejectedReason)
    case 4 => Some(BudgetInfeasibleReason)
    case 5 => Some(DeadlineElapsedReason)
    case 6 => Some(PolicyDeniedReason)
    case _ => None
  }

  function IndeterminateTag(reason: IndeterminateReason): uint8 {
    match reason
    case EffectUnknownReason => 16
    case DrainIncompleteReason => 17
    case DrainUnobservableReason => 18
    case FinalizationUnknownReason => 19
    case StabilityChangedReason => 20
  }

  function IndeterminateFromTag(tag: uint8): (r: Option<IndeterminateReason>)
    ensures forall x :: r == Some(x) <==> IndeterminateTag(x) == tag
  {
    match tag
    case 16 => Some(EffectUnknownReason)
    case 17 => Some(DrainIncompleteReason)
    case 18 => Some(DrainUnobservableReason)
    case 19 => Some(FinalizationUnknownReason)
    case 20 => Some(StabilityChangedReason)
    case _ => None
  }

  function FailureTag(reason: PublicationFailureReason): uint8 {
    match reason
    case CommitFailedReason => 32
    case CommitUnknownReason => 33
    case DurabilityUnknownReason => 34
    case ReceiptUnknownReason => 35
  }

  function FailureFromTag(tag: uint8): (r: Option<PublicationFailureReason>)
    ensures forall x :: r == Some(x) <==> FailureTag(x) == tag
  {
    match tag
    case 32 => Some(CommitFailedReason)
    case 33 => Some(CommitUnknownReason)
    case 34 => Some(DurabilityUnknownReason)
    case 35 => Some(ReceiptUnknownReason)
    case _ => None
  }

  function KindTag(kind: TransitionKind): uint8 {
    match kind
    case KindPreflight => 0
    case KindStabilityRecheck => 1
    case KindCharge => 2
    case KindRefuse => 3
    case KindRequestCancellation => 4
    case KindDrain => 5
    case KindFinalizeTerminal => 6
    case KindDeclareIndeterminate => 7
    case KindBeginPublication => 8
    case KindPublicationRecheck => 9
    case KindFinalizePublication => 10
    case KindRetry => 11
    case KindPollCancellation => 12
    case KindAuthorizePublication => 13
    case KindPublicationFailed => 14
    case KindBeginReadOnlyCompletion => 15
    case KindCompleteReadOnly => 16
  }

  function KindFromTag(tag: uint8): (r: Option<TransitionKind>)
    ensures forall k :: r == Some(k) <==> KindTag(k) == tag
  {
    match tag
    case 0 => Some(KindPreflight)
    case 1 => Some(KindStabilityRecheck)
    case 2 => Some(KindCharge)
    case 3 => Some(KindRefuse)
    case 4 => Some(KindRequestCancellation)
    case 5 => Some(KindDrain)
    case 6 => Some(KindFinalizeTerminal)
    case 7 => Some(KindDeclareIndeterminate)
    case 8 => Some(KindBeginPublication)
    case 9 => Some(KindPublicationRecheck)
    case 10 => Some(KindFinalizePublication)
    case 11 => Some(KindRetry)
    case 12 => Some(KindPollCancellation)
    case 13 => Some(KindAuthorizePublication)
    case 14 => Some(KindPublicationFailed)
    case 15 => Some(KindBeginReadOnlyCompletion)
    case 16 => Some(KindCompleteReadOnly)
    case _ => None
  }

  /** Tags number the vocabularies from zero in the order of declaration; two kinds of reasons start at 16 and 32. */
  lemma TagsFollowDeclarations(
    command: CommandClass, path: PathSlot, executable: ExecutableSlot, cause: CancellationCause,
    refusal: RefusalReason, uncertainty: IndeterminateReason, failure: PublicationFailureReason, kind: TransitionKind)
    ensures var all := [DiagnosticOnly, VerifyOnly, Snapshot, Bootstrap, LockConstellation, DsrQuality, DsrBuild,
                        RchProbe, ShellVerifyOnly, ShellSnapshot, ShellBootstrap];
            CommandTag(command) < |all| && all[CommandTag(command)] == command
    ensures var all := [WorkspaceRoot, ConstellationLock, DestinationRoot, SourceCache, OutputRoot, PublicationTarget];
            PathTag(path) < |all| && all[PathTag(path)] == path
    ensures var all := [Git, Shell, Dsr, Rch];
            ExecutableTag(executable) < |all| && all[ExecutableTag(executable)] == executable
    ensures var all := [RequestedCause, DeadlineCause, ParentScopeCause, InjectedFaultCause];
            CauseTag(cause) < |all| && all[CauseTag(cause)] == cause
    ensures var all := [InputRejectedReason, SourceRejectedReason, CapabilityRejectedReason, ExecutableRejectedReason,
                        BudgetInfeasibleReason, DeadlineElapsedReason, PolicyDeniedReason];
            RefusalTag(refusal) < |all| && all[RefusalTag(refusal)] == refusal
    ensures var all := [EffectUnknownReason, DrainIncompleteReason, DrainUnobservableReason,
                        FinalizationUnknownReason, StabilityChangedReason];
            16 <= IndeterminateTag(uncertainty) < 16 + |all| && all[IndeterminateTag(uncertainty) - 16] == uncertainty
    ensures var all := [CommitFailedReason, CommitUnknownReason, DurabilityUnknownReason, ReceiptUnknownReason];
            32 <= FailureTag(failure) < 32 + |all| && all[FailureTag(failure) - 32] == failure
    ensures var all := [KindPreflight, KindStabilityRecheck, KindCharge, KindRefuse, KindRequestCancellation, KindDrain,
                        KindFinalizeTerminal, KindDeclareIndeterminate, KindBeginPublication, KindPublicationRecheck,
                        KindFinalizePublication, KindRetry, KindPollCancellation, KindAuthorizePublication,
                        KindPublicationFailed, KindBeginReadOnlyCompletion, KindCompleteReadOnly];
            KindTag(kind) < |all| && all[KindTag(kind)] == kind
  {
  }

  /** A one-byte tag of a closed vocabulary. */
  function ReadTag<T>(bytes: seq<uint8>, pos: nat, fromTag: uint8 -> Option<T>): (r: Parsed<T>)
    ensures r.Success? ==> r.value.1 == pos + 1
  {
    var (tag, next) :- ReadUint8(bytes, pos);
    match fromTag(tag)
    case None => Failure(UnknownTag)
    case Some(x) => Success((x, next))
  }

  lemma TagAt<T>(bytes: seq<uint8>, pos: nat, fromTag: uint8 -> Option<T>, x: T, tag: uint8)
    requires forall b: uint8 :: fromTag(b) == Some(x) <==> b == tag
    ensures At(bytes, pos, EncodeUint8(tag)) <==> ReadTag(bytes, pos, fromTag) == Success((x, pos + 1))
  {
    Uint8At(bytes, pos, tag);
  }

  // ----- Compound fields -----

  function EncodeAnchor(anchor: AnchorObservation): (code: seq<uint8>)
    ensures |code| == if anchor.Unavailable? then 1 else 41
  {
    match anchor
    case Unavailable => EncodeUint8(0)
    case Observed(identity, generation) => EncodeUint8(1) + EncodeId(identity) + EncodeUint64(generation)
  }

  function ReadAnchor(bytes: seq<uint8>, pos: nat): (r: Parsed<AnchorObservation>)
    ensures r.Success? ==> r.value.1 == pos + |EncodeAnchor(r.value.0)|
  {
    var (tag, p1) :- ReadUint8(bytes, pos);
    match tag
    case 0 => Success((Unavailable, p1))
    case 1 =>
      var (identity, p2) :- ReadId(bytes, p1);
      var (generation, p3) :- ReadUint64(bytes, p2);
      Success((Observed(identity, generation), p3))
    case _ => Failure(UnknownTag)
  }

  lemma AnchorAt(bytes: seq<uint8>, pos: nat, anchor: AnchorObservation)
    ensures At(bytes, pos, EncodeAnchor(anchor))
            <==> ReadAnchor(bytes, pos) == Success((anchor, pos + |EncodeAnchor(anchor)|))
  {
    match anchor
    case Unavailable => Uint8At(bytes, pos, 0);
    case Observed(identity, generation) =>
      At3(bytes, pos, EncodeUint8(1), EncodeId(identity), EncodeUint64(generation));
      Uint8At(bytes, pos, 1);
      IdAt(bytes, pos + 1, identity);
      Uint64At(bytes, pos + 33, generation);
  }

  function EncodeObligations(o: DrainObligations): (code: seq<uint8>)
    ensures |code| == 12
  {
    EncodeUint32(o.processes) + EncodeUint32(o.files) + EncodeUint32(o.outputs)
  }

  function ReadObligations(bytes: seq<uint8>, pos: nat): (r: Parsed<DrainObligations>)
    ensures r.Success? ==> r.value.1 == pos + 12
  {
    var (processes, p1) :- ReadUint32(bytes, pos);
    var (files, p2) :- ReadUint32(bytes, p1);
    var (outputs, p3) :- ReadUint32(bytes, p2);
    Success((DrainObligations(processes, files, outputs), p3))
  }

  lemma ObligationsAt(bytes: seq<uint8>, pos: nat, o: DrainObligations)
    ensures At(bytes, pos, EncodeObligations(o)) <==> ReadObligations(bytes, pos) == Success((o, pos + 12))
  {
    At3(bytes, pos, EncodeUint32(o.processes), EncodeUint32(o.files), EncodeUint32(o.outputs));
    Uint32At(bytes, pos, o.processes);
    Uint32At(bytes, pos + 4, o.files);
    Uint32At(bytes, pos + 8, o.outputs);
  }

  function EncodeCx(c: CxBinding): (code: seq<uint8>)
    ensures |code| == 104
  {
    EncodeId(c.cx) + EncodeId(c.cancellation) + EncodeId(c.clock) + EncodeUint64(c.maxUnpolledWork)
  }

  function ReadCx(bytes: seq<uint8>, pos: nat): (r: Parsed<CxBinding>)
    ensures r.Success? ==> r.value.1 == pos + 104
  {
    var (cx, p1) :- ReadId(bytes, pos);
    var (cancellation, p2) :- ReadId(bytes, p1);
    var (clock, p3) :- ReadId(bytes, p2);
    var (maxUnpolledWork, p4) :- ReadUint64(bytes, p3);
    var binding :- TryBind(cx, cancellation, clock, maxUnpolledWork);
    Success((binding, p4))
  }

  lemma CxAt(bytes: seq<uint8>, pos: nat, c: CxBinding)
    ensures At(bytes, pos, EncodeCx(c)) <==> ReadCx(bytes, pos) == Success((c, pos + 104))
  {
    At4(bytes, pos, EncodeId(c.cx), EncodeId(c.cancellation), EncodeId(c.clock),
        EncodeUint64(c.maxUnpolledWork));
    IdAt(bytes, pos, c.cx);
    IdAt(bytes, pos + 32, c.cancellation);
    IdAt(bytes, pos + 64, c.clock);
    Uint64At(bytes, pos + 96, c.maxUnpolledWork);
  }

  function EncodeSuccess(s: PublicationSuccess): (code: seq<uint8>)
    ensures |code| == 162
  {
    EncodeId(s.requestIdentity) + EncodeUint16(s.attempt) + EncodeId(s.publicationCapability)
    + EncodeId(s.fence) + EncodeId(s.receipt) + EncodeId(s.observation)
  }

  function ReadSuccess(bytes: seq<uint8>, pos: nat): (r: Parsed<PublicationSuccess>)
    ensures r.Success? ==> r.value.1 == pos + 162
  {
    var (requestIdentity, p1) :- ReadId(bytes, pos);
    var (attempt, p2) :- ReadUint16(bytes, p1);
    var (capability, p3) :- ReadId(bytes, p2);
    var (fence, p4) :- ReadId(bytes, p3);
    var (receipt, p5) :- ReadId(bytes, p4);
    var (observation, p6) :- ReadId(bytes, p5);
    Success((PublicationSuccess(requestIdentity, attempt, capability, fence, receipt, observation), p6))
  }

  lemma SuccessAt(bytes: seq<uint8>, pos: nat, s: PublicationSuccess)
    ensures At(bytes, pos, EncodeSuccess(s)) <==> ReadSuccess(bytes, pos) == Success((s, pos + 162))
  {
    At6(bytes, pos, EncodeId(s.requestIdentity), EncodeUint16(s.attempt),
        EncodeId(s.publicationCapability), EncodeId(s.fence), EncodeId(s.receipt),
        EncodeId(s.observation));
    IdAt(bytes, pos, s.requestIdentity);
    Uint16At(bytes, pos + 32, s.attempt);
    IdAt(bytes, pos + 34, s.publicationCapability);
    IdAt(bytes, pos + 66, s.fence);
    IdAt(bytes, pos + 98, s.receipt);
    IdAt(bytes, pos + 130, s.observation);
  }

  function EncodeCharge(charge: BudgetCharge): (code: seq<uint8>)
    ensures |code| <= 13
  {
    match charge
    case Work(units) => EncodeUint8(0) + EncodeUint64(units)
    case Memory(bytes) => EncodeUint8(1) + EncodeUint64(bytes)
    case Processes(count) => EncodeUint8(2) + EncodeUint32(count)
    case Files(count) => EncodeUint8(3) + EncodeUint32(count)
    case Output(bytes) => EncodeUint8(4) + EncodeUint64(bytes)
    case Network(requests, bytes) => EncodeUint8(5) + EncodeUint32(requests) + EncodeUint64(bytes)
  }

  function ReadCharge(bytes: seq<uint8>, pos: nat): (r: Parsed<BudgetCharge>)
    ensures r.Success? ==> r.value.1 == pos + |EncodeCharge(r.value.0)|
  {
    var (tag, p1) :- ReadUint8(bytes, pos);
    match tag
    case 0 => var (units, p2) :- ReadUint64(bytes, p1); Success((Work(units), p2))
    case 1 => var (size, p2) :- ReadUint64(bytes, p1); Success((Memory(size), p2))
    case 2 => var (count, p2) :- ReadUint32(bytes, p1); Success((Processes(count), p2))
    case 3 => var (count, p2) :- ReadUint32(bytes, p1); Success((Files(count), p2))
    case 4 => var (size, p2) :- ReadUint64(bytes, p1); Success((Output(size), p2))
    case 5 =>
      var (requests, p2) :- ReadUint32(bytes, p1);
      var (size, p3) :- ReadUint64(bytes, p2);
      Success((Network(requests, size), p3))
    case _ => Failure(UnknownTag)
  }

  lemma ChargeAt(bytes: seq<uint8>, pos: nat, charge: BudgetCharge)
    ensures At(bytes, pos, EncodeCharge(charge))
            <==> ReadCharge(bytes, pos) == Success((charge, pos + |EncodeCharge(charge)|))
  {
    hide At, ReadUint8, ReadUint32, ReadUint64, EncodeUint8, EncodeUint32, EncodeUint64;
    match charge
    case Work(units) => TaggedUint64At(bytes, pos, 0, units);
    case Memory(size) => TaggedUint64At(bytes, pos, 1, size);
    case Processes(count) => TaggedUint32At(bytes, pos, 2, count);
    case Files(count) => TaggedUint32At(bytes, pos, 3, count);
    case Output(size) => TaggedUint64At(bytes, pos, 4, size);
    case Network(requests, size) =>
      At3(bytes, pos, EncodeUint8(5), EncodeUint32(requests), EncodeUint64(size));
      Uint8At(bytes, pos, 5);
      Uint32At(bytes, pos + 1, requests);
      Uint64At(bytes, pos + 5, size);
  }

  lemma TaggedUint64At(bytes: seq<uint8>, pos: nat, tag: uint8, value: uint64)
    ensures At(bytes, pos, EncodeUint8(tag) + EncodeUint64(value))
            <==> && ReadUint8(bytes, pos) == Success((tag, pos + 1))
                 && ReadUint64(bytes, pos + 1) == Success((value, pos + 9))
  {
    AtConcat(bytes, pos, EncodeUint8(tag), EncodeUint64(value));
    Uint8At(bytes, pos, tag);
    Uint64At(bytes, pos + 1, value);
  }

  lemma TaggedUint32At(bytes: seq<uint8>, pos: nat, tag: uint8, value: uint32)
    ensures At(bytes, pos, EncodeUint8(tag) + EncodeUint32(value))
            <==> && ReadUint8(bytes, pos) == Success((tag, pos + 1))
                 && ReadUint32(bytes, pos + 1) == Success((value, pos + 5))
  {
    AtConcat(bytes, pos, EncodeUint8(tag), EncodeUint32(value));
    Uint8At(bytes, pos, tag);
    Uint32At(bytes, pos + 1, value);
  }

  // ----- Transitions -----

  /** Everything after the kind tag. */
  function EncodePayload(t: AdmissionTransition): seq<uint8> {
    match t
    case Preflight(snapshot, anchor, tick) =>
      EncodeId(snapshot) + EncodeAnchor(anchor) + EncodeUint64(tick)
    case StabilityRecheck(snapshot, anchor, tick) =>
      EncodeId(snapshot) + EncodeAnchor(anchor) + EncodeUint64(tick)
    case PublicationRecheck(snapshot, anchor, fence, tick) =>
      EncodeId(snapshot) + EncodeAnchor(anchor) + EncodeId(fence) + EncodeUint64(tick)
    case CompleteReadOnly(snapshot, anchor, receipt, tick) =>
      EncodeId(snapshot) + EncodeAnchor(anchor) + EncodeId(receipt) + EncodeUint64(tick)
    case Charge(charge, tick) => EncodeCharge(charge) + EncodeUint64(tick)
    case Refuse(reason, observation) => EncodeUint8(RefusalTag(reason)) + EncodeId(observation)
    case DeclareIndeterminate(reason, observation) =>
      EncodeUint8(IndeterminateTag(reason)) + EncodeId(observation)
    case PublicationFailed(reason, observation) =>
      EncodeUint8(FailureTag(reason)) + EncodeId(observation)
    case RequestCancellation(cause, obligations, observation) =>
      EncodeUint8(CauseTag(cause)) + EncodeObligations(obligations) + EncodeId(observation)
    case Drain(completed, observation) => EncodeObligations(completed) + EncodeId(observation)
    case FinalizeTerminal(receipt) => EncodeId(receipt)
    case BeginPublication(quiescence, tick) => EncodeId(quiescence) + EncodeUint64(tick)
    case AuthorizePublication(receipt, tick) => EncodeId(receipt) + EncodeUint64(tick)
    case BeginReadOnlyCompletion(quiescence, tick) => EncodeId(quiescence) + EncodeUint64(tick)
    case FinalizePublication(success) => EncodeSuccess(success)
    case Retry(nextCx, tick) => EncodeCx(nextCx) + EncodeUint64(tick)
    case PollCancellation(work, tick) => EncodeUint64(work) + EncodeUint64(tick)
  }

  function ReadIdAndTick(bytes: seq<uint8>, pos: nat): (r: Parsed<(AuthorityId, uint64)>)
    ensures r.Success? ==> r.value.1 == pos + 40
  {
    var (id, p1) :- ReadId(bytes, pos);
    var (tick, p2) :- ReadUint64(bytes, p1);
    Success(((id, tick), p2))
  }

  function ReadObservation(bytes: seq<uint8>, pos: nat): (r: Parsed<(AuthorityId, AnchorObservation, uint64)>)
    ensures r.Success? ==> r.value.1 == pos + 40 + |EncodeAnchor(r.value.0.1)|
  {
    var (snapshot, p1) :- ReadId(bytes, pos);
    var (anchor, p2) :- ReadAnchor(bytes, p1);
    var (tick, p3) :- ReadUint64(bytes, p2);
    Success(((snapshot, anchor, tick), p3))
  }

  function ReadBarrier(bytes: seq<uint8>, pos: nat): (r: Parsed<(AuthorityId, AnchorObservation, AuthorityId, uint64)>)
    ensures r.Success? ==> r.value.1 == pos + 72 + |EncodeAnchor(r.value.0.1)|
  {
    var (snapshot, p1) :- ReadId(bytes, pos);
    var (anchor, p2) :- ReadAnchor(bytes, p1);
    var (evidence, p3) :- ReadId(bytes, p2);
    var (tick, p4) :- ReadUint64(bytes, p3);
    Success(((snapshot, anchor, evidence, tick), p4))
  }

  function ReadReason<T>(bytes: seq<uint8>, pos: nat, fromTag: uint8 -> Option<T>): (r: Parsed<(T, AuthorityId)>)
    ensures r.Success? ==> r.value.1 == pos + 33
  {
    var (reason, p1) :- ReadTag(bytes, pos, fromTag);
    var (observation, p2) :- ReadId(bytes, p1);
    Success(((reason, observation), p2))
  }

  predicate IsObservationKind(kind: TransitionKind) {
    || kind.KindPreflight? || kind.KindStabilityRecheck? || kind.KindPublicationRecheck?
    || kind.KindCompleteReadOnly?
  }

  predicate IsReasonKind(kind: TransitionKind) {
    kind.KindRefuse? || kind.KindDeclareIndeterminate? || kind.KindPublicationFailed?
  }

  predicate IsEvidenceKind(kind: TransitionKind) {
    || kind.KindRequestCancellation? || kind.KindDrain? || kind.KindFinalizeTerminal?
    || kind.KindFinalizePublication?
  }

  function ReadObservationPayload(bytes: seq<uint8>, pos: nat, kind: TransitionKind): Parsed<AdmissionTransition>
    requires IsObservationKind(kind)
  {
    match kind
    case KindPreflight =>
      var ((snapshot, anchor, tick), end) :- ReadObservation(bytes, pos);
      Success((Preflight(snapshot, anchor, tick), end))
    case KindStabilityRecheck =>
      var ((snapshot, anchor, tick), end) :- ReadObservation(bytes, pos);
      Success((StabilityRecheck(snapshot, anchor, tick), end))
    case KindPublicationRecheck =>
      var ((snapshot, anchor, fence, tick), end) :- ReadBarrier(bytes, pos);
      Success((PublicationRecheck(snapshot, anchor, fence, tick), end))
    case KindCompleteReadOnly =>
      var ((snapshot, anchor, receipt, tick), end) :- ReadBarrier(bytes, pos);
      Success((CompleteReadOnly(snapshot, anchor, receipt, tick), end))
  }

  function ReadReasonPayload(bytes: seq<uint8>, pos: nat, kind: TransitionKind): Parsed<AdmissionTransition>
    requires IsReasonKind(kind)
  {
    match kind
    case KindRefuse =>
      var ((reason, observation), end) :- ReadReason(bytes, pos, RefusalFromTag);
      Success((Refuse(reason, observation), end))
    case KindDeclareIndeterminate =>
      var ((reason, observation), end) :- ReadReason(bytes, pos, IndeterminateFromTag);
      Success((DeclareIndeterminate(reason, observation), end))
    case KindPublicationFailed =>
      var ((reason, observation), end) :- ReadReason(bytes, pos, FailureFromTag);
      Success((PublicationFailed(reason, observation), end))
  }

  function ReadEvidencePayload(bytes: seq<uint8>, pos: nat, kind: TransitionKind): Parsed<AdmissionTransition>
    requires IsEvidenceKind(kind)
  {
    match kind
    case KindRequestCancellation =>
      var (cause, p1) :- ReadTag(bytes, pos, CauseFromTag);
      var (obligations, p2) :- ReadObligations(bytes, p1);
      var (observation, end) :- ReadId(bytes, p2);
      Success((RequestCancellation(cause, obligations, observation), end))
    case KindDrain =>
      var (completed, p1) :- ReadObligations(bytes, pos);
      var (observation, end) :- ReadId(bytes, p1);
      Success((Drain(completed, observation), end))
    case KindFinalizeTerminal =>
      var (receipt, end) :- ReadId(bytes, pos);
      Success((FinalizeTerminal(receipt), end))
    case KindFinalizePublication =>
      var (success, end) :- ReadSuccess(bytes, pos);
      Success((FinalizePublication(success), end))
  }

  function ReadTickedPayload(bytes: seq<uint8>, pos: nat, kind: TransitionKind): Parsed<AdmissionTransition>
    requires !IsObservationKind(kind) && !IsReasonKind(kind) && !IsEvidenceKind(kind)
  {
    match kind
    case KindCharge =>
      var (charge, p1) :- ReadCharge(bytes, pos);
      var (tick, end) :- ReadUint64(bytes, p1);
      Success((Charge(charge, tick), end))
    case KindBeginPublication =>
      var ((quiescence, tick), end) :- ReadIdAndTick(bytes, pos);
      Success((BeginPublication(quiescence, tick), end))
    case KindAuthorizePublication =>
      var ((receipt, tick), end) :- ReadIdAndTick(bytes, pos);
      Success((AuthorizePublication(receipt, tick), end))
    case KindBeginReadOnlyCompletion =>
      var ((quiescence, tick), end) :- ReadIdAndTick(bytes, pos);
      Success((BeginReadOnlyCompletion(quiescence, tick), end))
    case KindRetry =>
      var (nextCx, p1) :- ReadCx(bytes, pos);
      var (tick, end) :- ReadUint64(bytes, p1);
      Success((Retry(nextCx, tick), end))
    case KindPollCancellation =>
      var (work, p1) :- ReadUint64(bytes, pos);
      var (tick, end) :- ReadUint64(bytes, p1);
      Success((PollCancellation(work, tick), end))
  }

  function ReadPayload(bytes: seq<uint8>, pos: nat, kind: TransitionKind): Parsed<AdmissionTransition> {
    if IsObservationKind(kind) then ReadObservationPayload(bytes, pos, kind)
    else if IsReasonKind(kind) then ReadReasonPayload(bytes, pos, kind)
    else if IsEvidenceKind(kind) then ReadEvidencePayload(bytes, pos, kind)
    else ReadTickedPayload(bytes, pos, kind)
  }

  lemma ObservationAt(bytes: seq<uint8>, pos: nat, snapshot: AuthorityId, anchor: AnchorObservation, tick: uint64)
    ensures At(bytes, pos, EncodeId(snapshot) + EncodeAnchor(anchor) + EncodeUint64(tick))
            <==> var r := ReadObservation(bytes, pos);
                 r.Success? && r.value.0.0 == snapshot && r.value.0.1 == anchor && r.value.0.2 == tick
  {
    hide At, EncodeId, EncodeAnchor, EncodeUint64, ReadId, ReadAnchor, ReadUint64;
    At3(bytes, pos, EncodeId(snapshot), EncodeAnchor(anchor), EncodeUint64(tick));
    IdAt(bytes, pos, snapshot);
    AnchorAt(bytes, pos + 32, anchor);
    Uint64At(bytes, pos + 32 + |EncodeAnchor(anchor)|, tick);
  }

  lemma BarrierAt(bytes: seq<uint8>, pos: nat, snapshot: AuthorityId, anchor: AnchorObservation,
                  evidence: AuthorityId, tick: uint64)
    ensures At(bytes, pos, EncodeId(snapshot) + EncodeAnchor(anchor) + EncodeId(evidence) + EncodeUint64(tick))
            <==> var r := ReadBarrier(bytes, pos);
                 && r.Success? && r.value.0.0 == snapshot && r.value.0.1 == anchor
                 && r.value.0.2 == evidence && r.value.0.3 == tick
  {
    hide At, EncodeId, EncodeAnchor, EncodeUint64, ReadId, ReadAnchor, ReadUint64;
    At4(bytes, pos, EncodeId(snapshot), EncodeAnchor(anchor), EncodeId(evidence), EncodeUint64(tick));
    IdAt(bytes, pos, snapshot);
    AnchorAt(bytes, pos + 32, anchor);
    IdAt(bytes, pos + 32 + |EncodeAnchor(anchor)|, evidence);
    Uint64At(bytes, pos + 64 + |EncodeAnchor(anchor)|, tick);
  }

  lemma IdAndTickAt(bytes: seq<uint8>, pos: nat, id: AuthorityId, tick: uint64)
    ensures At(bytes, pos, EncodeId(id) + EncodeUint64(tick))
            <==> var r := ReadIdAndTick(bytes, pos);
                 r.Success? && r.value.0.0 == id && r.value.0.1 == tick
  {
    AtConcat(bytes, pos, EncodeId(id), EncodeUint64(tick));
    IdAt(bytes, pos, id);
    Uint64At(bytes, pos + 32, tick);
  }

  lemma ReasonAt<T>(bytes: seq<uint8>, pos: nat, fromTag: uint8 -> Option<T>, reason: T, tag: uint8, id: AuthorityId)
    requires forall b: uint8 :: fromTag(b) == Some(reason) <==> b == tag
    ensures At(bytes, pos, EncodeUint8(tag) + EncodeId(id))
            <==> var r := ReadReason(bytes, pos, fromTag);
                 r.Success? && r.value.0.0 == reason && r.value.0.1 == id
  {
    AtConcat(bytes, pos, EncodeUint8(tag), EncodeId(id));
    TagAt(bytes, pos, fromTag, reason, tag);
    IdAt(bytes, pos + 1, id);
  }

  lemma ObservationPayloadAt(bytes: seq<uint8>, pos: nat, t: AdmissionTransition)
    requires IsObservationKind(t.Kind())
    ensures At(bytes, pos, EncodePayload(t))
            <==> ReadObservationPayload(bytes, pos, t.Kind()) == Success((t, pos + |EncodePayload(t)|))
  {
    hide At, EncodeId, EncodeAnchor, EncodeUint64, ReadObservation, ReadBarrier;
    match t
    case Preflight(snapshot, anchor, tick) => ObservationAt(bytes, pos, snapshot, anchor, tick);
    case StabilityRecheck(snapshot, anchor, tick) => ObservationAt(bytes, pos, snapshot, anchor, tick);
    case PublicationRecheck(snapshot, anchor, fence, tick) =>
      BarrierAt(bytes, pos, snapshot, anchor, fence, tick);
    case CompleteReadOnly(snapshot, anchor, receipt, tick) =>
      BarrierAt(bytes, pos, snapshot, anchor, receipt, tick);
  }

  lemma ReasonPayloadAt(bytes: seq<uint8>, pos: nat, t: AdmissionTransition)
    requires IsReasonKind(t.Kind())
    ensures At(bytes, pos, EncodePayload(t))
            <==> ReadReasonPayload(bytes, pos, t.Kind()) == Success((t, pos + |EncodePayload(t)|))
  {
    hide At, EncodeId, EncodeUint8, ReadReason;
    match t
    case Refuse(reason, id) => ReasonAt(bytes, pos, RefusalFromTag, reason, RefusalTag(reason), id);
    case DeclareIndeterminate(reason, id) =>
      ReasonAt(bytes, pos, IndeterminateFromTag, reason, IndeterminateTag(reason), id);
    case PublicationFailed(reason, id) =>
      ReasonAt(bytes, pos, FailureFromTag, reason, FailureTag(reason), id);
  }

  lemma EvidencePayloadAt(bytes: seq<uint8>, pos: nat, t: AdmissionTransition)
    requires IsEvidenceKind(t.Kind())
    ensures At(bytes, pos, EncodePayload(t))
            <==> ReadEvidencePayload(bytes, pos, t.Kind()) == Success((t, pos + |EncodePayload(t)|))
  {
    hide At, EncodeId, EncodeUint8, EncodeObligations, EncodeSuccess,
      ReadId, ReadTag, ReadObligations, ReadSuccess;
    match t
    case RequestCancellation(cause, obligations, id) =>
      At3(bytes, pos, EncodeUint8(CauseTag(cause)), EncodeObligations(obligations), EncodeId(id));
      TagAt(bytes, pos, CauseFromTag, cause, CauseTag(cause));
      ObligationsAt(bytes, pos + 1, obligations);
      IdAt(bytes, pos + 13, id);
    case Drain(completed, id) =>
      AtConcat(bytes, pos, EncodeObligations(completed), EncodeId(id));
      ObligationsAt(bytes, pos, completed);
      IdAt(bytes, pos + 12, id);
    case FinalizeTerminal(receipt) => IdAt(bytes, pos, receipt);
    case FinalizePublication(success) => SuccessAt(bytes, pos, success);
  }

  lemma TickedPayloadAt(bytes: seq<uint8>, pos: nat, t: AdmissionTransition)
    requires !IsObservationKind(t.Kind()) && !IsReasonKind(t.Kind()) && !IsEvidenceKind(t.Kind())
    ensures At(bytes, pos, EncodePayload(t))
            <==> ReadTickedPayload(bytes, pos, t.Kind()) == Success((t, pos + |EncodePayload(t)|))
  {
    hide At, EncodeId, EncodeUint64, EncodeCharge, EncodeCx, ReadUint64, ReadCharge, ReadCx, ReadIdAndTick;
    match t
    case Charge(charge, tick) =>
      AtConcat(bytes, pos, EncodeCharge(charge), EncodeUint64(tick));
      ChargeAt(bytes, pos, charge);
      Uint64At(bytes, pos + |EncodeCharge(charge)|, tick);
    case BeginPublication(quiescence, tick) => IdAndTickAt(bytes, pos, quiescence, tick);
    case AuthorizePublication(receipt, tick) => IdAndTickAt(bytes, pos, receipt, tick);
    case BeginReadOnlyCompletion(quiescence, tick) => IdAndTickAt(bytes, pos, quiescence, tick);
    case Retry(nextCx, tick) =>
      AtConcat(bytes, pos, EncodeCx(nextCx), EncodeUint64(tick));
      CxAt(bytes, pos, nextCx);
      Uint64At(bytes, pos + 104, tick);
    case PollCancellation(work, tick) =>
      AtConcat(bytes, pos, EncodeUint64(work), EncodeUint64(tick));
      Uint64At(bytes, pos, work);
      Uint64At(bytes, pos + 8, tick);
  }

  /** A payload read ends right after the payload's encoding. */
  lemma PayloadEnd(bytes: seq<uint8>, pos: nat, kind: TransitionKind)
    ensures var r := ReadPayload(bytes, pos, kind);
            r.Success? ==> r.value.0.Kind() == kind && r.value.1 == pos + |EncodePayload(r.value.0)|
  {
    hide EncodeId, EncodeAnchor, EncodeUint8, EncodeUint64, EncodeCharge, EncodeCx, EncodeObligations,
      EncodeSuccess, ReadId, ReadUint64, ReadCharge, ReadCx, ReadObligations, ReadSuccess, ReadTag,
      ReadObservation, ReadBarrier, ReadReason, ReadIdAndTick;
  }

  lemma PayloadAt(bytes: seq<uint8>, pos: nat, t: AdmissionTransition)
    ensures At(bytes, pos, EncodePayload(t))
            <==> ReadPayload(bytes, pos, t.Kind()) == Success((t, pos + |EncodePayload(t)|))
  {
    hide At, EncodePayload, ReadObservationPayload, ReadReasonPayload, ReadEvidencePayload, ReadTickedPayload;
    if IsObservationKind(t.Kind()) {
      ObservationPayloadAt(bytes, pos, t);
    } else if IsReasonKind(t.Kind()) {
      ReasonPayloadAt(bytes, pos, t);
    } else if IsEvidenceKind(t.Kind()) {
      EvidencePayloadAt(bytes, pos, t);
    } else {
      TickedPayloadAt(bytes, pos, t);
    }
  }

  function EncodeTransition(t: AdmissionTransition): seq<uint8> {
    EncodeUint8(KindTag(t.Kind())) + EncodePayload(t)
  }

  function ReadTransition(bytes: seq<uint8>, pos: nat): (r: Parsed<AdmissionTransition>)
    ensures r.Success? ==> r.value.1 == pos + |EncodeTransition(r.value.0)|
  {
    var (kind, next) :- ReadTag(bytes, pos, KindFromTag);
    PayloadEnd(bytes, next, kind);
    ReadPayload(bytes, next, kind)
  }

  /** A transition is read exactly where its encoding stands. */
  lemma TransitionAt(bytes: seq<uint8>, pos: nat, t: AdmissionTransition)
    ensures At(bytes, pos, EncodeTransition(t))
            <==> ReadTransition(bytes, pos) == Success((t, pos + |EncodeTransition(t)|))
  {
    hide At, EncodePayload, ReadPayload, EncodeUint8, ReadTag;
    AtConcat(bytes, pos, EncodeUint8(KindTag(t.Kind())), EncodePayload(t));
    TagAt(bytes, pos, KindFromTag, t.Kind(), KindTag(t.Kind()));
    PayloadAt(bytes, pos + 1, t);
    var kind := ReadTag(bytes, pos, KindFromTag);
    if kind.Success? {
      PayloadEnd(bytes, pos + 1, kind.value.0);
    }
  }

  /** No transition takes more than 163 bytes. */
  lemma TransitionSize(t: AdmissionTransition)
    ensures |EncodeTransition(t)| <= 163
  {
  }

  function EncodeHistory(history: seq<AdmissionTransition>): seq<uint8> {
    if history == [] then [] else EncodeTransition(history[0]) + EncodeHistory(history[1..])
  }

  function ReadHistory(bytes: seq<uint8>, pos: nat, count: nat): (r: Parsed<seq<AdmissionTransition>>)
    ensures r.Success? ==> |r.value.0| == count && r.value.1 == pos + |EncodeHistory(r.value.0)|
    decreases count
  {
    if count == 0 then Success(([], pos))
    else
      var (first, next) :- ReadTransition(bytes, pos);
      var (rest, end) :- ReadHistory(bytes, next, count - 1);
      Success(([first] + rest, end))
  }

  lemma EmptyAt(bytes: seq<uint8>, pos: nat)
    requires pos <= |bytes|
    ensures At(bytes, pos, [])
  {
  }

  lemma AtFits(bytes: seq<uint8>, pos: nat, part: seq<uint8>)
    ensures At(bytes, pos, part) ==> pos + |part| <= |bytes|
  {
  }

  ghost predicate HistoryExact(bytes: seq<uint8>, pos: nat, history: seq<AdmissionTransition>) {
    At(bytes, pos, EncodeHistory(history))
    <==> ReadHistory(bytes, pos, |history|) == Success((history, pos + |EncodeHistory(history)|))
  }

  lemma HistoryStep(bytes: seq<uint8>, pos: nat, first: AdmissionTransition, rest: seq<AdmissionTransition>)
    requires HistoryExact(bytes, pos + |EncodeTransition(first)|, rest)
    ensures HistoryExact(bytes, pos, [first] + rest)
  {
    hide At, EncodeTransition, ReadTransition;
    assert ([first] + rest)[1..] == rest;
    AtConcat(bytes, pos, EncodeTransition(first), EncodeHistory(rest));
    TransitionAt(bytes, pos, first);
    var read := ReadHistory(bytes, pos, |rest| + 1);
    if read.Success? && read.value.0 == [first] + rest {
      assert read.value.0[0] == first;
      assert read.value.0[1..] == rest;
    }
  }

  /** A history is read exactly where its encoding stands. */
  lemma {:induction false} HistoryAt(bytes: seq<uint8>, pos: nat, history: seq<AdmissionTransition>)
    requires pos <= |bytes|
    ensures HistoryExact(bytes, pos, history)
    decreases |history|
  {
    hide At, EncodeTransition, ReadTransition;
    if history == [] {
      EmptyAt(bytes, pos);
    } else {
      assert history == [history[0]] + history[1..];
      var next := pos + |EncodeTransition(history[0])|;
      if next <= |bytes| {
        HistoryAt(bytes, next, history[1..]);
        HistoryStep(bytes, pos, history[0], history[1..]);
      } else {
        AtConcat(bytes, pos, EncodeTransition(history[0]), EncodeHistory(history[1..]));
        TransitionAt(bytes, pos, history[0]);
        AtFits(bytes, pos, EncodeTransition(history[0]));
      }
    }
  }

  lemma {:induction false} HistorySize(history: seq<AdmissionTransition>)
    ensures |EncodeHistory(history)| <= 163 * |history|
  {
    if history != [] {
      TransitionSize(history[0]);
      HistorySize(history[1..]);
    }
  }
}
