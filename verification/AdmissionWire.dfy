/** The byte buffer and the cursor behind admission records: every field is appended and read on its own. */
module AdmissionWire {
  import opened Wrappers
  import opened Bytes
  import opened AdmissionPolicy
  import opened AdmissionProtocol
  import opened AdmissionCodec
  import opened AdmissionEnvelope

  /** Append-only output of one envelope. */
  class Encoder {
    var bytes: seq<uint8>

    constructor ()
      ensures bytes == EncodeHeader()
    {
      bytes := ADMISSION_MAGIC + EncodeUint16(ADMISSION_VERSION);
      new;
      bytes := bytes + EncodeText(SchemaBytes());
      bytes := bytes + EncodeText(DomainBytes());
    }

    method Uint8(value: uint8)
      modifies this
      ensures bytes == old(bytes) + EncodeUint8(value)
    {
      bytes := bytes + LittleEndian(value, 1);
    }

    method Uint16(value: uint16)
      modifies this
      ensures bytes == old(bytes) + EncodeUint16(value)
    {
      bytes := bytes + LittleEndian(value, 2);
    }

    method Uint32(value: uint32)
      modifies this
      ensures bytes == old(bytes) + EncodeUint32(value)
    {
      bytes := bytes + LittleEndian(value, 4);
    }

    method Uint64(value: uint64)
      modifies this
      ensures bytes == old(bytes) + EncodeUint64(value)
    {
      bytes := bytes + LittleEndian(value, 8);
    }

    method Id(id: AuthorityId)
      modifies this
      ensures bytes == old(bytes) + EncodeId(id)
    {
      bytes := bytes + LittleEndian(id, ID_BYTES);
    }

    // ----- Context -----

    method AppendFetch(fetch: FetchAuthority)
      modifies this
      ensures bytes == old(bytes) + EncodeFetch(fetch)
    {
      hide EncodeUint8, EncodeId;
      match fetch {
        case Offline => Uint8(0);
        case PinnedTransport(capability) =>
          Uint8(1);
          Id(capability);
      }
    }

    method AppendPublication(publication: PublicationAuthority)
      modifies this
      ensures bytes == old(bytes) + EncodePublication(publication)
    {
      hide EncodeUint8, EncodeId;
      match publication {
        case Prohibited => Uint8(0);
        case BootstrapReceipt(capability) =>
          Uint8(1);
          Id(capability);
        case LockPublication(capability) =>
          Uint8(2);
          Id(capability);
        case ProofReceipt(capability) =>
          Uint8(3);
          Id(capability);
      }
    }

    method AppendCx(c: CxBinding)
      modifies this
      ensures bytes == old(bytes) + EncodeCx(c)
    {
      hide EncodeId, EncodeUint64;
      Id(c.cx);
      Id(c.cancellation);
      Id(c.clock);
      Uint64(c.maxUnpolledWork);
    }

    method AppendBudgets(b: AdmissionBudgets)
      modifies this
      ensures bytes == old(bytes) + EncodeBudgets(b)
    {
      hide EncodeId, EncodeUint16, EncodeUint32, EncodeUint64;
      ghost var start := bytes;
      Id(b.deadline.clock);
      Uint64(b.deadline.notAfterTick);
      AppendShifts(start, EncodeId(b.deadline.clock), EncodeUint64(b.deadline.notAfterTick));
      assert bytes == start + EncodeDeadline(b.deadline);
      ghost var deadline := bytes;
      Uint64(b.compute.workUnits);
      Uint64(b.compute.memoryBytes);
      AppendShifts(deadline, EncodeUint64(b.compute.workUnits), EncodeUint64(b.compute.memoryBytes));
      assert bytes == deadline + EncodeCompute(b.compute);
      ghost var compute := bytes;
      Uint32(b.io.processes);
      Uint32(b.io.files);
      Uint64(b.io.outputBytes);
      AppendThree(compute, EncodeUint32(b.io.processes), EncodeUint32(b.io.files), EncodeUint64(b.io.outputBytes));
      assert bytes == compute + EncodeIo(b.io);
      ghost var io := bytes;
      Uint32(b.network.requests);
      Uint64(b.network.bytes);
      AppendShifts(io, EncodeUint32(b.network.requests), EncodeUint64(b.network.bytes));
      assert bytes == io + EncodeNetwork(b.network);
      Uint16(b.retries);
      hide EncodeDeadline, EncodeCompute, EncodeIo, EncodeNetwork;
      AppendFive(start, EncodeDeadline(b.deadline), EncodeCompute(b.compute), EncodeIo(b.io),
                 EncodeNetwork(b.network), EncodeUint16(b.retries));
    }

    method AppendTrustAnchor(anchor: TrustAnchorState)
      modifies this
      ensures bytes == old(bytes) + EncodeTrustAnchor(anchor)
    {
      hide EncodeUint8, EncodeId, EncodeUint64;
      match anchor {
        case UnanchoredRequest => Uint8(0);
        case Anchored(identity, generation) =>
          Uint8(1);
          Id(identity);
          Uint64(generation);
      }
    }

    method AppendRows<S>(rows: seq<Capability<S>>, toTag: S -> uint8)
      modifies this
      ensures bytes == old(bytes) + EncodeRows(rows, toTag)
    {
      hide EncodeUint8, EncodeId;
      Uint8(|rows| % 256);
      var i := 0;
      assert rows[0..] == rows;
      AppendShifts(old(bytes), EncodeUint8(|rows| % 256), EncodeRowList(rows, toTag));
      while i < |rows|
        invariant 0 <= i <= |rows|
        invariant bytes + EncodeRowList(rows[i..], toTag) == old(bytes) + EncodeRows(rows, toTag)
      {
        ghost var before, rest := bytes, EncodeRowList(rows[i + 1..], toTag);
        assert rows[i..][1..] == rows[i + 1..];
        Uint8(toTag(rows[i].slot));
        Id(rows[i].identity);
        AppendShifts(before, EncodeUint8(toTag(rows[i].slot)), EncodeId(rows[i].identity));
        AppendShifts(before, EncodeRow(rows[i], toTag), rest);
        i := i + 1;
      }
      assert rows[i..] == [];
    }

    method AppendContext(c: AdmissionContext)
      modifies this
      ensures bytes == old(bytes) + EncodeContext(c)
    {
      hide EncodeId, EncodeUint8, EncodeFetch, EncodePublication, EncodeCx, EncodeBudgets, EncodeTrustAnchor,
        EncodeRows;
      Id(c.requestIdentity);
      Uint8(CommandTag(c.command));
      AppendFetch(c.fetch);
      AppendPublication(c.publication);
      assert bytes == old(bytes) + EncodeAuthority(c);
      AppendCx(c.cx);
      AppendBudgets(c.budgets);
      AppendTrustAnchor(c.trustAnchor);
      assert bytes == old(bytes) + EncodeAuthority(c) + EncodeLimits(c);
      AppendRows(c.pathCapabilities, PathTag);
      AppendRows(c.executableCapabilities, ExecutableTag);
    }

    // ----- Transitions -----

    method AppendAnchor(anchor: AnchorObservation)
      modifies this
      ensures bytes == old(bytes) + EncodeAnchor(anchor)
    {
      hide EncodeUint8, EncodeId, EncodeUint64;
      match anchor {
        case Unavailable => Uint8(0);
        case Observed(identity, generation) =>
          Uint8(1);
          Id(identity);
          Uint64(generation);
      }
    }

    method AppendObligations(o: DrainObligations)
      modifies this
      ensures bytes == old(bytes) + EncodeObligations(o)
    {
      hide EncodeUint32;
      Uint32(o.processes);
      Uint32(o.files);
      Uint32(o.outputs);
    }

    method AppendSuccess(s: PublicationSuccess)
      modifies this
      ensures bytes == old(bytes) + EncodeSuccess(s)
    {
      hide EncodeId, EncodeUint16;
      ghost var start := bytes;
      Id(s.requestIdentity);
      Uint16(s.attempt);
      Id(s.publicationCapability);
      AppendThree(start, EncodeId(s.requestIdentity), EncodeUint16(s.attempt), EncodeId(s.publicationCapability));
      ghost var front := EncodeId(s.requestIdentity) + EncodeUint16(s.attempt) + EncodeId(s.publicationCapability);
      Id(s.fence);
      Id(s.receipt);
      Id(s.observation);
      AppendFour(start, front, EncodeId(s.fence), EncodeId(s.receipt), EncodeId(s.observation));
    }

    method AppendCharge(charge: BudgetCharge)
      modifies this
      ensures bytes == old(bytes) + EncodeCharge(charge)
    {
      hide EncodeUint8, EncodeUint32, EncodeUint64;
      match charge {
        case Work(units) =>
          Uint8(0);
          Uint64(units);
        case Memory(size) =>
          Uint8(1);
          Uint64(size);
        case Processes(count) =>
          Uint8(2);
          Uint32(count);
        case Files(count) =>
          Uint8(3);
          Uint32(count);
        case Output(size) =>
          Uint8(4);
          Uint64(size);
        case Network(requests, size) =>
          Uint8(5);
          Uint32(requests);
          Uint64(size);
      }
    }

    method AppendObservation(snapshot: AuthorityId, anchor: AnchorObservation, tick: uint64)
      modifies this
      ensures bytes == old(bytes) + (EncodeId(snapshot) + EncodeAnchor(anchor) + EncodeUint64(tick))
    {
      hide EncodeId, EncodeAnchor, EncodeUint64;
      Id(snapshot);
      AppendAnchor(anchor);
      Uint64(tick);
    }

    method AppendBarrier(snapshot: AuthorityId, anchor: AnchorObservation, evidence: AuthorityId, tick: uint64)
      modifies this
      ensures bytes == old(bytes)
                       + (EncodeId(snapshot) + EncodeAnchor(anchor) + EncodeId(evidence) + EncodeUint64(tick))
    {
      hide EncodeId, EncodeAnchor, EncodeUint64;
      Id(snapshot);
      AppendAnchor(anchor);
      Id(evidence);
      Uint64(tick);
    }

    method AppendReason(reason: uint8, observation: AuthorityId)
      modifies this
      ensures bytes == old(bytes) + (EncodeUint8(reason) + EncodeId(observation))
    {
      hide EncodeUint8, EncodeId;
      Uint8(reason);
      Id(observation);
    }

    method AppendIdAndTick(id: AuthorityId, tick: uint64)
      modifies this
      ensures bytes == old(bytes) + (EncodeId(id) + EncodeUint64(tick))
    {
      hide EncodeId, EncodeUint64;
      Id(id);
      Uint64(tick);
    }

    method AppendPayload(t: AdmissionTransition)
      modifies this
      ensures bytes == old(bytes) + EncodePayload(t)
    {
      hide EncodeUint8, EncodeUint64, EncodeId, EncodeAnchor, EncodeObligations, EncodeCharge, EncodeCx, EncodeSuccess;
      ghost var start := bytes;
      match t {
        case Preflight(snapshot, anchor, tick) => AppendObservation(snapshot, anchor, tick);
        case StabilityRecheck(snapshot, anchor, tick) => AppendObservation(snapshot, anchor, tick);
        case PublicationRecheck(snapshot, anchor, fence, tick) => AppendBarrier(snapshot, anchor, fence, tick);
        case CompleteReadOnly(snapshot, anchor, receipt, tick) => AppendBarrier(snapshot, anchor, receipt, tick);
        case Charge(charge, tick) =>
          AppendCharge(charge);
          Uint64(tick);
          AppendShifts(start, EncodeCharge(charge), EncodeUint64(tick));
        case Refuse(reason, observation) => AppendReason(RefusalTag(reason), observation);
        case DeclareIndeterminate(reason, observation) => AppendReason(IndeterminateTag(reason), observation);
        case PublicationFailed(reason, observation) => AppendReason(FailureTag(reason), observation);
        case RequestCancellation(cause, obligations, observation) =>
          Uint8(CauseTag(cause));
          AppendObligations(obligations);
          Id(observation);
          AppendThree(start, EncodeUint8(CauseTag(cause)), EncodeObligations(obligations), EncodeId(observation));
        case Drain(completed, observation) =>
          AppendObligations(completed);
          Id(observation);
          AppendShifts(start, EncodeObligations(completed), EncodeId(observation));
        case FinalizeTerminal(receipt) => Id(receipt);
        case BeginPublication(quiescence, tick) => AppendIdAndTick(quiescence, tick);
        case AuthorizePublication(receipt, tick) => AppendIdAndTick(receipt, tick);
        case BeginReadOnlyCompletion(quiescence, tick) => AppendIdAndTick(quiescence, tick);
        case FinalizePublication(success) => AppendSuccess(success);
        case Retry(nextCx, tick) =>
          AppendCx(nextCx);
          Uint64(tick);
          AppendShifts(start, EncodeCx(nextCx), EncodeUint64(tick));
        case PollCancellation(work, tick) =>
          Uint64(work);
          Uint64(tick);
          AppendShifts(start, EncodeUint64(work), EncodeUint64(tick));
      }
    }

    method AppendTransition(t: AdmissionTransition)
      modifies this
      ensures bytes == old(bytes) + EncodeTransition(t)
    {
      hide EncodeUint8, EncodePayload;
      Uint8(KindTag(t.Kind()));
      AppendPayload(t);
    }
  }

  lemma AppendThree(p: seq<uint8>, a: seq<uint8>, b: seq<uint8>, c: seq<uint8>)
    ensures p + a + b + c == p + (a + b + c)
  {
  }

  lemma AppendFour(p: seq<uint8>, a: seq<uint8>, b: seq<uint8>, c: seq<uint8>, d: seq<uint8>)
    ensures p + a + b + c + d == p + (a + b + c + d)
  {
  }

  lemma AppendFive(p: seq<uint8>, a: seq<uint8>, b: seq<uint8>, c: seq<uint8>, d: seq<uint8>, e: seq<uint8>)
    ensures p + a + b + c + d + e == p + (a + b + c + d + e)
  {
  }

  /** A cursor over one envelope. */
  class Decoder {
    const bytes: seq<uint8>
    var cursor: nat

    constructor (bytes: seq<uint8>)
      ensures this.bytes == bytes && cursor == 0
    {
      this.bytes := bytes;
      cursor := 0;
    }

    /** Takes `length` bytes off the input. */
    method TakeBytes(length: nat) returns (r: Result<seq<uint8>, AdmissionRule>)
      modifies this
      ensures Reads(Take(bytes, old(cursor), length), r, cursor)
    {
      if cursor + length > |bytes| {
        return Failure(TruncatedEncoding);
      }
      r := Success(bytes[cursor..cursor + length]);
      cursor := cursor + length;
    }

    method Uint8() returns (r: Result<uint8, AdmissionRule>)
      modifies this
      ensures Reads(ReadUint8(bytes, old(cursor)), r, cursor)
    {
      var field :- TakeBytes(1);
      Pow256Values();
      return Success(FromLittleEndian(field));
    }

    method Uint16() returns (r: Result<uint16, AdmissionRule>)
      modifies this
      ensures Reads(ReadUint16(bytes, old(cursor)), r, cursor)
    {
      var field :- TakeBytes(2);
      Pow256Values();
      return Success(FromLittleEndian(field));
    }

    method Uint32() returns (r: Result<uint32, AdmissionRule>)
      modifies this
      ensures Reads(ReadUint32(bytes, old(cursor)), r, cursor)
    {
      var field :- TakeBytes(4);
      Pow256Values();
      return Success(FromLittleEndian(field));
    }

    method Uint64() returns (r: Result<uint64, AdmissionRule>)
      modifies this
      ensures Reads(ReadUint64(bytes, old(cursor)), r, cursor)
    {
      var field :- TakeBytes(8);
      Pow256Values();
      return Success(FromLittleEndian(field));
    }

    method Id() returns (r: Result<AuthorityId, AdmissionRule>)
      modifies this
      ensures Reads(ReadId(bytes, old(cursor)), r, cursor)
    {
      var field :- TakeBytes(ID_BYTES);
      IdLimit();
      var id := FromLittleEndian(field);
      if id == 0 {
        return Failure(ZeroIdentity);
      }
      return Success(id);
    }

    method Tag<T>(fromTag: uint8 -> Option<T>) returns (r: Result<T, AdmissionRule>)
      modifies this
      ensures Reads(ReadTag(bytes, old(cursor), fromTag), r, cursor)
    {
      var tag :- Uint8();
      match fromTag(tag)
      case None => return Failure(UnknownTag);
      case Some(x) => return Success(x);
    }

    method Text(expected: seq<uint8>) returns (r: Result<(), AdmissionRule>)
      modifies this
      ensures match ReadText(bytes, old(cursor), expected)
              case Success(next) => r == Success(()) && cursor == next
              case Failure(rule) => r == Failure(rule)
    {
      var length :- Uint16();
      var text :- TakeBytes(length);
      if text != expected {
        return Failure(UnknownSchema);
      }
      return Success(());
    }

    method Header() returns (r: Result<(), AdmissionRule>)
      modifies this
      ensures match ReadHeader(bytes, old(cursor))
              case Success(next) => r == Success(()) && cursor == next
              case Failure(rule) => r == Failure(rule)
    {
      var magic :- TakeBytes(|ADMISSION_MAGIC|);
      if magic != ADMISSION_MAGIC {
        return Failure(UnknownMagic);
      }
      var version :- Uint16();
      if version != ADMISSION_VERSION {
        return Failure(UnknownSchema);
      }
      var _ :- Text(SchemaBytes());
      r := Text(DomainBytes());
    }

    method Row<S>(fromTag: uint8 -> Option<S>) returns (r: Result<Capability<S>, AdmissionRule>)
      modifies this
      ensures Reads(ReadRow(bytes, old(cursor), fromTag), r, cursor)
    {
      var slot :- Tag(fromTag);
      var identity :- Id();
      return Success(Capability(slot, identity));
    }

    method RowList<S>(count: nat, fromTag: uint8 -> Option<S>)
      returns (r: Result<seq<Capability<S>>, AdmissionRule>)
      modifies this
      ensures Reads(ReadRowList(bytes, old(cursor), count, fromTag), r, cursor)
    {
      hide ReadRow, ReadRowList, After;
      var rows: seq<Capability<S>> := [];
      AfterNothing(ReadRowList(bytes, cursor, count, fromTag));
      while |rows| < count
        invariant |rows| <= count
        invariant ReadRowList(bytes, old(cursor), count, fromTag)
                  == After(rows, ReadRowList(bytes, cursor, count - |rows|, fromTag))
      {
        RowAccumulates(bytes, cursor, count - |rows|, fromTag, rows);
        var row :- Row(fromTag);
        rows := rows + [row];
      }
      FinishRows(bytes, cursor, fromTag, rows);
      return Success(rows);
    }

    method Rows<S>(limit: nat, tooMany: AdmissionRule, fromTag: uint8 -> Option<S>)
      returns (r: Result<seq<Capability<S>>, AdmissionRule>)
      modifies this
      ensures Reads(ReadRows(bytes, old(cursor), limit, tooMany, fromTag), r, cursor)
    {
      hide ReadRowList, ReadUint8;
      var count :- Uint8();
      if count > limit {
        return Failure(tooMany);
      }
      r := RowList(count, fromTag);
    }

    method Fetch() returns (r: Result<FetchAuthority, AdmissionRule>)
      modifies this
      ensures Reads(ReadFetch(bytes, old(cursor)), r, cursor)
    {
      hide ReadUint8, ReadId, EncodeFetch;
      var tag :- Uint8();
      match tag {
        case 0 => return Success(Offline);
        case 1 =>
          var capability :- Id();
          return Success(PinnedTransport(capability));
        case _ => return Failure(UnknownTag);
      }
    }

    method Publication() returns (r: Result<PublicationAuthority, AdmissionRule>)
      modifies this
      ensures Reads(ReadPublication(bytes, old(cursor)), r, cursor)
    {
      hide ReadUint8, ReadId, EncodePublication;
      var tag :- Uint8();
      match tag {
        case 0 => return Success(Prohibited);
        case 1 =>
          var capability :- Id();
          return Success(BootstrapReceipt(capability));
        case 2 =>
          var capability :- Id();
          return Success(LockPublication(capability));
        case 3 =>
          var capability :- Id();
          return Success(ProofReceipt(capability));
        case _ => return Failure(UnknownTag);
      }
    }

    method Cx() returns (r: Result<CxBinding, AdmissionRule>)
      modifies this
      ensures Reads(ReadCx(bytes, old(cursor)), r, cursor)
    {
      hide ReadId, ReadUint64, TryBind;
      var cx :- Id();
      var cancellation :- Id();
      var clock :- Id();
      var maxUnpolledWork :- Uint64();
      var binding :- TryBind(cx, cancellation, clock, maxUnpolledWork);
      return Success(binding);
    }

    method Budgets() returns (r: Result<AdmissionBudgets, AdmissionRule>)
      modifies this
      ensures Reads(ReadBudgets(bytes, old(cursor)), r, cursor)
    {
      hide ReadId, ReadUint16, ReadUint32, ReadUint64;
      var clock :- Id();
      var notAfterTick :- Uint64();
      var workUnits :- Uint64();
      var memoryBytes :- Uint64();
      var processes :- Uint32();
      var files :- Uint32();
      var outputBytes :- Uint64();
      var requests :- Uint32();
      var networkBytes :- Uint64();
      var retries :- Uint16();
      return Success(AdmissionBudgets(DeadlineBudget(clock, notAfterTick), ComputeBudget(workUnits, memoryBytes),
                                      IoBudget(processes, files, outputBytes), NetworkBudget(requests, networkBytes),
                                      retries));
    }

    method TrustAnchor() returns (r: Result<TrustAnchorState, AdmissionRule>)
      modifies this
      ensures Reads(ReadTrustAnchor(bytes, old(cursor)), r, cursor)
    {
      hide ReadUint8, ReadId, ReadUint64, EncodeTrustAnchor;
      var tag :- Uint8();
      match tag {
        case 0 => return Success(UnanchoredRequest);
        case 1 =>
          var identity :- Id();
          var generation :- Uint64();
          return Success(Anchored(identity, generation));
        case _ => return Failure(UnknownTag);
      }
    }

    method Declaration() returns (r: Result<AdmissionContext, AdmissionRule>)
      modifies this
      ensures Reads(ReadDeclaration(bytes, old(cursor)), r, cursor)
    {
      hide ReadId, ReadTag, ReadFetch, ReadPublication, ReadCx, ReadBudgets, ReadTrustAnchor, ReadRows;
      var requestIdentity :- Id();
      var command :- Tag(CommandFromTag);
      var fetch :- Fetch();
      var publication :- Publication();
      var cx :- Cx();
      var budgets :- Budgets();
      var trustAnchor :- TrustAnchor();
      var paths :- Rows(MAX_PATH_CAPABILITIES, TooManyPathCapabilities, PathFromTag);
      var executables :-
        Rows(MAX_EXECUTABLE_CAPABILITIES, TooManyExecutableCapabilities, ExecutableFromTag);
      return Success(AdmissionContext(requestIdentity, command, fetch, publication, cx, budgets,
                                      trustAnchor, paths, executables));
    }

    // ----- Transitions -----

    method Anchor() returns (r: Result<AnchorObservation, AdmissionRule>)
      modifies this
      ensures Reads(ReadAnchor(bytes, old(cursor)), r, cursor)
    {
      hide ReadUint8, ReadId, ReadUint64, EncodeAnchor;
      var tag :- Uint8();
      match tag {
        case 0 => return Success(Unavailable);
        case 1 =>
          var identity :- Id();
          var generation :- Uint64();
          return Success(Observed(identity, generation));
        case _ => return Failure(UnknownTag);
      }
    }

    method Obligations() returns (r: Result<DrainObligations, AdmissionRule>)
      modifies this
      ensures Reads(ReadObligations(bytes, old(cursor)), r, cursor)
    {
      hide ReadUint32;
      var processes :- Uint32();
      var files :- Uint32();
      var outputs :- Uint32();
      return Success(DrainObligations(processes, files, outputs));
    }

    method Evidence() returns (r: Result<PublicationSuccess, AdmissionRule>)
      modifies this
      ensures Reads(ReadSuccess(bytes, old(cursor)), r, cursor)
    {
      hide ReadId, ReadUint16;
      var requestIdentity :- Id();
      var attempt :- Uint16();
      var capability :- Id();
      var fence :- Id();
      var receipt :- Id();
      var observation :- Id();
      return Success(PublicationSuccess(requestIdentity, attempt, capability, fence, receipt, observation));
    }

    method ChargeAmount() returns (r: Result<BudgetCharge, AdmissionRule>)
      modifies this
      ensures Reads(ReadCharge(bytes, old(cursor)), r, cursor)
    {
      hide ReadUint8, ReadUint32, ReadUint64, EncodeCharge;
      var tag :- Uint8();
      match tag {
        case 0 =>
          var units :- Uint64();
          return Success(Work(units));
        case 1 =>
          var size :- Uint64();
          return Success(Memory(size));
        case 2 =>
          var count :- Uint32();
          return Success(Processes(count));
        case 3 =>
          var count :- Uint32();
          return Success(Files(count));
        case 4 =>
          var size :- Uint64();
          return Success(Output(size));
        case 5 =>
          var requests :- Uint32();
          var size :- Uint64();
          return Success(Network(requests, size));
        case _ => return Failure(UnknownTag);
      }
    }

    method ObservationPayload(kind: TransitionKind) returns (r: Result<AdmissionTransition, AdmissionRule>)
      requires IsObservationKind(kind)
      modifies this
      ensures Reads(ReadObservationPayload(bytes, old(cursor), kind), r, cursor)
    {
      hide ReadId, ReadAnchor, EncodeAnchor, ReadUint64;
      var snapshot :- Id();
      var anchor :- Anchor();
      match kind {
        case KindPreflight =>
          var tick :- Uint64();
          return Success(Preflight(snapshot, anchor, tick));
        case KindStabilityRecheck =>
          var tick :- Uint64();
          return Success(StabilityRecheck(snapshot, anchor, tick));
        case KindPublicationRecheck =>
          var fence :- Id();
          var tick :- Uint64();
          return Success(PublicationRecheck(snapshot, anchor, fence, tick));
        case KindCompleteReadOnly =>
          var receipt :- Id();
          var tick :- Uint64();
          return Success(CompleteReadOnly(snapshot, anchor, receipt, tick));
      }
    }

    method ReasonPayload(kind: TransitionKind) returns (r: Result<AdmissionTransition, AdmissionRule>)
      requires IsReasonKind(kind)
      modifies this
      ensures Reads(ReadReasonPayload(bytes, old(cursor), kind), r, cursor)
    {
      hide ReadTag, ReadId;
      match kind {
        case KindRefuse =>
          var reason :- Tag(RefusalFromTag);
          var observation :- Id();
          return Success(Refuse(reason, observation));
        case KindDeclareIndeterminate =>
          var reason :- Tag(IndeterminateFromTag);
          var observation :- Id();
          return Success(DeclareIndeterminate(reason, observation));
        case KindPublicationFailed =>
          var reason :- Tag(FailureFromTag);
          var observation :- Id();
          return Success(PublicationFailed(reason, observation));
      }
    }

    method EvidencePayload(kind: TransitionKind) returns (r: Result<AdmissionTransition, AdmissionRule>)
      requires IsEvidenceKind(kind)
      modifies this
      ensures Reads(ReadEvidencePayload(bytes, old(cursor), kind), r, cursor)
    {
      hide ReadTag, ReadId, ReadObligations, ReadSuccess;
      match kind {
        case KindRequestCancellation =>
          var cause :- Tag(CauseFromTag);
          var obligations :- Obligations();
          var observation :- Id();
          return Success(RequestCancellation(cause, obligations, observation));
        case KindDrain =>
          var completed :- Obligations();
          var observation :- Id();
          return Success(Drain(completed, observation));
        case KindFinalizeTerminal =>
          var receipt :- Id();
          return Success(FinalizeTerminal(receipt));
        case KindFinalizePublication =>
          var success :- Evidence();
          return Success(FinalizePublication(success));
      }
    }

    method TickedPayload(kind: TransitionKind) returns (r: Result<AdmissionTransition, AdmissionRule>)
      requires !IsObservationKind(kind) && !IsReasonKind(kind) && !IsEvidenceKind(kind)
      modifies this
      ensures Reads(ReadTickedPayload(bytes, old(cursor), kind), r, cursor)
    {
      hide ReadId, ReadUint64, ReadCharge, EncodeCharge, ReadCx;
      match kind {
        case KindCharge =>
          var charge :- ChargeAmount();
          var tick :- Uint64();
          return Success(Charge(charge, tick));
        case KindBeginPublication =>
          var quiescence :- Id();
          var tick :- Uint64();
          return Success(BeginPublication(quiescence, tick));
        case KindAuthorizePublication =>
          var receipt :- Id();
          var tick :- Uint64();
          return Success(AuthorizePublication(receipt, tick));
        case KindBeginReadOnlyCompletion =>
          var quiescence :- Id();
          var tick :- Uint64();
          return Success(BeginReadOnlyCompletion(quiescence, tick));
        case KindRetry =>
          var nextCx :- Cx();
          var tick :- Uint64();
          return Success(Retry(nextCx, tick));
        case KindPollCancellation =>
          var work :- Uint64();
          var tick :- Uint64();
          return Success(PollCancellation(work, tick));
      }
    }

    method Transition() returns (r: Result<AdmissionTransition, AdmissionRule>)
      modifies this
      ensures Reads(ReadTransition(bytes, old(cursor)), r, cursor)
    {
      hide ReadTag, ReadObservationPayload, ReadReasonPayload, ReadEvidencePayload, ReadTickedPayload,
        EncodePayload, EncodeTransition;
      var kind :- Tag(KindFromTag);
      if IsObservationKind(kind) {
        r := ObservationPayload(kind);
      } else if IsReasonKind(kind) {
        r := ReasonPayload(kind);
      } else if IsEvidenceKind(kind) {
        r := EvidencePayload(kind);
      } else {
        r := TickedPayload(kind);
      }
    }

    method History(count: nat) returns (r: Result<seq<AdmissionTransition>, AdmissionRule>)
      modifies this
      ensures Reads(ReadHistory(bytes, old(cursor), count), r, cursor)
    {
      hide ReadTransition, EncodeTransition, ReadHistory, After;
      var history: seq<AdmissionTransition> := [];
      AfterNothing(ReadHistory(bytes, cursor, count));
      while |history| < count
        invariant |history| <= count
        invariant ReadHistory(bytes, old(cursor), count)
                  == After(history, ReadHistory(bytes, cursor, count - |history|))
      {
        HistoryAccumulates(bytes, cursor, count - |history|, history);
        var t :- Transition();
        history := history + [t];
      }
      FinishHistory(bytes, cursor, history);
      return Success(history);
    }
  }

  lemma FinishRows<S>(bytes: seq<uint8>, pos: nat, fromTag: uint8 -> Option<S>, rows: seq<Capability<S>>)
    ensures After(rows, ReadRowList(bytes, pos, 0, fromTag)) == Success((rows, pos))
  {
    assert rows + [] == rows;
  }

  lemma FinishHistory(bytes: seq<uint8>, pos: nat, history: seq<AdmissionTransition>)
    ensures After(history, ReadHistory(bytes, pos, 0)) == Success((history, pos))
  {
    assert history + [] == history;
  }

  lemma RowAccumulates<S>(bytes: seq<uint8>, pos: nat, count: nat, fromTag: uint8 -> Option<S>, rows: seq<Capability<S>>)
    requires count > 0
    ensures match ReadRow(bytes, pos, fromTag)
            case Success((row, next)) =>
              After(rows, ReadRowList(bytes, pos, count, fromTag))
              == After(rows + [row], ReadRowList(bytes, next, count - 1, fromTag))
            case Failure(rule) => After(rows, ReadRowList(bytes, pos, count, fromTag)) == Failure(rule)
  {
    hide ReadRow;
    var first := ReadRow(bytes, pos, fromTag);
    if first.Success? {
      var rest := ReadRowList(bytes, first.value.1, count - 1, fromTag);
      if rest.Success? {
        assert rows + ([first.value.0] + rest.value.0) == rows + [first.value.0] + rest.value.0;
      }
    }
  }

  lemma HistoryAccumulates(bytes: seq<uint8>, pos: nat, count: nat, history: seq<AdmissionTransition>)
    requires count > 0
    ensures match ReadTransition(bytes, pos)
            case Success((t, next)) =>
              After(history, ReadHistory(bytes, pos, count))
              == After(history + [t], ReadHistory(bytes, next, count - 1))
            case Failure(rule) => After(history, ReadHistory(bytes, pos, count)) == Failure(rule)
  {
    hide ReadTransition;
    var first := ReadTransition(bytes, pos);
    if first.Success? {
      var rest := ReadHistory(bytes, first.value.1, count - 1);
      if rest.Success? {
        assert history + ([first.value.0] + rest.value.0) == history + [first.value.0] + rest.value.0;
      }
    }
  }
}
