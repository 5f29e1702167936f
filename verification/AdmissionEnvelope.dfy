/**
 The canonical envelope: header, context, history. Decoding replays the history, so what can be
 decoded is exactly what some live machine encodes.
 */
module AdmissionEnvelope {
  import opened Wrappers
  import opened Bytes
  import opened AdmissionPolicy
  import opened AdmissionProtocol
  import opened AdmissionRuns
  import opened AdmissionCodec

  // ----- Header -----

  /** "FSADM" and three zero bytes. */
  const ADMISSION_MAGIC: seq<uint8> := [70, 83, 65, 68, 77, 0, 0, 0]

  function EncodeText(text: seq<uint8>): (code: seq<uint8>)
    requires |text| <= MAX_UINT16
    ensures |code| == |text| + 2
  {
    EncodeUint16(|text|) + text
  }

  function SchemaBytes(): (bytes: seq<uint8>)
    ensures |bytes| == 37
  {
    AsciiBytes(ADMISSION_SCHEMA)
  }

  function DomainBytes(): (bytes: seq<uint8>)
    ensures |bytes| == 47
  {
    AsciiBytes(ADMISSION_DOMAIN)
  }

  function EncodeHeader(): (code: seq<uint8>)
    ensures |code| == 98
  {
    ADMISSION_MAGIC + EncodeUint16(ADMISSION_VERSION) + EncodeText(SchemaBytes()) + EncodeText(DomainBytes())
  }

  function Take(bytes: seq<uint8>, pos: nat, length: nat): (r: Parsed<seq<uint8>>)
    ensures r.Success? ==> r.value.1 == pos + length
  {
    if pos + length <= |bytes| then Success((bytes[pos..pos + length], pos + length))
    else Failure(TruncatedEncoding)
  }

  /** A length-prefixed text that must be `expected`; gives the offset after it. */
  function ReadText(bytes: seq<uint8>, pos: nat, expected: seq<uint8>): Result<nat, AdmissionRule> {
    var (length, p1) :- ReadUint16(bytes, pos);
    var (text, p2) :- Take(bytes, p1, length);
    if text != expected then Failure(UnknownSchema) else Success(p2)
  }

  function ReadHeader(bytes: seq<uint8>, pos: nat): Result<nat, AdmissionRule> {
    var (magic, p1) :- Take(bytes, pos, |ADMISSION_MAGIC|);
    if magic != ADMISSION_MAGIC then Failure(UnknownMagic)
    else
      var (version, p2) :- ReadUint16(bytes, p1);
      if version != ADMISSION_VERSION then Failure(UnknownSchema)
      else
        var p3 :- ReadText(bytes, p2, SchemaBytes());
        ReadText(bytes, p3, DomainBytes())
  }

  lemma TextAt(bytes: seq<uint8>, pos: nat, text: seq<uint8>)
    requires |text| <= MAX_UINT16
    ensures At(bytes, pos, EncodeText(text)) <==> ReadText(bytes, pos, text).Success?
    ensures ReadText(bytes, pos, text).Success? ==> ReadText(bytes, pos, text).value == pos + |text| + 2
  {
    AtConcat(bytes, pos, EncodeUint16(|text|), text);
    Uint16At(bytes, pos, |text|);
  }

  lemma HeaderAt(bytes: seq<uint8>, pos: nat)
    ensures At(bytes, pos, EncodeHeader()) <==> ReadHeader(bytes, pos).Success?
    ensures ReadHeader(bytes, pos).Success? ==> ReadHeader(bytes, pos).value == pos + 98
  {
    hide EncodeText, ReadText, SchemaBytes, DomainBytes, EncodeUint16, ReadUint16;
    At4(bytes, pos, ADMISSION_MAGIC, EncodeUint16(ADMISSION_VERSION),
        EncodeText(SchemaBytes()), EncodeText(DomainBytes()));
    Uint16At(bytes, pos + 8, ADMISSION_VERSION);
    TextAt(bytes, pos + 10, SchemaBytes());
    TextAt(bytes, pos + 49, DomainBytes());
  }

  // ----- Context -----

  function EncodeFetch(fetch: FetchAuthority): (code: seq<uint8>)
    ensures |code| <= 33
  {
    match fetch
    case Offline => EncodeUint8(0)
    case PinnedTransport(capability) => EncodeUint8(1) + EncodeId(capability)
  }

  function ReadFetch(bytes: seq<uint8>, pos: nat): (r: Parsed<FetchAuthority>)
    ensures r.Success? ==> r.value.1 == pos + |EncodeFetch(r.value.0)|
  {
    var (tag, p1) :- ReadUint8(bytes, pos);
    match tag
    case 0 => Success((Offline, p1))
    case 1 => var (capability, p2) :- ReadId(bytes, p1); Success((PinnedTransport(capability), p2))
    case _ => Failure(UnknownTag)
  }

  lemma TaggedIdAt(bytes: seq<uint8>, pos: nat, tag: uint8, id: AuthorityId)
    ensures At(bytes, pos, EncodeUint8(tag) + EncodeId(id))
            <==> && ReadUint8(bytes, pos) == Success((tag, pos + 1))
                 && ReadId(bytes, pos + 1) == Success((id, pos + 33))
  {
    AtConcat(bytes, pos, EncodeUint8(tag), EncodeId(id));
    Uint8At(bytes, pos, tag);
    IdAt(bytes, pos + 1, id);
  }

  lemma FetchAt(bytes: seq<uint8>, pos: nat, fetch: FetchAuthority)
    ensures At(bytes, pos, EncodeFetch(fetch))
            <==> ReadFetch(bytes, pos) == Success((fetch, pos + |EncodeFetch(fetch)|))
  {
    hide At, EncodeUint8, EncodeId, ReadUint8, ReadId;
    match fetch
    case Offline => Uint8At(bytes, pos, 0);
    case PinnedTransport(capability) => TaggedIdAt(bytes, pos, 1, capability);
  }

  function EncodePublication(publication: PublicationAuthority): (code: seq<uint8>)
    ensures |code| <= 33
  {
    match publication
    case Prohibited => EncodeUint8(0)
    case BootstrapReceipt(capability) => EncodeUint8(1) + EncodeId(capability)
    case LockPublication(capability) => EncodeUint8(2) + EncodeId(capability)
    case ProofReceipt(capability) => EncodeUint8(3) + EncodeId(capability)
  }

  function ReadPublication(bytes: seq<uint8>, pos: nat): (r: Parsed<PublicationAuthority>)
    ensures r.Success? ==> r.value.1 == pos + |EncodePublication(r.value.0)|
  {
    var (tag, p1) :- ReadUint8(bytes, pos);
    match tag
    case 0 => Success((Prohibited, p1))
    case 1 => var (capability, p2) :- ReadId(bytes, p1); Success((BootstrapReceipt(capability), p2))
    case 2 => var (capability, p2) :- ReadId(bytes, p1); Success((LockPublication(capability), p2))
    case 3 => var (capability, p2) :- ReadId(bytes, p1); Success((ProofReceipt(capability), p2))
    case _ => Failure(UnknownTag)
  }

  lemma PublicationAt(bytes: seq<uint8>, pos: nat, publication: PublicationAuthority)
    ensures At(bytes, pos, EncodePublication(publication))
            <==> ReadPublication(bytes, pos) == Success((publication, pos + |EncodePublication(publication)|))
  {
    hide At, EncodeUint8, EncodeId, ReadUint8, ReadId;
    match publication
    case Prohibited => Uint8At(bytes, pos, 0);
    case BootstrapReceipt(capability) => TaggedIdAt(bytes, pos, 1, capability);
    case LockPublication(capability) => TaggedIdAt(bytes, pos, 2, capability);
    case ProofReceipt(capability) => TaggedIdAt(bytes, pos, 3, capability);
  }

  function EncodeDeadline(d: DeadlineBudget): (code: seq<uint8>)
    ensures |code| == 40
  {
    EncodeId(d.clock) + EncodeUint64(d.notAfterTick)
  }

  function EncodeCompute(c: ComputeBudget): (code: seq<uint8>)
    ensures |code| == 16
  {
    EncodeUint64(c.workUnits) + EncodeUint64(c.memoryBytes)
  }

  function EncodeIo(io: IoBudget): (code: seq<uint8>)
    ensures |code| == 16
  {
    EncodeUint32(io.processes) + EncodeUint32(io.files) + EncodeUint64(io.outputBytes)
  }

  function EncodeNetwork(n: NetworkBudget): (code: seq<uint8>)
    ensures |code| == 12
  {
    EncodeUint32(n.requests) + EncodeUint64(n.bytes)
  }

  function EncodeBudgets(b: AdmissionBudgets): (code: seq<uint8>)
    ensures |code| == 86
  {
    EncodeDeadline(b.deadline) + EncodeCompute(b.compute) + EncodeIo(b.io) + EncodeNetwork(b.network)
    + EncodeUint16(b.retries)
  }

  function ReadDeadline(bytes: seq<uint8>, pos: nat): (r: Parsed<DeadlineBudget>)
    ensures r.Success? ==> r.value.1 == pos + 40
  {
    var (clock, p1) :- ReadId(bytes, pos);
    var (tick, p2) :- ReadUint64(bytes, p1);
    Success((DeadlineBudget(clock, tick), p2))
  }

  function ReadCompute(bytes: seq<uint8>, pos: nat): (r: Parsed<ComputeBudget>)
    ensures r.Success? ==> r.value.1 == pos + 16
  {
    var (work, p1) :- ReadUint64(bytes, pos);
    var (memory, p2) :- ReadUint64(bytes, p1);
    Success((ComputeBudget(work, memory), p2))
  }

  function ReadIo(bytes: seq<uint8>, pos: nat): (r: Parsed<IoBudget>)
    ensures r.Success? ==> r.value.1 == pos + 16
  {
    var (processes, p1) :- ReadUint32(bytes, pos);
    var (files, p2) :- ReadUint32(bytes, p1);
    var (output, p3) :- ReadUint64(bytes, p2);
    Success((IoBudget(processes, files, output), p3))
  }

  function ReadNetwork(bytes: seq<uint8>, pos: nat): (r: Parsed<NetworkBudget>)
    ensures r.Success? ==> r.value.1 == pos + 12
  {
    var (requests, p1) :- ReadUint32(bytes, pos);
    var (size, p2) :- ReadUint64(bytes, p1);
    Success((NetworkBudget(requests, size), p2))
  }

  function ReadBudgets(bytes: seq<uint8>, pos: nat): (r: Parsed<AdmissionBudgets>)
    ensures r.Success? ==> r.value.1 == pos + 86
  {
    var (deadline, p1) :- ReadDeadline(bytes, pos);
    var (compute, p2) :- ReadCompute(bytes, p1);
    var (io, p3) :- ReadIo(bytes, p2);
    var (network, p4) :- ReadNetwork(bytes, p3);
    var (retries, p5) :- ReadUint16(bytes, p4);
    Success((AdmissionBudgets(deadline, compute, io, network, retries), p5))
  }

  lemma DeadlineAt(bytes: seq<uint8>, pos: nat, d: DeadlineBudget)
    ensures At(bytes, pos, EncodeDeadline(d)) <==> ReadDeadline(bytes, pos) == Success((d, pos + 40))
  {
    AtConcat(bytes, pos, EncodeId(d.clock), EncodeUint64(d.notAfterTick));
    IdAt(bytes, pos, d.clock);
    Uint64At(bytes, pos + 32, d.notAfterTick);
  }

  lemma ComputeAt(bytes: seq<uint8>, pos: nat, c: ComputeBudget)
    ensures At(bytes, pos, EncodeCompute(c)) <==> ReadCompute(bytes, pos) == Success((c, pos + 16))
  {
    AtConcat(bytes, pos, EncodeUint64(c.workUnits), EncodeUint64(c.memoryBytes));
    Uint64At(bytes, pos, c.workUnits);
    Uint64At(bytes, pos + 8, c.memoryBytes);
  }

  lemma IoAt(bytes: seq<uint8>, pos: nat, io: IoBudget)
    ensures At(bytes, pos, EncodeIo(io)) <==> ReadIo(bytes, pos) == Success((io, pos + 16))
  {
    At3(bytes, pos, EncodeUint32(io.processes), EncodeUint32(io.files), EncodeUint64(io.outputBytes));
    Uint32At(bytes, pos, io.processes);
    Uint32At(bytes, pos + 4, io.files);
    Uint64At(bytes, pos + 8, io.outputBytes);
  }

  lemma NetworkAt(bytes: seq<uint8>, pos: nat, n: NetworkBudget)
    ensures At(bytes, pos, EncodeNetwork(n)) <==> ReadNetwork(bytes, pos) == Success((n, pos + 12))
  {
    AtConcat(bytes, pos, EncodeUint32(n.requests), EncodeUint64(n.bytes));
    Uint32At(bytes, pos, n.requests);
    Uint64At(bytes, pos + 4, n.bytes);
  }

  lemma BudgetsAt(bytes: seq<uint8>, pos: nat, b: AdmissionBudgets)
    ensures At(bytes, pos, EncodeBudgets(b)) <==> ReadBudgets(bytes, pos) == Success((b, pos + 86))
  {
    hide At, EncodeDeadline, EncodeCompute, EncodeIo, EncodeNetwork, EncodeUint16,
      ReadDeadline, ReadCompute, ReadIo, ReadNetwork, ReadUint16;
    AtConcat(bytes, pos,
             EncodeDeadline(b.deadline) + EncodeCompute(b.compute) + EncodeIo(b.io) + EncodeNetwork(b.network),
             EncodeUint16(b.retries));
    At4(bytes, pos, EncodeDeadline(b.deadline), EncodeCompute(b.compute), EncodeIo(b.io),
        EncodeNetwork(b.network));
    DeadlineAt(bytes, pos, b.deadline);
    ComputeAt(bytes, pos + 40, b.compute);
    IoAt(bytes, pos + 56, b.io);
    NetworkAt(bytes, pos + 72, b.network);
    Uint16At(bytes, pos + 84, b.retries);
  }

  function EncodeTrustAnchor(anchor: TrustAnchorState): (code: seq<uint8>)
    ensures |code| <= 41
  {
    match anchor
    case UnanchoredRequest => EncodeUint8(0)
    case Anchored(identity, generation) => EncodeUint8(1) + EncodeId(identity) + EncodeUint64(generation)
  }

  function ReadTrustAnchor(bytes: seq<uint8>, pos: nat): (r: Parsed<TrustAnchorState>)
    ensures r.Success? ==> r.value.1 == pos + |EncodeTrustAnchor(r.value.0)|
  {
    var (tag, p1) :- ReadUint8(bytes, pos);
    match tag
    case 0 => Success((UnanchoredRequest, p1))
    case 1 =>
      var (identity, p2) :- ReadId(bytes, p1);
      var (generation, p3) :- ReadUint64(bytes, p2);
      Success((Anchored(identity, generation), p3))
    case _ => Failure(UnknownTag)
  }

  lemma TrustAnchorAt(bytes: seq<uint8>, pos: nat, anchor: TrustAnchorState)
    ensures At(bytes, pos, EncodeTrustAnchor(anchor))
            <==> ReadTrustAnchor(bytes, pos) == Success((anchor, pos + |EncodeTrustAnchor(anchor)|))
  {
    match anchor
    case UnanchoredRequest => Uint8At(bytes, pos, 0);
    case Anchored(identity, generation) =>
      At3(bytes, pos, EncodeUint8(1), EncodeId(identity), EncodeUint64(generation));
      Uint8At(bytes, pos, 1);
      IdAt(bytes, pos + 1, identity);
      Uint64At(bytes, pos + 33, generation);
  }

  // ----- Capability rows -----

  function EncodeRow<S>(row: Capability<S>, toTag: S -> uint8): (code: seq<uint8>)
    ensures |code| == 33
  {
    EncodeUint8(toTag(row.slot)) + EncodeId(row.identity)
  }

  function EncodeRowList<S>(rows: seq<Capability<S>>, toTag: S -> uint8): (code: seq<uint8>)
    ensures |code| == 33 * |rows|
  {
    if rows == [] then [] else EncodeRow(rows[0], toTag) + EncodeRowList(rows[1..], toTag)
  }

  /** The count is truncated to one byte, as in a cast. */
  function EncodeRows<S>(rows: seq<Capability<S>>, toTag: S -> uint8): (code: seq<uint8>)
    ensures |code| == 1 + 33 * |rows|
  {
    EncodeUint8(|rows| % 256) + EncodeRowList(rows, toTag)
  }

  function ReadRow<S>(bytes: seq<uint8>, pos: nat, fromTag: uint8 -> Option<S>): (r: Parsed<Capability<S>>)
    ensures r.Success? ==> r.value.1 == pos + 33
  {
    var (slot, p1) :- ReadTag(bytes, pos, fromTag);
    var (identity, p2) :- ReadId(bytes, p1);
    Success((Capability(slot, identity), p2))
  }

  function ReadRowList<S>(bytes: seq<uint8>, pos: nat, count: nat, fromTag: uint8 -> Option<S>): (r: Parsed<seq<Capability<S>>>)
    ensures r.Success? ==> |r.value.0| == count && r.value.1 == pos + 33 * count
    decreases count
  {
    if count == 0 then Success(([], pos))
    else
      var (first, p1) :- ReadRow(bytes, pos, fromTag);
      var (rest, p2) :- ReadRowList(bytes, p1, count - 1, fromTag);
      Success(([first] + rest, p2))
  }

  function ReadRows<S>(bytes: seq<uint8>, pos: nat, limit: nat, tooMany: AdmissionRule,
                       fromTag: uint8 -> Option<S>): (r: Parsed<seq<Capability<S>>>)
    ensures r.Success? ==> |r.value.0| <= limit && r.value.1 == pos + 1 + 33 * |r.value.0|
  {
    var (count, p1) :- ReadUint8(bytes, pos);
    if count > limit then Failure(tooMany) else ReadRowList(bytes, p1, count, fromTag)
  }

  /** The two directions of a slot vocabulary agree. */
  ghost predicate Inverse<S(!new)>(toTag: S -> uint8, fromTag: uint8 -> Option<S>) {
    forall s: S, b: uint8 :: fromTag(b) == Some(s) <==> toTag(s) == b
  }

  lemma RowAt<S(!new)>(bytes: seq<uint8>, pos: nat, row: Capability<S>, toTag: S -> uint8, fromTag: uint8 -> Option<S>)
    requires Inverse(toTag, fromTag)
    ensures At(bytes, pos, EncodeRow(row, toTag)) <==> ReadRow(bytes, pos, fromTag) == Success((row, pos + 33))
  {
    AtConcat(bytes, pos, EncodeUint8(toTag(row.slot)), EncodeId(row.identity));
    TagAt(bytes, pos, fromTag, row.slot, toTag(row.slot));
    IdAt(bytes, pos + 1, row.identity);
  }

  lemma {:induction false} RowListAt<S(!new)>(bytes: seq<uint8>, pos: nat, rows: seq<Capability<S>>,
                                              toTag: S -> uint8, fromTag: uint8 -> Option<S>)
    requires Inverse(toTag, fromTag) && pos <= |bytes|
    ensures At(bytes, pos, EncodeRowList(rows, toTag))
            <==> ReadRowList(bytes, pos, |rows|, fromTag) == Success((rows, pos + 33 * |rows|))
    decreases |rows|
  {
    hide At, EncodeRow, ReadRow;
    if rows == [] {
      EmptyAt(bytes, pos);
    } else {
      var first, rest := rows[0], rows[1..];
      assert rows == [first] + rest;
      AtConcat(bytes, pos, EncodeRow(first, toTag), EncodeRowList(rest, toTag));
      RowAt(bytes, pos, first, toTag, fromTag);
      AtFits(bytes, pos, EncodeRow(first, toTag));
      if pos + 33 <= |bytes| {
        RowListAt(bytes, pos + 33, rest, toTag, fromTag);
        var read := ReadRowList(bytes, pos, |rows|, fromTag);
        if read.Success? && read.value.0 == rows {
          assert read.value.0[0] == first && read.value.0[1..] == rest;
        }
      }
    }
  }

  lemma RowsAt<S(!new)>(bytes: seq<uint8>, pos: nat, rows: seq<Capability<S>>, limit: nat, tooMany: AdmissionRule,
                        toTag: S -> uint8, fromTag: uint8 -> Option<S>)
    requires Inverse(toTag, fromTag) && |rows| <= limit < 256
    ensures At(bytes, pos, EncodeRows(rows, toTag))
            <==> ReadRows(bytes, pos, limit, tooMany, fromTag) == Success((rows, pos + 1 + 33 * |rows|))
  {
    hide At, EncodeUint8, ReadUint8, EncodeRowList, ReadRowList;
    AtConcat(bytes, pos, EncodeUint8(|rows|), EncodeRowList(rows, toTag));
    Uint8At(bytes, pos, |rows|);
    AtFits(bytes, pos, EncodeUint8(|rows|));
    if pos + 1 <= |bytes| {
      RowListAt(bytes, pos + 1, rows, toTag, fromTag);
    }
  }

  // ----- The whole declaration -----

  function EncodeAuthority(c: AdmissionContext): (code: seq<uint8>)
    ensures |code| <= 99
  {
    EncodeId(c.requestIdentity) + EncodeUint8(CommandTag(c.command)) + EncodeFetch(c.fetch)
    + EncodePublication(c.publication)
  }

  function EncodeLimits(c: AdmissionContext): (code: seq<uint8>)
    ensures |code| <= 231
  {
    EncodeCx(c.cx) + EncodeBudgets(c.budgets) + EncodeTrustAnchor(c.trustAnchor)
  }

  function EncodeCapabilities(c: AdmissionContext): (code: seq<uint8>)
    ensures |code| == 2 + 33 * (|c.pathCapabilities| + |c.executableCapabilities|)
  {
    EncodeRows(c.pathCapabilities, PathTag) + EncodeRows(c.executableCapabilities, ExecutableTag)
  }

  function EncodeContext(c: AdmissionContext): seq<uint8> {
    EncodeAuthority(c) + EncodeLimits(c) + EncodeCapabilities(c)
  }

  /** The declaration as written, before validation and sorting. */
  function ReadDeclaration(bytes: seq<uint8>, pos: nat): Parsed<AdmissionContext> {
    var (requestIdentity, p1) :- ReadId(bytes, pos);
    var (command, p2) :- ReadTag(bytes, p1, CommandFromTag);
    var (fetch, p3) :- ReadFetch(bytes, p2);
    var (publication, p4) :- ReadPublication(bytes, p3);
    var (cx, p5) :- ReadCx(bytes, p4);
    var (budgets, p6) :- ReadBudgets(bytes, p5);
    var (trustAnchor, p7) :- ReadTrustAnchor(bytes, p6);
    var (paths, p8) :-
      ReadRows(bytes, p7, MAX_PATH_CAPABILITIES, TooManyPathCapabilities, PathFromTag);
    var (executables, p9) :-
      ReadRows(bytes, p8, MAX_EXECUTABLE_CAPABILITIES, TooManyExecutableCapabilities, ExecutableFromTag);
    Success((AdmissionContext(requestIdentity, command, fetch, publication, cx, budgets, trustAnchor,
                              paths, executables), p9))
  }

  predicate WithinRowLimits(c: AdmissionContext) {
    |c.pathCapabilities| <= MAX_PATH_CAPABILITIES && |c.executableCapabilities| <= MAX_EXECUTABLE_CAPABILITIES
  }

  lemma DeclarationEnd(bytes: seq<uint8>, pos: nat)
    ensures var r := ReadDeclaration(bytes, pos);
            r.Success? ==> WithinRowLimits(r.value.0) && r.value.1 == pos + |EncodeContext(r.value.0)|
  {
    hide ReadId, ReadTag, ReadFetch, ReadPublication, ReadCx, ReadBudgets, ReadTrustAnchor, ReadRows,
      EncodeId, EncodeUint8, EncodeFetch, EncodePublication, EncodeCx, EncodeBudgets, EncodeTrustAnchor,
      EncodeRows;
  }

  lemma AuthorityAt(bytes: seq<uint8>, pos: nat, c: AdmissionContext)
    ensures At(bytes, pos, EncodeAuthority(c))
            <==> var p := pos + 33; var q := p + |EncodeFetch(c.fetch)|;
                 && ReadId(bytes, pos) == Success((c.requestIdentity, pos + 32))
                 && ReadTag(bytes, pos + 32, CommandFromTag) == Success((c.command, p))
                 && ReadFetch(bytes, p) == Success((c.fetch, q))
                 && ReadPublication(bytes, q) == Success((c.publication, q + |EncodePublication(c.publication)|))
  {
    hide At, EncodeId, EncodeUint8, EncodeFetch, EncodePublication, ReadId, ReadTag, ReadFetch,
      ReadPublication;
    At4(bytes, pos, EncodeId(c.requestIdentity), EncodeUint8(CommandTag(c.command)), EncodeFetch(c.fetch),
        EncodePublication(c.publication));
    IdAt(bytes, pos, c.requestIdentity);
    TagAt(bytes, pos + 32, CommandFromTag, c.command, CommandTag(c.command));
    FetchAt(bytes, pos + 33, c.fetch);
    PublicationAt(bytes, pos + 33 + |EncodeFetch(c.fetch)|, c.publication);
  }

  lemma LimitsAt(bytes: seq<uint8>, pos: nat, c: AdmissionContext)
    ensures At(bytes, pos, EncodeLimits(c))
            <==> && ReadCx(bytes, pos) == Success((c.cx, pos + 104))
                 && ReadBudgets(bytes, pos + 104) == Success((c.budgets, pos + 190))
                 && ReadTrustAnchor(bytes, pos + 190)
                    == Success((c.trustAnchor, pos + 190 + |EncodeTrustAnchor(c.trustAnchor)|))
  {
    hide At, EncodeCx, EncodeBudgets, EncodeTrustAnchor, ReadCx, ReadBudgets, ReadTrustAnchor;
    At3(bytes, pos, EncodeCx(c.cx), EncodeBudgets(c.budgets), EncodeTrustAnchor(c.trustAnchor));
    CxAt(bytes, pos, c.cx);
    BudgetsAt(bytes, pos + 104, c.budgets);
    TrustAnchorAt(bytes, pos + 190, c.trustAnchor);
  }

  lemma CapabilitiesAt(bytes: seq<uint8>, pos: nat, c: AdmissionContext)
    requires WithinRowLimits(c)
    ensures At(bytes, pos, EncodeCapabilities(c))
            <==> var p := pos + 1 + 33 * |c.pathCapabilities|;
                 && ReadRows(bytes, pos, MAX_PATH_CAPABILITIES, TooManyPathCapabilities, PathFromTag)
                    == Success((c.pathCapabilities, p))
                 && ReadRows(bytes, p, MAX_EXECUTABLE_CAPABILITIES, TooManyExecutableCapabilities,
                             ExecutableFromTag)
                    == Success((c.executableCapabilities, p + 1 + 33 * |c.executableCapabilities|))
  {
    hide At, EncodeRows, ReadRows;
    var paths, executables := c.pathCapabilities, c.executableCapabilities;
    AtConcat(bytes, pos, EncodeRows(paths, PathTag), EncodeRows(executables, ExecutableTag));
    RowsAt(bytes, pos, paths, MAX_PATH_CAPABILITIES, TooManyPathCapabilities, PathTag, PathFromTag);
    RowsAt(bytes, pos + 1 + 33 * |paths|, executables, MAX_EXECUTABLE_CAPABILITIES,
           TooManyExecutableCapabilities, ExecutableTag, ExecutableFromTag);
  }

  /** What a successful read of a declaration went through. */
  lemma DeclarationForward(bytes: seq<uint8>, pos: nat, c: AdmissionContext)
    ensures var p := pos + 33; var q := p + |EncodeFetch(c.fetch)|;
            var u := q + |EncodePublication(c.publication)|;
            var v := u + 190 + |EncodeTrustAnchor(c.trustAnchor)|;
            var w := v + 1 + 33 * |c.pathCapabilities|;
            var end := w + 1 + 33 * |c.executableCapabilities|;
            ReadDeclaration(bytes, pos) == Success((c, end))
            <==> && ReadId(bytes, pos) == Success((c.requestIdentity, pos + 32))
                 && ReadTag(bytes, pos + 32, CommandFromTag) == Success((c.command, p))
                 && ReadFetch(bytes, p) == Success((c.fetch, q))
                 && ReadPublication(bytes, q) == Success((c.publication, u))
                 && ReadCx(bytes, u) == Success((c.cx, u + 104))
                 && ReadBudgets(bytes, u + 104) == Success((c.budgets, u + 190))
                 && ReadTrustAnchor(bytes, u + 190) == Success((c.trustAnchor, v))
                 && ReadRows(bytes, v, MAX_PATH_CAPABILITIES, TooManyPathCapabilities, PathFromTag)
                    == Success((c.pathCapabilities, w))
                 && ReadRows(bytes, w, MAX_EXECUTABLE_CAPABILITIES, TooManyExecutableCapabilities,
                             ExecutableFromTag)
                    == Success((c.executableCapabilities, end))
  {
    hide ReadId, ReadTag, ReadFetch, ReadPublication, ReadCx, ReadBudgets, ReadTrustAnchor, ReadRows,
      EncodeFetch, EncodePublication, EncodeTrustAnchor;
  }

  /** A declaration is read exactly where its encoding stands. */
  lemma DeclarationAt(bytes: seq<uint8>, pos: nat, c: AdmissionContext)
    requires WithinRowLimits(c)
    ensures At(bytes, pos, EncodeContext(c))
            <==> ReadDeclaration(bytes, pos) == Success((c, pos + |EncodeContext(c)|))
  {
    hide At, EncodeAuthority, EncodeLimits, EncodeCapabilities, ReadDeclaration, ReadId, ReadTag, ReadFetch,
      ReadPublication, ReadCx, ReadBudgets, ReadTrustAnchor, ReadRows, EncodeFetch, EncodePublication,
      EncodeTrustAnchor;
    AuthorityLength(c);
    LimitsLength(c);
    var p, q := pos + |EncodeAuthority(c)|, pos + |EncodeAuthority(c)| + |EncodeLimits(c)|;
    At3(bytes, pos, EncodeAuthority(c), EncodeLimits(c), EncodeCapabilities(c));
    AuthorityAt(bytes, pos, c);
    LimitsAt(bytes, p, c);
    CapabilitiesAt(bytes, q, c);
    DeclarationForward(bytes, pos, c);
  }

  lemma AuthorityLength(c: AdmissionContext)
    ensures |EncodeAuthority(c)| == 33 + |EncodeFetch(c.fetch)| + |EncodePublication(c.publication)|
  {
  }

  lemma LimitsLength(c: AdmissionContext)
    ensures |EncodeLimits(c)| == 190 + |EncodeTrustAnchor(c.trustAnchor)|
  {
  }

  // ----- The envelope -----

  function EncodeEnvelope(context: AdmissionContext, history: seq<AdmissionTransition>): seq<uint8> {
    EncodeHeader() + EncodeContext(context) + LittleEndian(|history|, 2) + EncodeHistory(history)
  }

  /** The canonical bytes of a machine. */
  function EncodeCanonical(m: MachineState): Result<seq<uint8>, AdmissionRule> {
    var bytes := EncodeEnvelope(m.context, m.history);
    if |m.history| > MAX_UINT16 then Failure(EventLimitExceeded)
    else if |bytes| > MAX_ADMISSION_BYTES then Failure(EncodedInputTooLarge)
    else Success(bytes)
  }

  /** The declaration and history an envelope spells, if every field is well formed and nothing trails. */
  function ReadFields(bytes: seq<uint8>): Result<(AdmissionContext, seq<AdmissionTransition>), AdmissionRule> {
    var p1 :- ReadHeader(bytes, 0);
    var (declared, p2) :- ReadDeclaration(bytes, p1);
    var _ :- TryNew(declared);
    var (count, p3) :- ReadUint16(bytes, p2);
    if count > MAX_ADMISSION_EVENTS then Failure(EventLimitExceeded)
    else
      var (history, p4) :- ReadHistory(bytes, p3, count);
      if p4 != |bytes| then Failure(TrailingBytes) else Success((declared, history))
  }

  /** An inert audit record: every field of the replayed machine and the bytes it was read from. */
  datatype RecordedAdmission = RecordedAdmission(machine: MachineState, canonical: seq<uint8>)

  /** Replays a decoded history; any refusal makes it impossible. */
  function ReplayRecorded(context: AdmissionContext, history: seq<AdmissionTransition>): Result<MachineState, AdmissionRule> {
    match Replay(Initial(context), history)
    case Failure(_) => Failure(ImpossibleHistory)
    case Success(m) => Success(m)
  }

  function DecodeRecorded(bytes: seq<uint8>): Result<RecordedAdmission, AdmissionRule> {
    if |bytes| > MAX_ADMISSION_BYTES then Failure(EncodedInputTooLarge)
    else
      var (declared, history) :- ReadFields(bytes);
      var context :- TryNew(declared);
      var m :- ReplayRecorded(context, history);
      var canonical :- EncodeCanonical(m);
      if canonical != bytes then Failure(NonCanonicalEncoding)
      else Success(RecordedAdmission(m, canonical))
  }

  /** The fields of an envelope are read exactly from the envelope that spells them. */
  lemma FieldsExact(bytes: seq<uint8>, declared: AdmissionContext, history: seq<AdmissionTransition>)
    requires WithinRowLimits(declared) && TryNew(declared).Success? && |history| <= MAX_ADMISSION_EVENTS
    ensures ReadFields(bytes) == Success((declared, history)) <==> bytes == EncodeEnvelope(declared, history)
  {
    hide At, EncodeHeader, ReadHeader, EncodeContext, ReadDeclaration, EncodeHistory, ReadHistory,
      EncodeUint16, ReadUint16, LittleEndian, TryNew;
    var count, calls := EncodeUint16(|history|), EncodeHistory(history);
    var whole := EncodeHeader() + EncodeContext(declared) + count + calls;
    var p, q := 98 + |EncodeContext(declared)|, 100 + |EncodeContext(declared)|;
    CountCode(|history|);
    WholeAt(bytes, whole);
    At4(bytes, 0, EncodeHeader(), EncodeContext(declared), count, calls);
    HeaderAt(bytes, 0);
    DeclarationAt(bytes, 98, declared);
    DeclarationEnd(bytes, 98);
    Uint16At(bytes, p, |history|);
    AtFits(bytes, p, count);
    if q <= |bytes| {
      HistoryAt(bytes, q, history);
    }
    FieldsForward(bytes, declared, history);
  }

  lemma CountCode(n: uint16)
    ensures EncodeUint16(n) == LittleEndian(n, 2)
  {
  }

  lemma WholeAt(bytes: seq<uint8>, whole: seq<uint8>)
    ensures bytes == whole <==> At(bytes, 0, whole) && |whole| == |bytes|
  {
    if |whole| == |bytes| {
      assert bytes[0..|whole|] == bytes;
    }
  }

  /** What a successful read of the fields went through. */
  lemma FieldsForward(bytes: seq<uint8>, declared: AdmissionContext, history: seq<AdmissionTransition>)
    requires |history| <= MAX_ADMISSION_EVENTS
    ensures ReadFields(bytes) == Success((declared, history))
            <==> && ReadHeader(bytes, 0) == Success(98)
                 && var p := 98 + |EncodeContext(declared)|;
                 && ReadDeclaration(bytes, 98) == Success((declared, p))
                 && TryNew(declared).Success?
                 && ReadUint16(bytes, p) == Success((|history|, p + 2))
                 && ReadHistory(bytes, p + 2, |history|) == Success((history, |bytes|))
  {
    hide At, EncodeHeader, ReadHeader, EncodeContext, ReadDeclaration, EncodeHistory, ReadHistory,
      EncodeUint16, ReadUint16, TryNew;
    HeaderAt(bytes, 0);
    DeclarationEnd(bytes, 98);
  }
}
