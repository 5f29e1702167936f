/**
 The declared policy of one admission request: the closed vocabularies, the complete budgets,
 and the validation that turns a declaration into a canonical context.
 */
module AdmissionPolicy {
  import opened Wrappers
  import opened Bytes
  import opened Orderings

  const MAX_PATH_CAPABILITIES := 5
  const MAX_EXECUTABLE_CAPABILITIES := 2
  const MAX_ADMISSION_EVENTS := 1024
  const MAX_ADMISSION_BYTES := 262144
  const ID_BYTES := 32

  /** Refusal rules; allocation failure is not modelled. */
  datatype AdmissionRule =
    | ZeroIdentity | ZeroPollInterval | ClockBindingMismatch
    | TooManyPathCapabilities | TooManyExecutableCapabilities
    | DuplicatePathCapability | MissingPathCapability
    | DuplicateExecutableCapability | MissingExecutableCapability
    | OfflineNetworkBudgetConflict | FetchAuthorityWithoutBudget
    | PublicationForbiddenForCommand | PublicationWithoutOutputBudget
    | IllegalTransition | DeadlineExceeded | BudgetExceeded | BudgetOverflow
    | NetworkAuthorityDenied | PublicationAuthorityDenied
    | TrustAnchorUnavailable | TrustAnchorMismatch
    | StabilityChanged | PublicationStabilityChanged
    | DrainOverrun | DrainIncomplete | RetryBudgetExceeded | IndeterminateRetryForbidden
    | EventLimitExceeded | EncodedInputTooLarge | UnknownMagic | UnknownSchema
    | TruncatedEncoding | UnknownTag | TrailingBytes | ImpossibleHistory | NonCanonicalEncoding
    | NetworkForbiddenForCommand | PublicationCapabilityMismatch
    | UnexpectedPathCapability | UnexpectedExecutableCapability
    | ClockRegression | TerminalHeadroomRequired | PollIntervalExceeded
    | RetryCxNotFresh | CxIdentityAliasing
    | InputRejected | SourceRejected | CapabilityRejected | ExecutableRejected
    | BudgetInfeasible | PolicyDenied
    | EffectOutcomeUnknown | DrainObservationUnavailable | FinalizationOutcomeUnknown
    | PostEffectStabilityChanged
    | PublicationCommitFailed | PublicationOutcomeUnknown
    | PublicationDurabilityUnknown | PublicationFinalizationUnknown
    | ReadOnlyCompletionForbidden | PublicationSuccessEvidenceMismatch
    | PublicationRequiredForCommand

  /** Two to the power 256. */
  const ID_LIMIT: int :=
    0x1_0000_0000_0000_0000_0000_0000_0000_0000_0000_0000_0000_0000_0000_0000_0000_0000

  /** An opaque nonzero 32-byte identity, held as the number its bytes spell. */
  type AuthorityId = id: int | 0 < id < ID_LIMIT witness 1

  datatype CommandClass =
    | DiagnosticOnly | VerifyOnly | Snapshot | Bootstrap | LockConstellation
    | DsrQuality | DsrBuild | RchProbe | ShellVerifyOnly | ShellSnapshot | ShellBootstrap
  {
    function RequiredPaths(): set<PathSlot> {
      match this
      case DiagnosticOnly => {WorkspaceRoot}
      case VerifyOnly | Snapshot | ShellVerifyOnly | ShellSnapshot | LockConstellation =>
        {WorkspaceRoot, ConstellationLock}
      case Bootstrap | ShellBootstrap => {WorkspaceRoot, ConstellationLock, DestinationRoot}
      case DsrQuality | DsrBuild | RchProbe => {WorkspaceRoot, ConstellationLock, OutputRoot}
    }

    function RequiredExecutables(): set<ExecutableSlot> {
      match this
      case DiagnosticOnly => {}
      case VerifyOnly | Snapshot | Bootstrap | LockConstellation => {Git}
      case ShellVerifyOnly | ShellSnapshot | ShellBootstrap => {Git, Shell}
      case DsrQuality | DsrBuild => {Git, Dsr}
      case RchProbe => {Git, Rch}
    }

    predicate RequiresOfflineFetch() {
      AdmitsReadOnlyCompletion() || LockConstellation?
    }

    predicate AdmitsReadOnlyCompletion() {
      DiagnosticOnly? || VerifyOnly? || Snapshot? || ShellVerifyOnly? || ShellSnapshot?
    }

    predicate AdmitsPublication(publication: PublicationAuthority) {
      match publication
      case Prohibited => AdmitsReadOnlyCompletion()
      case BootstrapReceipt(_) => Bootstrap? || ShellBootstrap?
      case LockPublication(_) => LockConstellation?
      case ProofReceipt(_) => DsrQuality? || DsrBuild? || RchProbe?
    }

    predicate PathIsAllowed(slot: PathSlot, publication: PublicationAuthority) {
      || slot in RequiredPaths()
      || ((Bootstrap? || ShellBootstrap?) && slot == SourceCache)
      || (slot == PublicationTarget && !publication.Prohibited?)
    }
  }

  datatype FetchAuthority = Offline | PinnedTransport(capability: AuthorityId)

  datatype PublicationAuthority =
    | Prohibited
    | BootstrapReceipt(capability: AuthorityId)
    | LockPublication(capability: AuthorityId)
    | ProofReceipt(capability: AuthorityId)
  {
    function Target(): Option<AuthorityId> {
      if Prohibited? then None else Some(capability)
    }
  }

  datatype PathSlot =
    | WorkspaceRoot | ConstellationLock | DestinationRoot
    | SourceCache | OutputRoot | PublicationTarget

  datatype ExecutableSlot = Git | Shell | Dsr | Rch

  /** One role bound to an externally established capability identity. */
  datatype Capability<S> = Capability(slot: S, identity: AuthorityId)

  type PathCapability = Capability<PathSlot>

  type ExecutableCapability = Capability<ExecutableSlot>

  /** Runtime context, cancellation source and clock, always three different identities. */
  datatype CxRecord = CxRecord(
    cx: AuthorityId, cancellation: AuthorityId, clock: AuthorityId, maxUnpolledWork: uint64)

  function TryBind(cx: AuthorityId, cancellation: AuthorityId, clock: AuthorityId,
                   maxUnpolledWork: uint64): (r: Result<CxBinding, AdmissionRule>)
    ensures r.Success? ==> r.value == CxRecord(cx, cancellation, clock, maxUnpolledWork)
    ensures r.Success? <==> DistinctRoles(CxRecord(cx, cancellation, clock, maxUnpolledWork))
  {
    if maxUnpolledWork == 0 then Failure(ZeroPollInterval)
    else if cx == cancellation || cx == clock || cancellation == clock then Failure(CxIdentityAliasing)
    else Success(CxRecord(cx, cancellation, clock, maxUnpolledWork))
  }

  predicate DistinctRoles(c: CxRecord) {
    c.maxUnpolledWork > 0 && c.cx != c.cancellation && c.cx != c.clock && c.cancellation != c.clock
  }

  type CxBinding = c: CxRecord | DistinctRoles(c) witness CxRecord(1, 2, 3, 1)

  datatype DeadlineBudget = DeadlineBudget(clock: AuthorityId, notAfterTick: uint64)
  datatype ComputeBudget = ComputeBudget(workUnits: uint64, memoryBytes: uint64)
  datatype IoBudget = IoBudget(processes: uint32, files: uint32, outputBytes: uint64)
  datatype NetworkBudget = NetworkBudget(requests: uint32, bytes: uint64)
  datatype AdmissionBudgets = AdmissionBudgets(
    deadline: DeadlineBudget, compute: ComputeBudget, io: IoBudget, network: NetworkBudget,
    retries: uint16)

  datatype TrustAnchorState = UnanchoredRequest | Anchored(identity: AuthorityId, generation: uint64)

  /** A request declaration; `TryNew` returns the same record with its rows in slot order. */
  datatype AdmissionContext = AdmissionContext(
    requestIdentity: AuthorityId,
    command: CommandClass,
    fetch: FetchAuthority,
    publication: PublicationAuthority,
    cx: CxBinding,
    budgets: AdmissionBudgets,
    trustAnchor: TrustAnchorState,
    pathCapabilities: seq<PathCapability>,
    executableCapabilities: seq<ExecutableCapability>)

  function PathTag(slot: PathSlot): uint8 {
    match slot
    case WorkspaceRoot => 0
    case ConstellationLock => 1
    case DestinationRoot => 2
    case SourceCache => 3
    case OutputRoot => 4
    case PublicationTarget => 5
  }

  function ExecutableTag(slot: ExecutableSlot): uint8 {
    match slot
    case Git => 0
    case Shell => 1
    case Dsr => 2
    case Rch => 3
  }

  function PathKey(row: PathCapability): nat {
    PathTag(row.slot)
  }

  function ExecutableKey(row: ExecutableCapability): nat {
    ExecutableTag(row.slot)
  }

  // ----- Sorting rows by slot -----

  function ByKey<T>(key: T -> nat): (T, T) -> bool {
    (a, b) => key(a) <= key(b)
  }

  predicate AscendingByKey<T>(rows: seq<T>, key: T -> nat) {
    Sorted(ByKey(key), rows)
  }

  function SortByKey<T>(rows: seq<T>, key: T -> nat): (sorted: seq<T>)
    ensures Permutation(sorted, rows)
  {
    Sort(ByKey(key), rows)
  }

  lemma SortByKeySorts<T(!new)>(rows: seq<T>, key: T -> nat)
    ensures AscendingByKey(SortByKey(rows, key), key)
  {
    SortSorts(ByKey(key), rows);
  }

  /** Sorting changes a row sequence exactly when it was not already in slot order. */
  lemma SortFixesAscending<T(!new)>(rows: seq<T>, key: T -> nat)
    ensures SortByKey(rows, key) == rows <==> AscendingByKey(rows, key)
  {
    SortFixesSorted(ByKey(key), rows);
  }

  // ----- Validation -----

  predicate HasPath(rows: seq<PathCapability>, slot: PathSlot) {
    exists row | row in rows :: row.slot == slot
  }

  predicate HasExecutable(rows: seq<ExecutableCapability>, slot: ExecutableSlot) {
    exists row | row in rows :: row.slot == slot
  }

  function ValidatePaths(command: CommandClass, publication: PublicationAuthority,
                         rows: seq<PathCapability>): Option<AdmissionRule> {
    if !DistinctKeys(rows, PathKey) then Some(DuplicatePathCapability)
    else if exists row | row in rows :: !command.PathIsAllowed(row.slot, publication) then
      Some(UnexpectedPathCapability)
    else if exists slot | slot in command.RequiredPaths() :: !HasPath(rows, slot) then
      Some(MissingPathCapability)
    else if !publication.Prohibited? && !HasPath(rows, PublicationTarget) then
      Some(MissingPathCapability)
    else None
  }

  function ValidateExecutables(command: CommandClass, rows: seq<ExecutableCapability>): Option<AdmissionRule> {
    if !DistinctKeys(rows, ExecutableKey) then Some(DuplicateExecutableCapability)
    else if exists row | row in rows :: row.slot !in command.RequiredExecutables() then
      Some(UnexpectedExecutableCapability)
    else if exists slot | slot in command.RequiredExecutables() :: !HasExecutable(rows, slot) then
      Some(MissingExecutableCapability)
    else None
  }

  /** Identity of the first row carrying `slot`. */
  function FindPath(rows: seq<PathCapability>, slot: PathSlot): (found: Option<AuthorityId>)
    ensures found.None? <==> !HasPath(rows, slot)
    ensures found.Some? ==> Capability(slot, found.value) in rows
  {
    if rows == [] then None
    else if rows[0].slot == slot then Some(rows[0].identity)
    else
      assert rows == [rows[0]] + rows[1..];
      FindPath(rows[1..], slot)
  }

  /** Counts, clock, network and publication checks, in the order they are made. */
  function AuthorityRefusal(spec: AdmissionContext): Option<AdmissionRule> {
    if |spec.pathCapabilities| > MAX_PATH_CAPABILITIES then Some(TooManyPathCapabilities)
    else if |spec.executableCapabilities| > MAX_EXECUTABLE_CAPABILITIES then
      Some(TooManyExecutableCapabilities)
    else if spec.budgets.deadline.clock != spec.cx.clock then Some(ClockBindingMismatch)
    else if spec.fetch.Offline? && spec.budgets.network != NetworkBudget(0, 0) then
      Some(OfflineNetworkBudgetConflict)
    else if spec.fetch.PinnedTransport? &&
            (spec.budgets.network.requests == 0 || spec.budgets.network.bytes == 0) then
      Some(FetchAuthorityWithoutBudget)
    else if spec.command.RequiresOfflineFetch() && !spec.fetch.Offline? then
      Some(NetworkForbiddenForCommand)
    else if !spec.command.AdmitsPublication(spec.publication) then
      if spec.publication.Prohibited? && !spec.command.AdmitsReadOnlyCompletion()
      then Some(PublicationRequiredForCommand)
      else Some(PublicationForbiddenForCommand)
    else if !spec.publication.Prohibited? && spec.budgets.io.outputBytes == 0 then
      Some(PublicationWithoutOutputBudget)
    else None
  }

  function CapabilityRefusal(spec: AdmissionContext): Option<AdmissionRule> {
    var paths := ValidatePaths(spec.command, spec.publication, spec.pathCapabilities);
    var executables := ValidateExecutables(spec.command, spec.executableCapabilities);
    if paths.Some? then paths
    else if executables.Some? then executables
    else if spec.publication.Target().Some? &&
            FindPath(spec.pathCapabilities, PublicationTarget) != spec.publication.Target() then
      Some(PublicationCapabilityMismatch)
    else None
  }

  /** The first rule a declaration breaks. */
  function PolicyRefusal(spec: AdmissionContext): Option<AdmissionRule> {
    if AuthorityRefusal(spec).Some? then AuthorityRefusal(spec) else CapabilityRefusal(spec)
  }

  function Canonical(spec: AdmissionContext): AdmissionContext {
    spec.(pathCapabilities := SortByKey(spec.pathCapabilities, PathKey),
          executableCapabilities := SortByKey(spec.executableCapabilities, ExecutableKey))
  }

  function TryNew(spec: AdmissionContext): Result<AdmissionContext, AdmissionRule> {
    match PolicyRefusal(spec)
    case Some(rule) => Failure(rule)
    case None => Success(Canonical(spec))
  }

  /** A context exists only as a result of `TryNew`; those are exactly its fixed points. */
  ghost predicate ValidContext(context: AdmissionContext) {
    TryNew(context) == Success(context)
  }

  lemma AuthorityGrants(context: AdmissionContext)
    requires AuthorityRefusal(context).None?
    ensures |context.pathCapabilities| <= MAX_PATH_CAPABILITIES
    ensures |context.executableCapabilities| <= MAX_EXECUTABLE_CAPABILITIES
    ensures context.budgets.deadline.clock == context.cx.clock
    ensures context.fetch.Offline? <==> context.budgets.network.requests == 0
    ensures context.fetch.Offline? <==> context.budgets.network.bytes == 0
    ensures context.publication.Prohibited? <==> context.command.AdmitsReadOnlyCompletion()
    ensures context.publication.Prohibited? ==> context.fetch.Offline?
  {
  }

  /** What holding a valid context guarantees: read-only commands and no others have neither
      network nor publication authority, offline means zero network caps, and a publication
      target is bound to exactly one declared path. */
  lemma ValidContextGrants(context: AdmissionContext)
    requires ValidContext(context)
    ensures |context.pathCapabilities| <= MAX_PATH_CAPABILITIES
    ensures |context.executableCapabilities| <= MAX_EXECUTABLE_CAPABILITIES
    ensures context.budgets.deadline.clock == context.cx.clock
    ensures context.fetch.Offline? <==> context.budgets.network.requests == 0
    ensures context.fetch.Offline? <==> context.budgets.network.bytes == 0
    ensures context.publication.Prohibited? <==> context.command.AdmitsReadOnlyCompletion()
    ensures context.publication.Prohibited? ==> context.fetch.Offline?
    ensures forall id: AuthorityId :: Capability(PublicationTarget, id) in context.pathCapabilities
                         <==> context.publication.Target() == Some(id)
  {
    hide AuthorityRefusal, ValidatePaths, ValidateExecutables, Canonical;
    AuthorityGrants(context);
    ValidContextTarget(context);
  }

  lemma ValidContextTarget(context: AdmissionContext)
    requires ValidatePaths(context.command, context.publication, context.pathCapabilities).None?
    requires context.publication.Target().Some?
             ==> FindPath(context.pathCapabilities, PublicationTarget) == context.publication.Target()
    ensures forall id: AuthorityId :: Capability(PublicationTarget, id) in context.pathCapabilities
                         <==> context.publication.Target() == Some(id)
  {
    var rows := context.pathCapabilities;
    ValidPathRows(context.command, context.publication, rows);
    hide ValidatePaths, DistinctKeys;
    forall id: AuthorityId | Capability(PublicationTarget, id) in rows
      ensures context.publication.Target() == Some(id)
    {
      assert HasPath(rows, PublicationTarget);
      SameSlotSameRow(rows, Capability(PublicationTarget, id),
                      Capability(PublicationTarget, FindPath(rows, PublicationTarget).value));
    }
  }

  lemma ValidPathRows(command: CommandClass, publication: PublicationAuthority, rows: seq<PathCapability>)
    requires ValidatePaths(command, publication, rows).None?
    ensures DistinctKeys(rows, PathKey)
    ensures publication.Prohibited? <==> !HasPath(rows, PublicationTarget)
  {
  }

  lemma SameSlotSameRow(rows: seq<PathCapability>, a: PathCapability, b: PathCapability)
    requires DistinctKeys(rows, PathKey) && a in rows && b in rows && a.slot == b.slot
    ensures a == b
  {
    var i :| 0 <= i < |rows| && rows[i] == a;
    var j :| 0 <= j < |rows| && rows[j] == b;
    assert PathKey(rows[i]) == PathKey(rows[j]);
  }

  // ----- Validation does not depend on row order -----

  /** Rows with distinct slots have one ascending arrangement. */
  lemma {:induction false} SortedRowsAgree<T(!new)>(a: seq<T>, b: seq<T>, key: T -> nat)
    requires Permutation(a, b) && DistinctKeys(a, key)
    requires AscendingByKey(a, key) && AscendingByKey(b, key)
    ensures a == b
  {
    PermutationFacts(a, b);
    if a != [] {
      assert a[0] in b && b[0] in a;
      assert key(a[0]) == key(b[0]);
      TailPermutation(a, b);
      SortedRowsAgree(a[1..], b[1..], key);
      assert a == [a[0]] + a[1..] && b == [b[0]] + b[1..];
    }
  }

  /** A slot is bound to one identity, so the lookup does not depend on row order. */
  lemma FindPathOfPermutation(a: seq<PathCapability>, b: seq<PathCapability>, slot: PathSlot)
    requires Permutation(a, b) && DistinctKeys(a, PathKey)
    ensures FindPath(a, slot) == FindPath(b, slot)
  {
    PermutationFacts(a, b);
    hide Permutation, DistinctKeys;
    var x, y := FindPath(a, slot), FindPath(b, slot);
    assert HasPath(a, slot) == HasPath(b, slot);
    hide FindPath, HasPath;
    if x.Some? && y.Some? {
      SameSlotSameRow(a, Capability(slot, x.value), Capability(slot, y.value));
    }
  }

  lemma PathVerdictIgnoresOrder(command: CommandClass, publication: PublicationAuthority,
                                a: seq<PathCapability>, b: seq<PathCapability>)
    requires Permutation(a, b)
    ensures ValidatePaths(command, publication, a) == ValidatePaths(command, publication, b)
  {
    PermutationFacts(a, b);
    if DistinctKeys(a, PathKey) {
      DistinctKeysOfPermutation(a, b, PathKey);
    } else if DistinctKeys(b, PathKey) {
      DistinctKeysOfPermutation(b, a, PathKey);
    }
    assert forall slot :: HasPath(a, slot) <==> HasPath(b, slot);
  }

  lemma ExecutableVerdictIgnoresOrder(command: CommandClass,
                                      a: seq<ExecutableCapability>, b: seq<ExecutableCapability>)
    requires Permutation(a, b)
    ensures ValidateExecutables(command, a) == ValidateExecutables(command, b)
  {
    PermutationFacts(a, b);
    if DistinctKeys(a, ExecutableKey) {
      DistinctKeysOfPermutation(a, b, ExecutableKey);
    } else if DistinctKeys(b, ExecutableKey) {
      DistinctKeysOfPermutation(b, a, ExecutableKey);
    }
    assert forall slot :: HasExecutable(a, slot) <==> HasExecutable(b, slot);
  }

  /** `b` declares the same request as `a`, with its rows possibly in another order. */
  ghost predicate SameDeclaration(a: AdmissionContext, b: AdmissionContext) {
    && Permutation(a.pathCapabilities, b.pathCapabilities)
    && Permutation(a.executableCapabilities, b.executableCapabilities)
    && b == a.(pathCapabilities := b.pathCapabilities,
               executableCapabilities := b.executableCapabilities)
  }

  lemma RefusalFollowsVerdicts(a: AdmissionContext, b: AdmissionContext)
    requires b == a.(pathCapabilities := b.pathCapabilities, executableCapabilities := b.executableCapabilities)
    requires |a.pathCapabilities| == |b.pathCapabilities|
    requires |a.executableCapabilities| == |b.executableCapabilities|
    requires ValidatePaths(a.command, a.publication, a.pathCapabilities)
             == ValidatePaths(a.command, a.publication, b.pathCapabilities)
    requires ValidateExecutables(a.command, a.executableCapabilities)
             == ValidateExecutables(a.command, b.executableCapabilities)
    requires ValidatePaths(a.command, a.publication, a.pathCapabilities).None? ==>
               FindPath(a.pathCapabilities, PublicationTarget) == FindPath(b.pathCapabilities, PublicationTarget)
    ensures PolicyRefusal(a) == PolicyRefusal(b)
  {
    hide ValidatePaths, ValidateExecutables, DistinctKeys, HasPath, FindPath;
  }

  lemma RefusalIgnoresRowOrder(a: AdmissionContext, b: AdmissionContext)
    requires SameDeclaration(a, b)
    ensures PolicyRefusal(a) == PolicyRefusal(b)
  {
    hide PolicyRefusal, ValidatePaths, ValidateExecutables, DistinctKeys, FindPath, HasPath;
    PermutationFacts(a.pathCapabilities, b.pathCapabilities);
    PermutationFacts(a.executableCapabilities, b.executableCapabilities);
    PathVerdictIgnoresOrder(a.command, a.publication, a.pathCapabilities, b.pathCapabilities);
    ExecutableVerdictIgnoresOrder(a.command, a.executableCapabilities, b.executableCapabilities);
    if ValidatePaths(a.command, a.publication, a.pathCapabilities).None? {
      ValidPathRows(a.command, a.publication, a.pathCapabilities);
      FindPathOfPermutation(a.pathCapabilities, b.pathCapabilities, PublicationTarget);
    }
    RefusalFollowsVerdicts(a, b);
  }

  /** The verdict and the resulting context depend only on which rows were declared. */
  lemma TryNewIgnoresRowOrder(a: AdmissionContext, b: AdmissionContext)
    requires SameDeclaration(a, b)
    ensures TryNew(a) == TryNew(b)
  {
    RefusalIgnoresRowOrder(a, b);
    if PolicyRefusal(a).None? {
      SortByKeySorts(a.pathCapabilities, PathKey);
      SortByKeySorts(b.pathCapabilities, PathKey);
      SortByKeySorts(a.executableCapabilities, ExecutableKey);
      SortByKeySorts(b.executableCapabilities, ExecutableKey);
      DistinctKeysOfPermutation(a.pathCapabilities, Canonical(a).pathCapabilities, PathKey);
      DistinctKeysOfPermutation(
        a.executableCapabilities, Canonical(a).executableCapabilities, ExecutableKey);
      SortedRowsAgree(Canonical(a).pathCapabilities, Canonical(b).pathCapabilities, PathKey);
      SortedRowsAgree(
        Canonical(a).executableCapabilities, Canonical(b).executableCapabilities, ExecutableKey);
    }
  }

  /** Every admitted declaration becomes a valid context, and admission leaves it unchanged
      exactly when its rows already stand in slot order. */
  lemma TryNewIsCanonical(spec: AdmissionContext)
    requires TryNew(spec).Success?
    ensures ValidContext(TryNew(spec).value)
    ensures ValidContext(spec)
            <==> AscendingByKey(spec.pathCapabilities, PathKey)
                 && AscendingByKey(spec.executableCapabilities, ExecutableKey)
  {
    SortByKeySorts(spec.pathCapabilities, PathKey);
    SortByKeySorts(spec.executableCapabilities, ExecutableKey);
    TryNewIgnoresRowOrder(spec, Canonical(spec));
    SortFixesAscending(spec.pathCapabilities, PathKey);
    SortFixesAscending(spec.executableCapabilities, ExecutableKey);
  }
}
