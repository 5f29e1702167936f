/** Which declarations are accepted, command by command, said of the slots they fill. */
module AdmissionProfiles {
  import opened Wrappers
  import opened Bytes
  import opened Orderings
  import opened AdmissionPolicy

  function PathSlots(rows: seq<PathCapability>): set<PathSlot> {
    set row | row in rows :: row.slot
  }

  function ExecutableSlots(rows: seq<ExecutableCapability>): set<ExecutableSlot> {
    set row | row in rows :: row.slot
  }

  predicate OneRowPerSlot<S(==)>(rows: seq<Capability<S>>) {
    forall i, j :: 0 <= i < j < |rows| ==> rows[i].slot != rows[j].slot
  }

  /** The kind of publication authority, and the exact path and executable slots, that each command is run with. */
  predicate Profile(command: CommandClass, publication: PublicationAuthority,
                    paths: set<PathSlot>, executables: set<ExecutableSlot>) {
    match command
    case DiagnosticOnly => publication.Prohibited? && paths == {WorkspaceRoot} && executables == {}
    case VerifyOnly | Snapshot =>
      publication.Prohibited? && paths == {WorkspaceRoot, ConstellationLock} && executables == {Git}
    case ShellVerifyOnly | ShellSnapshot =>
      publication.Prohibited? && paths == {WorkspaceRoot, ConstellationLock} && executables == {Git, Shell}
    case LockConstellation =>
      && publication.LockPublication?
      && paths == {WorkspaceRoot, ConstellationLock, PublicationTarget} && executables == {Git}
    case Bootstrap =>
      && publication.BootstrapReceipt?
      && paths - {SourceCache} == {WorkspaceRoot, ConstellationLock, DestinationRoot, PublicationTarget}
      && executables == {Git}
    case ShellBootstrap =>
      && publication.BootstrapReceipt?
      && paths - {SourceCache} == {WorkspaceRoot, ConstellationLock, DestinationRoot, PublicationTarget}
      && executables == {Git, Shell}
    case DsrQuality | DsrBuild =>
      && publication.ProofReceipt?
      && paths == {WorkspaceRoot, ConstellationLock, OutputRoot, PublicationTarget} && executables == {Git, Dsr}
    case RchProbe =>
      && publication.ProofReceipt?
      && paths == {WorkspaceRoot, ConstellationLock, OutputRoot, PublicationTarget} && executables == {Git, Rch}
  }

  /** Only commands that build or bootstrap may fetch; fetching needs network budgets and being offline has none. */
  predicate GoodNetwork(spec: AdmissionContext) {
    var network := spec.budgets.network;
    match spec.fetch
    case Offline => network.requests == 0 && network.bytes == 0
    case PinnedTransport(_) =>
      && network.requests > 0 && network.bytes > 0
      && spec.command in {Bootstrap, ShellBootstrap, DsrQuality, DsrBuild, RchProbe}
  }

  predicate GoodPublication(spec: AdmissionContext) {
    !spec.publication.Prohibited? ==>
      && spec.budgets.io.outputBytes > 0
      && Capability(PublicationTarget, spec.publication.capability) in spec.pathCapabilities
  }

  predicate GoodDeclaration(spec: AdmissionContext) {
    && OneRowPerSlot(spec.pathCapabilities) && OneRowPerSlot(spec.executableCapabilities)
    && spec.budgets.deadline.clock == spec.cx.clock
    && GoodNetwork(spec) && GoodPublication(spec)
    && Profile(spec.command, spec.publication,
               PathSlots(spec.pathCapabilities), ExecutableSlots(spec.executableCapabilities))
  }

  // ----- The tables -----

  lemma PathTagsDiffer(a: PathSlot, b: PathSlot)
    ensures PathTag(a) == PathTag(b) <==> a == b
  {
  }

  lemma ExecutableTagsDiffer(a: ExecutableSlot, b: ExecutableSlot)
    ensures ExecutableTag(a) == ExecutableTag(b) <==> a == b
  {
  }

  lemma DistinctPaths(rows: seq<PathCapability>)
    ensures DistinctKeys(rows, PathKey) <==> OneRowPerSlot(rows)
  {
    forall i, j | 0 <= i < j < |rows|
      ensures PathKey(rows[i]) != PathKey(rows[j]) <==> rows[i].slot != rows[j].slot
    {
      PathTagsDiffer(rows[i].slot, rows[j].slot);
    }
  }

  lemma DistinctExecutables(rows: seq<ExecutableCapability>)
    ensures DistinctKeys(rows, ExecutableKey) <==> OneRowPerSlot(rows)
  {
    forall i, j | 0 <= i < j < |rows|
      ensures ExecutableKey(rows[i]) != ExecutableKey(rows[j]) <==> rows[i].slot != rows[j].slot
    {
      ExecutableTagsDiffer(rows[i].slot, rows[j].slot);
    }
  }

  lemma {:induction false} PathRowsAreSlots(rows: seq<PathCapability>)
    requires OneRowPerSlot(rows)
    ensures |PathSlots(rows)| == |rows|
  {
    if rows != [] {
      var front, last := rows[..|rows| - 1], rows[|rows| - 1];
      PathRowsAreSlots(front);
      assert rows == front + [last];
      assert PathSlots(rows) == PathSlots(front) + {last.slot};
    }
  }

  lemma {:induction false} ExecutableRowsAreSlots(rows: seq<ExecutableCapability>)
    requires OneRowPerSlot(rows)
    ensures |ExecutableSlots(rows)| == |rows|
  {
    if rows != [] {
      var front, last := rows[..|rows| - 1], rows[|rows| - 1];
      ExecutableRowsAreSlots(front);
      assert rows == front + [last];
      assert ExecutableSlots(rows) == ExecutableSlots(front) + {last.slot};
    }
  }

  /** Path and publication checks together pass exactly on the paths of the profile. */
  lemma PathsAreExact(spec: AdmissionContext)
    ensures spec.command.AdmitsPublication(spec.publication)
            && ValidatePaths(spec.command, spec.publication, spec.pathCapabilities).None?
            && ValidateExecutables(spec.command, spec.executableCapabilities).None?
            <==> && OneRowPerSlot(spec.pathCapabilities) && OneRowPerSlot(spec.executableCapabilities)
                 && Profile(spec.command, spec.publication,
                            PathSlots(spec.pathCapabilities), ExecutableSlots(spec.executableCapabilities))
  {
    var paths, executables := PathSlots(spec.pathCapabilities), ExecutableSlots(spec.executableCapabilities);
    DistinctPaths(spec.pathCapabilities);
    DistinctExecutables(spec.executableCapabilities);
    forall slot ensures HasPath(spec.pathCapabilities, slot) <==> slot in paths {
    }
    forall slot ensures HasExecutable(spec.executableCapabilities, slot) <==> slot in executables {
    }
    hide OneRowPerSlot, PathSlots, ExecutableSlots, HasPath, HasExecutable, DistinctKeys;
    ProfileIsTables(spec.command, spec.publication, paths, executables);
    hide Profile;
    assert (exists row :: row in spec.pathCapabilities && !spec.command.PathIsAllowed(row.slot, spec.publication))
      <==> (exists slot :: slot in paths && !spec.command.PathIsAllowed(slot, spec.publication));
  }

  /** The paths that a command must have, and those that it may have. */
  function Needed(command: CommandClass, publication: PublicationAuthority): set<PathSlot> {
    command.RequiredPaths() + if publication.Prohibited? then {} else {PublicationTarget}
  }

  function Allowed(command: CommandClass, publication: PublicationAuthority): set<PathSlot> {
    Needed(command, publication) + if command.Bootstrap? || command.ShellBootstrap? then {SourceCache} else {}
  }

  lemma TablesAreBounds(command: CommandClass, publication: PublicationAuthority, paths: set<PathSlot>)
    ensures (forall slot :: slot in paths ==> command.PathIsAllowed(slot, publication))
            && command.RequiredPaths() <= paths && (publication.Prohibited? || PublicationTarget in paths)
            <==> Needed(command, publication) <= paths <= Allowed(command, publication)
  {
    assert forall slot :: command.PathIsAllowed(slot, publication) <==> slot in Allowed(command, publication);
  }

  lemma BoundsAreProfile(need: set<PathSlot>, paths: set<PathSlot>)
    requires SourceCache !in need
    ensures need <= paths <= need + {SourceCache} <==> paths - {SourceCache} == need
    ensures need <= paths <= need + {} <==> paths == need
  {
    assert need + {} == need;
    if paths - {SourceCache} == need {
      assert paths <= (paths - {SourceCache}) + {SourceCache};
    }
  }

  lemma ProfileIsTables(command: CommandClass, publication: PublicationAuthority,
                        paths: set<PathSlot>, executables: set<ExecutableSlot>)
    ensures Profile(command, publication, paths, executables) <==>
            && command.AdmitsPublication(publication)
            && (forall slot :: slot in paths ==> command.PathIsAllowed(slot, publication))
            && command.RequiredPaths() <= paths
            && (publication.Prohibited? || PublicationTarget in paths)
            && executables == command.RequiredExecutables()
  {
    TablesAreBounds(command, publication, paths);
    var need := Needed(command, publication);
    BoundsAreProfile(need, paths);
    match command {
      case DiagnosticOnly => assert publication.Prohibited? ==> need == {WorkspaceRoot};
      case VerifyOnly | Snapshot | ShellVerifyOnly | ShellSnapshot =>
        assert publication.Prohibited? ==> need == {WorkspaceRoot, ConstellationLock};
      case LockConstellation =>
        assert !publication.Prohibited? ==> need == {WorkspaceRoot, ConstellationLock, PublicationTarget};
      case Bootstrap | ShellBootstrap =>
        assert !publication.Prohibited? ==>
                 need == {WorkspaceRoot, ConstellationLock, DestinationRoot, PublicationTarget};
      case DsrQuality | DsrBuild | RchProbe =>
        assert !publication.Prohibited? ==>
                 need == {WorkspaceRoot, ConstellationLock, OutputRoot, PublicationTarget};
    }
  }

  // ----- Counts and targets -----

  /** A profile never has more slots than the row limits: the limits alone refuse no good declaration. */
  lemma ProfilesFitLimits(spec: AdmissionContext)
    requires GoodDeclaration(spec)
    ensures |spec.pathCapabilities| <= MAX_PATH_CAPABILITIES
    ensures |spec.executableCapabilities| <= MAX_EXECUTABLE_CAPABILITIES
  {
    hide OneRowPerSlot, PathSlots, ExecutableSlots, Profile;
    PathRowsAreSlots(spec.pathCapabilities);
    ExecutableRowsAreSlots(spec.executableCapabilities);
    ProfileSizes(spec.command, spec.publication,
                 PathSlots(spec.pathCapabilities), ExecutableSlots(spec.executableCapabilities));
  }

  lemma ProfileSizes(command: CommandClass, publication: PublicationAuthority,
                     paths: set<PathSlot>, executables: set<ExecutableSlot>)
    requires Profile(command, publication, paths, executables)
    ensures |paths| <= 5 && |executables| <= 2
  {
    WithoutCache(paths);
    SmallSets();
  }

  lemma SmallSets()
    ensures forall a: PathSlot, b: PathSlot, c: PathSlot, d: PathSlot :: |{a, b, c, d}| <= 4
    ensures forall a: ExecutableSlot, b: ExecutableSlot :: |{a, b}| <= 2
  {
  }

  lemma WithoutCache(paths: set<PathSlot>)
    ensures |paths| <= |paths - {SourceCache}| + 1
  {
    if SourceCache in paths {
      assert paths == (paths - {SourceCache}) + {SourceCache};
    } else {
      assert paths == paths - {SourceCache};
    }
  }

  lemma TargetIsBound(spec: AdmissionContext)
    requires OneRowPerSlot(spec.pathCapabilities) && !spec.publication.Prohibited?
    ensures FindPath(spec.pathCapabilities, PublicationTarget) == spec.publication.Target() <==>
            Capability(PublicationTarget, spec.publication.capability) in spec.pathCapabilities
  {
    var found := FindPath(spec.pathCapabilities, PublicationTarget);
    var row := Capability(PublicationTarget, spec.publication.capability);
    if row in spec.pathCapabilities {
      assert HasPath(spec.pathCapabilities, PublicationTarget);
      DistinctPaths(spec.pathCapabilities);
      SameSlotSameRow(spec.pathCapabilities, row, Capability(PublicationTarget, found.value));
    }
  }

  /** A declaration is accepted exactly when it is good. */
  lemma AcceptedWhenGood(spec: AdmissionContext)
    ensures TryNew(spec).Success? <==> GoodDeclaration(spec)
  {
    hide Profile, OneRowPerSlot, PathSlots, ExecutableSlots, ValidatePaths, ValidateExecutables, Canonical, FindPath;
    PathsAreExact(spec);
    if OneRowPerSlot(spec.pathCapabilities) && !spec.publication.Prohibited? {
      TargetIsBound(spec);
    }
    if GoodDeclaration(spec) {
      ProfilesFitLimits(spec);
    }
    OfflineCommands(spec);
  }

  /** The commands that must stay offline are those that fetch nothing. */
  lemma OfflineCommands(spec: AdmissionContext)
    ensures spec.command.RequiresOfflineFetch()
            <==> spec.command !in {Bootstrap, ShellBootstrap, DsrQuality, DsrBuild, RchProbe}
  {
  }

  // ----- Refusals -----

  /** What a refusal says about a declaration. */
  predicate Breaks(spec: AdmissionContext, rule: AdmissionRule) {
    var network, publication := spec.budgets.network, spec.publication;
    var paths, executables := PathSlots(spec.pathCapabilities), ExecutableSlots(spec.executableCapabilities);
    var readOnly := spec.command in {DiagnosticOnly, VerifyOnly, Snapshot, ShellVerifyOnly, ShellSnapshot};
    match rule
    case TooManyPathCapabilities => |spec.pathCapabilities| > 5
    case TooManyExecutableCapabilities => |spec.executableCapabilities| > 2
    case ClockBindingMismatch => spec.budgets.deadline.clock != spec.cx.clock
    case OfflineNetworkBudgetConflict => spec.fetch.Offline? && (network.requests > 0 || network.bytes > 0)
    case FetchAuthorityWithoutBudget => !spec.fetch.Offline? && (network.requests == 0 || network.bytes == 0)
    case NetworkForbiddenForCommand => !spec.fetch.Offline? && (readOnly || spec.command.LockConstellation?)
    case PublicationRequiredForCommand => publication.Prohibited? && !readOnly
    case PublicationForbiddenForCommand => !publication.Prohibited?
    case PublicationWithoutOutputBudget => !publication.Prohibited? && spec.budgets.io.outputBytes == 0
    case DuplicatePathCapability => !OneRowPerSlot(spec.pathCapabilities)
    case UnexpectedPathCapability => !(paths <= Allowed(spec.command, publication))
    case MissingPathCapability => !(Needed(spec.command, publication) <= paths)
    case DuplicateExecutableCapability => !OneRowPerSlot(spec.executableCapabilities)
    case UnexpectedExecutableCapability => !(executables <= spec.command.RequiredExecutables())
    case MissingExecutableCapability => !(spec.command.RequiredExecutables() <= executables)
    case PublicationCapabilityMismatch =>
      && !publication.Prohibited?
      && Capability(PublicationTarget, publication.capability) !in spec.pathCapabilities
    case _ => false
  }

  lemma PathRefusalIsTrue(spec: AdmissionContext)
    requires ValidatePaths(spec.command, spec.publication, spec.pathCapabilities).Some?
    ensures ValidatePaths(spec.command, spec.publication, spec.pathCapabilities).value
            in {DuplicatePathCapability, UnexpectedPathCapability, MissingPathCapability}
    ensures Breaks(spec, ValidatePaths(spec.command, spec.publication, spec.pathCapabilities).value)
  {
    var paths := PathSlots(spec.pathCapabilities);
    DistinctPaths(spec.pathCapabilities);
    forall slot ensures HasPath(spec.pathCapabilities, slot) <==> slot in paths {
    }
    hide DistinctKeys, OneRowPerSlot, HasPath;
    assert forall slot :: spec.command.PathIsAllowed(slot, spec.publication)
                          <==> slot in Allowed(spec.command, spec.publication);
  }

  lemma ExecutableRefusalIsTrue(spec: AdmissionContext)
    requires ValidateExecutables(spec.command, spec.executableCapabilities).Some?
    ensures ValidateExecutables(spec.command, spec.executableCapabilities).value
            in {DuplicateExecutableCapability, UnexpectedExecutableCapability, MissingExecutableCapability}
    ensures Breaks(spec, ValidateExecutables(spec.command, spec.executableCapabilities).value)
  {
    var executables := ExecutableSlots(spec.executableCapabilities);
    DistinctExecutables(spec.executableCapabilities);
    forall slot ensures HasExecutable(spec.executableCapabilities, slot) <==> slot in executables {
    }
    hide DistinctKeys, OneRowPerSlot, HasExecutable;
  }

  /** A refused declaration breaks the rule that it is refused for. */
  lemma RefusalIsTrue(spec: AdmissionContext)
    requires TryNew(spec).Failure?
    ensures Breaks(spec, TryNew(spec).error)
  {
    hide OneRowPerSlot, PathSlots, ExecutableSlots, ValidatePaths, ValidateExecutables, Canonical, FindPath, Needed;
    hide Allowed;
    if AuthorityRefusal(spec).None? {
      if ValidatePaths(spec.command, spec.publication, spec.pathCapabilities).Some? {
        PathRefusalIsTrue(spec);
      } else if ValidateExecutables(spec.command, spec.executableCapabilities).Some? {
        ExecutableRefusalIsTrue(spec);
      } else {
        DistinctWhenValid(spec);
        TargetIsBound(spec);
      }
    }
  }

  lemma DistinctWhenValid(spec: AdmissionContext)
    requires ValidatePaths(spec.command, spec.publication, spec.pathCapabilities).None?
    ensures OneRowPerSlot(spec.pathCapabilities)
  {
    DistinctPaths(spec.pathCapabilities);
  }
}
