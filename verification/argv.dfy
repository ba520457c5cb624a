/**
 The argv contract: one invocation parsed from the tokens after the executable
 name. `Parse` empties a flag table command by command as the source does;
 `ParseSpec` says the same of the groups directly.
*/
module Argv {
  import opened Wrappers
  import opened Digits
  import opened Vocabulary
  import opened ArgvFlags

  datatype Bundle = Bundle(path: string, format: string, digest: string, artifactDigest: string, size: nat)

  datatype PlanRequest = PlanRequest(
    operation: Operation, releaseDigest: string, operationId: string, expiresAt: string,
    backupRef: Option<string>, captureMode: Option<string>, recoveryMode: Option<string>,
    permissionProfile: Option<string>, bundle: Option<Bundle>, prefix: Option<string>,
    softwareVersion: Option<string>, scope: Option<TargetScope>, section: Option<string>)

  datatype Invocation =
    | InfoCall
    | ValidateCall(target: string, claimed: Bundle)
    | PlanCall(target: string, request: PlanRequest)
    | ApplyCall(target: string, plan: string, planDigest: string, releaseDigest: string,
                cancel: bool, prepare: bool, bundle: Option<Bundle>, prefix: Option<string>, artifacts: seq<string>)
    | RecoverCall(target: string)
    | StatusCall(target: string, scope: Option<TargetScope>)
    | LaunchCall(target: string, prefix: Option<string>, arguments: seq<string>)

  function CommandOf(inv: Invocation): Command {
    match inv
    case InfoCall => ProviderInfo
    case ValidateCall(_, _) => ValidateBundle
    case PlanCall(_, _) => PlanOperation
    case ApplyCall(_, _, _, _, _, _, _, _, _) => ApplyOperation
    case RecoverCall(_) => RecoverOperation
    case StatusCall(_, _) => Status
    case LaunchCall(_, _, _) => Launch
  }

  /** `str::parse::<u64>`: an optional plus sign, then digits that fit. */
  function ParseU64(text: string): Option<nat> {
    var digits := if |text| > 1 && text[0] == '+' then text[1..] else text;
    if digits != "" && AllDigits(digits) && Value(digits) <= U64_MAX then Some(Value(digits)) else None
  }

  const BUNDLE_FLAGS: seq<Flag> := [BundlePath, BundleFormat, BundleDigest, ArtifactDigest, BundleSize]

  /** Flags without which a command cannot run. */
  function Required(c: Command): seq<Flag> {
    match c
    case ProviderInfo => []
    case Status => [Target, Json]
    case RecoverOperation => [Target, Json]
    case ValidateBundle => [Target, Json, BundlePath, BundleFormat, BundleDigest, ArtifactDigest, BundleSize]
    case PlanOperation => [Target, Json, OperationFlag, ReleaseDigest, OperationId, ExpiresAt]
    case ApplyOperation => [Target, Json, PlanPath, PlanDigest, ReleaseDigest]
    case Launch => [Target, Json, Prefix]
  }

  /** Everything before the first bare `--`, and everything after it. */
  function SplitPassthrough(tokens: seq<string>): (seq<string>, seq<string>)
    decreases |tokens|
  {
    if tokens == [] then ([], [])
    else if tokens[0] == "--" then ([], tokens[1..])
    else var (mine, passed) := SplitPassthrough(tokens[1..]); ([tokens[0]] + mine, passed)
  }

  // ----- what each command reads from the groups -----

  predicate Given(groups: seq<Group>, f: Flag) {
    if f == Json then SwitchCount(groups, Json) > 0 else ValuesIn(groups, f) != []
  }

  /** A required flag's value. */
  function Sure(groups: seq<Group>, f: Flag): string {
    if ValuesIn(groups, f) == [] then "" else ValuesIn(groups, f)[0]
  }

  function ReadBundle(groups: seq<Group>): Result<Option<Bundle>, Reason> {
    if forall f :: f in BUNDLE_FLAGS ==> ValuesIn(groups, f) == [] then Ok(None)
    else if exists f :: f in BUNDLE_FLAGS && ValuesIn(groups, f) == [] then Err(ProviderUnavailable)
    else BundleOfSize(groups)
  }

  function ReadPrefix(groups: seq<Group>, absolute: string -> bool): Result<Option<string>, Reason> {
    match One(groups, Prefix)
    case None => Ok(None)
    case Some(text) => if absolute(text) then Ok(Some(text)) else Err(ProviderUnavailable)
  }

  function ReadScope(groups: seq<Group>): Result<Option<TargetScope>, Reason> {
    match One(groups, Scope)
    case None => Ok(None)
    case Some(text) =>
      match ParseScope(text)
      case None => Err(UnsupportedOperation)
      case Some(scope) => Ok(Some(scope))
  }

  function ReadPlanIdentity(groups: seq<Group>): Result<(Operation, string, string, string), Reason> {
    var name :- Needed(groups, OperationFlag);
    match ParseOperation(name)
    case None => Err(UnsupportedOperation)
    case Some(operation) =>
      var release :- Needed(groups, ReleaseDigest);
      var id :- Needed(groups, OperationId);
      var expires :- Needed(groups, ExpiresAt);
      Ok((operation, release, id, expires))
  }

  function ReadPlacement(groups: seq<Group>, absolute: string -> bool): Result<Placement, Reason> {
    var prefix :- ReadPrefix(groups, absolute);
    var scope :- ReadScope(groups);
    Ok(Placement(prefix, One(groups, SoftwareVersion), scope, One(groups, InstructionSection)))
  }

  function ReadPlan(groups: seq<Group>, absolute: string -> bool): Result<PlanRequest, Reason> {
    var head :- ReadPlanIdentity(groups);
    var bundle :- ReadBundle(groups);
    var place :- ReadPlacement(groups, absolute);
    Ok(PlanRequest(head.0, head.1, head.2, head.3, One(groups, BackupRef), One(groups, CaptureMode),
                   One(groups, RecoveryMode), One(groups, PermissionProfile), bundle, place.prefix,
                   place.version, place.scope, place.section))
  }

  /** The plan an apply names, and how it is applied. */
  datatype Approval = Approval(plan: string, digest: string, release: string, cancel: bool, prepare: bool)

  function ReadApproval(groups: seq<Group>): Result<Approval, Reason> {
    var plan :- Needed(groups, PlanPath);
    var digest :- Needed(groups, PlanDigest);
    var release :- Needed(groups, ReleaseDigest);
    Ok(Approval(plan, digest, release, SwitchCount(groups, Cancel) > 0, SwitchCount(groups, Prepare) > 0))
  }

  function ReadApply(target: string, groups: seq<Group>, absolute: string -> bool): Result<Invocation, Reason> {
    var head :- ReadApproval(groups);
    var bundle :- ReadBundle(groups);
    var program :- ReadProgram(groups, absolute);
    Ok(ApplyCall(target, head.plan, head.digest, head.release, head.cancel, head.prepare, bundle, program.0, program.1))
  }

  function ReadProgram(groups: seq<Group>, absolute: string -> bool): Result<(Option<string>, seq<string>), Reason> {
    var prefix :- ReadPrefix(groups, absolute);
    Ok((prefix, ValuesIn(groups, SoftwareArtifact)))
  }

  function ReadStatus(target: string, groups: seq<Group>): Result<Invocation, Reason> {
    var scope :- ReadScope(groups);
    Ok(StatusCall(target, scope))
  }

  function ReadLaunch(target: string, groups: seq<Group>, passed: seq<string>,
                      absolute: string -> bool): Result<Invocation, Reason> {
    var prefix :- ReadPrefix(groups, absolute);
    Ok(LaunchCall(target, prefix, passed))
  }

  function ReadValidate(target: string, groups: seq<Group>): Result<Invocation, Reason> {
    var bundle :- ReadBundle(groups);
    match bundle
    case None => Err(ProviderUnavailable)
    case Some(claimed) => Ok(ValidateCall(target, claimed))
  }

  function ReadPlanCall(target: string, groups: seq<Group>, absolute: string -> bool): Result<Invocation, Reason> {
    var request :- ReadPlan(groups, absolute);
    Ok(PlanCall(target, request))
  }

  function ReadBody(c: Command, target: string, groups: seq<Group>, passed: seq<string>,
                    absolute: string -> bool): Result<Invocation, Reason> {
    match c
    case ProviderInfo => Err(ProviderUnavailable)
    case Status => ReadStatus(target, groups)
    case RecoverOperation => Ok(RecoverCall(target))
    case Launch => ReadLaunch(target, groups, passed, absolute)
    case ValidateBundle => ReadValidate(target, groups)
    case PlanOperation => ReadPlanCall(target, groups, absolute)
    case ApplyOperation => ReadApply(target, groups, absolute)
  }

  function ReadCall(c: Command, groups: seq<Group>, passed: seq<string>,
                    absolute: string -> bool): Result<Invocation, Reason> {
    var target :- Needed(groups, Target);
    if SwitchCount(groups, Json) == 0 then Err(ProviderUnavailable) else ReadBody(c, target, groups, passed, absolute)
  }

  /** The flags a command claims from the table. */
  function Claims(c: Command): set<Flag> {
    match c
    case ProviderInfo => {}
    case Status => {Target, Json, Scope}
    case RecoverOperation => {Target, Json}
    case Launch => {Target, Json, Prefix}
    case ValidateBundle => {Target, Json, BundlePath, BundleFormat, BundleDigest, ArtifactDigest, BundleSize}
    case PlanOperation =>
      {Target, Json, OperationFlag, ReleaseDigest, OperationId, ExpiresAt, BackupRef, CaptureMode, RecoveryMode,
       PermissionProfile, BundlePath, BundleFormat, BundleDigest, ArtifactDigest, BundleSize, Prefix,
       SoftwareVersion, Scope, InstructionSection}
    case ApplyOperation =>
      {Target, Json, PlanPath, PlanDigest, ReleaseDigest, Cancel, Prepare,
       BundlePath, BundleFormat, BundleDigest, ArtifactDigest, BundleSize, Prefix, SoftwareArtifact}
  }

  ghost predicate Exhausted(c: Command, groups: seq<Group>) {
    forall f :: Used(groups, f) ==> f in Claims(c)
  }

  predicate Contradictory(inv: Invocation) {
    inv.ApplyCall? && inv.cancel && inv.prepare
  }

  ghost function ReadCommand(c: Command, groups: seq<Group>, passed: seq<string>,
                             absolute: string -> bool): Result<Invocation, Reason> {
    if exists f :: f in Required(c) && !Given(groups, f) then Err(ProviderUnavailable)
    else
      var inv :- ReadCall(c, groups, passed, absolute);
      if !Exhausted(c, groups) || Contradictory(inv) then Err(ProviderUnavailable) else Ok(inv)
  }

  ghost function ParseSpec(tokens: seq<string>, absolute: string -> bool): Result<Invocation, Reason> {
    if tokens == [] then Err(ProviderUnavailable)
    else
      match ParseCommand(tokens[0])
      case None => Err(ProviderUnavailable)
      case Some(c) =>
        if c == ProviderInfo then (if |tokens| > 1 then Err(ProviderUnavailable) else Ok(InfoCall))
        else
          var (mine, passed) := SplitPassthrough(tokens[1..]);
          if c != Launch && passed != [] then Err(ProviderUnavailable)
          else
            match Readable(mine)
            case None => Err(ProviderUnavailable)
            case Some(groups) => ReadCommand(c, groups, passed, absolute)
  }

  // ----- the parser as written -----

  const BUNDLE_SET: set<Flag> := {BundlePath, BundleFormat, BundleDigest, ArtifactDigest, BundleSize}

  predicate BundleUntaken(taken: set<Flag>) {
    && BundlePath !in taken && BundleFormat !in taken && BundleDigest !in taken
    && ArtifactDigest !in taken && BundleSize !in taken
  }

  lemma BundleFlagsAre()
    ensures forall f :: f in BUNDLE_FLAGS <==> f in BUNDLE_SET
    ensures forall f :: f in BUNDLE_SET ==> !IsSwitch(f)
  {
    assert BUNDLE_FLAGS == [BundlePath, BundleFormat, BundleDigest, ArtifactDigest, BundleSize];
  }

  /** How many of the five bundle flags are still in the table. */
  method CountBundleFlags(flags: Flags) returns (present: nat)
    requires flags.Valid() && BundleUntaken(flags.taken)
    ensures present == 0 <==> forall f :: f in BUNDLE_FLAGS ==> ValuesIn(flags.groups, f) == []
    ensures present == 5 <==> forall f :: f in BUNDLE_FLAGS ==> ValuesIn(flags.groups, f) != []
  {
    hide ValuesIn, NoRepeats, Sorted;
    BundleFlagsAre();
    present := 0;
    for i := 0 to |BUNDLE_FLAGS|
      invariant 0 <= present <= i
      invariant present == 0 <==> forall j :: 0 <= j < i ==> ValuesIn(flags.groups, BUNDLE_FLAGS[j]) == []
      invariant present == i <==> forall j :: 0 <= j < i ==> ValuesIn(flags.groups, BUNDLE_FLAGS[j]) != []
    {
      assert BUNDLE_FLAGS[i] in BUNDLE_FLAGS;
      if BUNDLE_FLAGS[i] in flags.values {
        present := present + 1;
      }
    }
  }

  lemma ReadBundleCases(groups: seq<Group>)
    ensures (forall f :: f in BUNDLE_FLAGS ==> ValuesIn(groups, f) == []) ==> ReadBundle(groups) == Ok(None)
    ensures (exists f, g :: && f in BUNDLE_FLAGS && g in BUNDLE_FLAGS
                            && ValuesIn(groups, f) != [] && ValuesIn(groups, g) == [])
            ==> ReadBundle(groups) == Err(ProviderUnavailable)
    ensures (forall f :: f in BUNDLE_FLAGS ==> ValuesIn(groups, f) != []) ==>
              && (forall f :: f in BUNDLE_SET ==> One(groups, f) == Some(Sure(groups, f)))
              && ReadBundle(groups) == BundleOfSize(groups)
  {
    BundleFlagsAre();
    assert BundlePath in BUNDLE_FLAGS;
  }

  function BundleOfSize(groups: seq<Group>): Result<Option<Bundle>, Reason> {
    match ParseU64(Sure(groups, BundleSize))
    case None => Err(ProviderUnavailable)
    case Some(size) =>
      Ok(Some(Bundle(Sure(groups, BundlePath), Sure(groups, BundleFormat), Sure(groups, BundleDigest),
                     Sure(groups, ArtifactDigest), size)))
  }

  /** The bundle a call names; a partial set of its flags names none and is refused. */
  method TakeBundle(flags: Flags) returns (r: Result<Option<Bundle>, Reason>)
    requires flags.Valid() && BundleUntaken(flags.taken)
    modifies flags
    ensures flags.Valid() && r == ReadBundle(flags.groups)
    ensures r.Ok? ==> flags.taken == old(flags.taken) + BundleClaims(r.value)
  {
    var present := CountBundleFlags(flags);
    ReadBundleCases(flags.groups);
    hide *;
    if present == 0 {
      return Ok(None);
    }
    if present != 5 {
      return Err(ProviderUnavailable);
    }
    r := TakeFive(flags);
  }

  method TakeFive(flags: Flags) returns (r: Result<Option<Bundle>, Reason>)
    requires flags.Valid() && BundleUntaken(flags.taken)
    requires forall f :: f in BUNDLE_SET ==> One(flags.groups, f) == Some(Sure(flags.groups, f))
    modifies flags
    ensures flags.Valid() && r == BundleOfSize(flags.groups)
    ensures r.Ok? ==>
              && r.value.Some?
              && flags.taken == old(flags.taken) + {BundlePath, BundleFormat, BundleDigest, ArtifactDigest, BundleSize}
  {
    hide One, Sure, ParseU64, Flags.Valid;
    var path := flags.TakeOptional(BundlePath);
    var format := flags.TakeOptional(BundleFormat);
    var digest := flags.TakeOptional(BundleDigest);
    var artifact := flags.TakeOptional(ArtifactDigest);
    var raw := flags.TakeOptional(BundleSize);
    var size := ParseU64(raw.value);
    if size.None? {
      return Err(ProviderUnavailable);
    }
    r := Ok(Some(Bundle(path.value, format.value, digest.value, artifact.value, size.value)));
  }

  /** The prefix of the call, refused unless absolute. */
  method TakePrefix(flags: Flags, absolute: string -> bool) returns (r: Result<Option<string>, Reason>)
    requires flags.Valid() && Prefix !in flags.taken
    modifies flags
    ensures flags.Valid() && r == ReadPrefix(flags.groups, absolute)
    ensures flags.taken == old(flags.taken) + {Prefix}
  {
    var text := flags.TakeOptional(Prefix);
    if text.Some? && !absolute(text.value) {
      return Err(ProviderUnavailable);
    }
    r := Ok(text);
  }

  /** The target scope, refused when this build does not know it. */
  method TakeScope(flags: Flags) returns (r: Result<Option<TargetScope>, Reason>)
    requires flags.Valid() && Scope !in flags.taken
    modifies flags
    ensures flags.Valid() && r == ReadScope(flags.groups)
    ensures flags.taken == old(flags.taken) + {Scope}
  {
    var named := flags.TakeOptional(Scope);
    if named.None? {
      return Ok(None);
    }
    var scope := ParseScope(named.value);
    if scope.None? {
      return Err(UnsupportedOperation);
    }
    r := Ok(scope);
  }

  /** The four required fields of a plan. */
  method TakePlanIdentity(flags: Flags) returns (r: Result<(Operation, string, string, string), Reason>)
    requires flags.Valid() && flags.taken == {Target, Json}
    modifies flags
    ensures flags.Valid() && r == ReadPlanIdentity(flags.groups)
    ensures r.Ok? ==> flags.taken == {Target, Json, OperationFlag, ReleaseDigest, OperationId, ExpiresAt}
  {
    hide Flags.Valid, Needed;
    var name :- flags.TakeRequired(OperationFlag);
    var operation := ParseOperation(name);
    if operation.None? {
      return Err(UnsupportedOperation);
    }
    var release :- flags.TakeRequired(ReleaseDigest);
    var id :- flags.TakeRequired(OperationId);
    var expires :- flags.TakeRequired(ExpiresAt);
    r := Ok((operation.value, release, id, expires));
  }

  method TakePlanOptions(flags: Flags)
    returns (backup: Option<string>, capture: Option<string>, recovery: Option<string>, profile: Option<string>)
    requires flags.Valid() && flags.taken == {Target, Json, OperationFlag, ReleaseDigest, OperationId, ExpiresAt}
    modifies flags
    ensures flags.Valid()
    ensures backup == One(flags.groups, BackupRef) && capture == One(flags.groups, CaptureMode)
    ensures recovery == One(flags.groups, RecoveryMode) && profile == One(flags.groups, PermissionProfile)
    ensures flags.taken == {Target, Json, OperationFlag, ReleaseDigest, OperationId, ExpiresAt,
                            BackupRef, CaptureMode, RecoveryMode, PermissionProfile}
  {
    hide Flags.Valid, One;
    backup := flags.TakeOptional(BackupRef);
    capture := flags.TakeOptional(CaptureMode);
    recovery := flags.TakeOptional(RecoveryMode);
    profile := flags.TakeOptional(PermissionProfile);
  }

  datatype Placement = Placement(prefix: Option<string>, version: Option<string>, scope: Option<TargetScope>,
                                 section: Option<string>)

  method TakePlacement(flags: Flags, absolute: string -> bool) returns (r: Result<Placement, Reason>)
    requires flags.Valid()
    requires Prefix !in flags.taken && SoftwareVersion !in flags.taken && Scope !in flags.taken
    requires InstructionSection !in flags.taken
    modifies flags
    ensures flags.Valid() && r == ReadPlacement(flags.groups, absolute)
    ensures r.Ok? ==> flags.taken == old(flags.taken) + {Prefix, SoftwareVersion, Scope, InstructionSection}
  {
    hide Flags.Valid, ReadScope, ReadPrefix, One;
    var prefix :- TakePrefix(flags, absolute);
    var version := flags.TakeOptional(SoftwareVersion);
    var scope :- TakeScope(flags);
    var section := flags.TakeOptional(InstructionSection);
    r := Ok(Placement(prefix, version, scope, section));
  }

  /** Everything a plan is bound to, in the order the source claims it. */
  method TakePlan(flags: Flags, absolute: string -> bool) returns (r: Result<PlanRequest, Reason>)
    requires flags.Valid() && flags.taken == {Target, Json}
    modifies flags
    ensures flags.Valid()
    ensures r == ReadPlan(flags.groups, absolute)
    ensures r.Ok? ==> flags.taken == PlanClaims(r.value.bundle)
  {
    hide Flags.Valid, ReadBundle, ReadPlacement, One, ReadPlanIdentity;
    var head :- TakePlanIdentity(flags);
    var backup, capture, recovery, profile := TakePlanOptions(flags);
    var bundle :- TakeBundle(flags);
    var place :- TakePlacement(flags, absolute);
    r := Ok(PlanRequest(head.0, head.1, head.2, head.3, backup, capture, recovery, profile, bundle, place.prefix,
                        place.version, place.scope, place.section));
  }

  /** What a plan has claimed by its end: the bundle flags only if there was a bundle. */
  function PlanClaims(bundle: Option<Bundle>): set<Flag> {
    {Target, Json, OperationFlag, ReleaseDigest, OperationId, ExpiresAt, BackupRef, CaptureMode, RecoveryMode,
     PermissionProfile}
    + BundleClaims(bundle) + {Prefix, SoftwareVersion, Scope, InstructionSection}
  }

  function BundleClaims(bundle: Option<Bundle>): set<Flag> {
    if bundle.Some? then {BundlePath, BundleFormat, BundleDigest, ArtifactDigest, BundleSize} else {}
  }

  lemma NoBundleUnused(groups: seq<Group>)
    requires Sorted(groups) && ReadBundle(groups) == Ok(None)
    ensures forall f :: f in BUNDLE_SET ==> !Used(groups, f)
  {
    hide ValuesIn, SwitchCount;
    BundleFlagsAre();
    ReadBundleCases(groups);
  }

  method TakeSwitches(flags: Flags) returns (cancel: bool, prepare: bool)
    requires flags.Valid() && Cancel !in flags.taken && Prepare !in flags.taken
    modifies flags
    ensures flags.Valid() && flags.taken == old(flags.taken) + {Cancel, Prepare}
    ensures cancel == (SwitchCount(flags.groups, Cancel) > 0) && prepare == (SwitchCount(flags.groups, Prepare) > 0)
  {
    hide Flags.Valid, SwitchCount;
    cancel := flags.TakeSwitch(Cancel);
    prepare := flags.TakeSwitch(Prepare);
  }

  method TakeApproval(flags: Flags) returns (r: Result<Approval, Reason>)
    requires flags.Valid() && flags.taken == {Target, Json}
    modifies flags
    ensures flags.Valid() && r == ReadApproval(flags.groups)
    ensures r.Ok? ==> flags.taken == {Target, Json, PlanPath, PlanDigest, ReleaseDigest, Cancel, Prepare}
    ensures r.Ok? ==> BundleUntaken(flags.taken) && Prefix !in flags.taken && SoftwareArtifact !in flags.taken
  {
    hide Flags.Valid, Needed, SwitchCount;
    var plan :- flags.TakeRequired(PlanPath);
    var digest :- flags.TakeRequired(PlanDigest);
    var release :- flags.TakeRequired(ReleaseDigest);
    var cancel, prepare := TakeSwitches(flags);
    r := Ok(Approval(plan, digest, release, cancel, prepare));
  }

  /** What was given and claimed is what was given and the command claims. */
  ghost predicate Claimed(groups: seq<Group>, taken: set<Flag>, c: Command) {
    forall f :: Used(groups, f) ==> (f in taken <==> f in Claims(c))
  }

  lemma BundleClaimsAre()
    ensures forall bundle :: BundleClaims(bundle) !! {Prefix, SoftwareArtifact}
  {
  }

  lemma ApplyClaimed(groups: seq<Group>, taken: set<Flag>, bundle: Option<Bundle>)
    requires Sorted(groups) && ReadBundle(groups) == Ok(bundle)
    requires taken == {Target, Json, PlanPath, PlanDigest, ReleaseDigest, Cancel, Prepare} + BundleClaims(bundle)
                      + {Prefix, SoftwareArtifact}
    ensures Claimed(groups, taken, ApplyOperation)
  {
    hide ReadBundle, Used, Sorted;
    if bundle.None? {
      NoBundleUnused(groups);
    }
  }

  lemma PlanClaimed(groups: seq<Group>, absolute: string -> bool)
    requires Sorted(groups) && ReadPlan(groups, absolute).Ok?
    ensures Claimed(groups, PlanClaims(ReadPlan(groups, absolute).value.bundle), PlanOperation)
  {
    hide ReadBundle, Used, Sorted, ReadPlacement, ReadPlanIdentity;
    if ReadBundle(groups) == Ok(None) {
      NoBundleUnused(groups);
    }
  }

  /** Where software goes and the downloaded files, in the order they were given. */
  method TakeProgram(flags: Flags, absolute: string -> bool) returns (r: Result<(Option<string>, seq<string>), Reason>)
    requires flags.Valid() && Prefix !in flags.taken && SoftwareArtifact !in flags.taken
    modifies flags
    ensures flags.Valid() && r == ReadProgram(flags.groups, absolute)
    ensures r.Ok? ==> flags.taken == old(flags.taken) + {Prefix, SoftwareArtifact}
  {
    hide Flags.Valid, ReadPrefix, ValuesIn;
    var prefix :- TakePrefix(flags, absolute);
    var artifacts := flags.TakeRepeated(SoftwareArtifact);
    r := Ok((prefix, artifacts));
  }

  method TakeApply(target: string, flags: Flags, absolute: string -> bool) returns (r: Result<Invocation, Reason>)
    requires flags.Valid() && flags.taken == {Target, Json}
    modifies flags
    ensures flags.Valid() && r == ReadApply(target, flags.groups, absolute)
    ensures r.Ok? ==> Claimed(flags.groups, flags.taken, ApplyOperation)
  {
    assert Sorted(flags.groups);
    hide Flags.Valid, ReadBundle, ReadProgram, ReadApproval, Used, Sorted, Claimed, Claims, BundleClaims;
    BundleClaimsAre();
    var head :- TakeApproval(flags);
    var bundle :- TakeBundle(flags);
    var program :- TakeProgram(flags, absolute);
    ApplyClaimed(flags.groups, flags.taken, bundle);
    r := Ok(ApplyCall(target, head.plan, head.digest, head.release, head.cancel, head.prepare, bundle,
                      program.0, program.1));
  }

  method TakePlanCall(target: string, flags: Flags, absolute: string -> bool) returns (r: Result<Invocation, Reason>)
    requires flags.Valid() && flags.taken == {Target, Json}
    modifies flags
    ensures flags.Valid() && r == ReadPlanCall(target, flags.groups, absolute)
    ensures r.Ok? ==> Claimed(flags.groups, flags.taken, PlanOperation)
  {
    assert Sorted(flags.groups);
    hide Flags.Valid, ReadPlan, Used, Sorted, Claimed, PlanClaims;
    var request :- TakePlan(flags, absolute);
    PlanClaimed(flags.groups, absolute);
    r := Ok(PlanCall(target, request));
  }

  method TakeValidate(target: string, flags: Flags) returns (r: Result<Invocation, Reason>)
    requires flags.Valid() && flags.taken == {Target, Json}
    modifies flags
    ensures flags.Valid() && r == ReadValidate(target, flags.groups)
    ensures r.Ok? ==> Claimed(flags.groups, flags.taken, ValidateBundle)
  {
    hide Flags.Valid, ReadBundle, Used;
    var bundle :- TakeBundle(flags);
    if bundle.None? {
      return Err(ProviderUnavailable);
    }
    r := Ok(ValidateCall(target, bundle.value));
  }

  /** The claims of one command, from its flag table. */
  method TakeCall(c: Command, flags: Flags, passed: seq<string>, absolute: string -> bool)
    returns (r: Result<Invocation, Reason>)
    requires flags.Valid() && flags.taken == {} && c != ProviderInfo
    modifies flags
    ensures flags.Valid() && r == ReadCall(c, flags.groups, passed, absolute)
    ensures r.Ok? ==> Claimed(flags.groups, flags.taken, c)
  {
    hide Flags.Valid, ReadPrefix, ReadScope, ReadValidate, ReadPlanCall, ReadApply, Needed, SwitchCount, Used;
    var target :- flags.TakeRequired(Target);
    var json := flags.TakeSwitch(Json);
    if !json {
      return Err(ProviderUnavailable);
    }
    match c {
      case Status =>
        var scope :- TakeScope(flags);
        r := Ok(StatusCall(target, scope));
      case RecoverOperation =>
        r := Ok(RecoverCall(target));
      case Launch =>
        var prefix :- TakePrefix(flags, absolute);
        r := Ok(LaunchCall(target, prefix, passed));
      case ValidateBundle =>
        r := TakeValidate(target, flags);
      case PlanOperation =>
        r := TakePlanCall(target, flags, absolute);
      case ApplyOperation =>
        r := TakeApply(target, flags, absolute);
    }
  }

  /** Whether any required flag is missing. */
  method MissesRequired(c: Command, flags: Flags) returns (missing: bool)
    requires flags.Valid() && flags.taken == {}
    ensures missing <==> exists f :: f in Required(c) && !Given(flags.groups, f)
  {
    hide ValuesIn, SwitchCount, NoRepeats, Required;
    var required := Required(c);
    missing := false;
    for i := 0 to |required|
      invariant missing <==> exists j :: 0 <= j < i && !Given(flags.groups, required[j])
    {
      if !flags.Holds(required[i]) {
        missing := true;
      }
    }
  }

  /** One invocation, or its refusal. */
  method Parse(tokens: seq<string>, absolute: string -> bool) returns (r: Result<Invocation, Reason>)
    ensures r == ParseSpec(tokens, absolute)
  {
    hide Readable, SplitPassthrough, ReadCall, Required, Flags.Valid, Given, Claims, ParseCommand;
    if tokens == [] {
      return Err(ProviderUnavailable);
    }
    var command := ParseCommand(tokens[0]);
    if command.None? {
      return Err(ProviderUnavailable);
    }
    var c := command.value;
    if c == ProviderInfo {
      if |tokens| > 1 {
        return Err(ProviderUnavailable);
      }
      return Ok(InfoCall);
    }
    var (mine, passed) := SplitPassthrough(tokens[1..]);
    if c != Launch && passed != [] {
      return Err(ProviderUnavailable);
    }
    var table := ParseFlags(mine);
    if table.None? {
      return Err(ProviderUnavailable);
    }
    var flags := table.value;
    var missing := MissesRequired(c, flags);
    if missing {
      return Err(ProviderUnavailable);
    }
    var inv :- TakeCall(c, flags, passed, absolute);
    var exhausted := flags.RequireExhausted();
    if !exhausted || Contradictory(inv) {
      return Err(ProviderUnavailable);
    }
    r := Ok(inv);
  }
}
