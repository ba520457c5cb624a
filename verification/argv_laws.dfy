/**
 What the argv parser promises: acceptance is one declarative statement about
 the groups, so nothing given is ever ignored, order does not matter, and every
 lawful invocation has a spelling that parses back to it.
*/
module ArgvLaws {
  import opened Wrappers
  import opened Vocabulary
  import opened ArgvFlags
  import opened Argv

  // ----- what an invocation says about each flag -----

  function TargetOf(inv: Invocation): Option<string> {
    match inv
    case InfoCall => None
    case ValidateCall(target, _) => Some(target)
    case PlanCall(target, _) => Some(target)
    case ApplyCall(target, _, _, _, _, _, _, _, _) => Some(target)
    case RecoverCall(target) => Some(target)
    case StatusCall(target, _) => Some(target)
    case LaunchCall(target, _, _) => Some(target)
  }

  function BundleOf(inv: Invocation): Option<Bundle> {
    match inv
    case ValidateCall(_, claimed) => Some(claimed)
    case PlanCall(_, request) => request.bundle
    case ApplyCall(_, _, _, _, _, _, bundle, _, _) => bundle
    case _ => None
  }

  function PrefixOf(inv: Invocation): Option<string> {
    match inv
    case PlanCall(_, request) => request.prefix
    case ApplyCall(_, _, _, _, _, _, _, prefix, _) => prefix
    case LaunchCall(_, prefix, _) => prefix
    case _ => None
  }

  function ScopeOf(inv: Invocation): Option<TargetScope> {
    match inv
    case PlanCall(_, request) => request.scope
    case StatusCall(_, scope) => scope
    case _ => None
  }

  function ReleaseOf(inv: Invocation): Option<string> {
    match inv
    case PlanCall(_, request) => Some(request.releaseDigest)
    case ApplyCall(_, _, _, release, _, _, _, _, _) => Some(release)
    case _ => None
  }

  function OptSeq(o: Option<string>): seq<string> {
    match o
    case None => []
    case Some(s) => [s]
  }

  /** The values an invocation spells under a flag; the byte count is spelled freely. */
  function Texts(inv: Invocation, f: Flag, size: string): seq<string> {
    match f
    case Target => OptSeq(TargetOf(inv))
    case Prefix => OptSeq(PrefixOf(inv))
    case BundlePath => (match BundleOf(inv) case None => [] case Some(b) => [b.path])
    case BundleFormat => (match BundleOf(inv) case None => [] case Some(b) => [b.format])
    case BundleDigest => (match BundleOf(inv) case None => [] case Some(b) => [b.digest])
    case ArtifactDigest => (match BundleOf(inv) case None => [] case Some(b) => [b.artifactDigest])
    case BundleSize => if BundleOf(inv).Some? then [size] else []
    case Scope => (match ScopeOf(inv) case None => [] case Some(s) => [ScopeName(s)])
    case ReleaseDigest => OptSeq(ReleaseOf(inv))
    case OperationFlag => if inv.PlanCall? then [OperationName(inv.request.operation)] else []
    case OperationId => if inv.PlanCall? then [inv.request.operationId] else []
    case ExpiresAt => if inv.PlanCall? then [inv.request.expiresAt] else []
    case BackupRef => if inv.PlanCall? then OptSeq(inv.request.backupRef) else []
    case CaptureMode => if inv.PlanCall? then OptSeq(inv.request.captureMode) else []
    case RecoveryMode => if inv.PlanCall? then OptSeq(inv.request.recoveryMode) else []
    case PermissionProfile => if inv.PlanCall? then OptSeq(inv.request.permissionProfile) else []
    case SoftwareVersion => if inv.PlanCall? then OptSeq(inv.request.softwareVersion) else []
    case InstructionSection => if inv.PlanCall? then OptSeq(inv.request.section) else []
    case PlanPath => if inv.ApplyCall? then [inv.plan] else []
    case PlanDigest => if inv.ApplyCall? then [inv.planDigest] else []
    case SoftwareArtifact => if inv.ApplyCall? then inv.artifacts else []
    case Json => []
    case Prepare => []
    case Cancel => []
    case Other(_) => []
  }

  predicate Switches(inv: Invocation, f: Flag) {
    (f == Json && !inv.InfoCall?) || (inv.ApplyCall? && ((f == Cancel && inv.cancel) || (f == Prepare && inv.prepare)))
  }

  /** A text that spells the invocation's byte count, if it has one. */
  predicate SpellsSize(inv: Invocation, size: string) {
    BundleOf(inv).Some? ==> ParseU64(size) == Some(BundleOf(inv).value.size)
  }

  /** The groups say exactly what the invocation says: every flag, every value, nothing else. */
  ghost predicate Carries(groups: seq<Group>, inv: Invocation, size: string) {
    && SpellsSize(inv, size)
    && (forall f :: ValuesIn(groups, f) == Texts(inv, f, size))
    && (forall f :: SwitchCount(groups, f) == if Switches(inv, f) then 1 else 0)
  }

  /** What a lawful invocation must satisfy beyond its flags. */
  predicate Lawful(inv: Invocation, absolute: string -> bool) {
    && (PrefixOf(inv).Some? ==> absolute(PrefixOf(inv).value))
    && (inv.LaunchCall? ==> inv.prefix.Some?)
    && !(inv.ApplyCall? && inv.cancel && inv.prepare)
  }

  // ----- each reader, exactly -----

  lemma OneGiven(groups: seq<Group>, f: Flag)
    requires NoRepeats(groups) && !Repeatable(f)
    ensures ValuesIn(groups, f) == OptSeq(One(groups, f))
  {
  }

  lemma PrefixIff(groups: seq<Group>, absolute: string -> bool, prefix: Option<string>)
    requires NoRepeats(groups)
    ensures ReadPrefix(groups, absolute) == Ok(prefix)
       <==> ValuesIn(groups, Prefix) == OptSeq(prefix) && (prefix.Some? ==> absolute(prefix.value))
  {
    OneGiven(groups, Prefix);
    hide ValuesIn, NoRepeats;
  }

  lemma ScopeIff(groups: seq<Group>, scope: Option<TargetScope>)
    requires NoRepeats(groups)
    ensures ReadScope(groups) == Ok(scope)
       <==> ValuesIn(groups, Scope) == (match scope case None => [] case Some(s) => [ScopeName(s)])
  {
    OneGiven(groups, Scope);
    hide ValuesIn, NoRepeats, ScopeName, ParseScope;
    if scope.Some? {
      ScopeNameParses(scope.value);
    }
  }

  ghost predicate BundleCarried(groups: seq<Group>, bundle: Option<Bundle>, size: string) {
    match bundle
    case None => forall f :: f in BUNDLE_SET ==> ValuesIn(groups, f) == []
    case Some(b) =>
      && ValuesIn(groups, BundlePath) == [b.path] && ValuesIn(groups, BundleFormat) == [b.format]
      && ValuesIn(groups, BundleDigest) == [b.digest] && ValuesIn(groups, ArtifactDigest) == [b.artifactDigest]
      && ValuesIn(groups, BundleSize) == [size] && ParseU64(size) == Some(b.size)
  }

  /** All five bundle flags were given. */
  ghost predicate BundleGiven(groups: seq<Group>) {
    && ValuesIn(groups, BundlePath) != [] && ValuesIn(groups, BundleFormat) != []
    && ValuesIn(groups, BundleDigest) != []
    && ValuesIn(groups, ArtifactDigest) != [] && ValuesIn(groups, BundleSize) != []
  }

  ghost predicate BundleAbsent(groups: seq<Group>) {
    && ValuesIn(groups, BundlePath) == [] && ValuesIn(groups, BundleFormat) == []
    && ValuesIn(groups, BundleDigest) == []
    && ValuesIn(groups, ArtifactDigest) == [] && ValuesIn(groups, BundleSize) == []
  }

  lemma BundleByCases(groups: seq<Group>)
    ensures BundleAbsent(groups) ==> ReadBundle(groups) == Ok(None)
    ensures BundleGiven(groups) ==> ReadBundle(groups) == BundleOfSize(groups)
    ensures !BundleAbsent(groups) && !BundleGiven(groups) ==> ReadBundle(groups).Err?
  {
    hide ValuesIn, BundleOfSize;
    BundleFlagsAre();
    assert BundlePath in BUNDLE_FLAGS && BundleFormat in BUNDLE_FLAGS && BundleDigest in BUNDLE_FLAGS;
    assert ArtifactDigest in BUNDLE_FLAGS && BundleSize in BUNDLE_FLAGS;
  }

  lemma BundleCarriedCases(groups: seq<Group>, bundle: Option<Bundle>, size: string)
    requires BundleCarried(groups, bundle, size)
    ensures if bundle.None? then BundleAbsent(groups) else BundleGiven(groups)
  {
    hide ValuesIn, ParseU64;
  }

  lemma BundleOfSizeIff(groups: seq<Group>, bundle: Option<Bundle>)
    requires NoRepeats(groups) && BundleGiven(groups)
    ensures BundleOfSize(groups) == Ok(bundle)
       <==> bundle.Some? && BundleCarried(groups, bundle, Sure(groups, BundleSize))
  {
    OneGiven(groups, BundlePath); OneGiven(groups, BundleFormat); OneGiven(groups, BundleDigest);
    OneGiven(groups, ArtifactDigest); OneGiven(groups, BundleSize);
    hide ValuesIn, NoRepeats, ParseU64;
  }

  lemma BundleIff(groups: seq<Group>, bundle: Option<Bundle>)
    requires NoRepeats(groups)
    ensures ReadBundle(groups) == Ok(bundle) <==> BundleCarried(groups, bundle, Sure(groups, BundleSize))
  {
    hide NoRepeats, ReadBundle, BundleGiven, BundleOfSize, Sure, ParseU64;
    BundleByCases(groups);
    if BundleGiven(groups) {
      BundleOfSizeIff(groups, bundle);
    }
    if BundleCarried(groups, bundle, Sure(groups, BundleSize)) {
      BundleCarriedCases(groups, bundle, Sure(groups, BundleSize));
    }
    if BundleAbsent(groups) && BundleGiven(groups) {
      NotBoth(groups);
    }
  }

  lemma NotBoth(groups: seq<Group>)
    ensures !(BundleAbsent(groups) && BundleGiven(groups))
  {
  }

  // ----- each command, exactly -----

  /** One flag of the call is what the invocation says it is. */
  ghost predicate Agrees(groups: seq<Group>, inv: Invocation, size: string, f: Flag) {
    ValuesIn(groups, f) == Texts(inv, f, size) && SwitchCount(groups, f) == if Switches(inv, f) then 1 else 0
  }

  /** Groups as the table holds them. */
  ghost predicate Sound(groups: seq<Group>) {
    NoRepeats(groups) && Sorted(groups)
  }

  lemma ValueFlagAgrees(groups: seq<Group>, inv: Invocation, size: string, f: Flag)
    requires Sound(groups) && !IsSwitch(f)
    ensures Agrees(groups, inv, size, f) <==> ValuesIn(groups, f) == Texts(inv, f, size)
  {
    hide ValuesIn, Texts, SwitchCount;
  }

  lemma SwitchAgrees(groups: seq<Group>, inv: Invocation, size: string, f: Flag)
    requires Sound(groups) && IsSwitch(f)
    ensures Agrees(groups, inv, size, f) <==> (SwitchCount(groups, f) > 0 <==> Switches(inv, f))
  {
    hide ValuesIn, SwitchCount;
    assert SwitchCount(groups, f) <= 1;
  }

  lemma NeededIff(groups: seq<Group>, f: Flag, value: string)
    requires Sound(groups) && !Repeatable(f)
    ensures Needed(groups, f) == Ok(value) <==> ValuesIn(groups, f) == [value]
  {
    OneGiven(groups, f);
    hide ValuesIn, NoRepeats;
  }

  lemma OneIff(groups: seq<Group>, f: Flag, value: Option<string>)
    requires Sound(groups) && !Repeatable(f)
    ensures One(groups, f) == value <==> ValuesIn(groups, f) == OptSeq(value)
  {
    OneGiven(groups, f);
    hide ValuesIn, NoRepeats;
  }

  /** The five bundle flags agree exactly when the bundle is carried. */
  ghost predicate BundleAgrees(groups: seq<Group>, inv: Invocation, size: string) {
    && SpellsSize(inv, size)
    && Agrees(groups, inv, size, BundlePath) && Agrees(groups, inv, size, BundleFormat)
    && Agrees(groups, inv, size, BundleDigest) && Agrees(groups, inv, size, ArtifactDigest)
    && Agrees(groups, inv, size, BundleSize)
  }

  lemma BundleTexts(inv: Invocation, size: string)
    ensures match BundleOf(inv)
            case None => forall f :: f in BUNDLE_SET ==> Texts(inv, f, size) == []
            case Some(b) =>
              && Texts(inv, BundlePath, size) == [b.path] && Texts(inv, BundleFormat, size) == [b.format]
              && Texts(inv, BundleDigest, size) == [b.digest] && Texts(inv, ArtifactDigest, size) == [b.artifactDigest]
              && Texts(inv, BundleSize, size) == [size]
  {
    hide BundleOf;
  }

  lemma BundleAgreesIff(groups: seq<Group>, inv: Invocation, size: string)
    requires Sound(groups)
    ensures BundleAgrees(groups, inv, size) <==> BundleCarried(groups, BundleOf(inv), size)
  {
    hide ValuesIn, SwitchCount, Sound, Agrees, ParseU64, BundleOf, Texts;
    BundleTexts(inv, size);
    BundleFlagsAre();
    forall f | f in BUNDLE_SET
      ensures Agrees(groups, inv, size, f) <==> ValuesIn(groups, f) == Texts(inv, f, size)
    {
      ValueFlagAgrees(groups, inv, size, f);
    }
  }

  lemma ReadBundleAgrees(groups: seq<Group>, inv: Invocation)
    requires Sound(groups)
    ensures ReadBundle(groups) == Ok(BundleOf(inv)) <==> BundleAgrees(groups, inv, Sure(groups, BundleSize))
  {
    hide BundleAgrees, BundleCarried, ReadBundle, Sure, BundleOf, NoRepeats;
    BundleIff(groups, BundleOf(inv));
    BundleAgreesIff(groups, inv, Sure(groups, BundleSize));
  }

  ghost predicate PrefixLawful(inv: Invocation, absolute: string -> bool) {
    PrefixOf(inv).Some? ==> absolute(PrefixOf(inv).value)
  }

  lemma ReadPrefixAgrees(groups: seq<Group>, absolute: string -> bool, inv: Invocation, size: string)
    requires Sound(groups)
    ensures ReadPrefix(groups, absolute) == Ok(PrefixOf(inv))
       <==> Agrees(groups, inv, size, Prefix) && PrefixLawful(inv, absolute)
  {
    PrefixIff(groups, absolute, PrefixOf(inv));
    ValueFlagAgrees(groups, inv, size, Prefix);
    hide ValuesIn, SwitchCount, Sound, Agrees, PrefixOf, ReadPrefix;
  }

  lemma ReadScopeAgrees(groups: seq<Group>, inv: Invocation, size: string)
    requires Sound(groups)
    ensures ReadScope(groups) == Ok(ScopeOf(inv)) <==> Agrees(groups, inv, size, Scope)
  {
    ScopeIff(groups, ScopeOf(inv));
    ValueFlagAgrees(groups, inv, size, Scope);
    hide ValuesIn, SwitchCount, Sound, Agrees, ScopeOf, ReadScope;
  }

  lemma TargetAgrees(groups: seq<Group>, inv: Invocation, size: string)
    requires Sound(groups) && !inv.InfoCall?
    ensures Needed(groups, Target) == Ok(TargetOf(inv).value) <==> Agrees(groups, inv, size, Target)
    ensures SwitchCount(groups, Json) > 0 <==> Agrees(groups, inv, size, Json)
  {
    NeededIff(groups, Target, TargetOf(inv).value);
    ValueFlagAgrees(groups, inv, size, Target);
    SwitchAgrees(groups, inv, size, Json);
    hide ValuesIn, SwitchCount, Sound, Agrees, Needed;
  }

  /** Target and `--json`, which every call but one carries. */
  ghost predicate HeadAgrees(groups: seq<Group>, inv: Invocation, size: string) {
    Agrees(groups, inv, size, Target) && Agrees(groups, inv, size, Json)
  }

  lemma ValidateIff(target: string, groups: seq<Group>, inv: Invocation, size: string)
    requires Sound(groups) && size == Sure(groups, BundleSize) && inv.ValidateCall?
    ensures ReadValidate(target, groups) == Ok(inv) <==> inv.target == target && BundleAgrees(groups, inv, size)
  {
    ReadBundleAgrees(groups, inv);
    hide Sound, ReadBundle, BundleAgrees, Sure;
  }

  ghost predicate IdentityAgrees(groups: seq<Group>, inv: Invocation, size: string) {
    && Agrees(groups, inv, size, OperationFlag) && Agrees(groups, inv, size, ReleaseDigest)
    && Agrees(groups, inv, size, OperationId) && Agrees(groups, inv, size, ExpiresAt)
  }

  lemma OperationAgrees(groups: seq<Group>, o: Operation)
    requires Sound(groups)
    ensures (Needed(groups, OperationFlag).Ok? && ParseOperation(Needed(groups, OperationFlag).value) == Some(o))
       <==> ValuesIn(groups, OperationFlag) == [OperationName(o)]
  {
    NeededIff(groups, OperationFlag, OperationName(o));
    OperationNameParses(o);
    hide ValuesIn, Sound, Needed, OperationName, ParseOperation;
  }

  lemma PlanIdentityIff(groups: seq<Group>, inv: Invocation, size: string)
    requires Sound(groups) && inv.PlanCall?
    ensures var q := inv.request;
            ReadPlanIdentity(groups) == Ok((q.operation, q.releaseDigest, q.operationId, q.expiresAt))
            <==> IdentityAgrees(groups, inv, size)
  {
    var q := inv.request;
    OperationAgrees(groups, q.operation);
    NeededIff(groups, ReleaseDigest, q.releaseDigest);
    NeededIff(groups, OperationId, q.operationId);
    NeededIff(groups, ExpiresAt, q.expiresAt);
    ValueFlagAgrees(groups, inv, size, OperationFlag); ValueFlagAgrees(groups, inv, size, ReleaseDigest);
    ValueFlagAgrees(groups, inv, size, OperationId); ValueFlagAgrees(groups, inv, size, ExpiresAt);
    hide ValuesIn, SwitchCount, Sound, Needed, OperationName, ParseOperation, Agrees;
  }

  ghost predicate OptionsAgree(groups: seq<Group>, inv: Invocation, size: string) {
    && Agrees(groups, inv, size, BackupRef) && Agrees(groups, inv, size, CaptureMode)
    && Agrees(groups, inv, size, RecoveryMode) && Agrees(groups, inv, size, PermissionProfile)
  }

  lemma PlanOptionsIff(groups: seq<Group>, inv: Invocation, size: string)
    requires Sound(groups) && inv.PlanCall?
    ensures OptionsAgree(groups, inv, size)
       <==> One(groups, BackupRef) == inv.request.backupRef && One(groups, CaptureMode) == inv.request.captureMode
            && One(groups, RecoveryMode) == inv.request.recoveryMode
            && One(groups, PermissionProfile) == inv.request.permissionProfile
  {
    var q := inv.request;
    OneIff(groups, BackupRef, q.backupRef); OneIff(groups, CaptureMode, q.captureMode);
    OneIff(groups, RecoveryMode, q.recoveryMode); OneIff(groups, PermissionProfile, q.permissionProfile);
    ValueFlagAgrees(groups, inv, size, BackupRef); ValueFlagAgrees(groups, inv, size, CaptureMode);
    ValueFlagAgrees(groups, inv, size, RecoveryMode); ValueFlagAgrees(groups, inv, size, PermissionProfile);
    hide ValuesIn, SwitchCount, Sound, One, Agrees;
  }

  ghost predicate PlacementAgrees(groups: seq<Group>, inv: Invocation, size: string) {
    && Agrees(groups, inv, size, Prefix) && Agrees(groups, inv, size, SoftwareVersion)
    && Agrees(groups, inv, size, Scope) && Agrees(groups, inv, size, InstructionSection)
  }

  lemma PlacementIff(groups: seq<Group>, absolute: string -> bool, inv: Invocation, size: string)
    requires Sound(groups) && inv.PlanCall?
    ensures ReadPlacement(groups, absolute)
              == Ok(Placement(inv.request.prefix, inv.request.softwareVersion, inv.request.scope, inv.request.section))
       <==> PlacementAgrees(groups, inv, size) && PrefixLawful(inv, absolute)
  {
    var q := inv.request;
    ReadPrefixAgrees(groups, absolute, inv, size);
    ReadScopeAgrees(groups, inv, size);
    OneIff(groups, SoftwareVersion, q.softwareVersion);
    OneIff(groups, InstructionSection, q.section);
    ValueFlagAgrees(groups, inv, size, SoftwareVersion);
    ValueFlagAgrees(groups, inv, size, InstructionSection);
    hide ValuesIn, SwitchCount, Sound, One, Agrees, ReadPrefix, ReadScope, PrefixLawful;
  }

  /** Everything a plan call says beyond its target. */
  ghost predicate PlanAgrees(groups: seq<Group>, inv: Invocation, size: string) {
    && IdentityAgrees(groups, inv, size) && OptionsAgree(groups, inv, size)
    && BundleAgrees(groups, inv, size) && PlacementAgrees(groups, inv, size)
  }

  lemma ReadPlanIff(groups: seq<Group>, absolute: string -> bool, inv: Invocation, size: string)
    requires Sound(groups) && size == Sure(groups, BundleSize) && inv.PlanCall?
    ensures ReadPlan(groups, absolute) == Ok(inv.request)
       <==> PlanAgrees(groups, inv, size) && PrefixLawful(inv, absolute)
  {
    PlanIdentityIff(groups, inv, size);
    PlanOptionsIff(groups, inv, size);
    ReadBundleAgrees(groups, inv);
    PlacementIff(groups, absolute, inv, size);
    hide Sound, ReadBundle, BundleAgrees, Sure, ReadPlanIdentity, ReadPlacement, One, PrefixLawful;
    hide IdentityAgrees, OptionsAgree, PlacementAgrees;
  }

  ghost predicate ApprovalAgrees(groups: seq<Group>, inv: Invocation, size: string) {
    && Agrees(groups, inv, size, PlanPath) && Agrees(groups, inv, size, PlanDigest)
    && Agrees(groups, inv, size, ReleaseDigest)
    && Agrees(groups, inv, size, Cancel) && Agrees(groups, inv, size, Prepare)
  }

  /** The two switches of an apply agree exactly when they were given as the invocation says. */
  lemma ApplySwitchesIff(groups: seq<Group>, inv: Invocation, size: string)
    requires Sound(groups) && inv.ApplyCall?
    ensures Agrees(groups, inv, size, Cancel) <==> (SwitchCount(groups, Cancel) > 0 <==> inv.cancel)
    ensures Agrees(groups, inv, size, Prepare) <==> (SwitchCount(groups, Prepare) > 0 <==> inv.prepare)
  {
    hide SwitchCount, Sound, Agrees;
    SwitchAgrees(groups, inv, size, Cancel);
    SwitchAgrees(groups, inv, size, Prepare);
  }

  /** A required flag of an apply agrees exactly when it reads as the invocation says. */
  lemma ApplyValueIff(groups: seq<Group>, inv: Invocation, size: string, f: Flag, value: string)
    requires Sound(groups) && !IsSwitch(f) && !Repeatable(f) && Texts(inv, f, size) == [value]
    ensures Agrees(groups, inv, size, f) <==> Needed(groups, f) == Ok(value)
  {
    hide ValuesIn, Sound, Agrees, Needed, Texts;
    NeededIff(groups, f, value);
    ValueFlagAgrees(groups, inv, size, f);
  }

  lemma ApprovalIff(groups: seq<Group>, inv: Invocation, size: string)
    requires Sound(groups) && inv.ApplyCall?
    ensures ReadApproval(groups) == Ok(Approval(inv.plan, inv.planDigest, inv.releaseDigest, inv.cancel, inv.prepare))
       <==> ApprovalAgrees(groups, inv, size)
  {
    hide ValuesIn, SwitchCount, Sound, Needed, Agrees;
    ApplyValueIff(groups, inv, size, PlanPath, inv.plan);
    ApplyValueIff(groups, inv, size, PlanDigest, inv.planDigest);
    ApplyValueIff(groups, inv, size, ReleaseDigest, inv.releaseDigest);
    ApplySwitchesIff(groups, inv, size);
  }

  lemma ProgramIff(groups: seq<Group>, absolute: string -> bool, inv: Invocation, size: string)
    requires Sound(groups) && inv.ApplyCall?
    ensures ReadProgram(groups, absolute) == Ok((inv.prefix, inv.artifacts))
       <==> && Agrees(groups, inv, size, Prefix) && Agrees(groups, inv, size, SoftwareArtifact)
            && PrefixLawful(inv, absolute)
  {
    ReadPrefixAgrees(groups, absolute, inv, size);
    ValueFlagAgrees(groups, inv, size, SoftwareArtifact);
    hide ValuesIn, SwitchCount, Sound, Agrees, ReadPrefix, PrefixLawful;
  }

  /** Everything an apply call says beyond its target. */
  ghost predicate ApplyAgrees(groups: seq<Group>, inv: Invocation, size: string) {
    && ApprovalAgrees(groups, inv, size) && BundleAgrees(groups, inv, size)
    && Agrees(groups, inv, size, Prefix) && Agrees(groups, inv, size, SoftwareArtifact)
  }

  lemma ReadApplyIff(target: string, groups: seq<Group>, absolute: string -> bool, inv: Invocation, size: string)
    requires Sound(groups) && size == Sure(groups, BundleSize) && inv.ApplyCall?
    ensures ReadApply(target, groups, absolute) == Ok(inv)
       <==> inv.target == target && ApplyAgrees(groups, inv, size) && PrefixLawful(inv, absolute)
  {
    ApprovalIff(groups, inv, size);
    ReadBundleAgrees(groups, inv);
    ProgramIff(groups, absolute, inv, size);
    hide Sound, ReadBundle, BundleAgrees, Sure, ReadApproval, ReadProgram, PrefixLawful, ApprovalAgrees, Agrees;
  }

  // ----- acceptance as one statement -----

  /** Every flag a command claims agrees. */
  ghost predicate ClaimsAgree(c: Command, groups: seq<Group>, inv: Invocation, size: string) {
    forall f :: f in Claims(c) ==> Agrees(groups, inv, size, f)
  }

  /** What a call says beyond its target and `--json`. */
  ghost predicate BodyAgrees(groups: seq<Group>, inv: Invocation, size: string) {
    match inv
    case InfoCall => false
    case StatusCall(_, _) => Agrees(groups, inv, size, Scope)
    case RecoverCall(_) => true
    case LaunchCall(_, _, _) => Agrees(groups, inv, size, Prefix)
    case ValidateCall(_, _) => BundleAgrees(groups, inv, size)
    case PlanCall(_, _) => PlanAgrees(groups, inv, size)
    case ApplyCall(_, _, _, _, _, _, _, _, _) => ApplyAgrees(groups, inv, size)
  }

  lemma ClaimsAgreeIff(groups: seq<Group>, inv: Invocation, size: string)
    requires !inv.InfoCall?
    ensures SpellsSize(inv, size) && ClaimsAgree(CommandOf(inv), groups, inv, size)
       <==> HeadAgrees(groups, inv, size) && BodyAgrees(groups, inv, size)
  {
    hide Agrees, ParseU64;
  }

  ghost predicate BodyExact(target: string, groups: seq<Group>, passed: seq<string>, absolute: string -> bool,
                            inv: Invocation, size: string) {
    ReadBody(CommandOf(inv), target, groups, passed, absolute) == Ok(inv)
    <==> && TargetOf(inv) == Some(target) && (inv.LaunchCall? ==> inv.arguments == passed)
         && PrefixLawful(inv, absolute) && BodyAgrees(groups, inv, size)
  }

  lemma SmallBodyIff(target: string, groups: seq<Group>, passed: seq<string>, absolute: string -> bool,
                     inv: Invocation, size: string)
    requires Sound(groups) && (inv.StatusCall? || inv.RecoverCall? || inv.LaunchCall?)
    ensures BodyExact(target, groups, passed, absolute, inv, size)
  {
    hide Sound, ReadScope, ReadPrefix, Agrees;
    match inv {
      case StatusCall(_, _) => ReadScopeAgrees(groups, inv, size);
      case RecoverCall(_) =>
      case LaunchCall(_, _, _) => ReadPrefixAgrees(groups, absolute, inv, size);
    }
  }

  lemma PlanBodyIff(target: string, groups: seq<Group>, passed: seq<string>, absolute: string -> bool,
                    inv: Invocation, size: string)
    requires Sound(groups) && size == Sure(groups, BundleSize) && inv.PlanCall?
    ensures BodyExact(target, groups, passed, absolute, inv, size)
  {
    hide Sound, ReadPlan, PlanAgrees, Sure, PrefixLawful;
    ReadPlanIff(groups, absolute, inv, size);
  }

  lemma ApplyBodyIff(target: string, groups: seq<Group>, passed: seq<string>, absolute: string -> bool,
                     inv: Invocation, size: string)
    requires Sound(groups) && size == Sure(groups, BundleSize) && inv.ApplyCall?
    ensures BodyExact(target, groups, passed, absolute, inv, size)
  {
    hide Sound, ReadApply, ApplyAgrees, Sure, PrefixLawful;
    ReadApplyIff(target, groups, absolute, inv, size);
  }

  lemma ValidateBodyIff(target: string, groups: seq<Group>, passed: seq<string>, absolute: string -> bool,
                        inv: Invocation, size: string)
    requires Sound(groups) && size == Sure(groups, BundleSize) && inv.ValidateCall?
    ensures BodyExact(target, groups, passed, absolute, inv, size)
  {
    hide Sound, ReadValidate, BundleAgrees, Sure;
    ValidateIff(target, groups, inv, size);
  }

  lemma BodyIff(target: string, groups: seq<Group>, passed: seq<string>, absolute: string -> bool, inv: Invocation,
                size: string)
    requires Sound(groups) && size == Sure(groups, BundleSize) && !inv.InfoCall?
    ensures BodyExact(target, groups, passed, absolute, inv, size)
  {
    hide Sound, BodyExact, Sure;
    match inv {
      case ValidateCall(_, _) => ValidateBodyIff(target, groups, passed, absolute, inv, size);
      case PlanCall(_, _) => PlanBodyIff(target, groups, passed, absolute, inv, size);
      case ApplyCall(_, _, _, _, _, _, _, _, _) => ApplyBodyIff(target, groups, passed, absolute, inv, size);
      case _ => SmallBodyIff(target, groups, passed, absolute, inv, size);
    }
  }

  lemma BodyKeepsCommand(c: Command, target: string, groups: seq<Group>, passed: seq<string>, absolute: string -> bool)
    ensures var r := ReadBody(c, target, groups, passed, absolute);
            r.Ok? ==> CommandOf(r.value) == c && TargetOf(r.value) == Some(target)
  {
    hide ReadScope, ReadPrefix, ReadBundle, ReadPlan, ReadApproval, ReadProgram;
  }

  lemma ReadCallIff(c: Command, groups: seq<Group>, passed: seq<string>, absolute: string -> bool, inv: Invocation)
    requires Sound(groups) && c != ProviderInfo
    ensures ReadCall(c, groups, passed, absolute) == Ok(inv)
       <==> && CommandOf(inv) == c && (inv.LaunchCall? ==> inv.arguments == passed) && PrefixLawful(inv, absolute)
            && SpellsSize(inv, Sure(groups, BundleSize)) && ClaimsAgree(c, groups, inv, Sure(groups, BundleSize))
  {
    var size := Sure(groups, BundleSize);
    hide Sound, ReadBody, Agrees, BodyAgrees, SpellsSize, ClaimsAgree, Sure, Needed, SwitchCount;
    if CommandOf(inv) == c {
      TargetAgrees(groups, inv, size);
      ClaimsAgreeIff(groups, inv, size);
      BodyIff(TargetOf(inv).value, groups, passed, absolute, inv, size);
    }
    if Needed(groups, Target).Ok? {
      BodyKeepsCommand(c, Needed(groups, Target).value, groups, passed, absolute);
    }
  }
}
