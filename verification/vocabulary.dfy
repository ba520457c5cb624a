/** The closed sets of wire spellings, each a bijection between names and members. */
module Vocabulary {
  import opened Wrappers

  datatype Command =
    | ProviderInfo | ValidateBundle | PlanOperation | ApplyOperation | RecoverOperation | Status | Launch

  function CommandName(c: Command): string {
    match c
    case ProviderInfo => "provider-info"
    case ValidateBundle => "validate-bundle"
    case PlanOperation => "plan-operation"
    case ApplyOperation => "apply-operation"
    case RecoverOperation => "recover-operation"
    case Status => "status"
    case Launch => "launch"
  }

  function ParseCommand(text: string): (c: Option<Command>)
    ensures c.Some? ==> CommandName(c.value) == text
  {
    if text == "provider-info" then Some(ProviderInfo)
    else if text == "validate-bundle" then Some(ValidateBundle)
    else if text == "plan-operation" then Some(PlanOperation)
    else if text == "apply-operation" then Some(ApplyOperation)
    else if text == "recover-operation" then Some(RecoverOperation)
    else if text == "status" then Some(Status)
    else if text == "launch" then Some(Launch)
    else None
  }

  lemma CommandNameParses(c: Command)
    ensures ParseCommand(CommandName(c)) == Some(c)
  {
  }

  datatype Operation =
    | Install | Replace | Backup | Restore | Remove | Reset
    | SoftwareInstall | SoftwareUpdate | SoftwareRemove
    | LaunchProduct | PatchInstructionRegion | DetachInstructionRegion

  function OperationName(o: Operation): string {
    match o
    case Install => "install"
    case Replace => "replace"
    case Backup => "backup"
    case Restore => "restore"
    case Remove => "remove"
    case Reset => "reset"
    case SoftwareInstall => "software_install"
    case SoftwareUpdate => "software_update"
    case SoftwareRemove => "software_remove"
    case LaunchProduct => "launch"
    case PatchInstructionRegion => "patch_instruction_region"
    case DetachInstructionRegion => "detach_instruction_region"
  }

  function ParseOperation(text: string): (o: Option<Operation>)
    ensures o.Some? ==> OperationName(o.value) == text
  {
    if text == "install" then Some(Install)
    else if text == "replace" then Some(Replace)
    else if text == "backup" then Some(Backup)
    else if text == "restore" then Some(Restore)
    else if text == "remove" then Some(Remove)
    else if text == "reset" then Some(Reset)
    else if text == "software_install" then Some(SoftwareInstall)
    else if text == "software_update" then Some(SoftwareUpdate)
    else if text == "software_remove" then Some(SoftwareRemove)
    else if text == "launch" then Some(LaunchProduct)
    else if text == "patch_instruction_region" then Some(PatchInstructionRegion)
    else if text == "detach_instruction_region" then Some(DetachInstructionRegion)
    else None
  }

  lemma OperationNameParses(o: Operation)
    ensures ParseOperation(OperationName(o)) == Some(o)
  {
  }

  datatype TargetScope = Project | UserRoot

  function ScopeName(s: TargetScope): string {
    match s
    case Project => "project"
    case UserRoot => "user_root"
  }

  function ParseScope(text: string): (s: Option<TargetScope>)
    ensures s.Some? ==> ScopeName(s.value) == text
  {
    if text == "project" then Some(Project) else if text == "user_root" then Some(UserRoot) else None
  }

  lemma ScopeNameParses(s: TargetScope)
    ensures ParseScope(ScopeName(s)) == Some(s)
  {
  }

  /** Flags by meaning; any other token that begins with `--` is `Other`. */
  datatype Flag =
    | Target | Json | Prefix
    | OperationFlag | ReleaseDigest | OperationId | ExpiresAt | BackupRef | CaptureMode | RecoveryMode
    | PermissionProfile | SoftwareVersion | Scope | InstructionSection
    | BundlePath | BundleFormat | BundleDigest | ArtifactDigest | BundleSize
    | PlanPath | PlanDigest | Prepare | Cancel | SoftwareArtifact
    | Other(name: string)

  function FlagName(f: Flag): string {
    match f
    case Target => "--target"
    case Json => "--json"
    case Prefix => "--prefix"
    case OperationFlag => "--operation"
    case ReleaseDigest => "--provider-release-digest"
    case OperationId => "--operation-id"
    case ExpiresAt => "--expires-at"
    case BackupRef => "--backup-ref"
    case CaptureMode => "--capture-mode"
    case RecoveryMode => "--recovery-mode"
    case PermissionProfile => "--permission-profile"
    case SoftwareVersion => "--software-version"
    case Scope => "--target-scope"
    case InstructionSection => "--instruction-section"
    case BundlePath => "--bundle"
    case BundleFormat => "--bundle-format"
    case BundleDigest => "--bundle-digest"
    case ArtifactDigest => "--artifact-digest"
    case BundleSize => "--bundle-size"
    case PlanPath => "--plan"
    case PlanDigest => "--plan-digest"
    case Prepare => "--prepare"
    case Cancel => "--cancel"
    case SoftwareArtifact => "--software-artifact"
    case Other(name) => name
  }

  function FlagOf(token: string): (f: Flag)
    ensures FlagName(f) == token
  {
    if token == "--target" then Target
    else if token == "--json" then Json
    else if token == "--prefix" then Prefix
    else if token == "--operation" then OperationFlag
    else if token == "--provider-release-digest" then ReleaseDigest
    else if token == "--operation-id" then OperationId
    else if token == "--expires-at" then ExpiresAt
    else if token == "--backup-ref" then BackupRef
    else if token == "--capture-mode" then CaptureMode
    else if token == "--recovery-mode" then RecoveryMode
    else if token == "--permission-profile" then PermissionProfile
    else if token == "--software-version" then SoftwareVersion
    else if token == "--target-scope" then Scope
    else if token == "--instruction-section" then InstructionSection
    else if token == "--bundle" then BundlePath
    else if token == "--bundle-format" then BundleFormat
    else if token == "--bundle-digest" then BundleDigest
    else if token == "--artifact-digest" then ArtifactDigest
    else if token == "--bundle-size" then BundleSize
    else if token == "--plan" then PlanPath
    else if token == "--plan-digest" then PlanDigest
    else if token == "--prepare" then Prepare
    else if token == "--cancel" then Cancel
    else if token == "--software-artifact" then SoftwareArtifact
    else Other(token)
  }

  /** Every known flag is read back from its own spelling. */
  lemma FlagNameReads(f: Flag)
    requires !f.Other?
    ensures FlagOf(FlagName(f)) == f && "--" <= FlagName(f) && FlagName(f) != "--"
  {
  }
}
