/**
 The bundle checker of crates/provider-v3/src/bundle.rs: the loops over maps and
 sets as written, each against a statement about the manifest and the archive.
 Digests, lowercasing and decoding are parameters.
*/
module Bundles {
  import opened Wrappers
  import opened BundlePaths

  type Byte = b: int | 0 <= b < 256 witness 0

  datatype Kind = RegularFile | Symlink | Hardlink | Special | Unknown

  datatype Record = Record(path: string, digest: string, byteLength: nat, mode: nat, owner: string, kind: Kind)

  datatype Limits = Limits(maxFiles: Option<nat>, maxFileBytes: Option<nat>, maxBundleBytes: Option<nat>)

  datatype ProfileBinding = ProfileBinding(profileId: string, profileDigest: string, targetScope: string)

  datatype Binding = Binding(
    stableId: string, version: string, passportDigest: string, adaptationId: string,
    artifactDigest: string, sizeBytes: nat, providerKind: string, projectionKind: string, memberPaths: seq<string>)

  datatype Manifest = Manifest(
    bundleFormat: string, protocolVersion: nat, harnessId: string, targetScope: Option<string>,
    profile: Option<ProfileBinding>, adaptations: seq<Binding>, bundleDigest: string,
    files: seq<Record>, limits: Limits)

  datatype Member = Member(name: string, data: seq<Byte>)

  const BUNDLE_FORMAT := "ai-stp-bundle/2"
  const CONTRACT_MAX_FILES := 2000
  const CONTRACT_MAX_FILE_BYTES := 4 * 1024 * 1024
  const CONTRACT_MAX_BUNDLE_BYTES := 64 * 1024 * 1024

  /** A reported limit may lower the contract's and never raises it. */
  function Effective(reported: Option<nat>, contract: nat): (limit: nat)
    ensures limit <= contract && (reported.Some? ==> limit <= reported.value)
    ensures limit == contract || (reported.Some? && limit == reported.value)
  {
    if reported.Some? && reported.value < contract then reported.value else contract
  }

  // ----- required members -----

  const REQUIRED_MEMBERS: seq<string> := [
    "bundle.json", "setup-passport.json", "composition-report.json", "conversion-report.json"]

  ghost predicate UniqueNames(members: seq<Member>) {
    forall i, j :: 0 <= i < j < |members| ==> members[i].name != members[j].name
  }

  predicate Headed(members: seq<Member>) {
    && |REQUIRED_MEMBERS| <= |members|
    && forall i :: 0 <= i < |REQUIRED_MEMBERS| ==> members[i].name == REQUIRED_MEMBERS[i]
  }

  /** The four documents first and in order, and no name twice. */
  method RequireMembers(members: seq<Member>) returns (r: Result<seq<Byte>, Reason>)
    ensures r.Ok? <==> Headed(members) && UniqueNames(members)
    ensures r.Ok? ==> members != [] && r.value == members[0].data
    ensures r.Err? ==> r.error == if Headed(members) then PathDuplicate else UnsupportedBundleFormat
  {
    for i := 0 to |REQUIRED_MEMBERS|
      invariant i <= |members|
      invariant forall j :: 0 <= j < i ==> members[j].name == REQUIRED_MEMBERS[j]
    {
      if i >= |members| || members[i].name != REQUIRED_MEMBERS[i] {
        return Err(UnsupportedBundleFormat);
      }
    }
    var seen: set<string> := {};
    for i := 0 to |members|
      invariant forall n :: n in seen <==> exists j :: 0 <= j < i && members[j].name == n
      invariant forall j, k :: 0 <= j < k < i ==> members[j].name != members[k].name
    {
      if members[i].name in seen {
        return Err(PathDuplicate);
      }
      seen := seen + {members[i].name};
    }
    r := Ok(members[0].data);
  }

  // ----- what the archive carries -----

  const FILES_PREFIX := "files/"

  /** A member that is a file to install, rather than structure. */
  predicate IsContent(name: string) {
    FILES_PREFIX < name && name[|name| - 1] != '/'
  }

  function Rest(name: string): string
    requires FILES_PREFIX <= name
  {
    name[|FILES_PREFIX|..]
  }

  /** Content by its path; the last member of a name is the one kept. */
  function Present(members: seq<Member>): map<string, seq<Byte>>
    decreases |members|
  {
    if members == [] then map[]
    else
      var n := |members| - 1;
      if IsContent(members[n].name) then Present(members[..n])[Rest(members[n].name) := members[n].data]
      else Present(members[..n])
  }

  method CollectPresent(members: seq<Member>) returns (present: map<string, seq<Byte>>)
    ensures present == Present(members)
  {
    present := map[];
    for i := 0 to |members|
      invariant present == Present(members[..i])
    {
      assert members[..i + 1][..i] == members[..i];
      if FILES_PREFIX <= members[i].name {
        var rest := Rest(members[i].name);
        if rest != "" && rest[|rest| - 1] != '/' {
          assert IsContent(members[i].name);
          present := present[rest := members[i].data];
        }
      }
    }
    assert members[..|members|] == members;
  }

  // ----- one record -----

  /** Why a record's own claims are refused, given the records before it. */
  function ClaimVerdict(records: seq<Record>, i: nat, limit: nat, fold: string -> string): Option<Reason>
    requires i < |records|
  {
    var record := records[i];
    if CheckPath(record.path, fold).Some? then CheckPath(record.path, fold)
    else if record.kind == Symlink || record.kind == Hardlink then Some(LinkNotAllowed)
    else if record.kind != RegularFile then Some(SpecialFileNotAllowed)
    else if record.mode != 420 && record.mode != 493 then Some(UnsupportedNativeSurface)
    else if record.byteLength > limit then Some(LimitExceeded)
    else if exists j :: 0 <= j < i && fold(records[j].path) == fold(record.path) && records[j].path != record.path
    then Some(PathDuplicate)
    else None
  }

  /** Why a record is refused: its claims, then the bytes the archive carries for it. */
  function RecordVerdict(records: seq<Record>, i: nat, limit: nat, present: map<string, seq<Byte>>,
                         fold: string -> string, digest: seq<Byte> -> string): Option<Reason>
    requires i < |records|
  {
    var record := records[i];
    if ClaimVerdict(records, i, limit, fold).Some? then ClaimVerdict(records, i, limit, fold)
    else if record.path !in present then Some(DigestMismatch)
    else if |present[record.path]| != record.byteLength || digest(present[record.path]) != record.digest
    then Some(DigestMismatch)
    else if exists j :: 0 <= j < i && records[j].path == record.path then Some(PathDuplicate)
    else None
  }

  /** The fold map after `n` records: every spelling seen, by its fold, and nothing else. */
  ghost predicate Remembers(folded: map<string, string>, records: seq<Record>, n: nat, fold: string -> string)
    requires n <= |records|
  {
    && (forall j :: 0 <= j < n ==> fold(records[j].path) in folded && folded[fold(records[j].path)] == records[j].path)
    && (forall key :: key in folded ==>
          exists j :: 0 <= j < n && records[j].path == folded[key] && fold(records[j].path) == key)
  }

  /** One record's claims, remembering its spelling. */
  method CheckRecord(records: seq<Record>, i: nat, limit: nat, fold: string -> string, folded: map<string, string>)
    returns (refusal: Option<Reason>, next: map<string, string>)
    requires i < |records| && Remembers(folded, records, i, fold)
    ensures refusal == ClaimVerdict(records, i, limit, fold)
    ensures refusal.None? ==> Remembers(next, records, i + 1, fold)
  {
    hide CheckPath;
    var record := records[i];
    next := folded;
    refusal := CheckPath(record.path, fold);
    if refusal.Some? {
      return;
    }
    match record.kind {
      case RegularFile =>
      case Symlink => return Some(LinkNotAllowed), next;
      case Hardlink => return Some(LinkNotAllowed), next;
      case Special => return Some(SpecialFileNotAllowed), next;
      case Unknown => return Some(SpecialFileNotAllowed), next;
    }
    if record.mode != 420 && record.mode != 493 {
      return Some(UnsupportedNativeSurface), next;
    }
    if record.byteLength > limit {
      return Some(LimitExceeded), next;
    }
    var key := fold(record.path);
    next := folded[key := record.path];
    if key in folded && folded[key] != record.path {
      return Some(PathDuplicate), next;
    }
    return None, next;
  }

  // ----- all files -----

  ghost predicate WithinLimits(manifest: Manifest, length: nat) {
    && |manifest.files| <= Effective(manifest.limits.maxFiles, CONTRACT_MAX_FILES)
    && length <= Effective(manifest.limits.maxBundleBytes, CONTRACT_MAX_BUNDLE_BYTES)
  }

  function FileLimit(manifest: Manifest): nat {
    Effective(manifest.limits.maxFileBytes, CONTRACT_MAX_FILE_BYTES)
  }

  /** The first `n` records pass. */
  ghost predicate Passed(manifest: Manifest, n: nat, present: map<string, seq<Byte>>, fold: string -> string,
                         digest: seq<Byte> -> string)
    requires n <= |manifest.files|
  {
    forall i :: 0 <= i < n ==> RecordVerdict(manifest.files, i, FileLimit(manifest), present, fold, digest) == None
  }

  /** The bytes and modes of the first `n` records, and nothing else. */
  ghost predicate Declares(files: map<string, (seq<Byte>, nat)>, records: seq<Record>, n: nat, present: map<string,
                           seq<Byte>>)
    requires n <= |records|
  {
    && (forall i :: 0 <= i < n ==> records[i].path in files && records[i].path in present
                                   && files[records[i].path] == (present[records[i].path], records[i].mode))
    && (forall p :: p in files ==> exists i :: 0 <= i < n && records[i].path == p)
    && |files| == n
  }

  /** Every carried file is declared. */
  ghost predicate AllDeclared(records: seq<Record>, present: map<string, seq<Byte>>) {
    forall p :: p in present ==> exists i :: 0 <= i < |records| && records[i].path == p
  }

  ghost predicate Accepted(manifest: Manifest, members: seq<Member>, length: nat, fold: string -> string,
                           digest: seq<Byte> -> string) {
    && WithinLimits(manifest, length)
    && Passed(manifest, |manifest.files|, Present(members), fold, digest)
    && AllDeclared(manifest.files, Present(members))
  }

  /** The reason given is that of the first check that fails. */
  ghost predicate RefusedFor(reason: Reason, manifest: Manifest, members: seq<Member>, length: nat,
                             fold: string -> string, digest: seq<Byte> -> string) {
    if !WithinLimits(manifest, length) then reason == LimitExceeded
    else if Passed(manifest, |manifest.files|, Present(members), fold, digest) then
      reason == UnsupportedNativeSurface && !AllDeclared(manifest.files, Present(members))
    else
      exists i :: 0 <= i < |manifest.files| && Passed(manifest, i, Present(members), fold, digest)
                  && RecordVerdict(manifest.files, i, FileLimit(manifest), Present(members), fold, digest)
                     == Some(reason)
  }

  lemma OneMore(files: map<string, (seq<Byte>, nat)>, p: string, entry: (seq<Byte>, nat))
    requires p !in files
    ensures |files[p := entry]| == |files| + 1
  {
    assert files[p := entry].Keys == files.Keys + {p};
    assert |files[p := entry]| == |files[p := entry].Keys| && |files| == |files.Keys|;
  }

  lemma NewPath(files: map<string, (seq<Byte>, nat)>, records: seq<Record>, i: nat, present: map<string, seq<Byte>>)
    requires i < |records| && Declares(files, records, i, present) && records[i].path in present
    requires forall j :: 0 <= j < i ==> records[j].path != records[i].path
    ensures Declares(files[records[i].path := (present[records[i].path], records[i].mode)], records, i + 1, present)
  {
    var p := records[i].path;
    assert p !in files;
    OneMore(files, p, (present[p], records[i].mode));
    var more := files[p := (present[p], records[i].mode)];
    forall q | q in more
      ensures exists j :: 0 <= j < i + 1 && records[j].path == q
    {
      if q in files {
        var j :| 0 <= j < i && records[j].path == q;
      }
    }
  }

  /** One record against the archive. */
  method CheckContent(records: seq<Record>, i: nat, limit: nat, present: map<string, seq<Byte>>, fold: string -> string,
                      digest: seq<Byte> -> string, files: map<string, (seq<Byte>, nat)>)
    returns (refusal: Option<Reason>, more: map<string, (seq<Byte>, nat)>)
    requires i < |records| && Declares(files, records, i, present)
    requires ClaimVerdict(records, i, limit, fold) == None
    ensures refusal == RecordVerdict(records, i, limit, present, fold, digest)
    ensures refusal.None? ==> Declares(more, records, i + 1, present)
  {
    hide ClaimVerdict;
    var record := records[i];
    more := files;
    if record.path !in present {
      return Some(DigestMismatch), more;
    }
    var data := present[record.path];
    if |data| != record.byteLength {
      return Some(DigestMismatch), more;
    }
    if digest(data) != record.digest {
      return Some(DigestMismatch), more;
    }
    if record.path in files {
      return Some(PathDuplicate), more;
    }
    NewPath(files, records, i, present);
    more := files[record.path := (data, record.mode)];
    return None, more;
  }

  /** Whether a carried file is declared by nobody. */
  method HasStray(records: seq<Record>, present: map<string, seq<Byte>>, files: map<string, (seq<Byte>, nat)>)
    returns (stray: bool)
    requires Declares(files, records, |records|, present)
    ensures stray <==> !AllDeclared(records, present)
  {
    var left := present.Keys;
    while left != {}
      invariant left <= present.Keys
      invariant forall p :: p in present && p !in left ==> p in files
    {
      var name :| name in left;
      if name !in files {
        forall i | 0 <= i < |records|
          ensures records[i].path != name
        {
        }
        return true;
      }
      left := left - {name};
    }
    stray := false;
  }

  /** The files to install, or why there are none. */
  method CheckFiles(manifest: Manifest, members: seq<Member>, length: nat, fold: string -> string,
                    digest: seq<Byte> -> string)
    returns (r: Result<map<string, (seq<Byte>, nat)>, Reason>)
    ensures r.Ok? <==> Accepted(manifest, members, length, fold, digest)
    ensures r.Ok? ==> Declares(r.value, manifest.files, |manifest.files|, Present(members))
    ensures r.Err? ==> RefusedFor(r.error, manifest, members, length, fold, digest)
  {
    hide ClaimVerdict, RecordVerdict, Declares, Remembers, Present, AllDeclared;
    if |manifest.files| > Effective(manifest.limits.maxFiles, CONTRACT_MAX_FILES) {
      return Err(LimitExceeded);
    }
    if length > Effective(manifest.limits.maxBundleBytes, CONTRACT_MAX_BUNDLE_BYTES) {
      return Err(LimitExceeded);
    }
    var present := CollectPresent(members);
    var files: map<string, (seq<Byte>, nat)> := map[];
    var folded: map<string, string> := map[];
    NothingYet(manifest.files, present, fold);
    for i := 0 to |manifest.files|
      invariant Passed(manifest, i, present, fold, digest)
      invariant Declares(files, manifest.files, i, present) && Remembers(folded, manifest.files, i, fold)
    {
      ClaimFirst(manifest.files, i, FileLimit(manifest), present, fold, digest);
      var refusal, next := CheckRecord(manifest.files, i, FileLimit(manifest), fold, folded);
      if refusal.Some? {
        return Err(refusal.value);
      }
      folded := next;
      var mismatch, more := CheckContent(manifest.files, i, FileLimit(manifest), present, fold, digest, files);
      if mismatch.Some? {
        return Err(mismatch.value);
      }
      files := more;
    }
    var stray := HasStray(manifest.files, present, files);
    if stray {
      return Err(UnsupportedNativeSurface);
    }
    r := Ok(files);
  }

  lemma ClaimFirst(records: seq<Record>, i: nat, limit: nat, present: map<string, seq<Byte>>, fold: string -> string,
                   digest: seq<Byte> -> string)
    requires i < |records|
    ensures ClaimVerdict(records, i, limit, fold).Some? ==>
              RecordVerdict(records, i, limit, present, fold, digest) == ClaimVerdict(records, i, limit, fold)
  {
    hide ClaimVerdict;
  }

  lemma NothingYet(records: seq<Record>, present: map<string, seq<Byte>>, fold: string -> string)
    ensures Declares(map[], records, 0, present) && Remembers(map[], records, 0, fold)
  {
  }
}
