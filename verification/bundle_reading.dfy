/**
 Reading a whole bundle: the checks in the order the contract fixes, and what
 an accepted bundle guarantees about every file it installs.
*/
module BundleReading {
  import opened Wrappers
  import opened Segments
  import opened BundlePaths
  import opened Containment
  import opened Bundles
  import opened BundleLaws
  import opened Adaptations

  /** The identity, size and format under which a caller sends an artifact. */
  datatype Claim = Claim(bundleFormat: string, bundleDigest: string, artifactDigest: string, bundleSize: nat,
                         harnessId: string)

  /** Decoding and hashing, which are not modelled further. */
  datatype Tools = Tools(
    digest: seq<Byte> -> string,
    fold: string -> string,
    unzip: seq<Byte> -> Result<seq<Member>, Reason>,
    parse: seq<Byte> -> Option<Manifest>,
    identity: seq<Byte> -> Result<string, Reason>)

  datatype Bundle = Bundle(manifest: Manifest, files: map<string, (seq<Byte>, nat)>)

  const BUNDLE_PROTOCOL_VERSION := 1

  /** The artifact is the one the caller named. */
  ghost predicate AsClaimed(bytes: seq<Byte>, claim: Claim, tools: Tools) {
    claim.bundleFormat == BUNDLE_FORMAT && |bytes| == claim.bundleSize && tools.digest(bytes) == claim.artifactDigest
  }

  /** The archive opens, starts with the four documents and holds a manifest. */
  ghost predicate Opens(bytes: seq<Byte>, tools: Tools) {
    && tools.unzip(bytes).Ok? && Headed(tools.unzip(bytes).value) && UniqueNames(tools.unzip(bytes).value)
    && tools.parse(tools.unzip(bytes).value[0].data).Some?
  }

  function ManifestOf(bytes: seq<Byte>, tools: Tools): Manifest
    requires Opens(bytes, tools)
  {
    tools.parse(tools.unzip(bytes).value[0].data).value
  }

  /** The manifest is for this reader, this harness and this caller. */
  ghost predicate Addressed(bytes: seq<Byte>, claim: Claim, tools: Tools)
    requires Opens(bytes, tools)
  {
    var manifest := ManifestOf(bytes, tools);
    && manifest.bundleFormat == claim.bundleFormat && manifest.protocolVersion == BUNDLE_PROTOCOL_VERSION
    && manifest.harnessId == claim.harnessId
    && tools.identity(tools.unzip(bytes).value[0].data) == Ok(manifest.bundleDigest)
    && manifest.bundleDigest == claim.bundleDigest
  }

  /** Everything an accepted bundle is. */
  ghost predicate Genuine(bytes: seq<Byte>, claim: Claim, tools: Tools) {
    && AsClaimed(bytes, claim, tools) && Opens(bytes, tools) && Addressed(bytes, claim, tools)
    && Bound(ManifestOf(bytes, tools), tools.fold)
    && Exact(ManifestOf(bytes, tools), tools.unzip(bytes).value, |bytes|, tools.fold, tools.digest)
  }

  /** Why the contents of a manifest are refused: its bindings first, then its files. */
  ghost predicate ContentsRefused(reason: Reason, manifest: Manifest, members: seq<Member>, length: nat, tools: Tools) {
    if BindingRefusal(manifest, tools.fold).Some? then Some(reason) == BindingRefusal(manifest, tools.fold)
    else RefusedFor(reason, manifest, members, length, tools.fold, tools.digest)
  }

  /** Why an opened archive is refused: whom its manifest is for, what it holds, then its identity. */
  ghost predicate ManifestRefused(reason: Reason, bytes: seq<Byte>, claim: Claim, tools: Tools)
    requires Opens(bytes, tools)
  {
    var manifest, members := ManifestOf(bytes, tools), tools.unzip(bytes).value;
    if manifest.bundleFormat != claim.bundleFormat then reason == UnsupportedBundleFormat
    else if manifest.protocolVersion != BUNDLE_PROTOCOL_VERSION then reason == UnsupportedProtocolVersion
    else if manifest.harnessId != claim.harnessId then reason == ProjectionProfileMismatch
    else if !(Bound(manifest, tools.fold) && Exact(manifest, members, |bytes|, tools.fold, tools.digest)) then
      ContentsRefused(reason, manifest, members, |bytes|, tools)
    else
      match tools.identity(members[0].data)
      case Err(unreadable) => reason == unreadable
      case Ok(_) => reason == DigestMismatch
  }

  /** Why bytes are refused: the first check, in the contract's order, that fails. */
  ghost predicate Refused(reason: Reason, bytes: seq<Byte>, claim: Claim, tools: Tools) {
    if claim.bundleFormat != BUNDLE_FORMAT then reason == UnsupportedBundleFormat
    else if !AsClaimed(bytes, claim, tools) then reason == DigestMismatch
    else
      match tools.unzip(bytes)
      case Err(unreadable) => reason == unreadable
      case Ok(members) =>
        if !Headed(members) then reason == UnsupportedBundleFormat
        else if !UniqueNames(members) then reason == PathDuplicate
        else if !Opens(bytes, tools) then reason == UnsupportedBundleFormat
        else ManifestRefused(reason, bytes, claim, tools)
  }

  /** The bindings and the files of one manifest. */
  method CheckContents(manifest: Manifest, members: seq<Member>, length: nat, tools: Tools)
    returns (r: Result<map<string, (seq<Byte>, nat)>, Reason>)
    requires UniqueNames(members)
    ensures r.Ok? <==> Bound(manifest, tools.fold) && Exact(manifest, members, length, tools.fold, tools.digest)
    ensures r.Ok? ==> Declares(r.value, manifest.files, |manifest.files|, Present(members))
    ensures r.Err? ==> ContentsRefused(r.error, manifest, members, length, tools)
  {
    hide Bound, Exact, BindingRefusal, Accepted, Declares, UniqueNames, Present, RefusedFor;
    BoundIff(manifest, tools.fold);
    AcceptedIff(manifest, members, length, tools.fold, tools.digest);
    var refusal := CheckAdaptationBindings(manifest, tools.fold);
    if refusal.Some? {
      return Err(refusal.value);
    }
    r := CheckFiles(manifest, members, length, tools.fold, tools.digest);
  }

  /** Bytes read as the bundle they are claimed to be. */
  method ReadBundle(bytes: seq<Byte>, claim: Claim, tools: Tools) returns (r: Result<Bundle, Reason>)
    ensures r.Ok? <==> Genuine(bytes, claim, tools)
    ensures r.Ok? ==> && r.value.manifest == ManifestOf(bytes, tools)
                      && Declares(r.value.files, r.value.manifest.files, |r.value.manifest.files|,
                                  Present(tools.unzip(bytes).value))
    ensures r.Err? ==> Refused(r.error, bytes, claim, tools)
  {
    hide Bound, Exact, Declares, Headed, UniqueNames, Present, ContentsRefused;
    if claim.bundleFormat != BUNDLE_FORMAT {
      return Err(UnsupportedBundleFormat);
    }
    if |bytes| != claim.bundleSize {
      return Err(DigestMismatch);
    }
    if tools.digest(bytes) != claim.artifactDigest {
      return Err(DigestMismatch);
    }
    var members :- tools.unzip(bytes);
    var manifestBytes :- RequireMembers(members);
    var parsed := tools.parse(manifestBytes);
    if parsed.None? {
      return Err(UnsupportedBundleFormat);
    }
    var manifest := parsed.value;
    if manifest.bundleFormat != claim.bundleFormat {
      return Err(UnsupportedBundleFormat);
    }
    if manifest.protocolVersion != BUNDLE_PROTOCOL_VERSION {
      return Err(UnsupportedProtocolVersion);
    }
    if manifest.harnessId != claim.harnessId {
      return Err(ProjectionProfileMismatch);
    }
    var files :- CheckContents(manifest, members, |bytes|, tools);
    var computed :- tools.identity(manifestBytes);
    if computed != manifest.bundleDigest {
      return Err(DigestMismatch);
    }
    if manifest.bundleDigest != claim.bundleDigest {
      return Err(DigestMismatch);
    }
    r := Ok(Bundle(manifest, files));
  }

  // ----- what it guarantees -----

  lemma DeclaredRecord(manifest: Manifest, reported: Option<nat>, files: map<string, (seq<Byte>, nat)>,
                       present: map<string, seq<Byte>>, fold: string -> string, p: string)
    requires Declares(files, manifest.files, |manifest.files|, present) && p in files
    requires forall i :: 0 <= i < |manifest.files| ==> Sober(manifest.files[i], reported, fold)
    ensures exists i :: 0 <= i < |manifest.files| && manifest.files[i].path == p && Admissible(p, fold)
  {
    hide Admissible;
  }

  lemma LandsSafely(manifest: Manifest, members: seq<Member>, length: nat, tools: Tools,
                    files: map<string, (seq<Byte>, nat)>, root: seq<string>, p: string)
    requires Exact(manifest, members, length, tools.fold, tools.digest) && p in files
    requires Declares(files, manifest.files, |manifest.files|, Present(members))
    ensures CheckPath(p, tools.fold) == None && Lands(root, p) == Some(root + Split(p, {'/'}))
    ensures exists i :: 0 <= i < |manifest.files| && manifest.files[i].path == p
  {
    hide Lands, Split, Admissible, Present, Backed, NoStray, Below, CheckPath, Sober;
    DeclaredRecord(manifest, manifest.limits.maxFileBytes, files, Present(members), tools.fold, p);
    CheckPathIff(p, tools.fold);
    Contained(root, p, tools.fold);
  }

  /**
   Under any root, each file of an accepted bundle enters its own segments
   beneath it, no two share a place or a folded name, and exactly one declared
   component owns each.
  */
  lemma InstallsSafely(manifest: Manifest, members: seq<Member>, length: nat, tools: Tools,
                       files: map<string, (seq<Byte>, nat)>, root: seq<string>)
    requires Bound(manifest, tools.fold) && Exact(manifest, members, length, tools.fold, tools.digest)
    requires Declares(files, manifest.files, |manifest.files|, Present(members))
    ensures forall p :: p in files ==> Lands(root, p) == Some(root + Split(p, {'/'}))
    ensures forall p, q :: p in files && q in files && p != q ==>
              Lands(root, p) != Lands(root, q) && tools.fold(p) != tools.fold(q)
    ensures forall p :: p in files ==>
              exists i ::
                0 <= i < |manifest.files| && manifest.files[i].path == p && OwnedOnce(manifest, manifest.files[i])
  {
    hide Lands, Split, Present, OwnedOnce, OwnsSome, Bound, Backed, NoStray, Below, CheckPath, Sober, Declares;
    OwnershipIsTotal(manifest, tools.fold);
    forall p | p in files
      ensures CheckPath(p, tools.fold) == None && Lands(root, p) == Some(root + Split(p, {'/'}))
      ensures exists i :: 0 <= i < |manifest.files| && manifest.files[i].path == p
    {
      LandsSafely(manifest, members, length, tools, files, root, p);
    }
    forall p, q | p in files && q in files && p != q
      ensures Lands(root, p) != Lands(root, q) && tools.fold(p) != tools.fold(q)
    {
      LandsApart(root, p, q, tools.fold);
      var i :| 0 <= i < |manifest.files| && manifest.files[i].path == p;
      var j :| 0 <= j < |manifest.files| && manifest.files[j].path == q;
    }
  }
}
