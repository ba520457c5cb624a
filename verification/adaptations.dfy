/**
 The closure of a bundle over its component adaptations, and the whole reading
 of a bundle: who owns each file, and what an accepted bundle is.
*/
module Adaptations {
  import opened Wrappers
  import opened Digits
  import opened BundlePaths
  import opened Bundles

  predicate LowerHex(text: string) {
    forall i :: 0 <= i < |text| ==> IsDigit(text[i]) || 'a' <= text[i] <= 'f'
  }

  predicate CanonicalDigest(text: string) {
    |text| == 71 && "sha256:" <= text && LowerHex(text[7..])
  }

  predicate CanonicalAdaptationId(text: string) {
    |text| == 75 && "adaptation_" <= text && LowerHex(text[11..])
  }

  /** Every field of a binding is filled in its canonical form. */
  predicate CanonicalBinding(b: Binding) {
    && b.stableId != "" && b.version != "" && CanonicalDigest(b.passportDigest) && CanonicalAdaptationId(b.adaptationId)
    && CanonicalDigest(b.artifactDigest) && b.sizeBytes != 0 && b.providerKind != "" && b.projectionKind != ""
    && b.memberPaths != []
  }

  predicate ProfileFits(manifest: Manifest) {
    && manifest.profile.Some? && manifest.profile.value.profileId != ""
    && CanonicalDigest(manifest.profile.value.profileDigest)
    && manifest.profile.value.targetScope
       == (if manifest.targetScope.Some? then manifest.targetScope.value else "global")
  }

  /** A tag and 64 lower-case hexadecimal digits. */
  ghost predicate Tagged(tag: string, text: string) {
    exists hex :: text == tag + hex && |hex| == 64 && forall c :: c in hex ==> Hexadecimal(c)
  }

  predicate Hexadecimal(c: char) {
    c in {'0', '1', '2', '3', '4', '5', '6', '7', '8', '9', 'a', 'b', 'c', 'd', 'e', 'f'}
  }

  lemma LowerHexIff(text: string)
    ensures LowerHex(text) <==> forall c :: c in text ==> Hexadecimal(c)
  {
    if forall c :: c in text ==> Hexadecimal(c) {
      forall i | 0 <= i < |text|
        ensures IsDigit(text[i]) || 'a' <= text[i] <= 'f'
      {
        assert text[i] in text;
      }
    }
  }

  lemma CanonicalIff(text: string)
    ensures CanonicalDigest(text) <==> Tagged("sha256:", text)
    ensures CanonicalAdaptationId(text) <==> Tagged("adaptation_", text)
  {
    hide LowerHex, Hexadecimal;
    TaggedIff("sha256:", text);
    TaggedIff("adaptation_", text);
  }

  lemma TaggedIff(tag: string, text: string)
    ensures Tagged(tag, text) <==> |text| == |tag| + 64 && tag <= text && LowerHex(text[|tag|..])
  {
    hide LowerHex, Hexadecimal;
    if tag <= text {
      LowerHexIff(text[|tag|..]);
      assert text == tag + text[|tag|..];
    }
    if hex :| text == tag + hex && |hex| == 64 && forall c :: c in hex ==> Hexadecimal(c) {
      assert text[|tag|..] == hex;
    }
  }

  // ----- order -----

  lemma {:induction false} LexOrder(a: string, b: string, c: string)
    ensures !LexLess(a, a)
    ensures LexLess(a, b) && LexLess(b, c) ==> LexLess(a, c)
    decreases |a|
  {
    if a != "" {
      LexOrder(a[1..], if b == "" then b else b[1..], if c == "" then c else c[1..]);
    }
  }

  predicate StrictlySorted(texts: seq<string>) {
    forall i :: 0 < i < |texts| ==> LexLess(texts[i - 1], texts[i])
  }

  lemma {:induction false} SortedApart(texts: seq<string>, i: nat, j: nat)
    requires StrictlySorted(texts) && i < j < |texts|
    ensures LexLess(texts[i], texts[j]) && texts[i] != texts[j]
    decreases j
  {
    assert LexLess(texts[j - 1], texts[j]);
    if i < j - 1 {
      SortedApart(texts, i, j - 1);
      LexOrder(texts[i], texts[j - 1], texts[j]);
    }
    LexOrder(texts[i], texts[i], texts[i]);
  }

  // ----- one binding -----

  /** Why a member path is refused, given the one before it. */
  function PathVerdict(paths: seq<string>, i: nat, fold: string -> string): Option<Reason>
    requires i < |paths|
  {
    if CheckPath(paths[i], fold).Some? then CheckPath(paths[i], fold)
    else if i > 0 && !LexLess(paths[i - 1], paths[i]) then Some(AdaptationBindingMismatch)
    else None
  }

  /** The first refusal among the paths from `i` on. */
  function PathsVerdict(paths: seq<string>, i: nat, fold: string -> string): Option<Reason>
    requires i <= |paths|
    decreases |paths| - i
  {
    if i == |paths| then None
    else if PathVerdict(paths, i, fold).Some? then PathVerdict(paths, i, fold)
    else PathsVerdict(paths, i + 1, fold)
  }

  /** Why a binding is refused, given the one before it. */
  function BindingVerdict(bindings: seq<Binding>, i: nat, fold: string -> string): Option<Reason>
    requires i < |bindings|
  {
    if i > 0 && !LexLess(bindings[i - 1].stableId, bindings[i].stableId) then Some(AdaptationBindingMismatch)
    else if !CanonicalBinding(bindings[i]) then Some(AdaptationBindingMismatch)
    else PathsVerdict(bindings[i].memberPaths, 0, fold)
  }

  function BindingsVerdict(bindings: seq<Binding>, i: nat, fold: string -> string): Option<Reason>
    requires i <= |bindings|
    decreases |bindings| - i
  {
    if i == |bindings| then None
    else if BindingVerdict(bindings, i, fold).Some? then BindingVerdict(bindings, i, fold)
    else BindingsVerdict(bindings, i + 1, fold)
  }

  /** The component names the record as its own file. */
  predicate Owns(b: Binding, record: Record) {
    b.stableId == record.owner && record.path in b.memberPaths
  }

  /** Some component names the record as its own. */
  ghost predicate HasOwner(bindings: seq<Binding>, record: Record) {
    exists b :: 0 <= b < |bindings| && Owns(bindings[b], record)
  }

  /** Some file names the component as its owner. */
  ghost predicate HasFile(records: seq<Record>, id: string) {
    exists f :: 0 <= f < |records| && records[f].owner == id
  }

  /** Every file has an owner that lists it, and every component has a file. */
  ghost predicate Closed(manifest: Manifest) {
    && (forall f :: 0 <= f < |manifest.files| ==> HasOwner(manifest.adaptations, manifest.files[f]))
    && (forall b :: 0 <= b < |manifest.adaptations| ==> HasFile(manifest.files, manifest.adaptations[b].stableId))
  }

  /** Why the bindings are refused: the first rule that fails. */
  ghost function BindingRefusal(manifest: Manifest, fold: string -> string): Option<Reason> {
    if manifest.bundleFormat != BUNDLE_FORMAT then Some(UnsupportedBundleFormat)
    else if manifest.profile.None? || manifest.adaptations == [] then Some(AdaptationBindingMissing)
    else if !ProfileFits(manifest) then Some(ProjectionProfileMismatch)
    else if BindingsVerdict(manifest.adaptations, 0, fold).Some? then BindingsVerdict(manifest.adaptations, 0, fold)
    else if !Closed(manifest) then Some(AdaptationBindingMismatch)
    else None
  }

  // ----- the loops as written -----

  /** The pairs a binding binds. */
  ghost predicate Pairs(bound: set<(string, string)>, bindings: seq<Binding>, n: nat)
    requires n <= |bindings|
  {
    forall id, p :: (id, p) in bound
      <==> exists b :: 0 <= b < n && bindings[b].stableId == id && p in bindings[b].memberPaths
  }

  ghost predicate Ids(owners: set<string>, bindings: seq<Binding>, n: nat)
    requires n <= |bindings|
  {
    forall id :: id in owners <==> exists b :: 0 <= b < n && bindings[b].stableId == id
  }

  method CheckMemberPaths(id: string, paths: seq<string>, fold: string -> string, bound: set<(string, string)>)
    returns (refusal: Option<Reason>, more: set<(string, string)>)
    ensures refusal == PathsVerdict(paths, 0, fold)
    ensures refusal.None? ==> forall x, p :: (x, p) in more <==> (x, p) in bound || (x == id && p in paths)
  {
    hide CheckPath, LexLess;
    more := bound;
    var previous: Option<string> := None;
    for i := 0 to |paths|
      invariant PathsVerdict(paths, 0, fold) == PathsVerdict(paths, i, fold)
      invariant previous == if i == 0 then None else Some(paths[i - 1])
      invariant forall x, p :: (x, p) in more <==> (x, p) in bound || (x == id && p in paths[..i])
    {
      refusal := CheckPath(paths[i], fold);
      if refusal.Some? {
        return;
      }
      if previous.Some? && !LexLess(previous.value, paths[i]) {
        return Some(AdaptationBindingMismatch), more;
      }
      previous := Some(paths[i]);
      more := more + {(id, paths[i])};
    }
    refusal := None;
  }

  /** A component that sorts after the one before it was not seen earlier: the repeat test never fires. */
  lemma SortedNeverRepeats(bindings: seq<Binding>, i: nat, owners: set<string>)
    requires i < |bindings| && Ids(owners, bindings, i)
    requires forall j :: 0 < j <= i ==> LexLess(bindings[j - 1].stableId, bindings[j].stableId)
    ensures bindings[i].stableId !in owners
  {
    var texts := seq(i + 1, k requires 0 <= k < |bindings| => bindings[k].stableId);
    assert StrictlySorted(texts);
    forall j | 0 <= j < i
      ensures bindings[j].stableId != bindings[i].stableId
    {
      SortedApart(texts, j, i);
    }
  }

  method CheckAdaptationBindings(manifest: Manifest, fold: string -> string) returns (refusal: Option<Reason>)
    ensures refusal == BindingRefusal(manifest, fold)
  {
    hide CanonicalBinding, CanonicalDigest, LexLess, PathsVerdict, Pairs, Ids;
    if manifest.bundleFormat != BUNDLE_FORMAT {
      return Some(UnsupportedBundleFormat);
    }
    if manifest.profile.None? {
      return Some(AdaptationBindingMissing);
    }
    if manifest.adaptations == [] {
      return Some(AdaptationBindingMissing);
    }
    if !ProfileFits(manifest) {
      return Some(ProjectionProfileMismatch);
    }
    var bindings := manifest.adaptations;
    var prior: Option<string> := None;
    var owners: set<string> := {};
    var bound: set<(string, string)> := {};
    NoneBound(bindings);
    for i := 0 to |bindings|
      invariant BindingsVerdict(bindings, 0, fold) == BindingsVerdict(bindings, i, fold)
      invariant forall j :: 0 < j < i ==> LexLess(bindings[j - 1].stableId, bindings[j].stableId)
      invariant prior == if i == 0 then None else Some(bindings[i - 1].stableId)
      invariant Ids(owners, bindings, i) && Pairs(bound, bindings, i)
    {
      var binding := bindings[i];
      if prior.Some? && !LexLess(prior.value, binding.stableId) {
        return Some(AdaptationBindingMismatch);
      }
      prior := Some(binding.stableId);
      SortedNeverRepeats(bindings, i, owners);
      if !CanonicalBinding(binding) || binding.stableId in owners {
        return Some(AdaptationBindingMismatch);
      }
      var rejected, more := CheckMemberPaths(binding.stableId, binding.memberPaths, fold, bound);
      if rejected.Some? {
        return rejected;
      }
      OneMoreBound(bindings, i, owners, bound, more);
      owners := owners + {binding.stableId};
      bound := more;
    }
    var closed := ClosesOver(manifest, owners, bound);
    refusal := if closed then None else Some(AdaptationBindingMismatch);
  }

  lemma NoneBound(bindings: seq<Binding>)
    ensures Ids({}, bindings, 0) && Pairs({}, bindings, 0)
  {
  }

  lemma OneMoreBound(bindings: seq<Binding>, i: nat, owners: set<string>, bound: set<(string, string)>,
                     more: set<(string, string)>)
    requires i < |bindings| && Ids(owners, bindings, i) && Pairs(bound, bindings, i)
    requires forall x, p :: (x, p) in more
              <==> (x, p) in bound || (x == bindings[i].stableId && p in bindings[i].memberPaths)
    ensures Ids(owners + {bindings[i].stableId}, bindings, i + 1) && Pairs(more, bindings, i + 1)
  {
  }

  /** Owners and bound pairs, compared with the files. */
  method ClosesOver(manifest: Manifest, owners: set<string>, bound: set<(string, string)>) returns (closed: bool)
    requires Ids(owners, manifest.adaptations, |manifest.adaptations|)
    requires Pairs(bound, manifest.adaptations, |manifest.adaptations|)
    ensures closed <==> Closed(manifest)
  {
    hide Ids, Pairs, Closed;
    var fileOwners: set<string> := {};
    var unbound := false;
    for i := 0 to |manifest.files|
      invariant forall id :: id in fileOwners <==> exists f :: 0 <= f < i && manifest.files[f].owner == id
      invariant unbound <==> exists f :: 0 <= f < i && (manifest.files[f].owner, manifest.files[f].path) !in bound
    {
      fileOwners := fileOwners + {manifest.files[i].owner};
      unbound := unbound || (manifest.files[i].owner, manifest.files[i].path) !in bound;
    }
    closed := fileOwners == owners && !unbound;
    ClosedIff(manifest, owners, bound, fileOwners);
  }

  lemma ClosedIff(manifest: Manifest, owners: set<string>, bound: set<(string, string)>, fileOwners: set<string>)
    requires Ids(owners, manifest.adaptations, |manifest.adaptations|)
    requires Pairs(bound, manifest.adaptations, |manifest.adaptations|)
    requires forall id :: id in fileOwners <==> HasFile(manifest.files, id)
    ensures Closed(manifest)
       <==> fileOwners == owners
            && forall f :: 0 <= f < |manifest.files| ==> (manifest.files[f].owner, manifest.files[f].path) in bound
  {
    var bindings, records := manifest.adaptations, manifest.files;
    forall f | 0 <= f < |records|
      ensures (records[f].owner, records[f].path) in bound <==> HasOwner(bindings, records[f])
    {
      BoundHasOwner(bindings, bound, records[f]);
    }
    hide Pairs, HasOwner, HasFile;
    if Closed(manifest) {
      forall id
        ensures id in fileOwners <==> id in owners
      {
        OwnerIff(manifest, owners, id);
      }
    }
    if fileOwners == owners {
      forall b | 0 <= b < |bindings|
        ensures HasFile(records, bindings[b].stableId)
      {
        assert bindings[b].stableId in owners;
      }
    }
  }

  lemma BoundHasOwner(bindings: seq<Binding>, bound: set<(string, string)>, record: Record)
    requires Pairs(bound, bindings, |bindings|)
    ensures (record.owner, record.path) in bound <==> HasOwner(bindings, record)
  {
    if (record.owner, record.path) in bound {
      var b :| 0 <= b < |bindings| && bindings[b].stableId == record.owner && record.path in bindings[b].memberPaths;
      assert Owns(bindings[b], record);
    }
  }

  lemma OwnerIff(manifest: Manifest, owners: set<string>, id: string)
    requires Closed(manifest) && Ids(owners, manifest.adaptations, |manifest.adaptations|)
    ensures HasFile(manifest.files, id) <==> id in owners
  {
    hide HasOwner, HasFile;
    if id in owners {
      var b :| 0 <= b < |manifest.adaptations| && manifest.adaptations[b].stableId == id;
    }
    if HasFile(manifest.files, id) {
      OwnerIsBound(manifest, id);
    }
  }

  lemma OwnerIsBound(manifest: Manifest, id: string)
    requires Closed(manifest) && HasFile(manifest.files, id)
    ensures exists b :: 0 <= b < |manifest.adaptations| && manifest.adaptations[b].stableId == id
  {
    hide HasOwner;
    var f :| 0 <= f < |manifest.files| && manifest.files[f].owner == id;
    OwnerNamed(manifest.adaptations, manifest.files[f]);
  }

  lemma OwnerNamed(bindings: seq<Binding>, record: Record)
    requires HasOwner(bindings, record)
    ensures exists b :: 0 <= b < |bindings| && bindings[b].stableId == record.owner
  {
    var b :| 0 <= b < |bindings| && Owns(bindings[b], record);
  }

  // ----- what acceptance means -----

  lemma {:induction false} BindingsPass(bindings: seq<Binding>, i: nat, fold: string -> string)
    requires i <= |bindings|
    ensures BindingsVerdict(bindings, i, fold) == None
       <==> forall j :: i <= j < |bindings| ==> BindingVerdict(bindings, j, fold) == None
    decreases |bindings| - i
  {
    hide BindingVerdict;
    if i < |bindings| {
      BindingsPass(bindings, i + 1, fold);
    }
  }

  lemma {:induction false} PathsPass(paths: seq<string>, i: nat, fold: string -> string)
    requires i <= |paths|
    ensures PathsVerdict(paths, i, fold) == None
       <==> forall j :: i <= j < |paths| ==> PathVerdict(paths, j, fold) == None
    decreases |paths| - i
  {
    hide PathVerdict;
    if i < |paths| {
      PathsPass(paths, i + 1, fold);
    }
  }

  function StableIds(bindings: seq<Binding>): seq<string> {
    seq(|bindings|, i requires 0 <= i < |bindings| => bindings[i].stableId)
  }

  /** A binding has every field, and its member paths are admissible and strictly sorted. */
  ghost predicate Complete(b: Binding, fold: string -> string) {
    && b.stableId != "" && b.version != "" && Tagged("sha256:", b.passportDigest)
    && Tagged("adaptation_", b.adaptationId) && Tagged("sha256:", b.artifactDigest) && b.sizeBytes > 0
    && b.providerKind != "" && b.projectionKind != "" && b.memberPaths != []
    && StrictlySorted(b.memberPaths) && forall p :: p in b.memberPaths ==> Admissible(p, fold)
  }

  lemma CompleteIff(b: Binding, fold: string -> string)
    ensures Complete(b, fold) <==> CanonicalBinding(b) && PathsVerdict(b.memberPaths, 0, fold) == None
  {
    hide LexLess, CheckPath, PathsVerdict, Admissible, CanonicalDigest, CanonicalAdaptationId, Tagged;
    CanonicalIff(b.passportDigest);
    CanonicalIff(b.adaptationId);
    CanonicalIff(b.artifactDigest);
    var paths := b.memberPaths;
    PathsPass(paths, 0, fold);
    forall i | 0 <= i < |paths|
      ensures CheckPath(paths[i], fold) == None <==> Admissible(paths[i], fold)
    {
      CheckPathIff(paths[i], fold);
    }
    if PathsVerdict(paths, 0, fold) == None {
      forall i | 0 < i < |paths|
        ensures LexLess(paths[i - 1], paths[i])
      {
        assert PathVerdict(paths, i, fold) == None;
      }
      forall p | p in paths
        ensures Admissible(p, fold)
      {
        var i :| 0 <= i < |paths| && paths[i] == p;
        assert PathVerdict(paths, i, fold) == None;
      }
    }
  }

  /** A profile with a name and a digest, for the manifest's target scope, or globally when it names none. */
  ghost predicate Profiled(manifest: Manifest) {
    match manifest.profile
    case None => false
    case Some(p) =>
      && p.profileId != "" && Tagged("sha256:", p.profileDigest)
      && (manifest.targetScope == Some(p.targetScope) || (manifest.targetScope.None? && p.targetScope == "global"))
  }

  /** The manifest binds every file to its component, without reference to the order of checks. */
  ghost predicate Bound(manifest: Manifest, fold: string -> string) {
    && manifest.bundleFormat == "ai-stp-bundle/2" && Profiled(manifest) && manifest.adaptations != []
    && StrictlySorted(StableIds(manifest.adaptations))
    && (forall i :: 0 <= i < |manifest.adaptations| ==> Complete(manifest.adaptations[i], fold))
    && Closed(manifest)
  }

  lemma IdsSortedIff(bindings: seq<Binding>)
    ensures StrictlySorted(StableIds(bindings))
       <==> forall i :: 0 < i < |bindings| ==> LexLess(bindings[i - 1].stableId, bindings[i].stableId)
  {
    hide LexLess;
    var ids := StableIds(bindings);
    assert forall i :: 0 <= i < |bindings| ==> ids[i] == bindings[i].stableId;
    if StrictlySorted(ids) {
      forall i | 0 < i < |bindings|
        ensures LexLess(bindings[i - 1].stableId, bindings[i].stableId)
      {
        assert LexLess(ids[i - 1], ids[i]);
      }
    }
  }

  /** A binding sorts after the one before it and is complete. */
  ghost predicate Fits(bindings: seq<Binding>, i: nat, fold: string -> string)
    requires i < |bindings|
  {
    (i > 0 ==> LexLess(bindings[i - 1].stableId, bindings[i].stableId)) && Complete(bindings[i], fold)
  }

  lemma BindingIff(bindings: seq<Binding>, i: nat, fold: string -> string)
    requires i < |bindings|
    ensures BindingVerdict(bindings, i, fold) == None <==> Fits(bindings, i, fold)
  {
    hide CanonicalBinding, LexLess, PathsVerdict, Complete;
    CompleteIff(bindings[i], fold);
  }

  lemma AllFitIff(bindings: seq<Binding>, fold: string -> string)
    ensures (forall i :: 0 <= i < |bindings| ==> Fits(bindings, i, fold))
       <==> StrictlySorted(StableIds(bindings)) && forall i :: 0 <= i < |bindings| ==> Complete(bindings[i], fold)
  {
    hide LexLess, Complete, StableIds, StrictlySorted;
    IdsSortedIff(bindings);
    if forall i :: 0 <= i < |bindings| ==> Fits(bindings, i, fold) {
      forall i | 0 <= i < |bindings|
        ensures i > 0 ==> LexLess(bindings[i - 1].stableId, bindings[i].stableId)
        ensures Complete(bindings[i], fold)
      {
        assert Fits(bindings, i, fold);
      }
    }
  }

  lemma BindingsIff(bindings: seq<Binding>, fold: string -> string)
    ensures BindingsVerdict(bindings, 0, fold) == None
       <==> StrictlySorted(StableIds(bindings)) && forall i :: 0 <= i < |bindings| ==> Complete(bindings[i], fold)
  {
    hide BindingsVerdict, Complete, StableIds, StrictlySorted, BindingVerdict, Fits;
    BindingsPass(bindings, 0, fold);
    AllFitIff(bindings, fold);
    forall i | 0 <= i < |bindings|
      ensures BindingVerdict(bindings, i, fold) == None <==> Fits(bindings, i, fold)
    {
      BindingIff(bindings, i, fold);
    }
  }

  lemma BoundIff(manifest: Manifest, fold: string -> string)
    ensures BindingRefusal(manifest, fold) == None <==> Bound(manifest, fold)
  {
    hide BindingsVerdict, Complete, Closed, StrictlySorted, CanonicalDigest, Tagged;
    BindingsIff(manifest.adaptations, fold);
    if manifest.profile.Some? {
      CanonicalIff(manifest.profile.value.profileDigest);
    }
  }

  lemma IdsApart(bindings: seq<Binding>, b: nat, c: nat)
    requires StrictlySorted(StableIds(bindings)) && b < |bindings| && c < |bindings|
    requires bindings[b].stableId == bindings[c].stableId
    ensures b == c
  {
    hide StrictlySorted;
    if b < c {
      SortedApart(StableIds(bindings), b, c);
    } else if c < b {
      SortedApart(StableIds(bindings), c, b);
    }
  }

  /** The one component that owns a file. */
  ghost predicate SoleOwner(manifest: Manifest, b: int, record: Record) {
    && 0 <= b < |manifest.adaptations| && Owns(manifest.adaptations[b], record)
    && forall c :: 0 <= c < |manifest.adaptations| && Owns(manifest.adaptations[c], record) ==> c == b
  }

  lemma OwnerIsSole(manifest: Manifest, b: nat, record: Record)
    requires StrictlySorted(StableIds(manifest.adaptations))
    requires b < |manifest.adaptations| && Owns(manifest.adaptations[b], record)
    ensures SoleOwner(manifest, b, record)
  {
    hide StrictlySorted, StableIds;
    forall c | 0 <= c < |manifest.adaptations| && Owns(manifest.adaptations[c], record)
      ensures c == b
    {
      IdsApart(manifest.adaptations, b, c);
    }
  }

  /** Some file is solely this component's. */
  ghost predicate OwnsSome(manifest: Manifest, b: int) {
    exists f :: 0 <= f < |manifest.files| && SoleOwner(manifest, b, manifest.files[f])
  }

  ghost predicate OwnedOnce(manifest: Manifest, record: Record) {
    exists b :: SoleOwner(manifest, b, record)
  }

  lemma ComponentHasFile(manifest: Manifest, b: nat)
    requires StrictlySorted(StableIds(manifest.adaptations)) && b < |manifest.adaptations|
    requires HasFile(manifest.files, manifest.adaptations[b].stableId)
    requires forall f :: 0 <= f < |manifest.files| ==> HasOwner(manifest.adaptations, manifest.files[f])
    ensures OwnsSome(manifest, b)
  {
    hide StrictlySorted, StableIds, SoleOwner, HasOwner;
    var f :| 0 <= f < |manifest.files| && manifest.files[f].owner == manifest.adaptations[b].stableId;
    FileHasOwner(manifest, manifest.files[f]);
    var c :| SoleOwner(manifest, c, manifest.files[f]);
    OwnerHasId(manifest, c, manifest.files[f]);
    IdsApart(manifest.adaptations, b, c);
  }

  lemma OwnerHasId(manifest: Manifest, c: int, record: Record)
    requires SoleOwner(manifest, c, record)
    ensures 0 <= c < |manifest.adaptations| && manifest.adaptations[c].stableId == record.owner
  {
  }

  lemma FileHasOwner(manifest: Manifest, record: Record)
    requires StrictlySorted(StableIds(manifest.adaptations)) && HasOwner(manifest.adaptations, record)
    ensures OwnedOnce(manifest, record)
  {
    hide StrictlySorted, StableIds, SoleOwner, Owns;
    var b :| 0 <= b < |manifest.adaptations| && Owns(manifest.adaptations[b], record);
    OwnerIsSole(manifest, b, record);
  }

  /** In an accepted bundle exactly one component owns each file, and every component owns one. */
  lemma OwnershipIsTotal(manifest: Manifest, fold: string -> string)
    requires Bound(manifest, fold)
    ensures forall f :: 0 <= f < |manifest.files| ==> OwnedOnce(manifest, manifest.files[f])
    ensures forall b :: 0 <= b < |manifest.adaptations| ==> OwnsSome(manifest, b)
  {
    hide Complete, StrictlySorted, StableIds, OwnedOnce, OwnsSome, HasOwner, HasFile, Profiled;
    forall f | 0 <= f < |manifest.files|
      ensures OwnedOnce(manifest, manifest.files[f])
    {
      FileHasOwner(manifest, manifest.files[f]);
    }
    forall b | 0 <= b < |manifest.adaptations|
      ensures OwnsSome(manifest, b)
    {
      ComponentHasFile(manifest, b);
    }
  }
}
