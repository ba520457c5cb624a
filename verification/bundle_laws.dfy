/**
 What the file check accepts, as one statement: manifest and archive declare
 each other exactly, with no two paths alike on a case-insensitive system.
*/
module BundleLaws {
  import opened Wrappers
  import opened Segments
  import opened BundlePaths
  import opened Bundles

  // ----- one record -----

  /** At most the contract's limit, and at most the reported one if there is one. */
  predicate Below(n: nat, reported: Option<nat>, contract: nat) {
    n <= contract && (reported.Some? ==> n <= reported.value)
  }

  /** What a record says of itself, apart from its neighbours and its bytes. */
  ghost predicate Sober(record: Record, reported: Option<nat>, fold: string -> string) {
    && Admissible(record.path, fold) && record.kind == RegularFile
    && (record.mode == 420 || record.mode == 493) && Below(record.byteLength, reported, 4 * 1024 * 1024)
  }

  /** The bytes are the ones the record names. */
  predicate Matches(record: Record, data: seq<Byte>, digest: seq<Byte> -> string) {
    |data| == record.byteLength && digest(data) == record.digest
  }

  lemma VerdictIff(records: seq<Record>, i: nat, reported: Option<nat>, present: map<string, seq<Byte>>,
                   fold: string -> string, digest: seq<Byte> -> string)
    requires i < |records|
    ensures RecordVerdict(records, i, Effective(reported, CONTRACT_MAX_FILE_BYTES), present, fold, digest) == None
       <==> && Sober(records[i], reported, fold)
            && (forall j :: 0 <= j < i ==> fold(records[j].path) != fold(records[i].path))
            && records[i].path in present && Matches(records[i], present[records[i].path], digest)
  {
    hide CheckPath, Admissible;
    CheckPathIff(records[i].path, fold);
  }

  // ----- the archive -----

  /** The member that carries a path's bytes: a file beneath `files`, and no directory. */
  predicate Carries(member: Member, path: string) {
    member.name == "files/" + path && path != "" && path[|path| - 1] != '/'
  }

  lemma {:induction false} PresentIff(members: seq<Member>, path: string)
    requires UniqueNames(members)
    ensures path in Present(members) <==> exists k :: 0 <= k < |members| && Carries(members[k], path)
    ensures forall k :: 0 <= k < |members| && Carries(members[k], path) ==>
              path in Present(members) && Present(members)[path] == members[k].data
    decreases |members|
  {
    if members != [] {
      var n := |members| - 1;
      PresentIff(members[..n], path);
      assert forall k :: 0 <= k < n ==> members[..n][k] == members[k];
      NameCarries(members[n], path);
    }
  }

  lemma NameCarries(member: Member, path: string)
    ensures Carries(member, path) <==> IsContent(member.name) && Rest(member.name) == path
  {
    if IsContent(member.name) {
      assert member.name == "files/" + Rest(member.name);
    }
    if Carries(member, path) {
      assert member.name[|member.name| - 1] == path[|path| - 1];
    }
  }

  /** A member that is structure: not beneath `files`, `files/` itself, or a directory. */
  predicate Structure(member: Member) {
    !("files/" <= member.name) || member.name[|member.name| - 1] == '/'
  }

  lemma StructureCarries(member: Member, path: string)
    ensures Structure(member) ==> !Carries(member, path)
    ensures !Structure(member) ==> Carries(member, member.name[6..])
  {
    assert "files/"[5] == '/';
    if Carries(member, path) {
      assert member.name[|member.name| - 1] == path[|path| - 1];
    }
    if !Structure(member) {
      assert member.name[5] == "files/"[5];
      assert member.name == "files/" + member.name[6..] && |member.name| > 6;
      assert member.name[6..][|member.name| - 7] == member.name[|member.name| - 1];
    }
  }

  /** Structure is never content, and everything else is. */
  lemma StructureIff(member: Member)
    ensures Structure(member) <==> forall path :: !Carries(member, path)
    ensures member.name == "files/" || (exists p :: member.name == "files/" + p + "/") ==> Structure(member)
  {
    hide Structure, Carries;
    StructureCarries(member, "");
    forall path {
      StructureCarries(member, path);
    }
    if member.name == "files/" || exists p :: member.name == "files/" + p + "/" {
      EndsInSeparator(member);
    }
  }

  lemma EndsInSeparator(member: Member)
    requires member.name == "files/" || exists p :: member.name == "files/" + p + "/"
    ensures Structure(member)
  {
    assert "files/"[5] == '/';
    if p :| member.name == "files/" + p + "/" {
      assert member.name[|member.name| - 1] == '/';
    }
  }

  /** The last member of a list decides nothing if it is structure. */
  lemma {:induction false} PresentWithout(a: seq<Member>, member: Member, b: seq<Member>)
    requires Structure(member)
    ensures Present(a + [member] + b) == Present(a + b)
    decreases |b|
  {
    var whole, less := a + [member] + b, a + b;
    if b == [] {
      assert whole[..|whole| - 1] == a && less == a;
      assert !IsContent(member.name);
    } else {
      var n := |b| - 1;
      PresentWithout(a, member, b[..n]);
      assert whole[..|whole| - 1] == a + [member] + b[..n] && less[..|less| - 1] == a + b[..n];
      assert whole[|whole| - 1] == less[|less| - 1] == b[n];
    }
  }

  /**
   Structure in an archive, `files/` and every directory beneath it, changes
   neither what the file check accepts, nor what it returns, nor its reasons.
  */
  lemma StructureIgnored(a: seq<Member>, member: Member, b: seq<Member>, manifest: Manifest, length: nat,
                         fold: string -> string, digest: seq<Byte> -> string)
    requires Structure(member)
    ensures var whole, less := a + [member] + b, a + b;
            && (Accepted(manifest, whole, length, fold, digest) <==> Accepted(manifest, less, length, fold, digest))
            && (forall files ::
                  Declares(files, manifest.files, |manifest.files|, Present(whole))
                  <==> Declares(files, manifest.files, |manifest.files|, Present(less)))
            && (forall reason ::
                  RefusedFor(reason, manifest, whole, length, fold, digest)
                  <==> RefusedFor(reason, manifest, less, length, fold, digest))
  {
    PresentWithout(a, member, b);
  }

  /** A path whose names are all plain is the path of a file member. */
  lemma AdmissibleIsContent(path: string, fold: string -> string)
    requires Admissible(path, fold)
    ensures path != "" && path[|path| - 1] != '/'
  {
    hide Split, PlainName;
    NoEmptyName(fold);
    if path == "" {
      EmptyFirst(path);
    } else if path[|path| - 1] == '/' {
      EmptyLast(path);
    }
  }

  lemma EmptyLast(path: string)
    requires path != "" && path[|path| - 1] == '/'
    ensures "" in Split(path, {'/'})
  {
    hide Split;
    var head := path[..|path| - 1];
    assert path == head + ['/'] + "";
    SplitAppend(head, '/', "");
    SplitUnbroken("", '/');
  }

  // ----- exactness -----

  /** Some member carries exactly the bytes the record names. */
  ghost predicate Backed(record: Record, members: seq<Member>, digest: seq<Byte> -> string) {
    exists k ::
      0 <= k < |members| && members[k].name == "files/" + record.path && Matches(record, members[k].data, digest)
  }

  /** Some record declares the path. */
  ghost predicate Declared(path: string, records: seq<Record>) {
    exists i :: 0 <= i < |records| && records[i].path == path
  }

  /** Every file member is declared. */
  ghost predicate NoStray(members: seq<Member>, records: seq<Record>) {
    forall k, path :: 0 <= k < |members| && Carries(members[k], path) ==> Declared(path, records)
  }

  ghost predicate FoldsApart(records: seq<Record>, fold: string -> string) {
    forall i, j :: 0 <= i < j < |records| ==> fold(records[i].path) != fold(records[j].path)
  }

  /** Manifest and archive declare each other, and every limit and record rule holds. */
  ghost predicate Exact(manifest: Manifest, members: seq<Member>, length: nat, fold: string -> string,
                        digest: seq<Byte> -> string) {
    && Below(|manifest.files|, manifest.limits.maxFiles, 2000)
    && Below(length, manifest.limits.maxBundleBytes, 64 * 1024 * 1024)
    && (forall i :: 0 <= i < |manifest.files| ==> Sober(manifest.files[i], manifest.limits.maxFileBytes, fold))
    && FoldsApart(manifest.files, fold)
    && (forall i :: 0 <= i < |manifest.files| ==> Backed(manifest.files[i], members, digest))
    && NoStray(members, manifest.files)
  }

  lemma BackedIff(record: Record, members: seq<Member>, reported: Option<nat>, fold: string -> string,
                  digest: seq<Byte> -> string)
    requires UniqueNames(members) && Sober(record, reported, fold)
    ensures Backed(record, members, digest)
       <==> record.path in Present(members) && Matches(record, Present(members)[record.path], digest)
  {
    hide Present, Matches, Admissible, IsContent, UniqueNames;
    AdmissibleIsContent(record.path, fold);
    PresentIff(members, record.path);
    if Backed(record, members, digest) {
      var k :| 0 <= k < |members| && members[k].name == "files/" + record.path
               && Matches(record, members[k].data, digest);
      assert Carries(members[k], record.path);
    }
  }

  lemma AllDeclaredIff(records: seq<Record>, members: seq<Member>)
    requires UniqueNames(members)
    ensures AllDeclared(records, Present(members)) <==> NoStray(members, records)
  {
    hide Present, Carries, UniqueNames;
    var present := Present(members);
    forall path
      ensures path in present <==> exists k :: 0 <= k < |members| && Carries(members[k], path)
    {
      PresentIff(members, path);
    }
    if AllDeclared(records, present) {
      forall k, path | 0 <= k < |members| && Carries(members[k], path)
        ensures Declared(path, records)
      {
        assert path in present;
      }
    }
    if NoStray(members, records) {
      forall p | p in present
        ensures exists i :: 0 <= i < |records| && records[i].path == p
      {
        assert Declared(p, records);
      }
    }
  }

  lemma PassedIff(manifest: Manifest, members: seq<Member>, fold: string -> string, digest: seq<Byte> -> string)
    requires UniqueNames(members)
    ensures Passed(manifest, |manifest.files|, Present(members), fold, digest)
       <==> && (forall i :: 0 <= i < |manifest.files| ==> Sober(manifest.files[i], manifest.limits.maxFileBytes, fold))
            && FoldsApart(manifest.files, fold)
            && (forall i :: 0 <= i < |manifest.files| ==> Backed(manifest.files[i], members, digest))
  {
    hide RecordVerdict, Sober, Backed, UniqueNames, Present, Matches;
    var records, reported := manifest.files, manifest.limits.maxFileBytes;
    forall i | 0 <= i < |records|
      ensures RecordVerdict(records, i, FileLimit(manifest), Present(members), fold, digest) == None
         <==> && Sober(records[i], reported, fold)
              && (forall j :: 0 <= j < i ==> fold(records[j].path) != fold(records[i].path))
              && Backed(records[i], members, digest)
    {
      VerdictIff(records, i, reported, Present(members), fold, digest);
      if Sober(records[i], reported, fold) {
        BackedIff(records[i], members, reported, fold, digest);
      }
    }
  }

  /** With unique member names, the file check accepts exactly the exact bundles. */
  lemma AcceptedIff(manifest: Manifest, members: seq<Member>, length: nat, fold: string -> string,
                    digest: seq<Byte> -> string)
    requires UniqueNames(members)
    ensures Accepted(manifest, members, length, fold, digest) <==> Exact(manifest, members, length, fold, digest)
  {
    hide Passed, Sober, FoldsApart, Backed, Present, AllDeclared, NoStray, UniqueNames;
    PassedIff(manifest, members, fold, digest);
    AllDeclaredIff(manifest.files, members);
  }

  lemma RecordsMatch(manifest: Manifest, present: map<string, seq<Byte>>, fold: string -> string,
                     digest: seq<Byte> -> string)
    requires Passed(manifest, |manifest.files|, present, fold, digest)
    ensures forall i :: 0 <= i < |manifest.files| ==>
              && manifest.files[i].path in present
              && Matches(manifest.files[i], present[manifest.files[i].path], digest)
  {
    hide RecordVerdict, Matches, Sober;
    forall i | 0 <= i < |manifest.files|
      ensures manifest.files[i].path in present
      ensures Matches(manifest.files[i], present[manifest.files[i].path], digest)
    {
      assert RecordVerdict(manifest.files, i, FileLimit(manifest), present, fold, digest) == None;
      VerdictIff(manifest.files, i, manifest.limits.maxFileBytes, present, fold, digest);
    }
  }

  /** The returned files are what the archive carries, once every carried file is declared. */
  lemma InstallsCarried(records: seq<Record>, members: seq<Member>, files: map<string, (seq<Byte>, nat)>)
    requires UniqueNames(members) && AllDeclared(records, Present(members))
    requires Declares(files, records, |records|, Present(members))
    ensures forall k, path :: 0 <= k < |members| && Carries(members[k], path) ==>
              path in files && files[path].0 == members[k].data
    ensures forall p :: p in files ==>
              exists k :: 0 <= k < |members| && Carries(members[k], p) && files[p].0 == members[k].data
  {
    hide Present, UniqueNames, Carries;
    forall k, path | 0 <= k < |members| && Carries(members[k], path)
      ensures path in files && files[path].0 == members[k].data
    {
      PresentIff(members, path);
    }
    forall p | p in files
      ensures exists k :: 0 <= k < |members| && Carries(members[k], p) && files[p].0 == members[k].data
    {
      PresentIff(members, p);
    }
  }

  /**
   What is returned: one entry for each record, holding the bytes and mode that
   record names, and as many entries as there are file members in the archive.
  */
  lemma InstallsExactly(manifest: Manifest, members: seq<Member>, length: nat, fold: string -> string,
                        digest: seq<Byte> -> string,
                        files: map<string, (seq<Byte>, nat)>)
    requires UniqueNames(members) && Accepted(manifest, members, length, fold, digest)
    requires Declares(files, manifest.files, |manifest.files|, Present(members))
    ensures |files| == |manifest.files|
    ensures forall i :: 0 <= i < |manifest.files| ==>
              && manifest.files[i].path in files && files[manifest.files[i].path].1 == manifest.files[i].mode
              && Matches(manifest.files[i], files[manifest.files[i].path].0, digest)
    ensures forall k, path :: 0 <= k < |members| && Carries(members[k], path) ==>
              path in files && files[path].0 == members[k].data
    ensures forall p :: p in files ==>
              exists k :: 0 <= k < |members| && Carries(members[k], p) && files[p].0 == members[k].data
  {
    hide RecordVerdict, Present, UniqueNames, Carries, WithinLimits, Passed, Matches, AllDeclared;
    RecordsMatch(manifest, Present(members), fold, digest);
    InstallsCarried(manifest.files, members, files);
  }
}
