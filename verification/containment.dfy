/**
 Where an accepted path lands. Resolution is the reader's worst case: both
 separators count, dots are interpreted, a leading separator starts at the root
 of the file system and a drive letter leaves it.
*/
module Containment {
  import opened Wrappers
  import opened Segments
  import opened BundlePaths
  import opened Vocabulary

  /** One step of a walk: stay, climb, or enter. */
  function Step(at: seq<string>, segment: string): seq<string> {
    if segment == "" || segment == "." then at
    else if segment == ".." then (if at == [] then [] else at[..|at| - 1])
    else at + [segment]
  }

  function Walk(at: seq<string>, segments: seq<string>): seq<string>
    decreases |segments|
  {
    if segments == [] then at else Walk(Step(at, segments[0]), segments[1..])
  }

  /** Where a path leads from a directory, or nowhere on this volume. */
  function Lands(root: seq<string>, path: string): Option<seq<string>> {
    if |path| > 1 && path[1] == ':' then None
    else if path != "" && (path[0] == '/' || path[0] == '\\') then Some(Walk([], Split(path, {'/', '\\'})))
    else Some(Walk(root, Split(path, {'/', '\\'})))
  }

  /** A segment that names something, rather than here or the parent. */
  predicate Names(segment: string) {
    segment != "" && segment != "." && segment != ".."
  }

  lemma {:induction false} WalkEnters(at: seq<string>, segments: seq<string>)
    requires forall i :: 0 <= i < |segments| ==> Names(segments[i])
    ensures Walk(at, segments) == at + segments
    decreases |segments|
  {
    if segments != [] {
      assert Names(segments[0]);
      WalkEnters(at + [segments[0]], segments[1..]);
      assert at + [segments[0]] + segments[1..] == at + segments;
    } else {
      assert at + segments == at;
    }
  }

  /** What a walk adds to where it began are segments it was given. */
  lemma {:induction false} WalkAdds(at: seq<string>, segments: seq<string>, i: nat)
    requires |at| <= i < |Walk(at, segments)|
    ensures Walk(at, segments)[i] in segments
    decreases |segments|
  {
    if segments != [] {
      var next := Step(at, segments[0]);
      if |next| <= i {
        WalkAdds(next, segments[1..], i);
      } else {
        WalkKeeps(next, segments[1..], i);
      }
    }
  }

  /** What a walk still holds at a place it began with is what was there, or a segment. */
  lemma {:induction false} WalkKeeps(at: seq<string>, segments: seq<string>, i: nat)
    requires i < |at| && i < |Walk(at, segments)|
    ensures Walk(at, segments)[i] == at[i] || Walk(at, segments)[i] in segments
    decreases |segments|
  {
    if segments != [] {
      var next := Step(at, segments[0]);
      if i < |next| {
        WalkKeeps(next, segments[1..], i);
      } else {
        WalkAdds(next, segments[1..], i);
      }
    }
  }

  /** A name lands directly beneath every directory exactly when it is one segment that names something. */
  lemma DirectlyIff(root: seq<string>, name: string)
    ensures Lands(root, name) == Some(root + [name])
       <==> '/' !in name && '\\' !in name && Names(name) && !(|name| > 1 && name[1] == ':')
  {
    hide Split;
    var pieces := Split(name, {'/', '\\'});
    PiecesHaveNoSeparator(name, {'/', '\\'});
    if '/' !in name && '\\' !in name {
      SplitWithout(name, '/', '\\');
      SplitUnbroken(name, '/');
      assert [name][1..] == [];
      assert Walk(root, [name]) == Step(root, name);
      assert name != "" ==> name[0] in name;
    }
    if Lands(root, name) == Some(root + [name]) {
      var from := if name != "" && (name[0] == '/' || name[0] == '\\') then [] else root;
      WalkAdds(from, pieces, |root|);
      assert (root + [name])[|root|] == name;
    }
  }

  lemma PlainIsNoDot(segment: string, fold: string -> string)
    requires PlainName(segment, fold)
    ensures Names(segment)
  {
    hide Bytes, Device;
  }

  lemma NoDriveLetter(path: string)
    requires forall c :: c in path ==> Portable(c)
    ensures !(|path| > 1 && path[1] == ':')
  {
    if |path| > 1 {
      assert path[1] in path;
    }
  }

  /** Every accepted path enters its own segments under any root and never leaves on the way. */
  lemma Contained(root: seq<string>, path: string, fold: string -> string)
    requires CheckPath(path, fold) == None
    ensures Lands(root, path) == Some(root + Split(path, {'/'})) && |Split(path, {'/'})| > 0
    ensures var segments := Split(path, {'/', '\\'});
            forall k :: 0 <= k <= |segments| ==> root <= Walk(root, segments[..k]) == root + segments[..k]
  {
    CheckPathIff(path, fold);
    hide CheckPath, PlainName, Split, Walk;
    var segments := Split(path, {'/'});
    assert '\\' !in path;
    NoDriveLetter(path);
    SplitWithout(path, '/', '\\');
    forall i | 0 <= i < |segments|
      ensures Names(segments[i])
    {
      PlainIsNoDot(segments[i], fold);
    }
    WalkEnters(root, segments);
    forall k | 0 <= k <= |segments|
      ensures root <= Walk(root, segments[..k]) == root + segments[..k]
    {
      WalkEnters(root, segments[..k]);
    }
    if path != "" && path[0] == '/' {
      EmptyFirst(path);
    }
  }

  /** Two different accepted paths never land in the same place. */
  lemma LandsApart(root: seq<string>, a: string, b: string, fold: string -> string)
    requires CheckPath(a, fold) == None && CheckPath(b, fold) == None
    ensures Lands(root, a) == Lands(root, b) <==> a == b
  {
    hide CheckPath, Split, Lands, Walk;
    Contained(root, a, fold);
    Contained(root, b, fold);
    JoinSplit(a, '/');
    JoinSplit(b, '/');
    if Lands(root, a) == Lands(root, b) {
      var x, y := Split(a, {'/'}), Split(b, {'/'});
      assert x == (root + x)[|root|..] && y == (root + y)[|root|..];
    }
  }

  // ----- ownership -----

  /** A path is a namespace or lies beneath one. */
  predicate Within(namespaces: seq<string>, path: string) {
    exists i :: 0 <= i < |namespaces| && (path == namespaces[i] || namespaces[i] + "/" <= path)
  }

  /** Ownership compares whole segments, so a neighbour that shares letters is never owned. */
  lemma WithinIff(namespaces: seq<string>, path: string)
    ensures Within(namespaces, path)
       <==> exists i :: 0 <= i < |namespaces| && Split(namespaces[i], {'/'}) <= Split(path, {'/'})
  {
    hide Split;
    forall i | 0 <= i < |namespaces|
      ensures path == namespaces[i] || namespaces[i] + "/" <= path
         <==> Split(namespaces[i], {'/'}) <= Split(path, {'/'})
    {
      PiecesBeginIff(namespaces[i], '/', path);
    }
  }

  /** An owned bundle path lands exactly at or beneath its namespace, and nothing else does. */
  lemma OwnedLandsBeneath(root: seq<string>, namespaces: seq<string>, path: string, fold: string -> string)
    requires CheckPath(path, fold) == None
    ensures Lands(root, path).Some?
    ensures Within(namespaces, path)
       <==> exists i :: 0 <= i < |namespaces| && root + Split(namespaces[i], {'/'}) <= Lands(root, path).value
  {
    hide CheckPath, Split, Lands, Walk, Within;
    Contained(root, path, fold);
    WithinIff(namespaces, path);
    var segments := Split(path, {'/'});
    forall i | 0 <= i < |namespaces|
      ensures Split(namespaces[i], {'/'}) <= segments <==> root + Split(namespaces[i], {'/'}) <= root + segments
    {
      BeginsUnder(root, Split(namespaces[i], {'/'}), segments);
    }
  }

  lemma BeginsUnder(root: seq<string>, a: seq<string>, b: seq<string>)
    ensures a <= b <==> root + a <= root + b
  {
    if root + a <= root + b {
      assert (root + b)[|root|..] == b && (root + a)[|root|..] == a;
      assert a == (root + b)[..|root + a|][|root|..];
    }
    if a <= b {
      assert root + b == (root + a) + b[|a|..];
    }
  }

  // ----- ownership by scope -----

  datatype Profile = Profile(scope: TargetScope, namespaces: seq<string>)

  /** What one harness declares: its own namespaces, and a profile for each second target. */
  datatype Harness = Harness(namespaces: seq<string>, scoped: seq<Profile>)

  /** The first profile that names a scope. */
  function ScopedFor(scoped: seq<Profile>, scope: TargetScope): Option<Profile>
    decreases |scoped|
  {
    if scoped == [] then None
    else if scoped[0].scope == scope then Some(scoped[0])
    else ScopedFor(scoped[1..], scope)
  }

  function OwnedProjection(h: Harness, scope: Option<TargetScope>): seq<string> {
    if scope.None? then h.namespaces
    else match ScopedFor(h.scoped, scope.value)
      case None => h.namespaces
      case Some(profile) => profile.namespaces
  }

  predicate OwnsAt(h: Harness, path: string, scope: Option<TargetScope>) {
    Within(OwnedProjection(h, scope), path)
  }

  predicate OwnsAnywhere(h: Harness, path: string) {
    || Within(h.namespaces, path)
    || exists i :: 0 <= i < |h.scoped| && Within(h.scoped[i].namespaces, path)
  }

  lemma {:induction false} ScopedForIsFirst(scoped: seq<Profile>, scope: TargetScope)
    ensures ScopedFor(scoped, scope).None? <==> forall i :: 0 <= i < |scoped| ==> scoped[i].scope != scope
    ensures ScopedFor(scoped, scope).Some? ==>
              exists i :: 0 <= i < |scoped| && scoped[i] == ScopedFor(scoped, scope).value && scoped[i].scope == scope
                          && forall j :: 0 <= j < i ==> scoped[j].scope != scope
    decreases |scoped|
  {
    if scoped != [] && scoped[0].scope != scope {
      ScopedForIsFirst(scoped[1..], scope);
      if ScopedFor(scoped, scope).Some? {
        var i :| 0 <= i < |scoped[1..]| && scoped[1..][i] == ScopedFor(scoped, scope).value
                 && scoped[1..][i].scope == scope
                 && forall j :: 0 <= j < i ==> scoped[1..][j].scope != scope;
        assert scoped[i + 1] == scoped[1..][i];
        forall j | 0 <= j < i + 1
          ensures scoped[j].scope != scope
        {
          assert j > 0 ==> scoped[j] == scoped[1..][j - 1];
        }
      } else {
        forall i | 0 <= i < |scoped|
          ensures scoped[i].scope != scope
        {
          assert i > 0 ==> scoped[i] == scoped[1..][i - 1];
        }
      }
    }
  }

  /** A scope that no profile names is the harness's own; one that is named, its first profile's. */
  lemma OwnsAtIs(h: Harness, path: string, scope: TargetScope)
    ensures (forall i :: 0 <= i < |h.scoped| ==> h.scoped[i].scope != scope) ==>
              (OwnsAt(h, path, Some(scope)) <==> Within(h.namespaces, path))
    ensures forall i :: 0 <= i < |h.scoped| && h.scoped[i].scope == scope && !Hidden(h, i) ==>
              (OwnsAt(h, path, Some(scope)) <==> Within(h.scoped[i].namespaces, path))
    ensures OwnsAt(h, path, None) <==> Within(h.namespaces, path)
  {
    hide Within;
    ScopedForIsFirst(h.scoped, scope);
  }

  /** A profile that an earlier one for the same scope hides. */
  predicate Hidden(h: Harness, i: nat)
    requires i < |h.scoped|
  {
    exists j :: 0 <= j < i && h.scoped[j].scope == h.scoped[i].scope
  }

  /** Some scope a caller can name lets a path be installed. */
  ghost predicate OwnsSomewhere(h: Harness, path: string) {
    exists scope: Option<TargetScope> :: OwnsAt(h, path, scope)
  }

  /** A profile that can be reached by naming its scope owns the path, or the harness itself does. */
  predicate Reached(h: Harness, path: string) {
    || Within(h.namespaces, path)
    || exists i :: 0 <= i < |h.scoped| && !Hidden(h, i) && Within(h.scoped[i].namespaces, path)
  }

  lemma SomewhereIsReached(h: Harness, path: string)
    ensures OwnsSomewhere(h, path) <==> Reached(h, path)
  {
    hide Within;
    assert OwnsAt(h, path, None) <==> Within(h.namespaces, path);
    forall i | 0 <= i < |h.scoped| && !Hidden(h, i)
      ensures OwnsAt(h, path, Some(h.scoped[i].scope)) <==> Within(h.scoped[i].namespaces, path)
    {
      ScopedForIsFirst(h.scoped, h.scoped[i].scope);
    }
    forall scope: Option<TargetScope> | OwnsAt(h, path, scope)
      ensures Reached(h, path)
    {
      if scope.Some? {
        ScopedForIsFirst(h.scoped, scope.value);
      }
    }
  }

  lemma WithinTransitive(outer: seq<string>, inner: string, path: string)
    requires Within(outer, inner) && Within([inner], path)
    ensures Within(outer, path)
  {
    CoversIs(inner, path);
    var i :| 0 <= i < |outer| && (inner == outer[i] || outer[i] + "/" <= inner);
    assert path == outer[i] || outer[i] + "/" <= path;
  }

  lemma CoversIs(outer: string, path: string)
    ensures Within([outer], path) <==> path == outer || outer + "/" <= path
  {
    assert [outer][0] == outer;
  }

  lemma WithinOne(namespaces: seq<string>, path: string)
    ensures Within(namespaces, path) <==> exists i :: 0 <= i < |namespaces| && Within([namespaces[i]], path)
  {
    forall i | 0 <= i < |namespaces|
      ensures Within([namespaces[i]], path) <==> path == namespaces[i] || namespaces[i] + "/" <= path
    {
      CoversIs(namespaces[i], path);
    }
  }

  /** Each namespace of a hidden profile lies at or beneath one that a caller can reach. */
  predicate HiddenIsCovered(h: Harness) {
    forall i, n :: 0 <= i < |h.scoped| && Hidden(h, i) && n in h.scoped[i].namespaces ==> Reached(h, n)
  }

  lemma ReachedBeneath(h: Harness, namespace: string, path: string)
    requires Reached(h, namespace) && Within([namespace], path)
    ensures Reached(h, path)
  {
    hide Within, Hidden;
    if Within(h.namespaces, namespace) {
      WithinTransitive(h.namespaces, namespace, path);
    } else {
      var i :| 0 <= i < |h.scoped| && !Hidden(h, i) && Within(h.scoped[i].namespaces, namespace);
      WithinTransitive(h.scoped[i].namespaces, namespace, path);
    }
  }

  lemma HiddenReaches(h: Harness, i: nat, path: string)
    requires HiddenIsCovered(h) && i < |h.scoped| && Hidden(h, i) && Within(h.scoped[i].namespaces, path)
    ensures Reached(h, path)
  {
    hide Within, Hidden, Reached;
    WithinOne(h.scoped[i].namespaces, path);
    var k :| 0 <= k < |h.scoped[i].namespaces| && Within([h.scoped[i].namespaces[k]], path);
    var namespace := h.scoped[i].namespaces[k];
    assert namespace in h.scoped[i].namespaces;
    ReachedBeneath(h, namespace, path);
  }

  /**
   A declaration table owns the same paths anywhere as at some scope, for every
   path, exactly when its hidden profiles add no namespace of their own.
  */
  lemma AnywhereIsSomewhereIff(h: Harness)
    ensures (forall path :: OwnsAnywhere(h, path) <==> OwnsSomewhere(h, path)) <==> HiddenIsCovered(h)
  {
    hide Within, Hidden, OwnsSomewhere, Reached;
    forall path
      ensures OwnsSomewhere(h, path) <==> Reached(h, path)
    {
      SomewhereIsReached(h, path);
    }
    if HiddenIsCovered(h) {
      forall path
        ensures OwnsAnywhere(h, path) <==> Reached(h, path)
      {
        AnywhereOf(h, path);
      }
    } else {
      var i, n :| 0 <= i < |h.scoped| && Hidden(h, i) && n in h.scoped[i].namespaces && !Reached(h, n);
      OwnsItself(h.scoped[i].namespaces, n);
      assert OwnsAnywhere(h, n) && !OwnsSomewhere(h, n);
    }
  }

  lemma AnywhereOf(h: Harness, path: string)
    requires HiddenIsCovered(h)
    ensures OwnsAnywhere(h, path) <==> Reached(h, path)
  {
    hide Within, Hidden, HiddenIsCovered;
    if i :| 0 <= i < |h.scoped| && Within(h.scoped[i].namespaces, path) {
      if Hidden(h, i) {
        HiddenReaches(h, i, path);
      }
    }
  }

  lemma OwnsItself(namespaces: seq<string>, n: string)
    requires n in namespaces
    ensures Within(namespaces, n)
  {
  }

  /** No two profiles share a scope, so none is hidden. */
  lemma DistinctScopesAgree(h: Harness, path: string)
    requires forall i, j :: 0 <= i < j < |h.scoped| ==> h.scoped[i].scope != h.scoped[j].scope
    ensures OwnsAnywhere(h, path) <==> OwnsSomewhere(h, path)
  {
    hide Within, OwnsSomewhere;
    AnywhereIsSomewhereIff(h);
  }

  /** A table with a second profile for one scope: `b` is owned anywhere and at no scope. */
  lemma HiddenProfileCounterexample()
    ensures var h := Harness([], [Profile(Project, ["a"]), Profile(Project, ["b"])]);
            OwnsAnywhere(h, "b") && !OwnsSomewhere(h, "b")
  {
    var h := Harness([], [Profile(Project, ["a"]), Profile(Project, ["b"])]);
    assert h.scoped[0].scope == h.scoped[1].scope;
    assert h.scoped[1].namespaces == ["b"] && h.scoped[0].namespaces == ["a"];
    OwnsItself(h.scoped[1].namespaces, "b");
    CoversIs("a", "b");
    SomewhereIsReached(h, "b");
  }
}
