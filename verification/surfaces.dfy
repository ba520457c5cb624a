/**
 The declaration checkers of crates/harness-runtime/src/surfaces.rs: loops that
 append to what was found, against what they are silent about.
*/
module Surfaces {
  import opened Wrappers
  import opened Segments
  import opened Containment

  // ----- names a case-insensitive system would merge -----

  datatype Clash = Clash(name: string, other: string)

  /** Two different names among the first `n` that fold alike. */
  ghost predicate FoldTogether(owned: seq<string>, n: nat, fold: string -> string)
    requires n <= |owned|
  {
    exists i, j :: 0 <= i < j < n && owned[i] != owned[j] && fold(owned[i]) == fold(owned[j])
  }

  /** The latest name of each fold among the first `n`. */
  ghost predicate Latest(folded: map<string, string>, owned: seq<string>, n: nat, fold: string -> string)
    requires n <= |owned|
  {
    && (forall i :: 0 <= i < n ==> fold(owned[i]) in folded)
    && (forall key :: key in folded ==> exists i :: 0 <= i < n && owned[i] == folded[key] && fold(owned[i]) == key)
  }

  /**
   One report for each name whose fold was last seen in another spelling. The map
   remembers only the latest spelling, and still a report is made exactly when two
   names fold alike.
  */
  method OwnedPathsFoldTogether(owned: seq<string>, fold: string -> string) returns (found: seq<Clash>)
    ensures found != [] <==> FoldTogether(owned, |owned|, fold)
    ensures forall c :: c in found ==>
              c.name in owned && c.other in owned && c.name != c.other && fold(c.name) == fold(c.other)
  {
    found := [];
    var folded: map<string, string> := map[];
    for n := 0 to |owned|
      invariant Latest(folded, owned, n, fold)
      invariant found == [] ==> forall i :: 0 <= i < n ==> folded[fold(owned[i])] == owned[i]
      invariant found != [] ==> FoldTogether(owned, n, fold)
      invariant forall c :: c in found ==>
                c.name in owned && c.other in owned && c.name != c.other && fold(c.name) == fold(c.other)
    {
      var name := owned[n];
      var key := fold(name);
      if key in folded && folded[key] != name {
        var i :| 0 <= i < n && owned[i] == folded[key] && fold(owned[i]) == key;
        found := found + [Clash(name, folded[key])];
      }
      folded := folded[key := name];
    }
  }

  // ----- declaration against rows -----

  datatype Owned = Owned(path: string, kinds: seq<string>)

  datatype Finding =
    | NotInBaseline(namespace: string)
    | NotDeclared(path: string)
    | RoutedAgain(kind: string, path: string)
    | NotRouted(kind: string)
    | KindNotDeclared(kind: string)

  predicate HasRow(rows: seq<Owned>, path: string) {
    exists i :: 0 <= i < |rows| && rows[i].path == path
  }

  /** Every kind the rows route, row by row. */
  function Routed(rows: seq<Owned>): seq<string>
    decreases |rows|
  {
    if rows == [] then [] else Routed(rows[..|rows| - 1]) + rows[|rows| - 1].kinds
  }

  predicate Distinct(kinds: seq<string>) {
    forall i, j :: 0 <= i < j < |kinds| ==> kinds[i] != kinds[j]
  }

  /** Rows and namespaces name the same paths. */
  ghost predicate PathsAgree(namespaces: seq<string>, rows: seq<Owned>) {
    && (forall i :: 0 <= i < |namespaces| ==> HasRow(rows, namespaces[i]))
    && (forall i :: 0 <= i < |rows| ==> rows[i].path in namespaces)
  }

  /** Each declared kind is routed exactly once, and nothing else is. */
  ghost predicate RoutesAgree(kinds: seq<string>, rows: seq<Owned>) {
    && (forall k :: k in kinds ==> multiset(Routed(rows))[k] == 1)
    && (forall k :: k !in kinds ==> multiset(Routed(rows))[k] == 0)
  }

  /** The row routes the kind, and `before` or an earlier kind of the row did. */
  ghost predicate RoutesAgain(row: Owned, before: seq<string>, kind: string) {
    exists k :: 0 <= k < |row.kinds| && row.kinds[k] == kind && kind in before + row.kinds[..k]
  }

  /** Some row with that path routes the kind after another place did. */
  ghost predicate RoutedTwice(rows: seq<Owned>, kind: string, path: string) {
    exists i :: 0 <= i < |rows| && rows[i].path == path && RoutesAgain(rows[i], Routed(rows[..i]), kind)
  }

  /** Exactly what is reported. */
  ghost predicate Reported(namespaces: seq<string>, kinds: seq<string>, rows: seq<Owned>, f: Finding) {
    match f
    case NotInBaseline(namespace) => namespace in namespaces && !HasRow(rows, namespace)
    case NotDeclared(path) => HasRow(rows, path) && path !in namespaces
    case RoutedAgain(kind, path) => RoutedTwice(rows, kind, path)
    case NotRouted(kind) => kind in kinds && kind !in Routed(rows)
    case KindNotDeclared(kind) => kind in Routed(rows) && kind !in kinds
  }

  method ComparePaths(namespaces: seq<string>, rows: seq<Owned>) returns (found: seq<Finding>)
    ensures forall f :: f in found <==>
              || (f.NotInBaseline? && f.namespace in namespaces && !HasRow(rows, f.namespace))
              || (f.NotDeclared? && HasRow(rows, f.path) && f.path !in namespaces)
  {
    found := [];
    for i := 0 to |namespaces|
      invariant forall f :: f in found <==>
                  f.NotInBaseline? && f.namespace in namespaces[..i] && !HasRow(rows, f.namespace)
    {
      if !HasRow(rows, namespaces[i]) {
        found := found + [NotInBaseline(namespaces[i])];
      }
    }
    for i := 0 to |rows|
      invariant forall f :: f in found <==>
                  || (f.NotInBaseline? && f.namespace in namespaces && !HasRow(rows, f.namespace))
                  || (f.NotDeclared? && HasRow(rows[..i], f.path) && f.path !in namespaces)
    {
      RowAdds(rows, i);
      if rows[i].path !in namespaces {
        found := found + [NotDeclared(rows[i].path)];
      }
    }
    assert rows[..|rows|] == rows;
  }

  lemma RowAdds(rows: seq<Owned>, i: nat)
    requires i < |rows|
    ensures forall p :: HasRow(rows[..i + 1], p) <==> HasRow(rows[..i], p) || p == rows[i].path
  {
    forall p
      ensures HasRow(rows[..i + 1], p) <==> HasRow(rows[..i], p) || p == rows[i].path
    {
      if HasRow(rows[..i], p) {
        var k :| 0 <= k < i && rows[..i][k].path == p;
        assert rows[..i + 1][k].path == p;
      }
      assert rows[..i + 1][i] == rows[i];
      if HasRow(rows[..i + 1], p) {
        var k :| 0 <= k < i + 1 && rows[..i + 1][k].path == p;
        assert k < i ==> rows[..i][k].path == p;
      }
    }
  }

  /** The kinds of one row join those routed so far; each one routed before is reported. */
  method RouteRow(row: Owned, before: seq<string>) returns (routed: seq<string>, found: seq<Finding>)
    ensures routed == before + row.kinds
    ensures forall f :: f in found <==> f.RoutedAgain? && f.path == row.path && RoutesAgain(row, before, f.kind)
    ensures Distinct(before) ==> (found == [] <==> Distinct(routed))
  {
    routed := before;
    found := [];
    for i := 0 to |row.kinds|
      invariant routed == before + row.kinds[..i]
      invariant forall f :: f in found <==>
                  && f.RoutedAgain? && f.path == row.path
                  && exists k :: 0 <= k < i && row.kinds[k] == f.kind && f.kind in before + row.kinds[..k]
      invariant Distinct(before) ==> (found == [] <==> Distinct(routed))
    {
      DistinctGrows(routed, row.kinds[i]);
      if row.kinds[i] in routed {
        found := found + [RoutedAgain(row.kinds[i], row.path)];
      }
      routed := routed + [row.kinds[i]];
    }
    assert row.kinds[..|row.kinds|] == row.kinds;
  }

  lemma DistinctGrows(kinds: seq<string>, k: string)
    ensures Distinct(kinds + [k]) <==> Distinct(kinds) && k !in kinds
  {
    if Distinct(kinds + [k]) {
      var more := kinds + [k];
      assert forall i :: 0 <= i < |kinds| ==> more[i] == kinds[i];
      assert more[|kinds|] == k;
      forall i, j | 0 <= i < j < |kinds|
        ensures kinds[i] != kinds[j]
      {
        assert more[i] != more[j];
      }
    }
  }

  lemma DistinctParts(a: seq<string>, b: seq<string>)
    requires Distinct(a + b)
    ensures Distinct(a)
  {
    forall i, j | 0 <= i < j < |a|
      ensures a[i] != a[j]
    {
      assert (a + b)[i] == a[i] && (a + b)[j] == a[j];
    }
  }

  method RouteRows(rows: seq<Owned>) returns (routed: seq<string>, found: seq<Finding>)
    ensures routed == Routed(rows)
    ensures forall f :: f in found <==> f.RoutedAgain? && RoutedTwice(rows, f.kind, f.path)
    ensures found == [] <==> Distinct(routed)
  {
    hide Distinct, RoutesAgain;
    routed := [];
    found := [];
    DistinctNone();
    for i := 0 to |rows|
      invariant routed == Routed(rows[..i])
      invariant forall f :: f in found <==>
                  && f.RoutedAgain?
                  && exists k :: 0 <= k < i && rows[k].path == f.path && RoutesAgain(rows[k], Routed(rows[..k]), f.kind)
      invariant found == [] <==> Distinct(routed)
    {
      assert rows[..i + 1][..i] == rows[..i];
      ghost var before := routed;
      var again: seq<Finding>;
      routed, again := RouteRow(rows[i], routed);
      if Distinct(routed) {
        DistinctParts(before, rows[i].kinds);
      }
      found := found + again;
    }
    assert rows[..|rows|] == rows;
  }

  lemma DistinctNone()
    ensures Distinct([])
  {
  }

  method CompareKinds(kinds: seq<string>, routed: seq<string>) returns (found: seq<Finding>)
    ensures forall f :: f in found <==>
              || (f.NotRouted? && f.kind in kinds && f.kind !in routed)
              || (f.KindNotDeclared? && f.kind in routed && f.kind !in kinds)
  {
    found := [];
    for i := 0 to |kinds|
      invariant forall f :: f in found <==> f.NotRouted? && f.kind in kinds[..i] && f.kind !in routed
    {
      if kinds[i] !in routed {
        found := found + [NotRouted(kinds[i])];
      }
    }
    for i := 0 to |routed|
      invariant forall f :: f in found <==>
                  || (f.NotRouted? && f.kind in kinds && f.kind !in routed)
                  || (f.KindNotDeclared? && f.kind in routed[..i] && f.kind !in kinds)
    {
      if routed[i] !in kinds {
        found := found + [KindNotDeclared(routed[i])];
      }
    }
  }

  /** Counting a kind of a list without repeats. */
  lemma {:induction false} DistinctIff(kinds: seq<string>)
    ensures Distinct(kinds) <==> forall k :: k in kinds ==> multiset(kinds)[k] == 1
    decreases |kinds|
  {
    if kinds != [] {
      var n := |kinds| - 1;
      var rest, last := kinds[..n], kinds[n];
      assert kinds == rest + [last];
      DistinctIff(rest);
      DistinctGrows(rest, last);
      assert multiset(kinds) == multiset(rest) + multiset{last};
      if Distinct(kinds) {
        forall k | k in kinds
          ensures multiset(kinds)[k] == 1
        {
          assert k == last || k in rest;
          assert k !in rest ==> multiset(rest)[k] == 0;
        }
      }
      if forall k :: k in kinds ==> multiset(kinds)[k] == 1 {
        assert last in kinds && multiset(kinds)[last] == multiset(rest)[last] + 1;
        forall k | k in rest
          ensures multiset(rest)[k] == 1
        {
          assert k in kinds && k in multiset(rest);
        }
      }
    }
  }

  lemma RoutesIff(kinds: seq<string>, rows: seq<Owned>)
    ensures RoutesAgree(kinds, rows)
       <==> Distinct(Routed(rows)) && (forall k :: k in kinds <==> k in Routed(rows))
  {
    hide Distinct, Routed;
    var routed := Routed(rows);
    DistinctIff(routed);
    forall k
      ensures k in routed <==> multiset(routed)[k] > 0
    {
      assert k in routed <==> k in multiset(routed);
    }
  }

  /** The declaration against the rows: what is reported, and that it is nothing exactly when paths and routes agree. */
  method AgainstDeclaration(namespaces: seq<string>, kinds: seq<string>, rows: seq<Owned>, before: seq<Finding>)
    returns (found: seq<Finding>)
    ensures before <= found
    ensures forall f :: f in found[|before|..] <==> Reported(namespaces, kinds, rows, f)
    ensures found == before <==> PathsAgree(namespaces, rows) && RoutesAgree(kinds, rows)
  {
    hide Distinct, Routed, RoutesAgree, HasRow, RoutedTwice;
    var paths := ComparePaths(namespaces, rows);
    PathsIff(namespaces, rows, paths);
    var routed, again := RouteRows(rows);
    var unrouted := CompareKinds(kinds, routed);
    KindsIff(kinds, routed, unrouted);
    RoutesIff(kinds, rows);
    found := before + paths + again + unrouted;
    assert found[|before|..] == paths + again + unrouted;
  }

  lemma PathsIff(namespaces: seq<string>, rows: seq<Owned>, found: seq<Finding>)
    requires forall f :: f in found <==>
              || (f.NotInBaseline? && f.namespace in namespaces && !HasRow(rows, f.namespace))
              || (f.NotDeclared? && HasRow(rows, f.path) && f.path !in namespaces)
    ensures found == [] <==> PathsAgree(namespaces, rows)
  {
    if found != [] {
      assert found[0] in found;
    }
    if !PathsAgree(namespaces, rows) {
      if i :| 0 <= i < |namespaces| && !HasRow(rows, namespaces[i]) {
        assert NotInBaseline(namespaces[i]) in found;
      } else {
        var i :| 0 <= i < |rows| && rows[i].path !in namespaces;
        assert HasRow(rows, rows[i].path);
        assert NotDeclared(rows[i].path) in found;
      }
    }
  }

  lemma KindsIff(kinds: seq<string>, routed: seq<string>, found: seq<Finding>)
    requires forall f :: f in found <==>
              || (f.NotRouted? && f.kind in kinds && f.kind !in routed)
              || (f.KindNotDeclared? && f.kind in routed && f.kind !in kinds)
    ensures found == [] <==> forall k :: k in kinds <==> k in routed
  {
    if found != [] {
      assert found[0] in found;
    }
    if k :| (k in kinds) != (k in routed) {
      assert (if k in kinds then NotRouted(k) else KindNotDeclared(k)) in found;
    }
  }

  // ----- the row a shipped file lands on -----

  /** The longest row path that covers a file. */
  method LongestOwner(rows: seq<string>, file: string) returns (owner: Option<string>)
    ensures owner.None? <==> forall i :: 0 <= i < |rows| ==> !Within([rows[i]], file)
    ensures owner.Some? ==> owner.value in rows && Within([owner.value], file)
    ensures owner.Some? ==>
              forall i :: 0 <= i < |rows| && Within([rows[i]], file) ==>
                Split(rows[i], {'/'}) <= Split(owner.value, {'/'})
  {
    hide Split, Within;
    owner := None;
    for i := 0 to |rows|
      invariant owner.None? <==> forall j :: 0 <= j < i ==> !Within([rows[j]], file)
      invariant owner.Some? ==> owner.value in rows && Within([owner.value], file)
      invariant owner.Some? ==> forall j :: 0 <= j < i && Within([rows[j]], file) ==> |rows[j]| <= |owner.value|
    {
      if Within([rows[i]], file) && (owner.None? || |rows[i]| > |owner.value|) {
        owner := Some(rows[i]);
      }
    }
    if owner.Some? {
      forall i | 0 <= i < |rows| && Within([rows[i]], file)
        ensures Split(rows[i], {'/'}) <= Split(owner.value, {'/'})
      {
        LongerCoversDeeper(rows[i], owner.value, file);
      }
    }
  }

  /** Of two paths that cover one file, the longer lies at or beneath the shorter. */
  lemma LongerCoversDeeper(a: string, b: string, file: string)
    requires Within([a], file) && Within([b], file) && |a| <= |b|
    ensures Split(a, {'/'}) <= Split(b, {'/'})
  {
    hide Split;
    CoversIs(a, file);
    CoversIs(b, file);
    PiecesBeginIff(a, '/', b);
    assert a == file[..|a|] && b == file[..|b|];
    if |a| < |b| {
      assert file[|a|] == '/';
      assert b[..|a| + 1] == a + "/";
    }
  }
}
