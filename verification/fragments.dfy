/**
 Ordered fragments in a text, as the nested `says` of scripts/evidence.py finds
 them: greedily, each after the end of the one before.
*/
module Fragments {
  import opened Text

  const THEN := " THEN "

  /** The pieces of a marker between separators, cut at the first occurrence each time. */
  function SplitOn(marker: string, sep: string): (pieces: seq<string>)
    requires sep != ""
    ensures pieces != []
    decreases |marker|
  {
    match Find(marker, sep)
    case None => [marker]
    case Some(i) => [marker[..i]] + SplitOn(marker[i + |sep|..], sep)
  }

  function JoinWith(pieces: seq<string>, sep: string): string
    requires pieces != []
    decreases |pieces|
  {
    if |pieces| == 1 then pieces[0] else pieces[0] + sep + JoinWith(pieces[1..], sep)
  }

  lemma OccursInWhole(head: string, tail: string, pattern: string)
    ensures forall k :: At(head, pattern, k) ==> At(head + tail, pattern, k)
  {
  }

  /** A marker is its fragments joined again, and no fragment holds the separator. */
  lemma {:induction false} SplitRejoins(marker: string, sep: string)
    requires sep != ""
    ensures JoinWith(SplitOn(marker, sep), sep) == marker
    ensures forall p :: p in SplitOn(marker, sep) ==> !Contains(p, sep)
    decreases |marker|
  {
    var i := Find(marker, sep);
    if i.Some? {
      var rest := marker[i.value + |sep|..];
      SplitRejoins(rest, sep);
      assert ([marker[..i.value]] + SplitOn(rest, sep))[1..] == SplitOn(rest, sep);
      assert marker[i.value..i.value + |sep|] == sep;
      assert marker == marker[..i.value] + sep + rest;
      OccursInWhole(marker[..i.value], sep + rest, sep);
      assert marker[..i.value] + (sep + rest) == marker;
    }
  }

  /** Places for the fragments, in order and without overlap, from `at` on. */
  ghost predicate Placed(text: string, fragments: seq<string>, at: nat, places: seq<nat>)
    decreases |fragments|
  {
    if fragments == [] then places == []
    else
      places != [] && at <= places[0] && At(text, fragments[0], places[0])
      && Placed(text, fragments[1..], places[0] + |fragments[0]|, places[1..])
  }

  ghost predicate InOrder(text: string, fragments: seq<string>, at: nat) {
    exists places :: Placed(text, fragments, at, places)
  }

  /** Places that serve from one start serve from any earlier one. */
  lemma PlacedEarlier(text: string, fragments: seq<string>, at: nat, earlier: nat, places: seq<nat>)
    requires Placed(text, fragments, at, places) && earlier <= at
    ensures Placed(text, fragments, earlier, places)
  {
  }

  /** Taking the first occurrence loses nothing: the rest can be placed after it if it can be placed at all. */
  lemma FirstIsEnough(text: string, fragments: seq<string>, at: nat)
    requires fragments != []
    ensures InOrder(text, fragments, at)
       <==> var found := FindFrom(text, fragments[0], at);
            found.Some? && InOrder(text, fragments[1..], found.value + |fragments[0]|)
  {
    hide At;
    var found := FindFrom(text, fragments[0], at);
    if InOrder(text, fragments, at) {
      var places :| Placed(text, fragments, at, places);
      assert At(text, fragments[0], places[0]);
      PlacedEarlier(text, fragments[1..], places[0] + |fragments[0]|, found.value + |fragments[0]|, places[1..]);
    }
    if found.Some? && InOrder(text, fragments[1..], found.value + |fragments[0]|) {
      var places :| Placed(text, fragments[1..], found.value + |fragments[0]|, places);
      assert ([found.value] + places)[1..] == places;
      assert Placed(text, fragments, at, [found.value] + places);
    }
  }

  /** Whether the text carries the marker's fragments in order. */
  method Says(text: string, marker: string) returns (yes: bool)
    ensures yes <==> InOrder(text, SplitOn(marker, THEN), 0)
  {
    hide InOrder, SplitOn;
    var fragments := SplitOn(marker, THEN);
    var at: nat := 0;
    for i := 0 to |fragments|
      invariant InOrder(text, fragments, 0) <==> InOrder(text, fragments[i..], at)
    {
      var fragment := fragments[i];
      assert fragments[i..][0] == fragment && fragments[i..][1..] == fragments[i + 1..];
      FirstIsEnough(text, fragments[i..], at);
      var found := FindFrom(text, fragment, at);
      if found.None? {
        return false;
      }
      at := found.value + |fragment|;
    }
    assert fragments[|fragments|..] == [];
    NothingIsInOrder(text, at);
    yes := true;
  }

  lemma NothingIsInOrder(text: string, at: nat)
    ensures InOrder(text, [], at)
  {
    assert Placed(text, [], at, []);
  }
}
