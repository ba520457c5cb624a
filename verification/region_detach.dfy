/** Detach, withdraw and replacement: how they interact with the frontmatter. */
module RegionDetach {
  import opened Wrappers
  import opened Text
  import opened InstructionRegion
  import opened RegionParts
  import opened RegionLaws

  // ----- the owned prefix stays before the region -----

  lemma BreakEnds(text: string)
    requires LineBreak(text) > 0
    ensures text[LineBreak(text) - 1] == '\n'
  {
  }

  lemma FenceEndIsLineEnd(text: string, start: nat)
    requires IsFence(text, start)
    ensures FenceEnd(text, start) >= start + 4 && text[FenceEnd(text, start) - 1] == '\n'
  {
    var first := text[start + 3..];
    BreakEnds(first);
    var end := start + 3 + LineBreak(first);
    if LineBreak(text[end..]) > 0 {
      BreakEnds(text[end..]);
    }
  }

  lemma OwnedShape(text: string)
    requires OwnedPrefixOf(text) != ""
    ensures BodyAt(text).Some? && ClosingFence(text, BodyAt(text).value).Some?
    ensures var start := ClosingFence(text, BodyAt(text).value).value;
            IsFence(text, start) && OwnedPrefixOf(text) == text[..FenceEnd(text, start)]
    ensures EndsWithNewline(OwnedPrefixOf(text)) && |OwnedPrefixOf(text)| >= 8
  {
    hide Extract, FindFrom, IsFence;
    var start := ClosingFence(text, BodyAt(text).value).value;
    FenceEndIsLineEnd(text, start);
  }

  lemma OwnedPrecedesMarker(text: string)
    requires OwnedPrefixOf(text) != ""
    ensures var rest := text[|OwnedPrefixOf(text)|..]; Extract(rest).Some? || Contains(rest, BEGIN)
  {
    hide Extract, FindFrom, IsFence, ClosingFence;
  }

  /** On well-formed text the frontmatter ends at or before the begin marker. */
  lemma OwnedBeforeRegion(text: string)
    requires HasRegion(text)
    ensures |OwnedPrefixOf(text)| <= |BeforeRegion(text)|
    ensures OwnedPrefixOf(text) <= BeforeRegion(text)
    ensures OwnedPrefixOf(text) != "" ==> EndsWithNewline(OwnedPrefixOf(text))
  {
    BeforeLength(text);
    var owned, before := OwnedPrefixOf(text), BeforeRegion(text);
    hide OwnedPrefixOf, MarkersWellFormed, Find, Extract, BodyAt, FenceEnd, BeforeRegion;
    if owned != "" {
      OwnedShape(text);
      OwnedPrecedesMarker(text);
      BeginBehind(text, |owned|);
      assert owned == text[..|owned|] && before == text[..|before|];
      assert text[..|before|][..|owned|] == text[..|owned|];
    }
  }

  lemma BeforeLength(text: string)
    requires HasRegion(text)
    ensures Find(text, BEGIN).Some? && Find(text, BEGIN).value <= |text|
    ensures BeforeRegion(text) == text[..Find(text, BEGIN).value]
  {
  }

  lemma BeginBehind(text: string, end: nat)
    requires HasRegion(text) && end <= |text|
    requires Extract(text[end..]).Some? || Contains(text[end..], BEGIN)
    ensures Find(text, BEGIN).Some? && end <= Find(text, BEGIN).value
  {
    var found := Find(text[end..], BEGIN);
    assert found.Some?;
    FirstOccurrence(text[end..], BEGIN);
    AtSuffix(text, BEGIN, end, found.value);
    WellFormedIff(text);
    FindNone(text, BEGIN);
    var b: nat, e: nat :| Framed(text, b, e);
    FramedFinds(text, b, e);
  }

  // ----- detach -----

  /** Two unmarked texts joined can show at most one marker, at the seam. */
  lemma JoinedHasNoRegion(a: string, b: string)
    requires Unmarked(a) && Unmarked(b)
    ensures Extract(a + b) == None
  {
    var text := a + b;
    var begin, end := Find(text, BEGIN), Find(text, END);
    if begin.Some? && end.Some? {
      FirstOccurrence(text, BEGIN);
      FirstOccurrence(text, END);
      hide FindFrom, At;
      MarkersAre();
      Crosses(a, b, BEGIN, begin.value);
      Crosses(a, b, END, end.value);
      NoOverlap(text, BEGIN, END, begin.value, end.value);
      NoOverlap(text, END, BEGIN, end.value, begin.value);
      MarkerShape(BEGIN);
      assert false;
    }
  }

  lemma Crosses(a: string, b: string, m: string, i: nat)
    requires Unmarked(a) && Unmarked(b) && Marker(m) && At(a + b, m, i)
    ensures i < |a| < i + |m|
  {
    hide At;
    if i + |m| <= |a| {
      AtLeft(a, b, m, i);
    } else if |a| <= i {
      AtRight(a, b, m, i - |a|);
    }
  }

  lemma DetachText(text: string)
    requires HasRegion(text)
    ensures |OwnedPrefixOf(text)| <= |BeforeRegion(text)|
    ensures RemoveRegion(text) == Detached(BeforeRegion(text)[|OwnedPrefixOf(text)|..] + After(text))
  {
    hide OwnedPrefixOf, MarkersWellFormed, Extract, Find;
    OwnedBeforeRegion(text);
    BeforeLength(text);
    SliceOfPrefix(text, |OwnedPrefixOf(text)|, Find(text, BEGIN).value);
  }

  lemma SliceOfPrefix(text: string, from: nat, upto: nat)
    requires from <= upto <= |text|
    ensures text[..upto][from..] == text[from..upto]
  {
  }

  /**
   Detaching never slices out of bounds on well-formed text, returns exactly the
   bytes outside the attachment, and cannot be repeated: even when the seam joins
   two marker fragments, no second region appears.
  */
  lemma DetachOnce(text: string)
    requires MarkersWellFormed(text)
    ensures Extract(text).None? ==> RemoveRegion(text) == Absent
    ensures Extract(text).Some? ==>
              |OwnedPrefixOf(text)| <= |BeforeRegion(text)|
              && RemoveRegion(text) == Detached(BeforeRegion(text)[|OwnedPrefixOf(text)|..] + After(text))
              && RemoveRegion(RemoveRegion(text).text) == Absent
  {
    if Extract(text).Some? {
      DetachText(text);
      Around(text);
      var before, owned := BeforeRegion(text), |OwnedPrefixOf(text)|;
      hide OwnedPrefixOf, MarkersWellFormed, Extract, IsRegion, BeforeRegion, After, Find, RemoveRegion, Unmarked;
      RepeatIsAbsent(before, owned, After(text));
    }
  }

  lemma RepeatIsAbsent(before: string, owned: nat, after: string)
    requires Unmarked(before) && Unmarked(after) && owned <= |before|
    ensures Unmarked(before[owned..]) && RemoveRegion(before[owned..] + after) == Absent
  {
    UnmarkedPart(before, owned, |before|);
    assert before[owned..|before|] == before[owned..];
    JoinedHasNoRegion(before[owned..], after);
  }

  /** What a detach joins: the text before the region behind its frontmatter, and the text after it. */
  function Kept(text: string): string
    requires HasRegion(text)
  {
    BeforeRegion(text)[|Frontmatter(BeforeRegion(text))|..]
  }

  /** A detach leaves well-formed markers exactly when no marker forms across its seam. */
  lemma DetachWellFormedIff(text: string)
    requires HasRegion(text)
    ensures RemoveRegion(text) == Detached(Kept(text) + After(text))
    ensures MarkersWellFormed(RemoveRegion(text).text) <==> !Straddled(Kept(text), After(text))
    ensures Extract(RemoveRegion(text).text) == None
  {
    hide OwnedPrefixOf, MarkersWellFormed, Extract, IsRegion, BeforeRegion, After, Find, RemoveRegion, Unmarked,
         Frontmatter, Closed, Seam;
    DetachText(text);
    OwnedOf(text);
    Around(text);
    RepeatIsAbsent(BeforeRegion(text), |Frontmatter(BeforeRegion(text))|, After(text));
    JoinedHasNoRegion(Kept(text), After(text));
    UnmarkedIff(Kept(text) + After(text));
    UnmarkedJoinIff(Kept(text), After(text));
    SeamIff(Kept(text), After(text));
  }

  /** Some marker's beginning ends the first text, and the rest of that marker opens the second. */
  ghost predicate Straddled(a: string, b: string) {
    exists m, k :: Marker(m) && 0 < k < |m| && EndsWith(a, m[..k]) && StartsWith(b, m[k..])
  }

  predicate EndsWith(text: string, suffix: string) {
    |suffix| <= |text| && text[|text| - |suffix|..] == suffix
  }

  /**
   No marker lies across a joint exactly when none is cut by it into the end of one
   text and the start of the other.
  */
  lemma SeamIff(a: string, b: string)
    ensures Seam(a, b) <==> !Straddled(a, b)
  {
    hide Marker, EndsWith, StartsWith, At;
    forall m, i: nat | Marker(m) && i < |a| < i + |m|
      ensures At(a + b, m, i) <==> EndsWith(a, m[..|a| - i]) && StartsWith(b, m[|a| - i..])
    {
      CutAt(a, b, m, i);
    }
    if Straddled(a, b) {
      var m, k :| Marker(m) && 0 < k < |m| && EndsWith(a, m[..k]) && StartsWith(b, m[k..]);
      SuffixFits(a, m[..k]);
      var i := |a| - k;
      assert m[..|a| - i] == m[..k] && m[|a| - i..] == m[k..];
      assert At(a + b, m, i);
    }
  }

  lemma SuffixFits(text: string, suffix: string)
    requires EndsWith(text, suffix)
    ensures |suffix| <= |text|
  {
  }

  lemma CutAt(a: string, b: string, m: string, i: nat)
    requires i < |a| < i + |m|
    ensures At(a + b, m, i) <==> EndsWith(a, m[..|a| - i]) && StartsWith(b, m[|a| - i..])
  {
    var k := |a| - i;
    if At(a + b, m, i) {
      assert forall j :: 0 <= j < k ==> a[i + j] == (a + b)[i + j] == m[j];
      assert a[i..] == m[..k];
      assert forall j :: 0 <= j < |m| - k ==> b[j] == (a + b)[i + (k + j)] == m[k + j];
      assert b[..|m| - k] == m[k..];
    }
    if EndsWith(a, m[..k]) && StartsWith(b, m[k..]) {
      forall j | 0 <= j < |m|
        ensures (a + b)[i + j] == m[j]
      {
        if j < k {
          assert a[i..][j] == m[..k][j];
        } else {
          assert b[j - k] == m[k..][j - k];
        }
      }
    }
  }

  lemma UnmarkedJoinIff(a: string, b: string)
    requires Unmarked(a) && Unmarked(b)
    ensures Unmarked(a + b) <==> Seam(a, b)
  {
    MarkersAre();
    hide At;
    if Seam(a, b) {
      hide Unmarked, Seam;
      UnmarkedJoin(a, b);
    }
  }

  /** A region set inside a marker: detaching it leaves the marker whole and alone. */
  lemma OrphanCounterexample()
    ensures var text := ":::begin-" + (BEGIN + END) + "ai-stp";
            && HasRegion(text) && RemoveRegion(text) == Detached(BEGIN) && !MarkersWellFormed(RemoveRegion(text).text)
  {
    hide *;
    SmallRegion();
    FragmentsUnmarked();
    FragmentsPlain();
    FragmentsMeet();
    OrphanBetween(":::begin-", BEGIN + END, "ai-stp");
  }

  /** A region between two texts that together straddle a marker. */
  lemma OrphanBetween(before: string, region: string, after: string)
    requires Unmarked(before) && IsRegion(region) && Unmarked(after)
    requires Frontmatter(before) == "" && LineBreak(after) == 0 && Straddled(before, after)
    ensures var text := before + region + after;
            && HasRegion(text) && RemoveRegion(text) == Detached(before + after)
            && !MarkersWellFormed(RemoveRegion(text).text)
  {
    hide MarkersWellFormed, Unmarked, IsRegion, Find, Extract, RemoveRegion, Straddled, Frontmatter, BeforeRegion,
         After;
    Between(before, region, after);
    DetachWellFormedIff(before + region + after);
  }

  lemma FragmentsUnmarked()
    ensures Unmarked(":::begin-") && Unmarked("ai-stp")
  {
    MarkerShape(BEGIN);
  }

  lemma FragmentsPlain()
    ensures Frontmatter(":::begin-") == "" && LineBreak("ai-stp") == 0
  {
    var a, b := ":::begin-", "ai-stp";
    assert a[0] == ':' && b[0] == 'a';
  }

  lemma FragmentsMeet()
    ensures Straddled(":::begin-", "ai-stp") && ":::begin-" + "ai-stp" == BEGIN
  {
    MarkersAre();
    var k := |":::begin-"|;
    assert BEGIN[..k] == ":::begin-" && BEGIN[k..] == "ai-stp";
    assert EndsWith(":::begin-", BEGIN[..k]) && StartsWith("ai-stp", BEGIN[k..]);
  }

  // ----- frontmatter depends only on the text before the region -----

  /** The frontmatter block that opens a text, with one blank line after it. */
  function Frontmatter(text: string): (block: string)
    ensures block <= text
  {
    match BodyAt(text)
    case None => ""
    case Some(bodyAt) =>
      match ClosingFence(text, bodyAt)
      case None => ""
      case Some(start) => text[..FenceEnd(text, start)]
  }

  ghost predicate Share(a: string, b: string, keep: nat) {
    keep <= |a| && keep <= |b| && forall i :: 0 <= i < keep ==> a[i] == b[i]
  }

  lemma BreakLocal(a: string, b: string, i: nat, keep: nat)
    requires Share(a, b, keep) && i <= keep && LineBreak(a[i..]) > 0 && i + LineBreak(a[i..]) <= keep
    ensures LineBreak(b[i..]) == LineBreak(a[i..])
  {
    assert a[i..][0] == a[i] && b[i..][0] == b[i];
    if LineBreak(a[i..]) == 2 {
      assert a[i..][1] == a[i + 1] && b[i..][1] == b[i + 1];
      assert b[i..][..2] == a[i..][..2];
    }
  }

  /** A fence line inside the shared part is a fence line of both texts. */
  lemma FenceLocal(a: string, b: string, i: nat, keep: nat)
    requires Share(a, b, keep) && IsFence(a, i) && i + 3 + LineBreak(a[i + 3..]) <= keep
    ensures IsFence(b, i) && LineBreak(b[i + 3..]) == LineBreak(a[i + 3..])
  {
    BreakLocal(a, b, i + 3, keep);
  }

  lemma BodyLocal(a: string, b: string, keep: nat)
    requires Share(a, b, keep) && keep >= 5
    ensures BodyAt(a) == BodyAt(b)
  {
    assert a[..4] == b[..4] && a[..5] == b[..5];
  }

  /** The first fence stays the first when only text behind it changes. */
  lemma FirstFenceLocal(a: string, b: string, from: nat, keep: nat)
    requires Share(a, b, keep) && ClosingFence(a, from).Some?
    requires var s := ClosingFence(a, from).value; s + 3 + LineBreak(a[s + 3..]) <= keep
    ensures ClosingFence(b, from) == ClosingFence(a, from)
  {
    var s := ClosingFence(a, from).value;
    FenceLocal(a, b, s, keep);
    var t := ClosingFence(b, from);
    if t.Some? && t.value < s {
      hide ClosingFence;
      FenceInsideBounds(b, t.value);
      FenceLocal(b, a, t.value, keep);
    }
  }

  lemma FenceInsideBounds(text: string, i: nat)
    requires IsFence(text, i)
    ensures i + 4 <= i + 3 + LineBreak(text[i + 3..]) <= i + 5
  {
  }

  /** The end of the fence line itself. */
  function LineEnd(text: string, start: nat): (end: nat)
    requires start + 3 <= |text|
    ensures end <= |text|
  {
    start + 3 + LineBreak(text[start + 3..])
  }

  /** A text that opens with another's frontmatter block has the same block. */
  lemma FrontmatterLocal(a: string, b: string, start: nat)
    requires BodyAt(a).Some? && ClosingFence(a, BodyAt(a).value) == Some(start)
    requires Share(a, b, FenceEnd(a, start))
    requires LineBreak(a[LineEnd(a, start)..]) == 0 ==> LineBreak(b[LineEnd(a, start)..]) == 0
    ensures Frontmatter(b) == a[..FenceEnd(a, start)] == Frontmatter(a)
  {
    var keep, end := FenceEnd(a, start), LineEnd(a, start);
    FenceInsideBounds(a, start);
    BodyLocal(a, b, keep);
    FirstFenceLocal(a, b, BodyAt(a).value, keep);
    FenceLocal(a, b, start, keep);
    if LineBreak(a[end..]) > 0 {
      BreakLocal(a, b, end, keep);
    }
    hide IsFence, ClosingFence;
    assert FenceEnd(b, start) == keep;
    assert a[..keep] == b[..keep];
  }

  /** A text followed by a marker shows the same line breaks. */
  lemma BreakOfSplit(a: string, b: string, i: nat)
    requires i <= |a| && b != "" && b[0] == ':'
    ensures (a + b)[i..] == a[i..] + b
    ensures LineBreak(a[i..]) == LineBreak((a + b)[i..])
  {
    assert (a + b)[i..] == a[i..] + b;
    if i == |a| {
      assert a[i..] + b == b;
    } else {
      assert (a[i..] + b)[0] == a[i..][0];
      if |a| - i >= 2 {
        assert (a[i..] + b)[..2] == a[i..][..2];
      } else {
        assert (a[i..] + b)[1] == ':';
      }
    }
  }

  lemma RegionOpens(region: string)
    requires IsRegion(region)
    ensures |region| > 0 && region[0] == ':' && At(region, BEGIN, 0)
  {
    var e: nat :| RegionEnd(region, e);
    assert region[0 + 0] == BEGIN[0];
  }

  lemma FrontmatterOwnedIf(text: string)
    ensures Contains(text[|Frontmatter(text)|..], BEGIN) ==> OwnedPrefixOf(text) == Frontmatter(text)
    ensures OwnedPrefixOf(text) != "" ==> OwnedPrefixOf(text) == Frontmatter(text)
  {
    hide Extract, FindFrom, ClosingFence, IsFence;
  }

  lemma FrontmatterShape(text: string)
    requires Frontmatter(text) != ""
    ensures BodyAt(text).Some? && ClosingFence(text, BodyAt(text).value).Some?
    ensures Frontmatter(text) == text[..FenceEnd(text, ClosingFence(text, BodyAt(text).value).value)]
  {
  }

  /** A region behind a text changes nothing about the text's frontmatter block. */
  lemma FrontmatterThenRegion(before: string, tail: string)
    requires tail != "" && tail[0] == ':' && Frontmatter(before) != ""
    ensures Frontmatter(before + tail) == Frontmatter(before)
  {
    FrontmatterShape(before);
    var start := ClosingFence(before, BodyAt(before).value).value;
    hide Frontmatter, BodyAt, ClosingFence, IsFence;
    BreakOfSplit(before, tail, LineEnd(before, start));
    assert Share(before, before + tail, FenceEnd(before, start));
    FrontmatterLocal(before, before + tail, start);
  }

  /** The frontmatter block of the text before a region is owned. */
  lemma FrontmatterIsOwned(before: string, tail: string)
    requires tail != "" && tail[0] == ':' && At(tail, BEGIN, 0) && Frontmatter(before) != ""
    ensures OwnedPrefixOf(before + tail) == Frontmatter(before)
  {
    hide Frontmatter, OwnedPrefixOf;
    FrontmatterThenRegion(before, tail);
    FrontmatterOwnedIf(before + tail);
    var keep := |Frontmatter(before)|;
    assert (before + tail)[keep..] == before[keep..] + tail;
    AtRight(before[keep..], tail, BEGIN, 0);
    FindNone((before + tail)[keep..], BEGIN);
  }

  /** An owned prefix that lies before the region is the frontmatter block of the text there. */
  lemma OwnedIsBefore(before: string, tail: string)
    requires tail != "" && tail[0] == ':'
    requires OwnedPrefixOf(before + tail) != "" && |OwnedPrefixOf(before + tail)| <= |before|
    ensures Frontmatter(before) == OwnedPrefixOf(before + tail)
  {
    var text := before + tail;
    OwnedShape(text);
    var start := ClosingFence(text, BodyAt(text).value).value;
    hide Frontmatter, BodyAt, ClosingFence, IsFence, OwnedPrefixOf;
    LineEndInside(text, start, |before|);
    BreakOfSplit(before, tail, LineEnd(text, start));
    assert Share(text, before, FenceEnd(text, start));
    FrontmatterLocal(text, before, start);
  }

  lemma LineEndInside(text: string, start: nat, bound: nat)
    requires start + 3 <= |text| && FenceEnd(text, start) <= bound
    ensures LineEnd(text, start) <= bound
  {
  }

  /** A region between unmarked texts, as the text's own parts. */
  lemma Between(before: string, region: string, after: string)
    requires Unmarked(before) && IsRegion(region) && Unmarked(after)
    ensures HasRegion(before + region + after) && BeforeRegion(before + region + after) == before
    ensures Closed(region, after) ==>
              Extract(before + region + after) == Some(region) && After(before + region + after) == after
  {
    hide MarkersWellFormed, IsRegion, Unmarked, Find, Extract, Closed;
    Compose(before, region, after);
    var text := before + region + after;
    assert text[..|before|] == before && text[|before| + |region|..] == after;
  }

  /** The owned prefix is exactly the frontmatter block of the text before the region. */
  lemma OwnedIsFrontmatter(before: string, region: string, after: string)
    requires Unmarked(before) && IsRegion(region) && Unmarked(after)
    ensures OwnedPrefixOf(before + region + after) == Frontmatter(before)
  {
    hide OwnedPrefixOf, MarkersWellFormed, Extract, Unmarked, IsRegion, Frontmatter, BeforeRegion, At, Find, Closed;
    Between(before, region, after);
    TailOpens(region, after);
    assert before + region + after == before + (region + after);
    OwnedBehind(before, region + after);
  }

  lemma TailOpens(region: string, after: string)
    requires IsRegion(region)
    ensures region + after != "" && (region + after)[0] == ':' && At(region + after, BEGIN, 0)
  {
    RegionOpens(region);
    hide IsRegion, At;
    AtLeft(region, after, BEGIN, 0);
  }

  lemma OwnedBehind(before: string, tail: string)
    requires tail != "" && tail[0] == ':' && At(tail, BEGIN, 0)
    requires HasRegion(before + tail) && BeforeRegion(before + tail) == before
    ensures OwnedPrefixOf(before + tail) == Frontmatter(before)
  {
    hide OwnedPrefixOf, MarkersWellFormed, Extract, Frontmatter, BeforeRegion, At, Find;
    OwnedBeforeRegion(before + tail);
    if Frontmatter(before) != "" {
      FrontmatterIsOwned(before, tail);
    } else if OwnedPrefixOf(before + tail) != "" {
      OwnedIsBefore(before, tail);
    }
  }

  /** The same of a text taken apart around its region. */
  lemma OwnedOf(text: string)
    requires HasRegion(text)
    ensures OwnedPrefixOf(text) == Frontmatter(BeforeRegion(text))
  {
    hide OwnedPrefixOf, MarkersWellFormed, Extract, Unmarked, IsRegion, Frontmatter, BeforeRegion, After, Closed;
    Around(text);
    OwnedIsFrontmatter(BeforeRegion(text), Extract(text).value, After(text));
  }

  /** What the first patch of an unmarked file leaves before the region and after it. */
  ghost function Ahead(existing: string, section: string): string
    requires HasRegion(section)
  {
    if existing == "" then BeforeRegion(section) else Lined(existing)
  }

  ghost function Behind(existing: string, section: string): string
    requires HasRegion(section)
  {
    if existing == "" then After(section) else ""
  }

  /** The first patch of an unmarked file, an empty one taking the section whole. */
  lemma FirstPatch(existing: string, section: string)
    requires Unmarked(existing) && HasRegion(section)
    ensures var text := Patch(existing, section).0;
            && HasRegion(text) && BeforeRegion(text) == Ahead(existing, section)
            && After(text) == Behind(existing, section)
            && Extract(text) == Extract(section)
  {
    Around(section);
    NewlineUnmarked();
    UnmarkedIff("");
    hide MarkersWellFormed, Unmarked, Extract, IsRegion, BeforeRegion, After;
    if existing != "" {
      PatchAppends(existing, section);
      LinedUnmarked(existing);
      assert Lined(existing) + Extract(section).value + "" == Lined(existing) + Extract(section).value;
      Between(Lined(existing), Extract(section).value, "");
    }
  }

  /**
   Detach undoes attach: what the first patch of an unmarked file added comes off
   again, together with the frontmatter block that is then in front of the region.
  */
  lemma DetachUndoesAttach(existing: string, section: string)
    requires Unmarked(existing) && HasRegion(section)
    ensures var ahead := Ahead(existing, section);
            RemoveRegion(Patch(existing, section).0)
            == Detached(ahead[|Frontmatter(ahead)|..] + Behind(existing, section))
  {
    hide MarkersWellFormed, Unmarked, Extract, Patch, RemoveRegion, IsRegion, Frontmatter, Ahead, Behind,
         BeforeRegion, After, OwnedPrefixOf;
    FirstPatch(existing, section);
    DetachText(Patch(existing, section).0);
    OwnedOf(Patch(existing, section).0);
  }

  /** What a detach gives back of an unmarked file: the file, its last line ended. */
  function Restored(existing: string): string {
    if existing == "" then "" else Lined(existing)
  }

  /**
   A file comes back with at most one added final line break exactly when it does
   not itself open with a complete frontmatter block; an empty file, exactly when
   the section is its region behind a frontmatter block or nothing.
  */
  lemma DetachRestoresIff(existing: string, section: string)
    requires Unmarked(existing) && HasRegion(section)
    ensures RemoveRegion(Patch(existing, section).0) == Detached(Restored(existing))
       <==> if existing == "" then Frontmatter(BeforeRegion(section)) == BeforeRegion(section) && After(section) == ""
            else Frontmatter(Lined(existing)) == ""
    ensures existing != "" && !StartsWith(existing, "---") ==> Frontmatter(Lined(existing)) == ""
  {
    hide RemoveRegion, Patch, Frontmatter, HasRegion, Unmarked, BeforeRegion, After;
    DetachUndoesAttach(existing, section);
    var ahead := Ahead(existing, section);
    var block := |Frontmatter(ahead)|;
    assert |ahead[block..]| == |ahead| - block;
    assert ahead[..block] == Frontmatter(ahead);
    if existing != "" {
      assert ahead[block..] + "" == ahead[block..];
    }
    if existing != "" && !StartsWith(existing, "---") {
      NoFrontmatter(existing);
    }
  }

  lemma NoFrontmatter(existing: string)
    requires existing != "" && !StartsWith(existing, "---")
    ensures Frontmatter(Lined(existing)) == ""
  {
    var text := Lined(existing);
    assert "---" <= text <==> StartsWith(existing, "---") by {
      if |existing| >= 3 {
        assert text[..3] == existing[..3];
      } else {
        assert text[|text| - 1] == '\n';
      }
    }
    assert "---" <= "---\n" && "---" <= "---\r\n";
    PrefixOfPrefix("---", "---\n", text);
    PrefixOfPrefix("---", "---\r\n", text);
  }

  lemma PrefixOfPrefix(a: string, b: string, text: string)
    requires a <= b
    ensures b <= text ==> a <= text
  {
  }

  // ----- withdraw after replace -----

  /** The body a replacement puts between the frontmatter and the region. */
  function Body(incoming: string): string {
    if incoming == "" then "" else Lined(incoming)
  }

  /** The frontmatter followed by the body. */
  function Preamble(existing: string, incoming: string): string {
    OwnedPrefixOf(existing) + Body(incoming)
  }

  /** The text a replacement leaves in front of the region. */
  ghost function Front(existing: string, incoming: string): string {
    if HasRegion(incoming) then BeforeRegion(incoming)
    else if StartsWith(Body(incoming), "---\n") then Body(incoming)
    else Preamble(existing, incoming)
  }

  /** And behind it. */
  ghost function Rear(incoming: string): string {
    if HasRegion(incoming) then After(incoming) else ""
  }

  lemma SpliceUnmarked(incoming: string, region: string)
    requires Unmarked(incoming)
    ensures Splice(incoming, region) == Body(incoming) + region
  {
    UnmarkedIff(incoming);
    hide MarkersWellFormed, Extract, Unmarked;
    assert "" + region == region;
  }

  lemma FenceInBody(body: string, region: string)
    requires region != "" && region[0] == ':'
    ensures StartsWith(body + region, "---\n") <==> StartsWith(body, "---\n")
  {
    var text := body + region;
    if |body| < 4 {
      assert |text| > |body| && text[|body|] == ':';
    } else {
      assert text[..4] == body[..4];
    }
  }

  lemma UnmarkedReplacement(existing: string, incoming: string)
    requires HasRegion(existing) && Unmarked(incoming)
    ensures PreserveInReplacement(existing, incoming) == Front(existing, incoming) + Extract(existing).value
  {
    UnmarkedIff(incoming);
    Around(existing);
    var region := Extract(existing).value;
    RegionOpens(region);
    SpliceUnmarked(incoming, region);
    FenceInBody(Body(incoming), region);
    hide MarkersWellFormed, Extract, Unmarked, OwnedPrefixOf, Splice, Body, Patch, StartsWith, IsRegion;
    JoinThree(OwnedPrefixOf(existing), Body(incoming), region);
  }

  lemma JoinThree(a: string, b: string, c: string)
    ensures a + (b + c) == a + b + c
    ensures a == "" ==> a + b == b
  {
  }

  lemma RegionIsItself(region: string)
    requires IsRegion(region)
    ensures HasRegion(region) && Extract(region) == Some(region)
  {
    NewlineUnmarked();
    hide MarkersWellFormed, IsRegion, Unmarked, Find, Extract;
    Between("", region, "");
    assert "" + region + "" == region;
  }

  lemma MarkedReplacement(existing: string, incoming: string)
    requires HasRegion(existing) && HasRegion(incoming)
    ensures PreserveInReplacement(existing, incoming)
         == BeforeRegion(incoming) + Extract(existing).value + After(incoming)
  {
    Around(existing);
    RegionIsItself(Extract(existing).value);
    hide MarkersWellFormed, Extract, Unmarked, OwnedPrefixOf, Splice, Patch, IsRegion, BeforeRegion, After;
    PatchIsLocal(incoming, Extract(existing).value);
  }

  lemma BodyShape(incoming: string)
    requires Unmarked(incoming)
    ensures Unmarked(Body(incoming)) && (Body(incoming) == "" || EndsWithNewline(Body(incoming)))
  {
    if incoming != "" {
      LinedUnmarked(incoming);
    }
  }

  lemma OwnedUnmarked(existing: string)
    requires HasRegion(existing)
    ensures Unmarked(OwnedPrefixOf(existing))
    ensures OwnedPrefixOf(existing) == "" || EndsWithNewline(OwnedPrefixOf(existing))
  {
    hide MarkersWellFormed, Extract, Unmarked, OwnedPrefixOf, BeforeRegion, After, Closed, IsRegion;
    var owned := OwnedPrefixOf(existing);
    OwnedBeforeRegion(existing);
    Around(existing);
    UnmarkedPart(BeforeRegion(existing), 0, |owned|);
    assert BeforeRegion(existing)[0..|owned|] == owned;
  }

  lemma PreambleShape(existing: string, incoming: string)
    requires HasRegion(existing) && Unmarked(incoming)
    ensures Unmarked(Preamble(existing, incoming))
    ensures Preamble(existing, incoming) == "" || EndsWithNewline(Preamble(existing, incoming))
  {
    hide HasRegion, Unmarked, OwnedPrefixOf, Seam, Body;
    var owned, body := OwnedPrefixOf(existing), Body(incoming);
    OwnedUnmarked(existing);
    BodyShape(incoming);
    SeamAtLineBreak(owned, body);
    UnmarkedJoin(owned, body);
    if body == "" {
      assert owned + "" == owned;
    } else {
      assert (owned + body)[|owned + body| - 1] == body[|body| - 1];
    }
  }

  /** A replacement is the region, carried over, between what the setup leaves around it. */
  lemma ReplacementIs(existing: string, incoming: string)
    requires HasRegion(existing) && MarkersWellFormed(incoming)
    ensures PreserveInReplacement(existing, incoming)
         == Front(existing, incoming) + Extract(existing).value + Rear(incoming)
    ensures Unmarked(Front(existing, incoming)) && IsRegion(Extract(existing).value) && Unmarked(Rear(incoming))
    ensures HasRegion(incoming) || Unmarked(incoming)
  {
    UnmarkedIff(incoming);
    Around(existing);
    hide MarkersWellFormed, Extract, Unmarked, OwnedPrefixOf, PreserveInReplacement, IsRegion, BeforeRegion, After,
         Body, StartsWith;
    if HasRegion(incoming) {
      Around(incoming);
      MarkedReplacement(existing, incoming);
    } else {
      NewlineUnmarked();
      BodyShape(incoming);
      PreambleShape(existing, incoming);
      UnmarkedReplacement(existing, incoming);
      var text := Front(existing, incoming) + Extract(existing).value;
      assert text + "" == text;
    }
  }

  /** What a withdraw keeps: the frontmatter in front, and the region. */
  lemma KeepIs(text: string)
    requires HasRegion(text)
    ensures KeepRegionOnWithdraw(text) == Some(Frontmatter(BeforeRegion(text)) + Extract(text).value)
  {
    hide MarkersWellFormed, Extract, Unmarked, OwnedPrefixOf, BeforeRegion, Frontmatter;
    OwnedOf(text);
    assert "" + Extract(text).value == Extract(text).value;
  }

  /** The frontmatter ends at its fence line, and the body would add a blank line to it. */
  predicate BodyExtendsFence(existing: string, incoming: string) {
    FenceLineLast(existing) && LineBreak(Body(incoming)) > 0
  }

  predicate FenceLineLast(existing: string) {
    match BodyAt(existing)
    case None => false
    case Some(bodyAt) =>
      match ClosingFence(existing, bodyAt)
      case None => false
      case Some(start) => FenceEnd(existing, start) == LineEnd(existing, start)
  }

  /** Text put behind a frontmatter block leaves the block alone, or lengthens it by a blank line. */
  lemma BlockThenBody(existing: string, body: string, start: nat)
    requires BodyAt(existing).Some? && ClosingFence(existing, BodyAt(existing).value) == Some(start)
    ensures var block := existing[..FenceEnd(existing, start)];
            |Frontmatter(block + body)| == |block| +
              (if FenceEnd(existing, start) == LineEnd(existing, start) then LineBreak(body) else 0)
    ensures var block := existing[..FenceEnd(existing, start)]; Frontmatter(block + body)[..|block|] == block
  {
    var keep, end := FenceEnd(existing, start), LineEnd(existing, start);
    var block := existing[..keep];
    var text := block + body;
    FenceInsideBounds(existing, start);
    assert Share(existing, text, keep);
    BodyLocal(existing, text, keep);
    hide BodyAt;
    FirstFenceLocal(existing, text, BodyAt(existing).value, keep);
    FenceLocal(existing, text, start, keep);
    if keep > end {
      BreakLocal(existing, text, end, keep);
    } else {
      assert text[end..] == body;
    }
    hide IsFence, ClosingFence;
    assert Frontmatter(text) == text[..FenceEnd(text, start)];
  }

  /** Owned frontmatter survives in front of a body exactly when the body adds no blank line to it. */
  lemma PreambleFrontmatter(existing: string, incoming: string)
    requires HasRegion(existing) && OwnedPrefixOf(existing) != ""
    ensures Frontmatter(Preamble(existing, incoming)) == OwnedPrefixOf(existing)
       <==> !BodyExtendsFence(existing, incoming)
  {
    var owned, body := OwnedPrefixOf(existing), Body(incoming);
    OwnedShape(existing);
    var start := ClosingFence(existing, BodyAt(existing).value).value;
    BlockThenBody(existing, body, start);
    hide MarkersWellFormed, Extract, OwnedPrefixOf, ClosingFence, BodyAt, IsFence, Frontmatter, LineBreak, Body;
    var block := Frontmatter(owned + body);
    assert |block| == |owned| ==> block == block[..|owned|];
  }

  /**
   When a setup's text leaves what a withdraw keeps alone. A text with its own
   region must carry the same frontmatter and not open onto the region; a text
   that brings frontmatter of its own, or meets a file without any, must bring
   the same; any other must add no blank line behind the fence.
  */
  ghost predicate LeavesAttachment(existing: string, incoming: string)
    requires HasRegion(existing)
  {
    if HasRegion(incoming) then
      Frontmatter(BeforeRegion(incoming)) == OwnedPrefixOf(existing) && Closed(Extract(existing).value, After(incoming))
    else if OwnedPrefixOf(existing) == "" || StartsWith(Body(incoming), "---\n") then
      Frontmatter(Body(incoming)) == OwnedPrefixOf(existing)
    else !BodyExtendsFence(existing, incoming)
  }

  lemma FrontKept(existing: string, incoming: string)
    requires HasRegion(existing) && MarkersWellFormed(incoming)
    ensures LeavesAttachment(existing, incoming)
       <==> && Frontmatter(Front(existing, incoming)) == OwnedPrefixOf(existing)
            && Closed(Extract(existing).value, Rear(incoming))
  {
    hide MarkersWellFormed, Extract, OwnedPrefixOf, Frontmatter, Body, StartsWith, BeforeRegion, After,
         BodyExtendsFence;
    if !HasRegion(incoming) {
      assert "" + Body(incoming) == Body(incoming);
      if OwnedPrefixOf(existing) != "" {
        PreambleFrontmatter(existing, incoming);
      }
    }
  }

  lemma KeepOfReplacement(existing: string, incoming: string)
    requires HasRegion(existing) && MarkersWellFormed(incoming)
    ensures var text := PreserveInReplacement(existing, incoming);
            var region, rear := Extract(existing).value, Rear(incoming);
            && HasRegion(text)
            && KeepRegionOnWithdraw(text) == Some(Frontmatter(Front(existing, incoming)) + Extract(text).value)
            && Extract(text).value == if Closed(region, rear) then region else region + rear[..LineBreak(rear)]
  {
    var text, region := PreserveInReplacement(existing, incoming), Extract(existing).value;
    hide MarkersWellFormed, Extract, Unmarked, IsRegion, OwnedPrefixOf, PreserveInReplacement, Frontmatter, Front, Rear,
         Closed, BeforeRegion, KeepRegionOnWithdraw, Find, LineBreak;
    ReplacementIs(existing, incoming);
    Compose(Front(existing, incoming), region, Rear(incoming));
    Between(Front(existing, incoming), region, Rear(incoming));
    KeepIs(text);
  }

  /** Frontmatter ends its line, so two attachments are equal only part by part. */
  lemma SameAttachment(a: string, region: string, b: string, longer: string)
    requires Unmarked(a) && Unmarked(b) && IsRegion(region) && IsRegion(longer)
    ensures a + region == b + longer <==> a == b && region == longer
  {
    if a + region == b + longer {
      NewlineUnmarked();
      hide MarkersWellFormed, Extract, Unmarked, IsRegion, Find;
      Between(a, region, "");
      Between(b, longer, "");
      assert a + region + "" == a + region && b + longer + "" == b + longer;
      assert (a + region)[|a|..] == region && (b + longer)[|b|..] == longer;
    }
  }

  lemma FrontmatterUnmarked(text: string)
    requires Unmarked(text)
    ensures Unmarked(Frontmatter(text))
  {
    hide Unmarked, Frontmatter;
    UnmarkedPart(text, 0, |Frontmatter(text)|);
    assert text[0..|Frontmatter(text)|] == Frontmatter(text);
  }

  /**
   Withdraw after replace: whichever text a setup is allowed to write in between,
   a withdraw keeps the same attachment exactly when that text leaves it alone.
  */
  lemma WithdrawIgnoresReplacementIff(existing: string, incoming: string)
    requires HasRegion(existing) && MarkersWellFormed(incoming)
    ensures KeepRegionOnWithdraw(PreserveInReplacement(existing, incoming)) == KeepRegionOnWithdraw(existing)
       <==> LeavesAttachment(existing, incoming)
  {
    var text := PreserveInReplacement(existing, incoming);
    var front, rear, region := Front(existing, incoming), Rear(incoming), Extract(existing).value;
    hide MarkersWellFormed, Unmarked, IsRegion, OwnedPrefixOf, Frontmatter, PreserveInReplacement, Find, Extract,
         BeforeRegion, After, KeepRegionOnWithdraw, LeavesAttachment, Front, Rear;
    KeepIs(existing);
    OwnedOf(existing);
    KeepOfReplacement(existing, incoming);
    FrontKept(existing, incoming);
    ReplacementIs(existing, incoming);
    Around(existing);
    Around(text);
    FrontmatterUnmarked(front);
    FrontmatterUnmarked(BeforeRegion(existing));
    SameAttachment(Frontmatter(front), Extract(text).value, Frontmatter(BeforeRegion(existing)), region);
  }

  /** A marker-free text that does not open with `---`: only a blank line behind the fence can hurt. */
  lemma PlainTextLeaves(existing: string, incoming: string)
    requires HasRegion(existing) && Unmarked(incoming) && !StartsWith(incoming, "---")
    ensures LeavesAttachment(existing, incoming)
       <==> OwnedPrefixOf(existing) == "" || !BodyExtendsFence(existing, incoming)
  {
    UnmarkedIff(incoming);
    hide MarkersWellFormed, Extract, OwnedPrefixOf, BodyExtendsFence, Unmarked;
    if incoming != "" {
      NoFrontmatter(incoming);
      NotFenced(incoming);
    }
  }

  lemma NotFenced(incoming: string)
    requires incoming != "" && !StartsWith(incoming, "---")
    ensures !StartsWith(Lined(incoming), "---\n")
  {
    var text := Lined(incoming);
    if |incoming| >= 3 {
      assert text[..3] == incoming[..3];
    } else {
      assert text[|text| - 1] == '\n';
    }
    PrefixOfPrefix("---", "---\n", text);
  }

  /** Which bodies add that blank line: those that open with a line break, and a lone carriage return. */
  lemma BodyOpensWithBreak(incoming: string)
    ensures LineBreak(Body(incoming)) > 0 <==> StartsWithBreak(incoming) || incoming == "\r"
  {
    var body := Body(incoming);
    if |incoming| >= 2 {
      assert body[..2] == incoming[..2] && body[0] == incoming[0];
    } else if |incoming| == 1 {
      assert body[0] == incoming[0];
    }
  }

  // ----- attachments and files that do not survive -----

  lemma SmallRegion()
    ensures IsRegion(BEGIN + END)
  {
    hide IsRegion;
    RegionLiteral("", "");
    assert BEGIN + "" + END + "" == BEGIN + END;
  }

  lemma SmallFence(body: string)
    requires body == "a" || body == "b"
    ensures var text := "---\n" + body + "\n---\n";
            Unmarked(text) && BodyAt(text) == Some(4) && ClosingFence(text, 4) == Some(6)
            && Frontmatter(text) == text && FenceLineLast(text)
  {
    var text := "---\n" + body + "\n---\n";
    assert |text| == 10 && text[0] == '-' && text[1] == '-' && text[2] == '-' && text[3] == '\n' && text[4] != '-';
    assert text[5] == '\n' && text[6] == '-' && text[7] == '-' && text[8] == '-' && text[9] == '\n';
    MarkerShape(BEGIN);
    MarkerShape(END);
    assert Unmarked(text);
    assert text[..4] == "---\n";
    assert text[9..] == "\n" && text[10..] == "";
    assert IsFence(text, 6) && !IsFence(text, 4) && !IsFence(text, 5);
    assert ClosingFence(text, 5) == Some(6);
  }

  /** A bare region owns no frontmatter. */
  lemma BareRegion(region: string)
    requires IsRegion(region)
    ensures HasRegion(region) && OwnedPrefixOf(region) == ""
  {
    NewlineUnmarked();
    hide MarkersWellFormed, Unmarked, IsRegion, OwnedPrefixOf, Find, Extract;
    Between("", region, "");
    assert "" + region + "" == region;
    OwnedOf(region);
    assert Frontmatter("") == "";
  }

  /** Attach and detach take away the frontmatter a file had of its own. */
  lemma FencedFileCounterexample(section: string)
    requires HasRegion(section)
    ensures var existing := "---\na\n---\n";
            && Unmarked(existing) && RemoveRegion(Patch(existing, section).0) == Detached("")
  {
    hide HasRegion, Unmarked, RemoveRegion, Patch, Frontmatter, BodyAt, ClosingFence, FenceLineLast;
    var existing := "---\n" + "a" + "\n---\n";
    assert existing == "---\na\n---\n";
    SmallFence("a");
    DetachUndoesAttach(existing, section);
    assert Lined(existing) == existing;
    assert existing[|existing|..] + "" == "";
  }

  /** A fence that is opened and not closed in a setup's text: the attachment's frontmatter is lost. */
  lemma OpenFenceCounterexample(existing: string)
    requires HasRegion(existing) && OwnedPrefixOf(existing) != ""
    ensures var incoming := "---\nb";
            && Unmarked(incoming)
            && KeepRegionOnWithdraw(PreserveInReplacement(existing, incoming)) == Some(Extract(existing).value)
            && KeepRegionOnWithdraw(existing) != Some(Extract(existing).value)
  {
    hide MarkersWellFormed, Unmarked, OwnedPrefixOf, PreserveInReplacement, KeepRegionOnWithdraw, Extract,
         Frontmatter, Front,
         Rear, Closed, BeforeRegion;
    OpenFence();
    UnmarkedIff("---\nb");
    KeepOfReplacement(existing, "---\nb");
    FrontOfOpenFence(existing);
    KeepIs(existing);
    OwnedOf(existing);
    var region := Extract(existing).value;
    assert "" + region == region;
    assert |Frontmatter(BeforeRegion(existing)) + region| > |region|;
  }

  lemma FrontOfOpenFence(existing: string)
    requires HasRegion(existing)
    ensures var incoming := "---\nb";
            Frontmatter(Front(existing, incoming)) == "" && Closed(Extract(existing).value, Rear(incoming))
  {
    hide MarkersWellFormed, Extract, Unmarked, Frontmatter;
    OpenFence();
    UnmarkedIff("---\nb");
    assert LineBreak("") == 0;
  }

  lemma OpenFence()
    ensures Unmarked("---\nb") && Body("---\nb") == "---\nb\n"
    ensures StartsWith("---\nb\n", "---\n") && Frontmatter("---\nb\n") == ""
  {
    var incoming, text := "---\nb", "---\nb\n";
    assert incoming + "\n" == text && incoming[4] == 'b';
    MarkerShape(BEGIN);
    MarkerShape(END);
    assert text[..4] == "---\n" && text[3] == '\n' && text[4] == 'b';
    assert BodyAt(text) == Some(4);
    assert ClosingFence(text, 4) == None;
  }

  /** A setup's own frontmatter in front of a bare region is kept as if it were the attachment's. */
  lemma OwnFrontmatterCounterexample()
    ensures var existing, incoming := BEGIN + END, "---\nb\n---\n";
            && HasRegion(existing) && Unmarked(incoming)
            && KeepRegionOnWithdraw(PreserveInReplacement(existing, incoming)) != KeepRegionOnWithdraw(existing)
  {
    hide MarkersWellFormed, Unmarked, IsRegion, OwnedPrefixOf, Frontmatter, PreserveInReplacement, Find, Extract,
         KeepRegionOnWithdraw;
    var existing, incoming := BEGIN + END, "---\n" + "b" + "\n---\n";
    assert incoming == "---\nb\n---\n";
    SmallRegion();
    SmallFence("b");
    assert EndsWithNewline(incoming);
    BareRegion(existing);
    UnmarkedIff(incoming);
    WithdrawIgnoresReplacementIff(existing, incoming);
  }

  lemma ReturnUnmarked()
    ensures Unmarked("\r")
  {
    MarkerShape(BEGIN);
    MarkerShape(END);
  }

  lemma FencedRegion(block: string, region: string)
    requires block == "---\na\n---\n" && IsRegion(region)
    ensures HasRegion(block + region) && OwnedPrefixOf(block + region) == block && FenceLineLast(block + region)
  {
    hide MarkersWellFormed, Unmarked, IsRegion, OwnedPrefixOf, Frontmatter, Find, Extract, FenceLineLast, BodyAt,
         ClosingFence;
    SmallFence("a");
    assert "---\n" + "a" + "\n---\n" == block;
    NewlineUnmarked();
    Between(block, region, "");
    assert block + region + "" == block + region;
    OwnedOf(block + region);
    RegionOpens(region);
    FenceStays(block, region);
  }

  /** A blank line joins frontmatter that ended at its fence. */
  lemma BlankLineCounterexample()
    ensures var existing, incoming := "---\na\n---\n" + (BEGIN + END), "\r";
            && HasRegion(existing) && Unmarked(incoming)
            && KeepRegionOnWithdraw(PreserveInReplacement(existing, incoming)) != KeepRegionOnWithdraw(existing)
  {
    hide HasRegion, Unmarked, IsRegion, OwnedPrefixOf, PreserveInReplacement, KeepRegionOnWithdraw, FenceLineLast,
         LeavesAttachment;
    var existing, incoming := "---\na\n---\n" + (BEGIN + END), "\r";
    SmallRegion();
    FencedRegion("---\na\n---\n", BEGIN + END);
    ReturnUnmarked();
    UnmarkedIff(incoming);
    BodyOpensWithBreak(incoming);
    PlainTextLeaves(existing, incoming);
    WithdrawIgnoresReplacementIff(existing, incoming);
  }

  lemma FenceStays(block: string, tail: string)
    requires |block| == 10 && BodyAt(block) == Some(4) && ClosingFence(block, 4) == Some(6) && FenceLineLast(block)
    requires tail != "" && tail[0] == ':'
    ensures FenceLineLast(block + tail)
  {
    var text := block + tail;
    FenceInsideBounds(block, 6);
    assert Share(block, text, 10);
    BodyLocal(block, text, 10);
    hide BodyAt;
    FirstFenceLocal(block, text, 4, 10);
    FenceLocal(block, text, 6, 10);
    BreakOfSplit(block, tail, LineEnd(block, 6));
  }
}
