/** Whole runs: any sequence of edits on the shared file keeps its markers unambiguous. */
module RegionRuns {
  import opened Wrappers
  import opened Text
  import opened InstructionRegion
  import opened RegionParts
  import opened RegionLaws
  import opened RegionDetach

  /** The four things that happen to the file. */
  datatype Edit =
    | PatchWith(section: string)
    | ReplaceWith(incoming: string)
    | Withdraw
    | DetachRegion

  /** The file after one edit. A withdraw that keeps nothing deletes it; detaching nothing changes nothing. */
  function Apply(file: string, edit: Edit): string {
    match edit
    case PatchWith(section) => Patch(file, section).0
    case ReplaceWith(incoming) => PreserveInReplacement(file, incoming)
    case Withdraw => (match KeepRegionOnWithdraw(file) case None => "" case Some(kept) => kept)
    case DetachRegion => (match RemoveRegion(file) case Detached(rest) => rest case _ => file)
  }

  function Run(file: string, edits: seq<Edit>): string
    decreases |edits|
  {
    if edits == [] then file else Run(Apply(file, edits[0]), edits[1..])
  }

  /** The region each edit leaves in force. */
  function Track(region: Option<string>, edit: Edit): Option<string> {
    match edit
    case PatchWith(section) => Extract(section)
    case ReplaceWith(incoming) => if region.Some? then region else Extract(incoming)
    case Withdraw => region
    case DetachRegion => None
  }

  function TrackAll(region: Option<string>, edits: seq<Edit>): Option<string>
    decreases |edits|
  {
    if edits == [] then region else TrackAll(Track(region, edits[0]), edits[1..])
  }

  /** A file with one region that fills whole lines. */
  ghost predicate LineAligned(text: string) {
    && HasRegion(text)
    && (BeforeRegion(text) == "" || EndsWithNewline(BeforeRegion(text)))
    && EndsWithNewline(Extract(text).value)
  }

  ghost predicate Tidy(text: string) {
    Unmarked(text) || LineAligned(text)
  }

  /** Line-aligned sections, and setups with no marker or a line-aligned region of their own. */
  ghost predicate Fair(edit: Edit) {
    match edit
    case PatchWith(section) => LineAligned(section)
    case ReplaceWith(incoming) => Tidy(incoming)
    case Withdraw => true
    case DetachRegion => true
  }

  lemma TidyWithRegion(before: string, region: string, after: string)
    requires Unmarked(before) && IsRegion(region) && Unmarked(after)
    requires before == "" || EndsWithNewline(before)
    requires EndsWithNewline(region)
    ensures LineAligned(before + region + after) && Extract(before + region + after) == Some(region)
  {
    hide MarkersWellFormed, Extract, IsRegion, Unmarked, Find;
    Compose(before, region, after);
    assert (before + region + after)[..|before|] == before;
  }

  lemma PatchKeepsTidy(file: string, section: string)
    requires Tidy(file) && LineAligned(section)
    ensures LineAligned(Patch(file, section).0) && Extract(Patch(file, section).0) == Extract(section)
  {
    Around(section);
    UnmarkedIff(file);
    hide MarkersWellFormed, Extract, IsRegion, Unmarked, Find, Patch;
    var region := Extract(section).value;
    if LineAligned(file) {
      Around(file);
      PatchIsLocal(file, section);
      TidyWithRegion(BeforeRegion(file), region, After(file));
    } else if file == "" {
      PatchOfEmpty(section);
    } else {
      PatchAppends(file, section);
      LinedUnmarked(file);
      NewlineUnmarked();
      TidyWithRegion(Lined(file), region, "");
      assert Lined(file) + region + "" == Lined(file) + region;
    }
  }

  lemma PatchOfEmpty(section: string)
    requires HasRegion(section)
    ensures Patch("", section).0 == section
  {
    NewlineUnmarked();
    UnmarkedIff("");
  }

  /** The region of a file alone is a file of whole lines. */
  lemma RegionIsAligned(file: string)
    requires LineAligned(file)
    ensures LineAligned(Extract(file).value) && Extract(Extract(file).value) == Extract(file)
  {
    hide MarkersWellFormed, IsRegion, Unmarked, Find, Extract, BeforeRegion, After;
    Around(file);
    NewlineUnmarked();
    var region := Extract(file).value;
    TidyWithRegion("", region, "");
    assert "" + region + "" == region;
  }

  lemma ReplaceKeepsTidy(file: string, incoming: string)
    requires Tidy(file) && Tidy(incoming)
    ensures Tidy(PreserveInReplacement(file, incoming))
    ensures Extract(PreserveInReplacement(file, incoming)) == Track(Extract(file), ReplaceWith(incoming))
  {
    UnmarkedIff(file);
    UnmarkedIff(incoming);
    if HasRegion(file) && HasRegion(incoming) {
      hide MarkersWellFormed, IsRegion, Unmarked, Find, OwnedPrefixOf, Extract, Patch;
      RegionIsAligned(file);
      PatchKeepsTidy(incoming, Extract(file).value);
    } else if HasRegion(file) {
      hide MarkersWellFormed, IsRegion, Unmarked, Find, OwnedPrefixOf, Body, Extract, PreserveInReplacement;
      ReplacementIs(file, incoming);
      PreambleShape(file, incoming);
      BodyShape(incoming);
      TidyWithRegion(Front(file, incoming), Extract(file).value, "");
    }
  }

  lemma WithdrawKeepsTidy(file: string)
    requires LineAligned(file)
    ensures var kept := OwnedPrefixOf(file) + Extract(file).value;
            LineAligned(kept) && Extract(kept) == Extract(file)
  {
    hide MarkersWellFormed, IsRegion, Unmarked, Find, OwnedPrefixOf, Extract, BeforeRegion;
    Around(file);
    OwnedBeforeRegion(file);
    NewlineUnmarked();
    var owned, region := OwnedPrefixOf(file), Extract(file).value;
    UnmarkedPart(BeforeRegion(file), 0, |owned|);
    assert BeforeRegion(file)[0..|owned|] == owned;
    TidyWithRegion(owned, region, "");
    assert owned + region + "" == owned + region;
  }

  lemma JoinAligned(before: string, owned: nat, after: string)
    requires Unmarked(before) && Unmarked(after) && owned <= |before|
    requires before == "" || EndsWithNewline(before)
    ensures Unmarked(before[owned..] + after)
  {
    UnmarkedPart(before, owned, |before|);
    assert before[owned..|before|] == before[owned..];
    hide Unmarked, Seam;
    SeamAtLineBreak(before[owned..], after);
    UnmarkedJoin(before[owned..], after);
  }

  lemma DetachKeepsTidy(file: string)
    requires LineAligned(file)
    ensures RemoveRegion(file).Detached? && Unmarked(RemoveRegion(file).text)
  {
    hide MarkersWellFormed, Unmarked, OwnedPrefixOf, Extract, BeforeRegion, After, RemoveRegion;
    DetachText(file);
    Around(file);
    JoinAligned(BeforeRegion(file), |OwnedPrefixOf(file)|, After(file));
  }

  /** Every fair edit keeps the file tidy and leaves exactly the tracked region. */
  lemma ApplyKeepsTidy(file: string, edit: Edit)
    requires Tidy(file) && Fair(edit)
    ensures Tidy(Apply(file, edit)) && Extract(Apply(file, edit)) == Track(Extract(file), edit)
  {
    UnmarkedIff(file);
    hide MarkersWellFormed, Unmarked, Patch, PreserveInReplacement, Extract, OwnedPrefixOf, FindFrom;
    match edit {
      case PatchWith(section) =>
        PatchKeepsTidy(file, section);
      case ReplaceWith(incoming) =>
        ReplaceKeepsTidy(file, incoming);
      case Withdraw =>
        if LineAligned(file) {
          WithdrawKeepsTidy(file);
        } else {
          NewlineUnmarked();
          UnmarkedIff("");
        }
      case DetachRegion =>
        if LineAligned(file) {
          DetachKeepsTidy(file);
          UnmarkedIff(RemoveRegion(file).text);
        }
    }
  }

  /**
   From a tidy file, after any sequence of fair edits, the markers are well formed
   and the region in the file is exactly the one the edits leave in force.
  */
  lemma {:induction false} RunStaysTidy(file: string, edits: seq<Edit>)
    requires Tidy(file) && forall i :: 0 <= i < |edits| ==> Fair(edits[i])
    ensures MarkersWellFormed(Run(file, edits)) && Tidy(Run(file, edits))
    ensures Extract(Run(file, edits)) == TrackAll(Extract(file), edits)
    decreases |edits|
  {
    hide MarkersWellFormed, Unmarked, Extract, Apply, Track, Fair, LineAligned;
    if edits == [] {
      TidyIsWellFormed(file);
    } else {
      ApplyKeepsTidy(file, edits[0]);
      RunStaysTidy(Apply(file, edits[0]), edits[1..]);
    }
  }

  lemma TidyIsWellFormed(file: string)
    requires Tidy(file)
    ensures MarkersWellFormed(file)
  {
    UnmarkedIff(file);
  }

  // ----- every edit the wire accepts -----

  /** Sections with a region, and setup texts with unambiguous markers. */
  ghost predicate Accepted(edit: Edit) {
    match edit
    case PatchWith(section) => HasRegion(section)
    case ReplaceWith(incoming) => MarkersWellFormed(incoming)
    case Withdraw => true
    case DetachRegion => true
  }

  /** The edit on a file whose markers are checked first: an ambiguous file refuses every edit. */
  function Checked(file: string, edit: Edit): string {
    if MarkersWellFormed(file) then Apply(file, edit) else file
  }

  function CheckedRun(file: string, edits: seq<Edit>): string
    decreases |edits|
  {
    if edits == [] then file else CheckedRun(Checked(file, edits[0]), edits[1..])
  }

  /** The edit detaches a region set inside a marker. */
  ghost predicate Orphans(file: string, edit: Edit) {
    edit.DetachRegion? && HasRegion(file) && Straddled(Kept(file), After(file))
  }

  /** One region is the other, or it with the line break that followed it. */
  ghost predicate SameUpToBreak(actual: Option<string>, tracked: Option<string>) {
    match (actual, tracked)
    case (None, None) => true
    case (Some(a), Some(t)) => a == t || a == t + "\n" || a == t + "\r\n"
    case _ => false
  }

  /** A region that grew by a line break ends its line, so it grows no more. */
  lemma GrowsOnce(region: string, after: string, tracked: Option<string>)
    requires SameUpToBreak(Some(region), tracked)
    ensures SameUpToBreak(Some(if Closed(region, after) then region else region + after[..LineBreak(after)]), tracked)
  {
  }

  lemma PatchIsAccepted(file: string, section: string)
    requires MarkersWellFormed(file) && HasRegion(section)
    ensures HasRegion(Patch(file, section).0)
    ensures SameUpToBreak(Extract(Patch(file, section).0), Extract(section))
  {
    UnmarkedIff(file);
    hide MarkersWellFormed, Extract, Unmarked, Patch, Find, Closed, LineBreak, SameUpToBreak;
    SameAlready(Extract(section));
    if HasRegion(file) {
      PatchIsLocal(file, section);
      GrowsOnce(Extract(section).value, After(file), Extract(section));
    } else {
      FirstPatch(file, section);
    }
  }

  lemma SameAlready(region: Option<string>)
    ensures SameUpToBreak(region, region)
  {
  }

  lemma ReplaceIsAccepted(file: string, incoming: string)
    requires HasRegion(file) && MarkersWellFormed(incoming)
    ensures HasRegion(PreserveInReplacement(file, incoming))
    ensures forall tracked :: SameUpToBreak(Extract(file), tracked) ==>
              SameUpToBreak(Extract(PreserveInReplacement(file, incoming)), tracked)
  {
    hide MarkersWellFormed, Extract, Unmarked, PreserveInReplacement, Closed, LineBreak, SameUpToBreak,
         KeepRegionOnWithdraw;
    KeepOfReplacement(file, incoming);
    forall tracked | SameUpToBreak(Extract(file), tracked)
      ensures SameUpToBreak(Extract(PreserveInReplacement(file, incoming)), tracked)
    {
      GrowsOnce(Extract(file).value, Rear(incoming), tracked);
    }
  }

  lemma WithdrawIsAccepted(file: string)
    requires HasRegion(file)
    ensures KeepRegionOnWithdraw(file).Some? && HasRegion(KeepRegionOnWithdraw(file).value)
    ensures Extract(KeepRegionOnWithdraw(file).value) == Extract(file)
  {
    hide MarkersWellFormed, Extract, Unmarked, KeepRegionOnWithdraw, BeforeRegion, After, IsRegion, Frontmatter;
    KeepIs(file);
    Around(file);
    FrontmatterUnmarked(BeforeRegion(file));
    NewlineUnmarked();
    var front, region := Frontmatter(BeforeRegion(file)), Extract(file).value;
    assert !StartsWithBreak("");
    Between(front, region, "");
    assert front + region + "" == front + region;
  }

  /**
   Every accepted edit keeps the markers well formed, except a detach of a region
   set inside a marker, and carries the region over.
  */
  lemma AcceptedKeeps(file: string, edit: Edit, tracked: Option<string>)
    requires MarkersWellFormed(file) && Accepted(edit) && SameUpToBreak(Extract(file), tracked)
    ensures MarkersWellFormed(Apply(file, edit)) <==> !Orphans(file, edit)
    ensures SameUpToBreak(Extract(Apply(file, edit)), Track(tracked, edit))
  {
    UnmarkedIff(file);
    hide Unmarked, Patch, PreserveInReplacement, FindFrom, KeepRegionOnWithdraw, RemoveRegion;
    match edit {
      case PatchWith(section) =>
        PatchIsAccepted(file, section);
      case ReplaceWith(incoming) =>
        ReplaceCase(file, incoming, tracked);
      case Withdraw =>
        WithdrawCase(file);
      case DetachRegion =>
        DetachCase(file);
    }
  }

  lemma ReplaceCase(file: string, incoming: string, tracked: Option<string>)
    requires MarkersWellFormed(file) && MarkersWellFormed(incoming) && SameUpToBreak(Extract(file), tracked)
    ensures MarkersWellFormed(PreserveInReplacement(file, incoming))
    ensures SameUpToBreak(Extract(PreserveInReplacement(file, incoming)), Track(tracked, ReplaceWith(incoming)))
  {
    hide MarkersWellFormed, Extract;
    if HasRegion(file) {
      ReplaceIsAccepted(file, incoming);
    }
  }

  lemma WithdrawCase(file: string)
    requires MarkersWellFormed(file)
    ensures MarkersWellFormed(Apply(file, Withdraw)) && Extract(Apply(file, Withdraw)) == Extract(file)
  {
    hide MarkersWellFormed, Extract, OwnedPrefixOf;
    if HasRegion(file) {
      WithdrawIsAccepted(file);
    } else {
      NewlineUnmarked();
      UnmarkedIff("");
    }
  }

  lemma DetachCase(file: string)
    requires MarkersWellFormed(file)
    ensures MarkersWellFormed(Apply(file, DetachRegion)) <==> !Orphans(file, DetachRegion)
    ensures Extract(Apply(file, DetachRegion)) == None
  {
    hide MarkersWellFormed, Extract, OwnedPrefixOf, Seam, Unmarked;
    if HasRegion(file) {
      DetachWellFormedIff(file);
    }
  }

  /**
   From a file with unambiguous markers, a run of accepted edits ends with them
   unambiguous exactly when no detach on the way met a region set inside a marker;
   and then the file carries the region the edits leave in force.
  */
  lemma {:induction false} RunWellFormedIff(file: string, edits: seq<Edit>, tracked: Option<string>)
    requires MarkersWellFormed(file) && SameUpToBreak(Extract(file), tracked)
    requires forall i :: 0 <= i < |edits| ==> Accepted(edits[i])
    ensures MarkersWellFormed(CheckedRun(file, edits))
       <==> forall k :: 0 <= k < |edits| ==> !Orphans(CheckedRun(file, edits[..k]), edits[k])
    ensures MarkersWellFormed(CheckedRun(file, edits)) ==>
              SameUpToBreak(Extract(CheckedRun(file, edits)), TrackAll(tracked, edits))
    decreases |edits|
  {
    hide MarkersWellFormed, Extract, Apply, Track, Accepted, Orphans, SameUpToBreak;
    if edits != [] {
      var next, rest := Apply(file, edits[0]), edits[1..];
      AcceptedKeeps(file, edits[0], tracked);
      assert CheckedRun(file, edits[..0]) == file;
      if Orphans(file, edits[0]) {
        StaysAmbiguous(next, rest);
      } else {
        RunWellFormedIff(next, rest, Track(tracked, edits[0]));
        forall k | 0 <= k < |rest|
          ensures CheckedRun(file, edits[..k + 1]) == CheckedRun(next, rest[..k])
        {
          assert edits[..k + 1][0] == edits[0] && edits[..k + 1][1..] == rest[..k];
        }
        NoneOrphansIff(file, edits);
      }
    }
  }

  /** The detaches of a run, the first one and the rest. */
  lemma NoneOrphansIff(file: string, edits: seq<Edit>)
    requires edits != [] && MarkersWellFormed(file)
    requires forall k :: 0 <= k < |edits| - 1 ==>
               CheckedRun(file, edits[..k + 1]) == CheckedRun(Apply(file, edits[0]), edits[1..][..k])
    ensures (forall k :: 0 <= k < |edits| ==> !Orphans(CheckedRun(file, edits[..k]), edits[k]))
       <==> !Orphans(file, edits[0])
            && forall k :: 0 <= k < |edits| - 1 ==>
                 !Orphans(CheckedRun(Apply(file, edits[0]), edits[1..][..k]), edits[1..][k])
  {
    hide MarkersWellFormed, Apply, Orphans;
    var rest := edits[1..];
    assert CheckedRun(file, edits[..0]) == file;
    if forall k :: 0 <= k < |edits| ==> !Orphans(CheckedRun(file, edits[..k]), edits[k]) {
      forall k | 0 <= k < |rest|
        ensures !Orphans(CheckedRun(Apply(file, edits[0]), rest[..k]), rest[k])
      {
        assert !Orphans(CheckedRun(file, edits[..k + 1]), edits[k + 1]);
      }
    }
    if && !Orphans(file, edits[0])
       && forall k :: 0 <= k < |rest| ==> !Orphans(CheckedRun(Apply(file, edits[0]), rest[..k]), rest[k]) {
      forall k | 0 <= k < |edits|
        ensures !Orphans(CheckedRun(file, edits[..k]), edits[k])
      {
        if k > 0 {
          assert !Orphans(CheckedRun(Apply(file, edits[0]), rest[..k - 1]), rest[k - 1]);
        }
      }
    }
  }

  /** An ambiguous file refuses every edit and so stays as it is. */
  lemma {:induction false} StaysAmbiguous(file: string, edits: seq<Edit>)
    requires !MarkersWellFormed(file)
    ensures CheckedRun(file, edits) == file
    decreases |edits|
  {
    hide MarkersWellFormed;
    if edits != [] {
      StaysAmbiguous(file, edits[1..]);
    }
  }

  // ----- which edit decides -----

  predicate Touches(edit: Edit) {
    edit.PatchWith? || edit.DetachRegion?
  }

  lemma {:induction false} UntouchedRegion(region: Option<string>, edits: seq<Edit>)
    requires forall i :: 0 <= i < |edits| ==> !Touches(edits[i])
    requires region.Some? || forall i :: 0 <= i < |edits| && edits[i].ReplaceWith? ==>
              Extract(edits[i].incoming) == None
    ensures TrackAll(region, edits) == region
    decreases |edits|
  {
    hide Extract;
    if edits != [] {
      assert !Touches(edits[0]);
      UntouchedRegion(Track(region, edits[0]), edits[1..]);
    }
  }

  lemma {:induction false} TrackAppend(region: Option<string>, a: seq<Edit>, b: seq<Edit>)
    ensures TrackAll(region, a + b) == TrackAll(TrackAll(region, a), b)
    decreases |a|
  {
    if a == [] {
      assert a + b == b;
    } else {
      assert (a + b)[1..] == a[1..] + b;
      TrackAppend(Track(region, a[0]), a[1..], b);
    }
  }

  /** The last edit that is a patch or a detach; after a detach no setup brings a region of its own. */
  ghost predicate LastTouch(edits: seq<Edit>, k: nat) {
    && k < |edits| && Touches(edits[k]) && (forall i :: k < i < |edits| ==> !Touches(edits[i]))
    && (edits[k].DetachRegion? ==>
          forall i :: k < i < |edits| && edits[i].ReplaceWith? ==> Extract(edits[i].incoming) == None)
  }

  lemma TrackedLast(region: Option<string>, edits: seq<Edit>, k: nat)
    requires LastTouch(edits, k) && Accepted(edits[k])
    ensures TrackAll(region, edits) == if edits[k].PatchWith? then Extract(edits[k].section) else None
  {
    hide Extract, MarkersWellFormed;
    var before, after := edits[..k + 1], edits[k + 1..];
    assert edits == before + after && before == edits[..k] + [edits[k]];
    TrackAppend(region, before, after);
    TrackAppend(region, edits[..k], [edits[k]]);
    UntouchedRegion(TrackAll(region, before), after);
  }

  /**
   The last patch or detach of a run decides what the file carries at its end, up
   to a line break the region met in the text behind it.
  */
  lemma LastTouchDecides(file: string, edits: seq<Edit>, k: nat)
    requires MarkersWellFormed(file) && forall i :: 0 <= i < |edits| ==> Accepted(edits[i])
    requires LastTouch(edits, k) && MarkersWellFormed(CheckedRun(file, edits))
    ensures SameUpToBreak(Extract(CheckedRun(file, edits)),
                          if edits[k].PatchWith? then Extract(edits[k].section) else None)
  {
    hide Extract, MarkersWellFormed, CheckedRun, SameUpToBreak, Accepted, LastTouch;
    SameAlready(Extract(file));
    RunWellFormedIff(file, edits, Extract(file));
    LastInside(edits, k);
    TrackedLast(Extract(file), edits, k);
  }

  lemma LastInside(edits: seq<Edit>, k: nat)
    requires LastTouch(edits, k)
    ensures k < |edits|
  {
  }
}
