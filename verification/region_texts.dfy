/**
 Whose text is whose: what a setup writes arrives whole, and stays the text
 outside the attachment through every later attach and detach.
*/
module RegionTexts {
  import opened Text
  import opened InstructionRegion
  import opened RegionParts
  import opened RegionLaws
  import opened RegionDetach
  import opened RegionRuns

  // ----- one replacement -----

  /** A text with its last line ended, written out: an empty text has none to end. */
  ghost predicate EndsLines(text: string, whole: string) {
    if text == "" || text[|text| - 1] == '\n' then whole == text else whole == text + "\n"
  }

  lemma BodyEndsLines(text: string)
    ensures EndsLines(text, Body(text))
  {
  }

  /**
   A setup's text arrives whole. Over a file without a region it is the new file;
   over one with a region, a text without a region stands before it, its last line
   ended, behind the attachment's frontmatter or nothing; and a text with a region
   keeps everything around it.
  */
  lemma ReplacementKeepsText(existing: string, incoming: string)
    requires MarkersWellFormed(existing) && MarkersWellFormed(incoming)
    ensures Extract(existing).None? ==> PreserveInReplacement(existing, incoming) == incoming
    ensures Extract(existing).Some? && Extract(incoming).None? ==>
              exists front, whole ::
                && PreserveInReplacement(existing, incoming) == front + whole + Extract(existing).value
                && EndsLines(incoming, whole) && front in {"", OwnedPrefixOf(existing)}
    ensures Extract(existing).Some? && Extract(incoming).Some? ==>
              PreserveInReplacement(existing, incoming)
              == BeforeRegion(incoming) + Extract(existing).value + After(incoming)
  {
    UnmarkedIff(incoming);
    if HasRegion(existing) {
      ReplacementIs(existing, incoming);
      BodyEndsLines(incoming);
      hide MarkersWellFormed, Extract, Unmarked, PreserveInReplacement, OwnedPrefixOf, BeforeRegion, After, Body,
           EndsLines, StartsWith, IsRegion;
      if !HasRegion(incoming) {
        var region, body := Extract(existing).value, Body(incoming);
        assert "" + body == body;
        var front := if StartsWith(body, "---\n") then "" else OwnedPrefixOf(existing);
        assert Front(existing, incoming) == front + body;
        assert PreserveInReplacement(existing, incoming) + "" == front + body + region + "";
        assert PreserveInReplacement(existing, incoming) == front + body + region;
      }
    }
  }

  // ----- texts without markers -----

  /** A text that no frontmatter runs into: it opens neither with a fence nor with a line break. */
  ghost predicate Plain(text: string) {
    && text != "" && !StartsWith(text, "---")
    && text[0] != '\n' && !StartsWith(text, "\r\n") && text != "\r"
  }

  /**
   The file is the text, or it is the text with its last line ended and an
   attachment: the region behind it, the frontmatter in front. Only a plain text
   can be told from frontmatter.
  */
  ghost predicate Shows(file: string, text: string) {
    if HasRegion(file) then
      && After(file) == "" && EndsWith(BeforeRegion(file), Lined(text))
      && (Plain(text) ==> Kept(file) == Lined(text))
    else file == text || file == Lined(text)
  }

  lemma EndsWithTail(front: string, tail: string)
    ensures EndsWith(front + tail, tail)
  {
  }

  lemma LinedTwice(text: string)
    ensures Lined(Lined(text)) == Lined(text)
  {
  }

  lemma PlainStart(text: string)
    requires Plain(text)
    ensures Frontmatter(Lined(text)) == "" && !StartsWith(Lined(text), "---\n") && LineBreak(Lined(text)) == 0
  {
    NoFrontmatter(text);
    NotFenced(text);
    BodyOpensWithBreak(text);
    assert Body(text) == Lined(text);
    assert text[0] != '\n' ==> !StartsWith(text, "\n");
  }

  /** What stands in front of the region when a text is put behind an attachment's frontmatter. */
  lemma FrontShows(existing: string, text: string)
    requires HasRegion(existing) && Unmarked(text) && text != ""
    ensures EndsWith(Front(existing, text), Lined(text))
    ensures Plain(text) ==> Front(existing, text)[|Frontmatter(Front(existing, text))|..] == Lined(text)
  {
    UnmarkedIff(text);
    hide MarkersWellFormed, Extract, Unmarked, OwnedPrefixOf, StartsWith, Frontmatter, Plain, LineBreak, EndsWith;
    var body := Lined(text);
    assert Body(text) == body;
    EndsWithTail("", body);
    EndsWithTail(OwnedPrefixOf(existing), body);
    assert "" + body == body;
    if Plain(text) {
      PlainStart(text);
      if OwnedPrefixOf(existing) != "" {
        PreambleFrontmatter(existing, text);
      }
    }
  }

  lemma ReplaceShows(file: string, text: string)
    requires MarkersWellFormed(file) && Unmarked(text) && text != ""
    ensures Shows(PreserveInReplacement(file, text), text)
  {
    UnmarkedIff(text);
    UnmarkedIff(file);
    if HasRegion(file) {
      ReplacementIs(file, text);
      FrontShows(file, text);
      hide MarkersWellFormed, Extract, Unmarked, PreserveInReplacement, OwnedPrefixOf, BeforeRegion, After, Body,
           StartsWith, IsRegion, Front, Frontmatter, Plain, EndsWith;
      Between(Front(file, text), Extract(file).value, "");
    }
  }

  lemma PatchShows(file: string, section: string, text: string)
    requires MarkersWellFormed(file) && Shows(file, text) && Unmarked(text) && text != "" && HasRegion(section)
    ensures HasRegion(Patch(file, section).0) && Shows(Patch(file, section).0, text)
  {
    UnmarkedIff(file);
    LinedTwice(text);
    if HasRegion(file) {
      Around(file);
      Around(section);
      PatchIsLocal(file, section);
      hide MarkersWellFormed, Extract, Unmarked, Patch, BeforeRegion, After, IsRegion, Frontmatter, Plain, EndsWith,
           Lined;
      Between(BeforeRegion(file), Extract(section).value, "");
    } else {
      FirstPatch(file, section);
      if Plain(text) {
        PlainStart(text);
      }
      hide MarkersWellFormed, Extract, Unmarked, Patch, BeforeRegion, After, IsRegion, Frontmatter, Plain;
      assert Lined(text)[0..] == Lined(text);
    }
  }

  lemma DetachShows(file: string, text: string)
    requires MarkersWellFormed(file) && Shows(file, text) && Unmarked(text) && Plain(text)
    ensures MarkersWellFormed(Apply(file, DetachRegion)) && Shows(Apply(file, DetachRegion), text)
  {
    UnmarkedIff(file);
    LinedUnmarked(text);
    UnmarkedIff(Lined(text));
    if HasRegion(file) {
      hide MarkersWellFormed, Extract, Unmarked, RemoveRegion, BeforeRegion, After, Frontmatter, Plain, EndsWith;
      DetachWellFormedIff(file);
      assert Lined(text) + "" == Lined(text);
    } else {
      hide MarkersWellFormed, Unmarked, Plain, Lined;
    }
  }

  /** Edits that add an attachment, or take it from a plain text. */
  ghost predicate Attaches(edit: Edit, text: string) {
    (edit.PatchWith? && HasRegion(edit.section)) || (edit.DetachRegion? && Plain(text))
  }

  /** A person's or a setup's text stays as it is through any attaching and detaching. */
  lemma {:induction false} TextStays(file: string, text: string, edits: seq<Edit>)
    requires MarkersWellFormed(file) && Shows(file, text) && Unmarked(text) && text != ""
    requires forall i :: 0 <= i < |edits| ==> Attaches(edits[i], text)
    ensures MarkersWellFormed(CheckedRun(file, edits)) && Shows(CheckedRun(file, edits), text)
    decreases |edits|
  {
    hide MarkersWellFormed, Extract, Unmarked, Shows, Plain;
    if edits != [] {
      assert Attaches(edits[0], text);
      if edits[0].PatchWith? {
        PatchShows(file, edits[0].section, text);
      } else {
        DetachShows(file, text);
      }
      TextStays(Apply(file, edits[0]), text, edits[1..]);
    }
  }

  lemma {:induction false} RunInParts(file: string, a: seq<Edit>, b: seq<Edit>)
    ensures CheckedRun(file, a + b) == CheckedRun(CheckedRun(file, a), b)
    decreases |a|
  {
    hide Checked;
    if a == [] {
      assert a + b == b;
    } else {
      assert (a + b)[0] == a[0] && (a + b)[1..] == a[1..] + b;
      RunInParts(Checked(file, a[0]), a[1..], b);
    }
  }

  /** A run that ends well formed was so before each of its edits. */
  lemma RunAt(file: string, edits: seq<Edit>, k: nat)
    requires k < |edits| && MarkersWellFormed(CheckedRun(file, edits))
    ensures var before := CheckedRun(file, edits[..k]);
            && MarkersWellFormed(before)
            && CheckedRun(file, edits) == CheckedRun(Apply(before, edits[k]), edits[k + 1..])
            && MarkersWellFormed(Apply(before, edits[k]))
  {
    hide MarkersWellFormed, Apply;
    var before := CheckedRun(file, edits[..k]);
    assert edits == edits[..k] + edits[k..] && edits[k..][1..] == edits[k + 1..];
    RunInParts(file, edits[..k], edits[k..]);
    if !MarkersWellFormed(before) {
      StaysAmbiguous(before, edits[k..]);
    }
    if !MarkersWellFormed(Apply(before, edits[k])) {
      StaysAmbiguous(Apply(before, edits[k]), edits[k + 1..]);
    }
  }

  /**
   Whatever happened before, the last setup's text is the text outside the
   attachment: the file is that text, or that text with its last line ended between
   the attachment's frontmatter and its region.
  */
  lemma LastSetupStays(file: string, edits: seq<Edit>, k: nat, text: string)
    requires k < |edits| && edits[k] == ReplaceWith(text) && Unmarked(text) && text != ""
    requires forall i :: k < i < |edits| ==> Attaches(edits[i], text)
    requires MarkersWellFormed(CheckedRun(file, edits))
    ensures Shows(CheckedRun(file, edits), text)
  {
    hide MarkersWellFormed, Unmarked, Shows, Attaches;
    RunAt(file, edits, k);
    ReplaceShows(CheckedRun(file, edits[..k]), text);
    TextStays(Apply(CheckedRun(file, edits[..k]), edits[k]), text, edits[k + 1..]);
  }

  // ----- texts with a region of their own -----

  ghost predicate OnlyBreaks(text: string) {
    forall c :: c in text ==> c == '\r' || c == '\n'
  }

  /** The file has the same text before the region, and after it, but for line breaks the region met. */
  ghost predicate Surrounds(file: string, before: string, after: string) {
    && HasRegion(file) && BeforeRegion(file) == before
    && exists met :: after == met + After(file) && OnlyBreaks(met)
  }

  lemma MeetsBreak(met: string, after: string, region: string)
    requires OnlyBreaks(met)
    ensures var more := if Closed(region, after) then 0 else LineBreak(after);
            OnlyBreaks(met + after[..more]) && met + after == met + after[..more] + after[more..]
  {
    var more := if Closed(region, after) then 0 else LineBreak(after);
    assert after == after[..more] + after[more..];
    assert forall c :: c in after[..more] ==> c == '\r' || c == '\n';
  }

  lemma PlacedSurrounds(before: string, region: string, tail: string, met: string, after: string)
    requires Unmarked(before) && IsRegion(region) && Unmarked(tail) && OnlyBreaks(met) && after == met + tail
    ensures Surrounds(before + region + tail, before, after)
  {
    hide MarkersWellFormed, Extract, Unmarked, IsRegion, Closed, LineBreak, OnlyBreaks, Find;
    var file, more := before + region + tail, if Closed(region, tail) then 0 else LineBreak(tail);
    Compose(before, region, tail);
    MeetsBreak(met, tail, region);
    AfterComposed(before, region, tail);
  }

  lemma AfterComposed(before: string, region: string, tail: string)
    requires Unmarked(before) && IsRegion(region) && Unmarked(tail)
    ensures HasRegion(before + region + tail) && BeforeRegion(before + region + tail) == before
    ensures After(before + region + tail) == tail[if Closed(region, tail) then 0 else LineBreak(tail)..]
  {
    hide MarkersWellFormed, Extract, Unmarked, IsRegion, Closed, LineBreak, Find;
    Compose(before, region, tail);
    var text := before + region + tail;
    var more := if Closed(region, tail) then 0 else LineBreak(tail);
    assert text[..|before|] == before;
    assert |Extract(text).value| == |region| + more;
    assert text[|before| + |region| + more..] == tail[more..];
  }

  /** A setup's own region gives way to the attachment's; what is around it stays. */
  lemma ReplaceSurrounds(file: string, incoming: string)
    requires MarkersWellFormed(file) && HasRegion(incoming)
    ensures Surrounds(PreserveInReplacement(file, incoming), BeforeRegion(incoming), After(incoming))
  {
    UnmarkedIff(file);
    Around(incoming);
    assert OnlyBreaks("") && "" + After(incoming) == After(incoming);
    if HasRegion(file) {
      Around(file);
      MarkedReplacement(file, incoming);
      hide MarkersWellFormed, Extract, Unmarked, PreserveInReplacement, BeforeRegion, After, IsRegion, Surrounds;
      PlacedSurrounds(BeforeRegion(incoming), Extract(file).value, After(incoming), "", After(incoming));
    }
  }

  lemma PatchSurrounds(file: string, section: string, before: string, after: string)
    requires Surrounds(file, before, after) && HasRegion(section)
    ensures Surrounds(Patch(file, section).0, before, after)
  {
    var met :| after == met + After(file) && OnlyBreaks(met);
    Around(file);
    Around(section);
    PatchIsLocal(file, section);
    hide MarkersWellFormed, Extract, Unmarked, Patch, BeforeRegion, After, IsRegion;
    PlacedSurrounds(before, Extract(section).value, After(file), met, after);
  }

  /** The last setup's text around its own region stays around the attachment's, through every later patch. */
  lemma {:induction false} SurroundingsStay(file: string, edits: seq<Edit>, before: string, after: string)
    requires Surrounds(file, before, after)
    requires forall i :: 0 <= i < |edits| ==> edits[i].PatchWith? && HasRegion(edits[i].section)
    ensures Surrounds(CheckedRun(file, edits), before, after)
    decreases |edits|
  {
    if edits != [] {
      assert MarkersWellFormed(file);
      assert edits[0].PatchWith? && HasRegion(edits[0].section);
      hide MarkersWellFormed, Extract, Surrounds;
      PatchSurrounds(file, edits[0].section, before, after);
      SurroundingsStay(Apply(file, edits[0]), edits[1..], before, after);
    }
  }

  lemma LastMarkedSetupStays(file: string, edits: seq<Edit>, k: nat, incoming: string)
    requires k < |edits| && edits[k] == ReplaceWith(incoming) && HasRegion(incoming)
    requires forall i :: k < i < |edits| ==> edits[i].PatchWith? && HasRegion(edits[i].section)
    requires MarkersWellFormed(CheckedRun(file, edits))
    ensures Surrounds(CheckedRun(file, edits), BeforeRegion(incoming), After(incoming))
  {
    hide MarkersWellFormed, Extract, Surrounds;
    RunAt(file, edits, k);
    ReplaceSurrounds(CheckedRun(file, edits[..k]), incoming);
    SurroundingsStay(Apply(CheckedRun(file, edits[..k]), edits[k]), edits[k + 1..],
                     BeforeRegion(incoming), After(incoming));
  }
}
