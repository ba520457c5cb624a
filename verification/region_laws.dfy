/**
 What the region edits promise: a patch is local and idempotent, a detach undoes
 an attach, a withdraw ignores what a setup wrote in between, and no sequence of
 edits ever makes the markers ambiguous.
*/
module RegionLaws {
  import opened Wrappers
  import opened Text
  import opened InstructionRegion
  import opened RegionParts

  ghost predicate HasRegion(text: string) {
    MarkersWellFormed(text) && Extract(text).Some?
  }

  /** A text is either unmarked or carries a region, never both. */
  lemma UnmarkedIff(text: string)
    ensures Unmarked(text) <==> MarkersWellFormed(text) && Extract(text).None?
  {
    hide At, FindFrom;
    FindNone(text, BEGIN);
    FindNone(text, END);
    WellFormedIff(text);
    if b: nat, e: nat :| Framed(text, b, e) {
      ExtractFramed(text, b, e);
    }
  }

  /** The text with the final line break an append needs. */
  function Lined(text: string): string {
    if EndsWithNewline(text) then text else text + "\n"
  }

  lemma LinedUnmarked(text: string)
    requires Unmarked(text) && text != ""
    ensures Unmarked(Lined(text)) && EndsWithNewline(Lined(text))
  {
    if !EndsWithNewline(text) {
      SeamBeforeBreak(text, "\n");
      NewlineUnmarked();
      UnmarkedJoin(text, "\n");
    }
  }

  lemma SeamBeforeBreak(a: string, b: string)
    requires b != "" && b[0] == '\n'
    ensures Seam(a, b)
  {
    forall m, i: nat | Marker(m) && i < |a| < i + |m|
      ensures !At(a + b, m, i)
    {
      MarkerShape(m);
      var k := |a| - i;
      assert (a + b)[i + k] == '\n' != m[k];
    }
  }

  lemma NewlineUnmarked()
    ensures Unmarked("\n") && Unmarked("")
  {
    MarkerShape(BEGIN);
  }

  lemma RegionOf(section: string) returns (before: string, region: string, after: string)
    requires HasRegion(section)
    ensures section == before + region + after && Extract(section) == Some(region)
    ensures Unmarked(before) && IsRegion(region) && Unmarked(after) && Closed(region, after)
    ensures Find(section, BEGIN) == Some(|before|)
  {
    before, region, after := Decompose(section);
  }

  // ----- patch -----

  /** The first attach to a nonempty file appends the region on its own line. */
  lemma PatchAppends(existing: string, section: string)
    requires Unmarked(existing) && existing != "" && HasRegion(section)
    ensures Patch(existing, section) == (Lined(existing) + Extract(section).value, true)
    ensures MarkersWellFormed(Patch(existing, section).0)
    ensures Extract(Patch(existing, section).0) == Extract(section)
  {
    var before, region, after := RegionOf(section);
    UnmarkedIff(existing);
    LinedUnmarked(existing);
    NewlineUnmarked();
    hide Extract, Unmarked, MarkersWellFormed, IsRegion;
    Compose(Lined(existing), region, "");
    assert Lined(existing) + region + "" == Lined(existing) + region;
  }

  /** What follows the region of a text. */
  function After(text: string): string
    requires Extract(text).Some?
  {
    text[Find(text, BEGIN).value + |Extract(text).value|..]
  }

  function BeforeRegion(text: string): string
    requires Extract(text).Some?
  {
    text[..Find(text, BEGIN).value]
  }

  lemma Around(text: string)
    requires HasRegion(text)
    ensures text == BeforeRegion(text) + Extract(text).value + After(text)
    ensures Unmarked(BeforeRegion(text)) && Unmarked(After(text))
    ensures IsRegion(Extract(text).value) && Closed(Extract(text).value, After(text))
  {
    var before, region, after := RegionOf(text);
    hide Extract, Unmarked, MarkersWellFormed, IsRegion, Find;
    assert before == BeforeRegion(text) && after == After(text);
  }

  /**
   Locality: where a region existed, a patch changes the region and no byte
   before or after it, and writes exactly when the region differs.
  */
  lemma PatchIsLocal(existing: string, section: string)
    requires HasRegion(existing) && HasRegion(section)
    ensures Patch(existing, section)
         == (BeforeRegion(existing) + Extract(section).value + After(existing), Extract(existing) != Extract(section))
    ensures MarkersWellFormed(Patch(existing, section).0)
    ensures Extract(Patch(existing, section).0) == Some(
              if Closed(Extract(section).value, After(existing)) then Extract(section).value
              else Extract(section).value + After(existing)[..LineBreak(After(existing))])
    ensures Find(Patch(existing, section).0, BEGIN) == Find(existing, BEGIN)
  {
    Around(existing);
    Around(section);
    hide Extract, Unmarked, MarkersWellFormed, IsRegion, Find, Closed, LineBreak;
    Compose(BeforeRegion(existing), Extract(section).value, After(existing));
  }

  /** The one obstacle to idempotence: an open-ended section before a line break. */
  ghost predicate OpensOnto(existing: string, section: string)
    requires HasRegion(section)
  {
    HasRegion(existing) && !EndsWithNewline(Extract(section).value) && StartsWithBreak(After(existing))
  }

  /**
   Idempotence, exactly: repeating a patch writes nothing unless the section's
   region lacks its final line break and the text already after the region
   begins with one.
  */
  lemma PatchIdempotentIff(existing: string, section: string)
    requires MarkersWellFormed(existing) && HasRegion(section)
    ensures var once := Patch(existing, section).0;
            Patch(once, section) == (once, false) <==> !OpensOnto(existing, section)
  {
    hide Unmarked, MarkersWellFormed, IsRegion, Find, Splice, LineBreak;
    UnmarkedIff(existing);
    var region := Extract(section).value;
    var once := Patch(existing, section).0;
    if HasRegion(existing) {
      PatchIsLocal(existing, section);
      if OpensOnto(existing, section) {
        assert |region + After(existing)[..LineBreak(After(existing))]| > |region|;
      }
    } else if existing == "" {
    } else {
      PatchAppends(existing, section);
    }
  }

  lemma BuildOpensOnto(region: string, after: string, section: string)
    requires IsRegion(region) && IsRegion(section) && !EndsWithNewline(section)
    requires Unmarked(after) && Closed(region, after) && StartsWithBreak(after)
    ensures MarkersWellFormed(region + after) && HasRegion(section) && OpensOnto(region + after, section)
  {
    hide MarkersWellFormed, Find, Extract, IsRegion, LineBreak, Unmarked;
    NewlineUnmarked();
    Compose("", region, after);
    Compose("", section, "");
    assert "" + region + after == region + after && "" + section + "" == section;
    assert (region + after)[|region|..] == after;
    assert After(region + after) == after;
  }

  /** Without the final line break, repeating a patch can write again. */
  lemma OpenSectionCounterexample()
    ensures var existing := BEGIN + "a" + END + "\n" + "\n"; var section := BEGIN + "" + END + "";
            && MarkersWellFormed(existing) && HasRegion(section)
            && var once := Patch(existing, section).0; Patch(once, section) != (once, false)
  {
    var region, section := BEGIN + "a" + END + "\n", BEGIN + "" + END + "";
    hide MarkersWellFormed, Extract, IsRegion, Unmarked, OpensOnto, HasRegion, Patch;
    RegionLiteral("a", "\n");
    RegionLiteral("", "");
    NewlineUnmarked();
    assert !EndsWithNewline(section) by {
      MarkerShape(END);
      assert section[|section| - 1] == END[12];
    }
    BuildOpensOnto(region, "\n", section);
    PatchIdempotentIff(region + "\n", section);
  }

  lemma RegionLiteral(body: string, tail: string)
    requires body == "" || body == "a"
    requires tail == "" || tail == "\n"
    ensures IsRegion(BEGIN + body + END + tail)
  {
    var region := BEGIN + body + END + tail;
    var e := |BEGIN| + |body|;
    MarkerShape(BEGIN);
    assert At(region, BEGIN, 0);
    assert At(region, END, e);
    forall i: nat
      ensures At(region, BEGIN, i) ==> i == 0
      ensures At(region, END, i) ==> i == e
    {
      ColonsOnly(region, e, i);
    }
    assert region[e + |END|..] == tail;
    assert RegionEnd(region, e);
  }

  lemma ColonsOnly(region: string, e: nat, i: nat)
    requires At(region, BEGIN, 0) && At(region, END, e) && e <= |BEGIN| + 1 && |region| <= e + |END| + 1
    requires e == |BEGIN| + 1 ==> region[|BEGIN|] == 'a'
    requires e >= |BEGIN|
    ensures At(region, BEGIN, i) ==> i == 0
    ensures At(region, END, i) ==> i == e
  {
    MarkersAre();
    MarkerShape(BEGIN);
    MarkerShape(END);
    hide At, Marker;
    forall m | (m == BEGIN || m == END) && At(region, m, i)
      ensures (m == BEGIN ==> i == 0) && (m == END ==> i == e)
    {
      ColonsOf(region, m, i);
      NoOverlap(region, BEGIN, m, 0, i);
      NoOverlap(region, END, m, e, i);
      NoOverlap(region, m, END, i, e);
    }
  }
}
