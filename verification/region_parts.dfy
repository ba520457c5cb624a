/**
 Where markers can occur. The two markers have no borders and never overlap, so
 joining texts creates no marker across a seam that ends in a line break or lies
 at a marker. Every well-formed text with a region is therefore
 `before + region + after`, and every such assembly is well formed.
*/
module RegionParts {
  import opened Wrappers
  import opened Text
  import opened InstructionRegion

  ghost predicate Marker(m: string) {
    m == BEGIN || m == END
  }

  ghost predicate Unmarked(text: string) {
    forall i: nat :: !At(text, BEGIN, i) && !At(text, END, i)
  }

  /** A marker opens with three colons and holds no other colon and no line break. */
  lemma MarkerShape(m: string)
    requires Marker(m)
    ensures 13 <= |m| <= 15 && m[0] == ':' && m[1] == ':' && m[2] == ':'
    ensures forall k :: 3 <= k < |m| ==> m[k] != ':'
    ensures forall k :: 0 <= k < |m| ==> m[k] != '\n' && m[k] != '\r'
    ensures |BEGIN| == 15 && |END| == 13 && BEGIN[3] != END[3]
  {
  }

  lemma ColonsOf(text: string, m: string, i: nat)
    requires Marker(m) && At(text, m, i)
    ensures i + |m| <= |text| && text[i] == ':' && text[i + 1] == ':' && text[i + 2] == ':' && text[i + 3] == m[3]
    ensures forall p :: i + 3 <= p < i + |m| ==> text[p] != ':'
  {
    MarkerShape(m);
    assert text[i + 0] == m[0] && text[i + 1] == m[1] && text[i + 2] == m[2];
    forall p | i + 3 <= p < i + |m|
      ensures text[p] != ':'
    {
      assert text[i + (p - i)] == m[p - i];
    }
  }

  /** Two markers in one text are the same occurrence or do not overlap. */
  lemma NoOverlap(text: string, m: string, n: string, i: nat, j: nat)
    requires Marker(m) && Marker(n) && At(text, m, i) && At(text, n, j)
    ensures !(i < j < i + |m|) && (i == j ==> m == n)
  {
    MarkerShape(m);
    MarkerShape(n);
    ColonsOf(text, m, i);
    ColonsOf(text, n, j);
    hide Marker, At;
    if i == j {
      MarkerFourth(m, n);
    }
  }

  lemma MarkerFourth(m: string, n: string)
    requires Marker(m) && Marker(n) && m[3] == n[3]
    ensures m == n
  {
  }

  // ----- seams -----

  /** No marker lies across the joint of the two texts. */
  ghost predicate Seam(a: string, b: string) {
    forall m, i: nat :: Marker(m) && i < |a| < i + |m| ==> !At(a + b, m, i)
  }

  ghost predicate StartsWithBreak(text: string) {
    LineBreak(text) > 0
  }

  lemma SeamAtLineBreak(a: string, b: string)
    requires a == "" || EndsWithNewline(a)
    ensures Seam(a, b)
  {
    forall m, i: nat | Marker(m) && i < |a| < i + |m|
      ensures !At(a + b, m, i)
    {
      MarkerShape(m);
      var k := |a| - 1 - i;
      assert (a + b)[i + k] == '\n' != m[k];
    }
  }

  lemma SeamBeforeMarker(a: string, b: string, n: string)
    requires Marker(n) && At(b, n, 0)
    ensures Seam(a, b)
  {
    forall m, i: nat | Marker(m) && i < |a| < i + |m|
      ensures !At(a + b, m, i)
    {
      AtRight(a, b, n, 0);
      if At(a + b, m, i) {
        NoOverlap(a + b, m, n, i, |a|);
      }
    }
  }

  lemma SeamAfterMarker(a: string, b: string, n: string, j: nat)
    requires Marker(n) && At(a, n, j) && j + |n| == |a|
    ensures Seam(a, b)
  {
    forall m, i: nat | Marker(m) && i < |a| < i + |m|
      ensures !At(a + b, m, i)
    {
      AtLeft(a, b, n, j);
      if At(a + b, m, i) {
        NoOverlap(a + b, n, m, j, i);
        NoOverlap(a + b, m, n, i, j);
      }
    }
  }

  lemma AtLeft(a: string, b: string, m: string, i: nat)
    requires i + |m| <= |a|
    ensures At(a + b, m, i) <==> At(a, m, i)
  {
    assert forall j :: i <= j < i + |m| ==> (a + b)[j] == a[j];
  }

  lemma AtRight(a: string, b: string, m: string, i: nat)
    ensures At(a + b, m, |a| + i) <==> At(b, m, i)
  {
    assert forall j :: |a| <= j < |a + b| ==> (a + b)[j] == b[j - |a|];
    assert forall j :: 0 <= j < |b| ==> b[j] == (a + b)[|a| + j];
  }

  /** Across a seam, a marker occurs wholly on one side. */
  lemma SeamSides(a: string, b: string, m: string, i: nat)
    requires Seam(a, b) && Marker(m)
    ensures At(a + b, m, i) <==> (i + |m| <= |a| && At(a, m, i)) || (|a| <= i && At(b, m, i - |a|))
  {
    MarkerShape(m);
    hide Marker, At;
    if i + |m| <= |a| {
      AtLeft(a, b, m, i);
    } else if |a| <= i {
      AtRight(a, b, m, i - |a|);
    }
  }

  lemma UnmarkedJoin(a: string, b: string)
    requires Unmarked(a) && Unmarked(b) && Seam(a, b)
    ensures Unmarked(a + b)
  {
    hide At, Seam;
    forall i: nat
      ensures !At(a + b, BEGIN, i) && !At(a + b, END, i)
    {
      SeamSides(a, b, BEGIN, i);
      SeamSides(a, b, END, i);
    }
  }

  lemma AtPart(text: string, from: nat, upto: nat, m: string, i: nat)
    requires from <= upto <= |text|
    ensures At(text[from..upto], m, i) <==> from + i + |m| <= upto && At(text, m, from + i)
  {
    assert forall j :: from <= j < upto ==> text[j] == text[from..upto][j - from];
    assert forall j :: 0 <= j < upto - from ==> text[from..upto][j] == text[from + j];
  }

  lemma UnmarkedPart(text: string, from: nat, upto: nat)
    requires Unmarked(text) && from <= upto <= |text|
    ensures Unmarked(text[from..upto])
  {
    hide At;
    forall i: nat
      ensures !At(text[from..upto], BEGIN, i) && !At(text[from..upto], END, i)
    {
      AtPart(text, from, upto, BEGIN, i);
      AtPart(text, from, upto, END, i);
    }
  }

  // ----- framed texts -----

  /** The only begin marker is at `b` and the only end marker is at `e`, after it. */
  ghost predicate Framed(text: string, b: nat, e: nat) {
    && b < e && At(text, BEGIN, b) && At(text, END, e)
    && (forall i: nat :: At(text, BEGIN, i) ==> i == b)
    && (forall i: nat :: At(text, END, i) ==> i == e)
  }

  lemma AtSuffix(text: string, m: string, from: nat, i: nat)
    requires from <= |text|
    ensures At(text[from..], m, i) <==> At(text, m, from + i)
  {
    assert text == text[..from] + text[from..];
    AtRight(text[..from], text[from..], m, i);
  }

  lemma FindIs(text: string, m: string, at: nat)
    requires At(text, m, at) && forall i: nat :: At(text, m, i) ==> i == at
    ensures Find(text, m) == Some(at)
  {
  }

  lemma FindNone(text: string, m: string)
    ensures Find(text, m) == None <==> forall i: nat :: !At(text, m, i)
  {
  }

  lemma FramedFinds(text: string, b: nat, e: nat)
    requires Framed(text, b, e)
    ensures Find(text, BEGIN) == Some(b) && Find(text, END) == Some(e)
    ensures b + |BEGIN| <= e && e + |END| <= |text|
  {
    hide FindFrom;
    FindIs(text, BEGIN, b);
    FindIs(text, END, e);
    NoOverlap(text, BEGIN, END, b, e);
  }

  lemma NothingBehind(text: string, m: string, at: nat)
    requires Marker(m) && At(text, m, at)
    ensures !Contains(text[at + |m|..], m) <==> forall i: nat :: At(text, m, i) && at <= i ==> i == at
  {
    var rest := text[at + |m|..];
    hide At, FindFrom;
    FindNone(rest, m);
    MarkerShape(m);
    forall i: nat
      ensures At(rest, m, i) <==> At(text, m, at + |m| + i)
    {
      AtSuffix(text, m, at + |m|, i);
    }
    forall i: nat | at < i < at + |m|
      ensures !At(text, m, i)
    {
      if At(text, m, i) {
        NoOverlap(text, m, m, at, i);
      }
    }
    if i: nat :| At(text, m, i) && at < i {
      assert At(rest, m, i - at - |m|);
    }
  }

  /** The marker check accepts exactly the unmarked and the framed texts. */
  lemma WellFormedIff(text: string)
    ensures MarkersWellFormed(text) <==> Unmarked(text) || exists b: nat, e: nat :: Framed(text, b, e)
  {
    hide At, FindFrom;
    FindNone(text, BEGIN);
    FindNone(text, END);
    var begin, end := Find(text, BEGIN), Find(text, END);
    if begin.Some? && end.Some? {
      FirstOccurrence(text, BEGIN);
      FirstOccurrence(text, END);
      NothingBehind(text, BEGIN, begin.value);
      NothingBehind(text, END, end.value);
      if MarkersWellFormed(text) {
        assert Framed(text, begin.value, end.value);
      }
      if b: nat, e: nat :| Framed(text, b, e) {
        FramedFinds(text, b, e);
      }
    }
  }

  lemma FirstOccurrence(text: string, m: string)
    requires Find(text, m).Some?
    ensures At(text, m, Find(text, m).value)
    ensures forall i: nat :: At(text, m, i) ==> Find(text, m).value <= i
  {
  }

  // ----- regions -----

  /** A text that is one complete region, markers and closing line break included. */
  ghost predicate IsRegion(region: string) {
    exists e: nat :: RegionEnd(region, e)
  }

  ghost predicate RegionEnd(region: string, e: nat) {
    && Framed(region, 0, e)
    && e + |END| + LineBreak(region[e + |END|..]) == |region|
  }

  /** The text after a region does not extend the region's own closing line break. */
  ghost predicate Closed(region: string, after: string) {
    EndsWithNewline(region) || !StartsWithBreak(after)
  }

  lemma RegionTail(region: string, e: nat)
    requires RegionEnd(region, e)
    ensures e + |END| <= |region|
    ensures EndsWithNewline(region) <==> e + |END| < |region|
    ensures !EndsWithNewline(region) ==> |region| == e + |END|
  {
    MarkerShape(END);
    assert region[e + 12] == END[12];
  }

  lemma RegionSeam(region: string, after: string)
    requires IsRegion(region)
    ensures Seam(region, after)
  {
    var e: nat :| RegionEnd(region, e);
    RegionTail(region, e);
    hide RegionEnd;
    if EndsWithNewline(region) {
      SeamAtLineBreak(region, after);
    } else {
      assert At(region, END, e) by { EndOf(region, e); }
      SeamAfterMarker(region, after, END, e);
    }
  }

  lemma EndOf(region: string, e: nat)
    requires RegionEnd(region, e)
    ensures At(region, END, e) && At(region, BEGIN, 0)
  {
  }

  /** Joining unmarked text around a region frames it, wherever the seams fall. */
  lemma FrameAround(before: string, region: string, after: string, e: nat)
    requires Unmarked(before) && RegionEnd(region, e) && Unmarked(after)
    ensures Framed(before + (region + after), |before|, |before| + e)
  {
    hide At, Seam, Marker;
    RegionSeam(region, after);
    EndOf(region, e);
    MarkersAre();
    MarkerShape(BEGIN);
    RegionTail(region, e);
    AtLeft(region, after, BEGIN, 0);
    FramedFinds(region, 0, e);
    SeamBeforeMarker(before, region + after, BEGIN);
    var text := before + (region + after);
    forall m, i: nat | m == BEGIN || m == END
      ensures At(text, m, i) <==> i >= |before| && i - |before| + |m| <= |region| && At(region, m, i - |before|)
    {
      SeamSides(before, region + after, m, i);
      if i >= |before| {
        SeamSides(region, after, m, i - |before|);
      }
    }
  }

  lemma MarkersAre()
    ensures Marker(BEGIN) && Marker(END)
  {
  }

  lemma LineBreakOfPrefix(a: string, b: string)
    ensures LineBreak(a) > 0 ==> LineBreak(a + b) == LineBreak(a)
    ensures a == "" ==> LineBreak(a + b) == LineBreak(b)
  {
    if a == "" {
      assert a + b == b;
    } else if |a| >= 2 {
      assert (a + b)[0] == a[0] && (a + b)[1] == a[1];
      assert a[..2] == (a + b)[..2];
    } else {
      assert (a + b)[0] == a[0];
    }
  }

  lemma ExtractFramed(text: string, b: nat, e: nat)
    requires Framed(text, b, e)
    ensures b < e && e + |END| <= |text|
    ensures Extract(text) == Some(text[b..e + |END| + LineBreak(text[e + |END|..])])
  {
    FramedFinds(text, b, e);
  }

  /** How much the closing line break of a region takes from the text around it. */
  lemma BreakAtSeam(region: string, after: string, e: nat)
    requires RegionEnd(region, e)
    ensures e + |END| <= |region|
    ensures var n := LineBreak(region[e + |END|..] + after);
            e + |END| + n == |region| + (if Closed(region, after) then 0 else LineBreak(after))
  {
    RegionTail(region, e);
    TailLength(region, e);
    LineBreakOfPrefix(region[e + |END|..], after);
  }

  lemma SliceAround(before: string, region: string, after: string, e: nat, n: nat)
    requires e <= |region| && n <= |after|
    ensures var text := before + (region + after);
            && text[|before| + e..] == region[e..] + after
            && text[|before|..|before| + |region| + n] == region + after[..n]
  {
  }

  lemma ComposeFrames(before: string, region: string, after: string, e: nat)
    requires Unmarked(before) && RegionEnd(region, e) && Unmarked(after)
    ensures var text := before + (region + after);
            MarkersWellFormed(text) && Find(text, BEGIN) == Some(|before|)
  {
    var text := before + (region + after);
    hide RegionEnd, Find, MarkersWellFormed;
    FrameAround(before, region, after, e);
    WellFormedIff(text);
    FramedFinds(text, |before|, |before| + e);
  }

  lemma ComposeExtract(before: string, region: string, after: string, e: nat)
    requires Unmarked(before) && RegionEnd(region, e) && Unmarked(after)
    ensures Extract(before + (region + after))
         == Some(region + after[..if Closed(region, after) then 0 else LineBreak(after)])
  {
    var text := before + (region + after);
    FrameAround(before, region, after, e);
    ExtractFramed(text, |before|, |before| + e);
    BreakAtSeam(region, after, e);
    hide FindFrom, Framed, Unmarked, RegionEnd, At, Extract, LineBreak, Closed;
    SliceAround(before, region, after, e + |END|, if Closed(region, after) then 0 else LineBreak(after));
  }

  /** Assembling a text around a region: it is well formed and the region is read back. */
  lemma Compose(before: string, region: string, after: string)
    requires Unmarked(before) && IsRegion(region) && Unmarked(after)
    ensures MarkersWellFormed(before + region + after)
    ensures Find(before + region + after, BEGIN) == Some(|before|)
    ensures Closed(region, after) ==> Extract(before + region + after) == Some(region)
    ensures !Closed(region, after) ==> Extract(before + region + after) == Some(region + after[..LineBreak(after)])
  {
    var e: nat :| RegionEnd(region, e);
    assert before + region + after == before + (region + after);
    hide RegionEnd, Unmarked, MarkersWellFormed, Find, Extract, Closed, LineBreak;
    ComposeFrames(before, region, after, e);
    ComposeExtract(before, region, after, e);
    assert region + after[..0] == region;
  }

  lemma TailLength(region: string, e: nat)
    requires RegionEnd(region, e)
    ensures LineBreak(region[e + |END|..]) == |region| - e - |END|
  {
  }

  /** Taking a well-formed text apart around its region. */
  lemma Decompose(text: string) returns (before: string, region: string, after: string)
    requires MarkersWellFormed(text) && Extract(text).Some?
    ensures text == before + region + after && Extract(text) == Some(region)
    ensures Find(text, BEGIN) == Some(|before|)
    ensures Unmarked(before) && IsRegion(region) && Unmarked(after) && Closed(region, after)
  {
    WellFormedIff(text);
    FindNone(text, BEGIN);
    assert exists b: nat, e: nat :: Framed(text, b, e) by {
      if Unmarked(text) { assert false; }
    }
    var b: nat, e: nat :| Framed(text, b, e);
    FramedFinds(text, b, e);
    var upto := e + |END| + LineBreak(text[e + |END|..]);
    ExtractFramed(text, b, e);
    hide Framed, RegionEnd, MarkersWellFormed, Extract, Unmarked, Closed, FindFrom;
    before, region, after := text[..b], text[b..upto], text[upto..];
    assert text == before + region + after;
    DecomposeRegion(text, b, e, upto);
    DecomposeClosed(text, e, b);
    DecomposeRest(text, b, e, upto);
  }

  lemma DecomposeRegion(text: string, b: nat, e: nat, upto: nat)
    requires Framed(text, b, e) && e + |END| <= |text|
    requires upto == e + |END| + LineBreak(text[e + |END|..])
    ensures RegionEnd(text[b..upto], e - b)
  {
    var region := text[b..upto];
    MarkerShape(BEGIN);
    FramedFinds(text, b, e);
    assert region[e - b + |END|..] == text[e + |END|..upto];
    LineBreakWhole(text[e + |END|..]);
    assert text[e + |END|..upto] == text[e + |END|..][..upto - e - |END|];
    forall m, i: nat | m == BEGIN || m == END
      ensures At(region, m, i) <==> b + i + |m| <= upto && At(text, m, b + i)
    {
      if b + i + |m| <= upto {
        assert forall j :: 0 <= j < |region| ==> region[j] == text[b + j];
        assert forall j :: b <= j < upto ==> text[j] == region[j - b];
      }
    }
  }

  lemma LineBreakWhole(text: string)
    ensures LineBreak(text[..LineBreak(text)]) == LineBreak(text)
  {
  }

  lemma DecomposeClosed(text: string, e: nat, b: nat)
    requires Framed(text, b, e) && e + |END| <= |text|
    ensures var upto := e + |END| + LineBreak(text[e + |END|..]);
            Closed(text[b..upto], text[upto..])
  {
    var tail := text[e + |END|..];
    var n := LineBreak(tail);
    var upto := e + |END| + n;
    assert text[upto..] == tail[n..];
    if n > 0 {
      assert text[b..upto][|text[b..upto]| - 1] == tail[n - 1];
    }
  }

  lemma DecomposeRest(text: string, b: nat, e: nat, upto: nat)
    requires Framed(text, b, e) && e + |END| <= upto <= |text| && b <= |text|
    ensures Unmarked(text[..b]) && Unmarked(text[upto..])
  {
    MarkerShape(BEGIN);
    forall m, i: nat | m == BEGIN || m == END
      ensures !At(text[..b], m, i) && !At(text[upto..], m, i)
    {
      assert text == text[..b] + text[b..];
      if At(text[..b], m, i) {
        AtLeft(text[..b], text[b..], m, i);
      }
      if At(text[upto..], m, i) {
        AtSuffix(text, m, upto, i);
      }
    }
  }
}
