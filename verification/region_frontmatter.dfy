/** What frontmatter is, in lines: an opening fence, lines that are no fence, a closing fence, one blank line. */
module RegionFrontmatter {
  import opened Wrappers
  import opened Text
  import opened InstructionRegion
  import opened RegionDetach

  /** A whole line of three dashes, with either line ending. */
  predicate FenceLine(line: string) {
    line == "---\n" || line == "---\r\n"
  }

  /** Whole lines, perhaps none. */
  predicate WholeLines(text: string) {
    text == "" || text[|text| - 1] == '\n'
  }

  ghost predicate FenceIn(text: string, a: string, line: string, b: string) {
    text == a + line + b && FenceLine(line) && WholeLines(a)
  }

  /** Some line is a fence. */
  ghost predicate HoldsFence(text: string) {
    exists a, line, b :: FenceIn(text, a, line, b)
  }

  datatype Block = Block(open: string, middle: string, close: string, blank: string)

  function Whole(b: Block): string {
    b.open + b.middle + b.close + b.blank
  }

  /** A block that ends at its first closing fence, with a blank line after it if there is one. */
  ghost predicate Opens(b: Block, rest: string) {
    && FenceLine(b.open) && FenceLine(b.close) && WholeLines(b.middle) && !HoldsFence(b.middle)
    && b.blank in {"", "\n", "\r\n"} && (b.blank == "" ==> !("\n" <= rest) && !("\r\n" <= rest))
  }

  lemma BreakIs(text: string, i: nat, line: string)
    requires i + |line| <= |text| && text[i..i + |line|] == line && (line == "\n" || line == "\r\n")
    ensures LineBreak(text[i..]) == |line|
  {
    assert text[i..][..|line|] == line;
    assert text[i..][0] == line[0];
  }

  lemma NoBreak(text: string, i: nat)
    requires i <= |text| && !("\n" <= text[i..]) && !("\r\n" <= text[i..])
    ensures LineBreak(text[i..]) == 0
  {
  }

  /** A fence, as the scan knows it, is a fence line at the start of a line. */
  lemma FenceAt(text: string, i: nat)
    requires IsFence(text, i)
    ensures var end := i + 3 + LineBreak(text[i + 3..]);
            end <= |text| && FenceLine(text[i..end]) && text[i - 1] == '\n'
  {
    var more := LineBreak(text[i + 3..]);
    assert text[i..i + 3] == "---";
    assert text[i + 3..][..more] == text[i + 3..i + 3 + more];
    assert text[i..i + 3 + more] == text[i..i + 3] + text[i + 3..i + 3 + more];
  }

  lemma AtFence(text: string, i: nat, line: string)
    requires 0 < i && i + |line| <= |text| && FenceLine(line) && text[i..i + |line|] == line && text[i - 1] == '\n'
    ensures IsFence(text, i) && i + 3 + LineBreak(text[i + 3..]) == i + |line|
  {
    var found := text[i..i + |line|];
    assert text[i] == found[0] && text[i + 1] == found[1] && text[i + 2] == found[2];
    assert text[i + 3..i + |line|] == line[3..];
    assert line[3..] == "\n" || line[3..] == "\r\n";
    BreakIs(text, i + 3, line[3..]);
  }

  /** A fence ends its line, so it ends before whole lines do. */
  lemma FenceEndsBefore(text: string, i: nat, upto: nat)
    requires IsFence(text, i) && i < upto <= |text| && text[upto - 1] == '\n'
    ensures i + 3 + LineBreak(text[i + 3..]) <= upto
  {
    FenceAt(text, i);
    var end := i + 3 + LineBreak(text[i + 3..]);
    var found := text[i..end];
    assert text[i] == found[0] && text[i + 1] == found[1] && text[i + 2] == found[2];
    assert end == i + 5 ==> found[3] == text[i + 3] == '\r';
  }

  lemma Holds(text: string, a: string, line: string, b: string)
    requires FenceIn(text, a, line, b)
    ensures HoldsFence(text)
  {
  }

  /** A fence that starts among whole lines is one of them. */
  lemma FenceInside(text: string, from: nat, upto: nat, i: nat)
    requires 0 < from <= i < upto <= |text| && text[from - 1] == '\n' && WholeLines(text[from..upto])
    requires IsFence(text, i)
    ensures HoldsFence(text[from..upto])
  {
    FenceAt(text, i);
    var middle := text[from..upto];
    assert middle[|middle| - 1] == text[upto - 1];
    FenceEndsBefore(text, i, upto);
    hide IsFence, FenceLine, LineBreak;
    var end := i + 3 + LineBreak(text[i + 3..]);
    var a, line, b := text[from..i], text[i..end], text[end..upto];
    assert middle == a + line + b;
    assert a != "" ==> a[|a| - 1] == text[i - 1];
    Holds(middle, a, line, b);
  }

  lemma OpeningIs(text: string, open: string)
    requires FenceLine(open) && open <= text
    ensures BodyAt(text) == Some(|open|)
  {
    assert text[3] == open[3];
    assert open == "---\n" ==> !("---\r\n" <= text);
  }

  /** Where the parts of a block lie in a text that opens with it. */
  lemma PartsLie(b: Block, rest: string)
    ensures var text := Whole(b) + rest;
            var from, start := |b.open|, |b.open| + |b.middle|;
            var end := start + |b.close|;
            && b.open <= text && text[from..start] == b.middle && text[start..end] == b.close
            && text[end..] == b.blank + rest && text[end..end + |b.blank|] == b.blank
            && |Whole(b)| == end + |b.blank| && text[..|Whole(b)|] == Whole(b)
  {
    var text := Whole(b) + rest;
    var tail := b.close + b.blank + rest;
    assert text == b.open + b.middle + tail;
    assert text == (b.open + b.middle) + b.close + (b.blank + rest);
    assert Whole(b) == (b.open + b.middle + b.close) + b.blank;
    Middle(b.open, b.middle, tail);
    Middle(b.open + b.middle, b.close, b.blank + rest);
    Middle(b.open + b.middle + b.close, b.blank, rest);
    Middle(Whole(b), rest, "");
    assert Whole(b) + rest + "" == text;
  }

  /** Where the middle of three texts lies. */
  lemma Middle(a: string, middle: string, c: string)
    ensures var text := a + middle + c;
            && a <= text && text[..|a|] == a && text[|a|..|a| + |middle|] == middle && text[|a| + |middle|..] == c
  {
  }

  lemma BlankEnds(text: string, end: nat, blank: string, rest: string)
    requires end <= |text| && text[end..] == blank + rest && blank in {"", "\n", "\r\n"}
    requires blank == "" ==> !("\n" <= rest) && !("\r\n" <= rest)
    ensures LineBreak(text[end..]) == |blank|
  {
    if blank == "" {
      assert "" + rest == rest;
      NoBreak(text, end);
    } else {
      assert text[end..end + |blank|] == blank;
      BreakIs(text, end, blank);
    }
  }

  lemma FirstFence(text: string, b: Block, from: nat, start: nat)
    requires FenceLine(b.open) && FenceLine(b.close) && WholeLines(b.middle) && !HoldsFence(b.middle)
    requires from == |b.open| && start == from + |b.middle| && start + |b.close| <= |text|
    requires b.open <= text && text[from..start] == b.middle && text[start..start + |b.close|] == b.close
    ensures ClosingFence(text, from) == Some(start) && LineEnd(text, start) == start + |b.close|
  {
    assert text[from - 1] == b.open[from - 1] == '\n';
    assert b.middle != "" ==> text[start - 1] == b.middle[|b.middle| - 1];
    AtFence(text, start, b.close);
    forall i: nat | from <= i < start
      ensures !IsFence(text, i)
    {
      if IsFence(text, i) {
        FenceInside(text, from, start, i);
        assert false;
      }
    }
    hide IsFence, HoldsFence, FenceLine;
    FirstIs(text, from, start);
  }

  lemma OpensIsFrontmatter(b: Block, rest: string)
    requires Opens(b, rest)
    ensures Frontmatter(Whole(b) + rest) == Whole(b) != ""
  {
    var text := Whole(b) + rest;
    PartsLie(b, rest);
    OpeningIs(text, b.open);
    hide HoldsFence, BodyAt, ClosingFence, IsFence, LineBreak, Whole, FenceEnd, LineEnd, Frontmatter;
    var start := |b.open| + |b.middle|;
    FirstFence(text, b, |b.open|, start);
    BlankEnds(text, start + |b.close|, b.blank, rest);
    BlockEnds(text, |b.open|, start, |Whole(b)|);
  }

  lemma BlockEnds(text: string, from: nat, start: nat, keep: nat)
    requires BodyAt(text) == Some(from) && ClosingFence(text, from) == Some(start) && LineEnd(text, start) <= |text|
    requires keep == LineEnd(text, start) + LineBreak(text[LineEnd(text, start)..])
    ensures keep <= |text| && Frontmatter(text) == text[..keep]
  {
    hide BodyAt, ClosingFence, IsFence, LineBreak;
  }

  lemma FirstIs(text: string, from: nat, start: nat)
    requires from <= start && IsFence(text, start) && forall i: nat :: from <= i < start ==> !IsFence(text, i)
    ensures ClosingFence(text, from) == Some(start)
  {
  }

  function Cut(text: string, from: nat, start: nat, end: nat, keep: nat): Block
    requires from <= start <= end <= keep <= |text|
  {
    Block(text[..from], text[from..start], text[start..end], text[end..keep])
  }

  lemma CutOpens(text: string, from: nat, start: nat, end: nat, keep: nat)
    requires from <= start <= end <= keep <= |text|
    requires FenceLine(text[..from]) && FenceLine(text[start..end])
    requires WholeLines(text[from..start]) && !HoldsFence(text[from..start]) && text[end..keep] in {"", "\n", "\r\n"}
    requires text[end..keep] == "" ==> !("\n" <= text[keep..]) && !("\r\n" <= text[keep..])
    ensures var b := Cut(text, from, start, end, keep);
            Opens(b, text[keep..]) && Whole(b) == text[..keep] && text == Whole(b) + text[keep..]
  {
    hide FenceLine, WholeLines, HoldsFence;
    InParts(text, from, start, end, keep);
  }

  /** Where the first closing fence of a frontmatter block stands. */
  lemma FrontmatterEnds(text: string) returns (from: nat, start: nat)
    requires Frontmatter(text) != ""
    ensures BodyAt(text) == Some(from) && ClosingFence(text, from) == Some(start)
    ensures start + 3 <= |text| && Frontmatter(text) == text[..FenceEnd(text, start)]
  {
    from := BodyAt(text).value;
    start := ClosingFence(text, from).value;
  }

  /** The parts of a frontmatter block. */
  lemma FrontmatterOpens(text: string) returns (b: Block, rest: string)
    requires Frontmatter(text) != ""
    ensures Opens(b, rest) && text == Whole(b) + rest && Frontmatter(text) == Whole(b)
  {
    hide HoldsFence, ClosingFence, IsFence, LineBreak, FenceLine, BodyAt, WholeLines, Frontmatter, Opens, Whole, Cut;
    var from, start := FrontmatterEnds(text);
    FenceAt(text, start);
    FromOpening(text, from);
    NoFenceBefore(text, from, start);
    var end, keep := LineEnd(text, start), FenceEnd(text, start);
    BlankIs(text, end);
    LinesUpTo(text, from, start);
    CutOpens(text, from, start, end, keep);
    b, rest := Cut(text, from, start, end, keep), text[keep..];
  }

  lemma LinesUpTo(text: string, from: nat, start: nat)
    requires from <= start <= |text| && (start > from ==> text[start - 1] == '\n')
    ensures WholeLines(text[from..start])
  {
    var middle := text[from..start];
    assert middle != "" ==> middle[|middle| - 1] == text[start - 1];
  }

  lemma FromOpening(text: string, from: nat)
    requires BodyAt(text) == Some(from)
    ensures 0 < from <= |text| && FenceLine(text[..from]) && text[from - 1] == '\n'
  {
  }

  lemma InParts(text: string, from: nat, start: nat, end: nat, keep: nat)
    requires from <= start <= end <= keep <= |text|
    ensures text[..from] + text[from..start] + text[start..end] + text[end..keep] == text[..keep]
    ensures text[..keep] + text[keep..] == text
  {
  }

  lemma SliceOfSlice(text: string, from: nat, upto: nat, i: nat, j: nat)
    requires from <= upto <= |text| && i <= j <= upto - from
    ensures text[from..upto][i..j] == text[from + i..from + j]
  {
    var part, whole := text[from..upto][i..j], text[from + i..from + j];
    assert |part| == |whole| && forall k :: 0 <= k < |part| ==> part[k] == whole[k];
  }

  lemma HeldFence(text: string, from: nat, start: nat, a: string, line: string, c: string)
    requires 0 < from <= start <= |text| && text[from - 1] == '\n' && FenceIn(text[from..start], a, line, c)
    ensures from + |a| < start && IsFence(text, from + |a|)
  {
    var middle := text[from..start];
    var i := from + |a|;
    CutOut(a, line, c);
    assert |middle| == |a| + |line| + |c| && |line| >= 4;
    SliceOfSlice(text, from, start, |a|, |a| + |line|);
    assert a != "" ==> text[i - 1] == middle[|a| - 1] == a[|a| - 1];
    hide IsFence;
    AtFence(text, i, line);
  }

  lemma NoFenceBefore(text: string, from: nat, start: nat)
    requires 0 < from <= start <= |text| && text[from - 1] == '\n'
    requires forall i :: from <= i < start ==> !IsFence(text, i)
    ensures !HoldsFence(text[from..start])
  {
    hide IsFence, FenceIn;
    if a, line, c :| FenceIn(text[from..start], a, line, c) {
      HeldFence(text, from, start, a, line, c);
      assert false;
    }
  }

  lemma CutOut(a: string, line: string, c: string)
    ensures (a + line + c)[|a|..|a| + |line|] == line
    ensures a != "" ==> (a + line + c)[|a| - 1] == a[|a| - 1]
  {
  }

  lemma BreakTaken(text: string)
    ensures text[..LineBreak(text)] in {"", "\n", "\r\n"}
    ensures LineBreak(text) == 0 ==> !("\n" <= text) && !("\r\n" <= text)
  {
    if LineBreak(text) == 2 {
      assert text[..2] == "\r\n";
    } else if LineBreak(text) == 1 {
      assert text[..1] == "\n";
    }
  }

  lemma BlankIs(text: string, end: nat)
    requires end <= |text|
    ensures var keep := end + LineBreak(text[end..]);
            && keep <= |text| && text[end..keep] in {"", "\n", "\r\n"}
            && (text[end..keep] == "" ==> !("\n" <= text[keep..]) && !("\r\n" <= text[keep..]))
  {
    var more := LineBreak(text[end..]);
    assert text[end..][..more] == text[end..end + more];
    assert |text[end..end + more]| == more;
    BreakTaken(text[end..]);
  }

  /**
   A text's frontmatter, exactly: a block of lines from a fence that opens the text
   to the next fence, and a blank line behind it; nothing when there is no such block.
  */
  lemma FrontmatterIff(text: string, block: string)
    ensures Frontmatter(text) == block
       <==> if block == "" then forall b, rest :: Opens(b, rest) ==> text != Whole(b) + rest
            else exists b, rest :: Opens(b, rest) && text == Whole(b) + rest && block == Whole(b)
  {
    hide Frontmatter, Opens, Whole;
    forall b, rest | Opens(b, rest)
      ensures Frontmatter(Whole(b) + rest) == Whole(b) != ""
    {
      OpensIsFrontmatter(b, rest);
    }
    if Frontmatter(text) != "" {
      var b, rest := FrontmatterOpens(text);
    }
  }
}
