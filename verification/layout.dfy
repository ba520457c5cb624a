/**
 Greedy wrapping of prose, as crates/harness-runtime/src/human.rs does it: every
 word kept in order, every line within the width unless it is one long word, and
 no layout with fewer lines.
*/
module Layout {

  /** Unicode white space. */
  predicate IsSpace(c: char) {
    var code := c as int;
    || 9 <= code <= 13 || code == 0x20 || code == 0x85 || code == 0xA0 || code == 0x1680
    || 0x2000 <= code <= 0x200A || code == 0x2028 || code == 0x2029
    || code == 0x202F || code == 0x205F || code == 0x3000
  }

  predicate IsWord(w: string) {
    w != "" && forall i :: 0 <= i < |w| ==> !IsSpace(w[i])
  }

  /** Length of the run of characters that are not white space. */
  function RunLength(text: string): (n: nat)
    ensures n <= |text| && (forall i :: 0 <= i < n ==> !IsSpace(text[i])) && (n < |text| ==> IsSpace(text[n]))
    decreases |text|
  {
    if text == "" || IsSpace(text[0]) then 0 else 1 + RunLength(text[1..])
  }

  /** The maximal runs of characters that are not white space. */
  function Words(text: string): (words: seq<string>)
    ensures forall w :: w in words ==> IsWord(w)
    decreases |text|
  {
    if text == "" then []
    else if IsSpace(text[0]) then Words(text[1..])
    else [text[..RunLength(text)]] + Words(text[RunLength(text)..])
  }

  // ----- lines of a word sequence -----

  /** Words `i` up to `j` on one line. */
  function Line(words: seq<string>, i: nat, j: nat): string
    requires i < j <= |words|
    decreases j
  {
    if j == i + 1 then words[i] else Line(words, i, j - 1) + " " + words[j - 1]
  }

  /** A line fits, or it is one word too long to break. */
  predicate Fits(words: seq<string>, width: nat, i: nat, j: nat)
    requires i < j <= |words|
  {
    j == i + 1 || |Line(words, i, j)| <= width
  }

  /** Line ends that lay out the words from `from` on, each line fitting. */
  ghost predicate Lays(words: seq<string>, width: nat, from: nat, ends: seq<nat>)
    decreases |ends|
  {
    if ends == [] then from == |words|
    else from < ends[0] <= |words| && Fits(words, width, from, ends[0]) && Lays(words, width, ends[0], ends[1..])
  }

  /** The lines a layout gives. */
  function Lines(words: seq<string>, from: nat, ends: seq<nat>): seq<string>
    decreases |ends|
  {
    if ends == [] then []
    else (if from < ends[0] <= |words| then [Line(words, from, ends[0])] else []) + Lines(words, ends[0], ends[1..])
  }

  /** The greedy ends, with words `i` up to `j` on the current line. */
  function Greedy(words: seq<string>, width: nat, i: nat, j: nat): (ends: seq<nat>)
    requires i < j <= |words|
    ensures ends != []
    decreases |words| - j
  {
    if j == |words| then [j]
    else if |Line(words, i, j)| + 1 + |words[j]| <= width then Greedy(words, width, i, j + 1)
    else [j] + Greedy(words, width, j, j + 1)
  }

  function GreedyAll(words: seq<string>, width: nat): seq<nat> {
    if words == [] then [] else Greedy(words, width, 0, 1)
  }

  // ----- the loop as written -----

  /** Lines of one text, filled word by word. */
  method Wrapped(text: string, width: nat) returns (lines: seq<string>)
    ensures lines == Lines(Words(text), 0, GreedyAll(Words(text), width))
  {
    hide Words, Greedy, Lines, IsWord;
    var words := Words(text);
    lines := [];
    var line := "";
    ghost var from := 0;
    for n := 0 to |words|
      invariant if n == 0 then from == 0 && line == "" && lines == []
                else from < n && line == Line(words, from, n)
                     && lines + Lines(words, from, Greedy(words, width, from, n))
                        == Lines(words, 0, Greedy(words, width, 0, 1))
    {
      var word := words[n];
      LineIsNotEmpty(words, from, n);
      if line == "" {
        line := word;
      } else if |line| + 1 + |word| <= width {
        GreedyExtends(words, width, from, n);
        line := line + " " + word;
      } else {
        GreedyBreaks(words, width, from, n);
        lines := lines + [line];
        line := word;
        from := n;
      }
    }
    LineIsNotEmpty(words, from, |words|);
    GreedyEnds(words, width, from);
    if line != "" {
      lines := lines + [line];
    }
  }

  lemma GreedyExtends(words: seq<string>, width: nat, i: nat, j: nat)
    requires i < j < |words| && |Line(words, i, j)| + 1 + |words[j]| <= width
    ensures Greedy(words, width, i, j) == Greedy(words, width, i, j + 1)
  {
  }

  lemma GreedyEnds(words: seq<string>, width: nat, i: nat)
    ensures i < |words| ==> Lines(words, i, Greedy(words, width, i, |words|)) == [Line(words, i, |words|)]
    ensures Lines(words, 0, []) == []
  {
    if i < |words| {
      assert Greedy(words, width, i, |words|) == [|words|];
      assert [|words|][1..] == [];
    }
  }

  lemma LineIsNotEmpty(words: seq<string>, i: nat, j: nat)
    requires forall w :: w in words ==> IsWord(w)
    ensures i < j <= |words| ==> Line(words, i, j) != ""
  {
    if i < j <= |words| {
      assert words[i] in words;
    }
  }

  lemma GreedyBreaks(words: seq<string>, width: nat, i: nat, j: nat)
    requires i < j < |words| && |Line(words, i, j)| + 1 + |words[j]| > width
    ensures Lines(words, i, Greedy(words, width, i, j))
         == [Line(words, i, j)] + Lines(words, j, Greedy(words, width, j, j + 1))
  {
    assert ([j] + Greedy(words, width, j, j + 1))[1..] == Greedy(words, width, j, j + 1);
  }

  // ----- the greedy layout is a layout -----

  lemma {:induction false} GreedyLays(words: seq<string>, width: nat, i: nat, j: nat)
    requires i < j <= |words| && Fits(words, width, i, j)
    ensures Lays(words, width, i, Greedy(words, width, i, j))
    decreases |words| - j
  {
    if j == |words| {
      assert Lays(words, width, j, []);
    } else if |Line(words, i, j)| + 1 + |words[j]| <= width {
      GreedyLays(words, width, i, j + 1);
    } else {
      GreedyLays(words, width, j, j + 1);
      assert ([j] + Greedy(words, width, j, j + 1))[1..] == Greedy(words, width, j, j + 1);
    }
  }

  // ----- no layout has fewer lines -----

  /** A part of a line is no longer than the line. */
  lemma {:induction false} PartIsShorter(words: seq<string>, i: nat, a: nat, b: nat, j: nat)
    requires i <= a < b <= j <= |words|
    ensures |Line(words, a, b)| <= |Line(words, i, j)|
    decreases j - i
  {
    if b < j {
      PartIsShorter(words, i, a, b, j - 1);
    } else if i < a {
      PartIsShorterLeft(words, i, a, b);
    }
  }

  lemma {:induction false} PartIsShorterLeft(words: seq<string>, i: nat, a: nat, b: nat)
    requires i < a < b <= |words|
    ensures |Line(words, a, b)| <= |Line(words, i, b)|
    decreases b
  {
    if a < b - 1 {
      PartIsShorterLeft(words, i, a, b - 1);
    }
  }

  /** Where the greedy line that now ends at `j` really ends. */
  lemma {:induction false} GreedyReaches(words: seq<string>, width: nat, i: nat, j: nat, k: nat)
    requires i < j <= k <= |words| && Fits(words, width, i, k)
    ensures k <= Greedy(words, width, i, j)[0] <= |words|
    ensures var e := Greedy(words, width, i, j)[0];
            Greedy(words, width, i, j)[1..] == if e == |words| then [] else Greedy(words, width, e, e + 1)
    decreases |words| - j
  {
    if j < k {
      PartIsShorter(words, i, i, j + 1, k);
      GreedyReaches(words, width, i, j + 1, k);
    } else if j < |words| && |Line(words, i, j)| + 1 + |words[j]| <= width {
      GreedyReaches(words, width, i, j + 1, j + 1);
    }
  }

  /** Starting further along, greed never needs more lines than any layout. */
  lemma {:induction false} GreedyStaysAhead(words: seq<string>, width: nat, from: nat, ends: seq<nat>, j: nat)
    requires Lays(words, width, from, ends) && from <= j < |words|
    ensures |Greedy(words, width, j, j + 1)| <= |ends|
    decreases |ends|
  {
    if ends != [] {
      var e := ends[0];
      if e <= j {
        GreedyStaysAhead(words, width, e, ends[1..], j);
      } else {
        if from < j {
          PartIsShorter(words, from, j, e, e);
        }
        GreedyReaches(words, width, j, j + 1, e);
        var g := Greedy(words, width, j, j + 1);
        if g[0] < |words| {
          GreedyStaysAhead(words, width, e, ends[1..], g[0]);
        }
      }
    }
  }

  /** The greedy layout lays out every word, within the width, in as few lines as any layout. */
  lemma GreedyIsBest(words: seq<string>, width: nat)
    ensures Lays(words, width, 0, GreedyAll(words, width))
    ensures forall ends :: Lays(words, width, 0, ends) ==> |GreedyAll(words, width)| <= |ends|
  {
    if words == [] {
      assert Lays(words, width, 0, []);
    } else {
      GreedyLays(words, width, 0, 1);
      forall ends | Lays(words, width, 0, ends)
        ensures |GreedyAll(words, width)| <= |ends|
      {
        GreedyStaysAhead(words, width, 0, ends, 0);
      }
    }
  }

  // ----- nothing is lost -----

  lemma {:induction false} RunOfWord(w: string, rest: string)
    requires forall i :: 0 <= i < |w| ==> !IsSpace(w[i])
    requires rest == "" || IsSpace(rest[0])
    ensures RunLength(w + rest) == |w|
    decreases |w|
  {
    if w == "" {
      assert w + rest == rest;
    } else {
      assert (w + rest)[1..] == w[1..] + rest;
      RunOfWord(w[1..], rest);
    }
  }

  lemma WordThenSpace(w: string, rest: string)
    requires IsWord(w)
    ensures Words(w + " " + rest) == [w] + Words(rest)
    ensures Words(w) == [w]
  {
    RunOfWord(w, " " + rest);
    assert w + " " + rest == w + (" " + rest);
    var whole := w + " " + rest;
    assert whole[..|w|] == w && whole[|w|..] == " " + rest;
    assert (" " + rest)[1..] == rest;
    RunOfWord(w, "");
    assert w + "" == w && w[..|w|] == w && w[|w|..] == "";
  }

  /** The characters Unicode calls white space. */
  predicate White(c: char) {
    c in {'\t', '\n', '\U{B}', '\U{C}', '\r', ' ', '\U{85}', '\U{A0}', '\U{1680}',
          '\U{2000}', '\U{2001}', '\U{2002}', '\U{2003}', '\U{2004}', '\U{2005}', '\U{2006}',
          '\U{2007}', '\U{2008}', '\U{2009}', '\U{200A}',
          '\U{2028}', '\U{2029}', '\U{202F}', '\U{205F}', '\U{3000}'}
  }

  lemma SpaceIsWhite(c: char)
    ensures IsSpace(c) <==> White(c)
  {
  }

  /** Only white space. */
  ghost predicate Gap(text: string) {
    forall i :: 0 <= i < |text| ==> White(text[i])
  }

  /** A word after a gap, with the rest of the text behind it at a word's end. */
  ghost predicate Opens(text: string, gap: string, word: string, rest: string) {
    && text == gap + word + rest && Gap(gap) && word != "" && (forall i :: 0 <= i < |word| ==> !White(word[i]))
    && (rest == "" || White(rest[0]))
  }

  /** The text is these words with white space between and around them. */
  ghost predicate Weaves(text: string, words: seq<string>)
    decreases |words|
  {
    if words == [] then Gap(text)
    else exists gap, rest :: Opens(text, gap, words[0], rest) && Weaves(rest, words[1..])
  }

  lemma {:induction false} WordsAfterGap(gap: string, rest: string)
    requires Gap(gap)
    ensures Words(gap + rest) == Words(rest)
    decreases |gap|
  {
    if gap == "" {
      assert gap + rest == rest;
    } else {
      SpaceIsWhite(gap[0]);
      hide White, IsSpace;
      assert (gap + rest)[0] == gap[0] && (gap + rest)[1..] == gap[1..] + rest;
      WordsAfterGap(gap[1..], rest);
    }
  }

  lemma WordsOpen(text: string, gap: string, word: string, rest: string)
    requires Opens(text, gap, word, rest)
    ensures Words(text) == [word] + Words(rest)
  {
    forall c {
      SpaceIsWhite(c);
    }
    hide White, IsSpace;
    assert text == gap + (word + rest);
    WordsAfterGap(gap, word + rest);
    RunOfWord(word, rest);
    assert (word + rest)[0] == word[0];
    assert (word + rest)[..|word|] == word && (word + rest)[|word|..] == rest;
  }

  lemma {:induction false} WeavesIts(text: string)
    ensures Weaves(text, Words(text))
    decreases |text|
  {
    forall c {
      SpaceIsWhite(c);
    }
    hide White, IsSpace;
    if text != "" {
      if IsSpace(text[0]) {
        WeavesIts(text[1..]);
        SpaceBefore(text, Words(text));
      } else {
        var n := RunLength(text);
        var rest := text[n..];
        WeavesIts(rest);
        assert text == "" + text[..n] + rest;
        assert Opens(text, "", text[..n], rest);
        assert Words(text)[0] == text[..n] && Words(text)[1..] == Words(rest);
        assert Opens(text, "", Words(text)[0], rest) && Weaves(rest, Words(text)[1..]);
      }
    }
  }

  lemma SpaceBefore(text: string, words: seq<string>)
    requires text != "" && White(text[0]) && Weaves(text[1..], words)
    ensures Weaves(text, words)
  {
    hide White;
    if words != [] {
      var gap, rest :| Opens(text[1..], gap, words[0], rest) && Weaves(rest, words[1..]);
      var wider := [text[0]] + gap;
      assert text == [text[0]] + text[1..];
      assert text == wider + words[0] + rest;
      assert Opens(text, wider, words[0], rest);
    }
  }

  /** The words of a text are the only way to see it as words with white space between and around them. */
  lemma {:induction false} WordsIff(text: string, words: seq<string>)
    ensures Words(text) == words <==> Weaves(text, words)
    decreases |words|
  {
    hide Words, Opens, White;
    WeavesIts(text);
    if Weaves(text, words) {
      if words == [] {
        WordsAfterGap(text, "");
        NoWords();
        assert text + "" == text;
      } else {
        var gap, rest :| Opens(text, gap, words[0], rest) && Weaves(rest, words[1..]);
        WordsIff(rest, words[1..]);
        WordsOpen(text, gap, words[0], rest);
        assert words == [words[0]] + words[1..];
      }
    }
  }

  lemma NoWords()
    ensures Words("") == []
  {
  }

  /** A line's words are the words put on it. */
  lemma {:induction false} LineFront(words: seq<string>, i: nat, j: nat)
    requires i + 1 < j <= |words|
    ensures Line(words, i, j) == words[i] + " " + Line(words, i + 1, j)
    decreases j
  {
    if i + 2 < j {
      LineFront(words, i, j - 1);
      assert words[i] + " " + Line(words, i + 1, j - 1) + " " + words[j - 1]
          == words[i] + " " + (Line(words, i + 1, j - 1) + " " + words[j - 1]);
    }
  }

  lemma {:induction false} LineKeepsWords(words: seq<string>, i: nat, j: nat)
    requires i < j <= |words| && forall w :: w in words ==> IsWord(w)
    ensures Words(Line(words, i, j)) == words[i..j]
    decreases j - i
  {
    assert words[i] in words;
    if i + 1 == j {
      WordThenSpace(words[i], "");
    } else {
      LineFront(words, i, j);
      WordThenSpace(words[i], Line(words, i + 1, j));
      LineKeepsWords(words, i + 1, j);
      assert words[i..j] == [words[i]] + words[i + 1..j];
    }
  }

  /** The words of every line, in order. */
  function AllWords(lines: seq<string>): seq<string>
    decreases |lines|
  {
    if lines == [] then [] else Words(lines[0]) + AllWords(lines[1..])
  }

  lemma LinesStep(words: seq<string>, from: nat, ends: seq<nat>)
    requires ends != [] && from < ends[0] <= |words|
    ensures Lines(words, from, ends) == [Line(words, from, ends[0])] + Lines(words, ends[0], ends[1..])
  {
    hide Line;
  }

  lemma AllWordsStep(line: string, more: seq<string>)
    ensures AllWords([line] + more) == Words(line) + AllWords(more)
  {
    hide Words;
    assert ([line] + more)[1..] == more;
  }

  lemma {:induction false} LinesKeepWords(words: seq<string>, width: nat, from: nat, ends: seq<nat>)
    requires Lays(words, width, from, ends) && forall w :: w in words ==> IsWord(w)
    ensures from <= |words| && AllWords(Lines(words, from, ends)) == words[from..]
    ensures |Lines(words, from, ends)| == |ends|
    decreases |ends|
  {
    hide Words, Fits, IsWord;
    if ends != [] {
      hide Line, Lines, AllWords;
      var e := ends[0];
      LinesKeepWords(words, width, e, ends[1..]);
      LineKeepsWords(words, from, e);
      LinesStep(words, from, ends);
      AllWordsStep(Line(words, from, e), Lines(words, e, ends[1..]));
      assert words[from..] == words[from..e] + words[e..];
    }
  }

  lemma {:induction false} LinesFit(words: seq<string>, width: nat, from: nat, ends: seq<nat>, k: nat)
    requires Lays(words, width, from, ends) && forall w :: w in words ==> IsWord(w)
    requires k < |Lines(words, from, ends)|
    ensures Acceptable(Lines(words, from, ends)[k], width)
    decreases |ends|
  {
    if ends != [] {
      var e := ends[0];
      if k == 0 {
        LineKeepsWords(words, from, e);
      } else {
        LinesFit(words, width, e, ends[1..], k - 1);
      }
    }
  }

  // ----- against any lines at all -----

  lemma {:induction false} LineOfPart(words: seq<string>, from: nat, part: seq<string>, i: nat, j: nat)
    requires from + |part| <= |words| && words[from..from + |part|] == part && i < j <= |part|
    ensures Line(part, i, j) == Line(words, from + i, from + j)
    decreases j
  {
    assert words[from + j - 1] == part[j - 1] && words[from + i] == part[i];
    if i + 1 < j {
      LineOfPart(words, from, part, i, j - 1);
    }
  }

  lemma LineOfAll(words: seq<string>)
    requires |words| > 1
    ensures |Line(words, 0, |words|)| == |words[0]| + 1 + |Line(words[1..], 0, |words| - 1)|
  {
    hide Line;
    LineFront(words, 0, |words|);
    LineOfPart(words, 1, words[1..], 0, |words| - 1);
  }

  /** One space between words is the least a text can have. */
  lemma {:induction false} LineIsShortest(text: string)
    ensures Words(text) != [] ==> |Line(Words(text), 0, |Words(text)|)| <= |text|
    decreases |text|
  {
    hide IsSpace;
    if text != "" {
      if IsSpace(text[0]) {
        LineIsShortest(text[1..]);
      } else {
        hide RunLength;
        var r := RunLength(text);
        var rest, words := text[r..], Words(text);
        assert words == [text[..r]] + Words(rest) && words[1..] == Words(rest);
        if Words(rest) == [] {
          assert Line(words, 0, 1) == words[0];
        } else {
          assert Words(rest) == Words(rest[1..]);
          hide Words, Line;
          LineIsShortest(rest[1..]);
          LineOfAll(words);
        }
      }
    }
  }

  /** A line that is within the width, or one word. */
  predicate Acceptable(line: string, width: nat) {
    |line| <= width || |Words(line)| == 1
  }

  lemma AcceptableFits(words: seq<string>, width: nat, from: nat, line: string)
    requires Words(line) != [] && from + |Words(line)| <= |words| && words[from..from + |Words(line)|] == Words(line)
    requires Acceptable(line, width)
    ensures Fits(words, width, from, from + |Words(line)|)
  {
    LineIsShortest(line);
    LineOfPart(words, from, Words(line), 0, |Words(line)|);
  }

  /** Any acceptable lines holding the words give a layout with no more lines. */
  lemma {:induction false} AnyLinesLay(words: seq<string>, width: nat, from: nat, other: seq<string>)
    returns (ends: seq<nat>)
    requires from <= |words| && AllWords(other) == words[from..]
    requires forall k :: 0 <= k < |other| ==> Acceptable(other[k], width)
    ensures Lays(words, width, from, ends) && |ends| <= |other|
    decreases |other|
  {
    hide Words, Acceptable, Fits;
    if other == [] {
      ends := [];
    } else {
      var first, rest := Words(other[0]), AllWords(other[1..]);
      var e := from + |first|;
      assert words[from..] == first + rest;
      assert words[e..] == rest && words[from..e] == first;
      var more := AnyLinesLay(words, width, e, other[1..]);
      if first == [] {
        ends := more;
      } else {
        assert Acceptable(other[0], width);
        AcceptableFits(words, width, from, other[0]);
        ends := [e] + more;
        assert ends[1..] == more;
      }
    }
  }

  /**
   What wrapping promises of its lines: the text's words, all and in order; each
   line acceptable; and no acceptable lines holding those words are fewer.
  */
  lemma WrappedIsRight(text: string, width: nat, lines: seq<string>)
    requires lines == Lines(Words(text), 0, GreedyAll(Words(text), width))
    ensures AllWords(lines) == Words(text)
    ensures forall k :: 0 <= k < |lines| ==> Acceptable(lines[k], width)
    ensures forall other ::
              AllWords(other) == Words(text) && (forall k :: 0 <= k < |other| ==> Acceptable(other[k], width))
              ==> |lines| <= |other|
  {
    hide Words, Fits, Line;
    var words := Words(text);
    var ends := GreedyAll(words, width);
    GreedyIsBest(words, width);
    LinesKeepWords(words, width, 0, ends);
    forall k | 0 <= k < |lines|
      ensures Acceptable(lines[k], width)
    {
      LinesFit(words, width, 0, ends, k);
    }
    forall other | AllWords(other) == words && forall k :: 0 <= k < |other| ==> Acceptable(other[k], width)
      ensures |lines| <= |other|
    {
      var laid := AnyLinesLay(words, width, 0, other);
    }
  }
}
