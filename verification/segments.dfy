/** Texts cut at separator characters, and put together again. */
module Segments {

  /** The pieces between separators; never empty, so a leading or doubled separator leaves an empty piece. */
  function Split(text: string, seps: set<char>): (pieces: seq<string>)
    ensures |pieces| > 0
    decreases |text|
  {
    if text == "" then [""]
    else if text[0] in seps then [""] + Split(text[1..], seps)
    else var rest := Split(text[1..], seps); [[text[0]] + rest[0]] + rest[1..]
  }

  function Join(pieces: seq<string>, sep: char): string
    requires |pieces| > 0
    decreases |pieces|
  {
    if |pieces| == 1 then pieces[0] else pieces[0] + [sep] + Join(pieces[1..], sep)
  }

  lemma {:induction false} JoinSplit(text: string, sep: char)
    ensures Join(Split(text, {sep}), sep) == text
    decreases |text|
  {
    if text != "" {
      JoinSplit(text[1..], sep);
      var rest := Split(text[1..], {sep});
      assert text == [text[0]] + text[1..];
      if text[0] == sep {
        assert ([""] + rest)[1..] == rest;
      } else if |rest| > 1 {
        assert ([[text[0]] + rest[0]] + rest[1..])[1..] == rest[1..];
      }
    }
  }

  lemma SplitCons(c: char, rest: string, sep: char)
    ensures var pieces := Split(rest, {sep});
            Split([c] + rest, {sep}) == if c == sep then [""] + pieces else [[c] + pieces[0]] + pieces[1..]
  {
    assert ([c] + rest)[1..] == rest;
  }

  /** Cutting is additive at a separator. */
  lemma {:induction false} SplitAppend(a: string, sep: char, b: string)
    ensures Split(a + [sep] + b, {sep}) == Split(a, {sep}) + Split(b, {sep})
    decreases |a|
  {
    hide Split;
    if a == "" {
      assert a + [sep] + b == [sep] + b;
      SplitCons(sep, b, sep);
      SplitUnbroken("", sep);
    } else {
      assert a == [a[0]] + a[1..] && a + [sep] + b == [a[0]] + (a[1..] + [sep] + b);
      SplitCons(a[0], a[1..], sep);
      SplitCons(a[0], a[1..] + [sep] + b, sep);
      SplitAppend(a[1..], sep, b);
      var left, right := Split(a[1..], {sep}), Split(b, {sep});
      assert (left + right)[0] == left[0] && (left + right)[1..] == left[1..] + right;
    }
  }

  lemma {:induction false} PiecesHaveNoSeparator(text: string, seps: set<char>)
    ensures forall p, c :: p in Split(text, seps) && c in p ==> c in text && c !in seps
    decreases |text|
  {
    if text != "" {
      PiecesHaveNoSeparator(text[1..], seps);
      var rest := Split(text[1..], seps);
      forall p, c | p in Split(text, seps) && c in p
        ensures c in text && c !in seps
      {
        if text[0] in seps {
          assert p in rest;
        } else if p in rest[1..] {
          assert p in rest;
        } else {
          assert p == [text[0]] + rest[0];
          assert c == text[0] || c in rest[0];
        }
      }
    }
  }

  /** Every character that is not a separator is in a piece. */
  lemma {:induction false} PiecesCover(text: string, seps: set<char>, c: char)
    requires c in text && c !in seps
    ensures exists p :: p in Split(text, seps) && c in p
    decreases |text|
  {
    var rest := Split(text[1..], seps);
    if text[0] !in seps && c == text[0] {
      assert c in Split(text, seps)[0];
    } else {
      PiecesCover(text[1..], seps, c);
      var p :| p in rest && c in p;
      if text[0] in seps {
        assert p in [""] + rest;
      } else if p == rest[0] {
        assert c in Split(text, seps)[0];
      } else {
        assert p in rest[1..];
        assert p in Split(text, seps);
      }
    }
  }

  /** A separator that does not occur makes no difference. */
  lemma {:induction false} SplitWithout(text: string, sep: char, extra: char)
    requires extra !in text
    ensures Split(text, {sep, extra}) == Split(text, {sep})
    decreases |text|
  {
    if text != "" {
      SplitWithout(text[1..], sep, extra);
    }
  }

  lemma {:induction false} SplitUnbroken(text: string, sep: char)
    requires sep !in text
    ensures Split(text, {sep}) == [text]
    decreases |text|
  {
    if text != "" {
      SplitUnbroken(text[1..], sep);
      assert text == [text[0]] + text[1..];
    }
  }

  lemma {:induction false} JoinAppend(a: seq<string>, b: seq<string>, sep: char)
    requires |a| > 0 && |b| > 0
    ensures Join(a + b, sep) == Join(a, sep) + [sep] + Join(b, sep)
    decreases |a|
  {
    if |a| == 1 {
      assert a + b == [a[0]] + b && (a + b)[1..] == b;
    } else {
      assert (a + b)[0] == a[0] && (a + b)[1..] == a[1..] + b;
      JoinAppend(a[1..], b, sep);
    }
  }

  /** One text's pieces begin another's exactly when it is that text or is followed there by a separator. */
  lemma PiecesBeginIff(outer: string, sep: char, text: string)
    ensures Split(outer, {sep}) <= Split(text, {sep}) <==> text == outer || outer + [sep] <= text
  {
    hide Split, Join;
    var head, all := Split(outer, {sep}), Split(text, {sep});
    if outer + [sep] <= text {
      var rest := text[|outer| + 1..];
      assert text == outer + [sep] + rest;
      SplitAppend(outer, sep, rest);
    }
    if head <= all {
      JoinSplit(outer, sep);
      JoinSplit(text, sep);
      var rest := all[|head|..];
      assert all == head + rest;
      if rest != [] {
        JoinAppend(head, rest, sep);
        assert text == outer + [sep] + Join(rest, sep);
      } else {
        assert all == head;
      }
    }
  }
}
