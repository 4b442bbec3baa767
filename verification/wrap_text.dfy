/**
 * `wrapText` of `NestedTreemap`: a tile label is split into words and laid
 * out greedily into lines no wider than the tile. Text measurement
 * (`getComputedTextLength`) depends on the browser's fonts, so it is a
 * parameter: any function from a line's text to its width.
 */
module WrapText {
  import opened Seqs

  /** The characters JavaScript's `\s` matches. */
  predicate IsSpace(c: char) {
    c == ' ' || c == '\t' || c == '\n' || c == '\r' || c == '\U{000B}' || c == '\U{000C}'
    || c == '\U{00A0}' || c == '\U{1680}' || ('\U{2000}' <= c <= '\U{200A}')
    || c == '\U{2028}' || c == '\U{2029}' || c == '\U{202F}' || c == '\U{205F}'
    || c == '\U{3000}' || c == '\U{FEFF}'
  }

  predicate NoSpace(w: string) {
    forall k :: 0 <= k < |w| ==> !IsSpace(w[k])
  }

  function NotSpace(): char -> bool {
    (c: char) => !IsSpace(c)
  }

  /**
   * `text.split(/\s+/)`: the pieces between maximal runs of whitespace. A
   * leading run yields an empty first piece and a trailing run an empty last
   * one; the empty text yields one empty piece.
   */
  function Split(s: string): (r: seq<string>)
    ensures |r| >= 1
    ensures |r[0]| == 0 <==> |s| == 0 || IsSpace(s[0])
    decreases |s|
  {
    if |s| == 0 then [""]
    else if IsSpace(s[0]) then
      if |s| > 1 && IsSpace(s[1]) then Split(s[1..]) else [""] + Split(s[1..])
    else
      var r := Split(s[1..]);
      [[s[0]] + r[0]] + r[1..]
  }

  /** No piece holds whitespace. */
  lemma {:induction false} SplitNoSpace(s: string)
    ensures forall i :: 0 <= i < |Split(s)| ==> NoSpace(Split(s)[i])
    decreases |s|
  {
    if |s| > 0 {
      SplitNoSpace(s[1..]);
      var r := Split(s[1..]);
      if !IsSpace(s[0]) {
        var r' := [[s[0]] + r[0]] + r[1..];
        assert forall i :: 1 <= i < |r'| ==> r'[i] == r[i];
      }
    }
  }

  /** Only the first and the last piece can be empty. */
  lemma {:induction false} SplitInteriorNonEmpty(s: string)
    ensures forall i :: 0 < i < |Split(s)| - 1 ==> |Split(s)[i]| > 0
    decreases |s|
  {
    if |s| > 0 {
      SplitInteriorNonEmpty(s[1..]);
      var r := Split(s[1..]);
      if IsSpace(s[0]) {
        if |s| > 1 && !IsSpace(s[1]) {
          assert s[1..][0] == s[1];
          assert |r[0]| > 0;
          assert forall i :: 1 <= i < |[""] + r| ==> ([""] + r)[i] == r[i - 1];
        }
      } else {
        var r' := [[s[0]] + r[0]] + r[1..];
        assert forall i :: 1 <= i < |r'| ==> r'[i] == r[i];
      }
    }
  }

  /** Filtering out whitespace, one character at a time. */
  lemma FilterHead(s: string)
    requires |s| > 0
    ensures Filter(NotSpace(), s) == (if IsSpace(s[0]) then [] else [s[0]]) + Filter(NotSpace(), s[1..])
  {
  }

  /** Together the pieces are the text with its whitespace removed. */
  lemma {:induction false} SplitKeepsText(s: string)
    ensures Concat(Split(s)) == Filter(NotSpace(), s)
    decreases |s|
  {
    if |s| > 0 {
      SplitKeepsText(s[1..]);
      FilterHead(s);
      var r := Split(s[1..]);
      if IsSpace(s[0]) {
        if !(|s| > 1 && IsSpace(s[1])) {
          assert Concat([""] + r) == "" + Concat(r);
        }
      } else {
        var r' := [[s[0]] + r[0]] + r[1..];
        assert Concat(r') == [s[0]] + r[0] + Concat(r[1..]);
        assert Concat(r) == r[0] + Concat(r[1..]);
      }
    }
  }

  /** The words `words.pop()` hands out before it yields an empty (falsy) piece. */
  function Words(pieces: seq<string>): (r: seq<string>)
    ensures IsSubseq(r, pieces) && |r| <= |pieces|
    ensures forall i :: 0 <= i < |r| ==> |r[i]| > 0 && r[i] == pieces[i]
    ensures |r| < |pieces| ==> |pieces[|r|]| == 0
  {
    if |pieces| == 0 || |pieces[0]| == 0 then []
    else
      var rest := Words(pieces[1..]);
      assert ([pieces[0]] + rest)[1..] == rest;
      [pieces[0]] + rest
  }

  /** `line.join(" ")`. */
  function JoinSpace(ws: seq<string>): string {
    if |ws| == 0 then "" else if |ws| == 1 then ws[0] else ws[0] + " " + JoinSpace(ws[1..])
  }

  /** A non-space character joins the first piece of what follows. */
  lemma SplitCons(c: char, t: string)
    requires !IsSpace(c)
    ensures Split([c] + t) == [[c] + Split(t)[0]] + Split(t)[1..]
  {
    assert ([c] + t)[0] == c && ([c] + t)[1..] == t;
  }

  /** A single space before a word starts a new, empty first piece. */
  lemma SplitSpace(t: string)
    requires |t| > 0 && !IsSpace(t[0])
    ensures Split(" " + t) == [""] + Split(t)
  {
    assert (" " + t)[0] == ' ' && (" " + t)[1..] == t && (" " + t)[1] == t[0];
  }

  /** Splitting text that starts with a word peels that word off the first piece. */
  lemma {:induction false} SplitAfterWord(w: string, t: string)
    requires NoSpace(w)
    ensures Split(w + t) == [w + Split(t)[0]] + Split(t)[1..]
    decreases |w|
  {
    if |w| > 0 {
      SplitAfterWord(w[1..], t);
      assert w + t == [w[0]] + (w[1..] + t);
      SplitCons(w[0], w[1..] + t);
      assert [w[0]] + (w[1..] + Split(t)[0]) == w + Split(t)[0];
    } else {
      assert w + t == t && w + Split(t)[0] == Split(t)[0];
      assert Split(t) == [Split(t)[0]] + Split(t)[1..];
    }
  }

  /**
   * Joining words with single spaces and splitting again gives the words
   * back, and all of them reach the line breaker.
   */
  lemma {:induction false} SplitJoin(ws: seq<string>)
    requires |ws| > 0
    requires forall i :: 0 <= i < |ws| ==> |ws[i]| > 0 && NoSpace(ws[i])
    ensures Split(JoinSpace(ws)) == ws
    ensures Words(Split(JoinSpace(ws))) == ws
    decreases |ws|
  {
    if |ws| == 1 {
      SplitAfterWord(ws[0], "");
      assert ws[0] + "" == ws[0];
    } else {
      SplitJoin(ws[1..]);
      var rest := JoinSpace(ws[1..]);
      SplitAfterWord(ws[0], " " + rest);
      JoinStartsWithWord(ws[1..]);
      SplitSpace(rest);
      assert ws[0] + (" " + rest) == ws[0] + " " + rest;
      assert ws[0] + "" == ws[0];
      assert ws == [ws[0]] + ws[1..];
    }
    WordsAll(ws);
  }

  lemma JoinStartsWithWord(ws: seq<string>)
    requires |ws| > 0 && |ws[0]| > 0
    ensures |JoinSpace(ws)| > 0 && JoinSpace(ws)[0] == ws[0][0]
  {
  }

  lemma {:induction false} WordsAll(ws: seq<string>)
    requires forall i :: 0 <= i < |ws| ==> |ws[i]| > 0
    ensures Words(ws) == ws
    decreases |ws|
  {
    if |ws| > 0 {
      WordsAll(ws[1..]);
    }
  }

  /** Every prefix of the line from `from` words on fits the width. */
  ghost predicate PrefixesFit(line: seq<string>, from: nat, width: int, measure: string -> int) {
    forall k :: from <= k <= |line| && k > 0 ==> measure(JoinSpace(line[..k])) <= width
  }

  /** Every line but the first starts with a word. */
  ghost predicate LaterLinesStart(lines: seq<seq<string>>) {
    forall i :: 1 <= i < |lines| ==> |lines[i]| >= 1
  }

  /**
   * Each line grew one word at a time while it still fit: the first line
   * from its first word on, later lines from their second.
   */
  ghost predicate LinesFit(lines: seq<seq<string>>, width: int, measure: string -> int) {
    && (|lines| > 0 ==> PrefixesFit(lines[0], 1, width, measure))
    && (forall i :: 1 <= i < |lines| ==> PrefixesFit(lines[i], 2, width, measure))
  }

  /** The first word of each next line did not fit on the line before it. */
  ghost predicate BreaksForced(lines: seq<seq<string>>, width: int, measure: string -> int)
    requires LaterLinesStart(lines)
  {
    forall i :: 0 <= i < |lines| - 1 ==> measure(JoinSpace(lines[i] + [lines[i + 1][0]])) > width
  }

  /** The greedy layout of the words `ws`. */
  ghost predicate Greedy(lines: seq<seq<string>>, ws: seq<string>, width: int, measure: string -> int) {
    && |lines| >= 1
    && Concat(lines) == ws
    && LaterLinesStart(lines)
    && LinesFit(lines, width, measure)
    && BreaksForced(lines, width, measure)
  }

  lemma ConcatSnoc(ls: seq<seq<string>>, l: seq<string>)
    ensures Concat(ls + [l]) == Concat(ls) + l
  {
    ConcatAppend(ls, [l]);
    assert Concat([l]) == l + Concat([l][1..]);
  }

  /** A new one-word line fits the layout's conditions on its own. */
  lemma NewLineFit(lines: seq<seq<string>>, word: string, width: int, measure: string -> int)
    requires |lines| >= 1 && LinesFit(lines, width, measure)
    ensures LinesFit(lines + [[word]], width, measure)
  {
    var r := lines + [[word]];
    assert r[0] == lines[0];
    forall i | 1 <= i < |r|
      ensures PrefixesFit(r[i], 2, width, measure)
    {
      if i < |lines| {
        assert r[i] == lines[i];
      }
    }
  }

  lemma NewLineBreaks(lines: seq<seq<string>>, word: string, width: int, measure: string -> int)
    requires |lines| >= 1 && LaterLinesStart(lines) && BreaksForced(lines, width, measure)
    requires measure(JoinSpace(lines[|lines| - 1] + [word])) > width
    ensures LaterLinesStart(lines + [[word]]) && BreaksForced(lines + [[word]], width, measure)
  {
    var r := lines + [[word]];
    assert forall i :: 0 <= i < |lines| ==> r[i] == lines[i];
  }

  /** A word that does not fit on the last line starts a new one. */
  lemma GreedyNewLine(lines: seq<seq<string>>, ws: seq<string>, word: string, width: int, measure: string -> int)
    requires Greedy(lines, ws, width, measure)
    requires measure(JoinSpace(lines[|lines| - 1] + [word])) > width
    ensures Greedy(lines + [[word]], ws + [word], width, measure)
  {
    ConcatSnoc(lines, [word]);
    NewLineFit(lines, word, width, measure);
    NewLineBreaks(lines, word, width, measure);
  }

  /** A line that fits after one more word still has all its earlier prefixes fitting. */
  lemma PrefixesExtend(cur: seq<string>, word: string, from: nat, width: int, measure: string -> int)
    requires PrefixesFit(cur, from, width, measure)
    requires measure(JoinSpace(cur + [word])) <= width
    ensures PrefixesFit(cur + [word], from, width, measure)
  {
    forall k | from <= k <= |cur| + 1 && k > 0
      ensures measure(JoinSpace((cur + [word])[..k])) <= width
    {
      if k <= |cur| {
        assert (cur + [word])[..k] == cur[..k];
      } else {
        assert (cur + [word])[..k] == cur + [word];
      }
    }
  }

  /** Replacing the last line by a longer line that still fits keeps the lines fitting. */
  lemma SameLineFit(lines: seq<seq<string>>, word: string, width: int, measure: string -> int)
    requires |lines| >= 1 && LinesFit(lines, width, measure)
    requires measure(JoinSpace(lines[|lines| - 1] + [word])) <= width
    ensures LinesFit(lines[..|lines| - 1] + [lines[|lines| - 1] + [word]], width, measure)
  {
    var n := |lines| - 1;
    var r := lines[..n] + [lines[n] + [word]];
    PrefixesExtend(lines[n], word, if n == 0 then 1 else 2, width, measure);
    forall i | 0 <= i < n
      ensures r[i] == lines[i]
    {
    }
  }

  lemma SameLineBreaks(lines: seq<seq<string>>, word: string, width: int, measure: string -> int)
    requires |lines| >= 1 && LaterLinesStart(lines) && BreaksForced(lines, width, measure)
    ensures LaterLinesStart(lines[..|lines| - 1] + [lines[|lines| - 1] + [word]])
    ensures BreaksForced(lines[..|lines| - 1] + [lines[|lines| - 1] + [word]], width, measure)
  {
    var n := |lines| - 1;
    var r := lines[..n] + [lines[n] + [word]];
    assert forall i :: 0 <= i < n ==> r[i] == lines[i];
    if n > 0 {
      assert r[n][0] == lines[n][0];
    }
  }

  /** A word that fits joins the last line. */
  lemma GreedySameLine(lines: seq<seq<string>>, ws: seq<string>, word: string, width: int, measure: string -> int)
    requires Greedy(lines, ws, width, measure)
    requires measure(JoinSpace(lines[|lines| - 1] + [word])) <= width
    ensures Greedy(lines[..|lines| - 1] + [lines[|lines| - 1] + [word]], ws + [word], width, measure)
  {
    var n := |lines| - 1;
    assert lines == lines[..n] + [lines[n]];
    ConcatSnoc(lines[..n], lines[n]);
    ConcatSnoc(lines[..n], lines[n] + [word]);
    SameLineFit(lines, word, width, measure);
    SameLineBreaks(lines, word, width, measure);
  }

  /**
   * `wrapText` for one text element: the lines of `<tspan>` elements it
   * produces, each given as its list of words. The first line can be empty
   * (the first word is already too wide); a word too wide on its own still
   * gets a line of its own.
   */
  method Wrap(text: string, width: int, measure: string -> int) returns (lines: seq<seq<string>>)
    ensures Greedy(lines, Words(Split(text)), width, measure)
  {
    var ws := Words(Split(text));
    lines := [[]];
    var i := 0;
    while i < |ws|
      invariant 0 <= i <= |ws|
      invariant Greedy(lines, ws[..i], width, measure)
    {
      var word := ws[i];
      assert ws[..i + 1] == ws[..i] + [word];
      if measure(JoinSpace(lines[|lines| - 1] + [word])) > width {
        GreedyNewLine(lines, ws[..i], word, width, measure);
        lines := lines + [[word]];
      } else {
        GreedySameLine(lines, ws[..i], word, width, measure);
        lines := lines[..|lines| - 1] + [lines[|lines| - 1] + [word]];
      }
      i := i + 1;
    }
    assert ws[..|ws|] == ws;
  }
}
