/** The greedy label wrapper `wrap` of the radar chart (the same code is
    written out twice in radarChart.js, once per chart function). The label
    text is split on whitespace runs; words are taken in order and appended
    to the current line while the rendered line stays within `width`; a word
    that makes it too wide starts a new line. Measuring rendered text
    (`getComputedTextLength`) is a parameter: any function from a line's text
    to a width. */
module TextWrap {
  import Strings

  /** The characters JavaScript's `\s` matches. */
  predicate IsSpace(ch: char)
  {
    ch in Spaces || ('\U{2000}' <= ch <= '\U{200A}')
  }

  const Spaces: set<char> := {' ', '\t', '\n', '\r', '\U{000B}', '\U{000C}', '\U{00A0}', '\U{1680}', '\U{2028}', '\U{2029}', '\U{202F}', '\U{205F}', '\U{3000}', '\U{FEFF}'}

  predicate NoSpace(w: string)
  {
    forall k :: 0 <= k < |w| ==> !IsSpace(w[k])
  }

  /** `s` without its leading whitespace run. */
  function SkipSpaces(s: string): (r: string)
    ensures |r| <= |s| && r == s[|s| - |r|..]
    ensures |r| > 0 ==> !IsSpace(r[0])
    ensures |s| > 0 && IsSpace(s[0]) ==> |r| < |s|
  {
    if |s| > 0 && IsSpace(s[0]) then SkipSpaces(s[1..]) else s
  }

  /** `s.split(/\s+/)`: the pieces between maximal whitespace runs. A leading
      run gives an empty first piece, a trailing run an empty last piece. */
  function SplitWords(s: string): (r: seq<string>)
    ensures |r| >= 1
    ensures forall k :: 0 <= k < |r| ==> NoSpace(r[k])
    ensures forall k :: 0 < k < |r| - 1 ==> |r[k]| > 0
    decreases |s|
  {
    if |s| == 0 then [""]
    else if IsSpace(s[0]) then
      var rest := SplitWords(SkipSpaces(s));
      assert |SkipSpaces(s)| > 0 ==> |rest[0]| > 0;
      [""] + rest
    else
      var rest := SplitWords(s[1..]);
      [[s[0]] + rest[0]] + rest[1..]
  }

  /** Text whose only whitespace is single `' '` characters. */
  predicate SingleSpaced(s: string)
  {
    forall k :: 0 <= k < |s| && IsSpace(s[k]) ==> s[k] == ' ' && (k + 1 < |s| ==> !IsSpace(s[k + 1]))
  }

  /** Splitting single-spaced text and joining the pieces with `" "` gives
      the text back. */
  lemma {:induction false} SplitWordsJoin(s: string)
    requires SingleSpaced(s)
    ensures Strings.Join(SplitWords(s), " ") == s
    decreases |s|
  {
    if |s| > 0 {
      SingleSpacedTail(s);
      SplitWordsJoin(s[1..]);
      if IsSpace(s[0]) {
        SkipSingleSpace(s);
        JoinAfterSpace(s);
      } else {
        JoinAfterLetter(s);
      }
    }
  }

  lemma SingleSpacedTail(s: string)
    requires SingleSpaced(s) && |s| > 0
    ensures SingleSpaced(s[1..])
  {
    assert forall k :: 0 <= k < |s| - 1 ==> s[1..][k] == s[k + 1];
  }

  /** In single-spaced text a space is followed by a non-space, so skipping
      the whitespace run skips that one character. */
  lemma SkipSingleSpace(s: string)
    requires SingleSpaced(s) && |s| > 0 && IsSpace(s[0])
    ensures SkipSpaces(s) == s[1..]
  {
    assert |s| > 1 ==> !IsSpace(s[1]);
  }

  /** A space in front of the rest starts a new piece. */
  lemma SplitWordsAfterSpace(s: string)
    requires |s| > 0 && IsSpace(s[0]) && SkipSpaces(s) == s[1..]
    ensures SplitWords(s) == [""] + SplitWords(s[1..])
  {
  }

  /** An empty first piece puts one separator in front of the rest. */
  lemma JoinEmptyHead(rest: seq<string>, t: string)
    requires |rest| >= 1 && Strings.Join(rest, " ") == t
    ensures Strings.Join([""] + rest, " ") == " " + t
  {
    Strings.JoinCons("", rest, " ");
  }

  /** A single space in front of the rest starts a new piece. */
  lemma JoinAfterSpace(s: string)
    requires |s| > 0 && IsSpace(s[0]) && SkipSpaces(s) == s[1..] && s[0] == ' '
    requires Strings.Join(SplitWords(s[1..]), " ") == s[1..]
    ensures Strings.Join(SplitWords(s), " ") == s
  {
    SplitWordsAfterSpace(s);
    JoinEmptyHead(SplitWords(s[1..]), s[1..]);
    assert " " + s[1..] == s;
  }

  /** A letter in front of the rest extends the first piece. */
  lemma JoinAfterLetter(s: string)
    requires |s| > 0 && !IsSpace(s[0])
    requires Strings.Join(SplitWords(s[1..]), " ") == s[1..]
    ensures Strings.Join(SplitWords(s), " ") == s
  {
    var rest := SplitWords(s[1..]);
    assert SplitWords(s) == [[s[0]] + rest[0]] + rest[1..];
    Strings.JoinExtendHead(s[0], rest, " ");
    assert [s[0]] + s[1..] == s;
  }

  /** The words `while (word = words.pop())` visits: it stops at the first
      empty word, so text with leading whitespace yields no words at all. */
  function LeadingWords(ws: seq<string>): (r: seq<string>)
    ensures |r| <= |ws| && r == ws[..|r|]
    ensures forall k :: 0 <= k < |r| ==> |r[k]| > 0
    ensures |r| < |ws| ==> ws[|r|] == ""
  {
    if |ws| == 0 || ws[0] == "" then [] else [ws[0]] + LeadingWords(ws[1..])
  }

  /** One `<tspan>`: the words of one line and its `dy` offset in ems. */
  datatype Tspan = Tspan(words: seq<string>, dy: real)

  /** The text of a line, as `line.join(" ")` sets it. */
  function LineText(words: seq<string>): string
  {
    Strings.Join(words, " ")
  }

  function Flatten(lines: seq<seq<string>>): seq<string>
  {
    if |lines| == 0 then [] else Flatten(lines[..|lines| - 1]) + lines[|lines| - 1]
  }

  lemma FlattenSnoc(lines: seq<seq<string>>, line: seq<string>)
    ensures Flatten(lines + [line]) == Flatten(lines) + line
  {
    assert (lines + [line])[..|lines|] == lines;
  }

  const LineHeight: real := 1.4

  /** Line `k` fits if the loop measured it: it holds two or more words,
      or it is the first line and holds one. */
  ghost predicate FitsIfMeasured(lines: seq<seq<string>>, k: nat, width: real, measure: string -> real)
    requires k < |lines|
  {
    (|lines[k]| >= 2 || (k == 0 && |lines[k]| == 1)) ==> measure(LineText(lines[k])) <= width
  }

  /** Line `k` was closed because the first word of line `k + 1` did not fit on it. */
  ghost predicate ClosedAt(lines: seq<seq<string>>, k: nat, width: real, measure: string -> real)
    requires k + 1 < |lines|
  {
    |lines[k + 1]| >= 1 ==> measure(LineText(lines[k] + [lines[k + 1][0]])) > width
  }

  ghost predicate MeasuredLinesFit(lines: seq<seq<string>>, width: real, measure: string -> real)
  {
    forall k: nat :: k < |lines| ==> FitsIfMeasured(lines, k, width, measure)
  }

  ghost predicate ClosedWhenFull(lines: seq<seq<string>>, width: real, measure: string -> real)
  {
    forall k: nat :: k + 1 < |lines| ==> ClosedAt(lines, k, width, measure)
  }

  lemma StartLine(lines: seq<seq<string>>, w: string, width: real, measure: string -> real)
    requires |lines| >= 1
    requires MeasuredLinesFit(lines, width, measure) && ClosedWhenFull(lines, width, measure)
    requires measure(LineText(lines[|lines| - 1] + [w])) > width
    ensures MeasuredLinesFit(lines + [[w]], width, measure)
    ensures ClosedWhenFull(lines + [[w]], width, measure)
  {
    var r := lines + [[w]];
    forall k: nat | k < |r|
      ensures FitsIfMeasured(r, k, width, measure)
    {
      if k < |lines| {
        assert r[k] == lines[k];
        assert FitsIfMeasured(lines, k, width, measure);
      }
    }
    forall k: nat | k + 1 < |r|
      ensures ClosedAt(r, k, width, measure)
    {
      assert r[k] == lines[k];
      if k + 1 < |lines| {
        assert r[k + 1] == lines[k + 1];
        assert ClosedAt(lines, k, width, measure);
      } else {
        assert r[k + 1] == [w];
      }
    }
  }

  lemma ExtendLine(lines: seq<seq<string>>, w: string, width: real, measure: string -> real)
    requires |lines| >= 1
    requires MeasuredLinesFit(lines, width, measure) && ClosedWhenFull(lines, width, measure)
    requires |lines| == 1 || |lines[|lines| - 1]| >= 1
    requires measure(LineText(lines[|lines| - 1] + [w])) <= width
    ensures MeasuredLinesFit(lines[..|lines| - 1] + [lines[|lines| - 1] + [w]], width, measure)
    ensures ClosedWhenFull(lines[..|lines| - 1] + [lines[|lines| - 1] + [w]], width, measure)
  {
    var n := |lines| - 1;
    var r := lines[..n] + [lines[n] + [w]];
    forall k: nat | k < |r|
      ensures FitsIfMeasured(r, k, width, measure)
    {
      if k < n {
        assert r[k] == lines[k];
        assert FitsIfMeasured(lines, k, width, measure);
      } else {
        assert r[k] == lines[n] + [w];
      }
    }
    forall k: nat | k + 1 < |r|
      ensures ClosedAt(r, k, width, measure)
    {
      assert r[k] == lines[k];
      assert ClosedAt(lines, k, width, measure);
      if k + 1 < n {
        assert r[k + 1] == lines[k + 1];
      } else {
        assert r[k + 1][0] == lines[k + 1][0];
      }
    }
  }

  /** One step of the loop: word `w` joins the current (last) line when the
      line stays within `width`, and starts a new line otherwise. */
  function Place(lines: seq<seq<string>>, w: string, width: real, measure: string -> real): (r: seq<seq<string>>)
    requires |lines| >= 1
    ensures |r| >= 1 && Flatten(r) == Flatten(lines) + [w]
  {
    var n := |lines| - 1;
    if measure(LineText(lines[n] + [w])) > width then
      FlattenSnoc(lines, [w]);
      lines + [[w]]
    else
      assert lines == lines[..n] + [lines[n]];
      FlattenSnoc(lines[..n], lines[n]);
      FlattenSnoc(lines[..n], lines[n] + [w]);
      lines[..n] + [lines[n] + [w]]
  }

  /** What the loop keeps about the lines built from the words `ws`. */
  ghost predicate Wrapped(lines: seq<seq<string>>, ws: seq<string>, width: real, measure: string -> real)
  {
    && |lines| >= 1
    && Flatten(lines) == ws
    && (forall k :: 1 <= k < |lines| ==> |lines[k]| >= 1)
    && (|ws| == 0 ==> lines == [[]])
    && (|ws| > 0 ==> (|lines[0]| == 0 <==> measure(ws[0]) > width))
    && MeasuredLinesFit(lines, width, measure)
    && ClosedWhenFull(lines, width, measure)
  }

  lemma PlaceWrapped(lines: seq<seq<string>>, ws: seq<string>, w: string, width: real, measure: string -> real)
    requires Wrapped(lines, ws, width, measure)
    ensures Wrapped(Place(lines, w, width, measure), ws + [w], width, measure)
  {
    var n := |lines| - 1;
    var r := Place(lines, w, width, measure);
    if |ws| == 0 {
      assert lines[n] + [w] == [w];
      assert LineText([w]) == w;
    } else {
      assert (ws + [w])[0] == ws[0];
    }
    if measure(LineText(lines[n] + [w])) > width {
      StartLine(lines, w, width, measure);
      assert r[0] == lines[0] || |lines| == 0;
    } else {
      ExtendLine(lines, w, width, measure);
      assert n > 0 ==> r[0] == lines[0];
    }
  }

  /** The lines the loop has built after the words `ws`. */
  function Greedy(ws: seq<string>, width: real, measure: string -> real): (lines: seq<seq<string>>)
    ensures |lines| >= 1
  {
    if |ws| == 0 then [[]]
    else Place(Greedy(ws[..|ws| - 1], width, measure), ws[|ws| - 1], width, measure)
  }

  lemma {:induction false} GreedyWrapped(ws: seq<string>, width: real, measure: string -> real)
    ensures Wrapped(Greedy(ws, width, measure), ws, width, measure)
  {
    if |ws| == 0 {
      WrappedStart(width, measure);
    } else {
      var front, last := ws[..|ws| - 1], ws[|ws| - 1];
      assert front + [last] == ws;
      assert Greedy(ws, width, measure) == Place(Greedy(front, width, measure), last, width, measure);
      GreedyWrapped(front, width, measure);
      PlaceWrapped(Greedy(front, width, measure), front, last, width, measure);
    }
  }

  /** The greedy loop over the words, with `lines` the `<tspan>`s so far
      (the last one being the current `tspan`). Every word lands in exactly
      one line, in order; a line is closed exactly when the next word would
      make it wider than `width`; every line that was measured fits; only
      the first line can be empty, and it is when the first word alone is
      too wide. */
  method WrapLines(words: seq<string>, width: real, measure: string -> real) returns (lines: seq<seq<string>>)
    ensures |lines| >= 1
    ensures Flatten(lines) == words
    ensures forall k :: 1 <= k < |lines| ==> |lines[k]| >= 1
    ensures |lines[0]| == 0 <==> (|words| == 0 || measure(words[0]) > width)
    ensures forall k :: 0 <= k < |lines| && (|lines[k]| >= 2 || (k == 0 && |lines[k]| == 1)) ==>
              measure(LineText(lines[k])) <= width
    ensures forall k :: 0 <= k < |lines| - 1 ==> measure(LineText(lines[k] + [lines[k + 1][0]])) > width
  {
    lines := [[]];
    var j := 0;
    while j < |words|
      invariant 0 <= j <= |words|
      invariant lines == Greedy(words[..j], width, measure)
    {
      assert words[..j + 1][..j] == words[..j];
      lines := Place(lines, words[j], width, measure);
      j := j + 1;
    }
    assert words[..j] == words;
    GreedyMeans(words, width, measure);
  }

  /** The loop's result has every property `WrapLines` promises. */
  lemma GreedyMeans(ws: seq<string>, width: real, measure: string -> real)
    ensures var lines := Greedy(ws, width, measure);
      && Flatten(lines) == ws
      && (forall k :: 1 <= k < |lines| ==> |lines[k]| >= 1)
      && (|lines[0]| == 0 <==> (|ws| == 0 || measure(ws[0]) > width))
      && (forall k :: 0 <= k < |lines| && (|lines[k]| >= 2 || (k == 0 && |lines[k]| == 1)) ==>
            measure(LineText(lines[k])) <= width)
      && (forall k :: 0 <= k < |lines| - 1 ==> measure(LineText(lines[k] + [lines[k + 1][0]])) > width)
  {
    GreedyWrapped(ws, width, measure);
    WrappedMeans(Greedy(ws, width, measure), ws, width, measure);
  }

  lemma WrappedMeans(lines: seq<seq<string>>, ws: seq<string>, width: real, measure: string -> real)
    requires Wrapped(lines, ws, width, measure)
    ensures |lines| >= 1 && Flatten(lines) == ws
    ensures forall k :: 1 <= k < |lines| ==> |lines[k]| >= 1
    ensures |lines[0]| == 0 <==> (|ws| == 0 || measure(ws[0]) > width)
    ensures forall k :: 0 <= k < |lines| && (|lines[k]| >= 2 || (k == 0 && |lines[k]| == 1)) ==>
              measure(LineText(lines[k])) <= width
    ensures forall k :: 0 <= k < |lines| - 1 ==> measure(LineText(lines[k] + [lines[k + 1][0]])) > width
  {
    forall k | 0 <= k < |lines| && (|lines[k]| >= 2 || (k == 0 && |lines[k]| == 1))
      ensures measure(LineText(lines[k])) <= width
    {
      assert FitsIfMeasured(lines, k, width, measure);
    }
    forall k | 0 <= k < |lines| - 1
      ensures measure(LineText(lines[k] + [lines[k + 1][0]])) > width
    {
      assert ClosedAt(lines, k, width, measure);
    }
  }

  lemma WrappedStart(width: real, measure: string -> real)
    ensures Wrapped([[]], [], width, measure)
  {
  }

  /** `wrap(text, width)` for one label whose `dy` attribute is `dy0` ems:
      the lines of `WrapLines` over the words the loop visits, line `k`
      shifted down by `k * 1.4` ems. A line that holds a single word is never
      measured unless it is the first, so such a line may be wider than
      `width`. */
  method Wrap(text: string, width: real, measure: string -> real, dy0: real) returns (tspans: seq<Tspan>)
    ensures |tspans| >= 1
    ensures forall k :: 0 <= k < |tspans| ==> tspans[k].dy == k as real * LineHeight + dy0
    ensures Flatten(seq(|tspans|, k requires 0 <= k < |tspans| => tspans[k].words))
            == LeadingWords(SplitWords(text))
    ensures forall k :: 1 <= k < |tspans| ==> |tspans[k].words| >= 1
    ensures forall k :: 0 <= k < |tspans| - 1 ==>
              measure(LineText(tspans[k].words + [tspans[k + 1].words[0]])) > width
  {
    var words := LeadingWords(SplitWords(text));
    var lines := WrapLines(words, width, measure);
    tspans := seq(|lines|, k requires 0 <= k < |lines| => Tspan(lines[k], k as real * LineHeight + dy0));
    assert seq(|tspans|, k requires 0 <= k < |tspans| => tspans[k].words) == lines;
  }
}
