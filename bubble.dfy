/**
 * The speech bubble drawn around the wrapped lines, as a specification: the
 * exact characters that `say` writes, and the layout they make on a terminal.
 */
module Bubble {
  import opened Text
  import opened DisplayWidth

  /**
   * Left bracket of body row `i` of `n`: the first matching case wins. It is a
   * bracket character then a space, and the bracket is `<` exactly for one line.
   */
  function LeftBracket(i: nat, n: nat): (r: string)
    ensures |r| == 2 && r[1] == ' '
    ensures r[0] == '<' <==> n == 1
  {
    if n == 1 then "< "
    else if i == 0 then "/ "
    else if i == n - 1 then "\\ "
    else "| "
  }

  /**
   * Right bracket of body row `i` of `n`, chosen by the same cases: a space
   * then a bracket character, which is `>` exactly for one line.
   */
  function RightBracket(i: nat, n: nat): (r: string)
    ensures |r| == 2 && r[0] == ' '
    ensures r[1] == '>' <==> n == 1
  {
    if n == 1 then " >"
    else if i == 0 then " \\"
    else if i == n - 1 then " /"
    else " |"
  }

  /** Spaces written after a line of width `len` in a box `w` wide: the range `len..w`, empty when `len >= w`. */
  function PadCount(len: nat, w: nat): nat
  {
    if len < w then w - len else 0
  }

  /** Body row `i` of `n` without its line feed. */
  function RowText(line: string, i: nat, n: nat, w: nat, cw: char -> nat): string
  {
    LeftBracket(i, n) + line + Repeat(' ', PadCount(Width(line, cw), w)) + RightBracket(i, n)
  }

  function Row(line: string, i: nat, n: nat, w: nat, cw: char -> nat): string
  {
    RowText(line, i, n, w, cw) + "\n"
  }

  /** The first `k` body rows, in input order. */
  function Rows(lines: seq<string>, k: nat, w: nat, cw: char -> nat): string
    requires k <= |lines|
  {
    if k == 0 then [] else Rows(lines, k - 1, w, cw) + Row(lines[k - 1], k - 1, |lines|, w, cw)
  }

  /** The top border's screen line: a space, then `w + 2` underscores. */
  function TopEdge(w: nat): string
  {
    " " + Repeat('_', w + 2)
  }

  function TopBorder(w: nat): string
  {
    TopEdge(w) + "\n"
  }

  function BottomBorder(w: nat): string
  {
    " " + Repeat('-', w + 2)
  }

  /** The top border is a space, `w + 2` underscores and a line feed. */
  lemma TopBorderShape(w: nat)
    ensures TopBorder(w) == " " + Repeat('_', w + 2) + "\n"
    ensures |TopBorder(w)| == w + 4 && TopBorder(w)[0] == ' ' && TopBorder(w)[w + 3] == '\n'
    ensures forall k :: 1 <= k <= w + 2 ==> TopBorder(w)[k] == '_'
  {
    RepeatAt('_', w + 2);
  }

  /** The bottom border is a space and `w + 2` dashes, with no line feed. */
  lemma BottomBorderShape(w: nat)
    ensures BottomBorder(w) == " " + Repeat('-', w + 2)
    ensures |BottomBorder(w)| == w + 3 && BottomBorder(w)[0] == ' '
    ensures forall k :: 1 <= k <= w + 2 ==> BottomBorder(w)[k] == '-'
  {
    RepeatAt('-', w + 2);
  }

  /** Everything `say` writes before the mascot. */
  function Box(lines: seq<string>, cw: char -> nat): string
  {
    var w := LongestLine(lines, cw);
    TopBorder(w) + Rows(lines, |lines|, w, cw) + BottomBorder(w)
  }

  /** Everything `say` writes: the box, then the mascot unchanged. */
  function Output(lines: seq<string>, cw: char -> nat, mascot: string): (r: string)
    ensures |r| == |Box(lines, cw)| + |mascot|
    ensures r[..|Box(lines, cw)|] == Box(lines, cw) && r[|Box(lines, cw)|..] == mascot
  {
    Box(lines, cw) + mascot
  }

  /** Lines as `str::lines` yields them hold no line feed. */
  ghost predicate NoLineFeeds(lines: seq<string>)
  {
    forall i :: 0 <= i < |lines| ==> '\n' !in lines[i]
  }

  /** The characters the box is drawn with take one column each, as in the Unicode width tables. */
  predicate NarrowBoxChars(cw: char -> nat)
  {
    cw(' ') == 1 && cw('_') == 1 && cw('-') == 1 && cw('<') == 1 && cw('>') == 1
    && cw('/') == 1 && cw('\\') == 1 && cw('|') == 1
  }

  /** `<` and `>` appear as brackets exactly when there is one line; every bracket is two characters. */
  lemma AngleBracketsOnlyForOneLine(i: nat, n: nat)
    requires i < n
    ensures '<' in LeftBracket(i, n) <==> n == 1
    ensures '>' in RightBracket(i, n) <==> n == 1
    ensures |LeftBracket(i, n)| == 2 && |RightBracket(i, n)| == 2
  {
  }

  /** With several lines the first row opens with `/ \`, the last with `\ /`, the others with `| |`. */
  lemma BracketsOfSeveralLines(i: nat, n: nat)
    requires 2 <= n && i < n
    ensures i == 0 ==> LeftBracket(i, n) == "/ " && RightBracket(i, n) == " \\"
    ensures i == n - 1 ==> LeftBracket(i, n) == "\\ " && RightBracket(i, n) == " /"
    ensures 0 < i < n - 1 ==> LeftBracket(i, n) == "| " && RightBracket(i, n) == " |"
  {
  }

  lemma BracketWidth(i: nat, n: nat, cw: char -> nat)
    requires NarrowBoxChars(cw)
    ensures Width(LeftBracket(i, n), cw) == 2 && Width(RightBracket(i, n), cw) == 2
  {
    var l, r := LeftBracket(i, n), RightBracket(i, n);
    WidthOfNarrow(l, cw);
    WidthOfNarrow(r, cw);
  }

  lemma RowTextHasNoLineFeed(line: string, i: nat, n: nat, w: nat, cw: char -> nat)
    requires '\n' !in line
    ensures '\n' !in RowText(line, i, n, w, cw)
  {
    RepeatExcludes(' ', PadCount(Width(line, cw), w), '\n');
  }

  /**
   * A row of a line no wider than the box is `w + 4` columns wide and its right
   * bracket starts at column `w + 2`, whatever the line's own width: the right
   * brackets of all rows line up.
   */
  lemma RowAligned(line: string, i: nat, n: nat, w: nat, cw: char -> nat)
    requires NarrowBoxChars(cw) && Width(line, cw) <= w
    ensures Width(LeftBracket(i, n) + line + Repeat(' ', w - Width(line, cw)), cw) == w + 2
    ensures Width(RowText(line, i, n, w, cw), cw) == w + 4
  {
    var l, pad, r := LeftBracket(i, n), Repeat(' ', w - Width(line, cw)), RightBracket(i, n);
    BracketWidth(i, n, cw);
    WidthRepeat(' ', w - Width(line, cw), cw);
    WidthConcat(l, line, cw);
    WidthConcat(l + line, pad, cw);
    WidthConcat(l + line + pad, r, cw);
  }

  /** A line no wider than the box is followed by exactly the missing number of spaces. */
  lemma RowTextUnpadded(line: string, i: nat, n: nat, w: nat, cw: char -> nat)
    requires Width(line, cw) <= w
    ensures RowText(line, i, n, w, cw) == LeftBracket(i, n) + line + Repeat(' ', w - Width(line, cw)) + RightBracket(i, n)
  {
    assert PadCount(Width(line, cw), w) == w - Width(line, cw);
  }

  /** The first `k` body rows as they appear on screen, without their line feeds. */
  function RowTexts(lines: seq<string>, k: nat, w: nat, cw: char -> nat): (r: seq<string>)
    requires k <= |lines|
    ensures |r| == k
  {
    seq(k, j requires 0 <= j < k => RowText(lines[j], j, |lines|, w, cw))
  }

  lemma RowTextsSnoc(lines: seq<string>, k: nat, w: nat, cw: char -> nat)
    requires 0 < k <= |lines|
    ensures RowTexts(lines, k, w, cw)
      == RowTexts(lines, k - 1, w, cw) + [RowText(lines[k - 1], k - 1, |lines|, w, cw)]
  {
  }

  /** The screen lines of `k` rows followed by `tail`: the rows' texts, then the tail's lines. */
  lemma {:induction false} RowsSplit(lines: seq<string>, k: nat, w: nat, cw: char -> nat, tail: string)
    requires k <= |lines| && NoLineFeeds(lines)
    ensures SplitLines(Rows(lines, k, w, cw) + tail) == RowTexts(lines, k, w, cw) + SplitLines(tail)
  {
    if k == 0 {
      assert Rows(lines, k, w, cw) + tail == tail;
    } else {
      var text := RowText(lines[k - 1], k - 1, |lines|, w, cw);
      var rest := text + "\n" + tail;
      RowTextHasNoLineFeed(lines[k - 1], k - 1, |lines|, w, cw);
      SplitLinesCons(text, tail);
      var prev := Rows(lines, k - 1, w, cw);
      assert Rows(lines, k, w, cw) == prev + (text + "\n");
      AppendAssoc(prev, text + "\n", tail);
      RowsSplit(lines, k - 1, w, cw, rest);
      var texts := RowTexts(lines, k - 1, w, cw);
      RowTextsSnoc(lines, k, w, cw);
      AppendAssoc(texts, [text], SplitLines(tail));
    }
  }

  /**
   * On a terminal the box has `n + 2` screen lines for `n` lines: first the top
   * border of `w + 2` underscores, last the bottom border of `w + 2` dashes,
   * where `w` is the widest line's width.
   */
  lemma BoxBorders(lines: seq<string>, cw: char -> nat)
    requires NoLineFeeds(lines)
    ensures var s, w := SplitLines(Box(lines, cw)), LongestLine(lines, cw);
      |s| == |lines| + 2 && s[0] == TopEdge(w) && s[|lines| + 1] == BottomBorder(w)
  {
    BoxScreenLines(lines, cw);
  }

  /**
   * Screen line `i + 1` of the box is line `i` between its brackets, padded
   * with spaces up to the box width, and it is `w + 4` columns wide: the rows
   * follow the input order and their right brackets line up.
   */
  lemma BoxRow(lines: seq<string>, cw: char -> nat, i: nat)
    requires NoLineFeeds(lines) && NarrowBoxChars(cw) && i < |lines|
    ensures var s, w := SplitLines(Box(lines, cw)), LongestLine(lines, cw);
      && |s| == |lines| + 2
      && s[i + 1] == LeftBracket(i, |lines|) + lines[i] + Repeat(' ', w - Width(lines[i], cw)) + RightBracket(i, |lines|)
      && Width(s[i + 1], cw) == w + 4
  {
    BoxScreenLines(lines, cw);
    ScreenRow(SplitLines(Box(lines, cw)), lines, LongestLine(lines, cw), cw, i);
  }

  /** `BoxRow` for screen lines `s` framing the rows of a box of any width `w`. */
  lemma ScreenRow(s: seq<string>, lines: seq<string>, w: nat, cw: char -> nat, i: nat)
    requires NarrowBoxChars(cw) && i < |lines| && Width(lines[i], cw) <= w
    requires s == [TopEdge(w)] + RowTexts(lines, |lines|, w, cw) + [BottomBorder(w)]
    ensures && |s| == |lines| + 2
      && s[i + 1] == LeftBracket(i, |lines|) + lines[i] + Repeat(' ', w - Width(lines[i], cw)) + RightBracket(i, |lines|)
      && Width(s[i + 1], cw) == w + 4
  {
    assert s[i + 1] == RowTexts(lines, |lines|, w, cw)[i];
    RowTextUnpadded(lines[i], i, |lines|, w, cw);
    RowAligned(lines[i], i, |lines|, w, cw);
  }

  /**
   * The screen lines of the box: the top border, one row text per line in
   * input order, the bottom border.
   */
  lemma BoxScreenLines(lines: seq<string>, cw: char -> nat)
    requires NoLineFeeds(lines)
    ensures var w := LongestLine(lines, cw);
      SplitLines(Box(lines, cw)) == [TopEdge(w)] + RowTexts(lines, |lines|, w, cw) + [BottomBorder(w)]
  {
    FramedScreenLines(lines, LongestLine(lines, cw), cw);
  }

  /** `BoxScreenLines` for a box of any width `w`. */
  lemma FramedScreenLines(lines: seq<string>, w: nat, cw: char -> nat)
    requires NoLineFeeds(lines)
    ensures SplitLines(TopBorder(w) + Rows(lines, |lines|, w, cw) + BottomBorder(w))
      == [TopEdge(w)] + RowTexts(lines, |lines|, w, cw) + [BottomBorder(w)]
  {
    var top, bottom := TopEdge(w), BottomBorder(w);
    var rows := Rows(lines, |lines|, w, cw);
    RepeatExcludes('_', w + 2, '\n');
    RepeatExcludes('-', w + 2, '\n');
    assert '\n' !in top;
    assert '\n' !in bottom;
    SplitLinesNone(bottom);
    RowsSplit(lines, |lines|, w, cw, bottom);
    var texts := RowTexts(lines, |lines|, w, cw);
    SplitLinesFramed(top, TopBorder(w), rows, bottom, texts + [bottom]);
    AppendAssoc([top], texts, [bottom]);
  }

  /** The box holds one line feed per body row plus the top border's. */
  lemma BoxLineFeeds(lines: seq<string>, cw: char -> nat)
    requires NoLineFeeds(lines)
    ensures multiset(Box(lines, cw))['\n'] == |lines| + 1
  {
    BoxScreenLines(lines, cw);
    SplitLinesCount(Box(lines, cw));
  }

  /** The output ends with the mascot, unchanged, right after the bottom border's last dash. */
  lemma MascotFollowsBottomBorder(lines: seq<string>, cw: char -> nat, mascot: string)
    ensures var out, w := Output(lines, cw, mascot), LongestLine(lines, cw);
      && |out| >= |mascot| + w + 3
      && out[|out| - |mascot|..] == mascot
      && out[|out| - |mascot| - (w + 3)..|out| - |mascot|] == BottomBorder(w)
  {
    var w := LongestLine(lines, cw);
    var head := TopBorder(w) + Rows(lines, |lines|, w, cw);
    assert Output(lines, cw, mascot) == head + BottomBorder(w) + mascot;
  }

  /**
   * A mascot that starts with a line feed starts below the bottom border: the
   * screen lines of the output are the box's, then the mascot's own.
   */
  lemma OutputScreenLines(lines: seq<string>, cw: char -> nat, mascot: string)
    requires NoLineFeeds(lines) && mascot != [] && mascot[0] == '\n'
    ensures var w := LongestLine(lines, cw);
      SplitLines(Output(lines, cw, mascot))
      == [TopEdge(w)] + RowTexts(lines, |lines|, w, cw) + [BottomBorder(w)] + SplitLines(mascot[1..])
  {
    BoxScreenLines(lines, cw);
    SplitLinesAppend(Box(lines, cw), mascot);
  }

  /** The output starts with the top border. */
  lemma OutputStartsWithTopBorder(lines: seq<string>, cw: char -> nat, mascot: string)
    ensures var out, w := Output(lines, cw, mascot), LongestLine(lines, cw);
      && |out| >= w + 4
      && out[..w + 4] == TopBorder(w)
  {
    var w := LongestLine(lines, cw);
    PrefixOfAppend(TopBorder(w), Rows(lines, |lines|, w, cw), BottomBorder(w), mascot);
  }

  /** No lines: the two borders, two underscores and two dashes long, and the mascot. */
  lemma NoLinesOutput(cw: char -> nat, mascot: string)
    ensures Output([], cw, mascot) == " __\n --" + mascot
  {
    assert Repeat('_', 2) == "__";
    assert Repeat('-', 2) == "--";
  }

  /** One line: the box is exactly as wide as the line, so the row `< line >` has no padding. */
  lemma OneLineOutput(line: string, cw: char -> nat, mascot: string)
    ensures var w := Width(line, cw);
      Output([line], cw, mascot) == TopBorder(w) + ("< " + line + " >\n") + BottomBorder(w) + mascot
  {
    var w := Width(line, cw);
    assert LongestLine([line], cw) == w;
    OneLineRow(line, cw);
    assert Box([line], cw) == TopBorder(w) + ("< " + line + " >\n") + BottomBorder(w);
  }

  /** The only row of a one-line box, which is as wide as the line: no padding. */
  lemma OneLineRow(line: string, cw: char -> nat)
    ensures Rows([line], 1, Width(line, cw), cw) == "< " + line + " >\n"
  {
    var w := Width(line, cw);
    var open := "< " + line;
    assert Repeat(' ', 0) == [];
    assert open + Repeat(' ', 0) == open;
    AppendAssoc(open, " >", "\n");
    var row := Row(line, 0, 1, w, cw);
    assert row == open + " >\n";
    assert Rows([line], 1, w, cw) == [] + row;
    assert [] + row == row;
  }

  lemma HelloWidth(cw: char -> nat)
    requires forall c :: ' ' <= c <= '~' ==> cw(c) == 1
    ensures Width("Hello fellow Rustaceans!", cw) == 24
  {
    var line := "Hello fellow Rustaceans!";
    assert forall k :: 0 <= k < |line| ==> ' ' <= line[k] <= '~';
    WidthOfNarrow(line, cw);
  }

  /**
   * The documented example: "Hello fellow Rustaceans!" on one line of plain
   * ASCII makes a box 24 columns wide, so both borders hold 26 characters
   * after their leading space, and the row has no padding.
   */
  lemma HelloExample(cw: char -> nat, mascot: string)
    requires forall c :: ' ' <= c <= '~' ==> cw(c) == 1
    ensures var w := LongestLine(["Hello fellow Rustaceans!"], cw);
      && w == 24
      && Output(["Hello fellow Rustaceans!"], cw, mascot)
         == TopBorder(24) + "< Hello fellow Rustaceans! >\n" + BottomBorder(24) + mascot
  {
    HelloWidth(cw);
    OneLineOutput("Hello fellow Rustaceans!", cw, mascot);
    HelloRow();
  }

  lemma HelloRow()
    ensures "< " + "Hello fellow Rustaceans!" + " >\n" == "< Hello fellow Rustaceans! >\n"
  {
  }
}
