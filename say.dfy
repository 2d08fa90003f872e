/**
 * `say`: merge the message's white space, wrap it, and write the bubble and
 * the mascot. The writer is the character buffer `out`; every write appends
 * to it. Wrapping (`textwrap::fill` followed by `str::lines`) is the parameter
 * `fillLines`, the column width of a character the parameter `cw`, and the
 * mascot picture the parameter `mascot`.
 */
module FerrisSays {
  import opened Text
  import opened DisplayWidth
  import opened WhiteSpace
  import opened Bubble

  method Say(input: string, maxWidth: nat, fillLines: (string, nat) -> seq<string>,
             cw: char -> nat, mascot: string) returns (out: string)
    ensures out == Output(fillLines(MergeWhiteSpaces(input), maxWidth), cw, mascot)
  {
    var text := MergeWhiteSpaces(input);
    var lines := fillLines(text, maxWidth);
    var actualWidth := LongestLine(lines, cw);

    // top box border
    out := WriteEdge([], '_', actualWidth);
    assert out == TopEdge(actualWidth);
    out := out + "\n";

    // inner message
    out := WriteRows(out, lines, actualWidth, cw);

    // bottom box border
    out := WriteEdge(out, '-', actualWidth);
    assert out == Box(lines, cw);

    // mascot
    out := out + mascot;
  }

  /** The body rows, one per line and in order, after what is already written. */
  method WriteRows(written: string, lines: seq<string>, actualWidth: nat, cw: char -> nat) returns (out: string)
    ensures out == written + Rows(lines, |lines|, actualWidth, cw)
  {
    out := written;
    for i := 0 to |lines|
      invariant out == written + Rows(lines, i, actualWidth, cw)
    {
      var row := Row(lines[i], i, |lines|, actualWidth, cw);
      out := WriteRow(out, lines[i], i, |lines|, actualWidth, cw);
      assert Rows(lines, i + 1, actualWidth, cw) == Rows(lines, i, actualWidth, cw) + row;
      AppendAssoc(written, Rows(lines, i, actualWidth, cw), row);
    }
  }

  /** A border line: a space, then `w + 2` copies of `c`, written one character at a time. */
  method WriteEdge(written: string, c: char, w: nat) returns (out: string)
    ensures out == written + (" " + Repeat(c, w + 2))
  {
    out := written + " ";
    for k := 0 to w + 2
      invariant out == written + " " + Repeat(c, k)
    {
      AppendAssoc(written + " ", Repeat(c, k), [c]);
      out := out + [c];
    }
    AppendAssoc(written, " ", Repeat(c, w + 2));
  }

  /** One body row: bracket, the line, padding up to the box width, bracket, line feed. */
  method WriteRow(written: string, line: string, i: nat, lineCount: nat, actualWidth: nat, cw: char -> nat)
    returns (out: string)
    ensures out == written + Row(line, i, lineCount, actualWidth, cw)
  {
    out := written;
    if lineCount == 1 {
      out := out + "< ";
    } else if i == 0 {
      out := out + "/ ";
    } else if i == lineCount - 1 {
      out := out + "\\ ";
    } else {
      out := out + "| ";
    }
    ghost var row := LeftBracket(i, lineCount);
    assert out == written + row;

    var lineLen := Width(line, cw);
    AppendAssoc(written, row, line);
    out := out + line;
    row := row + line;
    var k := lineLen;
    while k < actualWidth
      invariant lineLen <= k && (k <= actualWidth || k == lineLen)
      invariant out == written + row
      invariant row == LeftBracket(i, lineCount) + line + Repeat(' ', k - lineLen)
    {
      AppendAssoc(written, row, " ");
      out := out + " ";
      row := row + " ";
      k := k + 1;
    }
    assert row == LeftBracket(i, lineCount) + line + Repeat(' ', PadCount(lineLen, actualWidth));
    ghost var right := RightBracket(i, lineCount) + "\n";

    if lineCount == 1 {
      out := out + " >\n";
    } else if i == 0 {
      out := out + " \\\n";
    } else if i == lineCount - 1 {
      out := out + " /\n";
    } else {
      out := out + " |\n";
    }
    assert out == written + row + right;
    assert row + right == Row(line, i, lineCount, actualWidth, cw);
    AppendAssoc(written, row, right);
  }
}
