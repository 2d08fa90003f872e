/**
 * Display width of the wrapped lines and the width of the box around them.
 * The per-character column width (the `unicode_width` tables) is a parameter
 * `cw`; a string's width is the sum of its characters' widths.
 */
module DisplayWidth {
  import opened Text

  /** Columns a string occupies on a terminal: every character's columns count. */
  function Width(s: string, cw: char -> nat): (r: nat)
    ensures s == [] ==> r == 0
    ensures forall k :: 0 <= k < |s| ==> cw(s[k]) <= r
  {
    if s == [] then 0 else cw(s[0]) + Width(s[1..], cw)
  }

  lemma {:induction false} WidthConcat(a: string, b: string, cw: char -> nat)
    ensures Width(a + b, cw) == Width(a, cw) + Width(b, cw)
  {
    if a == [] {
      assert a + b == b;
    } else {
      assert (a + b)[1..] == a[1..] + b;
      WidthConcat(a[1..], b, cw);
    }
  }

  /** A string of narrow characters is as wide as it is long. */
  lemma {:induction false} WidthOfNarrow(s: string, cw: char -> nat)
    requires forall k :: 0 <= k < |s| ==> cw(s[k]) == 1
    ensures Width(s, cw) == |s|
  {
    if s != [] {
      assert forall k :: 0 <= k < |s| - 1 ==> s[1..][k] == s[k + 1];
      WidthOfNarrow(s[1..], cw);
    }
  }

  lemma {:induction false} WidthRepeat(c: char, n: nat, cw: char -> nat)
    requires cw(c) == 1
    ensures Width(Repeat(c, n), cw) == n
  {
    if n > 0 {
      WidthRepeat(c, n - 1, cw);
      WidthConcat(Repeat(c, n - 1), [c], cw);
      assert [c][1..] == [];
    }
  }

  /**
   * The box width: the largest display width of any line, 0 for no lines
   * (`max` over the widths, `unwrap_or(0)`).
   */
  function LongestLine(lines: seq<string>, cw: char -> nat): (r: nat)
    ensures forall i :: 0 <= i < |lines| ==> Width(lines[i], cw) <= r
    ensures lines == [] ==> r == 0
    ensures lines != [] ==> exists i :: 0 <= i < |lines| && Width(lines[i], cw) == r
  {
    if lines == [] then 0
    else
      var head, rest := Width(lines[0], cw), LongestLine(lines[1..], cw);
      assert forall i :: 1 <= i < |lines| ==> lines[i] == lines[1..][i - 1];
      if head >= rest then head
      else
        assert exists j :: 0 <= j < |lines| - 1 && Width(lines[1..][j], cw) == rest;
        rest
  }
}
