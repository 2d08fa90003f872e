/**
 * Whitespace merge: every maximal run of horizontal white space (white space
 * other than carriage return and line feed) becomes one ASCII space; line
 * feeds, carriage returns and every other character pass through in order.
 */
module WhiteSpace {

  /**
   * The regular-expression class `[^\S\r\n]`: a character with the Unicode
   * White_Space property that is neither '\r' nor '\n'.
   */
  predicate HSpace(c: char)
  {
    || c == '\t' || c == '\U{000B}' || c == '\U{000C}' || c == ' '
    || c == '\U{0085}' || c == '\U{00A0}' || c == '\U{1680}'
    || ('\U{2000}' <= c <= '\U{200A}')
    || c == '\U{2028}' || c == '\U{2029}' || c == '\U{202F}' || c == '\U{205F}'
    || c == '\U{3000}'
  }

  /** `s` without its leading run of horizontal white space (the greedy `+`). */
  function SkipRun(s: string): (t: string)
    ensures |t| <= |s|
    ensures t == [] || !HSpace(t[0])
  {
    if s != [] && HSpace(s[0]) then SkipRun(s[1..]) else s
  }

  /** What `SkipRun` drops is a prefix made only of horizontal white space. */
  lemma {:induction false} SkipRunDropsRun(s: string)
    ensures var t := SkipRun(s);
      s[|s| - |t|..] == t && forall k :: 0 <= k < |s| - |t| ==> HSpace(s[k])
  {
    if s != [] && HSpace(s[0]) {
      SkipRunDropsRun(s[1..]);
      assert forall k :: 1 <= k < |s| ==> s[k] == s[1..][k - 1];
    }
  }

  /** `replace_all` of the pattern `([^\S\r\n])+` by `" "`, as a left-to-right scan. */
  function MergeWhiteSpaces(s: string): (r: string)
    ensures |r| <= |s|
    ensures r == [] <==> s == []
    decreases |s|
  {
    if s == [] then []
    else if HSpace(s[0]) then " " + MergeWhiteSpaces(SkipRun(s[1..]))
    else [s[0]] + MergeWhiteSpaces(s[1..])
  }

  /**
   * Already merged: every horizontal space is an ASCII space and no two
   * horizontal spaces are adjacent.
   */
  ghost predicate Merged(s: string)
  {
    forall i :: 0 <= i < |s| && HSpace(s[i]) ==>
      s[i] == ' ' && (i + 1 == |s| || !HSpace(s[i + 1]))
  }

  /** The characters of `s` that are not horizontal white space, in order. */
  function Strip(s: string): (r: string)
  {
    if s == [] then []
    else if HSpace(s[0]) then Strip(s[1..])
    else [s[0]] + Strip(s[1..])
  }

  lemma {:induction false} MergeHead(s: string)
    requires s != [] && !HSpace(s[0])
    ensures MergeWhiteSpaces(s) != [] && MergeWhiteSpaces(s)[0] == s[0]
  {
  }

  /** The output never holds two adjacent horizontal spaces, and each one is ' '. */
  lemma {:induction false} MergeIsMerged(s: string)
    ensures Merged(MergeWhiteSpaces(s))
    decreases |s|
  {
    if s == [] {
    } else if HSpace(s[0]) {
      var t := SkipRun(s[1..]);
      MergeIsMerged(t);
      if t != [] { MergeHead(t); }
      var m := MergeWhiteSpaces(t);
      assert MergeWhiteSpaces(s) == " " + m;
      assert forall i :: 1 <= i < |m| + 1 ==> (" " + m)[i] == m[i - 1];
    } else {
      MergeIsMerged(s[1..]);
      var m := MergeWhiteSpaces(s[1..]);
      assert MergeWhiteSpaces(s) == [s[0]] + m;
      assert forall i :: 1 <= i < |m| + 1 ==> ([s[0]] + m)[i] == m[i - 1];
    }
  }

  lemma {:induction false} StripSkipRun(s: string)
    ensures Strip(SkipRun(s)) == Strip(s)
    decreases |s|
  {
    if s != [] && HSpace(s[0]) {
      StripSkipRun(s[1..]);
    }
  }

  /**
   * Removing every horizontal space from input and output gives the same
   * sequence: all other characters keep their order and number.
   */
  lemma {:induction false} MergeKeepsStripped(s: string)
    ensures Strip(MergeWhiteSpaces(s)) == Strip(s)
    decreases |s|
  {
    if s == [] {
    } else if HSpace(s[0]) {
      var t := SkipRun(s[1..]);
      MergeKeepsStripped(t);
      StripSkipRun(s[1..]);
      assert (" " + MergeWhiteSpaces(t))[1..] == MergeWhiteSpaces(t);
    } else {
      MergeKeepsStripped(s[1..]);
      assert ([s[0]] + MergeWhiteSpaces(s[1..]))[1..] == MergeWhiteSpaces(s[1..]);
    }
  }

  lemma {:induction false} StripCount(s: string, c: char)
    requires !HSpace(c)
    ensures multiset(Strip(s))[c] == multiset(s)[c]
  {
    if s != [] {
      StripCount(s[1..], c);
      assert s == [s[0]] + s[1..];
    }
  }

  /** Every character other than horizontal white space occurs as often after the merge as before. */
  lemma KeepsOtherCharacters(s: string, c: char)
    requires !HSpace(c)
    ensures multiset(MergeWhiteSpaces(s))[c] == multiset(s)[c]
  {
    StripCount(s, c);
    StripCount(MergeWhiteSpaces(s), c);
    MergeKeepsStripped(s);
  }

  /** Line feeds and carriage returns all survive the merge. */
  lemma KeepsLineBreaks(s: string)
    ensures multiset(MergeWhiteSpaces(s))['\n'] == multiset(s)['\n']
    ensures multiset(MergeWhiteSpaces(s))['\r'] == multiset(s)['\r']
  {
    KeepsOtherCharacters(s, '\n');
    KeepsOtherCharacters(s, '\r');
  }

  lemma {:induction false} MergedTail(s: string)
    requires s != [] && Merged(s)
    ensures Merged(s[1..])
  {
    assert forall i :: 0 <= i < |s| - 1 ==> s[1..][i] == s[i + 1];
  }

  lemma {:induction false} MergeOfMerged(s: string)
    requires Merged(s)
    ensures MergeWhiteSpaces(s) == s
    decreases |s|
  {
    if s != [] {
      MergedTail(s);
      MergeOfMerged(s[1..]);
      if HSpace(s[0]) {
        assert s[0] == ' ';
        assert SkipRun(s[1..]) == s[1..];
        assert s == " " + s[1..];
      } else {
        assert s == [s[0]] + s[1..];
      }
    }
  }

  /** The merge changes exactly the strings that are not already merged. */
  lemma MergeFixpoint(s: string)
    ensures MergeWhiteSpaces(s) == s <==> Merged(s)
  {
    MergeIsMerged(s);
    if Merged(s) { MergeOfMerged(s); }
  }

  /** Merging twice is merging once. */
  lemma MergeIdempotent(s: string)
    ensures MergeWhiteSpaces(MergeWhiteSpaces(s)) == MergeWhiteSpaces(s)
  {
    MergeIsMerged(s);
    MergeOfMerged(MergeWhiteSpaces(s));
  }

  /** A character that is not horizontal white space passes through. */
  lemma MergeOther(c: char, s: string)
    requires !HSpace(c)
    ensures MergeWhiteSpaces([c] + s) == [c] + MergeWhiteSpaces(s)
  {
    assert ([c] + s)[1..] == s;
  }

  lemma {:induction false} SkipRunOver(u: string, s: string)
    requires forall k :: 0 <= k < |u| ==> HSpace(u[k])
    requires s == [] || !HSpace(s[0])
    ensures SkipRun(u + s) == s
  {
    if u == [] {
      assert u + s == s;
    } else {
      assert (u + s)[1..] == u[1..] + s;
      SkipRunOver(u[1..], s);
    }
  }

  /** A maximal run of horizontal white space, whichever characters form it, becomes one ' '. */
  lemma MergeRun(u: string, s: string)
    requires u != [] && forall k :: 0 <= k < |u| ==> HSpace(u[k])
    requires s == [] || !HSpace(s[0])
    ensures MergeWhiteSpaces(u + s) == " " + MergeWhiteSpaces(s)
  {
    assert (u + s)[1..] == u[1..] + s;
    SkipRunOver(u[1..], s);
  }

  /** A run of several spaces between two words becomes one space. */
  lemma MergeExampleRun()
    ensures MergeWhiteSpaces("a    b") == "a b"
  {
  }

  /** Two line feeds in a row are neither merged nor turned into spaces. */
  lemma MergeExampleLineFeeds()
    ensures MergeWhiteSpaces("a\n\nb") == "a\n\nb"
  {
  }

  /** Runs on either side of a line feed collapse separately; the line feed stays. */
  lemma MergeExampleAroundLineFeed()
    ensures MergeWhiteSpaces("a \t\n \U{3000}b") == "a \n b"
  {
    assert MergeWhiteSpaces(" \U{3000}b") == " b";
    assert MergeWhiteSpaces("\n \U{3000}b") == "\n b";
  }
}
