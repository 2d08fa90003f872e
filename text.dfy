/** Character-sequence helpers shared by the box renderer and its specification. */
module Text {

  /** `n` copies of `c`: what a counted loop of one-character writes appends. */
  function Repeat(c: char, n: nat): (r: string)
    ensures |r| == n
  {
    if n == 0 then [] else Repeat(c, n - 1) + [c]
  }

  lemma AppendAssoc<T>(a: seq<T>, b: seq<T>, c: seq<T>)
    ensures a + b + c == a + (b + c)
  {
  }

  /** What is written first is the start of the whole text. */
  lemma PrefixOfAppend(a: string, b: string, c: string, d: string)
    ensures |a + b + c + d| >= |a| && (a + b + c + d)[..|a|] == a
  {
    assert a + b + c + d == a + (b + c + d);
  }

  /** Every character of `Repeat(c, n)` is `c`. */
  lemma {:induction false} RepeatAt(c: char, n: nat)
    ensures forall k :: 0 <= k < n ==> Repeat(c, n)[k] == c
  {
    if n > 0 { RepeatAt(c, n - 1); }
  }

  lemma RepeatExcludes(c: char, n: nat, d: char)
    requires d != c
    ensures d !in Repeat(c, n)
  {
    RepeatAt(c, n);
  }

  /** The screen lines of `s`: the pieces between its line feeds, in order. */
  function SplitLines(s: string): (r: seq<string>)
    ensures |r| >= 1
  {
    if s == [] then [[]]
    else
      var rest := SplitLines(s[1..]);
      if s[0] == '\n' then [[]] + rest else [[s[0]] + rest[0]] + rest[1..]
  }

  /** Text without a line feed is a single screen line. */
  lemma {:induction false} SplitLinesNone(s: string)
    requires '\n' !in s
    ensures SplitLines(s) == [s]
  {
    if s != [] {
      SplitLinesNone(s[1..]);
      assert [s[0]] + s[1..] == s;
    }
  }

  /** A line feed after a piece `a` that holds none ends exactly that screen line. */
  lemma {:induction false} SplitLinesCons(a: string, b: string)
    requires '\n' !in a
    ensures SplitLines(a + "\n" + b) == [a] + SplitLines(b)
  {
    if a == [] {
      assert a + "\n" + b == "\n" + b;
      assert ("\n" + b)[1..] == b;
    } else {
      assert (a + "\n" + b)[1..] == a[1..] + "\n" + b;
      SplitLinesCons(a[1..], b);
      assert [a[0]] + a[1..] == a;
    }
  }

  /**
   * A first line ended by a line feed, then a middle part whose screen lines
   * run into a last line: the first line comes first.
   */
  lemma SplitLinesFramed(first: string, head: string, middle: string, last: string, lines: seq<string>)
    requires '\n' !in first && head == first + "\n"
    requires SplitLines(middle + last) == lines
    ensures SplitLines(head + middle + last) == [first] + lines
  {
    AppendAssoc(head, middle, last);
    SplitLinesCons(first, middle + last);
  }

  /** Text that starts with a line feed starts a new screen line after `a`'s last one. */
  lemma {:induction false} SplitLinesAppend(a: string, b: string)
    requires b != [] && b[0] == '\n'
    ensures SplitLines(a + b) == SplitLines(a) + SplitLines(b[1..])
  {
    if a == [] {
      assert a + b == b;
    } else {
      assert (a + b)[0] == a[0] && (a + b)[1..] == a[1..] + b;
      var r, t := SplitLines(a[1..]), SplitLines(b[1..]);
      SplitLinesAppend(a[1..], b);
      if a[0] == '\n' {
        AppendAssoc([[]], r, t);
      } else {
        var head := [[a[0]] + r[0]];
        assert (r + t)[0] == r[0] && (r + t)[1..] == r[1..] + t;
        AppendAssoc(head, r[1..], t);
      }
    }
  }

  /** A text has one screen line more than it has line feeds. */
  lemma {:induction false} SplitLinesCount(s: string)
    ensures |SplitLines(s)| == multiset(s)['\n'] + 1
  {
    if s != [] {
      SplitLinesCount(s[1..]);
      assert s == [s[0]] + s[1..];
      assert multiset(s) == multiset([s[0]]) + multiset(s[1..]);
    }
  }
}
