/**
 * The JavaScript string built-ins the template engine relies on, stated on `seq<char>`:
 * `split('\n')` and its inverse, `substring` with its argument clamping and swapping,
 * `indexOf` with a start column, and `startsWith` / `endsWith`.
 */
module JsText {

  function Min(a: nat, b: nat): nat { if a <= b then a else b }
  function Max(a: nat, b: nat): nat { if a <= b then b else a }

  predicate StartsWith(s: string, prefix: string) {
    |prefix| <= |s| && s[..|prefix|] == prefix
  }

  predicate EndsWith(s: string, suffix: string) {
    |suffix| <= |s| && s[|s| - |suffix|..] == suffix
  }

  /** `needle` occurs in `s` starting at index `k`. */
  predicate OccursAt(s: string, needle: string, k: int) {
    0 <= k && k + |needle| <= |s| && s[k..k + |needle|] == needle
  }

  // ---------------------------------------------------------------------------
  // Lines: `text.split('\n')` and the text it came from
  // ---------------------------------------------------------------------------

  /** The lines of a list, each followed by a newline. */
  function Terminated(lines: seq<string>): string {
    if lines == [] then "" else lines[0] + "\n" + Terminated(lines[1..])
  }

  /** `lines.join('\n')`: the inverse of `split('\n')`. */
  function Join(lines: seq<string>): string
    requires |lines| >= 1
  {
    if |lines| == 1 then lines[0] else lines[0] + "\n" + Join(lines[1..])
  }

  predicate NoNewline(line: string) { '\n' !in line }

  /** `s.split('\n')`: always at least one line, none containing a newline, joining back to `s`. */
  function SplitLines(s: string): (lines: seq<string>)
    ensures |lines| >= 1
    ensures forall i :: 0 <= i < |lines| ==> NoNewline(lines[i])
    ensures Join(lines) == s
  {
    if |s| == 0 then [""]
    else
      var rest := SplitLines(s[1..]);
      if s[0] == '\n' then
        assert Join([""] + rest) == "" + "\n" + Join(rest) by {
          assert ([""] + rest)[1..] == rest;
        }
        [""] + rest
      else
        var first := [s[0]] + rest[0];
        assert Join([first] + rest[1..]) == [s[0]] + Join(rest) by {
          if |rest| > 1 {
            assert ([first] + rest[1..])[1..] == rest[1..];
          }
        }
        [first] + rest[1..]
  }

  lemma {:induction false} SplitWithoutNewline(s: string)
    requires NoNewline(s)
    ensures SplitLines(s) == [s]
    decreases |s|
  {
    if |s| > 0 {
      assert NoNewline(s[1..]) by { assert forall i :: 0 <= i < |s[1..]| ==> s[1..][i] == s[i + 1]; }
      SplitWithoutNewline(s[1..]);
      assert [s[0]] + s[1..] == s;
    }
  }

  lemma {:induction false} SplitAtNewline(x: string, y: string)
    requires NoNewline(x)
    ensures SplitLines(x + "\n" + y) == [x] + SplitLines(y)
    decreases |x|
  {
    var s := x + "\n" + y;
    if |x| == 0 {
      assert s[1..] == y;
    } else {
      assert NoNewline(x[1..]) by { assert forall i :: 0 <= i < |x[1..]| ==> x[1..][i] == x[i + 1]; }
      assert s[1..] == x[1..] + "\n" + y;
      SplitAtNewline(x[1..], y);
      assert [x[0]] + x[1..] == x;
    }
  }

  /** The other round trip: splitting the join of newline-free lines gives the lines back. */
  lemma {:induction false} SplitJoin(lines: seq<string>)
    requires |lines| >= 1
    requires forall i :: 0 <= i < |lines| ==> NoNewline(lines[i])
    ensures SplitLines(Join(lines)) == lines
    decreases |lines|
  {
    if |lines| == 1 {
      SplitWithoutNewline(lines[0]);
    } else {
      SplitJoin(lines[1..]);
      SplitAtNewline(lines[0], Join(lines[1..]));
      assert [lines[0]] + lines[1..] == lines;
    }
  }

  lemma {:induction false} TerminatedAppend(a: seq<string>, b: seq<string>)
    ensures Terminated(a + b) == Terminated(a) + Terminated(b)
    decreases |a|
  {
    if a != [] {
      assert (a + b)[1..] == a[1..] + b;
      TerminatedAppend(a[1..], b);
    } else {
      assert a + b == b;
    }
  }

  /** Every line but the last is followed by a newline; the last is not. */
  lemma {:induction false} JoinIsTerminatedThenLast(lines: seq<string>)
    requires |lines| >= 1
    ensures Join(lines) == Terminated(lines[..|lines| - 1]) + lines[|lines| - 1]
    decreases |lines|
  {
    if |lines| > 1 {
      JoinIsTerminatedThenLast(lines[1..]);
      assert lines[..|lines| - 1] == [lines[0]] + lines[1..][..|lines| - 2];
      TerminatedAppend([lines[0]], lines[1..][..|lines| - 2]);
    }
  }

  /** A text has more than one line exactly when it contains a newline. */
  lemma SeveralLinesIffNewline(s: string)
    ensures |SplitLines(s)| > 1 <==> '\n' in s
  {
    var lines := SplitLines(s);
    if |lines| > 1 {
      assert Join(lines) == lines[0] + "\n" + Join(lines[1..]);
      assert s[|lines[0]|] == '\n';
    } else {
      assert s == lines[0];
    }
  }

  // ---------------------------------------------------------------------------
  // substring and indexOf
  // ---------------------------------------------------------------------------

  /**
   * `s.substring(a, b)`: both bounds are clamped to the length of `s`, and when the first
   * ends up larger than the second the two are swapped.
   */
  function Substring(s: string, a: nat, b: nat): (r: string)
    ensures a <= b <= |s| ==> r == s[a..b]
    ensures |r| <= |s|
  {
    var lo := Min(Min(a, |s|), Min(b, |s|));
    var hi := Max(Min(a, |s|), Min(b, |s|));
    s[lo..hi]
  }

  /** `s.substring(a)`: from `a` to the end. */
  function SubstringFrom(s: string, a: nat): (r: string)
    ensures a <= |s| ==> r == s[a..]
  {
    Substring(s, a, |s|)
  }

  /** The order of the two bounds does not matter to `substring`. */
  lemma SubstringSwaps(s: string, a: nat, b: nat)
    ensures Substring(s, a, b) == Substring(s, b, a)
  {
  }

  /** The first occurrence of `needle` in `s` at an index `k` or later, or -1. */
  function SearchFrom(s: string, needle: string, k: nat): (r: int)
    requires k <= |s|
    ensures r == -1 || (k <= r && OccursAt(s, needle, r))
    decreases |s| - k
  {
    if k + |needle| > |s| then -1
    else if s[k..k + |needle|] == needle then k
    else SearchFrom(s, needle, k + 1)
  }

  /** `SearchFrom` finds the first occurrence, and -1 only when there is none. */
  lemma {:induction false} SearchFromIsFirst(s: string, needle: string, k: nat)
    requires k <= |s|
    ensures var r := SearchFrom(s, needle, k);
            && (r == -1 ==> forall j :: k <= j ==> !OccursAt(s, needle, j))
            && (r >= 0 ==> forall j :: k <= j < r ==> !OccursAt(s, needle, j))
    decreases |s| - k
  {
    if k + |needle| <= |s| && s[k..k + |needle|] != needle {
      SearchFromIsFirst(s, needle, k + 1);
    }
  }

  /**
   * `s.indexOf(needle, from)`: the start column is clamped to the length of `s`; the result
   * is an occurrence at or after it, or -1.
   */
  function IndexOf(s: string, needle: string, from: nat): (r: int)
    ensures r == -1 || (Min(from, |s|) <= r && OccursAt(s, needle, r))
  {
    SearchFrom(s, needle, Min(from, |s|))
  }

  /** `indexOf` returns the first occurrence at or after the clamped column, and -1 exactly when there is none. */
  lemma IndexOfIsFirst(s: string, needle: string, from: nat)
    ensures var r := IndexOf(s, needle, from);
            && (r == -1 <==> forall j :: Min(from, |s|) <= j ==> !OccursAt(s, needle, j))
            && (r >= 0 ==> forall j :: Min(from, |s|) <= j < r ==> !OccursAt(s, needle, j))
  {
    SearchFromIsFirst(s, needle, Min(from, |s|));
  }
}
