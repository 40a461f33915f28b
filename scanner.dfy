/**
 * The text scanner's position bookkeeping: a document is the list of its lines (the text split
 * on '\n'), a position is a zero-based (line, column) pair, `lineIndexOf` finds the next
 * delimiter at or after a position, and `linesSubstring` rebuilds the text between two positions.
 */
module Scanner {
  import opened Wrappers
  import opened JsText

  datatype Position = Position(line: nat, column: nat)

  const START_TAG: string := "<%"
  const END_TAG: string := "%>"

  /** Document order on positions: `p` is at or before `q`. */
  predicate Le(p: Position, q: Position) {
    p.line < q.line || (p.line == q.line && p.column <= q.column)
  }

  predicate Lt(p: Position, q: Position) {
    Le(p, q) && p != q
  }

  /** A position on an existing line, at a column or one past the line's end. */
  predicate ValidPos(lines: seq<string>, p: Position) {
    p.line < |lines| && p.column <= |lines[p.line]|
  }

  /** `needle` occurs in the document at `p`, inside one line. */
  predicate Occurs(lines: seq<string>, needle: string, p: Position) {
    p.line < |lines| && OccursAt(lines[p.line], needle, p.column)
  }

  /** The column `indexOf` starts from on line `i` when searching from `start`. */
  function SearchColumn(start: Position, i: nat): nat {
    if i == start.line then start.column else 0
  }

  /** `start` with its column clamped to its line, as `indexOf` clamps it. */
  function Clamped(lines: seq<string>, start: Position): Position {
    if start.line < |lines| then Position(start.line, Min(start.column, |lines[start.line]|)) else start
  }

  /** An occurrence of `needle` that a search from `start` may return. */
  predicate Candidate(lines: seq<string>, needle: string, start: Position, p: Position) {
    Occurs(lines, needle, p) && Le(Clamped(lines, start), p)
  }

  /** The search of `lineIndexOf`, from line `i` on. */
  function FindFrom(needle: string, start: Position, lines: seq<string>, i: nat): (r: Option<Position>)
    requires start.line <= i
    ensures r.Some? ==> Candidate(lines, needle, start, r.value) && i <= r.value.line
    decreases |lines| - i
  {
    if i >= |lines| then None
    else
      var k := IndexOf(lines[i], needle, SearchColumn(start, i));
      if k >= 0 then Some(Position(i, k)) else FindFrom(needle, start, lines, i + 1)
  }

  /** The search from line `i` finds the earliest candidate on a line `i` or later, if there is one. */
  lemma {:induction false} FindFromIsEarliest(needle: string, start: Position, lines: seq<string>, i: nat)
    requires start.line <= i
    ensures var r := FindFrom(needle, start, lines, i);
            r.Some? ==> forall q :: Candidate(lines, needle, start, q) && i <= q.line ==> Le(r.value, q)
    ensures FindFrom(needle, start, lines, i).None? ==>
              forall q :: Candidate(lines, needle, start, q) ==> q.line < i
    decreases |lines| - i
  {
    if i < |lines| {
      var k := IndexOf(lines[i], needle, SearchColumn(start, i));
      IndexOfIsFirst(lines[i], needle, SearchColumn(start, i));
      if k < 0 {
        FindFromIsEarliest(needle, start, lines, i + 1);
      }
    }
  }

  /**
   * The position `lineIndexOf` returns: an occurrence at or after `start`, on line `start.line`
   * searched from `start.column` and on later lines from column 0.
   */
  function FirstAtOrAfter(needle: string, start: Position, lines: seq<string>): (r: Option<Position>)
    ensures r.Some? ==> Candidate(lines, needle, start, r.value) && start.line <= r.value.line
  {
    FindFrom(needle, start, lines, start.line)
  }

  /** `lineIndexOf` returns the earliest occurrence, and `null` exactly when there is none. */
  lemma FirstAtOrAfterIsEarliest(needle: string, start: Position, lines: seq<string>)
    ensures var r := FirstAtOrAfter(needle, start, lines);
            r.Some? ==> forall q :: Candidate(lines, needle, start, q) ==> Le(r.value, q)
    ensures FirstAtOrAfter(needle, start, lines).None? <==> forall q :: !Candidate(lines, needle, start, q)
  {
    FindFromIsEarliest(needle, start, lines, start.line);
  }

  /** For a position inside its line and a non-empty needle, a candidate is an occurrence at or after `start`. */
  lemma CandidateIsOccurrenceAfter(lines: seq<string>, needle: string, start: Position, p: Position)
    requires ValidPos(lines, start) && |needle| > 0
    ensures Candidate(lines, needle, start, p) <==> Occurs(lines, needle, p) && Le(start, p)
  {
  }

  /** `lineIndexOf(needle, start, lines)`: scan the lines from `start.line`, the first one from `start.column`. */
  method LineIndexOf(needle: string, start: Position, lines: seq<string>) returns (r: Option<Position>)
    ensures r == FirstAtOrAfter(needle, start, lines)
  {
    var i := start.line;
    while i < |lines|
      invariant start.line <= i
      invariant FindFrom(needle, start, lines, i) == FindFrom(needle, start, lines, start.line)
      decreases |lines| - i
    {
      var line := lines[i];
      var charPos := IndexOf(line, needle, if i == start.line then start.column else 0);
      if charPos >= 0 {
        return Some(Position(i, charPos));
      }
      i := i + 1;
    }
    return None;
  }

  // ---------------------------------------------------------------------------
  // linesSubstring
  // ---------------------------------------------------------------------------

  /** The whole lines strictly between lines `f` and `t`. */
  function Middle(lines: seq<string>, f: nat, t: nat): seq<string>
    requires f < |lines| && t < |lines|
  {
    if f < t then lines[f + 1..t] else []
  }

  /**
   * What `linesSubstring(from, until, lines)` returns. On one line: the columns between the two
   * positions followed by a newline. Across lines: the rest of the first line, every line
   * in between, each followed by a newline, and the start of the last line with no newline.
   */
  function LinesSlice(from: Position, until: Position, lines: seq<string>): string
    requires from.line < |lines| && until.line < |lines|
  {
    if from.line == until.line then
      Substring(lines[from.line], from.column, until.column) + "\n"
    else
      SubstringFrom(lines[from.line], from.column) + "\n"
      + Terminated(Middle(lines, from.line, until.line))
      + Substring(lines[until.line], 0, until.column)
  }

  method LinesSubstring(from: Position, until: Position, lines: seq<string>) returns (r: string)
    requires from.line < |lines| && until.line < |lines|
    ensures r == LinesSlice(from, until, lines)
  {
    if from.line == until.line {
      return Substring(lines[from.line], from.column, until.column) + "\n";
    }
    r := SubstringFrom(lines[from.line], from.column) + "\n";
    ghost var head := r;
    var i := from.line + 1;
    while i < until.line
      invariant from.line + 1 <= i <= |lines|
      invariant i <= until.line || i == from.line + 1
      invariant r == head + Terminated(lines[from.line + 1..i])
      decreases until.line - i
    {
      assert lines[from.line + 1..i + 1] == lines[from.line + 1..i] + [lines[i]];
      TerminatedAppend(lines[from.line + 1..i], [lines[i]]);
      r := r + lines[i] + "\n";
      i := i + 1;
    }
    assert lines[from.line + 1..i] == Middle(lines, from.line, until.line);
    r := r + Substring(lines[until.line], 0, until.column);
  }

  // ---------------------------------------------------------------------------
  // Positions as offsets into the text the lines were split from
  // ---------------------------------------------------------------------------

  /** The index in `Join(lines)` of a position. */
  function Offset(lines: seq<string>, p: Position): nat
    requires p.line < |lines|
  {
    |Terminated(lines[..p.line])| + p.column
  }

  /** The joined text, cut around line `t`. */
  lemma {:induction false} JoinAround(lines: seq<string>, t: nat)
    requires t < |lines|
    ensures Join(lines) == Terminated(lines[..t]) + lines[t]
                           + (if t + 1 < |lines| then "\n" + Join(lines[t + 1..]) else "")
    decreases t
  {
    if t > 0 {
      JoinAround(lines[1..], t - 1);
      assert lines[1..][t - 1 + 1..] == lines[t + 1..];
      assert lines[..t][1..] == lines[1..][..t - 1];
    }
  }

  /** The lines up to `t` end with line `f` followed by the lines between `f` and `t`. */
  lemma TerminatedUpTo(lines: seq<string>, f: nat, t: nat)
    requires f < t < |lines|
    ensures Terminated(lines[..t]) == Terminated(lines[..f]) + lines[f] + "\n" + Terminated(Middle(lines, f, t))
  {
    assert lines[..t] == lines[..f] + [lines[f]] + lines[f + 1..t];
    TerminatedAppend(lines[..f] + [lines[f]], lines[f + 1..t]);
    TerminatedAppend(lines[..f], [lines[f]]);
  }

  /** Across lines, `linesSubstring` is exactly the text between the two positions. */
  lemma SliceAcrossLinesIsText(from: Position, until: Position, lines: seq<string>)
    requires ValidPos(lines, from) && ValidPos(lines, until) && from.line < until.line
    ensures var a, b := Offset(lines, from), Offset(lines, until);
            a <= b <= |Join(lines)| && LinesSlice(from, until, lines) == Join(lines)[a..b]
  {
    var f, t := from.line, until.line;
    var before := Terminated(lines[..f]);
    var between := Terminated(Middle(lines, f, t));
    var rest := if t + 1 < |lines| then "\n" + Join(lines[t + 1..]) else "";
    JoinAround(lines, t);
    TerminatedUpTo(lines, f, t);
    var head := before + lines[f][..from.column];
    var mid := lines[f][from.column..] + "\n" + between + lines[t][..until.column];
    var tail := lines[t][until.column..] + rest;
    calc {
      Join(lines);
      (before + lines[f] + "\n" + between) + lines[t] + rest;
      { assert lines[f] == lines[f][..from.column] + lines[f][from.column..]; }
      (before + (lines[f][..from.column] + lines[f][from.column..]) + "\n" + between) + lines[t] + rest;
      { assert lines[t] == lines[t][..until.column] + lines[t][until.column..]; }
      (before + (lines[f][..from.column] + lines[f][from.column..]) + "\n" + between)
        + (lines[t][..until.column] + lines[t][until.column..]) + rest;
      { SeqAssoc7(before, lines[f][..from.column], lines[f][from.column..], "\n", between,
                  lines[t][..until.column], lines[t][until.column..], rest); }
      head + mid + tail;
    }
    MiddleOfConcat(head, mid, tail);
  }

  lemma SeqAssoc7(x1: string, x2: string, x3: string, x4: string, x5: string, x6: string, x7: string, x8: string)
    ensures (x1 + (x2 + x3) + x4 + x5) + (x6 + x7) + x8 == (x1 + x2) + (x3 + x4 + x5 + x6) + (x7 + x8)
  {
  }

  lemma MiddleOfConcat(x: string, y: string, z: string)
    ensures (x + y + z)[|x|..|x| + |y|] == y
  {
  }

  /** On one line, `linesSubstring` is the text between the two positions plus a newline. */
  lemma SliceOnOneLineIsTextAndNewline(from: Position, until: Position, lines: seq<string>)
    requires ValidPos(lines, until) && from.line == until.line && from.column <= until.column
    ensures var a, b := Offset(lines, from), Offset(lines, until);
            a <= b <= |Join(lines)| && LinesSlice(from, until, lines) == Join(lines)[a..b] + "\n"
  {
    var t := until.line;
    var a := Terminated(lines[..t]);
    var rest := if t + 1 < |lines| then "\n" + Join(lines[t + 1..]) else "";
    JoinAround(lines, t);
    var q := a + lines[t][..from.column];
    var mid := lines[t][from.column..until.column];
    assert lines[t] == lines[t][..from.column] + mid + lines[t][until.column..];
    assert Join(lines) == q + mid + (lines[t][until.column..] + rest);
  }

  /** An occurrence inside a line is an occurrence in the joined text at the position's offset. */
  lemma OccursInText(lines: seq<string>, needle: string, p: Position)
    requires Occurs(lines, needle, p)
    ensures OccursAt(Join(lines), needle, Offset(lines, p))
  {
    var t := p.line;
    var rest := if t + 1 < |lines| then "\n" + Join(lines[t + 1..]) else "";
    JoinAround(lines, t);
    var q := Terminated(lines[..t]) + lines[t][..p.column];
    var mid := lines[t][p.column..p.column + |needle|];
    assert lines[t] == lines[t][..p.column] + mid + lines[t][p.column + |needle|..];
    assert Join(lines) == q + mid + (lines[t][p.column + |needle|..] + rest);
  }
}
