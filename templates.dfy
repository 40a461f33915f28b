/**
 * `render`: the loop that finds each `<% ... %>` span, copies the static text before it,
 * runs the span and splices a truthy result, until no start tag is left. `Scan` states what
 * the loop computes, one `StepAt` per iteration; the lemmas say what that output is.
 */
module Templates {
  import opened Wrappers
  import opened JsText
  import opened Scanner
  import opened Evaluation

  /** Why a render fails. No partial output survives a failure. */
  datatype RenderError =
    | Unterminated(file: string, at: Position)   // a start tag with no end tag at or after it
    | EvaluationFailed(error: Value)             // a span threw

  /** The number a string of decimal digits spells. */
  function NumeralValue(s: string): nat
    requires forall i :: 0 <= i < |s| ==> '0' <= s[i] <= '9'
  {
    if s == [] then 0 else NumeralValue(s[..|s| - 1]) * 10 + (s[|s| - 1] as int - '0' as int)
  }

  /** The decimal numeral of `n`, as a template literal prints a line or column number. */
  function Digits(n: nat): (s: string)
    ensures |s| >= 1
    ensures forall i :: 0 <= i < |s| ==> '0' <= s[i] <= '9'
    ensures NumeralValue(s) == n
    ensures |s| > 1 ==> s[0] != '0'
  {
    var d := ('0' as int + n % 10) as char;
    if n < 10 then [d]
    else
      var s := Digits(n / 10) + [d];
      assert s[..|s| - 1] == Digits(n / 10);
      s
  }

  /** The message of the error thrown for an unterminated tag (zero-based line and column). */
  function UnterminatedMessage(file: string, at: Position): (msg: string)
    ensures StartsWith(msg, "[node-templates] END_TAG not found! Starting " + file + ":")
  {
    var prefix := "[node-templates] END_TAG not found! Starting " + file + ":";
    var msg := prefix + Digits(at.line) + ":" + Digits(at.column);
    assert msg[..|prefix|] == prefix;
    msg
  }

  /** Everything one render pass reads: the document, the file, the arguments and the host. */
  datatype Ctx = Ctx(lines: seq<string>, file: string, projectRoot: string, templateArgs: Args, host: Host)

  /** The end of the document: one past the last column of the last line. */
  function LastPos(lines: seq<string>): (p: Position)
    requires |lines| >= 1
    ensures ValidPos(lines, p)
  {
    Position(|lines| - 1, |lines[|lines| - 1]|)
  }

  /** One iteration of the loop, from the cursor `end`. */
  datatype Step =
    | Finished(tail: string)                 // no start tag left: the rest of the document
    | Aborted(error: RenderError)
    | Advanced(out: string, next: Position)  // static text and spliced result; the new cursor

  function StepAt(ctx: Ctx, cursor: Position): (s: Step)
    requires |ctx.lines| >= 1 && ValidPos(ctx.lines, cursor)
    ensures s.Advanced? ==> ValidPos(ctx.lines, s.next) && Lt(cursor, s.next)
  {
    var lines := ctx.lines;
    match FirstAtOrAfter(START_TAG, cursor, lines)
    case None => Finished(LinesSlice(cursor, LastPos(lines), lines))
    case Some(start) =>
      var text := LinesSlice(cursor, start, lines);
      match FirstAtOrAfter(END_TAG, start, lines)
      case None => Aborted(Unterminated(ctx.file, start))
      case Some(end) =>
        match SpanCode(ctx, start, end)
        case Threw(e) => Aborted(EvaluationFailed(e))
        case Returned(v) =>
          Advanced(text + Emitted(v, ctx.host.show), Position(end.line, end.column + |END_TAG|))
  }

  /** The output of the loop from the cursor on, `acc` being what it has produced so far. */
  function Scan(ctx: Ctx, cursor: Position, acc: string): Result<string, RenderError>
    requires |ctx.lines| >= 1 && ValidPos(ctx.lines, cursor)
    decreases |ctx.lines| - cursor.line, |ctx.lines[cursor.line]| - cursor.column
  {
    match StepAt(ctx, cursor)
    case Finished(tail) => Success(acc + tail)
    case Aborted(e) => Failure(e)
    case Advanced(out, next) => Scan(ctx, next, acc + out)
  }

  function RenderCtx(projectRoot: string, file: Option<string>, text: string, templateArgs: Option<Args>,
                     host: Host): (ctx: Ctx)
    ensures |ctx.lines| >= 1
  {
    Ctx(SplitLines(text), file.GetOr("?"), projectRoot, templateArgs.GetOr(map[]), host)
  }

  /** What `render(projectRoot)(file, text, templateArgs)` returns or throws. */
  function RenderSpec(projectRoot: string, file: Option<string>, text: string, templateArgs: Option<Args>,
                      host: Host): Result<string, RenderError>
  {
    Scan(RenderCtx(projectRoot, file, text, templateArgs, host), Position(0, 0), "")
  }

  // The four ways one iteration ends, each as an unfolding of `Scan`.

  lemma ScanFinishes(ctx: Ctx, cursor: Position, acc: string)
    requires |ctx.lines| >= 1 && ValidPos(ctx.lines, cursor)
    requires FirstAtOrAfter(START_TAG, cursor, ctx.lines).None?
    ensures Scan(ctx, cursor, acc) == Success(acc + LinesSlice(cursor, LastPos(ctx.lines), ctx.lines))
  {
    assert StepAt(ctx, cursor) == Finished(LinesSlice(cursor, LastPos(ctx.lines), ctx.lines));
  }

  lemma ScanUnterminated(ctx: Ctx, cursor: Position, acc: string, start: Position)
    requires |ctx.lines| >= 1 && ValidPos(ctx.lines, cursor)
    requires FirstAtOrAfter(START_TAG, cursor, ctx.lines) == Some(start)
    requires FirstAtOrAfter(END_TAG, start, ctx.lines).None?
    ensures Scan(ctx, cursor, acc) == Failure(Unterminated(ctx.file, start))
  {
    assert StepAt(ctx, cursor) == Aborted(Unterminated(ctx.file, start));
  }

  /** What running a span gives: the code from two columns after `<%` up to `%>`, run by `processCode`. */
  function SpanCode(ctx: Ctx, start: Position, end: Position): Completion
    requires start.line < |ctx.lines| && end.line < |ctx.lines|
  {
    var code := LinesSlice(Position(start.line, start.column + |START_TAG|), end, ctx.lines);
    ProcessCode(code, start, ctx.file, ctx.host.dirOf(ctx.file), ctx.projectRoot, ctx.templateArgs, ctx.host)
  }

  lemma ScanThrows(ctx: Ctx, cursor: Position, acc: string, start: Position, end: Position)
    requires |ctx.lines| >= 1 && ValidPos(ctx.lines, cursor)
    requires FirstAtOrAfter(START_TAG, cursor, ctx.lines) == Some(start)
    requires FirstAtOrAfter(END_TAG, start, ctx.lines) == Some(end)
    requires SpanCode(ctx, start, end).Threw?
    ensures Scan(ctx, cursor, acc) == Failure(EvaluationFailed(SpanCode(ctx, start, end).error))
  {
    assert StepAt(ctx, cursor) == Aborted(EvaluationFailed(SpanCode(ctx, start, end).error));
  }

  lemma ScanAdvances(ctx: Ctx, cursor: Position, acc: string, start: Position, end: Position)
    requires |ctx.lines| >= 1 && ValidPos(ctx.lines, cursor)
    requires FirstAtOrAfter(START_TAG, cursor, ctx.lines) == Some(start)
    requires FirstAtOrAfter(END_TAG, start, ctx.lines) == Some(end)
    requires SpanCode(ctx, start, end).Returned?
    ensures ValidPos(ctx.lines, Position(end.line, end.column + |END_TAG|))
    ensures Lt(cursor, Position(end.line, end.column + |END_TAG|))
    ensures Scan(ctx, cursor, acc)
         == Scan(ctx, Position(end.line, end.column + |END_TAG|),
                 acc + (LinesSlice(cursor, start, ctx.lines) + Emitted(SpanCode(ctx, start, end).value, ctx.host.show)))
  {
    var v := SpanCode(ctx, start, end).value;
    var out := LinesSlice(cursor, start, ctx.lines) + Emitted(v, ctx.host.show);
    assert StepAt(ctx, cursor) == Advanced(out, Position(end.line, end.column + |END_TAG|));
  }

  /**
   * One pass of the render loop from the cursor `end`: find the next start tag, cut the static
   * text before it, find its end tag, evaluate the code between them and splice the result.
   */
  method NextStep(ctx: Ctx, end: Position) returns (st: Step)
    requires |ctx.lines| >= 1 && ValidPos(ctx.lines, end)
    ensures st == StepAt(ctx, end)
  {
    var lines := ctx.lines;
    var found := LineIndexOf(START_TAG, end, lines);
    if found.None? {
      var tail := LinesSubstring(end, Position(|lines| - 1, |lines[|lines| - 1]|), lines);
      return Finished(tail);
    }
    var start := found.value;
    var piece := LinesSubstring(end, start, lines);
    var closing := LineIndexOf(END_TAG, start, lines);
    if closing.None? {
      return Aborted(Unterminated(ctx.file, start));
    }
    var tagEnd := closing.value;
    var code := LinesSubstring(Position(start.line, start.column + |START_TAG|), tagEnd, lines);
    var dir := ctx.host.dirOf(ctx.file);
    var codeResult := ProcessCode(code, start, ctx.file, dir, ctx.projectRoot, ctx.templateArgs, ctx.host);
    if codeResult.Threw? {
      return Aborted(EvaluationFailed(codeResult.error));
    }
    var spliced := "";
    if Truthy(codeResult.value) {
      spliced := Emitted(codeResult.value, ctx.host.show);
    }
    return Advanced(piece + spliced, Position(tagEnd.line, tagEnd.column + |END_TAG|));
  }

  /**
   * `render`: the document is split into lines; the cursor `end` starts at (0, 0); each
   * iteration copies the text up to the next start tag, finds the end tag searching from the
   * start tag itself, runs the code between them and appends a truthy result, and moves the
   * cursor past the end tag. The loop leaves only by returning or by throwing.
   */
  method Render(projectRoot: string, file: Option<string>, text: string, templateArgs: Option<Args>,
                host: Host) returns (r: Result<string, RenderError>)
    ensures r == RenderSpec(projectRoot, file, text, templateArgs, host)
  {
    var lines := SplitLines(text);
    assert |lines| >= 1;
    var ctx := Ctx(lines, file.GetOr("?"), projectRoot, templateArgs.GetOr(map[]), host);
    var result := "";
    var end := Position(0, 0);
    while true
      invariant ValidPos(lines, end)
      invariant RenderSpec(projectRoot, file, text, templateArgs, host) == Scan(ctx, end, result)
      decreases |lines| - end.line, |lines[end.line]| - end.column
    {
      var st := NextStep(ctx, end);
      match st
      case Finished(tail) =>
        return Success(result + tail);
      case Aborted(e) =>
        return Failure(e);
      case Advanced(out, next) =>
        result := result + out;
        end := next;
    }
  }

  // ---------------------------------------------------------------------------
  // What the output is
  // ---------------------------------------------------------------------------

  /** Some end tag occurs at or after `p`. */
  ghost predicate Closed(lines: seq<string>, p: Position) {
    exists e :: Occurs(lines, END_TAG, e) && Le(p, e)
  }

  /** A failure for an unterminated tag names the file and a start tag with no end tag at or after it. */
  lemma {:induction false} UnterminatedIsGenuine(ctx: Ctx, cursor: Position, acc: string)
    requires |ctx.lines| >= 1 && ValidPos(ctx.lines, cursor)
    ensures var r := Scan(ctx, cursor, acc);
            r.Failure? && r.error.Unterminated? ==>
              && r.error.file == ctx.file
              && Occurs(ctx.lines, START_TAG, r.error.at)
              && Le(cursor, r.error.at)
              && !Closed(ctx.lines, r.error.at)
              && forall q :: Occurs(ctx.lines, START_TAG, q) && Le(cursor, q) && !Closed(ctx.lines, q)
                             ==> Le(r.error.at, q)
    decreases |ctx.lines| - cursor.line, |ctx.lines[cursor.line]| - cursor.column
  {
    var lines := ctx.lines;
    var found := FirstAtOrAfter(START_TAG, cursor, lines);
    if found.None? {
      ScanFinishes(ctx, cursor, acc);
      return;
    }
    var start := found.value;
    var closing := FirstAtOrAfter(END_TAG, start, lines);
    if closing.None? {
      ScanUnterminated(ctx, cursor, acc, start);
      FirstUnclosedTag(lines, cursor, start);
      return;
    }
    var end := closing.value;
    if SpanCode(ctx, start, end).Threw? {
      ScanThrows(ctx, cursor, acc, start, end);
      return;
    }
    var next := Position(end.line, end.column + |END_TAG|);
    ScanAdvances(ctx, cursor, acc, start, end);
    var acc' := acc + (LinesSlice(cursor, start, lines) + Emitted(SpanCode(ctx, start, end).value, ctx.host.show));
    UnterminatedIsGenuine(ctx, next, acc');
    forall q | Occurs(lines, START_TAG, q) && Le(cursor, q) && !Closed(lines, q)
      ensures Le(next, q)
    {
      UnclosedLiesPastSpan(lines, cursor, start, end, q);
    }
  }

  /** The start tag at which the loop stops for want of an end tag is the first unclosed one from the cursor. */
  lemma FirstUnclosedTag(lines: seq<string>, cursor: Position, start: Position)
    requires ValidPos(lines, cursor)
    requires FirstAtOrAfter(START_TAG, cursor, lines) == Some(start)
    requires FirstAtOrAfter(END_TAG, start, lines).None?
    ensures Occurs(lines, START_TAG, start) && Le(cursor, start) && !Closed(lines, start)
    ensures forall q :: Occurs(lines, START_TAG, q) && Le(cursor, q) ==> Le(start, q)
  {
    FirstAtOrAfterIsEarliest(END_TAG, start, lines);
    CandidateIsOccurrenceAfter(lines, START_TAG, cursor, start);
    forall e | Occurs(lines, END_TAG, e) && Le(start, e)
      ensures false
    {
      CandidateIsOccurrenceAfter(lines, END_TAG, start, e);
    }
    FirstAtOrAfterIsEarliest(START_TAG, cursor, lines);
    forall q | Occurs(lines, START_TAG, q) && Le(cursor, q)
      ensures Le(start, q)
    {
      CandidateIsOccurrenceAfter(lines, START_TAG, cursor, q);
    }
  }

  /** A start tag with no end tag after it lies past any span the loop consumes before reaching it. */
  lemma UnclosedLiesPastSpan(lines: seq<string>, cursor: Position, start: Position, end: Position, q: Position)
    requires ValidPos(lines, cursor)
    requires FirstAtOrAfter(START_TAG, cursor, lines) == Some(start)
    requires FirstAtOrAfter(END_TAG, start, lines) == Some(end)
    requires Occurs(lines, START_TAG, q) && Le(cursor, q) && !Closed(lines, q)
    ensures Le(Position(end.line, end.column + |END_TAG|), q)
  {
    FirstAtOrAfterIsEarliest(START_TAG, cursor, lines);
    CandidateIsOccurrenceAfter(lines, START_TAG, cursor, q);
    assert Occurs(lines, END_TAG, end);
    NoStartInsideEnd(lines, end, q);
  }

  /** A start tag cannot begin on the `>` of an end tag. */
  lemma NoStartInsideEnd(lines: seq<string>, e: Position, q: Position)
    requires Occurs(lines, END_TAG, e) && Occurs(lines, START_TAG, q)
    ensures q != Position(e.line, e.column + 1)
  {
    assert lines[e.line][e.column + 1] == '>' by {
      assert lines[e.line][e.column + 1] == lines[e.line][e.column..e.column + 2][1];
    }
    assert lines[q.line][q.column] == '<' by {
      assert lines[q.line][q.column] == lines[q.line][q.column..q.column + 2][0];
    }
  }

  /** When the loop returns normally, every start tag at or after the cursor had an end tag at or after it. */
  lemma {:induction false} SuccessClosesEveryTag(ctx: Ctx, cursor: Position, acc: string)
    requires |ctx.lines| >= 1 && ValidPos(ctx.lines, cursor)
    ensures Scan(ctx, cursor, acc).Success? ==>
              forall q :: Occurs(ctx.lines, START_TAG, q) && Le(cursor, q) ==> Closed(ctx.lines, q)
    decreases |ctx.lines| - cursor.line, |ctx.lines[cursor.line]| - cursor.column
  {
    var lines := ctx.lines;
    var found := FirstAtOrAfter(START_TAG, cursor, lines);
    FirstAtOrAfterIsEarliest(START_TAG, cursor, lines);
    if found.None? {
      forall q | Occurs(lines, START_TAG, q) && Le(cursor, q)
        ensures false
      {
        CandidateIsOccurrenceAfter(lines, START_TAG, cursor, q);
      }
      return;
    }
    var start := found.value;
    var closing := FirstAtOrAfter(END_TAG, start, lines);
    if closing.None? {
      ScanUnterminated(ctx, cursor, acc, start);
      return;
    }
    var end := closing.value;
    if SpanCode(ctx, start, end).Threw? {
      ScanThrows(ctx, cursor, acc, start, end);
      return;
    }
    var next := Position(end.line, end.column + |END_TAG|);
    ScanAdvances(ctx, cursor, acc, start, end);
    var acc' := acc + (LinesSlice(cursor, start, lines) + Emitted(SpanCode(ctx, start, end).value, ctx.host.show));
    SuccessClosesEveryTag(ctx, next, acc');
    if Scan(ctx, next, acc').Success? {
      ClosedBeforeSpan(lines, cursor, start, end);
    }
  }

  /** Tags closed from past a span's end tag on are closed from the cursor on. */
  lemma ClosedBeforeSpan(lines: seq<string>, cursor: Position, start: Position, end: Position)
    requires ValidPos(lines, cursor)
    requires FirstAtOrAfter(START_TAG, cursor, lines) == Some(start)
    requires FirstAtOrAfter(END_TAG, start, lines) == Some(end)
    requires forall q :: Occurs(lines, START_TAG, q) && Le(Position(end.line, end.column + |END_TAG|), q)
                         ==> Closed(lines, q)
    ensures forall q :: Occurs(lines, START_TAG, q) && Le(cursor, q) ==> Closed(lines, q)
  {
    var next := Position(end.line, end.column + |END_TAG|);
    FirstAtOrAfterIsEarliest(START_TAG, cursor, lines);
    forall q | Occurs(lines, START_TAG, q) && Le(cursor, q)
      ensures Closed(lines, q)
    {
      CandidateIsOccurrenceAfter(lines, START_TAG, cursor, q);
      if Le(q, end) {
        assert Occurs(lines, END_TAG, end);
      } else {
        NoStartInsideEnd(lines, end, q);
        assert Le(next, q);
      }
    }
  }

  /** A start tag with no end tag at or after it makes the whole render fail: no output is produced. */
  lemma UnclosedTagFails(projectRoot: string, file: Option<string>, text: string, templateArgs: Option<Args>,
                         host: Host, p: Position)
    requires Occurs(SplitLines(text), START_TAG, p) && !Closed(SplitLines(text), p)
    ensures RenderSpec(projectRoot, file, text, templateArgs, host).Failure?
  {
    SuccessClosesEveryTag(RenderCtx(projectRoot, file, text, templateArgs, host), Position(0, 0), "");
  }

  /**
   * The error thrown for an unterminated tag names the rendered file (`?` when none is given)
   * and the zero-based line and column of the first start tag that no end tag follows.
   */
  lemma UnterminatedErrorNamesOpenTag(projectRoot: string, file: Option<string>, text: string,
                                      templateArgs: Option<Args>, host: Host)
    ensures var r := RenderSpec(projectRoot, file, text, templateArgs, host);
            r.Failure? && r.error.Unterminated? ==>
              && r.error.file == file.GetOr("?")
              && Occurs(SplitLines(text), START_TAG, r.error.at)
              && !Closed(SplitLines(text), r.error.at)
              && forall q :: Occurs(SplitLines(text), START_TAG, q) && !Closed(SplitLines(text), q)
                             ==> Le(r.error.at, q)
  {
    UnterminatedIsGenuine(RenderCtx(projectRoot, file, text, templateArgs, host), Position(0, 0), "");
  }

  /** From the start of the document to its end, `linesSubstring` gives the text back, plus a newline for one line. */
  lemma WholeDocumentSlice(lines: seq<string>)
    requires |lines| >= 1
    ensures LinesSlice(Position(0, 0), LastPos(lines), lines)
         == if |lines| > 1 then Join(lines) else Join(lines) + "\n"
  {
    var origin, last := Position(0, 0), LastPos(lines);
    if |lines| > 1 {
      SliceAcrossLinesIsText(origin, last, lines);
      JoinIsTerminatedThenLast(lines);
      assert lines[..0] == [];
      assert Offset(lines, last) == |Join(lines)|;
    }
  }

  /** A document without start tags renders as itself, with a newline added when it has only one line. */
  lemma IdentityWithoutTags(projectRoot: string, file: Option<string>, text: string, templateArgs: Option<Args>,
                            host: Host)
    requires forall k :: !OccursAt(text, START_TAG, k)
    ensures RenderSpec(projectRoot, file, text, templateArgs, host)
         == Success(if '\n' in text then text else text + "\n")
  {
    var ctx := RenderCtx(projectRoot, file, text, templateArgs, host);
    var lines := ctx.lines;
    var origin := Position(0, 0);
    forall q | Candidate(lines, START_TAG, origin, q)
      ensures false
    {
      OccursInText(lines, START_TAG, q);
    }
    ScanFinishes(ctx, origin, "");
    WholeDocumentSlice(lines);
    SeveralLinesIffNewline(text);
    assert "" + LinesSlice(origin, LastPos(lines), lines) == LinesSlice(origin, LastPos(lines), lines);
  }

  /** Output is only ever appended to: what the loop had produced before the cursor starts its result. */
  lemma {:induction false} OutputOnlyGrows(ctx: Ctx, cursor: Position, acc: string)
    requires |ctx.lines| >= 1 && ValidPos(ctx.lines, cursor)
    ensures Scan(ctx, cursor, acc).Success? ==> acc <= Scan(ctx, cursor, acc).value
    decreases |ctx.lines| - cursor.line, |ctx.lines[cursor.line]| - cursor.column
  {
    var st := StepAt(ctx, cursor);
    if st.Advanced? {
      assert Scan(ctx, cursor, acc) == Scan(ctx, st.next, acc + st.out);
      OutputOnlyGrows(ctx, st.next, acc + st.out);
    }
  }

  /**
   * In a successful render the static text up to the next start tag comes right after what
   * was produced so far, whatever the span then returns.
   */
  lemma StaticTextComesFirst(ctx: Ctx, cursor: Position, acc: string, start: Position)
    requires |ctx.lines| >= 1 && ValidPos(ctx.lines, cursor)
    requires FirstAtOrAfter(START_TAG, cursor, ctx.lines) == Some(start)
    ensures Scan(ctx, cursor, acc).Success? ==>
              acc + LinesSlice(cursor, start, ctx.lines) <= Scan(ctx, cursor, acc).value
  {
    var lines := ctx.lines;
    match FirstAtOrAfter(END_TAG, start, lines)
    case None =>
      ScanUnterminated(ctx, cursor, acc, start);
    case Some(end) =>
      if SpanCode(ctx, start, end).Threw? {
        ScanThrows(ctx, cursor, acc, start, end);
      } else {
        var piece := LinesSlice(cursor, start, lines);
        var spliced := Emitted(SpanCode(ctx, start, end).value, ctx.host.show);
        var next := Position(end.line, end.column + |END_TAG|);
        ScanAdvances(ctx, cursor, acc, start, end);
        OutputOnlyGrows(ctx, next, acc + (piece + spliced));
        assert acc + piece <= acc + (piece + spliced);
      }
  }

  /**
   * The end tag is searched from the start tag itself, so a start tag followed by `>` overlaps
   * an end tag: `<%>` closes itself one column after it opens, and the code slice runs from
   * two columns after the start back to that end tag, which `substring` swaps into `%`.
   */
  lemma OverlappingTags(lines: seq<string>, s: Position)
    requires Occurs(lines, START_TAG, s)
    requires s.column + 2 < |lines[s.line]| && lines[s.line][s.column + 2] == '>'
    ensures FirstAtOrAfter(END_TAG, s, lines) == Some(Position(s.line, s.column + 1))
    ensures LinesSlice(Position(s.line, s.column + 2), Position(s.line, s.column + 1), lines) == "%\n"
  {
    var line, c := lines[s.line], s.column;
    assert line[c] == '<' && line[c + 1] == '%' by {
      assert line[c..c + 2] == START_TAG;
    }
    assert line[c..c + 2] != END_TAG by {
      assert line[c..c + 2][0] == '<';
    }
    assert line[c + 1..c + 3] == END_TAG;
    assert SearchFrom(line, END_TAG, c + 1) == c + 1;
    assert IndexOf(line, END_TAG, c) == c + 1;
    assert Substring(line, c + 2, c + 1) == line[c + 1..c + 2];
    assert line[c + 1..c + 2] == [line[c + 1]];
  }
}
