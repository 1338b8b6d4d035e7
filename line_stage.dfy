/**
 * The line stage: a target grows to whole lines. Its content range is fitted
 * to the text of those lines (without leading and trailing whitespace), its
 * removal range covers the lines from column 0 to the end of the last line,
 * and its delimiters are the line breaks before and after.
 */
module LineStage {
  import opened Wrappers
  import opened Geometry
  import opened TargetTypes

  /**
   * `fitRangeToLineContent`: from the first non-whitespace character of the
   * start line to the end of the end line's text without trailing whitespace,
   * put in order by the host's range constructor. Looking up a line past the
   * end of the document fails.
   */
  function FitRangeToLineContent(doc: HostDocument, range: Range): (r: Result<Range>)
    ensures r.Ok? <==> range.start.line < |doc.lines| && range.end.line < |doc.lines|
    ensures r.Err? ==> r.error == OutOfRange
    ensures r.Ok? ==> doc.ValidRange(r.value)
  {
    if range.start.line >= |doc.lines| || range.end.line >= |doc.lines| then Err(OutOfRange)
    else
      var startLine := doc.lines[range.start.line];
      var endLine := doc.lines[range.end.line];
      // the end of the line less the length of its trailing whitespace
      var endCharacter := TrimEndLength(endLine);
      Ok(MkRange(Position(range.start.line, FirstNonWhitespace(startLine)), Position(range.end.line, endCharacter)))
  }

  /**
   * When the fitted range runs over several lines, or over one line holding
   * some text, it starts at a non-whitespace character preceded on its line by
   * whitespace only, and it ends after a non-whitespace character followed on
   * its line by whitespace only.
   */
  lemma FittedRangeTrimsWhitespace(doc: HostDocument, range: Range)
    requires range.Valid() && range.end.line < |doc.lines|
    requires range.start.line < range.end.line || !doc.IsBlankLine(range.start.line)
    ensures var r := FitRangeToLineContent(doc, range).value;
            var first := doc.lines[range.start.line];
            var last := doc.lines[range.end.line];
            r.start.line == range.start.line && r.end.line == range.end.line &&
            (forall i :: 0 <= i < r.start.character ==> IsWhitespace(first[i])) &&
            (r.start.character < |first| ==> !IsWhitespace(first[r.start.character])) &&
            (forall i :: r.end.character <= i < |last| ==> IsWhitespace(last[i])) &&
            (r.end.character > 0 ==> !IsWhitespace(last[r.end.character - 1]))
  {
    if range.start.line == range.end.line {
      var line := doc.lines[range.start.line];
      var k :| 0 <= k < |line| && !IsWhitespace(line[k]);
      assert FirstNonWhitespace(line) <= k < TrimEndLength(line);
    }
  }

  /** On a line holding only whitespace, the fitted range is the whole line. */
  lemma BlankLineFitsWholeLine(doc: HostDocument, range: Range)
    requires range.Valid() && range.IsSingleLine() && range.start.line < |doc.lines|
    requires doc.IsBlankLine(range.start.line)
    ensures FitRangeToLineContent(doc, range) == Ok(doc.LineRange(range.start.line))
  {
    BlankIffNoContent(doc.lines[range.start.line]);
  }

  /** The fields the line context gives a target. */
  datatype LineContext = LineContext(
    delimiter: string,
    removalRange: Range,
    leadingDelimiterRange: Option<Range>,
    trailingDelimiterRange: Option<Range>)

  /**
   * `getLineContext`: the removal range runs from column 0 of the start line to
   * the end of the end line; the leading delimiter is the line break before it
   * (none on the first line), the trailing one the line break after it (none
   * on the last line).
   */
  function GetLineContext(doc: HostDocument, range: Range): (r: Result<LineContext>)
    requires range.Valid()
    ensures r.Ok? <==> range.end.line < |doc.lines|
    ensures r.Err? ==> r.error == OutOfRange
    ensures r.Ok? ==> r.value.delimiter == "\n" &&
                      r.value.removalRange == Range(Position(range.start.line, 0), doc.LineEnd(range.end.line))
    ensures r.Ok? ==> (r.value.leadingDelimiterRange.Some? <==> range.start.line > 0)
    ensures r.Ok? ==> (r.value.trailingDelimiterRange.Some? <==> range.end.line + 1 < |doc.lines|)
    ensures r.Ok? && r.value.leadingDelimiterRange.Some? ==>
              r.value.leadingDelimiterRange.value == Range(doc.LineEnd(range.start.line - 1), r.value.removalRange.start)
    ensures r.Ok? && r.value.trailingDelimiterRange.Some? ==>
              r.value.trailingDelimiterRange.value == Range(r.value.removalRange.end, Position(range.end.line + 1, 0))
  {
    if range.end.line >= |doc.lines| then Err(OutOfRange)
    else
      var removalRange := Range(Position(range.start.line, 0), doc.LineEnd(range.end.line));
      var leading := if range.start.line > 0
                     then Some(Range(doc.LineEnd(range.start.line - 1), removalRange.start)) else None;
      var trailing := if range.end.line + 1 < |doc.lines|
                      then Some(Range(removalRange.end, Position(range.end.line + 1, 0))) else None;
      Ok(LineContext("\n", removalRange, leading, trailing))
  }

  /**
   * The removal range holds the range it was computed for, and each delimiter
   * range spans exactly one line feed of the document.
   */
  lemma LineContextDelimitersAreLineBreaks(doc: HostDocument, range: Range)
    requires doc.ValidRange(range)
    ensures var c := GetLineContext(doc, range).value;
            doc.ValidRange(c.removalRange) && c.removalRange.ContainsRange(range) &&
            (c.leadingDelimiterRange.Some? ==>
               doc.ValidRange(c.leadingDelimiterRange.value) && GetText(doc, c.leadingDelimiterRange.value) == "\n") &&
            (c.trailingDelimiterRange.Some? ==>
               doc.ValidRange(c.trailingDelimiterRange.value) && GetText(doc, c.trailingDelimiterRange.value) == "\n")
  {
    if range.start.line > 0 {
      LineBreakText(doc, range.start.line - 1);
    }
    if range.end.line + 1 < |doc.lines| {
      LineBreakText(doc, range.end.line);
    }
  }

  /** `run`: the target fitted to its lines' content, with the line context of that content. */
  function Run(doc: HostDocument, target: Target): (r: Result<Target>)
    ensures r.Ok? <==> target.contentRange.start.line < |doc.lines| && target.contentRange.end.line < |doc.lines|
    ensures r.Ok? ==> r.value.editor == target.editor && r.value.isReversed == target.isReversed
    ensures r.Ok? ==> r.value.contentRange == FitRangeToLineContent(doc, target.contentRange).value &&
                      r.value.delimiter == Some("\n")
    ensures r.Ok? ==> var c := GetLineContext(doc, r.value.contentRange).value;
                      r.value.removalRange == Some(c.removalRange) &&
                      r.value.leadingDelimiterRange == c.leadingDelimiterRange &&
                      r.value.trailingDelimiterRange == c.trailingDelimiterRange
  {
    var contentRange :- FitRangeToLineContent(doc, target.contentRange);
    var context := GetLineContext(doc, contentRange).value;
    Ok(PlainTarget(target.editor, target.isReversed, contentRange).(
      delimiter := Some(context.delimiter),
      removalRange := Some(context.removalRange),
      leadingDelimiterRange := context.leadingDelimiterRange,
      trailingDelimiterRange := context.trailingDelimiterRange))
  }

  /** A line target's removal range starts at column 0 of the first line of the input and ends at the end of its last line. */
  lemma RunCoversWholeLines(doc: HostDocument, target: Target)
    requires doc.ValidRange(target.contentRange)
    ensures var r := Run(doc, target);
            r.Ok? && r.value.removalRange.Some? &&
            r.value.removalRange.value == Range(Position(target.contentRange.start.line, 0),
                                                doc.LineEnd(target.contentRange.end.line)) &&
            r.value.removalRange.value.ContainsRange(r.value.contentRange)
  {
    var fitted := FitRangeToLineContent(doc, target.contentRange).value;
    assert fitted.start.line == target.contentRange.start.line || fitted.start.line == target.contentRange.end.line;
    LineContextDelimitersAreLineBreaks(doc, fitted);
  }
}
