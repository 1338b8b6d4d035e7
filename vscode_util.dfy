/**
 * Conversions between Cursorless's own position, range, selection, text-line and
 * end-of-line values and the editor host's. Ranges and positions convert
 * losslessly; selections are rebuilt from their start and end, so a reversed
 * selection comes back forward.
 */
module VscodeUtil {
  import opened Geometry
  import opened SelectionUtils

  datatype HostPosition = HostPosition(line: nat, character: nat)

  /** The host's range: always ordered, its constructor swaps endpoints given out of order. */
  datatype HostRange = HostRange(start: HostPosition, end: HostPosition)

  datatype HostSelection = HostSelection(anchor: HostPosition, active: HostPosition)

  datatype HostEndOfLine = HostLF | HostCRLF

  /** A line of a document: its number, its text and its ranges without and with the line break. */
  datatype TextLine = TextLine(lineNumber: nat, text: string, range: Range, rangeIncludingLineBreak: Range,
                               firstNonWhitespaceCharacterIndex: nat, isEmptyOrWhitespace: bool)

  datatype HostTextLine = HostTextLine(lineNumber: nat, text: string, range: HostRange,
                                       rangeIncludingLineBreak: HostRange,
                                       firstNonWhitespaceCharacterIndex: nat, isEmptyOrWhitespace: bool)

  function ToVscodePosition(p: Position): (h: HostPosition)
    ensures FromVscodePosition(h) == p
  {
    HostPosition(p.line, p.character)
  }

  function FromVscodePosition(h: HostPosition): (p: Position)
    ensures p.line == h.line && p.character == h.character
  {
    Position(h.line, h.character)
  }

  /** The host's `new Range(l1, c1, l2, c2)`. */
  function NewHostRange(a: HostPosition, b: HostPosition): HostRange {
    if IsBeforeOrEqual(FromVscodePosition(a), FromVscodePosition(b)) then HostRange(a, b) else HostRange(b, a)
  }

  function ToVscodeRange(r: Range): (h: HostRange)
    requires r.Valid()
    ensures FromVscodeRange(h) == r
  {
    NewHostRange(ToVscodePosition(r.start), ToVscodePosition(r.end))
  }

  function FromVscodeRange(h: HostRange): (r: Range)
    ensures r.Valid()
    ensures {r.start, r.end} == {FromVscodePosition(h.start), FromVscodePosition(h.end)}
  {
    MkRange(FromVscodePosition(h.start), FromVscodePosition(h.end))
  }

  /** A host range, which is always ordered, survives the trip to Cursorless and back. */
  lemma HostRangeRoundTrip(h: HostRange)
    requires IsBeforeOrEqual(FromVscodePosition(h.start), FromVscodePosition(h.end))
    ensures ToVscodeRange(FromVscodeRange(h)) == h
  {
  }

  /** The converted selection runs from the original's start to its end, so it is always forward. */
  function ToVscodeSelection(s: Selection): (h: HostSelection)
    ensures FromVscodePosition(h.anchor) == s.Start() && FromVscodePosition(h.active) == s.End()
    ensures IsForward(Selection(FromVscodePosition(h.anchor), FromVscodePosition(h.active)))
  {
    HostSelection(ToVscodePosition(s.Start()), ToVscodePosition(s.End()))
  }

  /** The host selection's start and end (its two ends in document order) become the anchor and the active end. */
  function FromVscodeSelection(h: HostSelection): (s: Selection)
    ensures IsForward(s)
    ensures {s.anchor, s.active} == {FromVscodePosition(h.anchor), FromVscodePosition(h.active)}
  {
    var a := FromVscodePosition(h.anchor);
    var b := FromVscodePosition(h.active);
    Selection(Min(a, b), Max(a, b))
  }

  /** A selection survives the trip to the host and back exactly when it is not reversed. */
  lemma SelectionRoundTrip(s: Selection)
    ensures FromVscodeSelection(ToVscodeSelection(s)) == s <==> !IsReversed(s)
  {
    var back := FromVscodeSelection(ToVscodeSelection(s));
    assert back == Selection(s.Start(), s.End());
  }

  function ToVscodeTextLine(line: TextLine): (h: HostTextLine)
    requires line.range.Valid() && line.rangeIncludingLineBreak.Valid()
    ensures FromVscodeTextLine(h) == line
  {
    HostTextLine(line.lineNumber, line.text, ToVscodeRange(line.range),
                 ToVscodeRange(line.rangeIncludingLineBreak),
                 line.firstNonWhitespaceCharacterIndex, line.isEmptyOrWhitespace)
  }

  function FromVscodeTextLine(h: HostTextLine): (line: TextLine)
    ensures line.range == FromVscodeRange(h.range)
    ensures line.rangeIncludingLineBreak == FromVscodeRange(h.rangeIncludingLineBreak)
    ensures line.lineNumber == h.lineNumber && line.text == h.text
    ensures line.firstNonWhitespaceCharacterIndex == h.firstNonWhitespaceCharacterIndex
    ensures line.isEmptyOrWhitespace == h.isEmptyOrWhitespace
  {
    TextLine(h.lineNumber, h.text, FromVscodeRange(h.range), FromVscodeRange(h.rangeIncludingLineBreak),
             h.firstNonWhitespaceCharacterIndex, h.isEmptyOrWhitespace)
  }

  /** Cursorless names line endings "LF" and "CRLF"; anything but "LF" becomes the host's CRLF. */
  function ToVscodeEndOfLine(eol: string): (h: HostEndOfLine)
    ensures h == HostLF <==> eol == "LF"
  {
    if eol == "LF" then HostLF else HostCRLF
  }

  function FromVscodeEndOfLine(h: HostEndOfLine): (eol: string)
    ensures eol == "LF" || eol == "CRLF"
    ensures ToVscodeEndOfLine(eol) == h
  {
    if h == HostLF then "LF" else "CRLF"
  }

  /** Converting there and back is the identity on the two line-ending names. */
  lemma EndOfLineRoundTrip(eol: string)
    ensures FromVscodeEndOfLine(ToVscodeEndOfLine(eol)) == eol <==> (eol == "LF" || eol == "CRLF")
  {
  }
}
