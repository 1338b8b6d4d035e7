/**
 * Positions, ranges and selections of an editor, and a document as a sequence of
 * lines. These follow the editor host's value semantics: a position is ordered by
 * line and then character, a range always has start <= end (its constructor swaps
 * endpoints given in the wrong order), and a selection keeps its anchor and active
 * ends so that it has a direction.
 */
module Geometry {
  import opened Wrappers

  type EditorId = nat

  datatype Position = Position(line: nat, character: nat)

  predicate IsBefore(a: Position, b: Position) {
    a.line < b.line || (a.line == b.line && a.character < b.character)
  }

  predicate IsBeforeOrEqual(a: Position, b: Position) {
    IsBefore(a, b) || a == b
  }

  function Min(a: Position, b: Position): (r: Position)
    ensures r == a || r == b
    ensures IsBeforeOrEqual(r, a) && IsBeforeOrEqual(r, b)
  {
    if IsBeforeOrEqual(a, b) then a else b
  }

  function Max(a: Position, b: Position): (r: Position)
    ensures r == a || r == b
    ensures IsBeforeOrEqual(a, r) && IsBeforeOrEqual(b, r)
  {
    if IsBeforeOrEqual(a, b) then b else a
  }

  lemma OrderTransitive(a: Position, b: Position, c: Position)
    requires IsBeforeOrEqual(a, b) && IsBeforeOrEqual(b, c)
    ensures IsBeforeOrEqual(a, c)
    ensures IsBefore(a, b) || IsBefore(b, c) ==> IsBefore(a, c)
  {
  }

  datatype Range = Range(start: Position, end: Position) {
    predicate Valid() { IsBeforeOrEqual(start, end) }
    predicate IsEmpty() { start == end }
    predicate IsSingleLine() { start.line == end.line }
    predicate ContainsPosition(p: Position) {
      IsBeforeOrEqual(start, p) && IsBeforeOrEqual(p, end)
    }
    predicate ContainsRange(r: Range) {
      IsBeforeOrEqual(start, r.start) && IsBeforeOrEqual(r.end, end)
    }
  }

  /** A range whose start is not after its end, as every host range is. */
  type ValidRange = r: Range | r.Valid() witness Range(Position(0, 0), Position(0, 0))

  /** The host's range constructor: endpoints given out of order are swapped. */
  function MkRange(a: Position, b: Position): (r: Range)
    ensures r.Valid()
    ensures (r.start == a && r.end == b) || (r.start == b && r.end == a)
  {
    if IsBeforeOrEqual(a, b) then Range(a, b) else Range(b, a)
  }

  /** The smallest range containing both ranges (the host's `Range.union`). */
  function Union(a: Range, b: Range): (r: Range)
    requires a.Valid() && b.Valid()
    ensures r.Valid() && r.ContainsRange(a) && r.ContainsRange(b)
    ensures r.start == a.start || r.start == b.start
    ensures r.end == a.end || r.end == b.end
  {
    Range(Min(a.start, b.start), Max(a.end, b.end))
  }

  /** The host's `Range.intersection`: `None` when the ranges are disjoint. */
  function Intersection(a: Range, b: Range): (r: Option<Range>)
    ensures r.Some? ==> r.value.Valid() && a.ContainsRange(r.value) && b.ContainsRange(r.value)
  {
    var s := Max(a.start, b.start);
    var e := Min(a.end, b.end);
    if IsBeforeOrEqual(s, e) then Some(Range(s, e)) else None
  }

  /** A selection has an anchor and an active end; as a range it runs from the earlier to the later. */
  datatype Selection = Selection(anchor: Position, active: Position) {
    function Start(): Position { Min(anchor, active) }
    function End(): Position { Max(anchor, active) }
    function AsRange(): (r: Range)
      ensures r.Valid()
    {
      Range(Start(), End())
    }
  }

  datatype SelectionWithEditor = SelectionWithEditor(editor: EditorId, selection: Selection)

  // ---------------------------------------------------------------------------
  // Whitespace, as the JavaScript `\s` class restricted to ASCII.

  predicate IsWhitespace(c: char) {
    c == ' ' || c == '\t' || c == '\n' || c == '\r' || c == '\U{0B}' || c == '\U{0C}'
  }

  predicate IsBlank(text: string) {
    forall i :: 0 <= i < |text| ==> IsWhitespace(text[i])
  }

  /** Index of the first non-whitespace character, or the length when there is none. */
  function FirstNonWhitespace(text: string): (r: nat)
    ensures r <= |text|
    ensures forall i :: 0 <= i < r ==> IsWhitespace(text[i])
    ensures r < |text| ==> !IsWhitespace(text[r])
  {
    if text == [] then 0
    else if IsWhitespace(text[0]) then 1 + FirstNonWhitespace(text[1..])
    else 0
  }

  /** Length of `text` once trailing whitespace is removed (JavaScript `trimEnd`). */
  function TrimEndLength(text: string): (r: nat)
    ensures r <= |text|
    ensures forall i :: r <= i < |text| ==> IsWhitespace(text[i])
    ensures r > 0 ==> !IsWhitespace(text[r - 1])
  {
    if text == [] then 0
    else if IsWhitespace(text[|text| - 1]) then TrimEndLength(text[..|text| - 1])
    else |text|
  }

  lemma BlankIffNoContent(text: string)
    ensures IsBlank(text) <==> FirstNonWhitespace(text) == |text|
    ensures IsBlank(text) <==> TrimEndLength(text) == 0
  {
  }

  // ---------------------------------------------------------------------------
  // Documents: one string per line, lines separated by a single line feed.

  datatype Document = Document(lines: seq<string>) {
    predicate Valid() { |lines| > 0 }
    function LineCount(): nat { |lines| }
    predicate ValidPosition(p: Position) {
      p.line < |lines| && p.character <= |lines[p.line]|
    }
    predicate ValidRange(r: Range) {
      r.Valid() && ValidPosition(r.start) && ValidPosition(r.end)
    }
    /** End of line `i`, excluding its line break (the host's `lineAt(i).range.end`). */
    function LineEnd(i: nat): (p: Position)
      requires i < |lines|
      ensures ValidPosition(p) && p.line == i
    {
      Position(i, |lines[i]|)
    }
    /** The host's `lineAt(i).range`. */
    function LineRange(i: nat): (r: Range)
      requires i < |lines|
      ensures ValidRange(r) && r.IsSingleLine()
    {
      Range(Position(i, 0), LineEnd(i))
    }
    /** The whole document, first character to last (the host's `document.range`). */
    function FullRange(): (r: Range)
      requires Valid()
      ensures ValidRange(r) && r.start == Position(0, 0)
    {
      Range(Position(0, 0), LineEnd(|lines| - 1))
    }
    predicate IsBlankLine(i: nat)
      requires i < |lines|
    {
      IsBlank(lines[i])
    }
  }

  /** The document text: its lines joined with line feeds. */
  function Text(lines: seq<string>): string {
    if |lines| <= 1 then (if lines == [] then "" else lines[0])
    else Text(lines[..|lines| - 1]) + "\n" + lines[|lines| - 1]
  }

  /** Number of characters before line `n` (each earlier line plus its line feed). */
  function LineStartOffset(lines: seq<string>, n: nat): nat
    requires n <= |lines|
  {
    if n == 0 then 0 else LineStartOffset(lines, n - 1) + |lines[n - 1]| + 1
  }

  lemma {:induction false} TextLength(lines: seq<string>)
    requires |lines| > 0
    ensures |Text(lines)| == LineStartOffset(lines, |lines| - 1) + |lines[|lines| - 1]|
  {
    if |lines| > 1 {
      var init := lines[..|lines| - 1];
      TextLength(init);
      PrefixOffsets(lines, init, |init| - 1);
    }
  }

  lemma {:induction false} PrefixOffsets(lines: seq<string>, init: seq<string>, n: nat)
    requires init <= lines && n <= |init|
    ensures LineStartOffset(lines, n) == LineStartOffset(init, n)
  {
    if n > 0 {
      PrefixOffsets(lines, init, n - 1);
    }
  }

  /** The host's `document.offsetAt(p)`. */
  function OffsetAt(doc: Document, p: Position): nat
    requires doc.ValidPosition(p)
  {
    LineStartOffset(doc.lines, p.line) + p.character
  }

  /** Line `i` sits in the text at its start offset. */
  lemma {:induction false} LineInText(lines: seq<string>, i: nat)
    requires i < |lines|
    ensures LineStartOffset(lines, i) + |lines[i]| <= |Text(lines)|
    ensures Text(lines)[LineStartOffset(lines, i)..LineStartOffset(lines, i) + |lines[i]|] == lines[i]
  {
    if |lines| > 1 {
      var init := lines[..|lines| - 1];
      TextLength(init);
      if i < |lines| - 1 {
        LineInText(init, i);
        PrefixOffsets(lines, init, i);
        assert Text(lines) == Text(init) + "\n" + lines[|lines| - 1];
      } else {
        PrefixOffsets(lines, init, |init| - 1);
      }
    }
  }

  /** Every valid position has an offset within the text. */
  lemma OffsetWithinText(doc: Document, p: Position)
    requires doc.ValidPosition(p)
    ensures OffsetAt(doc, p) <= |Text(doc.lines)|
  {
    LineInText(doc.lines, p.line);
  }

  /** Offsets respect the position order. */
  lemma {:induction false} OffsetMonotone(doc: Document, p: Position, q: Position)
    requires doc.ValidPosition(p) && doc.ValidPosition(q) && IsBeforeOrEqual(p, q)
    ensures OffsetAt(doc, p) <= OffsetAt(doc, q)
  {
    if p.line < q.line {
      StartOffsetsGrow(doc.lines, p.line + 1, q.line);
    }
  }

  lemma {:induction false} StartOffsetsGrow(lines: seq<string>, m: nat, n: nat)
    requires m <= n <= |lines|
    ensures LineStartOffset(lines, m) <= LineStartOffset(lines, n)
  {
    if m < n {
      StartOffsetsGrow(lines, m, n - 1);
    }
  }

  /** The host's `document.getText(range)`. */
  function GetText(doc: Document, r: Range): (t: string)
    requires doc.ValidRange(r)
    ensures |t| == OffsetAt(doc, r.end) - OffsetAt(doc, r.start)
  {
    OffsetWithinText(doc, r.end);
    OffsetMonotone(doc, r.start, r.end);
    Text(doc.lines)[OffsetAt(doc, r.start)..OffsetAt(doc, r.end)]
  }

  /** On a single line, the text of a range is the slice of that line. */
  lemma SingleLineText(doc: Document, r: Range)
    requires doc.ValidRange(r) && r.IsSingleLine()
    ensures GetText(doc, r) == doc.lines[r.start.line][r.start.character..r.end.character]
  {
    var l := r.start.line;
    var base := LineStartOffset(doc.lines, l);
    LineInText(doc.lines, l);
    var t := Text(doc.lines);
    assert t[base..base + |doc.lines[l]|] == doc.lines[l];
    assert t[base + r.start.character..base + r.end.character]
        == t[base..base + |doc.lines[l]|][r.start.character..r.end.character];
  }

  // ---------------------------------------------------------------------------
  // Documents as the host hands them out

  /** A host document always has at least one line. */
  type HostDocument = d: Document | d.Valid() witness Document([""])

  /**
   * The host's `validatePosition`: a line past the end goes to the end of the
   * document, and a character past the end of its line to the end of that line.
   */
  function ValidatePosition(doc: HostDocument, p: Position): (q: Position)
    ensures doc.ValidPosition(q)
    ensures doc.ValidPosition(p) ==> q == p
  {
    if p.line >= |doc.lines| then doc.LineEnd(|doc.lines| - 1)
    else if p.character > |doc.lines[p.line]| then doc.LineEnd(p.line)
    else p
  }

  lemma ValidateMonotone(doc: HostDocument, p: Position, q: Position)
    requires IsBeforeOrEqual(p, q)
    ensures IsBeforeOrEqual(ValidatePosition(doc, p), ValidatePosition(doc, q))
  {
  }

  /** The host's `getText(range)`, which first validates both ends of the range. */
  function GetValidatedText(doc: HostDocument, r: Range): (t: string)
    requires r.Valid()
    ensures doc.ValidRange(r) ==> t == GetText(doc, r)
  {
    ValidateMonotone(doc, r.start, r.end);
    GetText(doc, Range(ValidatePosition(doc, r.start), ValidatePosition(doc, r.end)))
  }

  /** The character before the start of every line but the first is a line feed. */
  lemma {:induction false} LineBreakInText(lines: seq<string>, i: nat)
    requires 0 < i < |lines|
    ensures 0 < LineStartOffset(lines, i) <= |Text(lines)|
    ensures Text(lines)[LineStartOffset(lines, i) - 1] == '\n'
  {
    var init := lines[..|lines| - 1];
    TextLength(init);
    PrefixOffsets(lines, init, |init| - 1);
    assert Text(lines) == Text(init) + "\n" + lines[|lines| - 1];
    if i < |lines| - 1 {
      LineBreakInText(init, i);
      PrefixOffsets(lines, init, i);
      LineInText(init, i);
    }
  }

  /** The text from the end of one line to the start of the next is a single line feed. */
  lemma LineBreakText(doc: Document, i: nat)
    requires i + 1 < |doc.lines|
    ensures doc.ValidRange(Range(doc.LineEnd(i), Position(i + 1, 0)))
    ensures GetText(doc, Range(doc.LineEnd(i), Position(i + 1, 0))) == "\n"
  {
    LineBreakInText(doc.lines, i + 1);
  }
}
