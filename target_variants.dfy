/**
 * The target variants whose behaviour is fixed by their type: the line target,
 * the untyped target (a mark with no explicit scope type), the raw-selection
 * target, and the classification of a range as a token, line, paragraph or
 * document target that the "smart" removal behaviour makes.
 */
module TargetVariants {
  import opened Wrappers
  import opened Geometry

  /** What every target is built from: its editor, direction and content range. */
  datatype CommonParameters = CommonParameters(editor: EditorId, isReversed: bool, contentRange: Range)

  datatype TargetKind =
    | TokenTarget
    | LineTarget
    | ParagraphTarget
    | DocumentTarget
    | WeakTarget
    /** An untyped target remembers its type (default "token") and whether its range was explicit. */
    | UntypedTarget(typeName: string, hasExplicitRange: bool)
    | RawSelectionTarget

  datatype VariantTarget = VariantTarget(kind: TargetKind, state: CommonParameters)

  /** The `type` of a target. */
  function TypeName(t: VariantTarget): string {
    match t.kind
    case TokenTarget => "token"
    case LineTarget => "line"
    case ParagraphTarget => "paragraph"
    case DocumentTarget => "document"
    case WeakTarget => "token"
    case UntypedTarget(typeName, _) => typeName
    case RawSelectionTarget => "token"
  }

  // ---------------------------------------------------------------------------
  // Line target

  /** The line target's `delimiter`, which separates it from a neighbour when something is inserted. */
  const LineDelimiter: string := "\n"

  /**
   * `contentRemovalRange` of a line target: from column 0 of the content's
   * first line to the end of its last line.
   */
  function LineContentRemovalRange(doc: HostDocument, t: VariantTarget): (r: Range)
    requires t.kind.LineTarget? && doc.ValidRange(t.state.contentRange)
    ensures doc.ValidRange(r) && r.ContainsRange(t.state.contentRange)
    ensures r.start == Position(t.state.contentRange.start.line, 0)
    ensures r.end == doc.LineEnd(t.state.contentRange.end.line)
  {
    Range(Position(t.state.contentRange.start.line, 0), doc.LineEnd(t.state.contentRange.end.line))
  }

  /** A line target's removal is highlighted over its content range. */
  function LineRemovalHighlightRange(t: VariantTarget): (r: Range)
    requires t.kind.LineTarget?
    ensures r == t.state.contentRange
  {
    t.state.contentRange
  }

  /** A line target is built again from its state alone. */
  function LineCloneParameters(t: VariantTarget): (p: CommonParameters)
    requires t.kind.LineTarget?
    ensures VariantTarget(LineTarget, p) == t
  {
    t.state
  }

  /** `createContinuousLineRange`: the range from one line-like target to another. */
  type ContinuousLineRange = (VariantTarget, VariantTarget, bool, bool) -> Range

  /** `createContinuousRangeWeakTarget`: the weak target spanning two targets. */
  type ContinuousWeakTarget = (bool, VariantTarget, VariantTarget, bool, bool) -> VariantTarget

  /**
   * `createContinuousRangeTarget` of a line target: a line target in the
   * requested direction when the end target is a line or a paragraph, a weak
   * target otherwise.
   */
  function LineContinuousRangeTarget(t: VariantTarget, isReversed: bool, endTarget: VariantTarget,
                                     includeStart: bool, includeEnd: bool,
                                     lineRange: ContinuousLineRange, weak: ContinuousWeakTarget): (r: VariantTarget)
    requires t.kind.LineTarget?
    ensures endTarget.kind.LineTarget? || endTarget.kind.ParagraphTarget? ==>
              r.kind.LineTarget? && r.state.editor == t.state.editor && r.state.isReversed == isReversed &&
              r.state.contentRange == lineRange(t, endTarget, includeStart, includeEnd)
    ensures !(endTarget.kind.LineTarget? || endTarget.kind.ParagraphTarget?) ==>
              r == weak(isReversed, t, endTarget, includeStart, includeEnd)
  {
    if endTarget.kind.LineTarget? || endTarget.kind.ParagraphTarget? then
      VariantTarget(LineTarget, LineCloneParameters(t).(isReversed := isReversed,
                                                          contentRange := lineRange(t, endTarget, includeStart, includeEnd)))
    else weak(isReversed, t, endTarget, includeStart, includeEnd)
  }

  // ---------------------------------------------------------------------------
  // Untyped target

  /** The untyped target's constructor: the type defaults to "token". */
  function NewUntypedTarget(parameters: CommonParameters, hasExplicitRange: bool, typeName: Option<string>)
    : (t: VariantTarget)
    ensures t.state == parameters && t.kind.UntypedTarget? && t.kind.hasExplicitRange == hasExplicitRange
    ensures typeName.Some? ==> TypeName(t) == typeName.value
    ensures typeName.None? ==> TypeName(t) == "token"
  {
    VariantTarget(UntypedTarget(if typeName.Some? then typeName.value else "token", hasExplicitRange), parameters)
  }

  /** An untyped target is inserted with a space between it and its neighbour, and has no explicit scope type. */
  const UntypedInsertionDelimiter: string := " "

  const UntypedHasExplicitScopeType: bool := false

  /**
   * `getRemovalRange` of an untyped target: a target holding only whitespace
   * is removed alone, so that surrounding whitespace is kept; any other is
   * removed with its token delimiters, as `tokenRemovalRange` computes them.
   */
  function UntypedRemovalRange(doc: HostDocument, t: VariantTarget, tokenRemovalRange: VariantTarget -> Range)
    : (r: Range)
    requires t.kind.UntypedTarget? && t.state.contentRange.Valid()
    ensures IsBlank(GetValidatedText(doc, t.state.contentRange)) ==> r == t.state.contentRange
    ensures !IsBlank(GetValidatedText(doc, t.state.contentRange)) ==> r == tokenRemovalRange(t)
  {
    if IsBlank(GetValidatedText(doc, t.state.contentRange)) then t.state.contentRange else tokenRemovalRange(t)
  }

  /** An untyped target never builds a rich range target; continuous ranges of it are built generically. */
  function UntypedMaybeCreateRichRangeTarget(t: VariantTarget, endTarget: VariantTarget): (r: Option<VariantTarget>)
    requires t.kind.UntypedTarget?
    ensures r.None?
  {
    None
  }

  /** The parameters a clone of an untyped target is built from: its state, type and explicit-range flag. */
  function UntypedCloneParameters(t: VariantTarget): (p: (CommonParameters, string, bool))
    requires t.kind.UntypedTarget?
    ensures NewUntypedTarget(p.0, p.2, Some(p.1)) == t
  {
    (t.state, t.kind.typeName, t.kind.hasExplicitRange)
  }

  // ---------------------------------------------------------------------------
  // Raw-selection target

  /** The delimiter-free behaviour of a raw selection. */
  datatype RawBehaviour = RawBehaviour(
    insertionDelimiter: string, isRaw: bool, isToken: bool,
    leadingDelimiter: Option<VariantTarget>, trailingDelimiter: Option<VariantTarget>, removalRange: Range)

  function RawSelectionBehaviour(t: VariantTarget): (b: RawBehaviour)
    requires t.kind.RawSelectionTarget?
    ensures b.insertionDelimiter == "" && b.isRaw && !b.isToken
    ensures b.leadingDelimiter.None? && b.trailingDelimiter.None?
    ensures b.removalRange == t.state.contentRange
  {
    RawBehaviour("", true, false, None, None, t.state.contentRange)
  }

  function RawCloneParameters(t: VariantTarget): (p: CommonParameters)
    requires t.kind.RawSelectionTarget?
    ensures VariantTarget(RawSelectionTarget, p) == t
  {
    t.state
  }

  // ---------------------------------------------------------------------------
  // Smart removal

  /** The host's `rangeTrimmed` of a line: its text without surrounding whitespace; none for a blank line. */
  function RangeTrimmed(doc: HostDocument, line: nat): (r: Option<Range>)
    requires line < |doc.lines|
    ensures r.None? <==> doc.IsBlankLine(line)
    ensures r.Some? ==> doc.ValidRange(r.value) && r.value.IsSingleLine() && r.value.start.line == line
  {
    BlankIffNoContent(doc.lines[line]);
    if doc.IsBlankLine(line) then None
    else
      var text := doc.lines[line];
      var k :| 0 <= k < |text| && !IsWhitespace(text[k]);
      assert FirstNonWhitespace(text) <= k < TrimEndLength(text);
      Some(Range(Position(line, FirstNonWhitespace(text)), Position(line, TrimEndLength(text))))
  }

  /** The range spans whole lines, from the first to the last non-whitespace character of its lines. */
  predicate IsLine(doc: HostDocument, range: Range)
    requires doc.ValidRange(range)
  {
    var start := RangeTrimmed(doc, range.start.line);
    var end := RangeTrimmed(doc, range.end.line);
    start.Some? && end.Some? && start.value.start == range.start && end.value.end == range.end
  }

  /** The range's lines are bounded by a blank line or the edge of the document on both sides. */
  predicate IsParagraph(doc: HostDocument, range: Range)
    requires doc.ValidRange(range)
  {
    (range.start.line == 0 || doc.IsBlankLine(range.start.line - 1)) &&
    (range.end.line == |doc.lines| - 1 || doc.IsBlankLine(range.end.line + 1))
  }

  /** The index of the first line holding something other than whitespace, from line `i` on. */
  function FirstContentLine(doc: HostDocument, i: nat): (r: nat)
    requires i <= |doc.lines|
    ensures i <= r <= |doc.lines|
    ensures forall k :: i <= k < r ==> doc.IsBlankLine(k)
    ensures r < |doc.lines| ==> !doc.IsBlankLine(r)
    decreases |doc.lines| - i
  {
    if i == |doc.lines| then i
    else if doc.IsBlankLine(i) then FirstContentLine(doc, i + 1)
    else i
  }

  /** The index of the last line holding something other than whitespace, among lines before `n`; -1 for none. */
  function LastContentLine(doc: HostDocument, n: nat): (r: int)
    requires n <= |doc.lines|
    ensures -1 <= r < n
    ensures forall k :: r < k < n ==> doc.IsBlankLine(k)
    ensures r >= 0 ==> !doc.IsBlankLine(r)
  {
    if n == 0 then -1
    else if doc.IsBlankLine(n - 1) then LastContentLine(doc, n - 1)
    else n - 1
  }

  /**
   * The document's range shrunk to its content (`shrinkRangeToFitContent` of
   * the whole document): from the first non-whitespace character to the end
   * of the last; none when the document holds only whitespace.
   */
  function DocumentContentRange(doc: HostDocument): (r: Option<Range>)
    ensures r.Some? <==> exists k :: 0 <= k < |doc.lines| && !doc.IsBlankLine(k)
    ensures r.Some? ==> doc.ValidRange(r.value) && IsLine(doc, r.value)
    ensures r.Some? ==> forall k :: 0 <= k < |doc.lines| && (k < r.value.start.line || r.value.end.line < k) ==>
                                     doc.IsBlankLine(k)
  {
    var first := FirstContentLine(doc, 0);
    var last := LastContentLine(doc, |doc.lines|);
    if first == |doc.lines| || last < 0 then
      assert forall k :: 0 <= k < |doc.lines| ==> doc.IsBlankLine(k);
      None
    else
      assert first <= last;
      var range := Range(RangeTrimmed(doc, first).value.start, RangeTrimmed(doc, last).value.end);
      assert range.start.line == first && range.end.line == last;
      Some(range)
  }

  predicate IsDocument(doc: HostDocument, range: Range) {
    DocumentContentRange(doc) == Some(range)
  }

  /** The host's `union` with an optional second range. */
  function UnionWithPrefix(contentRange: Range, prefixRange: Option<Range>): (r: Range)
    requires contentRange.Valid() && (prefixRange.Some? ==> prefixRange.value.Valid())
    ensures r.Valid() && r.ContainsRange(contentRange)
    ensures prefixRange.Some? ==> r == Union(contentRange, prefixRange.value)
    ensures prefixRange.None? ==> r == contentRange
  {
    if prefixRange.Some? then Union(contentRange, prefixRange.value) else contentRange
  }

  /**
   * `getSmartRemovalTarget`: the content range (with any prefix) becomes a
   * token target unless it spans trimmed whole lines; such lines become the
   * document target when they are the document's whole content, a paragraph
   * target when blank lines or the document's edges bound them, and a line
   * target otherwise.
   */
  function SmartRemovalTarget(doc: HostDocument, editor: EditorId, isReversed: bool,
                              contentRange: Range, prefixRange: Option<Range>): (r: VariantTarget)
    requires doc.ValidRange(contentRange) && (prefixRange.Some? ==> doc.ValidRange(prefixRange.value))
    ensures r.state.editor == editor && r.state.isReversed == isReversed
    ensures var range := UnionWithPrefix(contentRange, prefixRange);
            doc.ValidRange(range) &&
            (!IsLine(doc, range) ==> r.kind == TokenTarget && r.state.contentRange == range) &&
            (IsLine(doc, range) && IsDocument(doc, range) ==>
               r.kind == DocumentTarget && r.state.contentRange == doc.FullRange()) &&
            (IsLine(doc, range) && !IsDocument(doc, range) && IsParagraph(doc, range) ==>
               r.kind == ParagraphTarget && r.state.contentRange == range) &&
            (IsLine(doc, range) && !IsDocument(doc, range) && !IsParagraph(doc, range) ==>
               r.kind == LineTarget && r.state.contentRange == range)
  {
    var range := UnionWithPrefix(contentRange, prefixRange);
    if !IsLine(doc, range) then VariantTarget(TokenTarget, CommonParameters(editor, isReversed, range))
    else if IsDocument(doc, range) then VariantTarget(DocumentTarget, CommonParameters(editor, isReversed, doc.FullRange()))
    else if IsParagraph(doc, range) then VariantTarget(ParagraphTarget, CommonParameters(editor, isReversed, range))
    else VariantTarget(LineTarget, CommonParameters(editor, isReversed, range))
  }

  /**
   * The document's content is itself trimmed whole lines bounded by the edges
   * of the document or blank lines, so the classification could call it a
   * paragraph; it becomes a document target because that test comes first.
   */
  lemma DocumentContentIsParagraphShaped(doc: HostDocument)
    requires DocumentContentRange(doc).Some?
    ensures var range := DocumentContentRange(doc).value;
            IsLine(doc, range) && IsParagraph(doc, range)
  {
    var first := FirstContentLine(doc, 0);
    var last := LastContentLine(doc, |doc.lines|);
    var range := DocumentContentRange(doc).value;
    assert range.start.line == first && range.end.line == last;
    if first > 0 {
      assert doc.IsBlankLine(first - 1);
    }
    if last < |doc.lines| - 1 {
      assert doc.IsBlankLine(last + 1);
    }
  }

  /** A range whose content can be classified by smart removal is never left untyped or raw. */
  lemma SmartRemovalKinds(doc: HostDocument, editor: EditorId, isReversed: bool,
                          contentRange: Range, prefixRange: Option<Range>)
    requires doc.ValidRange(contentRange) && (prefixRange.Some? ==> doc.ValidRange(prefixRange.value))
    ensures var r := SmartRemovalTarget(doc, editor, isReversed, contentRange, prefixRange);
            r.kind in {TokenTarget, LineTarget, ParagraphTarget, DocumentTarget}
  {
  }
}
