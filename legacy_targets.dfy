/**
 * The first-generation target pipeline: a target descriptor is turned into typed
 * selections by resolving its mark, applying its modifier (identity, containing
 * scope or subpiece), expanding the selection to its selection type (token, line,
 * paragraph or document) with the delimiter context of that type, and adjusting it
 * to its position (contents, before or after). Range targets join a start and an
 * end target pairwise; list targets concatenate their elements.
 *
 * The syntax-tree search behind the containing-scope modifier, the subword matcher
 * and the inside/outside adjustment are parameters (`Helpers`).
 */
module LegacyTargets {
  import opened Wrappers
  import opened Geometry
  import Descriptors
  import opened SelectionUtils
  import NavigationMap

  // ---------------------------------------------------------------------------
  // Descriptors and typed selections

  datatype SelectionType = TokenType | LineType | DocumentType | ParagraphType | CharacterType

  datatype TargetPosition = Contents | BeforeTarget | AfterTarget

  datatype InsideOutsideType = Inside | Outside

  datatype PieceType = WordPiece | CharacterPiece

  datatype LegacyModifier =
    | Identity
    | ContainingScopeModifier(scopeType: string, includeSiblings: bool)
    /** Pieces `startIndex` up to, not including, `endIndex`; negative indices count from the end. */
    | Subpiece(pieceType: PieceType, startIndex: int, endIndex: Option<int>)
    | MatchingPairSymbol
    | SurroundingPair

  datatype LegacyMark = Cursor | DecoratedMark(symbolColor: Descriptors.HatStyleName, character: string) | That | LastCursorPosition

  datatype PrimitiveTarget = PrimitiveTarget(
    mark: LegacyMark, modifier: LegacyModifier, selectionType: SelectionType,
    position: TargetPosition, insideOutsideType: Option<InsideOutsideType>)

  datatype LegacyTarget =
    | Primitive(primitive: PrimitiveTarget)
    | RangeOf(start: PrimitiveTarget, end: PrimitiveTarget)
    | ListOf(elements: seq<LegacyTarget>)

  /** What is known around a selection: whether it sits in a delimited list, and its delimiters. */
  datatype SelectionContext = SelectionContext(
    isInDelimitedList: Option<bool>,
    containingListDelimiter: Option<string>,
    leadingDelimiterRange: Option<Range>,
    trailingDelimiterRange: Option<Range>,
    outerSelection: Option<Selection>)

  const EmptyContext := SelectionContext(None, None, None, None, None)

  datatype TypedSelection = TypedSelection(
    selection: SelectionWithEditor,
    selectionType: SelectionType,
    position: TargetPosition,
    insideOutsideType: Option<InsideOutsideType>,
    selectionContext: SelectionContext)

  /** The editor state targets are resolved against. */
  datatype ProcessedTargetsContext = ProcessedTargetsContext(
    currentSelections: seq<SelectionWithEditor>,
    thatMark: seq<SelectionWithEditor>,
    hatTokens: map<string, NavigationMap.Token>,
    documentOf: EditorId -> HostDocument)

  /** The collaborators the pipeline calls but that are not part of this model. */
  datatype Helpers = Helpers(
    /** The containing-scope search of the syntax tree: matched selections with their contexts. */
    containingScope: (SelectionWithEditor, string, bool) -> Result<seq<(SelectionWithEditor, SelectionContext)>>,
    /** The subword matcher: the (index, length) of each match in a token, in order. */
    wordMatches: string -> seq<(nat, nat)>,
    /** The inside/outside adjustment applied to every final selection. */
    insideOutside: TypedSelection -> TypedSelection)

  // ---------------------------------------------------------------------------
  // Marks

  /**
   * The selections a mark stands for: the cursors, the that mark, or the one token
   * under a hat; a hat with no token and the last cursor position are failures.
   */
  function GetSelectionsFromMark(context: ProcessedTargetsContext, mark: LegacyMark): (r: Result<seq<SelectionWithEditor>>)
    ensures mark == Cursor ==> r == Ok(context.currentSelections)
    ensures mark == That ==> r == Ok(context.thatMark)
    ensures mark == LastCursorPosition ==> r == Err(NotImplemented)
    ensures mark.DecoratedMark? ==>
              var key := NavigationMap.GetKey(mark.symbolColor, mark.character);
              (r.Err? <==> key !in context.hatTokens) &&
              (r.Err? ==> r.error == MarkNotFound(Descriptors.StyleName(mark.symbolColor), mark.character)) &&
              (r.Ok? ==> |r.value| == 1 &&
                         r.value[0].editor == context.hatTokens[key].editor &&
                         r.value[0].selection.anchor == context.hatTokens[key].range.start &&
                         r.value[0].selection.active == context.hatTokens[key].range.end)
  {
    match mark
    case Cursor => Ok(context.currentSelections)
    case DecoratedMark(color, character) =>
      var key := NavigationMap.GetKey(color, character);
      if key !in context.hatTokens then Err(MarkNotFound(Descriptors.StyleName(color), character))
      else
        var token := context.hatTokens[key];
        Ok([SelectionWithEditor(token.editor, Selection(token.range.start, token.range.end))])
    case That => Ok(context.thatMark)
    case LastCursorPosition => Err(NotImplemented)
  }

  // ---------------------------------------------------------------------------
  // Subpieces

  /** A piece of a token, as character offsets into the token. */
  datatype Piece = Piece(start: nat, end: nat)

  /** The pieces of the subword matches: each match's index and the index past its end. */
  function WordPieces(matches: seq<(nat, nat)>): (pieces: seq<Piece>)
    ensures |pieces| == |matches|
    ensures forall i :: 0 <= i < |pieces| ==>
              pieces[i].start == matches[i].0 && pieces[i].end - pieces[i].start == matches[i].1
  {
    seq(|matches|, i requires 0 <= i < |matches| => Piece(matches[i].0, matches[i].0 + matches[i].1))
  }

  /** The loop that collects the subword pieces one match at a time. */
  method CollectWordPieces(matches: seq<(nat, nat)>) returns (pieces: seq<Piece>)
    ensures pieces == WordPieces(matches)
  {
    pieces := [];
    for i := 0 to |matches|
      invariant pieces == WordPieces(matches[..i])
    {
      assert matches[..i + 1] == matches[..i] + [matches[i]];
      pieces := pieces + [Piece(matches[i].0, matches[i].0 + matches[i].1)];
    }
    assert matches[..|matches|] == matches;
  }

  /** One piece per character of a token of length `n`. */
  function CharacterPieces(n: nat): (pieces: seq<Piece>)
    ensures |pieces| == n
    ensures forall i :: 0 <= i < n ==> pieces[i] == Piece(i, i + 1)
  {
    seq(n, i requires 0 <= i < n => Piece(i, i + 1))
  }

  /** The end index: all pieces when absent, counted from the end when zero or negative. */
  function NormalizeEndIndex(endIndex: Option<int>, count: nat): (e: int)
    ensures endIndex.None? ==> e == count
    ensures endIndex.Some? && endIndex.value <= 0 ==> e == count + endIndex.value
    ensures endIndex.Some? && endIndex.value > 0 ==> e == endIndex.value
  {
    match endIndex
    case None => count
    case Some(i) => if i <= 0 then i + count else i
  }

  /** The start index, counted from the end when negative. */
  function NormalizeStartIndex(startIndex: int, count: nat): (s: int)
    ensures startIndex < 0 ==> s == count + startIndex
    ensures startIndex >= 0 ==> s == startIndex
  {
    if startIndex < 0 then startIndex + count else startIndex
  }

  /**
   * The selection of pieces `startIndex` to `endIndex` (exclusive) of the token that
   * `selection` covers, moved along the start line by the pieces' offsets and in the
   * direction of `selection`. An index that names no piece is a failure.
   */
  function SubpieceSelection(selection: SelectionWithEditor, pieces: seq<Piece>,
                             startIndex: int, endIndex: Option<int>): (r: Result<SelectionWithEditor>)
    ensures var e := NormalizeEndIndex(endIndex, |pieces|);
            var s := NormalizeStartIndex(startIndex, |pieces|);
            (r.Ok? <==> 0 <= s < |pieces| && 0 < e <= |pieces|) &&
            (r.Err? ==> r.error == OutOfRange) &&
            (r.Ok? ==>
               var origin := selection.selection.Start();
               var start := Position(origin.line, origin.character + pieces[s].start);
               var end := Position(origin.line, origin.character + pieces[e - 1].end);
               r.value.editor == selection.editor &&
               (IsReversed(selection.selection) ==> r.value.selection == Selection(end, start)) &&
               (!IsReversed(selection.selection) ==> r.value.selection == Selection(start, end)))
  {
    var e := NormalizeEndIndex(endIndex, |pieces|);
    var s := NormalizeStartIndex(startIndex, |pieces|);
    if !(0 <= s < |pieces|) || !(0 < e <= |pieces|) then Err(OutOfRange)
    else
      var origin := selection.selection.Start();
      var start := Position(origin.line, origin.character + pieces[s].start);
      var end := Position(origin.line, origin.character + pieces[e - 1].end);
      Ok(SelectionWithEditor(selection.editor,
                             if IsReversed(selection.selection) then Selection(end, start) else Selection(start, end)))
  }

  /** The text a selection covers, as the host reads it. */
  function SelectionText(doc: HostDocument, s: Selection): string {
    GetValidatedText(doc, s.AsRange())
  }

  /** The pieces of the token a selection covers: its subword matches, or its characters. */
  function TokenPieces(context: ProcessedTargetsContext, helpers: Helpers, selection: SelectionWithEditor,
                       pieceType: PieceType): (pieces: seq<Piece>)
    ensures var token := SelectionText(context.documentOf(selection.editor), selection.selection);
            pieceType == CharacterPiece ==> |pieces| == |token| && pieces == CharacterPieces(|token|)
  {
    var token := SelectionText(context.documentOf(selection.editor), selection.selection);
    if pieceType == WordPiece then WordPieces(helpers.wordMatches(token)) else CharacterPieces(|token|)
  }

  /**
   * The selections a modifier makes of one mark selection, each with its context:
   * the selection itself, the containing scopes, or one subpiece.
   */
  function TransformSelection(context: ProcessedTargetsContext, helpers: Helpers, target: PrimitiveTarget,
                              selection: SelectionWithEditor): (r: Result<seq<(SelectionWithEditor, SelectionContext)>>)
    ensures target.modifier == Identity ==> r == Ok([(selection, EmptyContext)])
    ensures target.modifier.ContainingScopeModifier? ==>
              r == helpers.containingScope(selection, target.modifier.scopeType, target.modifier.includeSiblings)
    ensures target.modifier.Subpiece? && r.Ok? ==>
              |r.value| == 1 && r.value[0].1 == EmptyContext && r.value[0].0.editor == selection.editor
    ensures target.modifier.Subpiece? ==>
              var m := target.modifier;
              var s := SubpieceSelection(selection, TokenPieces(context, helpers, selection, m.pieceType),
                                         m.startIndex, m.endIndex);
              (r.Ok? <==> s.Ok?) && (r.Err? ==> r.error == OutOfRange) && (r.Ok? ==> r.value == [(s.value, EmptyContext)])
    ensures target.modifier == MatchingPairSymbol || target.modifier == SurroundingPair ==> r == Err(NotImplemented)
  {
    match target.modifier
    case Identity => Ok([(selection, EmptyContext)])
    case ContainingScopeModifier(scopeType, includeSiblings) =>
      helpers.containingScope(selection, scopeType, includeSiblings)
    case Subpiece(pieceType, startIndex, endIndex) =>
      var s :- SubpieceSelection(selection, TokenPieces(context, helpers, selection, pieceType), startIndex, endIndex);
      Ok([(s, EmptyContext)])
    case MatchingPairSymbol => Err(NotImplemented)
    case SurroundingPair => Err(NotImplemented)
  }

  /**
   * The character subpiece from the first piece to the last of a non-empty token on
   * one line is the token's own selection: same editor, same ends, same direction.
   */
  lemma WholeCharacterSubpiece(context: ProcessedTargetsContext, helpers: Helpers, selection: SelectionWithEditor)
    requires var doc := context.documentOf(selection.editor);
             doc.ValidRange(selection.selection.AsRange()) && selection.selection.AsRange().IsSingleLine()
    requires selection.selection.anchor != selection.selection.active
    ensures TransformSelection(context, helpers,
                               PrimitiveTarget(Cursor, Subpiece(CharacterPiece, 0, None), TokenType, Contents, None),
                               selection)
            == Ok([(selection, EmptyContext)])
  {
    var doc := context.documentOf(selection.editor);
    var range := selection.selection.AsRange();
    SingleLineText(doc, range);
    var token := SelectionText(doc, selection.selection);
    assert |token| == range.end.character - range.start.character;
    var pieces := CharacterPieces(|token|);
    var r := SubpieceSelection(selection, pieces, 0, None);
    assert r.Ok?;
    DirectionDichotomy(selection.selection);
  }

  /**
   * On a token within one line, the character subpiece from index `i` up to, not
   * including, index `j` covers exactly those characters, in the token's direction.
   */
  lemma CharacterSubpieceSpan(context: ProcessedTargetsContext, helpers: Helpers, target: PrimitiveTarget,
                              selection: SelectionWithEditor, i: nat, j: nat)
    requires var range := selection.selection.AsRange();
             context.documentOf(selection.editor).ValidRange(range) && range.IsSingleLine() &&
             i < j <= range.end.character - range.start.character
    requires target.modifier == Subpiece(CharacterPiece, i, Some(j))
    ensures var origin := selection.selection.Start();
            var start, end := Position(origin.line, origin.character + i), Position(origin.line, origin.character + j);
            TransformSelection(context, helpers, target, selection) ==
              Ok([(SelectionWithEditor(selection.editor,
                                       if IsReversed(selection.selection) then Selection(end, start) else Selection(start, end)),
                   EmptyContext)])
  {
    var doc := context.documentOf(selection.editor);
    var range := selection.selection.AsRange();
    SingleLineText(doc, range);
    var token := SelectionText(doc, selection.selection);
    assert |token| == range.end.character - range.start.character;
    var pieces := TokenPieces(context, helpers, selection, CharacterPiece);
    assert pieces[i] == Piece(i, i + 1) && pieces[j - 1] == Piece(j - 1, j);
  }

  // ---------------------------------------------------------------------------
  // Delimiter contexts

  predicate IsContextEmpty(c: SelectionContext) {
    c.isInDelimitedList.None? && c.containingListDelimiter.None? &&
    c.leadingDelimiterRange.None? && c.trailingDelimiterRange.None?
  }

  /** Length of the run of whitespace that ends `text` (the match of `\s+$`, or 0). */
  function TrailingWhitespaceLength(text: string): (n: nat)
    ensures n <= |text| && IsBlank(text[|text| - n..])
    ensures n < |text| ==> !IsWhitespace(text[|text| - n - 1])
  {
    |text| - TrimEndLength(text)
  }

  /** Length of the run of whitespace that starts `text` (the match of `^\s+`, or 0). */
  function LeadingWhitespaceLength(text: string): (n: nat)
    ensures n <= |text| && IsBlank(text[..n])
    ensures n < |text| ==> !IsWhitespace(text[n])
  {
    FirstNonWhitespace(text)
  }

  lemma TrailingWhitespacePresent(text: string)
    ensures TrailingWhitespaceLength(text) > 0 <==> |text| > 0 && IsWhitespace(text[|text| - 1])
  {
    var n := TrailingWhitespaceLength(text);
    if n > 0 { assert text[|text| - n..][n - 1] == text[|text| - 1]; }
  }

  lemma LeadingWhitespacePresent(text: string)
    ensures LeadingWhitespaceLength(text) > 0 <==> |text| > 0 && IsWhitespace(text[0])
  {
    var n := LeadingWhitespaceLength(text);
    if n > 0 { assert text[..n][0] == text[0]; }
  }

  /** `line.slice(0, c)` and `line.slice(c)` for a non-negative `c`. */
  function TextBefore(line: string, c: nat): (t: string)
    ensures |t| <= c && (c <= |line| ==> t == line[..c])
  {
    if c <= |line| then line[..c] else line
  }

  function TextAfter(line: string, c: nat): (t: string)
    ensures c <= |line| ==> t == line[c..]
  {
    if c <= |line| then line[c..] else ""
  }

  /**
   * The token context: an existing context is kept; otherwise the whitespace run
   * just before the token (when something other than whitespace precedes it on its
   * line) and the one just after it (likewise) become its delimiters, the trailing
   * one's text is the list delimiter, and with neither the context is kept.
   */
  function TokenSelectionContext(doc: HostDocument, selection: Selection, context: SelectionContext): (r: Result<SelectionContext>)
    ensures !IsContextEmpty(context) ==> r == Ok(context)
    ensures IsContextEmpty(context) ==>
              (r.Err? <==> selection.Start().line >= |doc.lines| || selection.End().line >= |doc.lines|)
    ensures r.Ok? && r.value != context ==>
              r.value.isInDelimitedList == Some(true) && r.value.outerSelection.None? &&
              (r.value.leadingDelimiterRange.Some? || r.value.trailingDelimiterRange.Some?)
    ensures r.Ok? && r.value.leadingDelimiterRange.Some? && IsContextEmpty(context) ==>
              r.value.leadingDelimiterRange.value.end == selection.Start() &&
              r.value.leadingDelimiterRange.value.IsSingleLine()
    ensures r.Ok? && r.value.trailingDelimiterRange.Some? && IsContextEmpty(context) ==>
              r.value.trailingDelimiterRange.value.start == selection.End() &&
              r.value.trailingDelimiterRange.value.IsSingleLine()
    ensures IsContextEmpty(context) && r.Ok? ==>
              var t := TextBefore(doc.lines[selection.Start().line], selection.Start().character);
              (r.value.leadingDelimiterRange.Some? <==> !IsBlank(t) && TrailingWhitespaceLength(t) > 0)
    ensures IsContextEmpty(context) && r.Ok? ==>
              var t := TextAfter(doc.lines[selection.End().line], selection.End().character);
              (r.value.trailingDelimiterRange.Some? <==> !IsBlank(t) && LeadingWhitespaceLength(t) > 0)
  {
    if !IsContextEmpty(context) then Ok(context)
    else
      var start := selection.Start();
      var end := selection.End();
      if start.line >= |doc.lines| || end.line >= |doc.lines| then Err(OutOfRange)
      else
        var leadingText := TextBefore(doc.lines[start.line], start.character);
        var leadingLength := TrailingWhitespaceLength(leadingText);
        var leading :=
          if !IsBlank(leadingText) && leadingLength > 0
          then Some(Range(Position(start.line, start.character - leadingLength), start))
          else None;
        var trailingText := TextAfter(doc.lines[end.line], end.character);
        var trailingLength := LeadingWhitespaceLength(trailingText);
        var trailing :=
          if !IsBlank(trailingText) && trailingLength > 0
          then Some(Range(end, Position(end.line, end.character + trailingLength)))
          else None;
        if leading.None? && trailing.None? then Ok(context)
        else
          var delimiterRange := if trailing.Some? then trailing.value else leading.value;
          Ok(SelectionContext(Some(true), Some(GetValidatedText(doc, delimiterRange)), leading, trailing, None))
  }

  /**
   * Within its line, the token's trailing delimiter is non-empty whitespace followed
   * on that line by something else, and it is the list delimiter. There is one
   * exactly when whitespace follows the token and something else follows later on
   * its line.
   */
  lemma TokenTrailingDelimiterIsWhitespace(doc: HostDocument, selection: Selection)
    requires doc.ValidPosition(selection.End())
    ensures var r := TokenSelectionContext(doc, selection, EmptyContext);
            var line, c := doc.lines[selection.End().line], selection.End().character;
            r.Ok? &&
            (r.value.trailingDelimiterRange.Some? <==> c < |line| && IsWhitespace(line[c]) && !IsBlank(line[c..]))
    ensures var r := TokenSelectionContext(doc, selection, EmptyContext);
            r.Ok? && r.value.trailingDelimiterRange.Some? ==>
              var d := r.value.trailingDelimiterRange.value;
              var line := doc.lines[d.start.line];
              d.start.character < d.end.character <= |line| &&
              IsBlank(line[d.start.character..d.end.character]) &&
              !IsBlank(line[d.end.character..]) &&
              r.value.containingListDelimiter == Some(line[d.start.character..d.end.character])
  {
    var r := TokenSelectionContext(doc, selection, EmptyContext);
    var line, c := doc.lines[selection.End().line], selection.End().character;
    assert r.Ok? && (r.value.trailingDelimiterRange.Some? <==> c < |line| && IsWhitespace(line[c]) && !IsBlank(line[c..])) by {
      LeadingWhitespacePresent(line[c..]);
    }
    if r.value.trailingDelimiterRange.Some? {
      var d := r.value.trailingDelimiterRange.value;
      var end := selection.End();
      var line := doc.lines[end.line];
      var trailingText := line[end.character..];
      var n := LeadingWhitespaceLength(trailingText);
      assert d == Range(end, Position(end.line, end.character + n));
      assert line[d.start.character..d.end.character] == trailingText[..n];
      assert line[d.end.character..] == trailingText[n..];
      assert trailingText[n] == line[d.end.character..][0];
      SingleLineText(doc, d);
    }
  }

  /**
   * Within its line, the token's leading delimiter is non-empty whitespace preceded
   * on that line by something else. There is one exactly when whitespace precedes
   * the token and something else comes earlier on its line.
   */
  lemma TokenLeadingDelimiterIsWhitespace(doc: HostDocument, selection: Selection)
    requires doc.ValidPosition(selection.Start()) && selection.End().line < |doc.lines|
    ensures var r := TokenSelectionContext(doc, selection, EmptyContext);
            var line, c := doc.lines[selection.Start().line], selection.Start().character;
            r.Ok? &&
            (r.value.leadingDelimiterRange.Some? <==> 0 < c && IsWhitespace(line[c - 1]) && !IsBlank(line[..c]))
    ensures var r := TokenSelectionContext(doc, selection, EmptyContext);
            r.Ok? && r.value.leadingDelimiterRange.Some? ==>
              var d := r.value.leadingDelimiterRange.value;
              var line := doc.lines[d.start.line];
              d.start.character < d.end.character <= |line| &&
              IsBlank(line[d.start.character..d.end.character]) &&
              !IsBlank(line[..d.start.character])
  {
    var r := TokenSelectionContext(doc, selection, EmptyContext);
    var line, c := doc.lines[selection.Start().line], selection.Start().character;
    assert r.Ok? && (r.value.leadingDelimiterRange.Some? <==> 0 < c && IsWhitespace(line[c - 1]) && !IsBlank(line[..c])) by {
      TrailingWhitespacePresent(line[..c]);
    }
    if r.value.leadingDelimiterRange.Some? {
      var d := r.value.leadingDelimiterRange.value;
      var start := selection.Start();
      var line := doc.lines[start.line];
      var leadingText := line[..start.character];
      var n := TrailingWhitespaceLength(leadingText);
      assert d == Range(Position(start.line, start.character - n), start);
      assert line[d.start.character..d.end.character] == leadingText[|leadingText| - n..];
      assert line[..d.start.character] == leadingText[..|leadingText| - n];
    }
  }

  /**
   * The line context of a selection: the line break before its first line and the
   * one after its last line are its delimiters where those lines exist, and the
   * outer selection covers its lines whole.
   */
  function LineSelectionContext(doc: HostDocument, selection: Selection): (r: SelectionContext)
    requires selection.Start().line < |doc.lines| && selection.End().line < |doc.lines|
    ensures var start := selection.Start();
            var end := selection.End();
            && (r.leadingDelimiterRange.Some? <==> start.line > 0)
            && (start.line > 0 ==> r.leadingDelimiterRange.value == Range(doc.LineEnd(start.line - 1), start))
            && (r.trailingDelimiterRange.Some? <==> end.line + 1 < |doc.lines|)
            && (end.line + 1 < |doc.lines| ==> r.trailingDelimiterRange.value == Range(end, Position(end.line + 1, 0)))
            && r.isInDelimitedList == Some(start.line > 0 || end.line + 1 < |doc.lines|)
            && (r.containingListDelimiter == Some("\n") <==> r.isInDelimitedList == Some(true))
            && (r.containingListDelimiter.None? <==> r.isInDelimitedList == Some(false))
            && r.outerSelection == Some(Selection(Position(start.line, 0), doc.LineEnd(end.line)))
  {
    var start := selection.Start();
    var end := selection.End();
    var leading := if start.line > 0 then Some(MkRange(doc.LineEnd(start.line - 1), start)) else None;
    var trailing := if end.line + 1 < |doc.lines| then Some(MkRange(end, Position(end.line + 1, 0))) else None;
    var isInDelimitedList := leading.Some? || trailing.Some?;
    SelectionContext(Some(isInDelimitedList), if isInDelimitedList then Some("\n") else None,
                     leading, trailing, Some(Selection(Position(start.line, 0), doc.LineEnd(end.line))))
  }

  /**
   * For a selection of whole lines (from column 0 to a line end), both line
   * delimiters are exactly one line feed, the list delimiter.
   */
  lemma LineDelimitersAreLineBreaks(doc: HostDocument, selection: Selection)
    requires var s := selection.Start();
             var e := selection.End();
             s.line < |doc.lines| && s.character == 0 && e.line < |doc.lines| && e == doc.LineEnd(e.line)
    ensures var r := LineSelectionContext(doc, selection);
            (r.leadingDelimiterRange.Some? ==>
               doc.ValidRange(r.leadingDelimiterRange.value) && GetText(doc, r.leadingDelimiterRange.value) == "\n") &&
            (r.trailingDelimiterRange.Some? ==>
               doc.ValidRange(r.trailingDelimiterRange.value) && GetText(doc, r.trailingDelimiterRange.value) == "\n")
  {
    var s := selection.Start();
    var e := selection.End();
    if s.line > 0 {
      LineBreakText(doc, s.line - 1);
    }
    if e.line + 1 < |doc.lines| {
      LineBreakText(doc, e.line);
    }
  }

  // ---------------------------------------------------------------------------
  // Line scans

  /** The first line of the paragraph around `line`: back over non-blank lines. */
  function ParagraphStart(doc: HostDocument, line: nat): (r: nat)
    requires line < |doc.lines|
    ensures r <= line
    ensures forall k :: r <= k < line ==> !doc.IsBlankLine(k)
    ensures r == 0 || doc.IsBlankLine(r - 1)
  {
    if line == 0 then 0
    else if doc.IsBlankLine(line - 1) then line
    else ParagraphStart(doc, line - 1)
  }

  /** The last line of the paragraph around `line`: forward over non-blank lines. */
  function ParagraphEnd(doc: HostDocument, line: nat): (r: nat)
    requires line < |doc.lines|
    ensures line <= r < |doc.lines|
    ensures forall k :: line < k <= r ==> !doc.IsBlankLine(k)
    ensures r == |doc.lines| - 1 || doc.IsBlankLine(r + 1)
    decreases |doc.lines| - line
  {
    if line + 1 >= |doc.lines| then line
    else if doc.IsBlankLine(line + 1) then line
    else ParagraphEnd(doc, line + 1)
  }

  /** The paragraph start is the only line with its three properties. */
  lemma {:induction false} ParagraphStartUnique(doc: HostDocument, line: nat, l: nat)
    requires line < |doc.lines| && l <= line
    requires forall k :: l <= k < line ==> !doc.IsBlankLine(k)
    requires l == 0 || doc.IsBlankLine(l - 1)
    ensures ParagraphStart(doc, line) == l
    decreases line
  {
    if line > 0 && !doc.IsBlankLine(line - 1) {
      ParagraphStartUnique(doc, line - 1, l);
    }
  }

  /** The paragraph end is the only line with its three properties. */
  lemma {:induction false} ParagraphEndUnique(doc: HostDocument, line: nat, l: nat)
    requires line <= l < |doc.lines|
    requires forall k :: line < k <= l ==> !doc.IsBlankLine(k)
    requires l == |doc.lines| - 1 || doc.IsBlankLine(l + 1)
    ensures ParagraphEnd(doc, line) == l
    decreases |doc.lines| - line
  {
    if line + 1 < |doc.lines| && !doc.IsBlankLine(line + 1) {
      ParagraphEndUnique(doc, line + 1, l);
    }
  }

  /** The backward scan of the paragraph expansion. */
  method ScanParagraphStart(doc: HostDocument, line: nat) returns (startLine: nat)
    requires line < |doc.lines|
    ensures startLine == ParagraphStart(doc, line)
  {
    startLine := line;
    while startLine > 0
      invariant startLine <= line
      invariant ParagraphStart(doc, startLine) == ParagraphStart(doc, line)
    {
      if doc.IsBlankLine(startLine - 1) {
        break;
      }
      startLine := startLine - 1;
    }
  }

  /** The forward scan of the paragraph expansion. */
  method ScanParagraphEnd(doc: HostDocument, line: nat) returns (endLine: nat)
    requires line < |doc.lines|
    ensures endLine == ParagraphEnd(doc, line)
  {
    endLine := line;
    while endLine + 1 < |doc.lines|
      invariant line <= endLine < |doc.lines|
      invariant ParagraphEnd(doc, endLine) == ParagraphEnd(doc, line)
      decreases |doc.lines| - endLine
    {
      if doc.IsBlankLine(endLine + 1) {
        break;
      }
      endLine := endLine + 1;
    }
  }

  /**
   * The line the paragraph context's leading delimiter starts from: the nearest
   * non-blank line above `line`, or line 0 when there is none.
   */
  function LeadingContextLine(doc: HostDocument, line: nat): (r: nat)
    requires line < |doc.lines|
    ensures r <= line && (r == line <==> line == 0)
    ensures forall k :: r < k < line ==> doc.IsBlankLine(k)
    ensures r < line && r > 0 ==> !doc.IsBlankLine(r)
  {
    if line == 0 then 0
    else if !doc.IsBlankLine(line - 1) then line - 1
    else LeadingContextLine(doc, line - 1)
  }

  /**
   * The line the paragraph context's trailing delimiter ends on: the nearest
   * non-blank line below `line`, or the last line when there is none.
   */
  function TrailingContextLine(doc: HostDocument, line: nat): (r: nat)
    requires line < |doc.lines|
    ensures line <= r < |doc.lines| && (r == line <==> line == |doc.lines| - 1)
    ensures forall k :: line < k < r ==> doc.IsBlankLine(k)
    ensures r > line && r < |doc.lines| - 1 ==> !doc.IsBlankLine(r)
    decreases |doc.lines| - line
  {
    if line + 1 >= |doc.lines| then line
    else if !doc.IsBlankLine(line + 1) then line + 1
    else TrailingContextLine(doc, line + 1)
  }

  /** The backward scan of the paragraph context: step up first, stop on a non-blank line. */
  method ScanLeadingContextLine(doc: HostDocument, line: nat) returns (leadingLine: nat)
    requires line < |doc.lines|
    ensures leadingLine == LeadingContextLine(doc, line)
  {
    leadingLine := line;
    while leadingLine > 0
      invariant leadingLine <= line
      invariant leadingLine == line ||
                (doc.IsBlankLine(leadingLine) && LeadingContextLine(doc, leadingLine + 1) == LeadingContextLine(doc, line))
    {
      leadingLine := leadingLine - 1;
      if !doc.IsBlankLine(leadingLine) {
        assert LeadingContextLine(doc, leadingLine + 1) == leadingLine;
        break;
      }
    }
  }

  /** The forward scan of the paragraph context: step down first, stop on a non-blank line. */
  method ScanTrailingContextLine(doc: HostDocument, line: nat) returns (trailingLine: nat)
    requires line < |doc.lines|
    ensures trailingLine == TrailingContextLine(doc, line)
  {
    trailingLine := line;
    while trailingLine + 1 < |doc.lines|
      invariant line <= trailingLine < |doc.lines|
      invariant trailingLine == line || doc.IsBlankLine(trailingLine)
      invariant trailingLine > line ==> TrailingContextLine(doc, trailingLine - 1) == TrailingContextLine(doc, line)
      decreases |doc.lines| - trailingLine
    {
      trailingLine := trailingLine + 1;
      if !doc.IsBlankLine(trailingLine) {
        break;
      }
    }
  }

  /**
   * The paragraph context: from the end of the nearest non-blank line above to the
   * selection start, and from the selection end to the start of the nearest
   * non-blank line below, each only where such a line differs from the selection's
   * own; the list delimiter is a blank line.
   */
  function ParagraphSelectionContext(doc: HostDocument, selection: Selection): (r: SelectionContext)
    requires selection.Start().line < |doc.lines| && selection.End().line < |doc.lines|
    ensures var start := selection.Start();
            var end := selection.End();
            && (r.leadingDelimiterRange.Some? <==> start.line > 0)
            && (start.line > 0 ==>
                  r.leadingDelimiterRange.value == Range(doc.LineEnd(LeadingContextLine(doc, start.line)), start))
            && (r.trailingDelimiterRange.Some? <==> end.line + 1 < |doc.lines|)
            && (end.line + 1 < |doc.lines| ==>
                  r.trailingDelimiterRange.value == Range(end, Position(TrailingContextLine(doc, end.line), 0)))
            && r.isInDelimitedList == Some(start.line > 0 || end.line + 1 < |doc.lines|)
            && (r.containingListDelimiter == Some("\n\n") <==> r.isInDelimitedList == Some(true))
            && (r.containingListDelimiter.None? <==> r.isInDelimitedList == Some(false))
            && r.outerSelection == Some(Selection(Position(start.line, 0), doc.LineEnd(end.line)))
  {
    var start := selection.Start();
    var end := selection.End();
    var leadingLine := LeadingContextLine(doc, start.line);
    var trailingLine := TrailingContextLine(doc, end.line);
    var leading := if leadingLine != start.line then Some(MkRange(doc.LineEnd(leadingLine), start)) else None;
    var trailing := if trailingLine != end.line then Some(MkRange(end, Position(trailingLine, 0))) else None;
    var isInDelimitedList := leading.Some? || trailing.Some?;
    SelectionContext(Some(isInDelimitedList), if isInDelimitedList then Some("\n\n") else None,
                     leading, trailing, Some(Selection(Position(start.line, 0), doc.LineEnd(end.line))))
  }

  // ---------------------------------------------------------------------------
  // Typed selections

  /** Rebuilds `s` over `start`..`end` in the direction of `s`. */
  function Redirect(s: Selection, start: Position, end: Position): (r: Selection)
    ensures IsReversed(s) ==> r == Selection(end, start)
    ensures !IsReversed(s) ==> r == Selection(start, end)
  {
    if IsReversed(s) then Selection(end, start) else Selection(start, end)
  }

  /**
   * Expands a selection to its selection type and attaches the context of that
   * type: a token keeps its range; a line or paragraph runs from the first
   * non-whitespace character of its first line to the end of its last line; a
   * document covers everything. Each keeps the direction of the selection.
   */
  function CreateTypedSelection(context: ProcessedTargetsContext, target: PrimitiveTarget,
                                selection: SelectionWithEditor, selectionContext: SelectionContext): (r: Result<TypedSelection>)
    ensures r.Ok? ==>
              r.value.selection.editor == selection.editor &&
              r.value.selectionType == target.selectionType &&
              r.value.position == target.position &&
              r.value.insideOutsideType == target.insideOutsideType
    ensures target.selectionType == CharacterType ==> r == Err(NotImplemented)
    ensures target.selectionType == TokenType && r.Ok? ==> r.value.selection == selection
    ensures target.selectionType == TokenType ==>
              var c := TokenSelectionContext(context.documentOf(selection.editor), selection.selection, selectionContext);
              (r.Ok? <==> c.Ok?) && (r.Ok? ==> r.value.selectionContext == c.value)
    ensures var doc := context.documentOf(selection.editor);
            var s := selection.selection;
            target.selectionType in {LineType, ParagraphType} ==>
              (r.Ok? <==> s.Start().line < |doc.lines| && s.End().line < |doc.lines|)
    ensures var doc := context.documentOf(selection.editor);
            var s := selection.selection;
            target.selectionType == LineType && r.Ok? ==>
              var start := Position(s.Start().line, FirstNonWhitespace(doc.lines[s.Start().line]));
              r.value.selection.selection == Redirect(s, start, doc.LineEnd(s.End().line)) &&
              r.value.selectionContext == LineSelectionContext(doc, r.value.selection.selection)
    ensures var doc := context.documentOf(selection.editor);
            var s := selection.selection;
            target.selectionType == ParagraphType && r.Ok? ==>
              var first := ParagraphStart(doc, s.Start().line);
              var last := ParagraphEnd(doc, s.End().line);
              var start := Position(first, FirstNonWhitespace(doc.lines[first]));
              r.value.selection.selection == Redirect(s, start, doc.LineEnd(last)) &&
              r.value.selectionContext == ParagraphSelectionContext(doc, r.value.selection.selection)
    ensures var doc := context.documentOf(selection.editor);
            target.selectionType == DocumentType ==>
              r.Ok? &&
              r.value.selection.selection == Redirect(selection.selection, Position(0, 0), doc.LineEnd(|doc.lines| - 1)) &&
              r.value.selectionContext == selectionContext
  {
    var doc := context.documentOf(selection.editor);
    var s := selection.selection;
    var make := (newSelection: Selection, c: SelectionContext) =>
      TypedSelection(SelectionWithEditor(selection.editor, newSelection), target.selectionType,
                     target.position, target.insideOutsideType, c);
    match target.selectionType
    case TokenType =>
      var c :- TokenSelectionContext(doc, s, selectionContext);
      Ok(TypedSelection(selection, target.selectionType, target.position, target.insideOutsideType, c))
    case LineType =>
      if s.Start().line >= |doc.lines| || s.End().line >= |doc.lines| then Err(OutOfRange)
      else
        var start := Position(s.Start().line, FirstNonWhitespace(doc.lines[s.Start().line]));
        var newSelection := Redirect(s, start, doc.LineEnd(s.End().line));
        Ok(make(newSelection, LineSelectionContext(doc, newSelection)))
    case DocumentType =>
      Ok(make(Redirect(s, Position(0, 0), doc.LineEnd(|doc.lines| - 1)), selectionContext))
    case ParagraphType =>
      if s.Start().line >= |doc.lines| || s.End().line >= |doc.lines| then Err(OutOfRange)
      else
        var first := ParagraphStart(doc, s.Start().line);
        var last := ParagraphEnd(doc, s.End().line);
        var start := Position(first, FirstNonWhitespace(doc.lines[first]));
        var newSelection := Redirect(s, start, doc.LineEnd(last));
        Ok(make(newSelection, ParagraphSelectionContext(doc, newSelection)))
    case CharacterType => Err(NotImplemented)
  }

  /**
   * The position adjustment: "before" and "after" collapse the selection to its
   * start and end; "contents" keeps it. The selection type and context are kept and
   * the target's position and inside/outside type are recorded.
   */
  function PerformPositionAdjustment(target: PrimitiveTarget, selection: TypedSelection): (r: TypedSelection)
    ensures r.selection.editor == selection.selection.editor
    ensures r.selectionType == selection.selectionType && r.selectionContext == selection.selectionContext
    ensures r.position == target.position && r.insideOutsideType == target.insideOutsideType
    ensures target.position == Contents ==> r.selection.selection == selection.selection.selection
    ensures target.position == BeforeTarget ==>
              var p := selection.selection.selection.Start();
              r.selection.selection == Selection(p, p)
    ensures target.position == AfterTarget ==>
              var p := selection.selection.selection.End();
              r.selection.selection == Selection(p, p)
  {
    var original := selection.selection.selection;
    var newSelection :=
      match target.position
      case Contents => original
      case BeforeTarget => Selection(original.Start(), original.Start())
      case AfterTarget => Selection(original.End(), original.End());
    TypedSelection(SelectionWithEditor(selection.selection.editor, newSelection), selection.selectionType,
                   target.position, target.insideOutsideType, selection.selectionContext)
  }

  /** Adjusting a selection that was adjusted already to the same position changes nothing. */
  lemma PositionAdjustmentIdempotent(target: PrimitiveTarget, selection: TypedSelection)
    ensures PerformPositionAdjustment(target, PerformPositionAdjustment(target, selection))
            == PerformPositionAdjustment(target, selection)
  {
    var once := PerformPositionAdjustment(target, selection);
    var p := once.selection.selection;
    assert target.position != Contents ==> p.Start() == p.anchor && p.End() == p.active;
  }

  // ---------------------------------------------------------------------------
  // Targets

  /**
   * A primitive target: the mark's selections, each transformed by the modifier,
   * then typed, then adjusted to the target's position, in order.
   */
  function ProcessPrimitiveTarget(context: ProcessedTargetsContext, helpers: Helpers,
                                  target: PrimitiveTarget): (r: Result<seq<TypedSelection>>)
    ensures r.Ok? ==> forall i :: 0 <= i < |r.value| ==>
              r.value[i].position == target.position &&
              r.value[i].selectionType == target.selectionType &&
              r.value[i].insideOutsideType == target.insideOutsideType
    ensures GetSelectionsFromMark(context, target.mark).Err? ==> r.Err?
    ensures target.modifier == Identity && target.selectionType == TokenType && target.position == Contents &&
            GetSelectionsFromMark(context, target.mark).Ok? && r.Ok? ==>
              |r.value| == |GetSelectionsFromMark(context, target.mark).value| &&
              forall i :: 0 <= i < |r.value| ==>
                r.value[i].selection == GetSelectionsFromMark(context, target.mark).value[i]
  {
    var markSelections :- GetSelectionsFromMark(context, target.mark);
    var transformed :- MapResult(markSelections, s => TransformSelection(context, helpers, target, s));
    var typed :- MapResult(Flatten(transformed), (p: (SelectionWithEditor, SelectionContext)) =>
                             CreateTypedSelection(context, target, p.0, p.1));
    var adjusted := seq(|typed|, i requires 0 <= i < |typed| => PerformPositionAdjustment(target, typed[i]));
    if target.modifier == Identity then
      IdentityFlatten(context, helpers, target, markSelections, transformed);
      Ok(adjusted)
    else Ok(adjusted)
  }

  /**
   * The modifier's selections of each mark selection in turn, concatenated in order;
   * the first failure is the result.
   */
  function ModifierSelections(context: ProcessedTargetsContext, helpers: Helpers, target: PrimitiveTarget,
                              marks: seq<SelectionWithEditor>): (r: Result<seq<(SelectionWithEditor, SelectionContext)>>)
    ensures r.Ok? <==> forall i :: 0 <= i < |marks| ==> TransformSelection(context, helpers, target, marks[i]).Ok?
  {
    if marks == [] then Ok([])
    else
      assert forall i :: 1 <= i < |marks| ==> marks[i] == marks[1..][i - 1];
      var first :- TransformSelection(context, helpers, target, marks[0]);
      var rest :- ModifierSelections(context, helpers, target, marks[1..]);
      Ok(first + rest)
  }

  /** Mapping the modifier over the mark selections and flattening gives ModifierSelections. */
  lemma {:induction false} ModifierSelectionsFlatten(context: ProcessedTargetsContext, helpers: Helpers,
                                                     target: PrimitiveTarget, marks: seq<SelectionWithEditor>)
    ensures var t := MapResult(marks, s => TransformSelection(context, helpers, target, s));
            var m := ModifierSelections(context, helpers, target, marks);
            (t.Ok? <==> m.Ok?) && (t.Ok? ==> m.value == Flatten(t.value))
  {
    if marks != [] {
      ModifierSelectionsFlatten(context, helpers, target, marks[1..]);
      var t := MapResult(marks, s => TransformSelection(context, helpers, target, s));
      var rest := MapResult(marks[1..], s => TransformSelection(context, helpers, target, s));
      if t.Ok? {
        assert rest.Ok? && t.value == [t.value[0]] + rest.value;
        assert t.value[1..] == rest.value;
      }
    }
  }

  /**
   * A primitive target gives one result per selection the modifier makes of its mark
   * selections, in order: that selection typed with its context, then adjusted to the
   * target's position. It fails exactly when the mark, the modifier or one typing fails.
   */
  lemma PrimitiveTargetPerSelection(context: ProcessedTargetsContext, helpers: Helpers, target: PrimitiveTarget)
    requires GetSelectionsFromMark(context, target.mark).Ok?
    ensures var m := ModifierSelections(context, helpers, target, GetSelectionsFromMark(context, target.mark).value);
            var r := ProcessPrimitiveTarget(context, helpers, target);
            (r.Ok? <==> m.Ok? && forall i :: 0 <= i < |m.value| ==> CreateTypedSelection(context, target, m.value[i].0, m.value[i].1).Ok?) &&
            (r.Ok? ==> |r.value| == |m.value| &&
                       forall i :: 0 <= i < |r.value| ==>
                         r.value[i] == PerformPositionAdjustment(target, CreateTypedSelection(context, target, m.value[i].0, m.value[i].1).value))
  {
    var marks := GetSelectionsFromMark(context, target.mark).value;
    ModifierSelectionsFlatten(context, helpers, target, marks);
  }

  /** Flattening lists of one element each gives those elements, in order. */
  lemma {:induction false} FlattenSingletons<T>(xss: seq<seq<T>>)
    requires forall i :: 0 <= i < |xss| ==> |xss[i]| == 1
    ensures |Flatten(xss)| == |xss| && forall i :: 0 <= i < |xss| ==> Flatten(xss)[i] == xss[i][0]
  {
    if xss != [] {
      FlattenSingletons(xss[1..]);
      assert Flatten(xss) == xss[0] + Flatten(xss[1..]);
    }
  }

  /**
   * When the modifier makes exactly one selection of each mark selection, a primitive
   * target gives one result per mark selection, in order: the modifier's selection
   * typed with its context, then adjusted to the target's position. It fails exactly
   * when the modifier or the typing fails for one of them.
   */
  lemma OneSelectionPerMark(context: ProcessedTargetsContext, helpers: Helpers, target: PrimitiveTarget)
    requires GetSelectionsFromMark(context, target.mark).Ok?
    requires forall m :: TransformSelection(context, helpers, target, m).Ok? ==>
                         |TransformSelection(context, helpers, target, m).value| == 1
    ensures var marks := GetSelectionsFromMark(context, target.mark).value;
            var r := ProcessPrimitiveTarget(context, helpers, target);
            (r.Ok? <==> forall i :: 0 <= i < |marks| ==>
                          var t := TransformSelection(context, helpers, target, marks[i]);
                          t.Ok? && CreateTypedSelection(context, target, t.value[0].0, t.value[0].1).Ok?) &&
            (r.Ok? ==> |r.value| == |marks| &&
                       forall i :: 0 <= i < |marks| ==>
                         var t := TransformSelection(context, helpers, target, marks[i]).value[0];
                         r.value[i] == PerformPositionAdjustment(target, CreateTypedSelection(context, target, t.0, t.1).value))
  {
    var marks := GetSelectionsFromMark(context, target.mark).value;
    var transformed := MapResult(marks, s => TransformSelection(context, helpers, target, s));
    if transformed.Ok? {
      FlattenSingletons(transformed.value);
      var flat := Flatten(transformed.value);
      var typed := MapResult(flat, (p: (SelectionWithEditor, SelectionContext)) =>
                               CreateTypedSelection(context, target, p.0, p.1));
      assert forall i :: 0 <= i < |marks| ==> flat[i] == TransformSelection(context, helpers, target, marks[i]).value[0];
    }
  }

  /**
   * With no modifier, result `i` is mark selection `i` typed with an empty context
   * and adjusted to the target's position; the target fails exactly when typing one
   * of the mark selections fails.
   */
  lemma IdentityPrimitiveTarget(context: ProcessedTargetsContext, helpers: Helpers, target: PrimitiveTarget)
    requires target.modifier == Identity && GetSelectionsFromMark(context, target.mark).Ok?
    ensures var marks := GetSelectionsFromMark(context, target.mark).value;
            var r := ProcessPrimitiveTarget(context, helpers, target);
            (r.Ok? <==> forall i :: 0 <= i < |marks| ==> CreateTypedSelection(context, target, marks[i], EmptyContext).Ok?) &&
            (r.Ok? ==> |r.value| == |marks| &&
                       forall i :: 0 <= i < |marks| ==>
                         r.value[i] == PerformPositionAdjustment(target, CreateTypedSelection(context, target, marks[i], EmptyContext).value))
  {
    OneSelectionPerMark(context, helpers, target);
  }

  /**
   * With a subpiece modifier, result `i` is the subpiece of mark selection `i`'s
   * token, typed with an empty context and adjusted to the target's position; the
   * target fails exactly when a subpiece index names no piece or typing fails.
   */
  lemma SubpiecePrimitiveTarget(context: ProcessedTargetsContext, helpers: Helpers, target: PrimitiveTarget)
    requires target.modifier.Subpiece? && GetSelectionsFromMark(context, target.mark).Ok?
    ensures var marks := GetSelectionsFromMark(context, target.mark).value;
            var m := target.modifier;
            var r := ProcessPrimitiveTarget(context, helpers, target);
            (r.Ok? <==> forall i :: 0 <= i < |marks| ==>
                          var s := SubpieceSelection(marks[i], TokenPieces(context, helpers, marks[i], m.pieceType),
                                                     m.startIndex, m.endIndex);
                          s.Ok? && CreateTypedSelection(context, target, s.value, EmptyContext).Ok?) &&
            (r.Ok? ==> |r.value| == |marks| &&
                       forall i :: 0 <= i < |marks| ==>
                         var s := SubpieceSelection(marks[i], TokenPieces(context, helpers, marks[i], m.pieceType),
                                                    m.startIndex, m.endIndex);
                         r.value[i] == PerformPositionAdjustment(target, CreateTypedSelection(context, target, s.value, EmptyContext).value))
  {
    OneSelectionPerMark(context, helpers, target);
  }

  /** Under the identity modifier, each mark selection gives exactly itself with an empty context. */
  lemma {:induction false} IdentityFlatten(context: ProcessedTargetsContext, helpers: Helpers, target: PrimitiveTarget,
                                           marks: seq<SelectionWithEditor>,
                                           transformed: seq<seq<(SelectionWithEditor, SelectionContext)>>)
    requires |transformed| == |marks|
    requires forall i :: 0 <= i < |marks| ==>
               TransformSelection(context, helpers, target, marks[i]) == Ok(transformed[i])
    requires target.modifier == Identity
    ensures |Flatten(transformed)| == |marks|
    ensures forall i :: 0 <= i < |marks| ==> Flatten(transformed)[i] == (marks[i], EmptyContext)
  {
    if marks != [] {
      IdentityFlatten(context, helpers, target, marks[1..], transformed[1..]);
    }
  }

  /**
   * Joins a start and an end selection into one range selection. When the start
   * begins at or before the end's end, the range runs forward from the start's start
   * to the end's end and takes the start's leading and the end's trailing delimiter;
   * otherwise it runs backward from the start's end to the end's start with the
   * delimiters the other way round. Start and end must share an editor.
   */
  function JoinRange(startTarget: TypedSelection, endTarget: TypedSelection): (r: Result<TypedSelection>)
    ensures r.Err? <==> startTarget.selection.editor != endTarget.selection.editor
    ensures r.Err? ==> r.error == DifferentEditors
    ensures r.Ok? ==>
              var s := startTarget.selection.selection;
              var e := endTarget.selection.selection;
              var forward := IsBeforeOrEqual(s.Start(), e.End());
              r.value.selection.editor == startTarget.selection.editor &&
              (forward ==> r.value.selection.selection == Selection(s.Start(), e.End()) &&
                           r.value.selectionContext.leadingDelimiterRange == startTarget.selectionContext.leadingDelimiterRange &&
                           r.value.selectionContext.trailingDelimiterRange == endTarget.selectionContext.trailingDelimiterRange &&
                           r.value.selectionContext.outerSelection ==
                             Some(Selection(OuterOrSelf(startTarget).Start(), OuterOrSelf(endTarget).End()))) &&
              (!forward ==> r.value.selection.selection == Selection(s.End(), e.Start()) &&
                            r.value.selectionContext.leadingDelimiterRange == endTarget.selectionContext.leadingDelimiterRange &&
                            r.value.selectionContext.trailingDelimiterRange == startTarget.selectionContext.trailingDelimiterRange &&
                            r.value.selectionContext.outerSelection ==
                              Some(Selection(OuterOrSelf(endTarget).Start(), OuterOrSelf(startTarget).End()))) &&
              r.value.position == Contents &&
              r.value.selectionType == startTarget.selectionType &&
              r.value.insideOutsideType == startTarget.insideOutsideType &&
              r.value.selectionContext.containingListDelimiter == startTarget.selectionContext.containingListDelimiter &&
              r.value.selectionContext.isInDelimitedList == startTarget.selectionContext.isInDelimitedList
  {
    if startTarget.selection.editor != endTarget.selection.editor then Err(DifferentEditors)
    else
      var s := startTarget.selection.selection;
      var e := endTarget.selection.selection;
      var forward := IsBeforeOrEqual(s.Start(), e.End());
      var anchor := if forward then s.Start() else s.End();
      var active := if forward then e.End() else e.Start();
      var leading := if forward then startTarget.selectionContext.leadingDelimiterRange
                     else endTarget.selectionContext.leadingDelimiterRange;
      var trailing := if forward then endTarget.selectionContext.trailingDelimiterRange
                      else startTarget.selectionContext.trailingDelimiterRange;
      var startOuter := OuterOrSelf(startTarget);
      var endOuter := OuterOrSelf(endTarget);
      var outer := if forward then Selection(startOuter.Start(), endOuter.End())
                   else Selection(endOuter.Start(), startOuter.End());
      Ok(TypedSelection(
        SelectionWithEditor(startTarget.selection.editor, Selection(anchor, active)),
        startTarget.selectionType, Contents, startTarget.insideOutsideType,
        SelectionContext(startTarget.selectionContext.isInDelimitedList,
                         startTarget.selectionContext.containingListDelimiter,
                         leading, trailing, Some(outer))))
  }

  function OuterOrSelf(t: TypedSelection): Selection {
    if t.selectionContext.outerSelection.Some? then t.selectionContext.outerSelection.value
    else t.selection.selection
  }

  /**
   * The joined range is reversed exactly when the start target begins after the end
   * target ends, and as a range it spans from the earlier target to the later one.
   */
  lemma JoinRangeDirection(startTarget: TypedSelection, endTarget: TypedSelection)
    requires startTarget.selection.editor == endTarget.selection.editor
    ensures var r := JoinRange(startTarget, endTarget).value.selection.selection;
            var s := startTarget.selection.selection;
            var e := endTarget.selection.selection;
            (IsReversed(r) <==> IsBefore(e.End(), s.Start())) &&
            (IsReversed(r) ==> r.AsRange() == Range(e.Start(), s.End())) &&
            (!IsReversed(r) ==> r.AsRange() == Range(s.Start(), e.End()))
  {
    var s := startTarget.selection.selection;
    var e := endTarget.selection.selection;
    var r := JoinRange(startTarget, endTarget).value.selection.selection;
    if !IsBeforeOrEqual(s.Start(), e.End()) {
      OrderTransitive(e.Start(), e.End(), s.Start());
      OrderTransitive(e.Start(), s.Start(), s.End());
      assert IsBefore(e.Start(), s.End());
    }
    DirectionDichotomy(r);
  }

  /** Joins start and end selections pairwise, failing at the first pair in different editors. */
  function JoinRanges(starts: seq<TypedSelection>, ends: seq<TypedSelection>): (r: Result<seq<TypedSelection>>)
    requires |starts| == |ends|
    ensures r.Ok? <==> forall i :: 0 <= i < |starts| ==> starts[i].selection.editor == ends[i].selection.editor
    ensures r.Ok? ==> |r.value| == |starts| && forall i :: 0 <= i < |starts| ==> r.value[i] == JoinRange(starts[i], ends[i]).value
  {
    var pairs := seq(|starts|, i requires 0 <= i < |starts| => (starts[i], ends[i]));
    var join := (p: (TypedSelection, TypedSelection)) => JoinRange(p.0, p.1);
    assert forall i :: 0 <= i < |starts| ==> join(pairs[i]) == JoinRange(starts[i], ends[i]);
    MapResult(pairs, join)
  }

  /**
   * A range target: its start and end targets, which must resolve to equally many
   * selections, joined pairwise.
   */
  function ProcessRangeTarget(context: ProcessedTargetsContext, helpers: Helpers,
                              start: PrimitiveTarget, end: PrimitiveTarget): (r: Result<seq<TypedSelection>>)
    ensures var s := ProcessPrimitiveTarget(context, helpers, start);
            var e := ProcessPrimitiveTarget(context, helpers, end);
            s.Ok? && e.Ok? ==>
              (|s.value| != |e.value| ==> r == Err(LengthMismatch)) &&
              (|s.value| == |e.value| ==> r == JoinRanges(s.value, e.value))
    ensures ProcessPrimitiveTarget(context, helpers, start).Err? ==> r == ProcessPrimitiveTarget(context, helpers, start)
    ensures ProcessPrimitiveTarget(context, helpers, start).Ok? && ProcessPrimitiveTarget(context, helpers, end).Err? ==>
              r == ProcessPrimitiveTarget(context, helpers, end)
  {
    var starts :- ProcessPrimitiveTarget(context, helpers, start);
    var ends :- ProcessPrimitiveTarget(context, helpers, end);
    if |starts| != |ends| then Err(LengthMismatch)
    else JoinRanges(starts, ends)
  }

  /** The inside/outside adjustment of every selection. */
  function AdjustAll(helpers: Helpers, selections: seq<TypedSelection>): (r: seq<TypedSelection>)
    ensures |r| == |selections| && forall i :: 0 <= i < |r| ==> r[i] == helpers.insideOutside(selections[i])
  {
    seq(|selections|, i requires 0 <= i < |selections| => helpers.insideOutside(selections[i]))
  }

  /** A target's selections: a list target is the concatenation of its elements'. */
  function ProcessSingleTarget(context: ProcessedTargetsContext, helpers: Helpers, target: LegacyTarget): (r: Result<seq<TypedSelection>>)
    ensures target.Primitive? ==>
              var s := ProcessPrimitiveTarget(context, helpers, target.primitive);
              (r.Ok? <==> s.Ok?) && (r.Ok? ==> |r.value| == |s.value|) &&
              (s.Ok? ==> r == Ok(AdjustAll(helpers, s.value)))
    ensures target.RangeOf? ==>
              var s := ProcessRangeTarget(context, helpers, target.start, target.end);
              (r.Ok? <==> s.Ok?) && (r.Ok? ==> |r.value| == |s.value|) &&
              (s.Ok? ==> r == Ok(AdjustAll(helpers, s.value)))
    decreases target, 1
  {
    match target
    case ListOf(elements) => ProcessElements(context, helpers, elements)
    case RangeOf(start, end) =>
      var selections :- ProcessRangeTarget(context, helpers, start, end);
      Ok(AdjustAll(helpers, selections))
    case Primitive(primitive) =>
      var selections :- ProcessPrimitiveTarget(context, helpers, primitive);
      Ok(AdjustAll(helpers, selections))
  }

  function ProcessElements(context: ProcessedTargetsContext, helpers: Helpers, elements: seq<LegacyTarget>): (r: Result<seq<TypedSelection>>)
    ensures elements == [] ==> r == Ok([])
    ensures r.Ok? <==> forall k :: 0 <= k < |elements| ==> ProcessSingleTarget(context, helpers, elements[k]).Ok?
    decreases elements, 0
  {
    if elements == [] then Ok([])
    else
      var first := ProcessSingleTarget(context, helpers, elements[0]);
      var rest := ProcessElements(context, helpers, elements[1..]);
      if first.Err? then first
      else if rest.Err? then rest
      else Ok(first.value + rest.value)
  }

  /**
   * The elements of a list are processed in order and their selections
   * concatenated: a list of `a` then `b` succeeds exactly when both parts do, with
   * `a`'s selections before `b`'s.
   */
  lemma {:induction false} ListConcatenates(context: ProcessedTargetsContext, helpers: Helpers,
                                            a: seq<LegacyTarget>, b: seq<LegacyTarget>)
    ensures var ra := ProcessElements(context, helpers, a);
            var rb := ProcessElements(context, helpers, b);
            var r := ProcessElements(context, helpers, a + b);
            (r.Ok? <==> ra.Ok? && rb.Ok?) &&
            (r.Ok? ==> r.value == ra.value + rb.value)
  {
    if a == [] {
      assert a + b == b;
    } else {
      assert (a + b)[0] == a[0];
      assert (a + b)[1..] == a[1..] + b;
      ListConcatenates(context, helpers, a[1..], b);
      var first := ProcessSingleTarget(context, helpers, a[0]);
      if first.Ok? {
        var rest := ProcessElements(context, helpers, a[1..]);
        var rb := ProcessElements(context, helpers, b);
        if rest.Ok? && rb.Ok? {
          assert first.value + (rest.value + rb.value) == (first.value + rest.value) + rb.value;
        }
      }
    }
  }

  /** A one-element list gives exactly what its element gives. */
  lemma SingletonList(context: ProcessedTargetsContext, helpers: Helpers, t: LegacyTarget)
    ensures ProcessSingleTarget(context, helpers, ListOf([t])) == ProcessSingleTarget(context, helpers, t)
  {
    var r := ProcessSingleTarget(context, helpers, t);
    assert [t][1..] == [];
    if r.Ok? {
      assert r.value + [] == r.value;
    }
  }

  /** Every target of a command, each resolved to its selections. */
  function ProcessTargets(context: ProcessedTargetsContext, helpers: Helpers, targets: seq<LegacyTarget>): (r: Result<seq<seq<TypedSelection>>>)
    ensures r.Ok? <==> forall i :: 0 <= i < |targets| ==> ProcessSingleTarget(context, helpers, targets[i]).Ok?
    ensures r.Ok? ==> |r.value| == |targets|
    ensures r.Ok? ==> forall i :: 0 <= i < |targets| ==>
              r.value[i] == ProcessSingleTarget(context, helpers, targets[i]).value
  {
    MapResult(targets, t => ProcessSingleTarget(context, helpers, t))
  }
}
