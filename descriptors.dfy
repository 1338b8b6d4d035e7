/**
 * The partial target descriptors of command version 3: hat styles, marks, scope
 * types, modifiers, and primitive, range and list descriptors. The meanings their
 * documentation gives to a few fields are stated as functions at the end:
 * strong containment for surrounding pairs, and the cascading modifier.
 */
module Descriptors {
  import opened Wrappers
  import opened Strings
  import opened Geometry

  // ---------------------------------------------------------------------------
  // Hat styles

  datatype HatColor = Default | Blue | Green | Red | Pink | Yellow | UserColor1 | UserColor2

  datatype HatShape = Ex | Fox | Wing | Hole | Frame | Curve | Eye | Play | Bolt | Crosshairs

  /** A bare colour, or a colour with one of the non-default shapes. */
  datatype HatStyleName = HatStyleName(color: HatColor, shape: Option<HatShape>)

  function ColorName(c: HatColor): string {
    match c
    case Default => "default"
    case Blue => "blue"
    case Green => "green"
    case Red => "red"
    case Pink => "pink"
    case Yellow => "yellow"
    case UserColor1 => "userColor1"
    case UserColor2 => "userColor2"
  }

  function ShapeName(s: HatShape): string {
    match s
    case Ex => "ex"
    case Fox => "fox"
    case Wing => "wing"
    case Hole => "hole"
    case Frame => "frame"
    case Curve => "curve"
    case Eye => "eye"
    case Play => "play"
    case Bolt => "bolt"
    case Crosshairs => "crosshairs"
  }

  /** The style's text: `color` or `color-shape`. */
  function StyleName(h: HatStyleName): string {
    match h.shape
    case None => ColorName(h.color)
    case Some(s) => ColorName(h.color) + "-" + ShapeName(s)
  }

  function ParseColor(s: string): (r: Option<HatColor>)
    ensures r.Some? ==> ColorName(r.value) == s
  {
    if s == "default" then Some(Default)
    else if s == "blue" then Some(Blue)
    else if s == "green" then Some(Green)
    else if s == "red" then Some(Red)
    else if s == "pink" then Some(Pink)
    else if s == "yellow" then Some(Yellow)
    else if s == "userColor1" then Some(UserColor1)
    else if s == "userColor2" then Some(UserColor2)
    else None
  }

  function ParseShape(s: string): (r: Option<HatShape>)
    ensures r.Some? ==> ShapeName(r.value) == s
  {
    if s == "ex" then Some(Ex)
    else if s == "fox" then Some(Fox)
    else if s == "wing" then Some(Wing)
    else if s == "hole" then Some(Hole)
    else if s == "frame" then Some(Frame)
    else if s == "curve" then Some(Curve)
    else if s == "eye" then Some(Eye)
    else if s == "play" then Some(Play)
    else if s == "bolt" then Some(Bolt)
    else if s == "crosshairs" then Some(Crosshairs)
    else None
  }

  /** Reads a hat style name: a colour alone, or a colour, "-" and a shape. */
  function ParseStyleName(s: string): (r: Option<HatStyleName>)
    ensures r.Some? ==> StyleName(r.value) == s
  {
    match IndexOf(s, '-')
    case None =>
      (match ParseColor(s)
       case None => None
       case Some(c) => Some(HatStyleName(c, None)))
    case Some(i) =>
      assert s == s[..i] + "-" + s[i + 1..];
      (match (ParseColor(s[..i]), ParseShape(s[i + 1..]))
       case (Some(c), Some(sh)) => Some(HatStyleName(c, Some(sh)))
       case _ => None)
  }

  lemma ColorRoundTrip(c: HatColor)
    ensures ParseColor(ColorName(c)) == Some(c)
    ensures '-' !in ColorName(c) && '.' !in ColorName(c)
  {
  }

  lemma ShapeRoundTrip(s: HatShape)
    ensures ParseShape(ShapeName(s)) == Some(s)
    ensures '-' !in ShapeName(s) && '.' !in ShapeName(s)
  {
  }

  /** Every style name reads back as that style, and no style name contains ".". */
  lemma StyleNameRoundTrip(h: HatStyleName)
    ensures ParseStyleName(StyleName(h)) == Some(h)
    ensures '.' !in StyleName(h)
  {
    ColorRoundTrip(h.color);
    match h.shape
    case None =>
      BareColorParses(ColorName(h.color), h.color);
    case Some(sh) =>
      ShapeRoundTrip(sh);
      ShapedColorParses(ColorName(h.color), ShapeName(sh), h.color, sh);
  }

  lemma BareColorParses(cn: string, c: HatColor)
    requires '-' !in cn && ParseColor(cn) == Some(c)
    ensures ParseStyleName(cn) == Some(HatStyleName(c, None))
  {
  }

  lemma ShapedColorParses(cn: string, sn: string, c: HatColor, sh: HatShape)
    requires '-' !in cn && '.' !in cn && '.' !in sn
    requires ParseColor(cn) == Some(c) && ParseShape(sn) == Some(sh)
    ensures ParseStyleName(cn + "-" + sn) == Some(HatStyleName(c, Some(sh)))
    ensures '.' !in cn + "-" + sn
  {
    var s := cn + "-" + sn;
    var i := IndexOfAfterPrefix(cn, "-" + sn, '-');
    assert s == cn + ("-" + sn);
    assert s[..i] == cn && s[i + 1..] == sn;
  }

  /** The strings accepted as style names are exactly the names of styles. */
  lemma StyleNameForms(s: string)
    ensures ParseStyleName(s).Some? <==> exists h :: StyleName(h) == s
  {
    if h :| StyleName(h) == s {
      StyleNameRoundTrip(h);
    }
  }

  // ---------------------------------------------------------------------------
  // Marks

  datatype LineNumberType = Absolute | Relative | Modulo100

  datatype Mark =
    | CursorMark
    | ThatMark
    | SourceMark
    | DecoratedSymbol(symbolColor: HatStyleName, character: string)
    | NothingMark
    | LineNumber(lineNumberType: LineNumberType, lineNumber: int)
    /** A range between two marks, with optional exclusion of either end. */
    | RangeMark(anchor: Mark, active: Mark, excludeAnchor: Option<bool>, excludeActive: Option<bool>)

  // ---------------------------------------------------------------------------
  // Scope types

  datatype SurroundingPairName =
    // simple pairs
    | AngleBrackets | BacktickQuotes | CurlyBrackets | DoubleQuotes | EscapedDoubleQuotes
    | EscapedParentheses | EscapedSquareBrackets | EscapedSingleQuotes | Parentheses
    | SingleQuotes | SquareBrackets
    // complex pairs
    | StringPair | AnyPair | CollectionBoundary

  datatype SimpleScopeTypeType =
    | ArgumentOrParameter | AnonymousFunction | Attribute | Class | ClassName
    | CollectionItem | CollectionKey | Comment | FunctionCall | FunctionCallee
    | FunctionName | IfStatement | List | Map | Name | NamedFunction
    | RegularExpression | Statement | String | Type | Value | Condition
    | Section | SectionLevelOne | SectionLevelTwo | SectionLevelThree
    | SectionLevelFour | SectionLevelFive | SectionLevelSix | Selector
    | SwitchStatementSubject | Unit | XmlBothTags | XmlElement | XmlEndTag | XmlStartTag
    // LaTeX
    | Part | Chapter | SubSection | SubSubSection | NamedParagraph | SubParagraph | Environment
    // text based
    | Token | Line | NotebookCell | Paragraph | DocumentScope | Character | Word
    | Identifier | NonWhitespaceSequence | BoundedNonWhitespaceSequence | Url

  datatype SurroundingPairDirection = Left | Right

  datatype ScopeType =
    | SimpleScopeType(simpleType: SimpleScopeTypeType)
    | SurroundingPairScopeType(delimiter: SurroundingPairName,
                               forceDirection: Option<SurroundingPairDirection>,
                               requireStrongContainment: Option<bool>)
    | CustomRegex(regex: string)
    | OneOf(scopeTypes: seq<ScopeType>)

  /** The `type` string of a simple scope type. */
  function SimpleTypeName(t: SimpleScopeTypeType): string {
    match t
    case ArgumentOrParameter => "argumentOrParameter"
    case AnonymousFunction => "anonymousFunction"
    case Attribute => "attribute"
    case Class => "class"
    case ClassName => "className"
    case CollectionItem => "collectionItem"
    case CollectionKey => "collectionKey"
    case Comment => "comment"
    case FunctionCall => "functionCall"
    case FunctionCallee => "functionCallee"
    case FunctionName => "functionName"
    case IfStatement => "ifStatement"
    case List => "list"
    case Map => "map"
    case Name => "name"
    case NamedFunction => "namedFunction"
    case RegularExpression => "regularExpression"
    case Statement => "statement"
    case String => "string"
    case Type => "type"
    case Value => "value"
    case Condition => "condition"
    case Section => "section"
    case SectionLevelOne => "sectionLevelOne"
    case SectionLevelTwo => "sectionLevelTwo"
    case SectionLevelThree => "sectionLevelThree"
    case SectionLevelFour => "sectionLevelFour"
    case SectionLevelFive => "sectionLevelFive"
    case SectionLevelSix => "sectionLevelSix"
    case Selector => "selector"
    case SwitchStatementSubject => "switchStatementSubject"
    case Unit => "unit"
    case XmlBothTags => "xmlBothTags"
    case XmlElement => "xmlElement"
    case XmlEndTag => "xmlEndTag"
    case XmlStartTag => "xmlStartTag"
    case Part => "part"
    case Chapter => "chapter"
    case SubSection => "subSection"
    case SubSubSection => "subSubSection"
    case NamedParagraph => "namedParagraph"
    case SubParagraph => "subParagraph"
    case Environment => "environment"
    case Token => "token"
    case Line => "line"
    case NotebookCell => "notebookCell"
    case Paragraph => "paragraph"
    case DocumentScope => "document"
    case Character => "character"
    case Word => "word"
    case Identifier => "identifier"
    case NonWhitespaceSequence => "nonWhitespaceSequence"
    case BoundedNonWhitespaceSequence => "boundedNonWhitespaceSequence"
    case Url => "url"
  }

  /** The `type` field of a scope type, as error messages report it. */
  function ScopeTypeName(s: ScopeType): string {
    match s
    case SimpleScopeType(t) => SimpleTypeName(t)
    case SurroundingPairScopeType(_, _, _) => "surroundingPair"
    case CustomRegex(_) => "customRegex"
    case OneOf(_) => "oneOf"
  }

  // ---------------------------------------------------------------------------
  // Modifiers

  datatype Direction = Forward | Backward

  datatype PositionName = Before | After | StartOf | EndOf

  datatype HeadTailType = ExtendThroughStartOf | ExtendThroughEndOf

  datatype Modifier =
    | PositionModifier(position: PositionName)
    | InteriorOnly
    | ExcludeInterior
    | ContainingScope(scopeType: ScopeType, ancestorIndex: Option<int>)
    | EveryScope(scopeType: ScopeType)
    /** `start` counts from the end of the iteration scope when negative; `length` is positive. */
    | OrdinalScope(scopeType: ScopeType, start: int, length: int)
    /** `offset` and `length` both go in `direction`. */
    | RelativeScope(scopeType: ScopeType, offset: int, length: int, direction: Direction)
    | HeadTail(headTail: HeadTailType, headTailModifiers: Option<seq<Modifier>>)
    | Leading
    | Trailing
    | RawSelection
    | ModifyIfUntyped(modifier: Modifier)
    | Cascading(modifiers: seq<Modifier>)
    | RangeModifier(anchor: Modifier, active: Modifier, excludeAnchor: Option<bool>, excludeActive: Option<bool>)
    | KeepContentFilter
    | KeepEmptyFilter
    | InferPreviousMark

  // ---------------------------------------------------------------------------
  // Descriptors

  datatype PrimitiveDescriptor =
    PrimitiveDescriptor(mark: Option<Mark>, modifiers: Option<seq<Modifier>>, isImplicit: Option<bool>)

  datatype RangeType = Continuous | Vertical

  datatype RangeDescriptor = RangeDescriptor(
    anchor: PrimitiveDescriptor, active: PrimitiveDescriptor,
    excludeAnchor: bool, excludeActive: bool, rangeType: Option<RangeType>)

  datatype ListElement = PrimitiveElement(primitive: PrimitiveDescriptor) | RangeElement(range: RangeDescriptor)

  datatype TargetDescriptor =
    | PrimitiveTarget(primitive: PrimitiveDescriptor)
    | RangeTarget(range: RangeDescriptor)
    | ListTarget(elements: seq<ListElement>)

  // ---------------------------------------------------------------------------
  // Documented meanings

  /**
   * Whether a surrounding pair spanning `pair` may be used for `selection`: it must
   * contain the selection, and under strong containment neither edge may touch it.
   */
  function PairAccepted(requireStrongContainment: Option<bool>, pair: Range, selection: Range): (ok: bool)
    requires pair.Valid() && selection.Valid()
    ensures ok ==> pair.ContainsRange(selection)
    ensures ok && requireStrongContainment == Some(true) ==>
              pair.start != selection.start && pair.end != selection.end
    ensures requireStrongContainment != Some(true) ==> (ok <==> pair.ContainsRange(selection))
  {
    if requireStrongContainment == Some(true) then
      IsBefore(pair.start, selection.start) && IsBefore(selection.end, pair.end)
    else
      pair.ContainsRange(selection)
  }

  /** Strong containment only ever removes pairs that would otherwise be accepted. */
  lemma StrongContainmentIsStricter(pair: Range, selection: Range)
    requires pair.Valid() && selection.Valid()
    ensures PairAccepted(Some(true), pair, selection) ==> PairAccepted(None, pair, selection)
    ensures pair.start == selection.start ==> !PairAccepted(Some(true), pair, selection)
  {
  }

  /**
   * The outcome of a cascading modifier, given the outcome of trying each listed
   * modifier in turn: the first success, or the last failure when all fail.
   */
  function CascadingOutcome<T>(outcomes: seq<Result<T>>): (r: Result<T>)
    requires |outcomes| > 0
    ensures r.Ok? <==> exists i :: 0 <= i < |outcomes| && outcomes[i].Ok?
    ensures r.Ok? ==> exists i :: 0 <= i < |outcomes| && outcomes[i] == r &&
                                  forall j :: 0 <= j < i ==> outcomes[j].Err?
    ensures r.Err? ==> r == outcomes[|outcomes| - 1]
  {
    if outcomes[0].Ok? || |outcomes| == 1 then outcomes[0]
    else
      var rest := CascadingOutcome(outcomes[1..]);
      assert forall i :: 1 <= i < |outcomes| ==> outcomes[i] == outcomes[1..][i - 1];
      rest
  }
}
