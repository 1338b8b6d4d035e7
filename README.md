# Cursorless target resolution and range bookkeeping, in Dafny

This project models the core of Cursorless, the voice-driven structural
editor. Commands name *targets*: marks such as hats, the cursor or the
source mark, refined by modifiers such as line, paragraph, relative scope,
interior or ordinal. Actions then edit those targets and report "that" and
"source" marks. The model works over an abstract document: a sequence of
lines, positions `(line, character)`, ranges with `start <= end` and
selections `(anchor, active)`.

It covers:

- the selection algebra (direction, that marks, host record conversions);
- the version 3 command descriptors and the version 2 to 3 upgrade;
- placeholder filling in custom command grammars;
- the legacy target pipeline: marks, ranges, subpieces, line, paragraph and
  document contexts, and position adjustment;
- the hat token map with its phrase snapshot;
- the scope-handler contract and the base handler's filtered enumeration
  with early stop;
- the relative-scope, ordinal, interior and line stages;
- the surrounding-pair delimiter table and the adjacent-delimiter search;
- the line, untyped and raw-selection targets and smart removal
  classification;
- tree-sitter node matchers and the node-matcher lookup;
- the selection-update builders;
- the delete, cut, bring/move/swap, replace, wrap, rewrap and
  insert-line-after actions;
- the keyboard token-type key maps and spoken form maps.

Most source files become one module each. Four modules gather small,
closely related files:

- `ScopeHandlers`: `BaseScopeHandler.ts` and `scopeHandler.types.ts`;
- `TargetSequence`: `InteriorStage.ts` and `targetSequenceUtils.ts`;
- `Delimiters`: `delimiterMaps.ts` and
  `findDelimiterPairAdjacentToSelection.ts`;
- `TargetVariants`: `LineTarget.ts`, `RawSelectionTarget.ts`,
  `UntypedTarget.ts` and `getSmartRemovalTarget.ts`.

`Geometry`, `Strings`, `TargetTypes` and `Wrappers` hold the shared
positions, ranges, text helpers, target records and result types that the
other modules use.

- Code that only computes becomes functions and lemmas.
- Code that loops or mutates becomes methods with loop invariants proved
  against those functions. These are the `while` loops of the legacy
  pipeline, the node-matcher loops, `generateScopes`, the `push` loops of
  the actions and `fillPlaceholders`' object loop.
- Objects whose fields are updated in place become classes:
  `IndividualHatMap`, `NavigationMap`, `EditsUpdater`, `CallbackUpdater` and
  the editor whose selections an updater sets.

Helpers that the core calls but whose code is not part of this model are
parameters of the operations that use them. Examples are the range
updater's offset shifting, `shouldReturnScope`, `getPreferredScope`,
`findOppositeDelimiter` and `getTextAdjustPosition`. Each such parameter
carries the contract its call sites rely on.

## Model

| member | source | states |
|---|---|---|
| SelectionUtils.DirectionDichotomy | src/util/selectionUtils.ts:6-12 | a selection is forward exactly when it is not reversed, and an empty selection counts as forward |
| SelectionUtils.SelectionFromPositions | src/util/selectionUtils.ts:32-41 | the new selection runs from start to end when the old one is forward, from end to start otherwise |
| SelectionUtils.SelectionWithEditorFromRange | src/util/selectionUtils.ts:14-30 | keeps the editor, spans exactly the range, and keeps the old selection's direction whenever the range is not empty |
| SelectionUtils.DirectedSelection | src/util/selectionUtils.ts:49-51 | spans the range and is reversed exactly when asked to be, for a non-empty range |
| SelectionUtils.CreateThatMark | src/util/selectionUtils.ts:43-53 | one entry per target, with that target's editor, spanning the range at the same index, from end to start for reversed targets |
| SourceStage.Run | src/processTargets/marks/SourceStage.ts:7-14 | one target per source-mark selection, in order: same editor, content range = the selection, reversed exactly when the active end is before the anchor, token context copied |
| SourceStage.SourceTargetsRecoverSelections | src/processTargets/marks/SourceStage.ts:7-14 | making a that mark from the source targets and their content ranges gives back the source mark exactly, direction included |
| VscodeUtil.ToVscodePosition | src/ide/vscode/VscodeUtil.ts:44-46 | converting a position to the host and back gives the same position |
| VscodeUtil.FromVscodePosition | src/ide/vscode/VscodeUtil.ts:48-50 | keeps line and character |
| VscodeUtil.ToVscodeRange | src/ide/vscode/VscodeUtil.ts:8-15 | converting a range to the host and back gives the same range |
| VscodeUtil.FromVscodeRange | src/ide/vscode/VscodeUtil.ts:17-24 | gives an ordered range whose two ends are exactly the host range's two ends (the range constructor puts them in order) |
| VscodeUtil.HostRangeRoundTrip | src/ide/vscode/VscodeUtil.ts:8-24 | an ordered host range survives the trip to a range and back |
| VscodeUtil.ToVscodeSelection | src/ide/vscode/VscodeUtil.ts:26-33 | the host selection runs from the selection's start to its end, so it is always forward |
| VscodeUtil.FromVscodeSelection | src/ide/vscode/VscodeUtil.ts:35-42 | the converted selection is forward and its anchor and active end are exactly the host selection's two ends: the earlier one becomes the anchor |
| VscodeUtil.SelectionRoundTrip | src/ide/vscode/VscodeUtil.ts:26-42 | a selection survives the trip to the host and back exactly when it is not reversed: the direction is lost |
| VscodeUtil.ToVscodeTextLine | src/ide/vscode/VscodeUtil.ts:52-58 | converting a text line to the host and back gives the same line |
| VscodeUtil.FromVscodeTextLine | src/ide/vscode/VscodeUtil.ts:60-66 | converts both ranges and keeps every other field |
| VscodeUtil.ToVscodeEndOfLine | src/ide/vscode/VscodeUtil.ts:68-70 | gives the host's LF exactly for "LF", CRLF for anything else |
| VscodeUtil.FromVscodeEndOfLine | src/ide/vscode/VscodeUtil.ts:72-74 | gives "LF" or "CRLF", and converting that back gives the same host value |
| VscodeUtil.EndOfLineRoundTrip | src/ide/vscode/VscodeUtil.ts:68-74 | an end-of-line name survives the trip exactly when it is "LF" or "CRLF" |
| Descriptors.ParseColor | src/core/commandRunner/typings/legacy/PartialTargetDescriptorV3.types.ts:1-10 | a string read as a colour is that colour's name |
| Descriptors.ParseShape | src/core/commandRunner/typings/legacy/PartialTargetDescriptorV3.types.ts:12-23 | a string read as a shape is that shape's name |
| Descriptors.ParseStyleName | src/core/commandRunner/typings/legacy/PartialTargetDescriptorV3.types.ts:25-27 | a string read as a hat style is that style's name |
| Descriptors.ColorRoundTrip | src/core/commandRunner/typings/legacy/PartialTargetDescriptorV3.types.ts:1-10 | every colour name reads back as that colour and contains neither "-" nor "." |
| Descriptors.ShapeRoundTrip | src/core/commandRunner/typings/legacy/PartialTargetDescriptorV3.types.ts:12-23 | every shape name reads back as that shape and contains neither "-" nor "." |
| Descriptors.StyleNameRoundTrip | src/core/commandRunner/typings/legacy/PartialTargetDescriptorV3.types.ts:25-27 | every hat style name (colour, or colour-shape) reads back as that style, and contains no "." |
| Descriptors.BareColorParses | src/core/commandRunner/typings/legacy/PartialTargetDescriptorV3.types.ts:27 | a bare colour name is the style of that colour with the default shape |
| Descriptors.ShapedColorParses | src/core/commandRunner/typings/legacy/PartialTargetDescriptorV3.types.ts:27 | "colour-shape" is the style of that colour and shape |
| Descriptors.StyleNameForms | src/core/commandRunner/typings/legacy/PartialTargetDescriptorV3.types.ts:27 | the strings accepted as hat styles are exactly the names of hat styles |
| Descriptors.PairAccepted | src/core/commandRunner/typings/legacy/PartialTargetDescriptorV3.types.ts:169-173 | an accepted pair contains the selection; under strong containment neither edge touches it; without it, acceptance is exactly containment |
| Descriptors.StrongContainmentIsStricter | src/core/commandRunner/typings/legacy/PartialTargetDescriptorV3.types.ts:169-173 | strong containment only removes pairs, and removes every pair sharing the selection's start |
| Descriptors.CascadingOutcome | src/core/commandRunner/typings/legacy/PartialTargetDescriptorV3.types.ts:308-320 | succeeds exactly when some modifier succeeds, with the first success (which error is reported when all fail is listed under Left out) |
| LegacyTargets.GetSelectionsFromMark | src/processTargets.ts:129-157 | the cursor and that marks give the context's selections; a hat gives the one token under it, or fails naming the mark when no token carries it; the last cursor position is not implemented |
| LegacyTargets.WordPieces | src/processTargets.ts:208-216 | one piece per subword match, starting at the match's index and as long as the match |
| LegacyTargets.CollectWordPieces | src/processTargets.ts:208-216 | the loop over the matches produces exactly the subword pieces |
| LegacyTargets.CharacterPieces | src/processTargets.ts:216-221 | one piece per character of the token, the i-th covering offsets i to i+1 |
| LegacyTargets.NormalizeEndIndex | src/processTargets.ts:223-229 | a missing end index means all pieces; zero or negative counts from the end |
| LegacyTargets.NormalizeStartIndex | src/processTargets.ts:231-234 | a negative start index counts from the end |
| LegacyTargets.SubpieceSelection | src/processTargets.ts:223-254 | fails exactly when the normalised indices name no piece; otherwise spans the first piece's start to the last piece's end on the token's line, in the token's direction |
| LegacyTargets.TransformSelection | src/processTargets.ts:159-260 | the identity modifier keeps the selection with an empty context; a containing scope defers to the scope finder; a subpiece succeeds exactly when the subpiece selection over the token's word or character pieces does, and then gives that one selection with an empty context; pair modifiers are not implemented |
| LegacyTargets.TokenPieces | src/processTargets.ts:204-221 | the pieces of the selected token: its subword matches, or one piece per character |
| LegacyTargets.WholeCharacterSubpiece | src/processTargets.ts:204-255 | the character subpiece from the first to the last piece of a one-line token is the token itself, direction included |
| LegacyTargets.CharacterSubpieceSpan | src/processTargets.ts:204-255 | for any character indices i < j within a one-line token, the subpiece runs from the token's start plus i to its start plus j on that line, in the token's direction, with an empty context |
| LegacyTargets.TrailingWhitespaceLength | src/processTargets.ts:407-459 | the length of the maximal whitespace run ending the text |
| LegacyTargets.LeadingWhitespaceLength | src/processTargets.ts:407-459 | the length of the maximal whitespace run starting the text |
| LegacyTargets.TokenSelectionContext | src/processTargets.ts:407-459 | a non-empty context is kept; otherwise it fails only outside the document, a leading delimiter is present exactly when the text before the token on its line is not blank and ends in whitespace, a trailing one exactly when the text after it is not blank and starts with whitespace, both are single-line runs touching the token, and a changed context is a delimited list |
| LegacyTargets.TokenTrailingDelimiterIsWhitespace | src/processTargets.ts:433-459 | there is a trailing delimiter exactly when whitespace follows the token and other text follows later on its line; it is then that non-empty whitespace run, and its text is the list delimiter |
| LegacyTargets.TokenLeadingDelimiterIsWhitespace | src/processTargets.ts:418-431 | there is a leading delimiter exactly when whitespace precedes the token and other text comes earlier on its line; it is then that non-empty whitespace run |
| LegacyTargets.LineSelectionContext | src/processTargets.ts:472-512 | the leading delimiter exists iff there is a line above and runs from its end; the trailing one iff there is a line below and runs to its start; "\n" is the list delimiter exactly when either exists; the outer selection covers the lines whole |
| LegacyTargets.LineDelimitersAreLineBreaks | src/processTargets.ts:472-512 | for whole lines, each line delimiter's text is exactly one line feed |
| LegacyTargets.ParagraphStart | src/processTargets.ts:325-332 | the paragraph's first line: no blank line between it and the given line, and a blank line (or the top) just above |
| LegacyTargets.ParagraphEnd | src/processTargets.ts:333-341 | the paragraph's last line: no blank line between the given line and it, and a blank line (or the bottom) just below |
| LegacyTargets.ParagraphStartUnique | src/processTargets.ts:325-332 | the paragraph start is the only line with those properties |
| LegacyTargets.ParagraphEndUnique | src/processTargets.ts:333-341 | the paragraph end is the only line with those properties |
| LegacyTargets.ScanParagraphStart | src/processTargets.ts:325-332 | the backward loop stops at the paragraph start |
| LegacyTargets.ScanParagraphEnd | src/processTargets.ts:333-341 | the forward loop stops at the paragraph end |
| LegacyTargets.LeadingContextLine | src/processTargets.ts:520-526 | the nearest non-blank line above, or line 0, with only blank lines in between |
| LegacyTargets.TrailingContextLine | src/processTargets.ts:528-535 | the nearest non-blank line below, or the last line, with only blank lines in between |
| LegacyTargets.ScanLeadingContextLine | src/processTargets.ts:520-526 | the loop that steps up before testing stops at the leading context line |
| LegacyTargets.ScanTrailingContextLine | src/processTargets.ts:528-535 | the loop that steps down before testing stops at the trailing context line |
| LegacyTargets.ParagraphSelectionContext | src/processTargets.ts:514-565 | delimiters from the end of the nearest non-blank line above and to the start of the nearest one below, each present iff the selection is not at that end of the document; "\n\n" is the list delimiter exactly when either exists |
| LegacyTargets.Redirect | src/processTargets.ts:262-366 | the rebuilt selection has the direction of the original |
| LegacyTargets.CreateTypedSelection | src/processTargets.ts:262-366 | keeps editor and target fields; a token keeps its selection and takes the token context, failing exactly when that does; a line or paragraph spans from the first non-blank character of its (paragraph's) first line to the end of its last line and takes that type's context, failing only outside the document; a document covers everything; a character type is not implemented |
| LegacyTargets.PerformPositionAdjustment | src/processTargets.ts:368-405 | contents keeps the selection; before and after collapse it to its start or end; the position and inside/outside type are the target's |
| LegacyTargets.PositionAdjustmentIdempotent | src/processTargets.ts:368-405 | adjusting twice is adjusting once |
| LegacyTargets.ProcessPrimitiveTarget | src/processTargets.ts:109-127 | every result carries the target's position, selection type and inside/outside type; a failing mark fails the target; with no modifier, a token type and the contents position, the results are the mark's selections one for one (the general values are LegacyTargets.PrimitiveTargetPerSelection) |
| LegacyTargets.ModifierSelections | src/processTargets.ts:113-118 | succeeds exactly when the modifier succeeds on every mark selection |
| LegacyTargets.ModifierSelectionsFlatten | src/processTargets.ts:113-118 | mapping the modifier over the mark selections and concatenating gives the modifier's selections in mark order, failing exactly when one mapping fails |
| LegacyTargets.PrimitiveTargetPerSelection | src/processTargets.ts:109-127 | for any modifier, selection type and position: fails exactly when the modifier or the typing of one of its selections fails; otherwise result i is the modifier's i-th selection, typed with its context and adjusted to the target's position |
| LegacyTargets.OneSelectionPerMark | src/processTargets.ts:109-127 | when the modifier makes one selection per mark selection, result i comes from mark selection i: typed, then adjusted; failing exactly when one transformation or typing fails |
| LegacyTargets.IdentityPrimitiveTarget | src/processTargets.ts:109-127 | with no modifier, for any selection type and position: fails exactly when typing some mark selection with an empty context fails; otherwise result i is mark selection i typed with an empty context and adjusted to the target's position |
| LegacyTargets.SubpiecePrimitiveTarget | src/processTargets.ts:109-127 | with a subpiece modifier: one result per mark selection, built from the subpiece of that selection's token, typed with an empty context and adjusted; fails exactly when an index names no piece or the typing fails |
| LegacyTargets.IdentityFlatten | src/processTargets.ts:113-119 | with no modifier, flattening the transformed selections gives back the mark selections, each with an empty context |
| LegacyTargets.JoinRange | src/processTargets.ts:60-106 | fails iff the ends are in different editors; otherwise runs from the start target's start to the end target's end (or reversed when the start lies after the end), with the leading delimiter of the earlier target, the trailing one of the later, and the outer selection spanning both |
| LegacyTargets.JoinRangeDirection | src/processTargets.ts:60-106 | the range is reversed iff the end target ends before the start target starts, and always covers from the earlier to the later target |
| LegacyTargets.JoinRanges | src/processTargets.ts:60-106 | succeeds iff every pair shares an editor, joining pair by pair |
| LegacyTargets.ProcessRangeTarget | src/processTargets.ts:49-107 | fails when the two ends give different numbers of selections, and otherwise joins them pairwise; a failing start target fails the range with its own error, and otherwise a failing end target does |
| LegacyTargets.AdjustAll | src/processTargets.ts:39-45 | the inside/outside adjustment is applied to each selection |
| LegacyTargets.ListConcatenates | src/processTargets.ts:33-37 | a list succeeds iff both of its parts do, with the first part's selections before the second's |
| LegacyTargets.SingletonList | src/processTargets.ts:33-37 | a one-element list is its element |
| LegacyTargets.ProcessTargets | src/processTargets.ts:21-26 | succeeds iff every target does, one result per target, in order |
| LegacyTargets.ProcessSingleTarget | src/processTargets.ts:28-47 | a range or primitive target succeeds exactly when its range or primitive processing does, and then gives that processing's selections with the inside/outside adjustment applied to each, in order |
| LegacyTargets.ProcessElements | src/processTargets.ts:33-37 | a list target succeeds exactly when every element does; an empty list gives no selections |
| NavigationMap.GetKey | src/core/NavigationMap.ts:22-24 | the key is the style name, a ".", then the character |
| NavigationMap.SplitKey | src/core/NavigationMap.ts:26-34 | fails exactly when the key has no "."; otherwise the style part has no "." and the character is never empty |
| NavigationMap.KeyRoundTrip | src/core/NavigationMap.ts:22-34 | splitting the key of a style and a single character gives back that style's name and that character, "." included, and the name parses back to the style |
| NavigationMap.KeysDistinct | src/core/NavigationMap.ts:22-24 | different (style, character) pairs never share a key |
| NavigationMap.IndividualHatMap.constructor | src/core/NavigationMap.ts:110-118 | a new map has no tokens, no token lists and no registrations |
| NavigationMap.IndividualHatMap.GetToken | src/core/NavigationMap.ts:158-160 | the token stored under the hat's key, absent when there is none |
| NavigationMap.IndividualHatMap.GetDocumentTokenList | src/core/NavigationMap.ts:120-133 | an existing list is returned and nothing changes; a missing one is created empty and registered once |
| NavigationMap.IndividualHatMap.AddTokenByKey | src/core/NavigationMap.ts:149-152 | binds the key to the token and appends the token to its document's list, registering that list only if it is new |
| NavigationMap.IndividualHatMap.AddToken | src/core/NavigationMap.ts:154-156 | afterwards the hat reads back as the new token and no other key changes; the token is appended to its document's list, and a document without a list gets a new one, registered once |
| NavigationMap.IndividualHatMap.Clear | src/core/NavigationMap.ts:162-166 | empties the map and the lists and runs every recorded deregistration, which stay recorded |
| NavigationMap.IndividualHatMap.Dispose | src/core/NavigationMap.ts:168-170 | runs every recorded deregistration and changes no entry |
| NavigationMap.IndividualHatMap.CopyEntry | src/core/NavigationMap.ts:138-140 | one step of the clone adds an entry of the source while the copy's lists stay drawn from the source |
| NavigationMap.IndividualHatMap.Clone | src/core/NavigationMap.ts:135-143 | a fresh map with the same entries, whose lists hold only those entries' tokens, one list per document they lie in |
| NavigationMap.Appended | src/core/NavigationMap.ts:149-152 | appending a token adds its document to the lists' documents |
| NavigationMap.DrawnFromAppend | src/core/NavigationMap.ts:149-152 | appending a token of the map keeps every listed token drawn from the map |
| NavigationMap.UrisOfAdd | src/core/NavigationMap.ts:149-152 | adding a new entry adds exactly its document to the documents of the map |
| NavigationMap.NavigationMap.constructor | src/core/NavigationMap.ts:16-20 | starts with an empty active map, no snapshot and no signal version seen |
| NavigationMap.NavigationMap.TakeSnapshot | src/core/NavigationMap.ts:91-97 | the old snapshot is disposed and a fresh clone of the active map replaces it |
| NavigationMap.NavigationMap.MaybeTakeSnapshot | src/core/NavigationMap.ts:76-89 | only a signal whose version changed does anything: the version is recorded, and a snapshot is taken when the version is present |
| NavigationMap.NavigationMap.GetIndividualMap | src/core/NavigationMap.ts:44-66 | the snapshot exactly when one is requested, a version has been seen and a snapshot exists; otherwise the active map |
| NavigationMap.NavigationMap.Dispose | src/core/NavigationMap.ts:68-74 | disposes the active map and any snapshot without changing their entries |
| ScopeHandlers.OverlapsIff | src/processTargets/modifiers/scopeHandlers/scopeHandler.types.ts:61-75 | an empty domain or range overlaps nothing; otherwise overlapping means each starts strictly before the other ends |
| ScopeHandlers.AdjacentScopesTouch | src/processTargets/modifiers/scopeHandlers/scopeHandler.types.ts:35-59 | two scopes meeting at a position both touch it, though neither overlaps the empty range there |
| ScopeHandlers.KeepMinimal | src/processTargets/modifiers/scopeHandlers/scopeHandler.types.ts:50-53 | keeps everything for a non-hierarchical type and exactly the elements with nothing strictly inside them otherwise |
| ScopeHandlers.MinimalExists | src/processTargets/modifiers/scopeHandlers/scopeHandler.types.ts:50-53 | every non-empty set of valid domains has a minimal element |
| ScopeHandlers.KeepMinimalEmpty | src/processTargets/modifiers/scopeHandlers/scopeHandler.types.ts:50-53 | keeping the minimal elements empties only an empty list |
| ScopeHandlers.SelectionCharacterised | src/processTargets/modifiers/scopeHandlers/scopeHandler.types.ts:35-59 | the filtered and minimised elements are exactly the accepted ones with no accepted one strictly inside, and none only when none is accepted |
| ScopeHandlers.ScopesTouchingPosition | src/processTargets/modifiers/scopeHandlers/scopeHandler.types.ts:35-59 | only scopes of the handler whose domain touches the position |
| ScopeHandlers.ScopesOverlappingRange | src/processTargets/modifiers/scopeHandlers/scopeHandler.types.ts:61-75 | only scopes of the handler whose domain overlaps the range non-emptily |
| ScopeHandlers.IterationScopesTouchingPosition | src/processTargets/modifiers/scopeHandlers/scopeHandler.types.ts:77-105 | only iteration scopes of the handler whose domain touches the position |
| ScopeHandlers.TouchingCharacterised | src/processTargets/modifiers/scopeHandlers/scopeHandler.types.ts:35-59 | a scope is returned exactly when it touches the position and, for a hierarchical type, no other touching scope lies strictly inside it; empty exactly when nothing touches |
| ScopeHandlers.IterationTouchingCharacterised | src/processTargets/modifiers/scopeHandlers/scopeHandler.types.ts:77-105 | the same characterisation for iteration scopes and the iteration type's hierarchy |
| ScopeHandlers.OverlappingCharacterised | src/processTargets/modifiers/scopeHandlers/scopeHandler.types.ts:61-75 | a scope is returned exactly when it overlaps the range (and is minimal for a hierarchical type); empty exactly when nothing overlaps |
| ScopeHandlers.TouchingNeverNested | src/processTargets/modifiers/scopeHandlers/scopeHandler.types.ts:50-53 | for a hierarchical type no returned scope strictly contains another |
| ScopeHandlers.TouchingReturnsBothNeighbours | src/processTargets/modifiers/scopeHandlers/scopeHandler.types.ts:45-47 | for a non-hierarchical type, both scopes adjacent at the position are returned |
| ScopeHandlers.RelativeCandidates | src/processTargets/modifiers/scopeHandlers/scopeHandler.types.ts:107-120 | forward, exactly the scopes starting at or after the position; backward, exactly those ending at or before it |
| ScopeHandlers.ScopeRelativeToPosition | src/processTargets/modifiers/scopeHandlers/scopeHandler.types.ts:107-126 | succeeds exactly when there are at least offset candidates, returning a scope of the handler on the requested side of the position |
| ScopeHandlers.FilterIndex | src/processTargets/modifiers/scopeHandlers/scopeHandler.types.ts:107-120 | every kept candidate is some scope of the handler |
| ScopeHandlers.FilterKeepsOrder | src/processTargets/modifiers/scopeHandlers/scopeHandler.types.ts:107-120 | filtering keeps the scopes' relative order |
| ScopeHandlers.NearestRelativeScope | src/processTargets/modifiers/scopeHandlers/scopeHandler.types.ts:114-116 | offset 1 is the nearest scope: forward no candidate starts earlier, backward none ends later |
| ScopeHandlers.RelativeScopesMoveAway | src/processTargets/modifiers/scopeHandlers/scopeHandler.types.ts:114-116 | a further offset gives a scope no nearer to the position |
| ScopeHandlers.Previous | src/processTargets/modifiers/scopeHandlers/BaseScopeHandler.ts:104-128 | there is no previous candidate exactly at the first one |
| ScopeHandlers.StopIndex | src/processTargets/modifiers/scopeHandlers/BaseScopeHandler.ts:124-126 | the candidates looked at run up to and including the first that allows an early stop, or all of them |
| ScopeHandlers.CanStopEarly | src/processTargets/modifiers/scopeHandlers/BaseScopeHandler.ts:132-170 | a hierarchical handler never stops early, and a non-hierarchical one only when containment is required or a distal position is given |
| ScopeHandlers.GeneratedScopes | src/processTargets/modifiers/scopeHandlers/BaseScopeHandler.ts:98-130 | never yields more scopes than there are candidates |
| ScopeHandlers.Yielded | src/processTargets/modifiers/scopeHandlers/BaseScopeHandler.ts:106-122 | no more scopes are yielded than candidates looked at |
| ScopeHandlers.YieldedAtIndices | src/processTargets/modifiers/scopeHandlers/BaseScopeHandler.ts:106-122 | each yielded scope is the candidate at its index |
| ScopeHandlers.YieldedIndicesExact | src/processTargets/modifiers/scopeHandlers/BaseScopeHandler.ts:106-128 | the yielded scopes are a subsequence of the candidates, and a candidate is kept exactly when the filter accepts it given the candidate before it |
| ScopeHandlers.GenerateScopes | src/processTargets/modifiers/scopeHandlers/BaseScopeHandler.ts:98-130 | the loop yields exactly the specified scopes: the accepted candidates up to the first early stop |
| ScopeHandlers.HierarchicalNeverStopsEarly | src/processTargets/modifiers/scopeHandlers/BaseScopeHandler.ts:140-143 | a hierarchical handler looks at every candidate |
| ScopeHandlers.StopAfterTrigger | src/processTargets/modifiers/scopeHandlers/BaseScopeHandler.ts:112-126 | the candidate that allows the stop is the last one looked at, and is the last scope yielded when the filter accepts it |
| ScopeHandlers.Reverse | src/processTargets/modifiers/scopeHandlers/BaseScopeHandler.ts:63-68 | reverses the order of the scopes |
| ScopeHandlers.NonHierarchicalCandidates | src/processTargets/modifiers/scopeHandlers/BaseScopeHandler.ts:44-68 | forward, exactly the scopes ending at or after the position; backward, exactly those starting at or before it |
| ScopeHandlers.ReverseMembers | src/processTargets/modifiers/scopeHandlers/BaseScopeHandler.ts:63-68 | reversing keeps the same scopes |
| ScopeHandlers.ForwardCandidatesOrdered | src/processTargets/modifiers/scopeHandlers/BaseScopeHandler.ts:44-49 | for scopes in document order, the forward candidates come by domain end |
| ScopeHandlers.BackwardCandidatesOrdered | src/processTargets/modifiers/scopeHandlers/BaseScopeHandler.ts:63-68 | for scopes in document order, the backward candidates come latest start first |
| ScopeHandlers.InDocumentOrderAt | src/processTargets/modifiers/scopeHandlers/BaseScopeHandler.ts:44-68 | document order holds for any two scopes of the handler |
| RelativeScope.Index0Scopes | src/processTargets/modifiers/RelativeScopeStage.ts:165-179 | for an empty range at most one scope, touching its position; otherwise only scopes overlapping the range |
| RelativeScope.Index0ScopesCharacterised | src/processTargets/modifiers/RelativeScopeStage.ts:165-179 | an empty range has no index-0 scope exactly when no scope touches it; a non-empty one has exactly the (minimal) overlapping scopes |
| RelativeScope.Index0DistalPosition | src/processTargets/modifiers/RelativeScopeStage.ts:146-153 | forward, the end of the last index-0 scope; backward, the start of the first |
| RelativeScope.InitialPosition | src/processTargets/modifiers/RelativeScopeStage.ts:64-73 | past the index-0 scopes when there are several, or one that does not hold the range with a margin; otherwise the range's end (forward) or start (backward) |
| RelativeScope.SkipIndex0Scopes | src/processTargets/modifiers/RelativeScopeStage.ts:64-67 | the index-0 scopes are skipped only when there is at least one |
| RelativeScope.HandleNotIncludingIntersecting | src/processTargets/modifiers/RelativeScopeStage.ts:34-96 | fails only for too few scopes; one scope gives a scope target, more give a range target, in the input's direction |
| RelativeScope.NotIncludingIntersectingPlacement | src/processTargets/modifiers/RelativeScopeStage.ts:75-95 | the proximal scope is the offset-th scope from the initial position and the distal one lies beyond it in the same direction; it fails exactly when either search runs out |
| RelativeScope.HandleIncludingIntersecting | src/processTargets/modifiers/RelativeScopeStage.ts:98-136 | no index-0 scope is "no containing scope", more than the length is "too few scopes"; otherwise a range target starting at the nearest index-0 scope |
| RelativeScope.IncludingIntersectingDistal | src/processTargets/modifiers/RelativeScopeStage.ts:123-133 | the distal scope is the far index-0 scope when they are exactly enough, otherwise the right number of scopes beyond them |
| RelativeScope.RunNew | src/processTargets/modifiers/RelativeScopeStage.ts:28-32 | offset 0 includes the intersecting scopes, any other offset skips them; one target results |
| RelativeScope.Run | src/processTargets/modifiers/RelativeScopeStage.ts:19-26 | the token scope type takes the new path; every other type gives the legacy implementation's targets one for one |
| LineStage.FitRangeToLineContent | src/processTargets/modifiers/LineStage.ts:56-68 | succeeds exactly when both lines exist, giving a range within the document |
| LineStage.FittedRangeTrimsWhitespace | src/processTargets/modifiers/LineStage.ts:56-68 | the fitted range keeps the lines and starts at the first and ends after the last non-whitespace character |
| LineStage.BlankLineFitsWholeLine | src/processTargets/modifiers/LineStage.ts:56-68 | on a whitespace-only line the fitted range is the whole line |
| LineStage.GetLineContext | src/processTargets/modifiers/LineStage.ts:27-54 | the removal range is the lines whole; the leading delimiter exists iff there is a line above and the trailing one iff there is a line below; the delimiter is a line feed |
| LineStage.LineContextDelimitersAreLineBreaks | src/processTargets/modifiers/LineStage.ts:27-54 | the removal range holds the input and each delimiter range is exactly one line feed |
| LineStage.Run | src/processTargets/modifiers/LineStage.ts:13-24 | keeps editor and direction, fits the content to the lines and takes the line context of that content |
| LineStage.RunCoversWholeLines | src/processTargets/modifiers/LineStage.ts:13-54 | the removal range runs from column 0 of the first line to the end of the last and holds the content |
| TargetSequence.AssertIndices | packages/cursorless-engine/src/processTargets/modifiers/targetSequenceUtils.ts:13-21 | passes exactly when the start is not negative and the end indexes an existing target; otherwise out of range |
| TargetSequence.CreateRangeTargetFromIndices | packages/cursorless-engine/src/processTargets/modifiers/targetSequenceUtils.ts:32-51 | fails when the bounds check does or a target is missing; equal indices give that target, others the continuous range from the start target to the end target, both ends included |
| TargetSequence.JsSlice | packages/cursorless-engine/src/processTargets/modifiers/targetSequenceUtils.ts:61 | JavaScript's `slice`: the elements from the start bound to the end bound, each bound counted back from the end when negative and clamped to the list, or none |
| TargetSequence.SliceTargetsByIndices | packages/cursorless-engine/src/processTargets/modifiers/targetSequenceUtils.ts:54-62 | fails exactly as the bounds check does; otherwise the targets from start to end inclusive, in order; none for an end from -1 up to below the start; an end below -1 counts back from the end of the list |
| TargetSequence.NegativeEndCountsFromEnd | packages/cursorless-engine/src/processTargets/modifiers/targetSequenceUtils.ts:54-62 | an end index of -k (k at least 2) gives the targets from the start up to, and leaving out, the last k - 1 |
| TargetSequence.SingleSliceIsRangeTarget | packages/cursorless-engine/src/processTargets/modifiers/targetSequenceUtils.ts:32-62 | the slice of one index is the range target of that index |
| TargetSequence.SliceEndsAreRangeEnds | packages/cursorless-engine/src/processTargets/modifiers/targetSequenceUtils.ts:32-62 | the slice begins and ends with the targets the range target joins |
| TargetSequence.GetEveryScopeTargets | packages/cursorless-engine/src/processTargets/modifiers/targetSequenceUtils.ts:64-74 | the output of the every-scope stage for the scope type, run on the target, passed on unchanged |
| TargetSequence.InteriorOnly | packages/cursorless-engine/src/processTargets/modifiers/InteriorStage.ts:16-29 | a target's own interior when it has one, otherwise the containing interior scope |
| TargetSequence.ContainingPairIfNoBoundary | packages/cursorless-engine/src/processTargets/modifiers/InteriorStage.ts:50-61 | a target without a boundary becomes its containing surrounding pair; one with a boundary passes unchanged |
| TargetSequence.Boundaries | packages/cursorless-engine/src/processTargets/modifiers/InteriorStage.ts:43-47 | each target's boundary, in order |
| TargetSequence.ExcludeInterior | packages/cursorless-engine/src/processTargets/modifiers/InteriorStage.ts:43-47 | succeeds exactly when the conditional stage does and every target it produces has a boundary, giving those boundaries flattened in order |
| TargetSequence.ExcludeInteriorOfBoundedTarget | packages/cursorless-engine/src/processTargets/modifiers/InteriorStage.ts:43-61 | a target that knows its boundary is replaced by exactly that boundary |
| TargetVariants.LineContentRemovalRange | src/processTargets/targets/LineTarget.ts:26-31 | from column 0 of the content's first line to the end of its last line, a range of the document holding the content |
| TargetVariants.LineRemovalHighlightRange | src/processTargets/targets/LineTarget.ts:41-43 | a line target highlights its content range, not its removal range |
| TargetVariants.LineCloneParameters | src/processTargets/targets/LineTarget.ts:73-75 | a line target is rebuilt from its state alone |
| TargetVariants.LineContinuousRangeTarget | src/processTargets/targets/LineTarget.ts:45-71 | towards a line or paragraph target, a line target in the requested direction over the continuous line range; towards anything else, the weak range target |
| TargetVariants.NewUntypedTarget | packages/cursorless-engine/src/processTargets/targets/UntypedTarget.ts:26-30 | keeps the parameters and the explicit-range flag; the type is the given one, "token" by default |
| TargetVariants.UntypedRemovalRange | packages/cursorless-engine/src/processTargets/targets/UntypedTarget.ts:38-43 | a whitespace-only target is removed alone; any other with its token delimiters |
| TargetVariants.UntypedMaybeCreateRichRangeTarget | packages/cursorless-engine/src/processTargets/targets/UntypedTarget.ts:45-50 | never builds a rich range target |
| TargetVariants.UntypedCloneParameters | packages/cursorless-engine/src/processTargets/targets/UntypedTarget.ts:52-58 | the clone parameters rebuild the same untyped target |
| TargetVariants.RawSelectionBehaviour | packages/cursorless-engine/src/processTargets/targets/RawSelectionTarget.ts:10-18 | no insertion delimiter, raw and not a token, no delimiter targets, removal is exactly the content |
| TargetVariants.RawCloneParameters | packages/cursorless-engine/src/processTargets/targets/RawSelectionTarget.ts:20-21 | a raw selection target is rebuilt from its state alone |
| TargetVariants.RangeTrimmed | packages/cursorless-engine/src/processTargets/targets/util/insertionRemovalBehaviors/getSmartRemovalTarget.ts:46-55 | absent exactly for a blank line; otherwise a one-line range of that line |
| TargetVariants.FirstContentLine | packages/cursorless-engine/src/processTargets/targets/util/insertionRemovalBehaviors/getSmartRemovalTarget.ts:66-72 | the first non-blank line from a given line on, with only blank lines before it |
| TargetVariants.LastContentLine | packages/cursorless-engine/src/processTargets/targets/util/insertionRemovalBehaviors/getSmartRemovalTarget.ts:66-72 | the last non-blank line before a given line, with only blank lines after it |
| TargetVariants.DocumentContentRange | packages/cursorless-engine/src/processTargets/targets/util/insertionRemovalBehaviors/getSmartRemovalTarget.ts:66-72 | present exactly when some line is not blank; then a range of the document spanning trimmed whole lines, with only blank lines before its first line and after its last |
| TargetVariants.UnionWithPrefix | packages/cursorless-engine/src/processTargets/targets/util/insertionRemovalBehaviors/getSmartRemovalTarget.ts:13 | the union of the content range with the prefix range when there is one; it always holds the content range |
| TargetVariants.SmartRemovalTarget | packages/cursorless-engine/src/processTargets/targets/util/insertionRemovalBehaviors/getSmartRemovalTarget.ts:10-44 | keeps editor and direction; a range not spanning trimmed whole lines is a token target; whole lines are the document target when they are all of its content, a paragraph target when bounded by blank lines or the document's edges, and a line target otherwise |
| TargetVariants.DocumentContentIsParagraphShaped | packages/cursorless-engine/src/processTargets/targets/util/insertionRemovalBehaviors/getSmartRemovalTarget.ts:23-37 | the document's content would also pass the paragraph test, so the order of the tests decides it |
| TargetVariants.SmartRemovalKinds | packages/cursorless-engine/src/processTargets/targets/util/insertionRemovalBehaviors/getSmartRemovalTarget.ts:10-44 | the result is always a token, line, paragraph or document target |
| Delimiters.DelimiterToText | src/processTargets/modifiers/surroundingPair/delimiterMaps.ts:3-14 | every delimiter has a non-empty left and right string |
| Delimiters.AnyDelimiterIsEveryName | src/processTargets/modifiers/surroundingPair/delimiterMaps.ts:20-23 | the "any" list holds all ten delimiter names, each once |
| Delimiters.QuotesAreSymmetric | src/processTargets/modifiers/surroundingPair/delimiterMaps.ts:3-14 | a delimiter's two strings are equal exactly for the quote delimiters |
| Delimiters.LeftStringsDistinct | src/processTargets/modifiers/surroundingPair/delimiterMaps.ts:3-14 | no two delimiters share a left string |
| Delimiters.FromEntries | src/processTargets/modifiers/surroundingPair/delimiterMaps.ts:16-18 | the keys are exactly the entries' first components |
| Delimiters.FromEntriesDistinct | src/processTargets/modifiers/surroundingPair/delimiterMaps.ts:16-18 | with distinct keys every entry's value survives |
| Delimiters.DelimiterPairs | src/processTargets/modifiers/surroundingPair/delimiterMaps.ts:16-18 | the table's pairs, in the table's order |
| Delimiters.LeftToRight | src/processTargets/modifiers/surroundingPair/delimiterMaps.ts:16-18 | the map's keys are exactly the left strings, each sent to its own right string |
| Delimiters.TryIndex | src/processTargets/modifiers/surroundingPair/findDelimiterPairAdjacentToSelection.ts:19-43 | an index that does not contain the selection, or whose occurrence has no delimiter info, gives nothing; a found opposite gives the pair; a missing opposite bails exactly when asked to |
| Delimiters.FindDelimiterPairAdjacentToSelection | src/processTargets/modifiers/surroundingPair/findDelimiterPairAdjacentToSelection.ts:10-48 | the index after the initial one is tried first and decides unless it gives nothing; then the initial index |
| Delimiters.SearchAdjacentPair | src/processTargets/modifiers/surroundingPair/findDelimiterPairAdjacentToSelection.ts:16-47 | the loop with its early returns gives exactly the specified pair |
| Delimiters.AdjacentPairContainsSelection | src/processTargets/modifiers/surroundingPair/findDelimiterPairAdjacentToSelection.ts:10-48 | a returned pair comes from one of the two indices, from an occurrence holding the selection and its opposite |
| Delimiters.NoBailFallsBack | src/processTargets/modifiers/surroundingPair/findDelimiterPairAdjacentToSelection.ts:18-47 | without bailing, a first index that finds nothing falls back to the initial index |
| NodeMatchers.Matcher | src/nodeMatchers.ts:7-15 | nothing exactly when the finder finds nothing, otherwise the selector applied to what it finds |
| NodeMatchers.ComposeFindersAppend | src/nodeMatchers.ts:17-33 | composing two lists of finders is running the second on what the first finds |
| NodeMatchers.ComposeFindersFails | src/nodeMatchers.ts:17-33 | the composition fails exactly when some finder fails on what the finders before it found |
| NodeMatchers.ComposedMatcher | src/nodeMatchers.ts:17-33 | the loop gives nothing at the first failing finder, and otherwise the selector applied to the last node found |
| NodeMatchers.FirstMatch | src/nodeMatchers.ts:46-57 | nothing exactly when every matcher fails; otherwise the result of a matcher all of whose predecessors fail |
| NodeMatchers.CascadingMatcher | src/nodeMatchers.ts:46-57 | the loop returns the first match in order |
| NodeMatchers.NotSupportedMatcher | src/nodeMatchers.ts:59-64 | always fails with "Node type not supported" |
| NodeMatchers.FieldSegment | src/nodeMatchers.ts:147-164 | a segment type[field]… has that type and that field |
| NodeMatchers.OptionalSegment | src/nodeMatchers.ts:147-168 | a segment type? has that type, is optional and names no field |
| NodeMatchers.PlainSegment | src/nodeMatchers.ts:147-168 | a bare type is its own type, not optional, with no field |
| NodeMatchers.Parent | src/nodeMatchers.ts:108-122 | a parent comes before its child in the tree |
| NodeMatchers.Ascend | src/nodeMatchers.ts:108-122 | the ascending search ends at the node or an earlier one |
| NodeMatchers.AscendFindsAncestor | src/nodeMatchers.ts:108-122 | the ascending search ends on the node or one of its ancestors |
| NodeMatchers.AscendWithoutOptionalsClimbs | src/nodeMatchers.ts:108-122 | with no optional segment each step climbs to a parent of the segment's type |
| NodeMatchers.ChildrenOfType | src/nodeMatchers.ts:128-130 | only named children of the segment's type ("*" matching any) |
| NodeMatchers.ChildrenOfTypeComplete | src/nodeMatchers.ts:128-130 | every named child of the segment's type is among them |
| NodeMatchers.SearchNodeAscending | src/nodeMatchers.ts:108-122 | the loop from the second-to-last segment leftwards gives the ascending search's result |
| NodeMatchers.SearchNodeDescending | src/nodeMatchers.ts:124-141 | the loop over the later segments succeeds exactly as the descending search does, returning the starting node |
| NodeMatchers.ApplyField | src/nodeMatchers.ts:95-101 | the field child, when the first segment names a field, is a node of the tree |
| NodeMatchers.PatternMatch | src/nodeMatchers.ts:78-106 | a match is always a node of the tree |
| NodeMatchers.SearchNode | src/nodeMatchers.ts:82-94 | the node found by the type test, the ascending or the descending search is a node of the tree |
| NodeMatchers.TryPatternMatch | src/nodeMatchers.ts:78-106 | the method computes the specified pattern match |
| NodeMatchers.SingleTypePattern | src/nodeMatchers.ts:84-86 | a one-type pattern matches exactly the nodes of that type, every node for "*", and gives the node itself |
| NodeMatchers.AscendingTakesPrecedence | src/nodeMatchers.ts:88-94 | a node of the last segment's type is searched upwards even if it also has the first segment's type; without a field the match is the node or an ancestor |
| NodeMatchers.DescendingKeepsTopNode | src/nodeMatchers.ts:92-94 | a descending search returns the node it started from |
| NodeMatchers.FirstPatternMatch | src/nodeMatchers.ts:66-76 | nothing exactly when no pattern matches |
| NodeMatchers.FirstPatternMatchIsFirst | src/nodeMatchers.ts:66-76 | a match found is that of a pattern all of whose predecessors fail |
| NodeMatchers.PatternMatcher | src/nodeMatchers.ts:66-76 | the loop selects the first pattern match in order |
| GetNodeMatcher.LanguageOf | packages/cursorless-engine/src/languages/getNodeMatcher.ts:43-54 | exactly the seven language ids have matchers, and "css" shares the scss table |
| GetNodeMatcher.GetNodeMatcher | packages/cursorless-engine/src/languages/getNodeMatcher.ts:19-41 | an unknown language fails; a missing scope type gives the failing matcher; otherwise the language's matcher, wrapped to include siblings exactly when asked |
| GetNodeMatcher.MatchesOf | packages/cursorless-engine/src/languages/getNodeMatcher.ts:86-88 | empty exactly when no node of the list has a non-empty match |
| GetNodeMatcher.IterateNearestIterableAncestor | packages/cursorless-engine/src/languages/getNodeMatcher.ts:79-95 | the loop from the parent upwards returns the specified nearest matches |
| GetNodeMatcher.NearestIterableFromAncestor | packages/cursorless-engine/src/languages/getNodeMatcher.ts:79-95 | a non-empty result is the sibling matches of some ancestor; an empty one means no ancestor's children match |
| GetNodeMatcher.MatcherIncludeSiblings | packages/cursorless-engine/src/languages/getNodeMatcher.ts:56-77 | no match stays no match; otherwise the sibling matches of every match, and no match when there are none |
| GetNodeMatcher.IncludeSiblings | packages/cursorless-engine/src/languages/getNodeMatcher.ts:65-71 | no matches give no sibling matches |
| GetNodeMatcher.IncludeSiblingsLoop | packages/cursorless-engine/src/languages/getNodeMatcher.ts:65-71 | the loop over the matches concatenates each one's nearest sibling matches |
| GetNodeMatcher.RunMatcher | packages/cursorless-engine/src/languages/getNodeMatcher.ts:30-40 | the failing matcher fails with its scope type; a plain matcher gives its matches; a sibling matcher gives none exactly when the match or its sibling matches are empty |
| UpdateSelections.ExpansionOf | packages/cursorless-engine/src/core/updateSelections/updateSelections.ts:58-73 | the start is closed exactly for closedClosed and closedOpen, the end exactly for closedClosed and openClosed |
| UpdateSelections.ExpansionInjective | packages/cursorless-engine/src/core/updateSelections/updateSelections.ts:58-73 | different behaviours give different boundary pairs |
| UpdateSelections.GetSelectionInfoInternal | packages/cursorless-engine/src/core/updateSelections/updateSelections.ts:49-80 | keeps the range, direction and behaviour; the offsets are ordered and the text spans them, being the range's offsets and text for a range inside the document |
| UpdateSelections.GetSelectionInfo | packages/cursorless-engine/src/core/updateSelections/updateSelections.ts:36-47 | the selection's range, forward exactly when the selection is not reversed |
| UpdateSelections.InfoToSelection | packages/cursorless-engine/src/core/updateSelections/updateSelections.ts:114-122 | from start to end when forward, from end to start otherwise |
| UpdateSelections.SelectionInfoRoundTrip | packages/cursorless-engine/src/core/updateSelections/updateSelections.ts:36-122 | a selection comes back from its info unchanged, direction included |
| UpdateSelections.SelectionsToSelectionInfos | packages/cursorless-engine/src/core/updateSelections/updateSelections.ts:90-100 | each selection's info in the same place of the matrix |
| UpdateSelections.RangesToSelectionInfos | packages/cursorless-engine/src/core/updateSelections/updateSelections.ts:102-112 | each range's info, marked not forward, in the same place |
| UpdateSelections.SelectionInfosToSelections | packages/cursorless-engine/src/core/updateSelections/updateSelections.ts:114-122 | each info's selection in the same place |
| UpdateSelections.SelectionMatrixRoundTrip | packages/cursorless-engine/src/core/updateSelections/updateSelections.ts:90-122 | a matrix of selections survives the trip through infos |
| UpdateSelections.RangeMatrixRoundTrip | packages/cursorless-engine/src/core/updateSelections/updateSelections.ts:102-122 | ranges come back as reversed selections over the same ranges |
| UpdateSelections.SelectionGroupInfos | packages/cursorless-engine/src/core/updateSelections/updateSelections.ts:194-204 | each selection's info with its group's behaviour |
| UpdateSelections.RangeGroupInfos | packages/cursorless-engine/src/core/updateSelections/updateSelections.ts:205-214 | each range's info as forward, with its group's behaviour |
| UpdateSelections.UpdateInfos | packages/cursorless-engine/src/core/updateSelections/updateSelections.ts:133-149 | every tracked info is moved by the range updater, in place |
| UpdateSelections.Tracked | packages/cursorless-engine/src/core/updateSelections/updateSelections.ts:133-149 | selection groups then range groups, each element the updated info turned back into a selection |
| UpdateSelections.TrackAndSplit | packages/cursorless-engine/src/core/updateSelections/updateSelections.ts:183-238 | one result group per added group, in call order and of the same sizes, each element its own selection or range tracked with its group's behaviour (ranges as forward infos); the editor's selections come back tracked closedClosed when asked for and untouched otherwise |
| UpdateSelections.TrackAndSplitIdentity | packages/cursorless-engine/src/core/updateSelections/updateSelections.ts:183-238 | when nothing moves, every selection and range and the editor's selections come back unchanged |
| UpdateSelections.TrackAndSplitSelectionsAreTracked | packages/cursorless-engine/src/core/updateSelections/updateSelections.ts:183-238 | the returned selection groups are the tracked groups in call order, and the editor's selections, when asked for, are the group tracked after them: the split undoes the concatenation |
| UpdateSelections.TrackAndSplitRangesAreTracked | packages/cursorless-engine/src/core/updateSelections/updateSelections.ts:183-238 | each returned range is its group's tracked info, at the group's place after the selection groups, turned back into a range |
| UpdateSelections.Editor.constructor | packages/cursorless-engine/src/core/updateSelections/updateSelections.ts:156-160 | an editor with the given document and selections |
| UpdateSelections.EditsUpdater.constructor | packages/cursorless-engine/src/core/updateSelections/updateSelections.ts:151-160 | no groups and no editor tracking at first |
| UpdateSelections.EditsUpdater.Selections | packages/cursorless-engine/src/core/updateSelections/updateSelections.ts:162-168 | appends one selection group and returns the same builder |
| UpdateSelections.EditsUpdater.Ranges | packages/cursorless-engine/src/core/updateSelections/updateSelections.ts:170-176 | appends one range group and returns the same builder |
| UpdateSelections.EditsUpdater.UpdateEditorSelections | packages/cursorless-engine/src/core/updateSelections/updateSelections.ts:178-181 | turns on tracking of the editor's selections |
| UpdateSelections.EditsUpdater.Run | packages/cursorless-engine/src/core/updateSelections/updateSelections.ts:183-239 | fails exactly when the edits are not applied, leaving the editor; otherwise returns the tracked groups and gives the editor its updated selections |
| UpdateSelections.CallbackUpdater.constructor | packages/cursorless-engine/src/core/updateSelections/updateSelections.ts:242-251 | no groups and no editor tracking at first |
| UpdateSelections.CallbackUpdater.Selections | packages/cursorless-engine/src/core/updateSelections/updateSelections.ts:253-259 | appends one selection group and returns the same builder |
| UpdateSelections.CallbackUpdater.Ranges | packages/cursorless-engine/src/core/updateSelections/updateSelections.ts:261-267 | appends one range group and returns the same builder |
| UpdateSelections.CallbackUpdater.UpdateEditorSelections | packages/cursorless-engine/src/core/updateSelections/updateSelections.ts:269-272 | turns on tracking of the editor's selections |
| UpdateSelections.CallbackUpdater.Run | packages/cursorless-engine/src/core/updateSelections/updateSelections.ts:274-329 | returns the tracked groups after the callback and gives the editor its updated selections when tracked |
| DeleteAction.GetRemovalRange | src/actions/Delete.ts:53-60 | the removal range (or content range) joined with the trailing delimiter, else the leading one: it covers both and its ends are theirs |
| DeleteAction.TrailingDelimiterPreferred | src/actions/Delete.ts:55-56 | a trailing delimiter makes the leading one irrelevant and is always removed |
| DeleteAction.ContentRangeIsDefault | src/actions/Delete.ts:54 | without a removal range the content range is removed |
| DeleteAction.DeleteEdits | src/actions/Delete.ts:32-36 | one edit per target, replacing its removal range by the empty string |
| DeleteAction.DeleteInEditor | src/actions/Delete.ts:30-45 | the deletion edits, and a that mark over each removal range as updated, in the target's editor and direction |
| CutToClipboard.OutsideOverflow | src/actions/CutToClipboard.ts:71-83 | the leading part exactly when the outside starts first and the trailing part exactly when it ends later, each non-empty and outside the inside range |
| CutToClipboard.OverflowCoversOutside | src/actions/CutToClipboard.ts:71-83 | for an outside range containing the inside one, a position is in the outside range exactly when it is in the inside range or in one of the overflow parts |
| CutToClipboard.GetOutsideOverflow | src/actions/CutToClipboard.ts:72-83 | the pushed list equals the overflow parts in order |
| CutToClipboard.TargetFlashes | src/actions/CutToClipboard.ts:22-55 | the content flashed as referenced first; then the removal highlight as lines for a line target, or its overflow parts as pending deletion |
| CutToClipboard.CutFlashes | src/actions/CutToClipboard.ts:21-56 | at least one flash per target; the flashes are the targets' own flashes concatenated in target order (CutToClipboard.CutFlashesSingle, CutToClipboard.CutFlashesAppend) |
| CutToClipboard.CutFlashesSingle | src/actions/CutToClipboard.ts:21-56 | one target's flashes are exactly that target's flashes |
| CutToClipboard.CutFlashesAppend | src/actions/CutToClipboard.ts:21-56 | the flashes of two runs of targets are the first run's flashes followed by the second's |
| CutToClipboard.ReferencedInTargetOrder | src/actions/CutToClipboard.ts:21-56 | the referenced flashes are exactly the targets' content ranges, one per target, in target order |
| CutToClipboard.OneReferencedFlashPerTarget | src/actions/CutToClipboard.ts:21-56 | the flashes hold exactly one referenced flash per target, over its content |
| BringMoveSwap.BroadcastSource | src/actions/BringMoveSwap.ts:41-51 | a single source is repeated once per destination for bring and move; otherwise the sources are unchanged |
| BringMoveSwap.GetEdits | src/actions/BringMoveSwap.ts:84-139 | fails with the length-mismatch error exactly when sources and destinations differ in number; otherwise the loop's edits are the pairs' edits in order |
| BringMoveSwap.DestinationEdit | src/actions/BringMoveSwap.ts:95-107 | the destination edit is in the destination's editor, replaces its selection with the source text adjusted to the destination, and is tagged destination (0) |
| BringMoveSwap.SourceEdit | src/actions/BringMoveSwap.ts:109-133 | the source edit is in the source's editor and tagged source (1); swap writes the destination's text over the source's selection, move clears the source's outside range |
| BringMoveSwap.PairEdits | src/actions/BringMoveSwap.ts:95-136 | the destination edit comes first; a second, source, edit is added exactly when the action is not bring and the source is not yet used |
| BringMoveSwap.EditsFromSize | src/actions/BringMoveSwap.ts:84-139 | between one and two edits per remaining pair |
| BringMoveSwap.SourceEditsStep | src/actions/BringMoveSwap.ts:109-134 | the source edits are pair by pair, and each pair marks its source as used unless bringing |
| BringMoveSwap.SourceEditsAreFresh | src/actions/BringMoveSwap.ts:109-134 | bring makes no source edit; every source edit is for a not yet used source of a later pair |
| BringMoveSwap.SourceEditsDistinct | src/actions/BringMoveSwap.ts:110-111 | no source is edited twice |
| BringMoveSwap.DestinationEditOfPair | src/actions/BringMoveSwap.ts:95-107 | every pair has its destination edit: the destination's selection replaced by the adjusted source text, targets index 0 |
| BringMoveSwap.BringEditsDestinationsOnly | src/actions/BringMoveSwap.ts:98-111 | a bring has exactly the destination edits, one per pair, in order |
| BringMoveSwap.UsedSourcesNotEditedAgain | src/actions/BringMoveSwap.ts:110-111 | sources already used get no further edit |
| BringMoveSwap.BroadcastMoveClearsSourceOnce | src/actions/BringMoveSwap.ts:41-134 | a single moved source serving several destinations is cleared exactly once |
| BringMoveSwap.MakeEntry | src/actions/BringMoveSwap.ts:171-192 | the entry covers the edit's new range, in the direction of its original selection, with the typed selection updated to it |
| BringMoveSwap.ThatMarkInEditor | src/actions/BringMoveSwap.ts:141-197 | every edit's entry for swap, only destination entries otherwise, and no other entries; order and multiplicity are BringMoveSwap.ThatMarkInEditorSingle and BringMoveSwap.ThatMarkInEditorAppend |
| BringMoveSwap.ThatMarkInEditorSingle | src/actions/BringMoveSwap.ts:164-196 | one edit gives its own entry when swapping or when it is a destination edit, and nothing otherwise |
| BringMoveSwap.ThatMarkInEditorStep | src/actions/BringMoveSwap.ts:164-196 | the entries of a list of edits are the first edit's entries followed by the rest's |
| BringMoveSwap.ThatMarkInEditorAppend | src/actions/BringMoveSwap.ts:164-196 | the entries of two runs of edits are the first run's entries followed by the second's, so each kept edit contributes exactly one entry, in edit order |
| BringMoveSwap.SwapThatMarkInOrder | src/actions/BringMoveSwap.ts:141-197 | when swapping, the entries follow the editor's edits in order, entry k being edit k's |
| ReplaceAction.TextsFor | packages/cursorless-engine/src/actions/Replace.ts:20-36 | a single text broadcast to every destination, other lists as given, or the decimal numbers from the start |
| ReplaceAction.GetTexts | packages/cursorless-engine/src/actions/Replace.ts:20-36 | the loop fills the numbers so that the texts are those chosen for the destinations |
| ReplaceAction.NumbersCountUp | packages/cursorless-engine/src/actions/Replace.ts:31-35 | the numbers are the decimal texts of consecutive integers, signed exactly when negative, and pairwise different |
| ReplaceAction.ReplaceEdits | packages/cursorless-engine/src/actions/Replace.ts:48-58 | fails with the length error exactly when the texts do not match the destinations; otherwise each destination paired with its text's change edit |
| ReplaceAction.ReplaceFailsOnlyOnTextCount | packages/cursorless-engine/src/actions/Replace.ts:24-52 | only an explicit list of several texts of the wrong length fails |
| ReplaceAction.ContentSelections | packages/cursorless-engine/src/actions/Replace.ts:68-70 | each wrapper's content selection, in order |
| ReplaceAction.EditRanges | packages/cursorless-engine/src/actions/Replace.ts:71 | each edit's range, in order |
| ReplaceAction.Edits | packages/cursorless-engine/src/actions/Replace.ts:67 | each wrapper's edit, in order |
| ReplaceAction.SourceTargets | packages/cursorless-engine/src/actions/Replace.ts:83-88 | each target with its tracked content range |
| ReplaceAction.ThatSelections | packages/cursorless-engine/src/actions/Replace.ts:90-95 | each tracked edit range turned into the changed range, as a forward selection in the editor |
| ReplaceAction.ReplaceTracking | packages/cursorless-engine/src/actions/Replace.ts:66-96 | the targets' content tracked closedClosed, the edit ranges tracked openOpen and the editor's selections tracked, in place |
| ReplaceAction.ReplaceTrackingIdentity | packages/cursorless-engine/src/actions/Replace.ts:66-96 | when the edits move nothing, the targets and editor selections are unchanged and the that mark is each edit's changed range |
| ReplaceAction.PushSourceTargets | packages/cursorless-engine/src/actions/Replace.ts:83-88 | the pushed targets are the targets with their tracked content |
| ReplaceAction.PushThatSelections | packages/cursorless-engine/src/actions/Replace.ts:90-95 | the pushed selections are the that mark |
| ReplaceAction.ReplaceInEditor | packages/cursorless-engine/src/actions/Replace.ts:66-96 | fails exactly when the edits are not applied; otherwise the tracked targets and that mark, and the editor gets its tracked selections |
| WrapAction.TargetBoundary | packages/cursorless-engine/src/actions/Wrap.ts:28-34 | the empty selections at the start and at the end of the target's content |
| WrapAction.WrapEdits | packages/cursorless-engine/src/actions/Wrap.ts:36-46 | two edits per target: `left` inserted at its content start, then `right` at its content end as a replace |
| WrapAction.WrapEditsAlternate | packages/cursorless-engine/src/actions/Wrap.ts:36-46 | every edit inserts at an empty range on a content edge, `left` on even and `right` on odd positions |
| WrapAction.WrapGroups | packages/cursorless-engine/src/actions/Wrap.ts:48-80 | start boundaries openClosed, end boundaries closedOpen, content closedClosed for the source mark and openOpen for the that mark, one selection per target each |
| WrapAction.WrapInEditor | packages/cursorless-engine/src/actions/Wrap.ts:27-106 | the delimiter selections are the tracked start boundaries then the tracked end boundaries; the source and that marks are the content tracked closedClosed and openOpen, in this editor |
| WrapAction.WrapInEditorIdentity | packages/cursorless-engine/src/actions/Wrap.ts:27-106 | when the edits move nothing, the delimiters are the empty boundaries and both marks are the content selections |
| WrapAction.WrapRun | packages/cursorless-engine/src/actions/Wrap.ts:25-112 | one source and one that mark per target, each in the editor of its group |
| RewrapAction.FirstUnpaired | packages/cursorless-engine/src/actions/Rewrap.ts:32-40 | the first target whose boundary is not a pair |
| RewrapAction.BoundaryTargets | packages/cursorless-engine/src/actions/Rewrap.ts:32-40 | succeeds exactly when every target has a two-element boundary, giving two boundaries per target; otherwise fails as the first unpaired target does |
| RewrapAction.BoundariesInTargetOrder | packages/cursorless-engine/src/actions/Rewrap.ts:32-40 | target `i`'s opening delimiter lands at `2i` and its closing one at `2i + 1` |
| RewrapAction.RewrapEdits | packages/cursorless-engine/src/actions/Rewrap.ts:47-51 | each boundary's content replaced by `left` at even and `right` at odd indices |
| RewrapAction.OpeningGetsLeftClosingGetsRight | packages/cursorless-engine/src/actions/Rewrap.ts:32-51 | every target's opening delimiter gets `left` and its closing one `right` |
| RewrapAction.ThatContentRanges | packages/cursorless-engine/src/actions/Rewrap.ts:57 | each target's that-target content range |
| RewrapAction.ContentRanges | packages/cursorless-engine/src/actions/Rewrap.ts:58 | each target's content range |
| RewrapAction.RewrapTracking | packages/cursorless-engine/src/actions/Rewrap.ts:54-65 | the source mark is the that content tracked, the that mark the content tracked, each in its target's editor |
| RewrapAction.RewrapTrackingIdentity | packages/cursorless-engine/src/actions/Rewrap.ts:54-65 | when the edits move nothing, the marks cover the that content and the content |
| RewrapAction.TargetsIn | packages/cursorless-engine/src/actions/Rewrap.ts:44-46 | the targets of one editor: exactly those targets, in order |
| RewrapAction.RewrapAsWrittenDuplicatesMarks | packages/cursorless-engine/src/actions/Rewrap.ts:44-71 | as written, two targets in two editors give four source marks, and the second editor's step marks the first editor's target |
| RewrapAction.StepMarks | packages/cursorless-engine/src/actions/Rewrap.ts:54-65 | a corrected step marks each target of its own editor once, in that editor |
| RewrapAction.RewrapRun | packages/cursorless-engine/src/actions/Rewrap.ts:44-71 | the corrected run gives as many source marks as that marks |
| RewrapAction.StepMarksOwnEditor | packages/cursorless-engine/src/actions/Rewrap.ts:54-65 | tracking only one editor's targets marks only that editor |
| RewrapAction.RewrapRunMarksOwnEditor | packages/cursorless-engine/src/actions/Rewrap.ts:44-71 | the corrected run gives one mark per target of each step's editor, each in a step's editor, source and that marks paired |
| InsertLineAfter.CommandTargetsFrom | packages/cursorless-engine/src/actions/EditNew/runInsertLineAfterTargets.ts:23-33 | only destinations using the insert-line-after command, each with its own index, in increasing index order |
| InsertLineAfter.CommandTargetsFromComplete | packages/cursorless-engine/src/actions/EditNew/runInsertLineAfterTargets.ts:23-33 | every such destination from the starting index is kept |
| InsertLineAfter.CommandTargets | packages/cursorless-engine/src/actions/EditNew/runInsertLineAfterTargets.ts:23-33 | the filtered destinations with their indices, in increasing order |
| InsertLineAfter.CommandTargetsComplete | packages/cursorless-engine/src/actions/EditNew/runInsertLineAfterTargets.ts:23-33 | every destination using the command is kept, with its index |
| InsertLineAfter.SetAt | packages/cursorless-engine/src/actions/EditNew/runInsertLineAfterTargets.ts:65-68 | assigning past the end extends the array with holes up to the index |
| InsertLineAfter.CursorRangesFromSpec | packages/cursorless-engine/src/actions/EditNew/runInsertLineAfterTargets.ts:65-68 | each command target's slot gets the editor selection in its place, and every other slot keeps its value or stays a hole |
| InsertLineAfter.UpdateCursorRanges | packages/cursorless-engine/src/actions/EditNew/runInsertLineAfterTargets.ts:65-68 | the loop's cursor ranges are the specified ones |
| InsertLineAfter.DestinationContentRanges | packages/cursorless-engine/src/actions/EditNew/runInsertLineAfterTargets.ts:55-60 | each destination's content range, in order |
| InsertLineAfter.WithContentRanges | packages/cursorless-engine/src/actions/EditNew/runInsertLineAfterTargets.ts:70-78 | each destination's target given its tracked content range |
| InsertLineAfter.CommandRangeGroups | packages/cursorless-engine/src/actions/EditNew/runInsertLineAfterTargets.ts:55-60 | the destinations' content ranges and the that ranges, both tracked closedClosed |
| InsertLineAfter.StateAfterCommand | packages/cursorless-engine/src/actions/EditNew/runInsertLineAfterTargets.ts:43-78 | the destinations and the that ranges tracked through the command's edits, and the cursor ranges set from the selections after it |
| InsertLineAfter.CommandTargetCursors | packages/cursorless-engine/src/actions/EditNew/runInsertLineAfterTargets.ts:65-68 | each command target's cursor range is the selection at its position after the command |
| InsertLineAfter.StateAfterCommandIdentity | packages/cursorless-engine/src/actions/EditNew/runInsertLineAfterTargets.ts:43-78 | when the command moves nothing, the destinations and that ranges are unchanged |
| InsertLineAfter.RunInsertLineAfterTargets | packages/cursorless-engine/src/actions/EditNew/runInsertLineAfterTargets.ts:20-79 | nothing changes without command targets; otherwise the editor takes the selections after the command and the state becomes the tracked state |
| UpgradeV2ToV3.CreateNewModifier | src/core/commandVersionUpgrades/upgradeV2ToV3/upgradeV2ToV3.ts:74-95 | one scope at the anchor when anchor and active coincide; otherwise a range between two absolute ordinal modifiers with the exclusion flags |
| UpgradeV2ToV3.UpdateModifier | src/core/commandVersionUpgrades/upgradeV2ToV3/upgradeV2ToV3.ts:65-72 | shared modifiers are kept; ordinal ranges become an ordinal scope or a range modifier |
| UpgradeV2ToV3.UpgradeModifiers | src/core/commandVersionUpgrades/upgradeV2ToV3/upgradeV2ToV3.ts:53-63 | each modifier updated in place |
| UpgradeV2ToV3.UpgradePrimitive | src/core/commandVersionUpgrades/upgradeV2ToV3/upgradeV2ToV3.ts:53-63 | mark and implicitness kept; the modifiers updated when present |
| UpgradeV2ToV3.UpgradeRange | src/core/commandVersionUpgrades/upgradeV2ToV3/upgradeV2ToV3.ts:26-51 | both ends upgraded, flags and range type kept |
| UpgradeV2ToV3.UpgradeElement | src/core/commandVersionUpgrades/upgradeV2ToV3/upgradeV2ToV3.ts:26-51 | primitives stay primitives, ranges stay ranges, each upgraded |
| UpgradeV2ToV3.UpgradeTarget | src/core/commandVersionUpgrades/upgradeV2ToV3/upgradeV2ToV3.ts:26-51 | the target keeps its kind and each part is upgraded |
| UpgradeV2ToV3.UpgradeCommand | src/core/commandVersionUpgrades/upgradeV2ToV3/upgradeV2ToV3.ts:18-24 | version 3, the other fields kept, each target upgraded |
| UpgradeV2ToV3.PrimitiveRoundTrip | src/core/commandVersionUpgrades/upgradeV2ToV3/upgradeV2ToV3.ts:53-63 | a version 3 primitive written back as version 2 upgrades to itself |
| UpgradeV2ToV3.UpgradeDowngradeRoundTrip | src/core/commandVersionUpgrades/upgradeV2ToV3/upgradeV2ToV3.ts:26-63 | every version 3 target written back as version 2 upgrades to itself |
| UpgradeV2ToV3.UpdateModifierKeepsScopes | src/core/commandVersionUpgrades/upgradeV2ToV3/upgradeV2ToV3.ts:65-107 | the upgraded modifier selects the same scopes as the ordinal range it replaces |
| FillPlaceholders.Lookup | packages/cursorless-engine/src/customCommandGrammar/fillPlaceholders.ts:29-36 | a value exactly when some field has the key, and then that field's value |
| FillPlaceholders.Keys | packages/cursorless-engine/src/customCommandGrammar/fillPlaceholders.ts:17-23 | the fields' keys in order |
| FillPlaceholders.Fill | packages/cursorless-engine/src/customCommandGrammar/fillPlaceholders.ts:4-27 | arrays keep their length, objects their keys, a placeholder gives the value at its index, and other values are returned unchanged |
| FillPlaceholders.FillItems | packages/cursorless-engine/src/customCommandGrammar/fillPlaceholders.ts:8-10 | filling every item keeps the number of items |
| FillPlaceholders.FillFields | packages/cursorless-engine/src/customCommandGrammar/fillPlaceholders.ts:17-23 | filling every field keeps the keys |
| FillPlaceholders.FillMeaning | packages/cursorless-engine/src/customCommandGrammar/fillPlaceholders.ts:4-27 | filling succeeds exactly when every placeholder's index names a value, and a value without placeholders is returned unchanged |
| FillPlaceholders.FillItemsMeaning | packages/cursorless-engine/src/customCommandGrammar/fillPlaceholders.ts:8-10 | items fill exactly when each item does, each to its own filling |
| FillPlaceholders.FillFieldsMeaning | packages/cursorless-engine/src/customCommandGrammar/fillPlaceholders.ts:17-23 | fields fill exactly when each field's value does, each to its own filling |
| FillPlaceholders.FirstItemFailureStays | packages/cursorless-engine/src/customCommandGrammar/fillPlaceholders.ts:8-10 | the first failing item decides the failure |
| FillPlaceholders.FirstFieldFailureStays | packages/cursorless-engine/src/customCommandGrammar/fillPlaceholders.ts:17-23 | the first failing field decides the failure |
| FillPlaceholders.FillPlaceholders | packages/cursorless-engine/src/customCommandGrammar/fillPlaceholders.ts:4-27 | the procedure computes the specified filling: arrays and objects through their loops, placeholders from the values, anything else unchanged |
| FillPlaceholders.FillArray | packages/cursorless-engine/src/customCommandGrammar/fillPlaceholders.ts:8-10 | the array's map, stopping at the first failure, computes the specified filling of the items |
| FillPlaceholders.FillObject | packages/cursorless-engine/src/customCommandGrammar/fillPlaceholders.ts:17-23 | the loop over the own properties, stopping at the first failure, computes the specified filling of the fields |
| KeyboardKeyMaps.IsIncluded | packages/cursorless-vscode/src/keyboard/getTokenTypeKeyMaps.ts:111-113 | exactly list membership |
| KeyboardKeyMaps.TransformActionDescriptor | packages/cursorless-vscode/src/keyboard/getTokenTypeKeyMaps.ts:93-109 | an entry is kept exactly when its action is accepted; a bare name becomes the full form staying in Cursorless mode, a full form is kept as written |
| KeyboardKeyMaps.TransformIdempotent | packages/cursorless-vscode/src/keyboard/getTokenTypeKeyMaps.ts:93-109 | transforming a transformed entry gives it back |
| KeyboardKeyMaps.WrapAcceptsOnlyWrap | packages/cursorless-vscode/src/keyboard/getTokenTypeKeyMaps.ts:93-109 | with only `wrap` accepted, exactly the wrap entries are kept |
| KeyboardKeyMaps.DigitKeyMap | packages/cursorless-vscode/src/keyboard/getTokenTypeKeyMaps.ts:72-80 | each digit from 0 to 9 keyed by its decimal text, and every key a single decimal digit |
| KeyboardKeyMaps.DigitKeysAreTheirValues | packages/cursorless-vscode/src/keyboard/getTokenTypeKeyMaps.ts:72-80 | the keys are exactly the digits' texts, and each key parses to its value |
| SpokenFormMap.MapSpokenForms | packages/cursorless-engine/src/SpokenFormMap.ts:132-153 | the same types and identifiers, each entry replaced by the mapper's result for it |
| SpokenFormMap.MapEntries | packages/cursorless-engine/src/SpokenFormMap.ts:143-150 | the same identifiers, each entry mapped |
| SpokenFormMap.MapKeepsShape | packages/cursorless-engine/src/SpokenFormMap.ts:36-110 | mapping keeps the shape of a spoken form mapping |
| SpokenFormMap.MapIdentity | packages/cursorless-engine/src/SpokenFormMap.ts:132-153 | mapping with the identity gives the input back |
| SpokenFormMap.MapCompose | packages/cursorless-engine/src/SpokenFormMap.ts:132-153 | mapping twice is mapping once with the composed mapper |

## Left out

- Host I/O is not modelled: async orchestration, applying edits, setting selections, focus, executing host commands, flashes and pending-edit decorations. `CutToClipboard` models only the flashes it computes. Its copy-then-remove sequencing at src/actions/CutToClipboard.ts:58-67 is host orchestration through the copy and remove actions, which are not part of this model.
- Range updating (`RangeUpdater`, `performDocumentEdits`, `computeChangedOffsets`) is not part of this model. An action's tracking step takes a parameter `update` that moves one tracked selection info over the edits, and the lemmas speak of the updates that move nothing. Offset shifting itself is not specified.
- `performEditsAndUpdateSelections`, which the wrap action calls, is not part of this model. `WrapAction.WrapInEditor` tracks its four groups with the same `update` parameter, one group after another.
- `runOnTargetsForEachEditor` and `runForEachEditor` are not part of this model. Their grouping of targets by editor is an input (`EditorTargets`, `EditorBoundaries`), and editor order is not modelled.
- WrapAction.WrapRun states only the number of marks and that each lies in the editor of its group. The per-target content of each editor's marks is stated by `WrapInEditor`.
- Documents are lines joined by line feeds. CRLF documents and the host's end-of-line handling inside a document are not modelled; `VscodeUtil` models the end-of-line conversion itself.
- Whitespace is the ASCII whitespace characters. JavaScript `\s` also matches Unicode spaces, and Dafny strings have no Unicode classes.
- Unseen helpers are parameters carrying the contract their call sites rely on:
  - `runLegacy`, `getPreferredScope`, `shouldReturnScope`, `constructScopeRangeTarget` and `createContinuousRangeTarget`;
  - `findOppositeDelimiter`, `getDelimiterPair`, `getTokenRemovalRange` and `getTokenContext`;
  - `getTextAdjustPosition`, `performOutsideAdjustment` and `constructChangeEdit`;
  - the word-piece matches of the subword matcher, the containing-scope stage and the inside/outside adjustment;
  - the every-scope stage, each language's matcher tables, `simpleKeyboardActionNames`, and the identifiers of each spoken form type.
- Tree-sitter nodes are an arena: a sequence of nodes in which every parent comes before its children. Node construction and field lookup beyond what `nodeMatchers` uses are not modelled.
- `strictlyContains` is not part of this model. `RelativeScope` takes it as strict containment at both edges.
- `getLineLeadingDelimiterRange` and `getLineTrailingDelimiterRange` are not part of this model. Line targets take their delimiter ranges as given.
- LegacyTargets.TransformSelection: a subpiece index that names no piece fails with `OutOfRange`. The source reads past the end of the piece list and fails with a type error instead.
- `lineAt` on a line past the end of the document fails with `OutOfRange` in the model, where the host throws.
- TargetSequence.ExcludeInterior: when the conditional stage gives a target without a boundary, the model fails with `MissingValue`. The source would put `undefined` into its output list.
- `getEveryScopeTargets` only delegates to the every-scope stage, which is a parameter, so it has no contract of its own. The modify-if-condition stage is modelled only as `getContainingSurroundingPairIfNoBoundaryStage` uses it.
- TargetVariants.DocumentContentRange is `None` for a document that is only whitespace. This never changes a classification, because a line target is then impossible.
- SelectionUtils.CreateThatMark requires as many ranges as targets. The source zips the two lists and every caller passes lists of equal length.
- Descriptors.CascadingOutcome: when every modifier fails, the model reports the last modifier's error. This is a modelling choice. The documentation at src/core/commandRunner/typings/legacy/PartialTargetDescriptorV3.types.ts:308-313 says only that the first modifier not throwing wins, and does not say which error escapes when all of them throw.
- Descriptors.CascadingOutcome requires at least one modifier outcome. The descriptor's documentation says nothing about an empty list, and with no modifier there is neither a first output nor a last error to report.
- `UpgradeV2ToV3`: the version 2 descriptor types file is not part of this model. The version 2 shapes are declared from their use in the upgrade, and the upgrade's output reuses the version 3 descriptors. `UpdateModifierKeepsScopes` assumes the exclusion flags are unset when anchor and active coincide, because the upgrade drops them there.
- `FillPlaceholders`: JSON numbers are integers, only own enumerable properties are modelled (an object is its field list), and `indexArrayStrict` is taken to fail on an index outside the values.
- `KeyboardKeyMaps`: the keyboard configuration that supplies the entries is not modelled.
- `SpokenFormMap`: the order of entries in the resulting objects is not modelled, since maps have no order.
- `InsertLineAfter`: the host's insert-line-after command is modelled by its outcome. That outcome is the editor's selections after the command plus the `update` step for the tracked ranges. The branch that sets selections and focuses first is host I/O. A cursor range keeps only the range of the selection stored in it, not its direction.
- `NavigationMap`: registration of token lists with the range updater is modelled as a record of registrations and deregistrations, without the updates themselves.
- Hat rendering, hat allocation, the tokenizer, editor adapters, configuration, language tables and test tooling are outside this model.
- ReplaceAction.Numbers: the start is an integer and each number is its decimal text. The source turns a JavaScript number into text with `toString`, so a fractional start and the exponent form of magnitudes of 1e21 and more are not modelled.

## Findings

| source | as written | input that shows it | evidently intended | confidence | as-written member | corrected member |
|---|---|---|---|---|---|---|
| packages/cursorless-engine/src/actions/Rewrap.ts:54-65 | each editor's step tracks and marks the ranges of all targets, not only those of the editor it runs in | two paired targets in two different editors: the source mark gets four entries, and the second editor's step marks the first editor's target | each step tracks and marks the targets of its own editor, giving one source and one that mark per target | not executed | RewrapAction.RewrapAsWrittenDuplicatesMarks | RewrapAction.RewrapRunMarksOwnEditor |
