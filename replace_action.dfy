/**
 * The replace action: each destination's content is replaced by a text, either
 * from a list of texts (a single text is used for every destination) or the
 * decimal numbers counting up from a start. The edits are made editor by
 * editor; the content selections are tracked closedClosed and the edit ranges
 * openOpen, the targets get their updated content, and the "that" mark is each
 * destination's changed range as a forward selection.
 */
module ReplaceAction {
  import opened Wrappers
  import opened Geometry
  import opened Strings
  import opened TargetTypes
  import opened SelectionUtils
  import opened UpdateSelections

  /** What to insert: explicit texts, or numbers counting up from `start`. */
  datatype ReplaceWith = Texts(texts: seq<string>) | Numbers(start: int)

  /** The texts for `count` destinations, as `getTexts` chooses them. */
  function TextsFor(count: nat, replaceWith: ReplaceWith): (r: seq<string>)
    ensures replaceWith.Texts? && |replaceWith.texts| == 1 ==>
              |r| == count && forall i :: 0 <= i < count ==> r[i] == replaceWith.texts[0]
    ensures replaceWith.Texts? && |replaceWith.texts| != 1 ==> r == replaceWith.texts
    ensures replaceWith.Numbers? ==> |r| == count && forall i :: 0 <= i < count ==> r[i] == IntToString(replaceWith.start + i)
  {
    match replaceWith
    case Texts(texts) => if |texts| == 1 then seq(count, _ => texts[0]) else texts
    case Numbers(start) => seq(count, i => IntToString(start + i))
  }

  /** `getTexts`: a single text is broadcast, other lists are returned as given, numbers are filled in a loop. */
  method GetTexts(count: nat, replaceWith: ReplaceWith) returns (texts: seq<string>)
    ensures texts == TextsFor(count, replaceWith)
  {
    if replaceWith.Texts? {
      if |replaceWith.texts| == 1 {
        return seq(count, _ => replaceWith.texts[0]);
      }
      return replaceWith.texts;
    }
    var numbers: seq<string> := [];
    for i := 0 to count
      invariant |numbers| == i
      invariant forall k :: 0 <= k < i ==> numbers[k] == IntToString(replaceWith.start + k)
    {
      numbers := numbers + [IntToString(replaceWith.start + i)];
    }
    return numbers;
  }

  /**
   * The numbers are the decimal texts of `start`, `start + 1`, ...: a minus
   * sign exactly on the negative ones, and no two destinations get the same text.
   */
  lemma NumbersCountUp(count: nat, start: int)
    ensures var r := TextsFor(count, Numbers(start));
            (forall i :: 0 <= i < count && start + i >= 0 ==> r[i] == NatToString(start + i)) &&
            (forall i :: 0 <= i < count ==> (r[i][0] == '-' <==> start + i < 0)) &&
            (forall i, j :: 0 <= i < j < count ==> r[i] != r[j])
  {
    var r := TextsFor(count, Numbers(start));
    forall i | 0 <= i < count ensures r[i][0] == '-' <==> start + i < 0 {
      SignVisible(start + i);
    }
    forall i, j | 0 <= i < j < count ensures r[i] != r[j] {
      if r[i] == r[j] {
        IntToStringInjective(start + i, start + j);
      }
    }
  }

  /** What a destination's change edit is: the edit, and how it turns the edit range as updated into the changed range. */
  datatype ChangeEdit = ChangeEdit(edit: Edit, updateRange: Range -> Range)

  /** One destination with its text's change edit. */
  datatype EditWrapper = EditWrapper(editor: EditorId, target: Target, change: ChangeEdit)

  /**
   * The edits of `run`: the texts, a length mismatch failing with "Targets and
   * texts must have same length", then each destination paired with its text.
   * `constructChangeEdit` stands for the destination's edit construction, which
   * is not part of this model.
   */
  function ReplaceEdits(destinations: seq<Target>, replaceWith: ReplaceWith,
                        constructChangeEdit: (Target, string) -> ChangeEdit)
    : (r: Result<seq<EditWrapper>>)
    ensures r.Err? <==> |destinations| != |TextsFor(|destinations|, replaceWith)|
    ensures r.Err? ==> r.error == LengthMismatch
    ensures r.Ok? ==> (|r.value| == |destinations| &&
                       forall i :: 0 <= i < |destinations| ==>
                         r.value[i] == EditWrapper(destinations[i].editor, destinations[i],
                                                   constructChangeEdit(destinations[i], TextsFor(|destinations|, replaceWith)[i])))
  {
    var texts := TextsFor(|destinations|, replaceWith);
    if |destinations| != |texts| then Err(LengthMismatch)
    else Ok(seq(|destinations|, i requires 0 <= i < |destinations| =>
              EditWrapper(destinations[i].editor, destinations[i], constructChangeEdit(destinations[i], texts[i]))))
  }

  /** Only an explicit list of several texts whose length differs from the number of destinations fails. */
  lemma ReplaceFailsOnlyOnTextCount(destinations: seq<Target>, replaceWith: ReplaceWith,
                                    constructChangeEdit: (Target, string) -> ChangeEdit)
    ensures ReplaceEdits(destinations, replaceWith, constructChangeEdit).Err? <==>
              replaceWith.Texts? && |replaceWith.texts| != 1 && |replaceWith.texts| != |destinations|
  {
  }

  /** The selection a target's content has: its content range in the target's direction. */
  function ContentSelection(t: Target): (s: Selection)
    requires t.contentRange.Valid()
    ensures s.AsRange() == t.contentRange
  {
    DirectedSelection(t.isReversed, t.contentRange)
  }

  /** A range as a forward selection (`toSelection(false)`). */
  function ForwardSelection(r: Range): (s: Selection)
    ensures s.anchor == r.start && s.active == r.end
  {
    Selection(r.start, r.end)
  }

  predicate WrappersValid(wrappers: seq<EditWrapper>) {
    forall i :: 0 <= i < |wrappers| ==>
      wrappers[i].target.contentRange.Valid() && wrappers[i].change.edit.range.Valid()
  }

  /** What one editor's step produces: the updated targets, the that selections and the editor's new selections. */
  datatype EditorOutcome = EditorOutcome(sourceTargets: seq<Target>, thatSelections: seq<SelectionWithEditor>,
                                         editorSelections: seq<Selection>)

  /** The content selections, tracked as the one selection group. */
  function ContentSelections(wrappers: seq<EditWrapper>): (r: seq<Selection>)
    requires WrappersValid(wrappers)
    ensures |r| == |wrappers| && forall i :: 0 <= i < |r| ==> r[i] == ContentSelection(wrappers[i].target)
  {
    seq(|wrappers|, i requires 0 <= i < |wrappers| => ContentSelection(wrappers[i].target))
  }

  /** The edit ranges, tracked as the one range group. */
  function EditRanges(wrappers: seq<EditWrapper>): (r: seq<Range>)
    ensures |r| == |wrappers| && forall i :: 0 <= i < |r| ==> r[i] == wrappers[i].change.edit.range
  {
    seq(|wrappers|, i requires 0 <= i < |wrappers| => wrappers[i].change.edit.range)
  }

  /** The targets with their tracked content. */
  function SourceTargets(wrappers: seq<EditWrapper>, updatedContentSelections: seq<Selection>): (r: seq<Target>)
    requires |updatedContentSelections| == |wrappers|
    ensures |r| == |wrappers|
    ensures forall i :: 0 <= i < |r| ==>
              r[i] == wrappers[i].target.WithContentRange(updatedContentSelections[i].AsRange())
  {
    seq(|wrappers|, i requires 0 <= i < |wrappers| => wrappers[i].target.WithContentRange(updatedContentSelections[i].AsRange()))
  }

  /** The that mark: each tracked edit range turned into the changed range, as a forward selection. */
  function ThatSelections(editor: EditorId, wrappers: seq<EditWrapper>, updatedEditRanges: seq<Range>)
    : (r: seq<SelectionWithEditor>)
    requires |updatedEditRanges| == |wrappers|
    ensures |r| == |wrappers|
    ensures forall i :: 0 <= i < |r| ==>
              r[i] == SelectionWithEditor(editor, ForwardSelection(wrappers[i].change.updateRange(updatedEditRanges[i])))
  {
    seq(|wrappers|, i requires 0 <= i < |wrappers| =>
      SelectionWithEditor(editor, ForwardSelection(wrappers[i].change.updateRange(updatedEditRanges[i]))))
  }

  /**
   * The per-editor step after the edits: the content selections tracked
   * closedClosed give the targets' new content, the edit ranges tracked
   * openOpen give the that mark, and the editor's selections are tracked too.
   * `update` stands for the range updater moving a tracked info over the edits.
   */
  function ReplaceTracking(doc: HostDocument, editor: EditorId, editorSelections: seq<Selection>,
                           wrappers: seq<EditWrapper>, update: SelectionInfo -> SelectionInfo)
    : (r: EditorOutcome)
    requires WrappersValid(wrappers)
    ensures |r.sourceTargets| == |wrappers| && |r.thatSelections| == |wrappers|
    ensures |r.editorSelections| == |editorSelections|
    ensures forall i :: 0 <= i < |wrappers| ==>
              r.sourceTargets[i] == wrappers[i].target.WithContentRange(
                InfoToSelection(update(GetSelectionInfo(doc, ContentSelection(wrappers[i].target), ClosedClosed))).AsRange())
    ensures forall i :: 0 <= i < |wrappers| ==>
              r.thatSelections[i] == SelectionWithEditor(editor, ForwardSelection(wrappers[i].change.updateRange(
                InfoToSelection(update(GetSelectionInfoInternal(doc, wrappers[i].change.edit.range, true, OpenOpen))).AsRange())))
    ensures forall k :: 0 <= k < |editorSelections| ==>
              r.editorSelections[k] == InfoToSelection(update(GetSelectionInfo(doc, editorSelections[k], ClosedClosed)))
  {
    var selectionGroups := [SelectionsWithBehavior(ContentSelections(wrappers), ClosedClosed)];
    var rangeGroups := [RangesWithBehavior(EditRanges(wrappers), OpenOpen)];
    var (result, newEditorSelections) := TrackAndSplit(doc, selectionGroups, rangeGroups, true, editorSelections, update);
    EditorOutcome(SourceTargets(wrappers, result.selections[0]), ThatSelections(editor, wrappers, result.ranges[0]),
                  newEditorSelections)
  }

  /**
   * When the edits move nothing, the targets come back as they were, the that
   * mark is each edit's changed range as a forward selection in this editor,
   * and the editor keeps its selections.
   */
  lemma ReplaceTrackingIdentity(doc: HostDocument, editor: EditorId, editorSelections: seq<Selection>,
                                wrappers: seq<EditWrapper>)
    requires WrappersValid(wrappers)
    ensures var r := ReplaceTracking(doc, editor, editorSelections, wrappers, info => info);
            (forall i :: 0 <= i < |wrappers| ==> r.sourceTargets[i] == wrappers[i].target) &&
            (forall i :: 0 <= i < |wrappers| ==>
               r.thatSelections[i].editor == editor &&
               r.thatSelections[i].selection == ForwardSelection(wrappers[i].change.updateRange(wrappers[i].change.edit.range))) &&
            r.editorSelections == editorSelections
  {
    var r := ReplaceTracking(doc, editor, editorSelections, wrappers, info => info);
    forall i | 0 <= i < |wrappers| ensures r.sourceTargets[i] == wrappers[i].target {
      SelectionInfoRoundTrip(doc, ContentSelection(wrappers[i].target), ClosedClosed);
    }
    forall k | 0 <= k < |editorSelections| ensures r.editorSelections[k] == editorSelections[k] {
      SelectionInfoRoundTrip(doc, editorSelections[k], ClosedClosed);
    }
  }

  /** The `for ... of zip(...)` loop pushing the updated targets. */
  method PushSourceTargets(wrappers: seq<EditWrapper>, updatedContentSelections: seq<Selection>)
    returns (sourceTargets: seq<Target>)
    requires |updatedContentSelections| == |wrappers|
    ensures sourceTargets == SourceTargets(wrappers, updatedContentSelections)
  {
    sourceTargets := [];
    for i := 0 to |wrappers|
      invariant |sourceTargets| == i
      invariant forall k :: 0 <= k < i ==>
                  sourceTargets[k] == wrappers[k].target.WithContentRange(updatedContentSelections[k].AsRange())
    {
      sourceTargets := sourceTargets + [wrappers[i].target.WithContentRange(updatedContentSelections[i].AsRange())];
    }
  }

  /** The `for ... of zip(...)` loop pushing the that selections. */
  method PushThatSelections(editor: EditorId, wrappers: seq<EditWrapper>, updatedEditRanges: seq<Range>)
    returns (thatSelections: seq<SelectionWithEditor>)
    requires |updatedEditRanges| == |wrappers|
    ensures thatSelections == ThatSelections(editor, wrappers, updatedEditRanges)
  {
    thatSelections := [];
    for i := 0 to |wrappers|
      invariant |thatSelections| == i
      invariant forall k :: 0 <= k < i ==>
                  thatSelections[k] == SelectionWithEditor(editor, ForwardSelection(wrappers[k].change.updateRange(updatedEditRanges[k])))
    {
      thatSelections := thatSelections + [SelectionWithEditor(editor, ForwardSelection(wrappers[i].change.updateRange(updatedEditRanges[i])))];
    }
  }

  /**
   * One editor's step of `run`, with the edits updater: the content
   * selections and edit ranges are tracked through the edits, the editor's
   * selections follow them, and the results are pushed target by target.
   */
  method ReplaceInEditor(editor: Editor, editorId: EditorId, wrappers: seq<EditWrapper>,
                         performEdits: seq<Edit> -> bool, update: SelectionInfo -> SelectionInfo)
    returns (r: Result<(seq<Target>, seq<SelectionWithEditor>)>)
    requires WrappersValid(wrappers)
    modifies editor
    ensures r.Err? <==> !performEdits(Edits(wrappers))
    ensures r.Err? ==> r.error == CouldNotApplyEdits && editor.selections == old(editor.selections)
    ensures r.Ok? ==>
              var outcome := ReplaceTracking(editor.document, editorId, old(editor.selections), wrappers, update);
              r.value == (outcome.sourceTargets, outcome.thatSelections) &&
              editor.selections == outcome.editorSelections
    ensures editor.document == old(editor.document)
  {
    var updater := new EditsUpdater(editor, Edits(wrappers));
    var builder := updater.Selections(ContentSelections(wrappers), ClosedClosed);
    builder := builder.Ranges(EditRanges(wrappers), OpenOpen);
    builder := builder.UpdateEditorSelections();
    var result := builder.Run(performEdits, update);
    if result.Err? {
      return Err(result.error);
    }
    var sourceTargets := PushSourceTargets(wrappers, result.value.selections[0]);
    var thatSelections := PushThatSelections(editorId, wrappers, result.value.ranges[0]);
    return Ok((sourceTargets, thatSelections));
  }

  /** The edits handed to the host. */
  function Edits(wrappers: seq<EditWrapper>): (r: seq<Edit>)
    ensures |r| == |wrappers| && forall i :: 0 <= i < |r| ==> r[i] == wrappers[i].change.edit
  {
    seq(|wrappers|, i requires 0 <= i < |wrappers| => wrappers[i].change.edit)
  }
}
