/**
 * Keeping selections and ranges up to date across edits: each tracked
 * selection becomes a selection info (its range, direction, expansion
 * behaviour at either end, offsets and text), the infos are updated while the
 * edits happen, and are turned back into selections. The updaters collect
 * groups of selections and groups of ranges, optionally the editor's own
 * selections as a last group, and hand back the updated groups in the order
 * they were added.
 *
 * How an info is moved by an edit is decided by the range updater, which is
 * not part of this model: it is the parameter `update`, applied to each info.
 */
module UpdateSelections {
  import opened Wrappers
  import opened Geometry
  import opened SelectionUtils

  datatype RangeExpansionBehavior = ClosedClosed | ClosedOpen | OpenClosed | OpenOpen

  datatype BoundaryType = Closed | Open

  datatype ExpansionBehavior = ExpansionBehavior(start: BoundaryType, end: BoundaryType)

  /** The start is closed for closedClosed and closedOpen; the end for closedClosed and openClosed. */
  function ExpansionOf(b: RangeExpansionBehavior): (e: ExpansionBehavior)
    ensures e.start == Closed <==> b == ClosedClosed || b == ClosedOpen
    ensures e.end == Closed <==> b == ClosedClosed || b == OpenClosed
  {
    ExpansionBehavior(
      if b == ClosedClosed || b == ClosedOpen then Closed else Open,
      if b == ClosedClosed || b == OpenClosed then Closed else Open)
  }

  /** The encoding loses nothing: each behaviour gives its own pair of boundary types. */
  lemma ExpansionInjective(a: RangeExpansionBehavior, b: RangeExpansionBehavior)
    requires ExpansionOf(a) == ExpansionOf(b)
    ensures a == b
  {
  }

  /** Start and end offsets in the document text. */
  datatype Offsets = Offsets(start: nat, end: nat)

  datatype SelectionInfo = SelectionInfo(range: Range, isForward: bool, expansionBehavior: ExpansionBehavior,
                                         offsets: Offsets, text: string)

  /** The host's `offsetAt`, which validates the position first. */
  function HostOffsetAt(doc: HostDocument, p: Position): nat {
    OffsetAt(doc, ValidatePosition(doc, p))
  }

  /** `getSelectionInfoInternal`: the info of a range with the given direction and behaviour. */
  function GetSelectionInfoInternal(doc: HostDocument, range: Range, isForward: bool, b: RangeExpansionBehavior)
    : (info: SelectionInfo)
    requires range.Valid()
    ensures info.range == range && info.isForward == isForward && info.expansionBehavior == ExpansionOf(b)
    ensures info.offsets.start <= info.offsets.end
    ensures |info.text| == info.offsets.end - info.offsets.start
    ensures doc.ValidRange(range) ==> info.offsets == Offsets(OffsetAt(doc, range.start), OffsetAt(doc, range.end)) &&
                                      info.text == GetText(doc, range)
  {
    ValidateMonotone(doc, range.start, range.end);
    OffsetMonotone(doc, ValidatePosition(doc, range.start), ValidatePosition(doc, range.end));
    SelectionInfo(range, isForward, ExpansionOf(b),
                  Offsets(HostOffsetAt(doc, range.start), HostOffsetAt(doc, range.end)),
                  GetValidatedText(doc, range))
  }

  /** `getSelectionInfo`: the info of a selection, forward unless the selection is reversed. */
  function GetSelectionInfo(doc: HostDocument, selection: Selection, b: RangeExpansionBehavior): (info: SelectionInfo)
    ensures info.range == selection.AsRange()
    ensures info.isForward <==> !IsReversed(selection)
    ensures info.expansionBehavior == ExpansionOf(b)
  {
    GetSelectionInfoInternal(doc, selection.AsRange(), !IsReversed(selection), b)
  }

  /** The selection an info stands for: from start to end when forward, from end to start otherwise. */
  function InfoToSelection(info: SelectionInfo): (s: Selection)
    ensures info.isForward ==> s == Selection(info.range.start, info.range.end)
    ensures !info.isForward ==> s == Selection(info.range.end, info.range.start)
  {
    if info.isForward then Selection(info.range.start, info.range.end) else Selection(info.range.end, info.range.start)
  }

  /** A selection survives the trip to an info and back, direction included. */
  lemma SelectionInfoRoundTrip(doc: HostDocument, selection: Selection, b: RangeExpansionBehavior)
    ensures InfoToSelection(GetSelectionInfo(doc, selection, b)) == selection
  {
  }

  predicate Rectangular<A, B>(m: seq<seq<A>>, n: seq<seq<B>>) {
    |m| == |n| && forall i :: 0 <= i < |m| ==> |m[i]| == |n[i]|
  }

  /** `selectionsToSelectionInfos` (closedClosed by default): each selection's info, in the same places. */
  function SelectionsToSelectionInfos(doc: HostDocument, matrix: seq<seq<Selection>>, b: RangeExpansionBehavior)
    : (r: seq<seq<SelectionInfo>>)
    ensures Rectangular(r, matrix)
    ensures forall i, j :: 0 <= i < |r| && 0 <= j < |r[i]| ==> r[i][j] == GetSelectionInfo(doc, matrix[i][j], b)
  {
    seq(|matrix|, i requires 0 <= i < |matrix| =>
      seq(|matrix[i]|, j requires 0 <= j < |matrix[i]| => GetSelectionInfo(doc, matrix[i][j], b)))
  }

  predicate AllValid(matrix: seq<seq<Range>>) {
    forall i, j :: 0 <= i < |matrix| && 0 <= j < |matrix[i]| ==> matrix[i][j].Valid()
  }

  /** `rangesToSelectionInfos` (closedClosed by default): each range's info, marked as not forward. */
  function RangesToSelectionInfos(doc: HostDocument, matrix: seq<seq<Range>>, b: RangeExpansionBehavior)
    : (r: seq<seq<SelectionInfo>>)
    requires AllValid(matrix)
    ensures Rectangular(r, matrix)
    ensures forall i, j :: 0 <= i < |r| && 0 <= j < |r[i]| ==>
              r[i][j] == GetSelectionInfoInternal(doc, matrix[i][j], false, b)
  {
    seq(|matrix|, i requires 0 <= i < |matrix| =>
      seq(|matrix[i]|, j requires 0 <= j < |matrix[i]| => GetSelectionInfoInternal(doc, matrix[i][j], false, b)))
  }

  /** `selectionInfosToSelections`: each info's selection, in the same places. */
  function SelectionInfosToSelections(matrix: seq<seq<SelectionInfo>>): (r: seq<seq<Selection>>)
    ensures Rectangular(r, matrix)
    ensures forall i, j :: 0 <= i < |r| && 0 <= j < |r[i]| ==> r[i][j] == InfoToSelection(matrix[i][j])
  {
    seq(|matrix|, i requires 0 <= i < |matrix| =>
      seq(|matrix[i]|, j requires 0 <= j < |matrix[i]| => InfoToSelection(matrix[i][j])))
  }

  /** A matrix of selections survives the trip to infos and back. */
  lemma SelectionMatrixRoundTrip(doc: HostDocument, matrix: seq<seq<Selection>>, b: RangeExpansionBehavior)
    ensures SelectionInfosToSelections(SelectionsToSelectionInfos(doc, matrix, b)) == matrix
  {
    var r := SelectionInfosToSelections(SelectionsToSelectionInfos(doc, matrix, b));
    forall i | 0 <= i < |matrix| ensures r[i] == matrix[i] {
      forall j | 0 <= j < |matrix[i]| ensures r[i][j] == matrix[i][j] {
        SelectionInfoRoundTrip(doc, matrix[i][j], b);
      }
    }
  }

  /** Ranges come back as reversed selections over the same ranges. */
  lemma RangeMatrixRoundTrip(doc: HostDocument, matrix: seq<seq<Range>>, b: RangeExpansionBehavior)
    requires AllValid(matrix)
    ensures var r := SelectionInfosToSelections(RangesToSelectionInfos(doc, matrix, b));
            Rectangular(r, matrix) &&
            forall i, j :: 0 <= i < |r| && 0 <= j < |r[i]| ==>
              r[i][j] == Selection(matrix[i][j].end, matrix[i][j].start) && r[i][j].AsRange() == matrix[i][j]
  {
  }

  // ---------------------------------------------------------------------------
  // The updaters

  datatype SelectionsWithBehavior = SelectionsWithBehavior(selections: seq<Selection>, rangeBehavior: RangeExpansionBehavior)

  datatype RangesWithBehavior = RangesWithBehavior(ranges: seq<Range>, rangeBehavior: RangeExpansionBehavior)

  datatype UpdateResult = UpdateResult(selections: seq<seq<Selection>>, ranges: seq<seq<Range>>)

  function SelectionGroupInfos(doc: HostDocument, groups: seq<SelectionsWithBehavior>): (r: seq<seq<SelectionInfo>>)
    ensures |r| == |groups| && forall i :: 0 <= i < |r| ==> |r[i]| == |groups[i].selections|
    ensures forall i, j :: 0 <= i < |r| && 0 <= j < |r[i]| ==>
              r[i][j] == GetSelectionInfo(doc, groups[i].selections[j], groups[i].rangeBehavior)
  {
    seq(|groups|, i requires 0 <= i < |groups| =>
      seq(|groups[i].selections|, j requires 0 <= j < |groups[i].selections| =>
        GetSelectionInfo(doc, groups[i].selections[j], groups[i].rangeBehavior)))
  }

  predicate ValidGroups(groups: seq<RangesWithBehavior>) {
    forall i, j :: 0 <= i < |groups| && 0 <= j < |groups[i].ranges| ==> groups[i].ranges[j].Valid()
  }

  /** Range groups are tracked as forward infos. */
  function RangeGroupInfos(doc: HostDocument, groups: seq<RangesWithBehavior>): (r: seq<seq<SelectionInfo>>)
    requires ValidGroups(groups)
    ensures |r| == |groups| && forall i :: 0 <= i < |r| ==> |r[i]| == |groups[i].ranges|
    ensures forall i, j :: 0 <= i < |r| && 0 <= j < |r[i]| ==>
              r[i][j] == GetSelectionInfoInternal(doc, groups[i].ranges[j], true, groups[i].rangeBehavior)
  {
    seq(|groups|, i requires 0 <= i < |groups| =>
      seq(|groups[i].ranges|, j requires 0 <= j < |groups[i].ranges| =>
        GetSelectionInfoInternal(doc, groups[i].ranges[j], true, groups[i].rangeBehavior)))
  }

  /** The range updater's work: every tracked info moved by `update`, in place. */
  function UpdateInfos(update: SelectionInfo -> SelectionInfo, matrix: seq<seq<SelectionInfo>>): (r: seq<seq<SelectionInfo>>)
    ensures Rectangular(r, matrix)
    ensures forall i, j :: 0 <= i < |r| && 0 <= j < |r[i]| ==> r[i][j] == update(matrix[i][j])
  {
    seq(|matrix|, i requires 0 <= i < |matrix| =>
      seq(|matrix[i]|, j requires 0 <= j < |matrix[i]| => update(matrix[i][j])))
  }

  /**
   * `callFunctionAndUpdateSelectionInfos`: the tracked matrix (selection groups,
   * then range groups) updated and turned back into selections.
   */
  function Tracked(doc: HostDocument, selectionGroups: seq<SelectionsWithBehavior>, rangeGroups: seq<RangesWithBehavior>,
                   update: SelectionInfo -> SelectionInfo)
    : (r: seq<seq<Selection>>)
    requires ValidGroups(rangeGroups)
    ensures |r| == |selectionGroups| + |rangeGroups|
    ensures forall i :: 0 <= i < |selectionGroups| ==> |r[i]| == |selectionGroups[i].selections|
    ensures forall i :: 0 <= i < |rangeGroups| ==> |r[|selectionGroups| + i]| == |rangeGroups[i].ranges|
    ensures forall i, j :: 0 <= i < |selectionGroups| && 0 <= j < |selectionGroups[i].selections| ==>
              r[i][j] == InfoToSelection(update(GetSelectionInfo(doc, selectionGroups[i].selections[j],
                                                                 selectionGroups[i].rangeBehavior)))
    ensures forall i, j :: 0 <= i < |rangeGroups| && 0 <= j < |rangeGroups[i].ranges| ==>
              r[|selectionGroups| + i][j] ==
                InfoToSelection(update(GetSelectionInfoInternal(doc, rangeGroups[i].ranges[j], true, rangeGroups[i].rangeBehavior)))
  {
    var selectionInfos := SelectionGroupInfos(doc, selectionGroups);
    var rangeInfos := RangeGroupInfos(doc, rangeGroups);
    var tracked := selectionInfos + rangeInfos;
    assert forall i :: 0 <= i < |rangeInfos| ==> tracked[|selectionInfos| + i] == rangeInfos[i];
    SelectionInfosToSelections(UpdateInfos(update, tracked))
  }

  /** One selection tracked with behaviour `b`: its info moved by the update, back as a selection. */
  function TrackedSelection(doc: HostDocument, s: Selection, b: RangeExpansionBehavior,
                            update: SelectionInfo -> SelectionInfo): Selection
  {
    InfoToSelection(update(GetSelectionInfo(doc, s, b)))
  }

  /** One range tracked with behaviour `b`, as a forward info, back as a range. */
  function TrackedRange(doc: HostDocument, range: Range, b: RangeExpansionBehavior,
                        update: SelectionInfo -> SelectionInfo): Range
    requires range.Valid()
  {
    InfoToSelection(update(GetSelectionInfoInternal(doc, range, true, b))).AsRange()
  }

  /**
   * Tracking the groups one by one is cutting the combined tracked matrix back
   * into its parts: the selection groups come first, then the editor's
   * selections as the last selection group when asked for.
   */
  lemma TrackAndSplitSelectionsAreTracked(doc: HostDocument, selectionGroups: seq<SelectionsWithBehavior>,
                                          rangeGroups: seq<RangesWithBehavior>, updateEditorSelections: bool,
                                          editorSelections: seq<Selection>, update: SelectionInfo -> SelectionInfo)
    requires ValidGroups(rangeGroups)
    ensures var groups := if updateEditorSelections
                          then selectionGroups + [SelectionsWithBehavior(editorSelections, ClosedClosed)]
                          else selectionGroups;
            var t := Tracked(doc, groups, rangeGroups, update);
            var r := TrackAndSplit(doc, selectionGroups, rangeGroups, updateEditorSelections, editorSelections, update);
            r.0.selections == t[..|selectionGroups|] &&
            (updateEditorSelections ==> r.1 == t[|selectionGroups|])
  {
    var groups := if updateEditorSelections
                  then selectionGroups + [SelectionsWithBehavior(editorSelections, ClosedClosed)]
                  else selectionGroups;
    var t := Tracked(doc, groups, rangeGroups, update);
    var r := TrackAndSplit(doc, selectionGroups, rangeGroups, updateEditorSelections, editorSelections, update);
    forall i | 0 <= i < |selectionGroups| ensures r.0.selections[i] == t[i] {
      assert groups[i] == selectionGroups[i];
    }
    if updateEditorSelections {
      assert groups[|selectionGroups|].selections == editorSelections;
    }
  }

  /**
   * The returned range groups are the rows of the combined tracked matrix after
   * the selection groups, as ranges, whatever selection groups (with or without
   * the editor's) come before them.
   */
  lemma TrackAndSplitRangesAreTracked(doc: HostDocument, before: seq<SelectionsWithBehavior>,
                                      selectionGroups: seq<SelectionsWithBehavior>, rangeGroups: seq<RangesWithBehavior>,
                                      updateEditorSelections: bool, editorSelections: seq<Selection>,
                                      update: SelectionInfo -> SelectionInfo, i: nat, j: nat)
    requires ValidGroups(rangeGroups) && i < |rangeGroups| && j < |rangeGroups[i].ranges|
    ensures TrackAndSplit(doc, selectionGroups, rangeGroups, updateEditorSelections, editorSelections, update).0.ranges[i][j] ==
            Tracked(doc, before, rangeGroups, update)[|before| + i][j].AsRange()
  {
  }

  /**
   * `run` after the tracking: the selection groups, the range groups and, when
   * asked for, the editor's selections (closedClosed, as the last selection
   * group) are tracked and handed back group by group. Since the updater moves
   * each info on its own, tracking the groups in one matrix is tracking each
   * element. Gives the returned groups and the editor's new selections: one
   * group per `selections()` call and one per `ranges()` call, in call order
   * and of the same sizes, each element its own selection or range tracked
   * with its group's behaviour (ranges as forward infos); the editor's group is
   * not returned, and each of the editor's new selections is its old one
   * tracked closedClosed.
   */
  function TrackAndSplit(doc: HostDocument, selectionGroups: seq<SelectionsWithBehavior>, rangeGroups: seq<RangesWithBehavior>,
                         updateEditorSelections: bool, editorSelections: seq<Selection>,
                         update: SelectionInfo -> SelectionInfo)
    : (r: (UpdateResult, seq<Selection>))
    requires ValidGroups(rangeGroups)
    ensures |r.0.selections| == |selectionGroups| && |r.0.ranges| == |rangeGroups| && |r.1| == |editorSelections|
    ensures forall i :: 0 <= i < |selectionGroups| ==> |r.0.selections[i]| == |selectionGroups[i].selections|
    ensures forall i :: 0 <= i < |rangeGroups| ==> |r.0.ranges[i]| == |rangeGroups[i].ranges|
    ensures forall i, j :: 0 <= i < |selectionGroups| && 0 <= j < |selectionGroups[i].selections| ==>
              r.0.selections[i][j] ==
                InfoToSelection(update(GetSelectionInfo(doc, selectionGroups[i].selections[j], selectionGroups[i].rangeBehavior)))
    ensures forall i, j :: 0 <= i < |rangeGroups| && 0 <= j < |rangeGroups[i].ranges| ==>
              r.0.ranges[i][j] ==
                InfoToSelection(update(GetSelectionInfoInternal(doc, rangeGroups[i].ranges[j], true, rangeGroups[i].rangeBehavior))).AsRange()
    ensures updateEditorSelections ==>
              forall k :: 0 <= k < |editorSelections| ==>
                r.1[k] == InfoToSelection(update(GetSelectionInfo(doc, editorSelections[k], ClosedClosed)))
    ensures !updateEditorSelections ==> r.1 == editorSelections
  {
    var selections := seq(|selectionGroups|, i requires 0 <= i < |selectionGroups| =>
      seq(|selectionGroups[i].selections|, j requires 0 <= j < |selectionGroups[i].selections| =>
        TrackedSelection(doc, selectionGroups[i].selections[j], selectionGroups[i].rangeBehavior, update)));
    var ranges := seq(|rangeGroups|, i requires 0 <= i < |rangeGroups| =>
      seq(|rangeGroups[i].ranges|, j requires 0 <= j < |rangeGroups[i].ranges| =>
        TrackedRange(doc, rangeGroups[i].ranges[j], rangeGroups[i].rangeBehavior, update)));
    var editor := if updateEditorSelections then
        seq(|editorSelections|, k requires 0 <= k < |editorSelections| =>
          TrackedSelection(doc, editorSelections[k], ClosedClosed, update))
      else editorSelections;
    (UpdateResult(selections, ranges), editor)
  }

  /**
   * When the update moves nothing, every selection and range comes back as it
   * was, and the editor keeps its selections.
   */
  lemma TrackAndSplitIdentity(doc: HostDocument, selectionGroups: seq<SelectionsWithBehavior>,
                              rangeGroups: seq<RangesWithBehavior>, updateEditorSelections: bool,
                              editorSelections: seq<Selection>)
    requires ValidGroups(rangeGroups)
    ensures var r := TrackAndSplit(doc, selectionGroups, rangeGroups, updateEditorSelections,
                                   editorSelections, info => info);
            (forall i :: 0 <= i < |selectionGroups| ==> r.0.selections[i] == selectionGroups[i].selections) &&
            (forall i :: 0 <= i < |rangeGroups| ==> r.0.ranges[i] == rangeGroups[i].ranges) &&
            r.1 == editorSelections
  {
    var r := TrackAndSplit(doc, selectionGroups, rangeGroups, updateEditorSelections, editorSelections, info => info);
    forall i | 0 <= i < |selectionGroups| ensures r.0.selections[i] == selectionGroups[i].selections {
      forall j | 0 <= j < |selectionGroups[i].selections|
        ensures r.0.selections[i][j] == selectionGroups[i].selections[j]
      {
        SelectionInfoRoundTrip(doc, selectionGroups[i].selections[j], selectionGroups[i].rangeBehavior);
      }
    }
    if updateEditorSelections {
      forall k | 0 <= k < |editorSelections| ensures r.1[k] == editorSelections[k] {
        SelectionInfoRoundTrip(doc, editorSelections[k], ClosedClosed);
      }
    }
  }

  /** The editor, as far as the updaters see it: its document and its selections. */
  class Editor {
    var document: HostDocument
    var selections: seq<Selection>

    constructor(document: HostDocument, selections: seq<Selection>)
      ensures this.document == document && this.selections == selections
    {
      this.document := document;
      this.selections := selections;
    }
  }

  /**
   * One edit for the host: put `text` in place of `range`. `isReplace` asks the
   * range updater to treat the edit as a replacement when it moves tracked ranges
   * that touch `range`.
   */
  datatype Edit = Edit(range: Range, text: string, isReplace: bool)

  /**
   * `EditsUpdater`: performs the edits and reports the tracked selections and
   * ranges as they are afterwards. `performEdits` stands for the host applying
   * the edits: whether it succeeded.
   */
  class EditsUpdater {
    var selectionGroups: seq<SelectionsWithBehavior>
    var rangeGroups: seq<RangesWithBehavior>
    var updateEditorSelectionsFlag: bool
    const editor: Editor
    const edits: seq<Edit>

    constructor(editor: Editor, edits: seq<Edit>)
      ensures this.editor == editor && this.edits == edits
      ensures selectionGroups == [] && rangeGroups == [] && !updateEditorSelectionsFlag
    {
      this.editor := editor;
      this.edits := edits;
      selectionGroups := [];
      rangeGroups := [];
      updateEditorSelectionsFlag := false;
    }

    /** `selections()`: one more selection group (pass closedClosed for the default); the same builder back. */
    method Selections(selections: seq<Selection>, rangeBehavior: RangeExpansionBehavior) returns (self: EditsUpdater)
      modifies this
      ensures self == this
      ensures selectionGroups == old(selectionGroups) + [SelectionsWithBehavior(selections, rangeBehavior)]
      ensures unchanged(this`rangeGroups, this`updateEditorSelectionsFlag)
    {
      selectionGroups := selectionGroups + [SelectionsWithBehavior(selections, rangeBehavior)];
      return this;
    }

    /** `ranges()`: one more range group (pass closedClosed for the default); the same builder back. */
    method Ranges(ranges: seq<Range>, rangeBehavior: RangeExpansionBehavior) returns (self: EditsUpdater)
      modifies this
      ensures self == this
      ensures rangeGroups == old(rangeGroups) + [RangesWithBehavior(ranges, rangeBehavior)]
      ensures unchanged(this`selectionGroups, this`updateEditorSelectionsFlag)
    {
      rangeGroups := rangeGroups + [RangesWithBehavior(ranges, rangeBehavior)];
      return this;
    }

    method UpdateEditorSelections() returns (self: EditsUpdater)
      modifies this
      ensures self == this && updateEditorSelectionsFlag
      ensures unchanged(this`selectionGroups, this`rangeGroups)
    {
      updateEditorSelectionsFlag := true;
      return this;
    }

    /**
     * `run`: edits that are not applied fail with "Could not apply edits";
     * otherwise the groups are tracked through the edits and split back, and
     * the editor receives its updated selections when they were tracked.
     */
    method Run(performEdits: seq<Edit> -> bool, update: SelectionInfo -> SelectionInfo) returns (r: Result<UpdateResult>)
      requires ValidGroups(rangeGroups)
      modifies editor
      ensures !performEdits(edits) <==> r.Err?
      ensures r.Err? ==> r.error == CouldNotApplyEdits && editor.selections == old(editor.selections)
      ensures r.Ok? ==>
                var (result, editorSelections) := TrackAndSplit(editor.document, selectionGroups, rangeGroups,
                                                                updateEditorSelectionsFlag, old(editor.selections), update);
                r.value == result && editor.selections == editorSelections
      ensures editor.document == old(editor.document)
    {
      if !performEdits(edits) {
        return Err(CouldNotApplyEdits);
      }
      var (result, editorSelections) := TrackAndSplit(editor.document, selectionGroups, rangeGroups,
                                                      updateEditorSelectionsFlag, editor.selections, update);
      if updateEditorSelectionsFlag {
        editor.selections := editorSelections;
      }
      return Ok(result);
    }
  }

  /**
   * `CallbackUpdater`: runs a callback and reports the tracked selections and
   * ranges as they are afterwards; what the callback does to the document is
   * seen only through `update`.
   */
  class CallbackUpdater {
    var selectionGroups: seq<SelectionsWithBehavior>
    var rangeGroups: seq<RangesWithBehavior>
    var updateEditorSelectionsFlag: bool
    const editor: Editor

    constructor(editor: Editor)
      ensures this.editor == editor
      ensures selectionGroups == [] && rangeGroups == [] && !updateEditorSelectionsFlag
    {
      this.editor := editor;
      selectionGroups := [];
      rangeGroups := [];
      updateEditorSelectionsFlag := false;
    }

    method Selections(selections: seq<Selection>, rangeBehavior: RangeExpansionBehavior) returns (self: CallbackUpdater)
      modifies this
      ensures self == this
      ensures selectionGroups == old(selectionGroups) + [SelectionsWithBehavior(selections, rangeBehavior)]
      ensures unchanged(this`rangeGroups, this`updateEditorSelectionsFlag)
    {
      selectionGroups := selectionGroups + [SelectionsWithBehavior(selections, rangeBehavior)];
      return this;
    }

    method Ranges(ranges: seq<Range>, rangeBehavior: RangeExpansionBehavior) returns (self: CallbackUpdater)
      modifies this
      ensures self == this
      ensures rangeGroups == old(rangeGroups) + [RangesWithBehavior(ranges, rangeBehavior)]
      ensures unchanged(this`selectionGroups, this`updateEditorSelectionsFlag)
    {
      rangeGroups := rangeGroups + [RangesWithBehavior(ranges, rangeBehavior)];
      return this;
    }

    method UpdateEditorSelections() returns (self: CallbackUpdater)
      modifies this
      ensures self == this && updateEditorSelectionsFlag
      ensures unchanged(this`selectionGroups, this`rangeGroups)
    {
      updateEditorSelectionsFlag := true;
      return this;
    }

    /** `run`: the groups are tracked through the callback and split back; the editor receives its group when tracked. */
    method Run(update: SelectionInfo -> SelectionInfo) returns (r: UpdateResult)
      requires ValidGroups(rangeGroups)
      modifies editor
      ensures var (result, editorSelections) := TrackAndSplit(editor.document, selectionGroups, rangeGroups,
                                                              updateEditorSelectionsFlag, old(editor.selections), update);
              r == result && editor.selections == editorSelections
      ensures editor.document == old(editor.document)
    {
      var (result, editorSelections) := TrackAndSplit(editor.document, selectionGroups, rangeGroups,
                                                      updateEditorSelectionsFlag, editor.selections, update);
      if updateEditorSelectionsFlag {
        editor.selections := editorSelections;
      }
      return result;
    }
  }
}
