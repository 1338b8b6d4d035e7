/**
 * The wrap action: in each editor, every target gets `left` inserted at the
 * start of its content and `right` at its end. The empty boundary selections are
 * tracked so that each grows over its inserted delimiter (start boundaries
 * openClosed, end boundaries closedOpen), the content selections are tracked
 * for the source mark (closedClosed) and for the "that" mark (openOpen, so that
 * it grows over both delimiters).
 */
module WrapAction {
  import opened Wrappers
  import opened Geometry
  import opened TargetTypes
  import opened UpdateSelections
  import opened ReplaceAction

  /** A target's two empty boundary selections, at the start and at the end of its content. */
  datatype Boundary = Boundary(start: Selection, end: Selection)

  function TargetBoundary(t: Target): (b: Boundary)
    ensures b.start == Selection(t.contentRange.start, t.contentRange.start)
    ensures b.end == Selection(t.contentRange.end, t.contentRange.end)
    ensures b.start.AsRange().IsEmpty() && b.end.AsRange().IsEmpty()
  {
    Boundary(Selection(t.contentRange.start, t.contentRange.start), Selection(t.contentRange.end, t.contentRange.end))
  }

  /** A target's two edits: `left` inserted at its start, then `right` at its end, the latter as a replace. */
  function BoundaryEdits(b: Boundary, left: string, right: string): seq<Edit> {
    [Edit(b.start.AsRange(), left, false), Edit(b.end.AsRange(), right, true)]
  }

  /**
   * The `flatMap` of the targets' edit pairs: edit `2i` inserts `left` at the
   * start of target `i`, edit `2i + 1` puts `right` at its end.
   */
  function WrapEdits(targets: seq<Target>, left: string, right: string): (r: seq<Edit>)
    ensures |r| == 2 * |targets|
    ensures forall i :: 0 <= i < |targets| ==>
              r[2 * i] == Edit(Range(targets[i].contentRange.start, targets[i].contentRange.start), left, false) &&
              r[2 * i + 1] == Edit(Range(targets[i].contentRange.end, targets[i].contentRange.end), right, true)
  {
    if targets == [] then []
    else
      var rest := WrapEdits(targets[1..], left, right);
      var r := BoundaryEdits(TargetBoundary(targets[0]), left, right) + rest;
      forall i | 1 <= i < |targets|
        ensures r[2 * i] == Edit(Range(targets[i].contentRange.start, targets[i].contentRange.start), left, false)
        ensures r[2 * i + 1] == Edit(Range(targets[i].contentRange.end, targets[i].contentRange.end), right, true)
      {
        assert targets[i] == targets[1..][i - 1];
        assert r[2 * i] == rest[2 * (i - 1)];
        assert r[2 * i + 1] == rest[2 * (i - 1) + 1];
      }
      r
  }

  /** Each edit is an insertion at an empty range, at a content edge, with `left` on even and `right` on odd indices. */
  lemma WrapEditsAlternate(targets: seq<Target>, left: string, right: string)
    ensures var r := WrapEdits(targets, left, right);
            forall k :: 0 <= k < |r| ==>
              r[k].range.IsEmpty() &&
              (k % 2 == 0 ==> r[k].text == left && !r[k].isReplace && r[k].range.start == targets[k / 2].contentRange.start) &&
              (k % 2 == 1 ==> r[k].text == right && r[k].isReplace && r[k].range.start == targets[k / 2].contentRange.end)
  {
    var r := WrapEdits(targets, left, right);
    forall k | 0 <= k < |r|
      ensures r[k].range.IsEmpty()
      ensures k % 2 == 0 ==> r[k].text == left && !r[k].isReplace && r[k].range.start == targets[k / 2].contentRange.start
      ensures k % 2 == 1 ==> r[k].text == right && r[k].isReplace && r[k].range.start == targets[k / 2].contentRange.end
    {
      var i := k / 2;
      assert 0 <= i < |targets|;
      var t := targets[i];
      if k % 2 == 0 {
        assert k == 2 * i;
        assert r[k] == Edit(Range(t.contentRange.start, t.contentRange.start), left, false);
      } else {
        assert k == 2 * i + 1;
        assert r[k] == Edit(Range(t.contentRange.end, t.contentRange.end), right, true);
      }
    }
  }

  predicate ContentValid(targets: seq<Target>) {
    forall i :: 0 <= i < |targets| ==> targets[i].contentRange.Valid()
  }

  /** The four tracked groups, in the order the updater receives them. */
  function WrapGroups(targets: seq<Target>): (g: seq<SelectionsWithBehavior>)
    requires ContentValid(targets)
    ensures |g| == 4
    ensures forall k :: 0 <= k < 4 ==> |g[k].selections| == |targets|
    ensures g[0].rangeBehavior == OpenClosed && g[1].rangeBehavior == ClosedOpen
    ensures g[2].rangeBehavior == ClosedClosed && g[3].rangeBehavior == OpenOpen
    ensures forall i :: 0 <= i < |targets| ==>
              g[0].selections[i] == TargetBoundary(targets[i]).start &&
              g[1].selections[i] == TargetBoundary(targets[i]).end &&
              g[2].selections[i] == ContentSelection(targets[i]) &&
              g[3].selections[i] == ContentSelection(targets[i])
  {
    var starts := seq(|targets|, i requires 0 <= i < |targets| => TargetBoundary(targets[i]).start);
    var ends := seq(|targets|, i requires 0 <= i < |targets| => TargetBoundary(targets[i]).end);
    var contents := seq(|targets|, i requires 0 <= i < |targets| => ContentSelection(targets[i]));
    [SelectionsWithBehavior(starts, OpenClosed), SelectionsWithBehavior(ends, ClosedOpen),
     SelectionsWithBehavior(contents, ClosedClosed), SelectionsWithBehavior(contents, OpenOpen)]
  }

  /** What one editor's step returns: the delimiter selections it flashes, and the source and that marks. */
  datatype WrapOutcome = WrapOutcome(delimiterSelections: seq<Selection>, sourceMark: seq<SelectionWithEditor>,
                                     thatMark: seq<SelectionWithEditor>)

  /** The selection `s`, tracked with behaviour `b` through the edits that `update` stands for. */
  function TrackedSelection(doc: HostDocument, s: Selection, b: RangeExpansionBehavior,
                            update: SelectionInfo -> SelectionInfo): Selection
  {
    InfoToSelection(update(GetSelectionInfo(doc, s, b)))
  }

  /**
   * One editor's step of `run`: the edits, the tracking of the four groups,
   * the delimiter selections (all start boundaries, then all end boundaries)
   * and the two marks in this editor. `update` stands for the range updater.
   */
  function WrapInEditor(doc: HostDocument, editor: EditorId, targets: seq<Target>,
                        update: SelectionInfo -> SelectionInfo)
    : (r: WrapOutcome)
    requires ContentValid(targets)
    ensures |r.delimiterSelections| == 2 * |targets| && |r.sourceMark| == |targets| && |r.thatMark| == |targets|
    ensures forall i :: 0 <= i < |targets| ==>
              r.delimiterSelections[i] == TrackedSelection(doc, TargetBoundary(targets[i]).start, OpenClosed, update) &&
              r.delimiterSelections[|targets| + i] == TrackedSelection(doc, TargetBoundary(targets[i]).end, ClosedOpen, update)
    ensures forall i :: 0 <= i < |targets| ==>
              r.sourceMark[i] == SelectionWithEditor(editor, TrackedSelection(doc, ContentSelection(targets[i]), ClosedClosed, update)) &&
              r.thatMark[i] == SelectionWithEditor(editor, TrackedSelection(doc, ContentSelection(targets[i]), OpenOpen, update))
  {
    var groups := WrapGroups(targets);
    var tracked := Tracked(doc, groups, [], update);
    var delimiterSelections := tracked[0] + tracked[1];
    assert forall i :: 0 <= i < |targets| ==> delimiterSelections[|targets| + i] == tracked[1][i];
    WrapOutcome(delimiterSelections,
                seq(|targets|, i requires 0 <= i < |targets| => SelectionWithEditor(editor, tracked[2][i])),
                seq(|targets|, i requires 0 <= i < |targets| => SelectionWithEditor(editor, tracked[3][i])))
  }

  /**
   * When the edits move nothing, the delimiter selections are the empty
   * boundaries and both marks are the targets' content selections.
   */
  lemma WrapInEditorIdentity(doc: HostDocument, editor: EditorId, targets: seq<Target>)
    requires ContentValid(targets)
    ensures var r := WrapInEditor(doc, editor, targets, info => info);
            (forall i :: 0 <= i < |targets| ==>
               r.delimiterSelections[i] == TargetBoundary(targets[i]).start &&
               r.delimiterSelections[|targets| + i] == TargetBoundary(targets[i]).end) &&
            (forall i :: 0 <= i < |targets| ==>
               r.sourceMark[i] == SelectionWithEditor(editor, ContentSelection(targets[i])) &&
               r.thatMark[i] == r.sourceMark[i])
  {
    var update := (info: SelectionInfo) => info;
    forall i | 0 <= i < |targets|
      ensures TrackedSelection(doc, TargetBoundary(targets[i]).start, OpenClosed, update) == TargetBoundary(targets[i]).start
      ensures TrackedSelection(doc, TargetBoundary(targets[i]).end, ClosedOpen, update) == TargetBoundary(targets[i]).end
      ensures TrackedSelection(doc, ContentSelection(targets[i]), ClosedClosed, update) == ContentSelection(targets[i])
      ensures TrackedSelection(doc, ContentSelection(targets[i]), OpenOpen, update) == ContentSelection(targets[i])
    {
      SelectionInfoRoundTrip(doc, TargetBoundary(targets[i]).start, OpenClosed);
      SelectionInfoRoundTrip(doc, TargetBoundary(targets[i]).end, ClosedOpen);
      SelectionInfoRoundTrip(doc, ContentSelection(targets[i]), ClosedClosed);
      SelectionInfoRoundTrip(doc, ContentSelection(targets[i]), OpenOpen);
    }
  }

  /** The targets of one editor, as `runOnTargetsForEachEditor` hands them over. */
  datatype EditorTargets = EditorTargets(editor: EditorId, doc: HostDocument, targets: seq<Target>)

  /** `run`: the editors' marks concatenated in editor order. */
  function WrapRun(groups: seq<EditorTargets>, update: SelectionInfo -> SelectionInfo)
    : (r: (seq<SelectionWithEditor>, seq<SelectionWithEditor>))
    requires forall g :: g in groups ==> ContentValid(g.targets)
    ensures |r.0| == |r.1| == TargetCount(groups)
    ensures forall k :: 0 <= k < |r.0| ==> exists g :: g in groups && r.0[k].editor == g.editor
    ensures forall k :: 0 <= k < |r.1| ==> exists g :: g in groups && r.1[k].editor == g.editor
  {
    if groups == [] then ([], [])
    else
      var g := groups[0];
      var outcome := WrapInEditor(g.doc, g.editor, g.targets, update);
      assert forall x :: x in groups[1..] ==> x in groups;
      var rest := WrapRun(groups[1..], update);
      (outcome.sourceMark + rest.0, outcome.thatMark + rest.1)
  }

  function TargetCount(groups: seq<EditorTargets>): nat {
    if groups == [] then 0 else |groups[0].targets| + TargetCount(groups[1..])
  }
}
