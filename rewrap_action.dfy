/**
 * The rewrap action: every target must have a boundary of exactly two targets
 * (its opening and closing delimiter); the boundaries are replaced, opening ones
 * by `left` and closing ones by `right`, editor by editor. The source mark is the
 * targets' "that" content ranges and the "that" mark their content ranges, both
 * as they are after the edits.
 */
module RewrapAction {
  import opened Wrappers
  import opened Geometry
  import opened TargetTypes
  import opened SelectionUtils
  import opened UpdateSelections

  /** A target whose boundary is an opening and a closing delimiter. */
  predicate Paired(t: Target) {
    t.boundary.Some? && |t.boundary.value| == 2
  }

  /** How the check fails on a target: no boundary at all reads `length` of undefined. */
  function BoundaryError(t: Target): Error {
    if t.boundary.None? then MissingValue else DelimiterCount
  }

  /** The index of the first target without a paired boundary. */
  function FirstUnpaired(targets: seq<Target>): (i: nat)
    requires exists k :: 0 <= k < |targets| && !Paired(targets[k])
    ensures i < |targets| && !Paired(targets[i]) && forall j :: 0 <= j < i ==> Paired(targets[j])
  {
    if !Paired(targets[0]) then 0
    else
      assert exists k :: 0 <= k < |targets[1..]| && !Paired(targets[1..][k]) by {
        var k :| 0 <= k < |targets| && !Paired(targets[k]);
        assert targets[1..][k - 1] == targets[k];
      }
      var i := FirstUnpaired(targets[1..]);
      assert forall j :: 1 <= j < i + 1 ==> targets[j] == targets[1..][j - 1];
      i + 1
  }

  /**
   * The boundary check and `flatMap`: the first target whose boundary is not
   * two targets makes the action fail ("Target must have an opening and
   * closing delimiter"); otherwise the boundaries, target by target.
   */
  function BoundaryTargets(targets: seq<Target>): (r: Result<seq<Target>>)
    ensures r.Ok? <==> forall i :: 0 <= i < |targets| ==> Paired(targets[i])
    ensures r.Ok? ==> |r.value| == 2 * |targets|
    ensures r.Err? ==> r.error == BoundaryError(targets[FirstUnpaired(targets)])
  {
    if targets == [] then Ok([])
    else if !Paired(targets[0]) then Err(BoundaryError(targets[0]))
    else
      var rest := BoundaryTargets(targets[1..]);
      assert forall i :: 1 <= i < |targets| ==> targets[i] == targets[1..][i - 1];
      if rest.Err? then Err(rest.error)
      else Ok(targets[0].boundary.value + rest.value)
  }

  /** The flattened boundaries are target `i`'s opening delimiter at `2i` and its closing one at `2i + 1`. */
  lemma {:induction false} BoundariesInTargetOrder(targets: seq<Target>)
    requires BoundaryTargets(targets).Ok?
    ensures var r := BoundaryTargets(targets).value;
            forall i :: 0 <= i < |targets| ==>
              r[2 * i] == targets[i].boundary.value[0] && r[2 * i + 1] == targets[i].boundary.value[1]
  {
    if targets != [] {
      BoundariesInTargetOrder(targets[1..]);
      var rest := BoundaryTargets(targets[1..]).value;
      var r := BoundaryTargets(targets).value;
      assert r == targets[0].boundary.value + rest;
      forall i | 1 <= i < |targets|
        ensures r[2 * i] == targets[i].boundary.value[0] && r[2 * i + 1] == targets[i].boundary.value[1]
      {
        assert targets[i] == targets[1..][i - 1];
        assert r[2 * i] == rest[2 * (i - 1)];
        assert r[2 * i + 1] == rest[2 * (i - 1) + 1];
      }
    }
  }

  /** The edits of one editor: boundary `i`'s content replaced by `left` for even `i`, by `right` for odd `i`. */
  function RewrapEdits(boundaryTargets: seq<Target>, left: string, right: string): (r: seq<Edit>)
    ensures |r| == |boundaryTargets|
    ensures forall i :: 0 <= i < |r| ==>
              r[i].range == boundaryTargets[i].contentRange && !r[i].isReplace &&
              r[i].text == (if i % 2 == 0 then left else right)
  {
    seq(|boundaryTargets|, i requires 0 <= i < |boundaryTargets| =>
      Edit(boundaryTargets[i].contentRange, if i % 2 == 0 then left else right, false))
  }

  /** With the boundaries in target order, each target's opening delimiter gets `left` and its closing one `right`. */
  lemma OpeningGetsLeftClosingGetsRight(targets: seq<Target>, left: string, right: string)
    requires BoundaryTargets(targets).Ok?
    ensures var edits := RewrapEdits(BoundaryTargets(targets).value, left, right);
            forall i :: 0 <= i < |targets| ==>
              edits[2 * i] == Edit(targets[i].boundary.value[0].contentRange, left, false) &&
              edits[2 * i + 1] == Edit(targets[i].boundary.value[1].contentRange, right, false)
  {
    var edits := RewrapEdits(BoundaryTargets(targets).value, left, right);
    BoundariesInTargetOrder(targets);
  }

  predicate MarkRangesValid(targets: seq<Target>) {
    forall i :: 0 <= i < |targets| ==> targets[i].contentRange.Valid() && targets[i].thatContentRange.Valid()
  }

  function ThatContentRanges(targets: seq<Target>): (r: seq<Range>)
    ensures |r| == |targets| && forall i :: 0 <= i < |r| ==> r[i] == targets[i].thatContentRange
  {
    seq(|targets|, i requires 0 <= i < |targets| => targets[i].thatContentRange)
  }

  function ContentRanges(targets: seq<Target>): (r: seq<Range>)
    ensures |r| == |targets| && forall i :: 0 <= i < |r| ==> r[i] == targets[i].contentRange
  {
    seq(|targets|, i requires 0 <= i < |targets| => targets[i].contentRange)
  }

  /** One editor's marks, and the editor's selections after the edits. */
  datatype RewrapOutcome = RewrapOutcome(sourceMark: seq<SelectionWithEditor>, thatMark: seq<SelectionWithEditor>,
                                         editorSelections: seq<Selection>)

  /** The range `r` tracked closedClosed through the edits that `update` stands for. */
  function TrackedRange(doc: HostDocument, r: Range, update: SelectionInfo -> SelectionInfo): Range
    requires r.Valid()
  {
    InfoToSelection(update(GetSelectionInfoInternal(doc, r, true, ClosedClosed))).AsRange()
  }

  /**
   * The tracking step of one editor: the "that" content ranges of `markTargets`
   * give the source mark and their content ranges the that mark, both tracked
   * closedClosed and in each target's direction; the editor's selections are
   * tracked too. `update` stands for the range updater.
   */
  function RewrapTracking(doc: HostDocument, markTargets: seq<Target>, editorSelections: seq<Selection>,
                          update: SelectionInfo -> SelectionInfo)
    : (r: RewrapOutcome)
    requires MarkRangesValid(markTargets)
    ensures |r.sourceMark| == |markTargets| && |r.thatMark| == |markTargets|
    ensures |r.editorSelections| == |editorSelections|
    ensures forall i :: 0 <= i < |markTargets| ==>
              r.sourceMark[i].editor == markTargets[i].editor &&
              r.sourceMark[i].selection.AsRange() == TrackedRange(doc, markTargets[i].thatContentRange, update) &&
              r.thatMark[i].editor == markTargets[i].editor &&
              r.thatMark[i].selection.AsRange() == TrackedRange(doc, markTargets[i].contentRange, update)
  {
    var rangeGroups := [RangesWithBehavior(ThatContentRanges(markTargets), ClosedClosed),
                        RangesWithBehavior(ContentRanges(markTargets), ClosedClosed)];
    var (result, newEditorSelections) := TrackAndSplit(doc, [], rangeGroups, true, editorSelections, update);
    RewrapOutcome(CreateThatMark(markTargets, result.ranges[0]), CreateThatMark(markTargets, result.ranges[1]),
                  newEditorSelections)
  }

  /** When the edits move nothing, the source mark is the targets' that content and the that mark their content. */
  lemma RewrapTrackingIdentity(doc: HostDocument, markTargets: seq<Target>, editorSelections: seq<Selection>)
    requires MarkRangesValid(markTargets)
    ensures var r := RewrapTracking(doc, markTargets, editorSelections, info => info);
            forall i :: 0 <= i < |markTargets| ==>
              r.sourceMark[i].selection.AsRange() == markTargets[i].thatContentRange &&
              r.thatMark[i].selection.AsRange() == markTargets[i].contentRange
  {
    forall i | 0 <= i < |markTargets|
      ensures TrackedRange(doc, markTargets[i].thatContentRange, info => info) == markTargets[i].thatContentRange
      ensures TrackedRange(doc, markTargets[i].contentRange, info => info) == markTargets[i].contentRange
    {
    }
  }

  /** The boundary targets of one editor, as `runOnTargetsForEachEditor` hands them over. */
  datatype EditorBoundaries = EditorBoundaries(editor: EditorId, doc: HostDocument, boundaryTargets: seq<Target>,
                                               editorSelections: seq<Selection>)

  /** The targets in editor `e`, in order. */
  function TargetsIn(targets: seq<Target>, e: EditorId): (r: seq<Target>)
    ensures |r| <= |targets|
    ensures forall t :: t in r <==> t in targets && t.editor == e
  {
    if targets == [] then []
    else (if targets[0].editor == e then [targets[0]] else []) + TargetsIn(targets[1..], e)
  }

  /**
   * `run` as written: each editor's step tracks and marks ALL targets, not only
   * those in its editor, and the steps' marks are concatenated.
   */
  function RewrapRunAsWritten(targets: seq<Target>, groups: seq<EditorBoundaries>,
                              update: SelectionInfo -> SelectionInfo)
    : (r: seq<SelectionWithEditor>)
    requires MarkRangesValid(targets)
  {
    if groups == [] then []
    else
      var outcome := RewrapTracking(groups[0].doc, targets, groups[0].editorSelections, update);
      outcome.sourceMark + RewrapRunAsWritten(targets, groups[1..], update)
  }

  /**
   * With one target in each of two editors, the source mark as written has four
   * entries for two targets, and editor 1's step marks editor 0's target.
   */
  lemma RewrapAsWrittenDuplicatesMarks(t0: Target, t1: Target, g0: EditorBoundaries, g1: EditorBoundaries,
                                       update: SelectionInfo -> SelectionInfo)
    requires MarkRangesValid([t0, t1])
    requires t0.editor == 0 && t1.editor == 1 && g0.editor == 0 && g1.editor == 1
    ensures var r := RewrapRunAsWritten([t0, t1], [g0, g1], update);
            |r| == 4 && r[2].editor == 0 && r[2].editor != g1.editor
  {
    var targets := [t0, t1];
    var outcome0 := RewrapTracking(g0.doc, targets, g0.editorSelections, update);
    var outcome1 := RewrapTracking(g1.doc, targets, g1.editorSelections, update);
    assert RewrapRunAsWritten(targets, [g1], update) == outcome1.sourceMark + RewrapRunAsWritten(targets, [], update);
    assert RewrapRunAsWritten(targets, [g0, g1], update) == outcome0.sourceMark + outcome1.sourceMark;
  }

  /** One corrected step: the marks of the targets in the step's editor, each in that editor. */
  function StepMarks(targets: seq<Target>, g: EditorBoundaries, update: SelectionInfo -> SelectionInfo)
    : (r: (seq<SelectionWithEditor>, seq<SelectionWithEditor>))
    requires MarkRangesValid(targets)
    ensures |r.0| == |r.1| == |TargetsIn(targets, g.editor)|
    ensures forall k :: 0 <= k < |r.0| ==> r.0[k].editor == g.editor && r.1[k].editor == g.editor
  {
    StepMarksOwnEditor(g.doc, targets, g.editor, g.editorSelections, update);
    var outcome := RewrapTracking(g.doc, TargetsIn(targets, g.editor), g.editorSelections, update);
    (outcome.sourceMark, outcome.thatMark)
  }

  /** `run` as intended: each editor's step tracks and marks the targets in that editor. */
  function RewrapRun(targets: seq<Target>, groups: seq<EditorBoundaries>, update: SelectionInfo -> SelectionInfo)
    : (r: (seq<SelectionWithEditor>, seq<SelectionWithEditor>))
    requires MarkRangesValid(targets)
    ensures |r.0| == |r.1|
  {
    if groups == [] then ([], [])
    else
      var step := StepMarks(targets, groups[0], update);
      var rest := RewrapRun(targets, groups[1..], update);
      (step.0 + rest.0, step.1 + rest.1)
  }

  /** The editors of the steps. */
  function GroupEditors(groups: seq<EditorBoundaries>): set<EditorId> {
    set g | g in groups :: g.editor
  }

  /** One corrected step marks only targets of its own editor. */
  lemma StepMarksOwnEditor(doc: HostDocument, targets: seq<Target>, e: EditorId, editorSelections: seq<Selection>,
                           update: SelectionInfo -> SelectionInfo)
    requires MarkRangesValid(targets)
    ensures MarkRangesValid(TargetsIn(targets, e))
    ensures var outcome := RewrapTracking(doc, TargetsIn(targets, e), editorSelections, update);
            forall k :: 0 <= k < |outcome.sourceMark| ==> outcome.sourceMark[k].editor == e && outcome.thatMark[k].editor == e
  {
    var mine := TargetsIn(targets, e);
    forall i | 0 <= i < |mine| ensures mine[i].contentRange.Valid() && mine[i].thatContentRange.Valid() && mine[i].editor == e {
      assert mine[i] in mine;
      var j :| 0 <= j < |targets| && targets[j] == mine[i];
    }
  }

  /** Two runs of marks whose editors lie in a set, concatenated, still do. */
  lemma ConcatMarksInEditors(heads: seq<SelectionWithEditor>, headThats: seq<SelectionWithEditor>,
                             tails: seq<SelectionWithEditor>, tailThats: seq<SelectionWithEditor>,
                             e: EditorId, tailEditors: set<EditorId>, editors: set<EditorId>)
    requires |heads| == |headThats| && |tails| == |tailThats|
    requires e in editors && tailEditors <= editors
    requires forall k :: 0 <= k < |heads| ==> heads[k].editor == e && headThats[k].editor == e
    requires forall j :: 0 <= j < |tails| ==> tails[j].editor in tailEditors && tailThats[j].editor == tails[j].editor
    ensures forall k :: 0 <= k < |heads + tails| ==>
              (heads + tails)[k].editor in editors && (headThats + tailThats)[k].editor == (heads + tails)[k].editor
  {
    forall k | 0 <= k < |heads + tails|
      ensures (heads + tails)[k].editor in editors && (headThats + tailThats)[k].editor == (heads + tails)[k].editor
    {
      if k >= |heads| {
        assert (heads + tails)[k] == tails[k - |heads|];
        assert (headThats + tailThats)[k] == tailThats[k - |heads|];
      }
    }
  }

  /**
   * Every mark of the corrected run lies in the editor of the step that
   * produced it (no step marks another editor's targets), and there is one
   * source and one that mark per target of each step's editor.
   */
  lemma {:induction false} RewrapRunMarksOwnEditor(targets: seq<Target>, groups: seq<EditorBoundaries>,
                                                   update: SelectionInfo -> SelectionInfo)
    requires MarkRangesValid(targets)
    ensures var r := RewrapRun(targets, groups, update);
            |r.0| == MarkCount(targets, groups) &&
            forall k :: 0 <= k < |r.0| ==> r.0[k].editor in GroupEditors(groups) && r.1[k].editor == r.0[k].editor
  {
    if groups != [] {
      var e := groups[0].editor;
      RewrapRunMarksOwnEditor(targets, groups[1..], update);
      var step := StepMarks(targets, groups[0], update);
      var rest := RewrapRun(targets, groups[1..], update);
      assert e in GroupEditors(groups) by {
        assert groups[0] in groups;
      }
      assert GroupEditors(groups[1..]) <= GroupEditors(groups) by {
        forall x | x in GroupEditors(groups[1..]) ensures x in GroupEditors(groups) {
          var g :| g in groups[1..] && g.editor == x;
          assert g in groups;
        }
      }
      ConcatMarksInEditors(step.0, step.1, rest.0, rest.1, e, GroupEditors(groups[1..]), GroupEditors(groups));
    }
  }

  /** The number of marks: the targets of each step's editor, summed over the steps. */
  function MarkCount(targets: seq<Target>, groups: seq<EditorBoundaries>): nat {
    if groups == [] then 0 else |TargetsIn(targets, groups[0].editor)| + MarkCount(targets, groups[1..])
  }
}
