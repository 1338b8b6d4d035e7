/**
 * Direction of a selection, rebuilding a selection over a new range in the
 * original direction, and the "that" mark built from targets and ranges.
 */
module SelectionUtils {
  import opened Geometry
  import opened TargetTypes

  /** The active end is at or after the anchor. */
  predicate IsForward(s: Selection) {
    IsBeforeOrEqual(s.anchor, s.active)
  }

  /** The active end is strictly before the anchor. */
  predicate IsReversed(s: Selection) {
    IsBefore(s.active, s.anchor)
  }

  /** Exactly one of the two directions holds, and an empty selection is forward. */
  lemma DirectionDichotomy(s: Selection)
    ensures IsForward(s) != IsReversed(s)
    ensures s.anchor == s.active ==> IsForward(s) && !IsReversed(s)
  {
  }

  /** A selection over `r` in the direction of `s`, from the start when `s` is forward. */
  function SelectionFromPositions(s: Selection, start: Position, end: Position): (r: Selection)
    ensures IsForward(s) ==> r.anchor == start && r.active == end
    ensures !IsForward(s) ==> r.anchor == end && r.active == start
  {
    if IsForward(s) then Selection(start, end) else Selection(end, start)
  }

  /** The editor is kept, the endpoints are the range's, and a non-empty range keeps the direction. */
  function SelectionWithEditorFromRange(s: SelectionWithEditor, range: Range): (r: SelectionWithEditor)
    requires range.Valid()
    ensures r.editor == s.editor
    ensures r.selection.Start() == range.start && r.selection.End() == range.end
    ensures !range.IsEmpty() ==> IsReversed(r.selection) == IsReversed(s.selection)
  {
    SelectionWithEditor(s.editor, SelectionFromPositions(s.selection, range.start, range.end))
  }

  /** The selection a target's direction gives to a range: reversed runs from the end back to the start. */
  function DirectedSelection(isReversed: bool, range: Range): (s: Selection)
    requires range.Valid()
    ensures s.AsRange() == range
    ensures !range.IsEmpty() ==> IsReversed(s) == isReversed
  {
    if isReversed then Selection(range.end, range.start) else Selection(range.start, range.end)
  }

  /** One that-mark entry per target, pairing each target's editor and direction with the range at the same index. */
  function CreateThatMark(targets: seq<Target>, ranges: seq<Range>): (r: seq<SelectionWithEditor>)
    requires |targets| == |ranges|
    requires forall i :: 0 <= i < |ranges| ==> ranges[i].Valid()
    ensures |r| == |targets|
    ensures forall i :: 0 <= i < |r| ==>
              r[i].editor == targets[i].editor &&
              r[i].selection.AsRange() == ranges[i] &&
              (targets[i].isReversed ==> r[i].selection == Selection(ranges[i].end, ranges[i].start)) &&
              (!targets[i].isReversed ==> r[i].selection == Selection(ranges[i].start, ranges[i].end))
  {
    seq(|targets|, i requires 0 <= i < |targets| =>
      SelectionWithEditor(targets[i].editor, DirectedSelection(targets[i].isReversed, ranges[i])))
  }
}
