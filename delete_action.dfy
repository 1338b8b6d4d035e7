/**
 * The delete action: each target's removal range (its removal range or content
 * range, widened by a trailing or else a leading delimiter) is replaced by
 * nothing, and the "that" mark is the removed ranges as they are after the
 * edits, in each target's direction.
 */
module DeleteAction {
  import opened Wrappers
  import opened Geometry
  import opened TargetTypes
  import opened SelectionUtils
  import opened UpdateSelections

  /** What a target removes before delimiters are considered. */
  function BaseRemovalRange(t: Target): Range {
    if t.removalRange.Some? then t.removalRange.value else t.contentRange
  }

  /** The delimiter removed with a target: the trailing one if there is one, else the leading one. */
  function RemovedDelimiter(t: Target): Option<Range> {
    if t.trailingDelimiterRange.Some? then t.trailingDelimiterRange else t.leadingDelimiterRange
  }

  /**
   * `getRemovalRange`: the base range, joined with the removed delimiter when
   * there is one; the result covers both and ends at their outer ends.
   */
  function GetRemovalRange(t: Target): (r: Range)
    requires RangesValid(t)
    ensures r.Valid() && r.ContainsRange(BaseRemovalRange(t))
    ensures RemovedDelimiter(t).None? ==> r == BaseRemovalRange(t)
    ensures RemovedDelimiter(t).Some? ==>
              r.ContainsRange(RemovedDelimiter(t).value) &&
              (r.start == BaseRemovalRange(t).start || r.start == RemovedDelimiter(t).value.start) &&
              (r.end == BaseRemovalRange(t).end || r.end == RemovedDelimiter(t).value.end)
  {
    var base := BaseRemovalRange(t);
    match RemovedDelimiter(t)
    case Some(delimiter) => Union(base, delimiter)
    case None => base
  }

  /** A trailing delimiter wins: the leading one makes no difference once a trailing one exists. */
  lemma TrailingDelimiterPreferred(t: Target)
    requires RangesValid(t) && t.trailingDelimiterRange.Some?
    ensures GetRemovalRange(t) == GetRemovalRange(t.(leadingDelimiterRange := None))
    ensures GetRemovalRange(t).ContainsRange(t.trailingDelimiterRange.value)
  {
  }

  /** Without a removal range, the content range is what is removed. */
  lemma ContentRangeIsDefault(t: Target)
    requires RangesValid(t) && t.removalRange.None?
    ensures GetRemovalRange(t) == GetRemovalRange(t.(removalRange := Some(t.contentRange)))
    ensures GetRemovalRange(t).ContainsRange(t.contentRange)
  {
  }

  /** The edits of one editor: every removal range replaced by the empty string. */
  function DeleteEdits(targets: seq<Target>): (edits: seq<Edit>)
    requires forall i :: 0 <= i < |targets| ==> RangesValid(targets[i])
    ensures |edits| == |targets|
    ensures forall i :: 0 <= i < |edits| ==>
              edits[i].text == "" && !edits[i].isReplace && edits[i].range == GetRemovalRange(targets[i])
  {
    seq(|targets|, i requires 0 <= i < |targets| => Edit(GetRemovalRange(targets[i]), "", false))
  }

  /**
   * The per-editor step of `run`: the edits, and the that mark built from the
   * removal ranges after the edits (`update` stands for the range updater).
   */
  function DeleteInEditor(targets: seq<Target>, update: Range -> ValidRange): (r: (seq<Edit>, seq<SelectionWithEditor>))
    requires forall i :: 0 <= i < |targets| ==> RangesValid(targets[i])
    ensures r.0 == DeleteEdits(targets)
    ensures |r.1| == |targets|
    ensures forall i :: 0 <= i < |targets| ==>
              r.1[i].editor == targets[i].editor &&
              r.1[i].selection.AsRange() == update(GetRemovalRange(targets[i])) &&
              (!update(GetRemovalRange(targets[i])).IsEmpty() ==> IsReversed(r.1[i].selection) == targets[i].isReversed)
  {
    var edits := DeleteEdits(targets);
    var updatedRanges: seq<Range> := seq(|edits|, i requires 0 <= i < |edits| => update(edits[i].range));
    var thatMark := CreateThatMark(targets, updatedRanges);
    assert forall i :: 0 <= i < |targets| ==>
      !updatedRanges[i].IsEmpty() ==> IsReversed(thatMark[i].selection) == targets[i].isReversed;
    (edits, thatMark)
  }
}
