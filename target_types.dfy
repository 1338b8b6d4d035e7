/**
 * A target as the pipeline stages and the actions see it: the editor it lives in,
 * its direction, its content range, and the optional ranges and sub-targets that a
 * target may offer (removal range, delimiter ranges, interior, boundary, the range
 * reported as "that").
 */
module TargetTypes {
  import opened Wrappers
  import opened Geometry

  datatype Target = Target(
    editor: EditorId,
    isReversed: bool,
    contentRange: Range,
    delimiter: Option<string>,
    removalRange: Option<Range>,
    leadingDelimiterRange: Option<Range>,
    trailingDelimiterRange: Option<Range>,
    isLine: bool,
    removalHighlightRange: Range,
    interior: Option<seq<Target>>,
    boundary: Option<seq<Target>>,
    thatContentRange: Range)
  {
    /** The target with its content range replaced and everything else kept. */
    function WithContentRange(r: Range): (t: Target)
      ensures t.contentRange == r && t.editor == editor && t.isReversed == isReversed
    {
      this.(contentRange := r)
    }
  }

  /** The target's ranges are all well formed, as the host's range objects always are. */
  predicate RangesValid(t: Target) {
    t.contentRange.Valid() &&
    (t.removalRange.Some? ==> t.removalRange.value.Valid()) &&
    (t.leadingDelimiterRange.Some? ==> t.leadingDelimiterRange.value.Valid()) &&
    (t.trailingDelimiterRange.Some? ==> t.trailingDelimiterRange.value.Valid()) &&
    t.removalHighlightRange.Valid() && t.thatContentRange.Valid()
  }

  /** A target carrying nothing beyond its editor, direction and content range. */
  function PlainTarget(editor: EditorId, isReversed: bool, contentRange: Range): (t: Target)
    ensures t.editor == editor && t.isReversed == isReversed && t.contentRange == contentRange
  {
    Target(editor, isReversed, contentRange, None, None, None, None, false,
           contentRange, None, None, contentRange)
  }
}
