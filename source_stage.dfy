/**
 * The mark stage for the "source" mark: one target per selection of the source
 * mark, carrying that selection's editor, its direction and its range, together
 * with the token context the token stage computes for it.
 */
module SourceStage {
  import opened Wrappers
  import opened Geometry
  import opened TargetTypes
  import opened SelectionUtils

  /** The fields the token stage adds to a target: delimiter, removal and delimiter ranges. */
  datatype TokenContext = TokenContext(
    delimiter: Option<string>,
    removalRange: Option<Range>,
    leadingDelimiterRange: Option<Range>,
    trailingDelimiterRange: Option<Range>)

  function SourceTarget(s: SelectionWithEditor, context: TokenContext): Target {
    PlainTarget(s.editor, IsReversed(s.selection), s.selection.AsRange()).(
      delimiter := context.delimiter,
      removalRange := context.removalRange,
      leadingDelimiterRange := context.leadingDelimiterRange,
      trailingDelimiterRange := context.trailingDelimiterRange)
  }

  /**
   * `run`: the source mark's selections, in order, as targets. `tokenContext`
   * stands for the token stage's context computation, which is not part of this model.
   */
  function Run(sourceMark: seq<SelectionWithEditor>,
               tokenContext: (EditorId, Selection) -> TokenContext): (r: seq<Target>)
    ensures |r| == |sourceMark|
    ensures forall i :: 0 <= i < |r| ==>
              var s := sourceMark[i];
              var c := tokenContext(s.editor, s.selection);
              r[i].editor == s.editor &&
              r[i].contentRange == s.selection.AsRange() &&
              (r[i].isReversed <==> IsBefore(s.selection.active, s.selection.anchor)) &&
              r[i].delimiter == c.delimiter && r[i].removalRange == c.removalRange &&
              r[i].leadingDelimiterRange == c.leadingDelimiterRange &&
              r[i].trailingDelimiterRange == c.trailingDelimiterRange
  {
    seq(|sourceMark|, i requires 0 <= i < |sourceMark| =>
      SourceTarget(sourceMark[i], tokenContext(sourceMark[i].editor, sourceMark[i].selection)))
  }

  /** Building a that mark from the source targets and their content ranges gives back the source mark. */
  lemma SourceTargetsRecoverSelections(sourceMark: seq<SelectionWithEditor>,
                                       tokenContext: (EditorId, Selection) -> TokenContext)
    ensures var targets := Run(sourceMark, tokenContext);
            CreateThatMark(targets, seq(|targets|, i requires 0 <= i < |targets| => targets[i].contentRange))
              == sourceMark
  {
    var targets := Run(sourceMark, tokenContext);
    var ranges := seq(|targets|, i requires 0 <= i < |targets| => targets[i].contentRange);
    var mark := CreateThatMark(targets, ranges);
    forall i | 0 <= i < |mark|
      ensures mark[i] == sourceMark[i]
    {
      var s := sourceMark[i].selection;
      if IsReversed(s) {
        assert mark[i].selection == Selection(s.End(), s.Start());
      } else {
        assert mark[i].selection == Selection(s.Start(), s.End());
      }
    }
  }
}
