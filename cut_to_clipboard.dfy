/**
 * The cut action's flashes: a target's content is flashed as referenced, and
 * what the removal adds around it as pending deletion: for a line target its
 * whole removal highlight as lines, otherwise the parts of the removal
 * highlight that stick out of the content on either side.
 */
module CutToClipboard {
  import opened Geometry
  import opened TargetTypes

  datatype GeneralizedRange = CharacterRange(start: Position, end: Position) | LineRange(startLine: nat, endLine: nat)

  function ToCharacterRange(r: Range): GeneralizedRange {
    CharacterRange(r.start, r.end)
  }

  function ToLineRange(r: Range): GeneralizedRange {
    LineRange(r.start.line, r.end.line)
  }

  datatype FlashStyle = Referenced | PendingDelete

  datatype FlashDescriptor = FlashDescriptor(editor: EditorId, range: GeneralizedRange, style: FlashStyle)

  /**
   * The parts of `outside` beyond `inside`: a leading part from the outside
   * start to the inside start when the outside starts first, then a trailing
   * part from the inside end to the outside end when the outside ends later.
   */
  function OutsideOverflow(inside: Range, outside: Range): (r: seq<Range>)
    ensures |r| == (if IsBefore(outside.start, inside.start) then 1 else 0) +
                   (if IsBefore(inside.end, outside.end) then 1 else 0)
    ensures IsBefore(outside.start, inside.start) ==> r[0] == Range(outside.start, inside.start)
    ensures IsBefore(inside.end, outside.end) ==> r[|r| - 1] == Range(inside.end, outside.end)
    ensures forall k :: 0 <= k < |r| ==>
              r[k].Valid() && !r[k].IsEmpty() &&
              (IsBeforeOrEqual(r[k].end, inside.start) || IsBeforeOrEqual(inside.end, r[k].start))
  {
    (if IsBefore(outside.start, inside.start) then [Range(outside.start, inside.start)] else []) +
    (if IsBefore(inside.end, outside.end) then [Range(inside.end, outside.end)] else [])
  }

  /** An outside range that contains the inside range is covered exactly by the overflow and the inside range. */
  lemma OverflowCoversOutside(inside: Range, outside: Range, p: Position)
    requires inside.Valid() && outside.ContainsRange(inside)
    ensures outside.ContainsPosition(p) <==>
              inside.ContainsPosition(p) || exists k :: 0 <= k < |OutsideOverflow(inside, outside)| &&
                                                        OutsideOverflow(inside, outside)[k].ContainsPosition(p)
  {
    var r := OutsideOverflow(inside, outside);
    if outside.ContainsPosition(p) && !inside.ContainsPosition(p) {
      if IsBefore(p, inside.start) {
        assert r[0].ContainsPosition(p);
      } else {
        assert r[|r| - 1].ContainsPosition(p);
      }
    }
  }

  /** `getOutsideOverflow`: the list is built by pushing the leading part, then the trailing part. */
  method GetOutsideOverflow(inside: Range, outside: Range) returns (result: seq<Range>)
    ensures result == OutsideOverflow(inside, outside)
  {
    result := [];
    if IsBefore(outside.start, inside.start) {
      result := result + [Range(outside.start, inside.start)];
    }
    if IsBefore(inside.end, outside.end) {
      result := result + [Range(inside.end, outside.end)];
    }
  }

  /** The flashes of one target. */
  function TargetFlashes(t: Target): (r: seq<FlashDescriptor>)
    ensures |r| >= 1 && r[0] == FlashDescriptor(t.editor, ToCharacterRange(t.contentRange), Referenced)
    ensures forall k :: 1 <= k < |r| ==> r[k].style == PendingDelete && r[k].editor == t.editor
    ensures t.isLine ==> r == [FlashDescriptor(t.editor, ToCharacterRange(t.contentRange), Referenced),
                               FlashDescriptor(t.editor, ToLineRange(t.removalHighlightRange), PendingDelete)]
    ensures !t.isLine ==> (|r| == 1 + |OutsideOverflow(t.contentRange, t.removalHighlightRange)| &&
                           forall k :: 1 <= k < |r| ==>
                             r[k].range == ToCharacterRange(OutsideOverflow(t.contentRange, t.removalHighlightRange)[k - 1]))
  {
    var content := FlashDescriptor(t.editor, ToCharacterRange(t.contentRange), Referenced);
    if t.isLine then
      [content, FlashDescriptor(t.editor, ToLineRange(t.removalHighlightRange), PendingDelete)]
    else
      var overflow := OutsideOverflow(t.contentRange, t.removalHighlightRange);
      [content] + seq(|overflow|, k requires 0 <= k < |overflow| =>
                        FlashDescriptor(t.editor, ToCharacterRange(overflow[k]), PendingDelete))
  }

  /** The flashes of all targets, target by target. */
  function CutFlashes(targets: seq<Target>): (r: seq<FlashDescriptor>)
    ensures |r| >= |targets|
  {
    if targets == [] then [] else TargetFlashes(targets[0]) + CutFlashes(targets[1..])
  }

  /** One target's flashes are that target's own. */
  lemma CutFlashesSingle(t: Target)
    ensures CutFlashes([t]) == TargetFlashes(t)
  {
    assert [t][1..] == [];
  }

  /** Flashing two runs of targets flashes the first run, then the second. */
  lemma {:induction false} CutFlashesAppend(a: seq<Target>, b: seq<Target>)
    ensures CutFlashes(a + b) == CutFlashes(a) + CutFlashes(b)
    decreases |a|
  {
    if a == [] {
      assert a + b == b;
    } else {
      var head := TargetFlashes(a[0]);
      assert (a + b)[0] == a[0] && (a + b)[1..] == a[1..] + b;
      CutFlashesAppend(a[1..], b);
      assert head + (CutFlashes(a[1..]) + CutFlashes(b)) == (head + CutFlashes(a[1..])) + CutFlashes(b);
    }
  }

  /** The referenced flashes are the targets' content ranges, in target order. */
  lemma {:induction false} ReferencedInTargetOrder(targets: seq<Target>)
    ensures ReferencedFlashes(CutFlashes(targets)) ==
            seq(|targets|, k requires 0 <= k < |targets| =>
                  FlashDescriptor(targets[k].editor, ToCharacterRange(targets[k].contentRange), Referenced))
  {
    if targets != [] {
      var first := TargetFlashes(targets[0]);
      ReferencedInTargetOrder(targets[1..]);
      ReferencedAppend(first, CutFlashes(targets[1..]));
      ReferencedAppend([first[0]], first[1..]);
      assert first == [first[0]] + first[1..];
      assert ReferencedFlashes(first[1..]) == [] by {
        NoReferenced(first[1..]);
      }
      assert ReferencedFlashes([first[0]]) == [first[0]] by {
        assert [first[0]][1..] == [];
      }
    }
  }

  /** Every target contributes exactly one referenced flash; all other flashes are pending deletions. */
  lemma {:induction false} OneReferencedFlashPerTarget(targets: seq<Target>)
    ensures |ReferencedFlashes(CutFlashes(targets))| == |targets|
    ensures forall k :: 0 <= k < |targets| ==>
              FlashDescriptor(targets[k].editor, ToCharacterRange(targets[k].contentRange), Referenced) in CutFlashes(targets)
  {
    if targets != [] {
      var first := TargetFlashes(targets[0]);
      OneReferencedFlashPerTarget(targets[1..]);
      ReferencedAppend(first, CutFlashes(targets[1..]));
      ReferencedAppend([first[0]], first[1..]);
      assert first == [first[0]] + first[1..];
      assert ReferencedFlashes(first[1..]) == [] by {
        NoReferenced(first[1..]);
      }
      forall k | 1 <= k < |targets|
        ensures FlashDescriptor(targets[k].editor, ToCharacterRange(targets[k].contentRange), Referenced) in CutFlashes(targets)
      {
        assert targets[k] == targets[1..][k - 1];
      }
    }
  }

  /** The referenced flashes, in order. */
  function ReferencedFlashes(flashes: seq<FlashDescriptor>): seq<FlashDescriptor> {
    if flashes == [] then []
    else (if flashes[0].style == Referenced then [flashes[0]] else []) + ReferencedFlashes(flashes[1..])
  }

  lemma {:induction false} ReferencedAppend(a: seq<FlashDescriptor>, b: seq<FlashDescriptor>)
    ensures ReferencedFlashes(a + b) == ReferencedFlashes(a) + ReferencedFlashes(b)
  {
    if a == [] {
      assert a + b == b;
    } else {
      var head := if a[0].style == Referenced then [a[0]] else [];
      assert (a + b)[0] == a[0] && (a + b)[1..] == a[1..] + b;
      ReferencedAppend(a[1..], b);
      assert head + (ReferencedFlashes(a[1..]) + ReferencedFlashes(b)) ==
             (head + ReferencedFlashes(a[1..])) + ReferencedFlashes(b);
    }
  }

  lemma {:induction false} NoReferenced(flashes: seq<FlashDescriptor>)
    requires forall k :: 0 <= k < |flashes| ==> flashes[k].style == PendingDelete
    ensures ReferencedFlashes(flashes) == []
  {
    if flashes != [] {
      NoReferenced(flashes[1..]);
    }
  }
}
