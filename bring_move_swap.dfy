/**
 * Bring, move and swap: each source is paired with a destination; the
 * destination's selection is replaced by the source's text, and for move and
 * swap the source is edited too (cleared by move, given the destination's text
 * by swap), once per source even when one source serves several destinations.
 * The "that" mark follows the edited ranges, keeping only destination edits
 * except for swap, each in the direction of its original selection.
 *
 * A typed selection carries an `id` standing for the identity of the source
 * object: the list of used sources is compared by identity.
 */
module BringMoveSwap {
  import opened Wrappers
  import opened Geometry
  import opened SelectionUtils

  datatype ActionType = Bring | Move | Swap

  datatype TypedSelection = TypedSelection(id: nat, selection: SelectionWithEditor)

  datatype ExtendedEdit = ExtendedEdit(editor: EditorId, range: Range, newText: string, targetsIndex: nat,
                                       originalSelection: TypedSelection)

  /** The helpers the action relies on, which are not part of this model. */
  datatype Helpers = Helpers(
    textAdjustPosition: (TypedSelection, TypedSelection) -> string,  // `getTextAdjustPosition`
    getText: SelectionWithEditor -> string,                          // the destination document's text
    outsideRange: TypedSelection -> Range)                           // `performOutsideAdjustment`

  /**
   * `broadcastSource`: for bring and move, a single source is repeated once
   * per destination; swap and several sources are left as they are.
   */
  function BroadcastSource(kind: ActionType, sources: seq<TypedSelection>, destinations: seq<TypedSelection>)
    : (r: seq<TypedSelection>)
    ensures |sources| == 1 && kind != Swap ==> |r| == |destinations| && forall i :: 0 <= i < |r| ==> r[i] == sources[0]
    ensures !(|sources| == 1 && kind != Swap) ==> r == sources
  {
    if |sources| == 1 && kind != Swap then seq(|destinations|, _ => sources[0]) else sources
  }

  /** The destination edit of a pair: its selection gets the source's text. */
  function DestinationEdit(source: TypedSelection, destination: TypedSelection, h: Helpers): (e: ExtendedEdit)
    ensures e.targetsIndex == 0 && e.originalSelection == destination
    ensures e.editor == destination.selection.editor && e.range == destination.selection.selection.AsRange()
    ensures e.newText == h.textAdjustPosition(source, destination)
  {
    ExtendedEdit(destination.selection.editor, destination.selection.selection.AsRange(),
                 h.textAdjustPosition(source, destination), 0, destination)
  }

  /** The source edit of a pair: swap gives it the destination's text, move clears its outside range. */
  function SourceEdit(kind: ActionType, source: TypedSelection, destination: TypedSelection, h: Helpers): (e: ExtendedEdit)
    ensures e.targetsIndex == 1 && e.originalSelection == source && e.editor == source.selection.editor
    ensures kind == Swap ==> e.range == source.selection.selection.AsRange() && e.newText == h.getText(destination.selection)
    ensures kind != Swap ==> e.range == h.outsideRange(source) && e.newText == ""
  {
    if kind == Swap then
      ExtendedEdit(source.selection.editor, source.selection.selection.AsRange(), h.getText(destination.selection), 1, source)
    else
      ExtendedEdit(source.selection.editor, h.outsideRange(source), "", 1, source)
  }

  /** The edits of one pair: the destination edit, then a source edit unless bringing or the source was already used. */
  function PairEdits(kind: ActionType, source: TypedSelection, destination: TypedSelection, used: set<nat>, h: Helpers)
    : (r: seq<ExtendedEdit>)
    ensures 1 <= |r| <= 2 && r[0].targetsIndex == 0 && r[0].originalSelection == destination
    ensures |r| == 2 <==> kind != Bring && source.id !in used
    ensures |r| == 2 ==> r[1].targetsIndex == 1 && r[1].originalSelection == source
  {
    [DestinationEdit(source, destination, h)] +
    (if kind != Bring && source.id !in used then [SourceEdit(kind, source, destination, h)] else [])
  }

  /** The edits of the pairs from index `i` on, given the sources used before. */
  function EditsFrom(kind: ActionType, sources: seq<TypedSelection>, destinations: seq<TypedSelection>, i: nat,
                     used: set<nat>, h: Helpers): (r: seq<ExtendedEdit>)
    requires |sources| == |destinations| && i <= |sources|
    decreases |sources| - i
  {
    if i == |sources| then []
    else
      var used' := if kind != Bring then used + {sources[i].id} else used;
      PairEdits(kind, sources[i], destinations[i], used, h) + EditsFrom(kind, sources, destinations, i + 1, used', h)
  }

  /** Each pair from index `i` on makes one edit, or two when it also edits its source. */
  lemma {:induction false} EditsFromSize(kind: ActionType, sources: seq<TypedSelection>, destinations: seq<TypedSelection>,
                                         i: nat, used: set<nat>, h: Helpers)
    requires |sources| == |destinations| && i <= |sources|
    ensures |sources| - i <= |EditsFrom(kind, sources, destinations, i, used, h)| <= 2 * (|sources| - i)
    decreases |sources| - i
  {
    if i < |sources| {
      var used' := if kind != Bring then used + {sources[i].id} else used;
      EditsFromSize(kind, sources, destinations, i + 1, used', h);
    }
  }

  /** Moving pair `i`'s edits from the edits still to come onto those made so far keeps the whole. */
  lemma EditsFromStep(kind: ActionType, sources: seq<TypedSelection>, destinations: seq<TypedSelection>, i: nat,
                      used: set<nat>, h: Helpers, made: seq<ExtendedEdit>)
    requires |sources| == |destinations| && i < |sources|
    ensures var used' := if kind != Bring then used + {sources[i].id} else used;
            made + EditsFrom(kind, sources, destinations, i, used, h) ==
            (made + PairEdits(kind, sources[i], destinations[i], used, h)) + EditsFrom(kind, sources, destinations, i + 1, used', h)
  {
    var used' := if kind != Bring then used + {sources[i].id} else used;
    var pair := PairEdits(kind, sources[i], destinations[i], used, h);
    var later := EditsFrom(kind, sources, destinations, i + 1, used', h);
    assert EditsFrom(kind, sources, destinations, i, used, h) == pair + later;
    assert made + (pair + later) == (made + pair) + later;
  }

  /**
   * `getEdits`: a length mismatch fails with "Targets must have same number
   * of args"; otherwise the pairs' edits in order, remembering used sources.
   */
  method GetEdits(kind: ActionType, sources: seq<TypedSelection>, destinations: seq<TypedSelection>, h: Helpers)
    returns (r: Result<seq<ExtendedEdit>>)
    ensures r.Err? <==> |sources| != |destinations|
    ensures r.Err? ==> r.error == LengthMismatch
    ensures r.Ok? ==> r.value == EditsFrom(kind, sources, destinations, 0, {}, h)
  {
    if |sources| != |destinations| {
      return Err(LengthMismatch);
    }
    var usedSources: set<nat> := {};
    var result: seq<ExtendedEdit> := [];
    var i := 0;
    while i < |sources|
      invariant 0 <= i <= |sources|
      invariant result + EditsFrom(kind, sources, destinations, i, usedSources, h) ==
                EditsFrom(kind, sources, destinations, 0, {}, h)
    {
      var source := sources[i];
      var destination := destinations[i];
      var pair := [DestinationEdit(source, destination, h)];
      if kind != Bring && source.id !in usedSources {
        pair := pair + [SourceEdit(kind, source, destination, h)];
      }
      assert pair == PairEdits(kind, source, destination, usedSources, h);
      EditsFromStep(kind, sources, destinations, i, usedSources, h, result);
      if kind != Bring {
        usedSources := usedSources + {source.id};
      }
      result := result + pair;
      i := i + 1;
    }
    return Ok(result);
  }

  /** The source edits, in order. */
  function SourceEdits(edits: seq<ExtendedEdit>): seq<ExtendedEdit> {
    if edits == [] then []
    else (if edits[0].targetsIndex == 1 then [edits[0]] else []) + SourceEdits(edits[1..])
  }

  lemma {:induction false} SourceEditsAppend(a: seq<ExtendedEdit>, b: seq<ExtendedEdit>)
    ensures SourceEdits(a + b) == SourceEdits(a) + SourceEdits(b)
  {
    if a == [] {
      assert a + b == b;
    } else {
      assert (a + b)[1..] == a[1..] + b;
      SourceEditsAppend(a[1..], b);
    }
  }

  /** The source edit a pair contributes, if any. */
  function PairSourceEdit(kind: ActionType, source: TypedSelection, destination: TypedSelection, used: set<nat>, h: Helpers)
    : seq<ExtendedEdit>
  {
    if kind != Bring && source.id !in used then [SourceEdit(kind, source, destination, h)] else []
  }

  /** The source edits from index `i` on: pair `i`'s, then those of the later pairs. */
  lemma SourceEditsStep(kind: ActionType, sources: seq<TypedSelection>, destinations: seq<TypedSelection>, i: nat,
                        used: set<nat>, h: Helpers)
    requires |sources| == |destinations| && i < |sources|
    ensures var used' := if kind != Bring then used + {sources[i].id} else used;
            SourceEdits(EditsFrom(kind, sources, destinations, i, used, h)) ==
            PairSourceEdit(kind, sources[i], destinations[i], used, h) +
            SourceEdits(EditsFrom(kind, sources, destinations, i + 1, used', h))
  {
    var used' := if kind != Bring then used + {sources[i].id} else used;
    var pair := PairEdits(kind, sources[i], destinations[i], used, h);
    var tail := PairSourceEdit(kind, sources[i], destinations[i], used, h);
    assert pair == [DestinationEdit(sources[i], destinations[i], h)] + tail;
    SourceEditsAppend(pair, EditsFrom(kind, sources, destinations, i + 1, used', h));
    SourceEditsAppend([DestinationEdit(sources[i], destinations[i], h)], tail);
    if tail != [] {
      assert tail[1..] == [];
    }
  }

  /** The source edits from index `i` on are for sources at or after `i` that were not used before; bring makes none. */
  lemma {:induction false} SourceEditsAreFresh(kind: ActionType, sources: seq<TypedSelection>,
                                               destinations: seq<TypedSelection>, i: nat, used: set<nat>, h: Helpers)
    requires |sources| == |destinations| && i <= |sources|
    ensures var s := SourceEdits(EditsFrom(kind, sources, destinations, i, used, h));
            (kind == Bring ==> s == []) &&
            forall e :: e in s ==> e.originalSelection.id !in used && e.originalSelection in sources[i..]
    decreases |sources| - i
  {
    if i < |sources| {
      var used' := if kind != Bring then used + {sources[i].id} else used;
      var head := PairSourceEdit(kind, sources[i], destinations[i], used, h);
      var rest := SourceEdits(EditsFrom(kind, sources, destinations, i + 1, used', h));
      assert (kind == Bring ==> rest == []) &&
             forall e :: e in rest ==> e.originalSelection.id !in used' && e.originalSelection in sources[i + 1..] by {
        SourceEditsAreFresh(kind, sources, destinations, i + 1, used', h);
      }
      assert SourceEdits(EditsFrom(kind, sources, destinations, i, used, h)) == head + rest by {
        SourceEditsStep(kind, sources, destinations, i, used, h);
      }
      assert forall x :: x in sources[i + 1..] ==> x in sources[i..];
      assert sources[i] in sources[i..];
      assert head != [] ==> head[0].originalSelection == sources[i] && sources[i].id !in used;
    }
  }

  /** No two edits in `edits` are for the same source. */
  predicate DistinctSources(edits: seq<ExtendedEdit>) {
    forall k, l :: 0 <= k < l < |edits| ==> edits[k].originalSelection.id != edits[l].originalSelection.id
  }

  /** At most one edit for a used source, in front of edits for unused sources that are distinct, stays distinct. */
  lemma PrependUsedSource(head: seq<ExtendedEdit>, rest: seq<ExtendedEdit>, used: set<nat>)
    requires |head| <= 1 && (head != [] ==> head[0].originalSelection.id in used)
    requires forall e :: e in rest ==> e.originalSelection.id !in used
    requires DistinctSources(rest)
    ensures DistinctSources(head + rest)
  {
    var s := head + rest;
    forall k, l | 0 <= k < l < |s| ensures s[k].originalSelection.id != s[l].originalSelection.id {
      assert s[l] == rest[l - |head|];
      assert rest[l - |head|] in rest;
      if k >= |head| {
        assert s[k] == rest[k - |head|];
      }
    }
  }

  /** No source gets two source edits. */
  lemma {:induction false} SourceEditsDistinct(kind: ActionType, sources: seq<TypedSelection>,
                                               destinations: seq<TypedSelection>, i: nat, used: set<nat>, h: Helpers)
    requires |sources| == |destinations| && i <= |sources|
    ensures DistinctSources(SourceEdits(EditsFrom(kind, sources, destinations, i, used, h)))
    decreases |sources| - i
  {
    if i < |sources| {
      var used' := if kind != Bring then used + {sources[i].id} else used;
      var head := PairSourceEdit(kind, sources[i], destinations[i], used, h);
      var rest := SourceEdits(EditsFrom(kind, sources, destinations, i + 1, used', h));
      assert DistinctSources(rest) by {
        SourceEditsDistinct(kind, sources, destinations, i + 1, used', h);
      }
      assert forall e :: e in rest ==> e.originalSelection.id !in used' by {
        SourceEditsAreFresh(kind, sources, destinations, i + 1, used', h);
      }
      assert |head| <= 1 && (head != [] ==> head[0].originalSelection.id in used') by {
        if head != [] {
          assert head[0] == SourceEdit(kind, sources[i], destinations[i], h);
        }
      }
      PrependUsedSource(head, rest, used');
      assert SourceEdits(EditsFrom(kind, sources, destinations, i, used, h)) == head + rest by {
        SourceEditsStep(kind, sources, destinations, i, used, h);
      }
    }
  }

  /** Pair `i`'s destination edit: its selection as the range, the adjusted source text, and targets index 0. */
  lemma {:induction false} DestinationEditOfPair(kind: ActionType, sources: seq<TypedSelection>,
                                                 destinations: seq<TypedSelection>, i: nat, used: set<nat>,
                                                 h: Helpers, j: nat)
    requires |sources| == |destinations| && i <= j < |sources|
    ensures DestinationEdit(sources[j], destinations[j], h) in EditsFrom(kind, sources, destinations, i, used, h)
    ensures var e := DestinationEdit(sources[j], destinations[j], h);
            e.targetsIndex == 0 && e.range == destinations[j].selection.selection.AsRange() &&
            e.newText == h.textAdjustPosition(sources[j], destinations[j])
    decreases |sources| - i
  {
    if i < j {
      var used' := if kind != Bring then used + {sources[i].id} else used;
      DestinationEditOfPair(kind, sources, destinations, i + 1, used', h, j);
    }
  }

  /** A bring has exactly one edit per destination, each a destination edit. */
  lemma {:induction false} BringEditsDestinationsOnly(sources: seq<TypedSelection>, destinations: seq<TypedSelection>,
                                                      i: nat, used: set<nat>, h: Helpers)
    requires |sources| == |destinations| && i <= |sources|
    ensures var e := EditsFrom(Bring, sources, destinations, i, used, h);
            |e| == |sources| - i && forall k :: 0 <= k < |e| ==> e[k] == DestinationEdit(sources[i + k], destinations[i + k], h)
    decreases |sources| - i
  {
    if i < |sources| {
      BringEditsDestinationsOnly(sources, destinations, i + 1, used, h);
    }
  }

  /** Once every remaining source has been used, no further source edits are made. */
  lemma {:induction false} UsedSourcesNotEditedAgain(kind: ActionType, sources: seq<TypedSelection>,
                                                     destinations: seq<TypedSelection>, i: nat, used: set<nat>,
                                                     h: Helpers)
    requires |sources| == |destinations| && i <= |sources|
    requires forall j :: i <= j < |sources| ==> sources[j].id in used
    ensures SourceEdits(EditsFrom(kind, sources, destinations, i, used, h)) == []
    decreases |sources| - i
  {
    if i < |sources| {
      var used' := if kind != Bring then used + {sources[i].id} else used;
      UsedSourcesNotEditedAgain(kind, sources, destinations, i + 1, used', h);
      SourceEditsStep(kind, sources, destinations, i, used, h);
    }
  }

  /** A single source broadcast to several destinations is moved (cleared) exactly once. */
  lemma BroadcastMoveClearsSourceOnce(source: TypedSelection, destinations: seq<TypedSelection>, h: Helpers)
    requires |destinations| >= 1
    ensures var sources := BroadcastSource(Move, [source], destinations);
            SourceEdits(EditsFrom(Move, sources, destinations, 0, {}, h)) == [SourceEdit(Move, source, destinations[0], h)]
  {
    var sources := BroadcastSource(Move, [source], destinations);
    assert sources[0] == source;
    assert {} + {sources[0].id} == {source.id};
    SourceEditsStep(Move, sources, destinations, 0, {}, h);
    UsedSourcesNotEditedAgain(Move, sources, destinations, 1, {source.id}, h);
    assert PairSourceEdit(Move, sources[0], destinations[0], {}, h) == [SourceEdit(Move, source, destinations[0], h)];
  }

  // ---------------------------------------------------------------------------
  // The "that" mark

  datatype ThatMarkEntry = ThatMarkEntry(editor: EditorId, targetsIndex: nat, typedSelection: TypedSelection,
                                         selection: Selection)

  /** One entry: the edit's new range, in the direction of the edit's original selection. */
  function MakeEntry(editor: EditorId, edit: ExtendedEdit, newRange: ValidRange): (e: ThatMarkEntry)
    ensures e.editor == editor && e.targetsIndex == edit.targetsIndex
    ensures e.selection.AsRange() == newRange
    ensures !newRange.IsEmpty() ==> IsReversed(e.selection) == IsReversed(edit.originalSelection.selection.selection)
    ensures e.typedSelection.id == edit.originalSelection.id && e.typedSelection.selection.selection == e.selection
  {
    var selection := DirectedSelection(IsReversed(edit.originalSelection.selection.selection), newRange);
    ThatMarkEntry(editor, edit.targetsIndex,
                  edit.originalSelection.(selection := edit.originalSelection.selection.(selection := selection)),
                  selection)
  }

  /**
   * The per-editor step of `performEditsAndComputeThatMark`: each edit with
   * its range after the edits (`newRanges`), keeping only destination edits
   * unless swapping.
   */
  function ThatMarkInEditor(kind: ActionType, editor: EditorId, edits: seq<ExtendedEdit>, newRanges: seq<ValidRange>)
    : (r: seq<ThatMarkEntry>)
    requires |edits| == |newRanges|
    ensures kind == Swap ==> |r| == |edits|
    ensures kind != Swap ==> forall j :: 0 <= j < |r| ==> r[j].targetsIndex == 0
    ensures forall k :: 0 <= k < |edits| && (kind == Swap || edits[k].targetsIndex == 0) ==>
              MakeEntry(editor, edits[k], newRanges[k]) in r
    ensures forall j :: 0 <= j < |r| ==> exists k :: 0 <= k < |edits| && r[j] == MakeEntry(editor, edits[k], newRanges[k])
  {
    if edits == [] then []
    else
      var rest := ThatMarkInEditor(kind, editor, edits[1..], newRanges[1..]);
      assert forall k :: 1 <= k < |edits| ==> edits[k] == edits[1..][k - 1] && newRanges[k] == newRanges[1..][k - 1];
      (if kind == Swap || edits[0].targetsIndex == 0 then [MakeEntry(editor, edits[0], newRanges[0])] else []) + rest
  }

  lemma SplitFirst<T>(a: seq<T>, b: seq<T>)
    requires a != []
    ensures (a + b)[..1] == a[..1] && (a + b)[1..] == a[1..] + b
  {
  }

  lemma AppendAssociative<T>(x: seq<T>, y: seq<T>, z: seq<T>)
    ensures x + (y + z) == (x + y) + z
  {
  }

  /** One edit gives its entry when it is kept (every edit for swap, destination edits otherwise) and none else. */
  lemma ThatMarkInEditorSingle(kind: ActionType, editor: EditorId, edit: ExtendedEdit, newRange: ValidRange)
    ensures ThatMarkInEditor(kind, editor, [edit], [newRange]) ==
            if kind == Swap || edit.targetsIndex == 0 then [MakeEntry(editor, edit, newRange)] else []
  {
  }

  /** The entries of a run of edits are its first edit's entry, if kept, then the rest's. */
  lemma ThatMarkInEditorStep(kind: ActionType, editor: EditorId, edits: seq<ExtendedEdit>, newRanges: seq<ValidRange>)
    requires |edits| == |newRanges| && edits != []
    ensures ThatMarkInEditor(kind, editor, edits, newRanges) ==
            ThatMarkInEditor(kind, editor, edits[..1], newRanges[..1]) + ThatMarkInEditor(kind, editor, edits[1..], newRanges[1..])
  {
    assert edits[..1] == [edits[0]] && newRanges[..1] == [newRanges[0]];
    ThatMarkInEditorSingle(kind, editor, edits[0], newRanges[0]);
  }

  /**
   * The entries of two runs of edits are the first run's entries followed by the
   * second's: the filter keeps the edits' order and gives each kept edit one entry.
   */
  lemma {:induction false} ThatMarkInEditorAppend(kind: ActionType, editor: EditorId,
                                                  a: seq<ExtendedEdit>, ra: seq<ValidRange>,
                                                  b: seq<ExtendedEdit>, rb: seq<ValidRange>)
    requires |a| == |ra| && |b| == |rb|
    ensures ThatMarkInEditor(kind, editor, a + b, ra + rb) ==
            ThatMarkInEditor(kind, editor, a, ra) + ThatMarkInEditor(kind, editor, b, rb)
    decreases |a|
  {
    if a == [] {
      assert a + b == b && ra + rb == rb;
    } else {
      var head := ThatMarkInEditor(kind, editor, a[..1], ra[..1]);
      var restA := ThatMarkInEditor(kind, editor, a[1..], ra[1..]);
      var entriesB := ThatMarkInEditor(kind, editor, b, rb);
      assert ThatMarkInEditor(kind, editor, a, ra) == head + restA by {
        ThatMarkInEditorStep(kind, editor, a, ra);
      }
      assert ThatMarkInEditor(kind, editor, a + b, ra + rb) == head + (restA + entriesB) by {
        ThatMarkInEditorStep(kind, editor, a + b, ra + rb);
        SplitFirst(a, b);
        SplitFirst(ra, rb);
        ThatMarkInEditorAppend(kind, editor, a[1..], ra[1..], b, rb);
      }
      AppendAssociative(head, restA, entriesB);
    }
  }

  /** When swapping, the entries follow the editor's edits in order: entry `k` is edit `k`'s. */
  lemma {:induction false} SwapThatMarkInOrder(editor: EditorId, edits: seq<ExtendedEdit>, newRanges: seq<ValidRange>, k: nat)
    requires |edits| == |newRanges| && k < |edits|
    ensures |ThatMarkInEditor(Swap, editor, edits, newRanges)| == |edits|
    ensures ThatMarkInEditor(Swap, editor, edits, newRanges)[k] == MakeEntry(editor, edits[k], newRanges[k])
    decreases k
  {
    if k > 0 {
      SwapThatMarkInOrder(editor, edits[1..], newRanges[1..], k - 1);
    }
  }
}
