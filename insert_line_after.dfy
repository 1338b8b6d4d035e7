/**
 * The "insert line after" step of the edit-new action: the destinations that
 * insert a line after themselves are handed to the host's command; every
 * destination's content range and every "that" range is tracked through the
 * command, and the cursor of each such destination is where the host left the
 * corresponding editor selection.
 */
module InsertLineAfter {
  import opened Wrappers
  import opened Geometry
  import opened TargetTypes
  import opened UpdateSelections

  /** How a destination is inserted: by the host's "insert line after" command, or by an edit. */
  datatype EditNewActionType = InsertLineAfterCommand | InsertByEdit

  datatype Destination = Destination(target: Target, actionType: EditNewActionType)

  /** A destination that the command handles, with its index among all destinations. */
  datatype CommandTarget = CommandTarget(destination: Destination, index: nat)

  /** The state the edit-new steps pass along: destinations, that ranges, and a cursor per destination (or none yet). */
  datatype State = State(destinations: seq<Destination>, thatRanges: seq<Range>, cursorRanges: seq<Option<Range>>)

  predicate IncreasingIndices(commandTargets: seq<CommandTarget>) {
    forall k, l :: 0 <= k < l < |commandTargets| ==> commandTargets[k].index < commandTargets[l].index
  }

  /**
   * The `map` with indices and the `filter`: the destinations from index
   * `from` on whose action type is the command, each with its index.
   */
  function CommandTargetsFrom(destinations: seq<Destination>, from: nat): (r: seq<CommandTarget>)
    requires from <= |destinations|
    ensures forall k :: 0 <= k < |r| ==>
              from <= r[k].index < |destinations| && r[k].destination == destinations[r[k].index] &&
              r[k].destination.actionType == InsertLineAfterCommand
    ensures IncreasingIndices(r)
    decreases |destinations| - from
  {
    if from == |destinations| then []
    else
      var rest := CommandTargetsFrom(destinations, from + 1);
      if destinations[from].actionType == InsertLineAfterCommand then
        var r := [CommandTarget(destinations[from], from)] + rest;
        forall k | 1 <= k < |r| ensures r[k] == rest[k - 1] && from < r[k].index {
        }
        r
      else rest
  }

  /** Whether some command target carries index `i`. */
  predicate Targeted(commandTargets: seq<CommandTarget>, i: nat) {
    exists k :: 0 <= k < |commandTargets| && commandTargets[k].index == i
  }

  /** Putting a command target in front keeps every index already carried and adds its own. */
  lemma TargetedAfterPrepend(head: CommandTarget, rest: seq<CommandTarget>, i: nat)
    requires head.index == i || Targeted(rest, i)
    ensures Targeted([head] + rest, i)
  {
    var r := [head] + rest;
    if head.index == i {
      assert r[0].index == i;
    } else {
      var k :| 0 <= k < |rest| && rest[k].index == i;
      assert r[k + 1].index == i;
    }
  }

  /** No destination the command handles is filtered out. */
  lemma {:induction false} CommandTargetsFromComplete(destinations: seq<Destination>, from: nat)
    requires from <= |destinations|
    ensures forall i :: from <= i < |destinations| && destinations[i].actionType == InsertLineAfterCommand ==>
              Targeted(CommandTargetsFrom(destinations, from), i)
    decreases |destinations| - from
  {
    if from < |destinations| {
      CommandTargetsFromComplete(destinations, from + 1);
      var rest := CommandTargetsFrom(destinations, from + 1);
      if destinations[from].actionType == InsertLineAfterCommand {
        var head := CommandTarget(destinations[from], from);
        assert CommandTargetsFrom(destinations, from) == [head] + rest;
        forall i | from <= i < |destinations| && destinations[i].actionType == InsertLineAfterCommand
          ensures Targeted([head] + rest, i)
        {
          TargetedAfterPrepend(head, rest, i);
        }
      } else {
        assert CommandTargetsFrom(destinations, from) == rest;
      }
    }
  }

  /**
   * The command targets: exactly the destinations whose action type is the
   * command, in order, each with its index.
   */
  function CommandTargets(destinations: seq<Destination>): (r: seq<CommandTarget>)
    ensures forall k :: 0 <= k < |r| ==>
              r[k].index < |destinations| && r[k].destination == destinations[r[k].index] &&
              r[k].destination.actionType == InsertLineAfterCommand
    ensures IncreasingIndices(r)
  {
    CommandTargetsFrom(destinations, 0)
  }

  /** Every destination whose action type is the command is among the command targets. */
  lemma CommandTargetsComplete(destinations: seq<Destination>)
    ensures forall i :: 0 <= i < |destinations| && destinations[i].actionType == InsertLineAfterCommand ==>
              Targeted(CommandTargets(destinations), i)
  {
    CommandTargetsFromComplete(destinations, 0);
  }

  /** The JavaScript assignment `a[i] = v`: an index past the end first extends the array with holes. */
  function SetAt(a: seq<Option<Range>>, i: nat, v: Option<Range>): (r: seq<Option<Range>>)
    ensures |r| == if i < |a| then |a| else i + 1
    ensures r[i] == v
    ensures forall j :: 0 <= j < |r| && j != i ==> r[j] == if j < |a| then a[j] else None
  {
    if i < |a| then a[i := v] else a + seq(i - |a|, _ => None) + [v]
  }

  /** `editor.selections[k]`, or undefined past the end, as a range. */
  function SelectionAt(selections: seq<Selection>, k: nat): Option<Range> {
    if k < |selections| then Some(selections[k].AsRange()) else None
  }

  /** The `forEach` over the command targets from the `k`-th on, as successive assignments. */
  function CursorRangesFrom(cursorRanges: seq<Option<Range>>, commandTargets: seq<CommandTarget>, k: nat,
                            selections: seq<Selection>)
    : (r: seq<Option<Range>>)
    requires k <= |commandTargets|
    ensures |r| >= |cursorRanges|
    decreases |commandTargets| - k
  {
    if k == |commandTargets| then cursorRanges
    else CursorRangesFrom(SetAt(cursorRanges, commandTargets[k].index, SelectionAt(selections, k)),
                          commandTargets, k + 1, selections)
  }

  /**
   * After the assignments from the `k`-th on, each of those command targets'
   * entries holds the selection at its position, and every other entry is
   * what it was (or a hole, past the old end).
   */
  lemma {:induction false} CursorRangesFromSpec(cursorRanges: seq<Option<Range>>, commandTargets: seq<CommandTarget>,
                                                k: nat, selections: seq<Selection>)
    requires k <= |commandTargets| && IncreasingIndices(commandTargets)
    ensures var r := CursorRangesFrom(cursorRanges, commandTargets, k, selections);
            |r| >= |cursorRanges| &&
            (forall m :: k <= m < |commandTargets| ==>
               commandTargets[m].index < |r| && r[commandTargets[m].index] == SelectionAt(selections, m)) &&
            (forall j :: 0 <= j < |r| && (forall m :: k <= m < |commandTargets| ==> commandTargets[m].index != j) ==>
               r[j] == if j < |cursorRanges| then cursorRanges[j] else None)
    decreases |commandTargets| - k
  {
    if k < |commandTargets| {
      var i := commandTargets[k].index;
      var next := SetAt(cursorRanges, i, SelectionAt(selections, k));
      CursorRangesFromSpec(next, commandTargets, k + 1, selections);
      var r := CursorRangesFrom(cursorRanges, commandTargets, k, selections);
      assert r == CursorRangesFrom(next, commandTargets, k + 1, selections);
      assert forall m :: k + 1 <= m < |commandTargets| ==> commandTargets[m].index != i;
    }
  }

  /** `cursorRanges[commandTarget.index] = editor.selections[index]` for each command target, on a copy. */
  method UpdateCursorRanges(cursorRanges: seq<Option<Range>>, commandTargets: seq<CommandTarget>,
                            selections: seq<Selection>)
    returns (r: seq<Option<Range>>)
    ensures r == CursorRangesFrom(cursorRanges, commandTargets, 0, selections)
  {
    r := cursorRanges;
    for k := 0 to |commandTargets|
      invariant CursorRangesFrom(r, commandTargets, k, selections) == CursorRangesFrom(cursorRanges, commandTargets, 0, selections)
    {
      r := SetAt(r, commandTargets[k].index, SelectionAt(selections, k));
    }
  }

  predicate StateValid(state: State) {
    (forall i :: 0 <= i < |state.destinations| ==> state.destinations[i].target.contentRange.Valid()) &&
    (forall i :: 0 <= i < |state.thatRanges| ==> state.thatRanges[i].Valid())
  }

  function DestinationContentRanges(destinations: seq<Destination>): (r: seq<Range>)
    ensures |r| == |destinations| && forall i :: 0 <= i < |r| ==> r[i] == destinations[i].target.contentRange
  {
    seq(|destinations|, i requires 0 <= i < |destinations| => destinations[i].target.contentRange)
  }

  /** `withContentRange` applied to each destination's target, with the matching range. */
  function WithContentRanges(destinations: seq<Destination>, ranges: seq<Range>): (r: seq<Destination>)
    requires |ranges| == |destinations|
    ensures |r| == |destinations|
    ensures forall i :: 0 <= i < |r| ==>
              r[i].actionType == destinations[i].actionType &&
              r[i].target == destinations[i].target.WithContentRange(ranges[i])
  {
    seq(|destinations|, i requires 0 <= i < |destinations| =>
      destinations[i].(target := destinations[i].target.WithContentRange(ranges[i])))
  }

  /** The two tracked range groups: the destinations' content ranges, then the that ranges. */
  function CommandRangeGroups(state: State): (g: seq<RangesWithBehavior>)
    requires StateValid(state)
    ensures ValidGroups(g) && |g| == 2
    ensures g[0].ranges == DestinationContentRanges(state.destinations) && g[1].ranges == state.thatRanges
    ensures g[0].rangeBehavior == ClosedClosed && g[1].rangeBehavior == ClosedClosed
  {
    [RangesWithBehavior(DestinationContentRanges(state.destinations), ClosedClosed),
     RangesWithBehavior(state.thatRanges, ClosedClosed)]
  }

  /** The range `r` tracked closedClosed through the command that `update` stands for. */
  function TrackedRange(doc: HostDocument, r: Range, update: SelectionInfo -> SelectionInfo): Range
    requires r.Valid()
  {
    InfoToSelection(update(GetSelectionInfoInternal(doc, r, true, ClosedClosed))).AsRange()
  }

  /**
   * The new state once the command has run: every destination (not only the
   * command's) with its tracked content range, the tracked that ranges, and the
   * cursors of the command targets taken from the editor's selections after the
   * command. `update` stands for the range updater.
   */
  function StateAfterCommand(doc: HostDocument, state: State, selectionsAfter: seq<Selection>,
                             update: SelectionInfo -> SelectionInfo)
    : (r: State)
    requires StateValid(state)
    ensures |r.destinations| == |state.destinations| && |r.thatRanges| == |state.thatRanges|
    ensures forall i :: 0 <= i < |state.destinations| ==>
              r.destinations[i].actionType == state.destinations[i].actionType &&
              r.destinations[i].target ==
                state.destinations[i].target.WithContentRange(TrackedRange(doc, state.destinations[i].target.contentRange, update))
    ensures forall i :: 0 <= i < |state.thatRanges| ==> r.thatRanges[i] == TrackedRange(doc, state.thatRanges[i], update)
    ensures r.cursorRanges == CursorRangesFrom(state.cursorRanges, CommandTargets(state.destinations), 0, selectionsAfter)
  {
    var rangeGroups := CommandRangeGroups(state);
    var (result, _) := TrackAndSplit(doc, [], rangeGroups, false, selectionsAfter, update);
    State(WithContentRanges(state.destinations, result.ranges[0]), result.ranges[1],
          CursorRangesFrom(state.cursorRanges, CommandTargets(state.destinations), 0, selectionsAfter))
  }

  /**
   * What the cursors become: the `k`-th command target's entry is the editor's
   * `k`-th selection after the command (a hole when there is none), and the
   * entries of other destinations keep their cursors.
   */
  lemma CommandTargetCursors(state: State, selectionsAfter: seq<Selection>)
    ensures var c := CommandTargets(state.destinations);
            var r := CursorRangesFrom(state.cursorRanges, c, 0, selectionsAfter);
            (forall k :: 0 <= k < |c| ==> c[k].index < |r| && r[c[k].index] == SelectionAt(selectionsAfter, k)) &&
            (forall j :: 0 <= j < |state.cursorRanges| && (j >= |state.destinations| ||
                         state.destinations[j].actionType != InsertLineAfterCommand) ==>
               r[j] == state.cursorRanges[j])
  {
    var c := CommandTargets(state.destinations);
    CursorRangesFromSpec(state.cursorRanges, c, 0, selectionsAfter);
  }

  /** When the command moves nothing, every destination and that range is as it was. */
  lemma StateAfterCommandIdentity(doc: HostDocument, state: State, selectionsAfter: seq<Selection>)
    requires StateValid(state)
    ensures var r := StateAfterCommand(doc, state, selectionsAfter, info => info);
            r.destinations == state.destinations && r.thatRanges == state.thatRanges
  {
    var r := StateAfterCommand(doc, state, selectionsAfter, info => info);
    forall i | 0 <= i < |state.destinations| ensures r.destinations[i] == state.destinations[i] {
      assert TrackedRange(doc, state.destinations[i].target.contentRange, info => info) ==
             state.destinations[i].target.contentRange;
    }
    forall i | 0 <= i < |state.thatRanges| ensures r.thatRanges[i] == state.thatRanges[i] {
      assert TrackedRange(doc, state.thatRanges[i], info => info) == state.thatRanges[i];
    }
  }

  /**
   * `runInsertLineAfterTargets`: without command targets the state comes back
   * unchanged; otherwise the command runs (leaving the editor with
   * `selectionsAfter`, which stands for what the host command does), all
   * destinations' content ranges and the that ranges are tracked with the
   * callback updater, and the state is rebuilt.
   */
  method RunInsertLineAfterTargets(editor: Editor, state: State, selectionsAfter: seq<Selection>,
                                   update: SelectionInfo -> SelectionInfo)
    returns (r: State)
    requires StateValid(state)
    modifies editor
    ensures CommandTargets(state.destinations) == [] ==> r == state && editor.selections == old(editor.selections)
    ensures CommandTargets(state.destinations) != [] ==>
              r == StateAfterCommand(editor.document, state, selectionsAfter, update) &&
              editor.selections == selectionsAfter
    ensures editor.document == old(editor.document)
  {
    var commandTargets := CommandTargets(state.destinations);
    if |commandTargets| == 0 {
      return state;
    }
    editor.selections := selectionsAfter;
    var rangeGroups := CommandRangeGroups(state);
    var updater := new CallbackUpdater(editor);
    var builder := updater.Ranges(rangeGroups[0].ranges, ClosedClosed);
    builder := builder.Ranges(rangeGroups[1].ranges, ClosedClosed);
    assert builder.rangeGroups == rangeGroups && builder.selectionGroups == [] && !builder.updateEditorSelectionsFlag;
    var result := builder.Run(update);
    var cursorRanges := UpdateCursorRanges(state.cursorRanges, commandTargets, editor.selections);
    r := State(WithContentRanges(state.destinations, result.ranges[0]), result.ranges[1], cursorRanges);
  }
}
