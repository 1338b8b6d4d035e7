/**
 * Indexing into a list of scope targets (the ordinal and relative stages use
 * these): the bounds check with its `OutOfRangeError`, the range target between
 * two indices, the inclusive slice, and the targets of an every-scope stage.
 * Also the interior and boundary stages, which fall back to a containing
 * surrounding pair when the target does not know its own interior or boundary.
 */
module TargetSequence {
  import opened Wrappers
  import opened TargetTypes

  /** `createContinuousRangeTarget`: a target spanning from one target to another, both ends included. */
  type ContinuousRange = (bool, Target, Target, bool, bool) -> Target

  /** `assertIndices`: the start must not be negative and the end must index an existing target. */
  function AssertIndices(targets: seq<Target>, startIndex: int, endIndex: int): (r: Result<()>)
    ensures r.Ok? <==> 0 <= startIndex && endIndex < |targets|
    ensures r.Err? ==> r.error == OutOfRange
  {
    if startIndex < 0 || endIndex >= |targets| then Err(OutOfRange) else Ok(())
  }

  /**
   * `createRangeTargetFromIndices`: the one target when both indices are equal,
   * otherwise the continuous range from the start target to the end target.
   * The bounds check lets a start index past the last target, or a negative
   * end index, through when the end index is smaller than the start; reading
   * the missing target then fails.
   */
  function CreateRangeTargetFromIndices(isReversed: bool, targets: seq<Target>, startIndex: int, endIndex: int,
                                        continuousRange: ContinuousRange): (r: Result<Target>)
    ensures r.Err? <==> startIndex < 0 || endIndex >= |targets| || startIndex >= |targets| || endIndex < 0
    ensures startIndex < 0 || endIndex >= |targets| ==> r == Err(OutOfRange)
    ensures r.Ok? && startIndex == endIndex ==> r.value == targets[startIndex]
    ensures r.Ok? && startIndex != endIndex ==>
              r.value == continuousRange(isReversed, targets[startIndex], targets[endIndex], true, true)
  {
    var _ :- AssertIndices(targets, startIndex, endIndex);
    if startIndex >= |targets| || endIndex < 0 then Err(MissingValue)
    else if startIndex == endIndex then Ok(targets[startIndex])
    else Ok(continuousRange(isReversed, targets[startIndex], targets[endIndex], true, true))
  }

  /**
   * A bound of JavaScript's `slice` on a list of `length` elements: a negative
   * bound counts back from the end, and the result is clamped to the list.
   */
  function SliceBound(length: nat, i: int): (b: nat)
    ensures b <= length
    ensures 0 <= i <= length ==> b == i
    ensures i < 0 ==> b == if length + i < 0 then 0 else length + i
    ensures i > length ==> b == length
  {
    if i < 0 then (if length + i < 0 then 0 else length + i)
    else if i > length then length
    else i
  }

  /** JavaScript's `slice(start, end)`: the elements from the start bound up to the end bound, or none. */
  function JsSlice<T>(s: seq<T>, start: int, end: int): (r: seq<T>)
    ensures var a, b := SliceBound(|s|, start), SliceBound(|s|, end);
            |r| == (if a < b then b - a else 0) && forall k :: 0 <= k < |r| ==> r[k] == s[a + k]
  {
    var a, b := SliceBound(|s|, start), SliceBound(|s|, end);
    if a < b then s[a..b] else []
  }

  /**
   * `sliceTargetsByIndices`: after the bounds check, `slice(startIndex, endIndex + 1)`.
   * With the end at or after the start this is the targets from `startIndex` to
   * `endIndex`, both included; an end of -1 or between -1 and the start gives
   * none; an end below -1 counts back from the end of the list.
   */
  function SliceTargetsByIndices(targets: seq<Target>, startIndex: int, endIndex: int): (r: Result<seq<Target>>)
    ensures r.Err? <==> startIndex < 0 || endIndex >= |targets|
    ensures r.Err? ==> r.error == OutOfRange
    ensures r.Ok? && startIndex <= endIndex ==>
              |r.value| == endIndex - startIndex + 1 &&
              forall k :: 0 <= k < |r.value| ==> r.value[k] == targets[startIndex + k]
    ensures r.Ok? && -1 <= endIndex < startIndex ==> r.value == []
    ensures r.Ok? && endIndex < -1 ==>
              var stop := |targets| + endIndex + 1;
              |r.value| == (if startIndex < stop then stop - startIndex else 0) &&
              forall k :: 0 <= k < |r.value| ==> r.value[k] == targets[startIndex + k]
  {
    var _ :- AssertIndices(targets, startIndex, endIndex);
    Ok(JsSlice(targets, startIndex, endIndex + 1))
  }

  /** An end index of `-k`, for `k` of at least 2, leaves out the last `k - 1` targets. */
  lemma NegativeEndCountsFromEnd(targets: seq<Target>, startIndex: nat, k: nat)
    requires 2 <= k && startIndex < |targets|
    ensures SliceTargetsByIndices(targets, startIndex, -(k as int)) ==
            Ok(if startIndex < |targets| - k + 1 then targets[startIndex..|targets| - k + 1] else [])
  {
  }

  /** A slice of one index is the range target of that index with itself. */
  lemma SingleSliceIsRangeTarget(isReversed: bool, targets: seq<Target>, i: int, continuousRange: ContinuousRange)
    requires 0 <= i < |targets|
    ensures SliceTargetsByIndices(targets, i, i) == Ok([CreateRangeTargetFromIndices(isReversed, targets, i, i, continuousRange).value])
  {
    assert targets[i..i + 1] == [targets[i]];
  }

  /** The slice's first and last targets are the ones the range target is built from. */
  lemma SliceEndsAreRangeEnds(targets: seq<Target>, startIndex: int, endIndex: int)
    requires 0 <= startIndex <= endIndex < |targets|
    ensures var s := SliceTargetsByIndices(targets, startIndex, endIndex).value;
            s[0] == targets[startIndex] && s[|s| - 1] == targets[endIndex]
  {
  }

  /**
   * `getEveryScopeTargets`: the output of an every-scope stage for the scope
   * type, run on the target. `everyScope` stands for that stage.
   */
  function GetEveryScopeTargets<S>(everyScope: (S, Target) -> Result<seq<Target>>, target: Target, scopeType: S)
    : (r: Result<seq<Target>>)
    ensures r == everyScope(scopeType, target)
  {
    everyScope(scopeType, target)
  }

  // ---------------------------------------------------------------------------
  // Interior and boundary

  /**
   * `InteriorOnlyStage.run`: the target's own interior when it has one;
   * otherwise the containing "interior" scope, which `containingInterior` stands for.
   */
  function InteriorOnly(target: Target, containingInterior: Target -> Result<seq<Target>>): (r: Result<seq<Target>>)
    ensures target.interior.Some? ==> r == Ok(target.interior.value)
    ensures target.interior.None? ==> r == containingInterior(target)
  {
    if target.interior.Some? then Ok(target.interior.value) else containingInterior(target)
  }

  /**
   * `getContainingSurroundingPairIfNoBoundaryStage`: a target without a boundary
   * is expanded to its containing surrounding pair of any delimiter
   * (`containingPair`); a target with one passes through unchanged.
   */
  function ContainingPairIfNoBoundary(target: Target, containingPair: Target -> Result<seq<Target>>)
    : (r: Result<seq<Target>>)
    ensures target.boundary.None? ==> r == containingPair(target)
    ensures target.boundary.Some? ==> r == Ok([target])
  {
    if target.boundary.None? then containingPair(target) else Ok([target])
  }

  /** Every target of the list has a boundary. */
  predicate AllHaveBoundary(targets: seq<Target>) {
    forall i :: 0 <= i < |targets| ==> targets[i].boundary.Some?
  }

  function Boundaries(targets: seq<Target>): (r: seq<seq<Target>>)
    requires AllHaveBoundary(targets)
    ensures |r| == |targets| && forall i :: 0 <= i < |r| ==> r[i] == targets[i].boundary.value
  {
    seq(|targets|, i requires 0 <= i < |targets| => targets[i].boundary.value)
  }

  /**
   * `ExcludeInteriorStage.run`: the boundaries of the targets the conditional
   * stage produces, flattened in order. A produced target without a boundary
   * has nothing to contribute, which the model reports as a missing value.
   */
  function ExcludeInterior(target: Target, containingPair: Target -> Result<seq<Target>>): (r: Result<seq<Target>>)
    ensures var c := ContainingPairIfNoBoundary(target, containingPair);
            r.Ok? <==> c.Ok? && AllHaveBoundary(c.value)
    ensures var c := ContainingPairIfNoBoundary(target, containingPair);
            r.Ok? ==> r.value == Flatten(Boundaries(c.value))
    ensures r.Err? ==> r.error == MissingValue || r == ContainingPairIfNoBoundary(target, containingPair)
  {
    var targets :- ContainingPairIfNoBoundary(target, containingPair);
    if AllHaveBoundary(targets) then Ok(Flatten(Boundaries(targets))) else Err(MissingValue)
  }

  /** A target that knows its boundary is replaced by exactly that boundary. */
  lemma ExcludeInteriorOfBoundedTarget(target: Target, containingPair: Target -> Result<seq<Target>>)
    requires target.boundary.Some?
    ensures ExcludeInterior(target, containingPair) == Ok(target.boundary.value)
  {
    var b := target.boundary.value;
    assert ContainingPairIfNoBoundary(target, containingPair) == Ok([target]);
    assert AllHaveBoundary([target]);
    assert Boundaries([target]) == [b];
    assert [b][1..] == [];
    assert Flatten([b]) == b + Flatten([b][1..]);
    assert Flatten([b]) == b;
  }
}
