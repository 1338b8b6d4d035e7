/**
 * The relative scope stage ("next token", "previous two funks", "token" with
 * offset 0): the index-0 scopes of the input target, whether to skip past them,
 * and the proximal and distal scopes of the output. Only the token scope type
 * takes this path; every other type goes to the legacy implementation, which
 * this model takes as a parameter.
 */
module RelativeScope {
  import opened Wrappers
  import opened Geometry
  import opened TargetTypes
  import opened ScopeHandlers
  import Descriptors

  /**
   * The output of the stage: the target of one scope, the range target between
   * a proximal and a distal scope (as `constructScopeRangeTarget` builds it), or
   * a target of the legacy implementation.
   */
  datatype RelativeTarget =
    | ScopeTarget(scope: TargetScope, isReversed: bool)
    | ScopeRangeTarget(isReversed: bool, proximal: TargetScope, distal: TargetScope)
    | LegacyTarget(target: Target)

  /** The preferred-scope choice (`getPreferredScope`): it picks one of the scopes it is given, if any. */
  type PreferredScope = seq<TargetScope> -> Option<TargetScope>

  ghost predicate PicksAmong(preferred: PreferredScope) {
    forall scopes :: preferred(scopes).Some? ==> preferred(scopes).value in scopes
  }

  /** `outer` contains `inner` with neither edge touching. */
  predicate ContainsWithMargin(outer: Range, inner: Range) {
    IsBefore(outer.start, inner.start) && IsBefore(inner.end, outer.end)
  }

  /**
   * `getIndex0Scopes`: for an empty range at most one scope, the preferred
   * scope touching it; otherwise every scope overlapping the range.
   */
  function Index0Scopes(h: ScopeHandler, range: Range, preferred: PreferredScope): (r: seq<TargetScope>)
    requires PicksAmong(preferred)
    ensures range.IsEmpty() ==> |r| <= 1
    ensures range.IsEmpty() ==> forall s :: s in r ==> s in h.scopes && Touches(s.domain, range.start)
    ensures !range.IsEmpty() ==> forall s :: s in r ==> s in h.scopes && Overlaps(s.domain, range)
  {
    if range.IsEmpty() then
      var touching := ScopesTouchingPosition(h, range.start);
      match preferred(touching)
      case None => []
      case Some(s) => [s]
    else ScopesOverlappingRange(h, range)
  }

  /**
   * An empty range has no index-0 scope exactly when no scope touches it; a
   * non-empty one has as index-0 scopes exactly the overlapping scopes (the
   * minimal ones, for a hierarchical type).
   */
  lemma Index0ScopesCharacterised(h: ScopeHandler, range: Range, preferred: PreferredScope)
    requires PicksAmong(preferred) && DomainsValid(h)
    requires range.IsEmpty() ==> forall scopes :: scopes != [] ==> preferred(scopes).Some?
    ensures range.IsEmpty() ==>
              (Index0Scopes(h, range, preferred) == [] <==> forall s :: s in h.scopes ==> !Touches(s.domain, range.start))
    ensures !range.IsEmpty() ==>
              forall s :: s in Index0Scopes(h, range, preferred) <==>
                s in h.scopes && Overlaps(s.domain, range) &&
                (h.isHierarchical ==>
                   forall t :: t in h.scopes && Overlaps(t.domain, range) ==> !StrictlyContains(s.domain, t.domain))
  {
    if range.IsEmpty() {
      TouchingCharacterised(h, range.start);
      var touching := ScopesTouchingPosition(h, range.start);
      assert preferred(touching).Some? ==> preferred(touching).value in touching;
    } else {
      OverlappingCharacterised(h, range);
    }
  }

  /** `getIndex0DistalPosition`: the end of the last scope going forward, the start of the first going backward. */
  function Index0DistalPosition(direction: Descriptors.Direction, index0: seq<TargetScope>): (p: Position)
    requires index0 != []
    ensures direction.Forward? ==> p == index0[|index0| - 1].domain.end
    ensures direction.Backward? ==> p == index0[0].domain.start
  {
    if direction.Forward? then index0[|index0| - 1].domain.end else index0[0].domain.start
  }

  /** Skip the index-0 scopes unless there is exactly one and it holds the range with a margin. */
  predicate SkipIndex0Scopes(index0: seq<TargetScope>, range: Range)
    ensures SkipIndex0Scopes(index0, range) ==> index0 != []
  {
    |index0| > 1 || (|index0| == 1 && !ContainsWithMargin(index0[0].domain, range))
  }

  /** Where the search for the next scopes starts. */
  function InitialPosition(direction: Descriptors.Direction, index0: seq<TargetScope>, range: Range): (p: Position)
    ensures SkipIndex0Scopes(index0, range) ==> p == Index0DistalPosition(direction, index0)
    ensures !SkipIndex0Scopes(index0, range) && direction.Forward? ==> p == range.end
    ensures !SkipIndex0Scopes(index0, range) && direction.Backward? ==> p == range.start
  {
    if SkipIndex0Scopes(index0, range) then Index0DistalPosition(direction, index0)
    else if direction.Forward? then range.end
    else range.start
  }

  /** The edge of a scope away from which the distal scope is searched for. */
  function FarEdge(direction: Descriptors.Direction, s: TargetScope): Position {
    if direction.Forward? then s.domain.end else s.domain.start
  }

  /** `handleNotIncludingIntersecting`: offset at least 1. */
  function HandleNotIncludingIntersecting(h: ScopeHandler, target: Target, offset: nat, length: nat,
                                          direction: Descriptors.Direction, preferred: PreferredScope)
    : (r: Result<RelativeTarget>)
    requires PicksAmong(preferred) && offset >= 1 && length >= 1
    ensures r.Err? ==> r.error == OutOfRange
    ensures r.Ok? && length == 1 ==> r.value.ScopeTarget? && r.value.isReversed == target.isReversed
    ensures r.Ok? && length > 1 ==> r.value.ScopeRangeTarget? && r.value.isReversed == target.isReversed
  {
    var index0 := Index0Scopes(h, target.contentRange, preferred);
    var initial := InitialPosition(direction, index0, target.contentRange);
    var proximal :- ScopeRelativeToPosition(h, initial, offset, direction);
    if length == 1 then Ok(ScopeTarget(proximal, target.isReversed))
    else
      var distal :- ScopeRelativeToPosition(h, FarEdge(direction, proximal), length - 1, direction);
      Ok(ScopeRangeTarget(target.isReversed, proximal, distal))
  }

  /**
   * Going forward the proximal scope is the `offset`-th scope starting at or
   * after the start position, and the distal scope starts at or after the
   * proximal scope's end; backward, the mirror image. The call fails exactly
   * when one of the two searches finds too few scopes.
   */
  lemma NotIncludingIntersectingPlacement(h: ScopeHandler, target: Target, offset: nat, length: nat,
                                          direction: Descriptors.Direction, preferred: PreferredScope)
    requires PicksAmong(preferred) && offset >= 1 && length >= 1
    ensures var r := HandleNotIncludingIntersecting(h, target, offset, length, direction, preferred);
            var initial := InitialPosition(direction, Index0Scopes(h, target.contentRange, preferred),
                                           target.contentRange);
            var proximal := ScopeRelativeToPosition(h, initial, offset, direction);
            (r.Ok? <==> proximal.Ok? &&
                        (length > 1 ==> ScopeRelativeToPosition(h, FarEdge(direction, proximal.value),
                                                                length - 1, direction).Ok?)) &&
            (r.Ok? && length == 1 ==> r.value.scope == proximal.value) &&
            (r.Ok? && length > 1 ==> r.value.proximal == proximal.value) &&
            (r.Ok? && length > 1 && direction.Forward? ==>
               IsBeforeOrEqual(initial, r.value.proximal.domain.start) &&
               IsBeforeOrEqual(r.value.proximal.domain.end, r.value.distal.domain.start)) &&
            (r.Ok? && length > 1 && direction.Backward? ==>
               IsBeforeOrEqual(r.value.proximal.domain.end, initial) &&
               IsBeforeOrEqual(r.value.distal.domain.end, r.value.proximal.domain.start))
  {
  }

  /** `handleIncludingIntersecting`: offset 0, so the index-0 scopes start the output. */
  function HandleIncludingIntersecting(h: ScopeHandler, target: Target, length: nat,
                                       direction: Descriptors.Direction, preferred: PreferredScope)
    : (r: Result<RelativeTarget>)
    requires PicksAmong(preferred) && length >= 1
    ensures var index0 := Index0Scopes(h, target.contentRange, preferred);
            index0 == [] ==> r == Err(NoContainingScope(Descriptors.ScopeTypeName(h.scopeType)))
    ensures var index0 := Index0Scopes(h, target.contentRange, preferred);
            |index0| > length ==> r == Err(TooFewScopes(length, |index0|, Descriptors.ScopeTypeName(h.scopeType)))
    ensures var index0 := Index0Scopes(h, target.contentRange, preferred);
            r.Ok? ==> 0 < |index0| <= length && r.value.ScopeRangeTarget? && r.value.isReversed == target.isReversed &&
                      r.value.proximal == (if direction.Forward? then index0[0] else index0[|index0| - 1])
  {
    var index0 := Index0Scopes(h, target.contentRange, preferred);
    var count := |index0|;
    if count == 0 then Err(NoContainingScope(Descriptors.ScopeTypeName(h.scopeType)))
    else if count > length then Err(TooFewScopes(length, count, Descriptors.ScopeTypeName(h.scopeType)))
    else
      var proximal := if direction.Forward? then index0[0] else index0[count - 1];
      var distal :- if length > count
                    then ScopeRelativeToPosition(h, Index0DistalPosition(direction, index0), length - count, direction)
                    else Ok(if direction.Forward? then index0[count - 1] else index0[0]);
      Ok(ScopeRangeTarget(target.isReversed, proximal, distal))
  }

  /**
   * The distal scope is the far index-0 scope when there are exactly `length`
   * of them; otherwise it is `length - count` scopes beyond the index-0 scopes'
   * far edge.
   */
  lemma IncludingIntersectingDistal(h: ScopeHandler, target: Target, length: nat,
                                    direction: Descriptors.Direction, preferred: PreferredScope)
    requires PicksAmong(preferred) && length >= 1
    ensures var r := HandleIncludingIntersecting(h, target, length, direction, preferred);
            var index0 := Index0Scopes(h, target.contentRange, preferred);
            r.Ok? && |index0| == length ==>
              r.value.distal == (if direction.Forward? then index0[|index0| - 1] else index0[0])
    ensures var r := HandleIncludingIntersecting(h, target, length, direction, preferred);
            var index0 := Index0Scopes(h, target.contentRange, preferred);
            r.Ok? && |index0| < length ==>
              var beyond := ScopeRelativeToPosition(h, Index0DistalPosition(direction, index0),
                                                    length - |index0|, direction);
              beyond.Ok? && r.value.distal == beyond.value &&
              (direction.Forward? ==> IsBeforeOrEqual(index0[|index0| - 1].domain.end, r.value.distal.domain.start)) &&
              (direction.Backward? ==> IsBeforeOrEqual(r.value.distal.domain.end, index0[0].domain.start))
  {
    var r := HandleIncludingIntersecting(h, target, length, direction, preferred);
    var index0 := Index0Scopes(h, target.contentRange, preferred);
    if r.Ok? && |index0| < length {
      var far := Index0DistalPosition(direction, index0);
      var beyond := ScopeRelativeToPosition(h, far, length - |index0|, direction);
      assert beyond.Ok? && r.value.distal == beyond.value;
    }
  }

  /** `runNew`: offset 0 includes the scopes intersecting the target, any other offset skips them. */
  function RunNew(h: ScopeHandler, target: Target, offset: nat, length: nat,
                  direction: Descriptors.Direction, preferred: PreferredScope): (r: Result<seq<RelativeTarget>>)
    requires PicksAmong(preferred) && length >= 1
    ensures r.Ok? ==> |r.value| == 1 && !r.value[0].LegacyTarget?
    ensures offset == 0 ==> r == (var t :- HandleIncludingIntersecting(h, target, length, direction, preferred); Ok([t]))
    ensures offset > 0 ==>
              r == (var t :- HandleNotIncludingIntersecting(h, target, offset, length, direction, preferred); Ok([t]))
  {
    var t :- if offset == 0 then HandleIncludingIntersecting(h, target, length, direction, preferred)
             else HandleNotIncludingIntersecting(h, target, offset, length, direction, preferred);
    Ok([t])
  }

  /**
   * `run`: the token scope type takes the new path, every other scope type the
   * legacy one. The handler is the one for the modifier's scope type.
   */
  function Run(modifier: Descriptors.Modifier, h: ScopeHandler, target: Target, preferred: PreferredScope,
               runLegacy: Target -> Result<seq<Target>>): (r: Result<seq<RelativeTarget>>)
    requires modifier.RelativeScope? && modifier.offset >= 0 && modifier.length >= 1
    requires h.scopeType == modifier.scopeType && PicksAmong(preferred)
    ensures modifier.scopeType != Descriptors.SimpleScopeType(Descriptors.Token) ==>
              (r.Ok? <==> runLegacy(target).Ok?) &&
              (r.Ok? ==> |r.value| == |runLegacy(target).value| &&
                         forall i :: 0 <= i < |r.value| ==> r.value[i] == LegacyTarget(runLegacy(target).value[i]))
    ensures modifier.scopeType == Descriptors.SimpleScopeType(Descriptors.Token) ==>
              r == RunNew(h, target, modifier.offset, modifier.length, modifier.direction, preferred)
  {
    if modifier.scopeType == Descriptors.SimpleScopeType(Descriptors.Token) then
      RunNew(h, target, modifier.offset, modifier.length, modifier.direction, preferred)
    else
      var targets :- runLegacy(target);
      Ok(seq(|targets|, i requires 0 <= i < |targets| => LegacyTarget(targets[i])))
  }
}
