/**
 * The scope-handler contract: a scope handler finds the instances of one scope
 * type in a document. Here a handler is the list of those instances (its scopes
 * and its iteration scopes, in document order), and each query of the contract
 * is a function over that list: the scopes touching a position, the scopes
 * overlapping a range, the iteration scopes touching a position, and the scope
 * a given number of places before or after a position. The base handler's
 * `generateScopes` enumeration, with its candidate filter and its early stop,
 * is a method over a candidate sequence proved against a specification function.
 */
module ScopeHandlers {
  import opened Wrappers
  import opened Geometry
  import Descriptors

  /** One instance of a scope: the editor it lives in, its domain, and an identity. */
  datatype TargetScope = TargetScope(editor: EditorId, domain: Range, id: nat)

  /** An iteration scope: its domain and the scopes iterated over inside it. */
  datatype IterationScope = IterationScope(editor: EditorId, domain: Range, scopes: seq<TargetScope>)

  datatype ScopeHandler = ScopeHandler(
    scopeType: Descriptors.ScopeType,
    isHierarchical: bool,
    scopes: seq<TargetScope>,
    iterationScopes: seq<IterationScope>,
    isIterationHierarchical: bool)

  // ---------------------------------------------------------------------------
  // Touching, overlapping and nesting

  /** A domain touches a position when it contains it or ends or starts exactly there. */
  predicate Touches(domain: Range, p: Position) {
    IsBeforeOrEqual(domain.start, p) && IsBeforeOrEqual(p, domain.end)
  }

  /** A domain overlaps a range when their intersection exists and is not empty. */
  predicate Overlaps(domain: Range, r: Range) {
    var i := Intersection(domain, r);
    i.Some? && !i.value.IsEmpty()
  }

  predicate StrictlyContains(a: Range, b: Range) {
    a.ContainsRange(b) && a != b
  }

  /**
   * An empty domain or range overlaps nothing; two non-empty ones overlap
   * exactly when each starts strictly before the other ends.
   */
  lemma OverlapsIff(domain: Range, r: Range)
    requires domain.Valid() && r.Valid()
    ensures domain.IsEmpty() || r.IsEmpty() ==> !Overlaps(domain, r)
    ensures !domain.IsEmpty() && !r.IsEmpty() ==>
              (Overlaps(domain, r) <==> IsBefore(domain.start, r.end) && IsBefore(r.start, domain.end))
  {
    var s := Max(domain.start, r.start);
    var e := Min(domain.end, r.end);
    if !domain.IsEmpty() && !r.IsEmpty() && IsBefore(domain.start, r.end) && IsBefore(r.start, domain.end) {
      assert IsBefore(domain.start, domain.end) && IsBefore(r.start, r.end);
      assert IsBefore(s, e);
    }
  }

  /** Two scopes that meet at a position both touch it. */
  lemma AdjacentScopesTouch(a: Range, b: Range, p: Position)
    requires a.Valid() && b.Valid() && a.end == p && b.start == p
    ensures Touches(a, p) && Touches(b, p)
    ensures !Overlaps(a, Range(p, p)) && !Overlaps(b, Range(p, p))
  {
  }

  function Filter<T(==,!new)>(xs: seq<T>, keep: T -> bool): (r: seq<T>)
    ensures |r| <= |xs|
  {
    if xs == [] then []
    else (if keep(xs[0]) then [xs[0]] else []) + Filter(xs[1..], keep)
  }

  /** Filtering keeps exactly the elements that pass the test. */
  lemma {:induction false} FilterMembers<T(!new)>(xs: seq<T>, keep: T -> bool)
    ensures forall x :: x in Filter(xs, keep) <==> x in xs && keep(x)
  {
    if xs != [] {
      FilterMembers(xs[1..], keep);
      assert xs == [xs[0]] + xs[1..];
    }
  }

  /** `x` contains no other element of `xs` strictly inside its domain. */
  predicate MinimalAmong<T(==,!new)>(x: T, xs: seq<T>, dom: T -> Range) {
    forall y :: y in xs ==> !StrictlyContains(dom(x), dom(y))
  }

  /** Keeps every element when not hierarchical, and only the minimal ones otherwise. */
  function KeepMinimal<T(==,!new)>(xs: seq<T>, dom: T -> Range, hierarchical: bool): (r: seq<T>)
    ensures forall x :: x in r <==> x in xs && (hierarchical ==> MinimalAmong(x, xs, dom))
  {
    if hierarchical then
      FilterMembers(xs, x => MinimalAmong(x, xs, dom));
      Filter(xs, x => MinimalAmong(x, xs, dom))
    else xs
  }

  /** Every non-empty list of valid domains holds an element with no other strictly inside it. */
  lemma {:induction false} MinimalExists<T(!new)>(xs: seq<T>, dom: T -> Range)
    requires xs != []
    requires forall x :: x in xs ==> dom(x).Valid()
    ensures exists m :: m in xs && MinimalAmong(m, xs, dom)
  {
    if |xs| == 1 {
      assert MinimalAmong(xs[0], xs, dom);
    } else {
      var tail := xs[1..];
      MinimalExists(tail, dom);
      var m :| m in tail && MinimalAmong(m, tail, dom);
      assert xs == [xs[0]] + tail;
      if StrictlyContains(dom(m), dom(xs[0])) {
        forall y | y in xs
          ensures !StrictlyContains(dom(xs[0]), dom(y))
        {
          if y != xs[0] {
            assert y in tail;
            StrictlyContainsTransitive(dom(m), dom(xs[0]), dom(y));
          }
        }
        assert MinimalAmong(xs[0], xs, dom);
      } else {
        assert MinimalAmong(m, xs, dom);
      }
    }
  }

  lemma StrictlyContainsTransitive(a: Range, b: Range, c: Range)
    ensures StrictlyContains(a, b) && StrictlyContains(b, c) ==> StrictlyContains(a, c)
  {
    if StrictlyContains(a, b) && StrictlyContains(b, c) {
      OrderTransitive(a.start, b.start, c.start);
      OrderTransitive(c.end, b.end, a.end);
    }
  }

  /** Minimal selection never removes every element: an empty result means an empty input. */
  lemma KeepMinimalEmpty<T(!new)>(xs: seq<T>, dom: T -> Range, hierarchical: bool)
    requires forall x :: x in xs ==> dom(x).Valid()
    ensures KeepMinimal(xs, dom, hierarchical) == [] <==> xs == []
  {
    if xs != [] {
      if hierarchical {
        MinimalExists(xs, dom);
        var m :| m in xs && MinimalAmong(m, xs, dom);
        assert m in KeepMinimal(xs, dom, hierarchical);
      } else {
        assert xs[0] in KeepMinimal(xs, dom, hierarchical);
      }
    }
  }

  /** The elements whose domain touches `p`, only minimal ones for a hierarchical type. */
  function TouchingOf<T(==,!new)>(xs: seq<T>, dom: T -> Range, p: Position, hierarchical: bool): (r: seq<T>)
    ensures forall x :: x in r ==> x in xs && Touches(dom(x), p)
  {
    FilterMembers(xs, TouchesAt(dom, p));
    KeepMinimal(Filter(xs, TouchesAt(dom, p)), dom, hierarchical)
  }

  function TouchesAt<T>(dom: T -> Range, p: Position): T -> bool {
    x => Touches(dom(x), p)
  }

  function OverlapsWith<T>(dom: T -> Range, range: Range): T -> bool {
    x => Overlaps(dom(x), range)
  }

  /**
   * What the minimal selection of filtered elements keeps: the elements the
   * filter accepts that, for a hierarchical type, hold no other accepted
   * element strictly inside; nothing only when the filter accepts nothing.
   */
  lemma SelectionCharacterised<T(!new)>(xs: seq<T>, dom: T -> Range, keep: T -> bool, hierarchical: bool)
    requires forall x :: x in xs ==> dom(x).Valid()
    ensures forall x :: x in KeepMinimal(Filter(xs, keep), dom, hierarchical) <==>
              (x in xs && keep(x) &&
               (hierarchical ==> forall y :: y in xs && keep(y) ==> !StrictlyContains(dom(x), dom(y))))
    ensures KeepMinimal(Filter(xs, keep), dom, hierarchical) == [] <==> forall x :: x in xs ==> !keep(x)
  {
    var f := Filter(xs, keep);
    FilterMembers(xs, keep);
    KeepMinimalEmpty(f, dom, hierarchical);
    if f == [] {
      forall x | x in xs
        ensures !keep(x)
      {
        assert x !in f;
      }
    }
  }

  /** The elements whose domain overlaps `range`, only minimal ones for a hierarchical type. */
  function OverlappingOf<T(==,!new)>(xs: seq<T>, dom: T -> Range, range: Range, hierarchical: bool): (r: seq<T>)
    ensures forall x :: x in r ==> x in xs && Overlaps(dom(x), range)
  {
    FilterMembers(xs, OverlapsWith(dom, range));
    KeepMinimal(Filter(xs, OverlapsWith(dom, range)), dom, hierarchical)
  }

  function ScopeDomain(s: TargetScope): Range { s.domain }

  function IterationDomain(s: IterationScope): Range { s.domain }

  predicate DomainsValid(h: ScopeHandler) {
    (forall s :: s in h.scopes ==> s.domain.Valid()) &&
    (forall s :: s in h.iterationScopes ==> s.domain.Valid())
  }

  /** `getScopesTouchingPosition`. */
  function ScopesTouchingPosition(h: ScopeHandler, p: Position): (r: seq<TargetScope>)
    ensures forall s :: s in r ==> s in h.scopes && Touches(s.domain, p)
  {
    TouchingOf(h.scopes, ScopeDomain, p, h.isHierarchical)
  }

  /** `getScopesOverlappingRange`. */
  function ScopesOverlappingRange(h: ScopeHandler, range: Range): (r: seq<TargetScope>)
    ensures forall s :: s in r ==> s in h.scopes && Overlaps(s.domain, range)
  {
    OverlappingOf(h.scopes, ScopeDomain, range, h.isHierarchical)
  }

  /** `getIterationScopesTouchingPosition`. */
  function IterationScopesTouchingPosition(h: ScopeHandler, p: Position): (r: seq<IterationScope>)
    ensures forall s :: s in r ==> s in h.iterationScopes && Touches(s.domain, p)
  {
    TouchingOf(h.iterationScopes, IterationDomain, p, h.isIterationHierarchical)
  }

  /**
   * A scope is returned exactly when it touches the position and, for a
   * hierarchical type, no other touching scope lies strictly inside it; the
   * result is empty exactly when no scope touches the position.
   */
  lemma TouchingCharacterised(h: ScopeHandler, p: Position)
    requires DomainsValid(h)
    ensures forall s :: s in ScopesTouchingPosition(h, p) <==>
              s in h.scopes && Touches(s.domain, p) &&
              (h.isHierarchical ==>
                 forall t :: t in h.scopes && Touches(t.domain, p) ==> !StrictlyContains(s.domain, t.domain))
    ensures ScopesTouchingPosition(h, p) == [] <==> forall s :: s in h.scopes ==> !Touches(s.domain, p)
  {
    SelectionCharacterised(h.scopes, ScopeDomain, TouchesAt(ScopeDomain, p), h.isHierarchical);
  }

  /** The same rule for iteration scopes. */
  lemma IterationTouchingCharacterised(h: ScopeHandler, p: Position)
    requires DomainsValid(h)
    ensures forall s :: s in IterationScopesTouchingPosition(h, p) <==>
              s in h.iterationScopes && Touches(s.domain, p) &&
              (h.isIterationHierarchical ==>
                 forall t :: t in h.iterationScopes && Touches(t.domain, p) ==> !StrictlyContains(s.domain, t.domain))
    ensures IterationScopesTouchingPosition(h, p) == [] <==>
              forall s :: s in h.iterationScopes ==> !Touches(s.domain, p)
  {
    SelectionCharacterised(h.iterationScopes, IterationDomain, TouchesAt(IterationDomain, p),
                           h.isIterationHierarchical);
  }

  /** A scope is returned exactly when it overlaps the range (and is minimal, when hierarchical). */
  lemma OverlappingCharacterised(h: ScopeHandler, range: Range)
    requires DomainsValid(h)
    ensures forall s :: s in ScopesOverlappingRange(h, range) <==>
              s in h.scopes && Overlaps(s.domain, range) &&
              (h.isHierarchical ==>
                 forall t :: t in h.scopes && Overlaps(t.domain, range) ==> !StrictlyContains(s.domain, t.domain))
    ensures ScopesOverlappingRange(h, range) == [] <==> forall s :: s in h.scopes ==> !Overlaps(s.domain, range)
  {
    SelectionCharacterised(h.scopes, ScopeDomain, OverlapsWith(ScopeDomain, range), h.isHierarchical);
  }

  /** For a hierarchical type no two returned scopes nest. */
  lemma TouchingNeverNested(h: ScopeHandler, p: Position, a: TargetScope, b: TargetScope)
    requires DomainsValid(h) && h.isHierarchical
    requires a in ScopesTouchingPosition(h, p) && b in ScopesTouchingPosition(h, p)
    ensures !StrictlyContains(a.domain, b.domain)
  {
    TouchingCharacterised(h, p);
  }

  /** A non-hierarchical type returns both scopes that meet at the position. */
  lemma TouchingReturnsBothNeighbours(h: ScopeHandler, p: Position, a: TargetScope, b: TargetScope)
    requires DomainsValid(h) && !h.isHierarchical
    requires a in h.scopes && b in h.scopes && a.domain.end == p && b.domain.start == p
    ensures a in ScopesTouchingPosition(h, p) && b in ScopesTouchingPosition(h, p)
  {
    TouchingCharacterised(h, p);
  }

  // ---------------------------------------------------------------------------
  // Scopes relative to a position

  /** The handler's scopes run in document order: starts and ends both never decrease. */
  predicate InDocumentOrder(h: ScopeHandler) {
    forall i, j :: 0 <= i < j < |h.scopes| ==>
      IsBeforeOrEqual(h.scopes[i].domain.start, h.scopes[j].domain.start) &&
      IsBeforeOrEqual(h.scopes[i].domain.end, h.scopes[j].domain.end)
  }

  function StartsAtOrAfter(p: Position): TargetScope -> bool { (s: TargetScope) => IsBeforeOrEqual(p, s.domain.start) }

  function EndsAtOrBefore(p: Position): TargetScope -> bool { (s: TargetScope) => IsBeforeOrEqual(s.domain.end, p) }

  function EndsAtOrAfter(p: Position): TargetScope -> bool { (s: TargetScope) => IsBeforeOrEqual(p, s.domain.end) }

  function StartsAtOrBefore(p: Position): TargetScope -> bool { (s: TargetScope) => IsBeforeOrEqual(s.domain.start, p) }

  /** Forward: scopes starting at or after `p`; backward: scopes ending at or before `p`. */
  function RelativeCandidates(h: ScopeHandler, p: Position, direction: Descriptors.Direction): (r: seq<TargetScope>)
    ensures forall s :: s in r <==> (s in h.scopes &&
              (if direction.Forward? then IsBeforeOrEqual(p, s.domain.start) else IsBeforeOrEqual(s.domain.end, p)))
  {
    if direction.Forward? then
      FilterMembers(h.scopes, StartsAtOrAfter(p));
      Filter(h.scopes, StartsAtOrAfter(p))
    else
      FilterMembers(h.scopes, EndsAtOrBefore(p));
      Filter(h.scopes, EndsAtOrBefore(p))
  }

  /**
   * `getScopeRelativeToPosition`: the `offset`-th candidate counted from the
   * position, failing when there are fewer than `offset` candidates.
   */
  function ScopeRelativeToPosition(h: ScopeHandler, p: Position, offset: nat,
                                   direction: Descriptors.Direction): (r: Result<TargetScope>)
    requires offset >= 1
    ensures r.Ok? <==> |RelativeCandidates(h, p, direction)| >= offset
    ensures r.Err? ==> r.error == OutOfRange
    ensures r.Ok? ==> r.value in h.scopes
    ensures r.Ok? && direction.Forward? ==> IsBeforeOrEqual(p, r.value.domain.start)
    ensures r.Ok? && direction.Backward? ==> IsBeforeOrEqual(r.value.domain.end, p)
  {
    var candidates := RelativeCandidates(h, p, direction);
    if |candidates| < offset then Err(OutOfRange)
    else if direction.Forward? then
      assert candidates[offset - 1] in candidates;
      Ok(candidates[offset - 1])
    else
      assert candidates[|candidates| - offset] in candidates;
      Ok(candidates[|candidates| - offset])
  }

  /** Every kept element sits somewhere in the input. */
  lemma {:induction false} FilterIndex<T(!new)>(xs: seq<T>, keep: T -> bool, i: nat) returns (a: nat)
    requires i < |Filter(xs, keep)|
    ensures a < |xs| && Filter(xs, keep)[i] == xs[a]
  {
    var rest := Filter(xs[1..], keep);
    if keep(xs[0]) {
      assert Filter(xs, keep) == [xs[0]] + rest;
      if i == 0 {
        a := 0;
      } else {
        var a' := FilterIndex(xs[1..], keep, i - 1);
        a := a' + 1;
      }
    } else {
      assert Filter(xs, keep) == rest;
      var a' := FilterIndex(xs[1..], keep, i);
      a := a' + 1;
    }
  }

  /** Filtering keeps the relative order of the elements it keeps. */
  lemma {:induction false} FilterKeepsOrder<T(!new)>(xs: seq<T>, keep: T -> bool, i: nat, j: nat)
    returns (a: nat, b: nat)
    requires i < j < |Filter(xs, keep)|
    ensures a < b < |xs|
    ensures Filter(xs, keep)[i] == xs[a] && Filter(xs, keep)[j] == xs[b]
  {
    var rest := Filter(xs[1..], keep);
    if keep(xs[0]) {
      assert Filter(xs, keep) == [xs[0]] + rest;
      if i == 0 {
        var b' := FilterIndex(xs[1..], keep, j - 1);
        a, b := 0, b' + 1;
      } else {
        var a', b' := FilterKeepsOrder(xs[1..], keep, i - 1, j - 1);
        a, b := a' + 1, b' + 1;
      }
    } else {
      assert Filter(xs, keep) == rest;
      var a', b' := FilterKeepsOrder(xs[1..], keep, i, j);
      a, b := a' + 1, b' + 1;
    }
  }

  /** Offset 1 is the nearest scope: forward it starts first, backward it ends last. */
  lemma NearestRelativeScope(h: ScopeHandler, p: Position, direction: Descriptors.Direction, s: TargetScope)
    requires InDocumentOrder(h)
    requires ScopeRelativeToPosition(h, p, 1, direction).Ok?
    requires s in RelativeCandidates(h, p, direction)
    ensures direction.Forward? ==>
              IsBeforeOrEqual(ScopeRelativeToPosition(h, p, 1, direction).value.domain.start, s.domain.start)
    ensures direction.Backward? ==>
              IsBeforeOrEqual(s.domain.end, ScopeRelativeToPosition(h, p, 1, direction).value.domain.end)
  {
    var c := RelativeCandidates(h, p, direction);
    var k :| 0 <= k < |c| && c[k] == s;
    if direction.Forward? && k != 0 {
      var a, b := FilterKeepsOrder(h.scopes, StartsAtOrAfter(p), 0, k);
      assert IsBeforeOrEqual(h.scopes[a].domain.start, h.scopes[b].domain.start);
    } else if direction.Backward? && k != |c| - 1 {
      var a, b := FilterKeepsOrder(h.scopes, EndsAtOrBefore(p), k, |c| - 1);
      assert IsBeforeOrEqual(h.scopes[a].domain.end, h.scopes[b].domain.end);
    }
  }

  /** Forward, the scope one further starts no earlier. */
  lemma ForwardScopesMoveAway(h: ScopeHandler, p: Position, offset: nat)
    requires InDocumentOrder(h) && offset >= 1
    requires ScopeRelativeToPosition(h, p, offset + 1, Descriptors.Forward).Ok?
    ensures ScopeRelativeToPosition(h, p, offset, Descriptors.Forward).Ok?
    ensures IsBeforeOrEqual(ScopeRelativeToPosition(h, p, offset, Descriptors.Forward).value.domain.start,
                            ScopeRelativeToPosition(h, p, offset + 1, Descriptors.Forward).value.domain.start)
  {
    var c := Filter(h.scopes, StartsAtOrAfter(p));
    assert RelativeCandidates(h, p, Descriptors.Forward) == c;
    assert ScopeRelativeToPosition(h, p, offset + 1, Descriptors.Forward) == Ok(c[offset]);
    assert IsBeforeOrEqual(c[offset - 1].domain.start, c[offset].domain.start) by {
      var a, b := FilterKeepsOrder(h.scopes, StartsAtOrAfter(p), offset - 1, offset);
      InDocumentOrderAt(h, a, b);
    }
    assert ScopeRelativeToPosition(h, p, offset, Descriptors.Forward) == Ok(c[offset - 1]);
  }

  /** Backward, the scope one further ends no later. */
  lemma BackwardScopesMoveAway(h: ScopeHandler, p: Position, offset: nat)
    requires InDocumentOrder(h) && offset >= 1
    requires ScopeRelativeToPosition(h, p, offset + 1, Descriptors.Backward).Ok?
    ensures ScopeRelativeToPosition(h, p, offset, Descriptors.Backward).Ok?
    ensures IsBeforeOrEqual(ScopeRelativeToPosition(h, p, offset + 1, Descriptors.Backward).value.domain.end,
                            ScopeRelativeToPosition(h, p, offset, Descriptors.Backward).value.domain.end)
  {
    var c := Filter(h.scopes, EndsAtOrBefore(p));
    assert RelativeCandidates(h, p, Descriptors.Backward) == c;
    assert ScopeRelativeToPosition(h, p, offset + 1, Descriptors.Backward) == Ok(c[|c| - offset - 1]);
    assert IsBeforeOrEqual(c[|c| - offset - 1].domain.end, c[|c| - offset].domain.end) by {
      var a, b := FilterKeepsOrder(h.scopes, EndsAtOrBefore(p), |c| - offset - 1, |c| - offset);
      InDocumentOrderAt(h, a, b);
    }
    assert ScopeRelativeToPosition(h, p, offset, Descriptors.Backward) == Ok(c[|c| - offset]);
  }

  /** Going one scope further moves away from the position. */
  lemma RelativeScopesMoveAway(h: ScopeHandler, p: Position, offset: nat, direction: Descriptors.Direction)
    requires InDocumentOrder(h) && offset >= 1
    requires ScopeRelativeToPosition(h, p, offset + 1, direction).Ok?
    ensures ScopeRelativeToPosition(h, p, offset, direction).Ok?
    ensures direction.Forward? ==>
              IsBeforeOrEqual(ScopeRelativeToPosition(h, p, offset, direction).value.domain.start,
                              ScopeRelativeToPosition(h, p, offset + 1, direction).value.domain.start)
    ensures direction.Backward? ==>
              IsBeforeOrEqual(ScopeRelativeToPosition(h, p, offset + 1, direction).value.domain.end,
                              ScopeRelativeToPosition(h, p, offset, direction).value.domain.end)
  {
    if direction.Forward? {
      ForwardScopesMoveAway(h, p, offset);
    } else {
      BackwardScopesMoveAway(h, p, offset);
    }
  }

  // ---------------------------------------------------------------------------
  // The base handler's enumeration

  datatype Containment = Required | Disallowed | DisallowedIfStrict

  /** Extra requirements on the enumerated scopes; only the fields the early stop reads. */
  datatype Requirements = Requirements(containment: Option<Containment>, distalPosition: Option<Position>)

  /** `canStopEarly`: whether no later candidate can be wanted after `scope`. */
  predicate CanStopEarly(isHierarchical: bool, p: Position, direction: Descriptors.Direction,
                         req: Requirements, scope: TargetScope)
    ensures CanStopEarly(isHierarchical, p, direction, req, scope) ==>
              !isHierarchical && (req.containment == Some(Required) || req.distalPosition.Some?)
  {
    !isHierarchical &&
    ((req.containment == Some(Required) &&
      (if direction.Forward? then IsBefore(p, scope.domain.end) else IsBefore(scope.domain.start, p))) ||
     (req.distalPosition.Some? &&
      (if direction.Forward? then IsBeforeOrEqual(req.distalPosition.value, scope.domain.end)
       else IsBeforeOrEqual(scope.domain.start, req.distalPosition.value))))
  }

  /** The candidate filter (`shouldReturnScope`), which this model takes as given. */
  type ScopeFilter = (Position, Descriptors.Direction, Requirements, Option<TargetScope>, TargetScope) -> bool

  /** The candidate before index `i`, which is what the filter sees as the previous scope. */
  function Previous(candidates: seq<TargetScope>, i: nat): (r: Option<TargetScope>)
    requires i <= |candidates|
    ensures r.None? <==> i == 0
  {
    if i == 0 then None else Some(candidates[i - 1])
  }

  /** How many candidates are looked at: up to and including the first that allows an early stop. */
  function StopIndex(isHierarchical: bool, p: Position, direction: Descriptors.Direction,
                     req: Requirements, candidates: seq<TargetScope>): (n: nat)
    ensures n <= |candidates|
    ensures forall i :: 0 <= i < n - 1 ==> !CanStopEarly(isHierarchical, p, direction, req, candidates[i])
    ensures n == |candidates| || (n > 0 && CanStopEarly(isHierarchical, p, direction, req, candidates[n - 1]))
  {
    if candidates == [] then 0
    else if CanStopEarly(isHierarchical, p, direction, req, candidates[0]) then 1
    else 1 + StopIndex(isHierarchical, p, direction, req, candidates[1..])
  }

  /** Whether the filter accepts candidate `i`, given the candidate before it. */
  predicate Accepted(candidates: seq<TargetScope>, i: nat, p: Position, direction: Descriptors.Direction,
                     req: Requirements, shouldReturn: ScopeFilter)
    requires i < |candidates|
  {
    shouldReturn(p, direction, req, Previous(candidates, i), candidates[i])
  }

  /** The scopes yielded from the first `n` candidates, in candidate order. */
  function Yielded(candidates: seq<TargetScope>, n: nat, p: Position, direction: Descriptors.Direction,
                   req: Requirements, shouldReturn: ScopeFilter): (r: seq<TargetScope>)
    requires n <= |candidates|
    ensures |r| <= n
  {
    if n == 0 then []
    else
      Yielded(candidates, n - 1, p, direction, req, shouldReturn) +
      (if Accepted(candidates, n - 1, p, direction, req, shouldReturn) then [candidates[n - 1]] else [])
  }

  /** The indices of the candidates `Yielded` keeps. */
  function YieldedIndices(candidates: seq<TargetScope>, n: nat, p: Position, direction: Descriptors.Direction,
                          req: Requirements, shouldReturn: ScopeFilter): seq<nat>
    requires n <= |candidates|
  {
    if n == 0 then []
    else
      YieldedIndices(candidates, n - 1, p, direction, req, shouldReturn) +
      (if Accepted(candidates, n - 1, p, direction, req, shouldReturn) then [n - 1] else [])
  }

  /** Each yielded scope is the candidate at the matching index. */
  lemma {:induction false} YieldedAtIndices(candidates: seq<TargetScope>, n: nat, p: Position,
                                            direction: Descriptors.Direction, req: Requirements,
                                            shouldReturn: ScopeFilter)
    requires n <= |candidates|
    ensures var r := Yielded(candidates, n, p, direction, req, shouldReturn);
            var idx := YieldedIndices(candidates, n, p, direction, req, shouldReturn);
            |idx| == |r| && forall j :: 0 <= j < |idx| ==> idx[j] < n && r[j] == candidates[idx[j]]
  {
    if n > 0 {
      YieldedAtIndices(candidates, n - 1, p, direction, req, shouldReturn);
    }
  }

  /**
   * The yielded scopes are a subsequence of the candidates: the indices grow
   * strictly, and an index among the first `n` is kept exactly when the filter
   * accepts that candidate given the candidate just before it.
   */
  lemma {:induction false} YieldedIndicesExact(candidates: seq<TargetScope>, n: nat, p: Position,
                                               direction: Descriptors.Direction, req: Requirements,
                                               shouldReturn: ScopeFilter)
    requires n <= |candidates|
    ensures var idx := YieldedIndices(candidates, n, p, direction, req, shouldReturn);
            (forall j :: 0 <= j < |idx| ==> idx[j] < n) &&
            (forall j, k :: 0 <= j < k < |idx| ==> idx[j] < idx[k]) &&
            (forall i :: 0 <= i < n ==> (i in idx <==> Accepted(candidates, i, p, direction, req, shouldReturn)))
  {
    if n > 0 {
      YieldedIndicesExact(candidates, n - 1, p, direction, req, shouldReturn);
      var prev := YieldedIndices(candidates, n - 1, p, direction, req, shouldReturn);
      var idx := YieldedIndices(candidates, n, p, direction, req, shouldReturn);
      assert n - 1 !in prev;
      forall i | 0 <= i < n
        ensures i in idx <==> Accepted(candidates, i, p, direction, req, shouldReturn)
      {
        if i < n - 1 {
          assert i in idx <==> i in prev;
        }
      }
    }
  }

  /** The specification of `generateScopes`. */
  function GeneratedScopes(isHierarchical: bool, candidates: seq<TargetScope>, p: Position,
                           direction: Descriptors.Direction, req: Requirements,
                           shouldReturn: ScopeFilter): (r: seq<TargetScope>)
    ensures |r| <= |candidates|
  {
    Yielded(candidates, StopIndex(isHierarchical, p, direction, req, candidates), p, direction, req, shouldReturn)
  }

  /**
   * `generateScopes`: walks the candidates, yielding those the filter accepts
   * given the preceding candidate, and stops after the first candidate that
   * allows an early stop.
   */
  method GenerateScopes(isHierarchical: bool, candidates: seq<TargetScope>, p: Position,
                        direction: Descriptors.Direction, req: Requirements, shouldReturn: ScopeFilter)
    returns (yielded: seq<TargetScope>)
    ensures yielded == GeneratedScopes(isHierarchical, candidates, p, direction, req, shouldReturn)
  {
    ghost var stop := StopIndex(isHierarchical, p, direction, req, candidates);
    var previousScope: Option<TargetScope> := None;
    yielded := [];
    var i := 0;
    while i < |candidates|
      invariant i <= stop
      invariant forall j :: 0 <= j < i ==> !CanStopEarly(isHierarchical, p, direction, req, candidates[j])
      invariant previousScope == Previous(candidates, i)
      invariant yielded == Yielded(candidates, i, p, direction, req, shouldReturn)
    {
      var scope := candidates[i];
      if shouldReturn(p, direction, req, previousScope, scope) {
        yielded := yielded + [scope];
      }
      if CanStopEarly(isHierarchical, p, direction, req, scope) {
        assert stop == i + 1;
        return;
      }
      previousScope := Some(scope);
      i := i + 1;
    }
  }

  /** A hierarchical handler looks at every candidate. */
  lemma {:induction false} HierarchicalNeverStopsEarly(p: Position, direction: Descriptors.Direction,
                                                       req: Requirements, candidates: seq<TargetScope>)
    ensures StopIndex(true, p, direction, req, candidates) == |candidates|
  {
    if candidates != [] {
      HierarchicalNeverStopsEarly(p, direction, req, candidates[1..]);
    }
  }

  /**
   * The candidate that allows the early stop is still considered for yielding:
   * it is the last one looked at, and it ends the result when the filter accepts it.
   */
  lemma StopAfterTrigger(isHierarchical: bool, candidates: seq<TargetScope>, p: Position,
                         direction: Descriptors.Direction, req: Requirements, shouldReturn: ScopeFilter, i: nat)
    requires i < |candidates|
    requires CanStopEarly(isHierarchical, p, direction, req, candidates[i])
    requires forall j :: 0 <= j < i ==> !CanStopEarly(isHierarchical, p, direction, req, candidates[j])
    ensures StopIndex(isHierarchical, p, direction, req, candidates) == i + 1
    ensures var r := GeneratedScopes(isHierarchical, candidates, p, direction, req, shouldReturn);
            shouldReturn(p, direction, req, Previous(candidates, i), candidates[i]) ==>
              r != [] && r[|r| - 1] == candidates[i]
  {
  }

  // ---------------------------------------------------------------------------
  // Candidates of a non-hierarchical type

  function Reverse<T>(xs: seq<T>): (r: seq<T>)
    ensures |r| == |xs|
    ensures forall i :: 0 <= i < |xs| ==> r[i] == xs[|xs| - 1 - i]
  {
    if xs == [] then [] else Reverse(xs[1..]) + [xs[0]]
  }

  /**
   * The candidates of a non-hierarchical type: forward, every scope ending at
   * or after the position, by end; backward, every scope starting at or
   * before it, latest start first.
   */
  function NonHierarchicalCandidates(h: ScopeHandler, p: Position, direction: Descriptors.Direction)
    : (r: seq<TargetScope>)
    ensures forall s :: s in r <==> (s in h.scopes &&
              (if direction.Forward? then IsBeforeOrEqual(p, s.domain.end) else IsBeforeOrEqual(s.domain.start, p)))
  {
    if direction.Forward? then
      FilterMembers(h.scopes, EndsAtOrAfter(p));
      Filter(h.scopes, EndsAtOrAfter(p))
    else
      var f := Filter(h.scopes, StartsAtOrBefore(p));
      FilterMembers(h.scopes, StartsAtOrBefore(p));
      ReverseMembers(f);
      Reverse(f)
  }

  lemma ReverseMembers<T>(xs: seq<T>)
    ensures forall x :: x in Reverse(xs) <==> x in xs
  {
    var r := Reverse(xs);
    forall x
      ensures x in r <==> x in xs
    {
      if x in r {
        var i :| 0 <= i < |r| && r[i] == x;
        assert xs[|xs| - 1 - i] == x;
      }
      if x in xs {
        var i :| 0 <= i < |xs| && xs[i] == x;
        assert r[|xs| - 1 - i] == x;
      }
    }
  }

  /** For a handler in document order the forward candidates come out by end. */
  lemma ForwardCandidatesOrdered(h: ScopeHandler, p: Position, i: nat, j: nat)
    requires InDocumentOrder(h)
    requires i < j < |NonHierarchicalCandidates(h, p, Descriptors.Forward)|
    ensures var c := NonHierarchicalCandidates(h, p, Descriptors.Forward);
            IsBeforeOrEqual(c[i].domain.end, c[j].domain.end)
  {
    assert NonHierarchicalCandidates(h, p, Descriptors.Forward) == Filter(h.scopes, EndsAtOrAfter(p));
    var a, b := FilterKeepsOrder(h.scopes, EndsAtOrAfter(p), i, j);
    assert IsBeforeOrEqual(h.scopes[a].domain.end, h.scopes[b].domain.end);
  }

  /** For a handler in document order the backward candidates come out latest start first. */
  lemma BackwardCandidatesOrdered(h: ScopeHandler, p: Position, i: nat, j: nat)
    requires InDocumentOrder(h)
    requires i < j < |NonHierarchicalCandidates(h, p, Descriptors.Backward)|
    ensures var c := NonHierarchicalCandidates(h, p, Descriptors.Backward);
            IsBeforeOrEqual(c[j].domain.start, c[i].domain.start)
  {
    var f := Filter(h.scopes, StartsAtOrBefore(p));
    var c := Reverse(f);
    assert NonHierarchicalCandidates(h, p, Descriptors.Backward) == c;
    var i', j' := |f| - 1 - i, |f| - 1 - j;
    assert c[i] == f[i'] && c[j] == f[j'];
    var a, b := FilterKeepsOrder(h.scopes, StartsAtOrBefore(p), j', i');
    assert f[j'] == h.scopes[a] && f[i'] == h.scopes[b];
    InDocumentOrderAt(h, a, b);
  }

  lemma InDocumentOrderAt(h: ScopeHandler, a: nat, b: nat)
    requires InDocumentOrder(h) && a < b < |h.scopes|
    ensures IsBeforeOrEqual(h.scopes[a].domain.start, h.scopes[b].domain.start)
    ensures IsBeforeOrEqual(h.scopes[a].domain.end, h.scopes[b].domain.end)
  {
  }
}
