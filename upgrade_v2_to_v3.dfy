/**
 * The upgrade of a version-2 command to version 3. The only difference the
 * upgrade deals with is the `ordinalRange` modifier of version 2, which becomes
 * one absolute ordinal scope (when both ends are the same ordinal) or a range
 * modifier between two absolute ordinal scopes. Every other part of the
 * command is carried over as it is.
 *
 * The version-3 side is written in the descriptor types of `Descriptors`;
 * `OrdinalScope(scopeType, start, length)` plays the part of the
 * `absoluteOrdinalScope` modifier, whose fields are the same.
 */
module UpgradeV2ToV3 {
  import opened Wrappers
  import opened Descriptors

  /** A version-2 modifier: `ordinalRange`, or one of the modifiers both versions share. */
  datatype ModifierV2 =
    | OrdinalRange(scopeType: ScopeType, anchor: int, active: int, excludeAnchor: bool, excludeActive: bool)
    | SharedModifier(modifier: Modifier)

  datatype PrimitiveV2 = PrimitiveV2(mark: Option<Mark>, modifiers: Option<seq<ModifierV2>>, isImplicit: Option<bool>)

  datatype RangeV2 = RangeV2(anchor: PrimitiveV2, active: PrimitiveV2, excludeAnchor: bool, excludeActive: bool,
                             rangeType: Option<RangeType>)

  datatype ListElementV2 = PrimitiveElementV2(primitive: PrimitiveV2) | RangeElementV2(range: RangeV2)

  datatype TargetV2 =
    | PrimitiveTargetV2(primitive: PrimitiveV2)
    | RangeTargetV2(range: RangeV2)
    | ListTargetV2(elements: seq<ListElementV2>)

  /** A command; `A` is the action part, which the upgrade carries over untouched. */
  datatype Command<A, T> = Command(version: nat, spokenForm: Option<string>, usePrePhraseSnapshot: bool, action: A,
                                   targets: seq<T>)

  /** `createAbsoluteOrdinalModifier`: the single scope at ordinal `start`. */
  function AbsoluteOrdinal(scopeType: ScopeType, start: int): Modifier {
    OrdinalScope(scopeType, start, 1)
  }

  /** `createNewModifier` for an `ordinalRange`. */
  function CreateNewModifier(m: ModifierV2): (r: Modifier)
    requires m.OrdinalRange?
    ensures m.anchor == m.active ==> r == OrdinalScope(m.scopeType, m.anchor, 1)
    ensures m.anchor != m.active ==>
              r == RangeModifier(OrdinalScope(m.scopeType, m.anchor, 1), OrdinalScope(m.scopeType, m.active, 1),
                                 Some(m.excludeAnchor), Some(m.excludeActive))
  {
    if m.anchor == m.active then AbsoluteOrdinal(m.scopeType, m.anchor)
    else RangeModifier(AbsoluteOrdinal(m.scopeType, m.anchor), AbsoluteOrdinal(m.scopeType, m.active),
                       Some(m.excludeAnchor), Some(m.excludeActive))
  }

  /** `updateModifier`: only `ordinalRange` changes. */
  function UpdateModifier(m: ModifierV2): (r: Modifier)
    ensures m.SharedModifier? ==> r == m.modifier
    ensures m.OrdinalRange? ==> r.OrdinalScope? || r.RangeModifier?
  {
    match m
    case OrdinalRange(_, _, _, _, _) => CreateNewModifier(m)
    case SharedModifier(modifier) => modifier
  }

  function UpgradeModifiers(modifiers: seq<ModifierV2>): (r: seq<Modifier>)
    ensures |r| == |modifiers| && forall i :: 0 <= i < |r| ==> r[i] == UpdateModifier(modifiers[i])
  {
    seq(|modifiers|, i requires 0 <= i < |modifiers| => UpdateModifier(modifiers[i]))
  }

  /** `upgradePrimitiveTarget`: the mark and the implicit flag are kept, the modifiers upgraded one for one. */
  function UpgradePrimitive(p: PrimitiveV2): (r: PrimitiveDescriptor)
    ensures r.mark == p.mark && r.isImplicit == p.isImplicit
    ensures r.modifiers.None? <==> p.modifiers.None?
    ensures p.modifiers.Some? ==> r.modifiers == Some(UpgradeModifiers(p.modifiers.value))
  {
    PrimitiveDescriptor(p.mark, if p.modifiers.Some? then Some(UpgradeModifiers(p.modifiers.value)) else None,
                        p.isImplicit)
  }

  function UpgradeRange(r: RangeV2): (u: RangeDescriptor)
    ensures u.anchor == UpgradePrimitive(r.anchor) && u.active == UpgradePrimitive(r.active)
    ensures u.excludeAnchor == r.excludeAnchor && u.excludeActive == r.excludeActive && u.rangeType == r.rangeType
  {
    RangeDescriptor(UpgradePrimitive(r.anchor), UpgradePrimitive(r.active), r.excludeAnchor, r.excludeActive, r.rangeType)
  }

  function UpgradeElement(e: ListElementV2): (r: ListElement)
    ensures e.PrimitiveElementV2? <==> r.PrimitiveElement?
    ensures e.PrimitiveElementV2? ==> r.primitive == UpgradePrimitive(e.primitive)
    ensures e.RangeElementV2? ==> r.range == UpgradeRange(e.range)
  {
    match e
    case PrimitiveElementV2(p) => PrimitiveElement(UpgradePrimitive(p))
    case RangeElementV2(rg) => RangeElement(UpgradeRange(rg))
  }

  /** `upgradeTarget`: the kind of target is kept; lists keep their length and order. */
  function UpgradeTarget(t: TargetV2): (r: TargetDescriptor)
    ensures t.PrimitiveTargetV2? <==> r.PrimitiveTarget?
    ensures t.RangeTargetV2? <==> r.RangeTarget?
    ensures t.ListTargetV2? <==> r.ListTarget?
    ensures t.ListTargetV2? ==>
              |r.elements| == |t.elements| &&
              forall i :: 0 <= i < |t.elements| ==> r.elements[i] == UpgradeElement(t.elements[i])
  {
    match t
    case PrimitiveTargetV2(p) => PrimitiveTarget(UpgradePrimitive(p))
    case RangeTargetV2(rg) => RangeTarget(UpgradeRange(rg))
    case ListTargetV2(elements) =>
      ListTarget(seq(|elements|, i requires 0 <= i < |elements| => UpgradeElement(elements[i])))
  }

  /** `upgradeV2ToV3`: version 3, every other field kept, every target upgraded in order. */
  function UpgradeCommand<A>(command: Command<A, TargetV2>): (r: Command<A, TargetDescriptor>)
    ensures r.version == 3
    ensures r.spokenForm == command.spokenForm && r.usePrePhraseSnapshot == command.usePrePhraseSnapshot &&
            r.action == command.action
    ensures |r.targets| == |command.targets| &&
            forall i :: 0 <= i < |r.targets| ==> r.targets[i] == UpgradeTarget(command.targets[i])
  {
    Command(3, command.spokenForm, command.usePrePhraseSnapshot, command.action,
            seq(|command.targets|, i requires 0 <= i < |command.targets| => UpgradeTarget(command.targets[i])))
  }

  // ---------------------------------------------------------------------------
  // Version-3 targets written as version 2: the upgrade gives them back

  function DowngradePrimitive(p: PrimitiveDescriptor): PrimitiveV2 {
    PrimitiveV2(p.mark,
                if p.modifiers.Some?
                then Some(seq(|p.modifiers.value|, i requires 0 <= i < |p.modifiers.value| => SharedModifier(p.modifiers.value[i])))
                else None,
                p.isImplicit)
  }

  function DowngradeRange(r: RangeDescriptor): RangeV2 {
    RangeV2(DowngradePrimitive(r.anchor), DowngradePrimitive(r.active), r.excludeAnchor, r.excludeActive, r.rangeType)
  }

  function DowngradeElement(e: ListElement): ListElementV2 {
    match e
    case PrimitiveElement(p) => PrimitiveElementV2(DowngradePrimitive(p))
    case RangeElement(rg) => RangeElementV2(DowngradeRange(rg))
  }

  /** A version-3 target with every modifier taken as a shared one. */
  function DowngradeTarget(t: TargetDescriptor): TargetV2 {
    match t
    case PrimitiveTarget(p) => PrimitiveTargetV2(DowngradePrimitive(p))
    case RangeTarget(rg) => RangeTargetV2(DowngradeRange(rg))
    case ListTarget(elements) =>
      ListTargetV2(seq(|elements|, i requires 0 <= i < |elements| => DowngradeElement(elements[i])))
  }

  lemma PrimitiveRoundTrip(p: PrimitiveDescriptor)
    ensures UpgradePrimitive(DowngradePrimitive(p)) == p
  {
    if p.modifiers.Some? {
      var ms := p.modifiers.value;
      var back := UpgradeModifiers(DowngradePrimitive(p).modifiers.value);
      assert |back| == |ms|;
      forall i | 0 <= i < |ms| ensures back[i] == ms[i] {
      }
      assert back == ms;
    }
  }

  /** Every modifier other than `ordinalRange` passes through: a version-3 target taken as version 2 upgrades to itself. */
  lemma UpgradeDowngradeRoundTrip(t: TargetDescriptor)
    ensures UpgradeTarget(DowngradeTarget(t)) == t
  {
    match t
    case PrimitiveTarget(p) =>
      PrimitiveRoundTrip(p);
    case RangeTarget(rg) =>
      PrimitiveRoundTrip(rg.anchor);
      PrimitiveRoundTrip(rg.active);
    case ListTarget(elements) =>
      var back := UpgradeTarget(DowngradeTarget(t)).elements;
      forall i | 0 <= i < |elements| ensures back[i] == elements[i] {
        match elements[i]
        case PrimitiveElement(p) => PrimitiveRoundTrip(p);
        case RangeElement(rg) =>
          PrimitiveRoundTrip(rg.anchor);
          PrimitiveRoundTrip(rg.active);
      }
      assert back == elements;
  }

  // ---------------------------------------------------------------------------
  // The scopes an ordinal modifier picks out of `n` scopes

  /** An ordinal counts from the end of the `n` scopes when negative. */
  function Resolve(ordinal: int, n: nat): int {
    if ordinal >= 0 then ordinal else n + ordinal
  }

  /** Whether `j` lies between two resolved ordinals, both ends included unless excluded. */
  predicate InBetween(j: int, a: int, b: int, excludeA: bool, excludeB: bool) {
    (if a <= b then a <= j <= b else b <= j <= a) && !(excludeA && j == a) && !(excludeB && j == b)
  }

  /** Whether `j` is one of the `length` indices from `start`. */
  predicate InWindow(j: int, start: int, length: int) {
    start <= j < start + length
  }

  function Between(a: int, b: int, excludeA: bool, excludeB: bool, n: nat): set<int> {
    set j | 0 <= j < n && InBetween(j, a, b, excludeA, excludeB)
  }

  /** The scopes a version-2 `ordinalRange` picks out. */
  function OrdinalRangeScopes(m: ModifierV2, n: nat): set<int>
    requires m.OrdinalRange?
  {
    Between(Resolve(m.anchor, n), Resolve(m.active, n), m.excludeAnchor, m.excludeActive, n)
  }

  /**
   * The scopes a version-3 ordinal modifier picks out: `length` scopes from
   * `start`, or the scopes between two single-scope ordinals. None for any
   * other modifier.
   */
  function OrdinalScopes(m: Modifier, n: nat): set<int> {
    match m
    case OrdinalScope(_, start, length) => set j | 0 <= j < n && InWindow(j, Resolve(start, n), length)
    case RangeModifier(anchor, active, excludeAnchor, excludeActive) =>
      if anchor.OrdinalScope? && active.OrdinalScope? && anchor.length == 1 && active.length == 1
      then Between(Resolve(anchor.start, n), Resolve(active.start, n), excludeAnchor == Some(true),
                   excludeActive == Some(true), n)
      else {}
    case _ => {}
  }

  /**
   * The upgraded modifier picks out the same scopes as the `ordinalRange` did,
   * whatever the number of scopes; when both ends are the same ordinal the
   * exclusion flags are dropped, so this holds there only without them.
   */
  lemma UpdateModifierKeepsScopes(m: ModifierV2, n: nat)
    requires m.OrdinalRange?
    requires m.anchor == m.active ==> !m.excludeAnchor && !m.excludeActive
    ensures OrdinalScopes(UpdateModifier(m), n) == OrdinalRangeScopes(m, n)
  {
    if m.anchor == m.active {
      var a := Resolve(m.anchor, n);
      forall j ensures j in OrdinalScopes(UpdateModifier(m), n) <==> j in OrdinalRangeScopes(m, n) {
        assert InWindow(j, a, 1) <==> InBetween(j, a, a, false, false);
      }
    }
  }
}
