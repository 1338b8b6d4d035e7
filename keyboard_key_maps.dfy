/**
 * Parts of the keyboard configuration's token-type key maps: the action
 * entries, which are checked against the actions a token type accepts and put
 * into their fully specified form, and the fixed key map of the digits.
 */
module KeyboardKeyMaps {
  import opened Wrappers
  import opened Strings

  /** A fully specified action entry. */
  datatype SpecificActionDescriptor = SpecificActionDescriptor(actionId: string, exitCursorlessMode: Option<bool>)

  /** An action entry as the user writes it: a bare action name, or the full form. */
  datatype ActionDescriptor = ActionName(name: string) | Specific(descriptor: SpecificActionDescriptor)

  function ActionIdOf(value: ActionDescriptor): string {
    match value
    case ActionName(name) => name
    case Specific(d) => d.actionId
  }

  /** `isIncluded`: list membership. */
  function IsIncluded(value: string, values: seq<string>): (r: bool)
    ensures r <==> value in values
  {
    values != [] && (values[0] == value || IsIncluded(value, values[1..]))
  }

  /**
   * `transformActionDescriptor`: a bare name becomes the full form that stays
   * in Cursorless mode; a full form is kept as written. Either way the entry is
   * dropped when its action is not among `actionNames`.
   */
  function TransformActionDescriptor(value: ActionDescriptor, actionNames: seq<string>)
    : (r: Option<SpecificActionDescriptor>)
    ensures r.Some? <==> ActionIdOf(value) in actionNames
    ensures r.Some? ==> r.value.actionId == ActionIdOf(value) && r.value.actionId in actionNames
    ensures r.Some? && value.ActionName? ==> r.value.exitCursorlessMode == Some(false)
    ensures r.Some? && value.Specific? ==> r.value == value.descriptor
  {
    match value
    case ActionName(name) =>
      if IsIncluded(name, actionNames) then Some(SpecificActionDescriptor(name, Some(false))) else None
    case Specific(d) =>
      if IsIncluded(d.actionId, actionNames) then Some(d) else None
  }

  /** Transforming an entry that is already transformed changes nothing. */
  lemma TransformIdempotent(value: ActionDescriptor, actionNames: seq<string>)
    requires TransformActionDescriptor(value, actionNames).Some?
    ensures var d := TransformActionDescriptor(value, actionNames).value;
            TransformActionDescriptor(Specific(d), actionNames) == Some(d)
  {
  }

  /** The `wrap` token type accepts the `wrap` action and no other. */
  lemma WrapAcceptsOnlyWrap(value: ActionDescriptor)
    ensures TransformActionDescriptor(value, ["wrap"]).Some? <==> ActionIdOf(value) == "wrap"
  {
  }

  // ---------------------------------------------------------------------------
  // Digits

  datatype DigitToken = DigitToken(value: nat)

  /** The digit key map: the decimal text of each digit from 0 to 9 gives that digit. */
  function DigitKeyMap(): (m: map<string, DigitToken>)
    ensures forall d :: 0 <= d < 10 ==> NatToString(d) in m && m[NatToString(d)] == DigitToken(d)
    ensures forall k :: k in m ==> |k| == 1 && '0' <= k[0] <= '9'
  {
    map d: nat | d < 10 :: NatToString(d) := DigitToken(d)
  }

  /** Every key of the digit map is the decimal text of its digit, and nothing else is a key. */
  lemma DigitKeysAreTheirValues(k: string)
    ensures k in DigitKeyMap() <==> exists d :: 0 <= d < 10 && k == NatToString(d)
    ensures k in DigitKeyMap() ==>
              (forall c :: c in k ==> '0' <= c <= '9') && ParseDigits(k) == DigitKeyMap()[k].value
  {
    var m := DigitKeyMap();
    if k in m {
      var d :| 0 <= d < 10 && k == NatToString(d);
      NatToStringRoundTrip(d);
    }
  }
}
