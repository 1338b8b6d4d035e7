/**
 * The surrounding-pair delimiters: the table from delimiter name to its left and
 * right strings, the map from left to right string, the list tried for "any",
 * and the search for a delimiter pair that starts or ends right at the selection.
 */
module Delimiters {
  import opened Wrappers

  datatype Delimiter =
    | SquareBrackets | CurlyBrackets | AngleBrackets | Parentheses | SingleQuotes
    | DoubleQuotes | BacktickQuotes | EscapedSingleQuotes | EscapedDoubleQuotes | EscapedParentheses

  /** `delimiterToText`: the left and right string of each delimiter. */
  function DelimiterToText(d: Delimiter): (pair: (string, string))
    ensures |pair.0| > 0 && |pair.1| > 0
  {
    match d
    case SquareBrackets => ("[", "]")
    case CurlyBrackets => ("{", "}")
    case AngleBrackets => ("<", ">")
    case Parentheses => ("(", ")")
    case SingleQuotes => ("'", "'")
    case DoubleQuotes => ("\"", "\"")
    case BacktickQuotes => ("`", "`")
    case EscapedSingleQuotes => ("\\'", "\\'")
    case EscapedDoubleQuotes => ("\\\"", "\\\"")
    case EscapedParentheses => ("\\(", "\\)")
  }

  /** `anyDelimiter`: the delimiter names, in the table's order. */
  const AnyDelimiter: seq<Delimiter> := [
    SquareBrackets, CurlyBrackets, AngleBrackets, Parentheses, SingleQuotes,
    DoubleQuotes, BacktickQuotes, EscapedSingleQuotes, EscapedDoubleQuotes, EscapedParentheses]

  /** `anyDelimiter` lists every delimiter exactly once. */
  lemma AnyDelimiterIsEveryName(d: Delimiter)
    ensures d in AnyDelimiter
    ensures |AnyDelimiter| == 10
    ensures forall i, j :: 0 <= i < j < |AnyDelimiter| ==> AnyDelimiter[i] != AnyDelimiter[j]
  {
  }

  predicate IsQuote(d: Delimiter) {
    d in {SingleQuotes, DoubleQuotes, BacktickQuotes, EscapedSingleQuotes, EscapedDoubleQuotes}
  }

  /** The quote delimiters, and only they, have the same string on both sides. */
  lemma QuotesAreSymmetric(d: Delimiter)
    ensures DelimiterToText(d).0 == DelimiterToText(d).1 <==> IsQuote(d)
  {
  }

  /** No two delimiters share a left string. */
  lemma LeftStringsDistinct(d: Delimiter, e: Delimiter)
    requires DelimiterToText(d).0 == DelimiterToText(e).0
    ensures d == e
  {
  }

  /** `Object.fromEntries` of the table's pairs, built one entry at a time as the source's entries are. */
  function FromEntries(pairs: seq<(string, string)>): (m: map<string, string>)
    ensures forall k :: k in m <==> exists i :: 0 <= i < |pairs| && pairs[i].0 == k
  {
    if pairs == [] then map[]
    else
      var m := FromEntries(pairs[..|pairs| - 1]);
      assert forall i :: 0 <= i < |pairs| - 1 ==> pairs[..|pairs| - 1][i] == pairs[i];
      m[pairs[|pairs| - 1].0 := pairs[|pairs| - 1].1]
  }

  /** The later entry for a key wins; with distinct keys each entry survives. */
  lemma {:induction false} FromEntriesDistinct(pairs: seq<(string, string)>, i: nat)
    requires i < |pairs|
    requires forall a, b :: 0 <= a < b < |pairs| ==> pairs[a].0 != pairs[b].0
    ensures FromEntries(pairs)[pairs[i].0] == pairs[i].1
  {
    if i < |pairs| - 1 {
      var init := pairs[..|pairs| - 1];
      FromEntriesDistinct(init, i);
    }
  }

  function DelimiterPairs(): (pairs: seq<(string, string)>)
    ensures |pairs| == |AnyDelimiter|
    ensures forall i :: 0 <= i < |pairs| ==> pairs[i] == DelimiterToText(AnyDelimiter[i])
  {
    seq(|AnyDelimiter|, i requires 0 <= i < |AnyDelimiter| => DelimiterToText(AnyDelimiter[i]))
  }

  /** `leftToRightMap`: from each left delimiter string to its right one. */
  function LeftToRightMap(): map<string, string> {
    FromEntries(DelimiterPairs())
  }

  /** The map has exactly the left strings as keys and sends each to its right string. */
  lemma LeftToRight(d: Delimiter)
    ensures DelimiterToText(d).0 in LeftToRightMap()
    ensures LeftToRightMap()[DelimiterToText(d).0] == DelimiterToText(d).1
    ensures forall k :: k in LeftToRightMap() ==> exists e :: DelimiterToText(e).0 == k
  {
    var pairs := DelimiterPairs();
    AnyDelimiterIsEveryName(d);
    var i :| 0 <= i < |AnyDelimiter| && AnyDelimiter[i] == d;
    forall a, b | 0 <= a < b < |pairs| ensures pairs[a].0 != pairs[b].0 {
      if pairs[a].0 == pairs[b].0 {
        LeftStringsDistinct(AnyDelimiter[a], AnyDelimiter[b]);
      }
    }
    FromEntriesDistinct(pairs, i);
  }

  // ---------------------------------------------------------------------------
  // The pair adjacent to the selection

  /** Start and end offsets in the document text. */
  datatype Offsets = Offsets(start: int, end: int)

  datatype DelimiterSide = Opening | Closing | Unknown

  datatype DelimiterInfo = DelimiterInfo(side: DelimiterSide, delimiter: Delimiter)

  /** An occurrence of a delimiter string in the text; its info is absent when it cannot be used. */
  datatype PossibleDelimiterOccurrence = Occurrence(offsets: Offsets, delimiterInfo: Option<DelimiterInfo>)

  datatype SurroundingPairOffsets = SurroundingPairOffsets(leftDelimiter: Offsets, rightDelimiter: Offsets)

  /** `findOppositeDelimiter`: the occurrence matching the one at `index`, if any. */
  type FindOpposite = (seq<PossibleDelimiterOccurrence>, nat, DelimiterInfo) -> Option<PossibleDelimiterOccurrence>

  /** `getDelimiterPair`: the pair built from two matching occurrences. */
  type GetDelimiterPair = (PossibleDelimiterOccurrence, PossibleDelimiterOccurrence) -> SurroundingPairOffsets

  /** The occurrence at `index`, when there is one and it contains the selection. */
  predicate Adjacent(occurrences: seq<PossibleDelimiterOccurrence>, index: int, selection: Offsets) {
    0 <= index < |occurrences| &&
    occurrences[index].offsets.start <= selection.start && occurrences[index].offsets.end >= selection.end
  }

  /** What trying one index gives: a pair, a decision to give up, or nothing (try the next index). */
  datatype Attempt = Found(pair: SurroundingPairOffsets) | Bail | NoMatch

  function TryIndex(index: int, occurrences: seq<PossibleDelimiterOccurrence>, selection: Offsets,
                    bailOnUnmatchedAdjacent: bool, findOpposite: FindOpposite, getPair: GetDelimiterPair)
    : (a: Attempt)
    ensures !Adjacent(occurrences, index, selection) ==> a == NoMatch
    ensures Adjacent(occurrences, index, selection) && occurrences[index].delimiterInfo.None? ==> a == NoMatch
    ensures a.Found? ==>
              Adjacent(occurrences, index, selection) && occurrences[index].delimiterInfo.Some? &&
              var m := findOpposite(occurrences, index, occurrences[index].delimiterInfo.value);
              m.Some? && a.pair == getPair(occurrences[index], m.value)
    ensures a.Bail? <==>
              Adjacent(occurrences, index, selection) && occurrences[index].delimiterInfo.Some? && bailOnUnmatchedAdjacent &&
              var m := findOpposite(occurrences, index, occurrences[index].delimiterInfo.value);
              m.None?
  {
    if !Adjacent(occurrences, index, selection) then NoMatch
    else match occurrences[index].delimiterInfo
      case None => NoMatch
      case Some(info) =>
        match findOpposite(occurrences, index, info)
        case Some(m) => Found(getPair(occurrences[index], m))
        case None => if bailOnUnmatchedAdjacent then Bail else NoMatch
  }

  /**
   * `findDelimiterPairAdjacentToSelection`: the occurrence just after
   * `initialIndex` is tried first, then the one at it; the first that contains
   * the selection, carries delimiter info and has an opposite delimiter gives
   * the pair. With `bailOnUnmatchedAdjacent`, a containing occurrence without
   * an opposite ends the search with nothing.
   */
  function FindDelimiterPairAdjacentToSelection(initialIndex: int, occurrences: seq<PossibleDelimiterOccurrence>,
                                                selection: Offsets, bailOnUnmatchedAdjacent: bool,
                                                findOpposite: FindOpposite, getPair: GetDelimiterPair)
    : (r: Option<SurroundingPairOffsets>)
    ensures var first := TryIndex(initialIndex + 1, occurrences, selection, bailOnUnmatchedAdjacent, findOpposite, getPair);
            var second := TryIndex(initialIndex, occurrences, selection, bailOnUnmatchedAdjacent, findOpposite, getPair);
            (first.Found? ==> r == Some(first.pair)) &&
            (first.Bail? ==> r.None?) &&
            (first.NoMatch? && second.Found? ==> r == Some(second.pair)) &&
            (first.NoMatch? && !second.Found? ==> r.None?)
  {
    var first := TryIndex(initialIndex + 1, occurrences, selection, bailOnUnmatchedAdjacent, findOpposite, getPair);
    match first
    case Found(pair) => Some(pair)
    case Bail => None
    case NoMatch =>
      match TryIndex(initialIndex, occurrences, selection, bailOnUnmatchedAdjacent, findOpposite, getPair)
      case Found(pair) => Some(pair)
      case _ => None
  }

  /** The source's loop over the two indices to try, returning at the first pair or bail. */
  method SearchAdjacentPair(initialIndex: int, occurrences: seq<PossibleDelimiterOccurrence>,
                            selection: Offsets, bailOnUnmatchedAdjacent: bool,
                            findOpposite: FindOpposite, getPair: GetDelimiterPair)
    returns (r: Option<SurroundingPairOffsets>)
    ensures r == FindDelimiterPairAdjacentToSelection(initialIndex, occurrences, selection,
                                                      bailOnUnmatchedAdjacent, findOpposite, getPair)
  {
    var indicesToTry := [initialIndex + 1, initialIndex];
    for k := 0 to |indicesToTry|
      invariant forall j :: 0 <= j < k ==>
                  TryIndex(indicesToTry[j], occurrences, selection, bailOnUnmatchedAdjacent, findOpposite, getPair).NoMatch?
    {
      var index := indicesToTry[k];
      if 0 <= index < |occurrences| &&
         occurrences[index].offsets.start <= selection.start && occurrences[index].offsets.end >= selection.end {
        var delimiterInfo := occurrences[index].delimiterInfo;
        if delimiterInfo.Some? {
          var possibleMatch := findOpposite(occurrences, index, delimiterInfo.value);
          if possibleMatch.Some? {
            assert TryIndex(index, occurrences, selection, bailOnUnmatchedAdjacent, findOpposite, getPair)
                   == Found(getPair(occurrences[index], possibleMatch.value));
            assert k == 1 ==> indicesToTry[0] == initialIndex + 1 && index == initialIndex;
            return Some(getPair(occurrences[index], possibleMatch.value));
          } else if bailOnUnmatchedAdjacent {
            return None;
          }
        }
      }
    }
    assert TryIndex(indicesToTry[0], occurrences, selection, bailOnUnmatchedAdjacent, findOpposite, getPair).NoMatch?;
    assert TryIndex(indicesToTry[1], occurrences, selection, bailOnUnmatchedAdjacent, findOpposite, getPair).NoMatch?;
    return None;
  }

  /**
   * Every pair returned comes from an occurrence that contains the selection,
   * at `initialIndex + 1` or at `initialIndex`, and from its opposite.
   */
  lemma AdjacentPairContainsSelection(initialIndex: int, occurrences: seq<PossibleDelimiterOccurrence>,
                                      selection: Offsets, bailOnUnmatchedAdjacent: bool,
                                      findOpposite: FindOpposite, getPair: GetDelimiterPair)
    ensures var r := FindDelimiterPairAdjacentToSelection(initialIndex, occurrences, selection,
                                                          bailOnUnmatchedAdjacent, findOpposite, getPair);
            r.Some? ==> exists index :: index in {initialIndex + 1, initialIndex} &&
                          Adjacent(occurrences, index, selection) && occurrences[index].delimiterInfo.Some? &&
                          var m := findOpposite(occurrences, index, occurrences[index].delimiterInfo.value);
                          m.Some? && r.value == getPair(occurrences[index], m.value)
  {
    var first := TryIndex(initialIndex + 1, occurrences, selection, bailOnUnmatchedAdjacent, findOpposite, getPair);
    var second := TryIndex(initialIndex, occurrences, selection, bailOnUnmatchedAdjacent, findOpposite, getPair);
    if first.Found? {
      assert initialIndex + 1 in {initialIndex + 1, initialIndex};
    } else if second.Found? && first.NoMatch? {
      assert initialIndex in {initialIndex + 1, initialIndex};
    }
  }

  /** Without bailing, a search that finds nothing at the first index falls back to the second. */
  lemma NoBailFallsBack(initialIndex: int, occurrences: seq<PossibleDelimiterOccurrence>, selection: Offsets,
                        findOpposite: FindOpposite, getPair: GetDelimiterPair)
    requires !TryIndex(initialIndex + 1, occurrences, selection, false, findOpposite, getPair).Found?
    ensures FindDelimiterPairAdjacentToSelection(initialIndex, occurrences, selection, false, findOpposite, getPair)
            == (match TryIndex(initialIndex, occurrences, selection, false, findOpposite, getPair)
                case Found(p) => Some(p)
                case _ => None)
  {
  }
}
