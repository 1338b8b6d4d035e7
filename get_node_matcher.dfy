/**
 * The legacy node-matcher table: which languages have node matchers, how a
 * language id and a scope type select one, and the "include siblings" variant
 * that replaces each match by the matches among the children of its nearest
 * ancestor that has any.
 */
module GetNodeMatcher {
  import opened Wrappers
  import opened Geometry
  import opened Descriptors
  import opened SelectionUtils
  import opened NodeMatchers

  /** The languages that still have legacy node matchers. */
  datatype LegacyLanguage = Clojure | Latex | Ruby | Rust | Scala | Scss

  /** `languageMatchers`' keys; "css" shares the scss matchers. */
  function LanguageOf(languageId: string): (r: Option<LegacyLanguage>)
    ensures r.Some? <==> languageId in {"clojure", "css", "latex", "ruby", "rust", "scala", "scss"}
    ensures r == Some(Scss) <==> languageId in {"css", "scss"}
  {
    match languageId
    case "clojure" => Some(Clojure)
    case "css" => Some(Scss)
    case "latex" => Some(Latex)
    case "ruby" => Some(Ruby)
    case "rust" => Some(Rust)
    case "scala" => Some(Scala)
    case "scss" => Some(Scss)
    case _ => None
  }

  /** One match: the node and the selection it gives. */
  datatype NodeMatcherValue = NodeMatcherValue(node: NodeId, selection: Selection)

  /** A node matcher: the matches for a node under a selection, or none. */
  type EngineMatcher = (SelectionWithEditor, NodeId) -> Option<seq<NodeMatcherValue>>

  /** What `getNodeMatcher` hands back: the failing matcher, a language's matcher, or it with siblings. */
  datatype MatcherChoice =
    | NotSupportedMatcher(scopeType: SimpleScopeTypeType)
    | Plain(matcher: EngineMatcher)
    | WithSiblings(matcher: EngineMatcher)

  /**
   * `getNodeMatcher`: an unknown language fails; a scope type the language has
   * no matcher for gives the failing matcher; otherwise the language's matcher,
   * wrapped to include siblings when asked. `matchers` stands for each
   * language's table, which is not part of this model.
   */
  function GetNodeMatcher(languageId: string, scopeTypeType: SimpleScopeTypeType, includeSiblings: bool,
                          matchers: (LegacyLanguage, SimpleScopeTypeType) -> Option<EngineMatcher>)
    : (r: Result<MatcherChoice>)
    ensures r.Err? <==> LanguageOf(languageId).None?
    ensures r.Err? ==> r.error == UnsupportedLanguage(languageId)
    ensures r.Ok? ==> var m := matchers(LanguageOf(languageId).value, scopeTypeType);
                      (m.None? <==> r.value == NotSupportedMatcher(scopeTypeType)) &&
                      (m.Some? && includeSiblings ==> r.value == WithSiblings(m.value)) &&
                      (m.Some? && !includeSiblings ==> r.value == Plain(m.value))
  {
    match LanguageOf(languageId)
    case None => Err(UnsupportedLanguage(languageId))
    case Some(language) =>
      match matchers(language, scopeTypeType)
      case None => Ok(NotSupportedMatcher(scopeTypeType))
      case Some(m) => if includeSiblings then Ok(WithSiblings(m)) else Ok(Plain(m))
  }

  /** The matches of a matcher over a list of nodes, concatenated; nodes without a match contribute nothing. */
  function MatchesOf(matcher: EngineMatcher, selection: SelectionWithEditor, nodes: seq<NodeId>)
    : (r: seq<NodeMatcherValue>)
    ensures r == [] <==> forall i :: 0 <= i < |nodes| ==>
                          matcher(selection, nodes[i]).None? || matcher(selection, nodes[i]).value == []
  {
    if nodes == [] then []
    else
      var first := match matcher(selection, nodes[0]) case None => [] case Some(ms) => ms;
      assert forall i :: 1 <= i < |nodes| ==> nodes[i] == nodes[1..][i - 1];
      first + MatchesOf(matcher, selection, nodes[1..])
  }

  /** The matches among the named children of `n`. */
  function SiblingMatches(t: Tree, n: NodeId, matcher: EngineMatcher, selection: SelectionWithEditor)
    : seq<NodeMatcherValue>
    requires IsNode(t, n)
  {
    MatchesOf(matcher, selection, t.nodes[n].namedChildren)
  }

  /**
   * The matches among the children of the nearest ancestor, from `parent`
   * upwards, whose children have any; none when no ancestor's children do.
   */
  function NearestIterable(t: Tree, parent: Option<NodeId>, matcher: EngineMatcher, selection: SelectionWithEditor)
    : seq<NodeMatcherValue>
    requires ValidTree(t) && (parent.Some? ==> parent.value < |t.nodes|)
    decreases if parent.Some? then parent.value + 1 else 0
  {
    match parent
    case None => []
    case Some(p) =>
      var matches := SiblingMatches(t, p, matcher, selection);
      if |matches| > 0 then matches else NearestIterable(t, Parent(t, p), matcher, selection)
  }

  /** `iterateNearestIterableAncestor`: the loop from the node's parent up to the root. */
  method IterateNearestIterableAncestor(t: Tree, node: NodeId, selection: SelectionWithEditor, matcher: EngineMatcher)
    returns (r: seq<NodeMatcherValue>)
    requires IsNode(t, node)
    ensures r == NearestIterable(t, Parent(t, node), matcher, selection)
  {
    var parent := t.nodes[node].parent;
    while parent.Some?
      invariant parent.Some? ==> parent.value < |t.nodes|
      invariant NearestIterable(t, Parent(t, node), matcher, selection) == NearestIterable(t, parent, matcher, selection)
      decreases if parent.Some? then parent.value + 1 else 0
    {
      var matches := MatchesOf(matcher, selection, t.nodes[parent.value].namedChildren);
      if |matches| > 0 {
        return matches;
      }
      parent := t.nodes[parent.value].parent;
    }
    return [];
  }

  /**
   * What the upward search returns: the matches among the children of some
   * ancestor from `parent` up, when any ancestor's children have matches, and
   * nothing when none do.
   */
  lemma {:induction false} NearestIterableFromAncestor(t: Tree, parent: Option<NodeId>, matcher: EngineMatcher,
                                                      selection: SelectionWithEditor)
    requires ValidTree(t) && (parent.Some? ==> parent.value < |t.nodes|)
    ensures var r := NearestIterable(t, parent, matcher, selection);
            r != [] ==> parent.Some? && exists a: NodeId :: a < |t.nodes| && AncestorOrSelf(t, a, parent.value) &&
                                                    r == SiblingMatches(t, a, matcher, selection)
    ensures var r := NearestIterable(t, parent, matcher, selection);
            r == [] ==> parent.None? || forall a: NodeId :: a < |t.nodes| && AncestorOrSelf(t, a, parent.value) ==>
                                                    SiblingMatches(t, a, matcher, selection) == []
    decreases if parent.Some? then parent.value + 1 else 0
  {
    match parent
    case None =>
    case Some(p) =>
      var matches := SiblingMatches(t, p, matcher, selection);
      if |matches| == 0 {
        NearestIterableFromAncestor(t, Parent(t, p), matcher, selection);
        forall a: NodeId | a < |t.nodes| && AncestorOrSelf(t, a, p) && a != p
          ensures Parent(t, p).Some? && AncestorOrSelf(t, a, Parent(t, p).value)
        {
        }
      } else {
        assert AncestorOrSelf(t, p, p);
      }
  }

  /**
   * `matcherIncludeSiblings`: no match stays no match; otherwise each match is
   * replaced by the sibling matches around it, and an empty outcome is no match.
   */
  method MatcherIncludeSiblings(t: Tree, matcher: EngineMatcher, selection: SelectionWithEditor, node: NodeId)
    returns (r: Option<seq<NodeMatcherValue>>)
    requires IsNode(t, node)
    requires forall s, n: NodeId :: n < |t.nodes| && matcher(s, n).Some? ==>
               forall m :: m in matcher(s, n).value ==> m.node < |t.nodes|
    ensures matcher(selection, node).None? ==> r.None?
    ensures r.Some? ==> |r.value| > 0 && matcher(selection, node).Some? &&
                        r.value == IncludeSiblings(t, matcher, selection, matcher(selection, node).value)
    ensures (matcher(selection, node).Some? &&
             IncludeSiblings(t, matcher, selection, matcher(selection, node).value) != []) ==> r.Some?
  {
    var matches := matcher(selection, node);
    if matches.None? {
      return None;
    }
    var siblings := IncludeSiblingsLoop(t, matcher, selection, matches.value);
    if |siblings| > 0 {
      return Some(siblings);
    }
    return None;
  }

  /** The `flatMap` over the matches: each match's nearest-ancestor sibling matches, concatenated. */
  function IncludeSiblings(t: Tree, matcher: EngineMatcher, selection: SelectionWithEditor, matches: seq<NodeMatcherValue>)
    : (r: seq<NodeMatcherValue>)
    requires ValidTree(t) && forall m :: m in matches ==> m.node < |t.nodes|
    ensures matches == [] ==> r == []
  {
    if matches == [] then []
    else
      var m := matches[0];
      var s := SelectionWithEditorFromRange(selection, m.selection.AsRange());
      assert forall x :: x in matches[1..] ==> x in matches;
      NearestIterable(t, Parent(t, m.node), matcher, s) + IncludeSiblings(t, matcher, selection, matches[1..])
  }

  /** The `flatMap` written as a loop that runs the upward search per match. */
  method IncludeSiblingsLoop(t: Tree, matcher: EngineMatcher, selection: SelectionWithEditor, matches: seq<NodeMatcherValue>)
    returns (r: seq<NodeMatcherValue>)
    requires ValidTree(t) && forall m :: m in matches ==> m.node < |t.nodes|
    ensures r == IncludeSiblings(t, matcher, selection, matches)
  {
    r := [];
    var i := 0;
    while i < |matches|
      invariant 0 <= i <= |matches|
      invariant forall m :: m in matches[i..] ==> m.node < |t.nodes|
      invariant r + IncludeSiblings(t, matcher, selection, matches[i..]) == IncludeSiblings(t, matcher, selection, matches)
    {
      assert matches[i..][0] == matches[i] && matches[i..][1..] == matches[i + 1..];
      var s := SelectionWithEditorFromRange(selection, matches[i].selection.AsRange());
      var found := IterateNearestIterableAncestor(t, matches[i].node, s, matcher);
      r := r + found;
      i := i + 1;
    }
    assert matches[i..] == [];
  }

  /** Running the chosen matcher: the failing matcher fails, the others give their matches. */
  method RunMatcher(choice: MatcherChoice, t: Tree, selection: SelectionWithEditor, node: NodeId)
    returns (r: Result<Option<seq<NodeMatcherValue>>>)
    requires IsNode(t, node)
    requires forall s, n: NodeId :: n < |t.nodes| && choice.WithSiblings? && choice.matcher(s, n).Some? ==>
               forall m :: m in choice.matcher(s, n).value ==> m.node < |t.nodes|
    ensures choice.NotSupportedMatcher? <==> r.Err?
    ensures r.Err? ==> r.error == NotSupported(SimpleTypeName(choice.scopeType))
    ensures choice.Plain? ==> r == Ok(choice.matcher(selection, node))
    ensures choice.WithSiblings? ==> r.Ok? && (r.value.None? <==>
              choice.matcher(selection, node).None? ||
              IncludeSiblings(t, choice.matcher, selection, choice.matcher(selection, node).value) == [])
  {
    match choice
    case NotSupportedMatcher(scopeType) =>
      r := Err(NotSupported(SimpleTypeName(scopeType)));
    case Plain(m) =>
      r := Ok(m(selection, node));
    case WithSiblings(m) =>
      var found := MatcherIncludeSiblings(t, m, selection, node);
      r := Ok(found);
  }
}
