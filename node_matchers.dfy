/**
 * Syntax-node matchers over a syntax tree held as an arena: every node has a
 * type, the index of its parent (which comes before it in the arena), the
 * indices of its named children and its named fields. A finder goes from a
 * node to another node or to nothing; a matcher turns a node into a match or
 * nothing. The pattern language `type[field]?.type...` names a chain of node
 * types from an ancestor down to a descendant; a segment ending in "?" may be
 * absent, "*" matches any type, and a "[field]" on the first segment selects
 * that field's child of the matched node.
 */
module NodeMatchers {
  import opened Wrappers
  import opened Strings

  type NodeId = nat

  datatype Node = Node(nodeType: string, parent: Option<NodeId>, namedChildren: seq<NodeId>, fields: map<string, NodeId>)

  datatype Tree = Tree(nodes: seq<Node>)

  /** Every index points into the arena, and a parent comes before its children. */
  predicate ValidTree(t: Tree) {
    forall i :: 0 <= i < |t.nodes| ==>
      (t.nodes[i].parent.Some? ==> t.nodes[i].parent.value < i) &&
      (forall c :: c in t.nodes[i].namedChildren ==> c < |t.nodes|) &&
      (forall f :: f in t.nodes[i].fields ==> t.nodes[i].fields[f] < |t.nodes|)
  }

  predicate IsNode(t: Tree, n: NodeId) {
    ValidTree(t) && n < |t.nodes|
  }

  type NodeFinder = NodeId -> Option<NodeId>

  // ---------------------------------------------------------------------------
  // Matcher combinators

  /** `matcher`: the selector applied to the node the finder finds, or nothing. */
  function Matcher<V>(finder: NodeFinder, selector: NodeId -> V, node: NodeId): (r: Option<V>)
    ensures r.None? <==> finder(node).None?
    ensures r.Some? ==> r.value == selector(finder(node).value)
  {
    match finder(node)
    case None => None
    case Some(n) => Some(selector(n))
  }

  /** The finders applied one after another, each to the node the previous one found. */
  function ComposeFinders(finders: seq<NodeFinder>, node: NodeId): Option<NodeId> {
    if finders == [] then Some(node)
    else match finders[0](node)
      case None => None
      case Some(n) => ComposeFinders(finders[1..], n)
  }

  /** Composing two lists of finders is composing their compositions. */
  lemma {:induction false} ComposeFindersAppend(a: seq<NodeFinder>, b: seq<NodeFinder>, node: NodeId)
    ensures ComposeFinders(a + b, node) ==
            match ComposeFinders(a, node) case None => None case Some(n) => ComposeFinders(b, n)
  {
    if a == [] {
      assert a + b == b;
    } else {
      assert (a + b)[0] == a[0];
      assert (a + b)[1..] == a[1..] + b;
      match a[0](node)
      case None =>
      case Some(n) => ComposeFindersAppend(a[1..], b, n);
    }
  }

  /** The composition fails exactly when some finder fails on what the finders before it found. */
  lemma {:induction false} ComposeFindersFails(finders: seq<NodeFinder>, node: NodeId)
    ensures ComposeFinders(finders, node).None? <==>
            exists i :: 0 <= i < |finders| && ComposeFinders(finders[..i], node).Some? &&
                        finders[i](ComposeFinders(finders[..i], node).value).None?
  {
    if finders != [] {
      assert finders[..0] == [];
      match finders[0](node)
      case None =>
        assert ComposeFinders(finders[..0], node) == Some(node);
      case Some(n) =>
        ComposeFindersFails(finders[1..], n);
        forall i | 1 <= i <= |finders|
          ensures ComposeFinders(finders[..i], node) == ComposeFinders(finders[1..][..i - 1], n)
        {
          assert finders[..i] == [finders[0]] + finders[1..][..i - 1];
          ComposeFindersAppend([finders[0]], finders[1..][..i - 1], node);
          assert [finders[0]][1..] == [];
        }
        if ComposeFinders(finders, node).None? {
          var j :| 0 <= j < |finders[1..]| && ComposeFinders(finders[1..][..j], n).Some? &&
                   finders[1..][j](ComposeFinders(finders[1..][..j], n).value).None?;
          assert finders[j + 1] == finders[1..][j];
        } else {
          forall i | 0 <= i < |finders| && ComposeFinders(finders[..i], node).Some?
            ensures finders[i](ComposeFinders(finders[..i], node).value).Some?
          {
            if i > 0 {
              assert finders[i] == finders[1..][i - 1];
            }
          }
        }
    }
  }

  /**
   * `composedMatcher`: each finder is applied to the node the previous one
   * found, starting from the given node; the first failure gives nothing, and
   * otherwise the selector is applied to the last node found.
   */
  method ComposedMatcher<V>(finders: seq<NodeFinder>, selector: NodeId -> V, initialNode: NodeId) returns (r: Option<V>)
    ensures r == match ComposeFinders(finders, initialNode) case None => None case Some(n) => Some(selector(n))
  {
    var returnNode := initialNode;
    var i := 0;
    while i < |finders|
      invariant 0 <= i <= |finders|
      invariant ComposeFinders(finders, initialNode) == ComposeFinders(finders[i..], returnNode)
    {
      var foundNode := finders[i](returnNode);
      assert finders[i..][0] == finders[i] && finders[i..][1..] == finders[i + 1..];
      if foundNode.None? {
        return None;
      }
      returnNode := foundNode.value;
      i := i + 1;
    }
    return Some(selector(returnNode));
  }

  /** The first match of the matchers tried in order. */
  function FirstMatch<V>(matchers: seq<NodeId -> Option<V>>, node: NodeId): (r: Option<V>)
    ensures r.None? <==> forall i :: 0 <= i < |matchers| ==> matchers[i](node).None?
    ensures r.Some? ==> exists i :: 0 <= i < |matchers| && matchers[i](node) == r &&
                                    forall j :: 0 <= j < i ==> matchers[j](node).None?
  {
    if matchers == [] then None
    else if matchers[0](node).Some? then matchers[0](node)
    else
      assert forall i :: 1 <= i < |matchers| ==> matchers[i] == matchers[1..][i - 1];
      FirstMatch(matchers[1..], node)
  }

  /** `cascadingMatcher`: the matchers are tried in order until one matches. */
  method CascadingMatcher<V>(matchers: seq<NodeId -> Option<V>>, node: NodeId) returns (r: Option<V>)
    ensures r == FirstMatch(matchers, node)
  {
    for i := 0 to |matchers|
      invariant forall j :: 0 <= j < i ==> matchers[j](node).None?
    {
      var m := matchers[i](node);
      if m.Some? {
        return m;
      }
    }
    return None;
  }

  /** `notSupported`: a matcher that always fails. */
  function NotSupportedMatcher<V>(node: NodeId): (r: Result<Option<V>>)
    ensures r == Err(NotSupported("Node type not supported"))
  {
    Err(NotSupported("Node type not supported"))
  }

  // ---------------------------------------------------------------------------
  // Pattern segments

  /** The node type of a segment: the text before "[", or before a final "?". */
  function GetType(pattern: string): string {
    var index: int := match IndexOf(pattern, '[')
      case Some(i) => i
      case None => if EndsWith(pattern, "?") then |pattern| - 1 else -1;
    if index > -1 then Slice(pattern, 0, index) else pattern
  }

  /** The field of a segment: the text between "[" and "]", or none without "[". */
  function GetField(pattern: string): Option<string> {
    match IndexOf(pattern, '[')
    case None => None
    case Some(i) =>
      var close: int := match IndexOf(pattern, ']') case Some(j) => j case None => -1;
      Some(Slice(pattern, i + 1, close))
  }

  predicate IsOptional(pattern: string) {
    EndsWith(pattern, "?")
  }

  /** In a segment `type[field]...`, the first "[" ends the type and the first "]" ends the field. */
  lemma BracketPositions(t: string, f: string, rest: string)
    requires '[' !in t && ']' !in t && ']' !in f
    ensures IndexOf(t + "[" + f + "]" + rest, '[') == Some(|t|)
    ensures IndexOf(t + "[" + f + "]" + rest, ']') == Some(|t| + 1 + |f|)
  {
    var p := t + "[" + f + "]" + rest;
    assert forall k :: 0 <= k < |t| ==> p[k] == t[k];
    assert forall k :: |t| < k < |t| + 1 + |f| ==> p[k] == f[k - |t| - 1];
    IndexOfAt(p, '[', |t|);
    IndexOfAt(p, ']', |t| + 1 + |f|);
  }

  /** With a "[" at `i`, the type is the text before it. */
  lemma TypeBeforeBracket(p: string, i: nat)
    requires IndexOf(p, '[') == Some(i)
    ensures GetType(p) == p[..i]
  {
    SliceInBounds(p, 0, i);
  }

  /** With the first "[" at `i` and the first "]" after it at `j`, the field is the text between. */
  lemma FieldBetweenBrackets(p: string, i: nat, j: nat)
    requires IndexOf(p, '[') == Some(i) && IndexOf(p, ']') == Some(j) && i < j
    ensures GetField(p) == Some(p[i + 1..j])
  {
    SliceInBounds(p, i + 1, j);
  }

  /** A segment `type[field]...` has that type and that field. */
  lemma FieldSegment(t: string, f: string, rest: string)
    requires '[' !in t && ']' !in t && ']' !in f
    ensures GetType(t + "[" + f + "]" + rest) == t
    ensures GetField(t + "[" + f + "]" + rest) == Some(f)
  {
    var p := t + "[" + f + "]" + rest;
    BracketPositions(t, f, rest);
    TypeBeforeBracket(p, |t|);
    assert p[..|t|] == t;
    FieldBetweenBrackets(p, |t|, |t| + 1 + |f|);
    assert p[|t| + 1..|t| + 1 + |f|] == f;
  }

  /** A segment `type?` has that type, is optional and has no field. */
  lemma OptionalSegment(t: string)
    requires '[' !in t
    ensures GetType(t + "?") == t && IsOptional(t + "?") && GetField(t + "?").None?
  {
    var p := t + "?";
    assert p[..|t|] == t;
    assert '[' !in p by {
      forall k | 0 <= k < |p| ensures p[k] != '[' {
        if k < |t| { assert p[k] == t[k]; }
      }
    }
  }

  /** A bare type is its own type, not optional, and has no field. */
  lemma PlainSegment(t: string)
    requires '[' !in t && !EndsWith(t, "?")
    ensures GetType(t) == t && !IsOptional(t) && GetField(t).None?
  {
  }

  predicate TypeEquals(t: Tree, n: NodeId, nodeType: string)
    requires IsNode(t, n)
  {
    nodeType == t.nodes[n].nodeType || nodeType == "*"
  }

  // ---------------------------------------------------------------------------
  // Ascending and descending search

  function Parent(t: Tree, n: NodeId): (p: Option<NodeId>)
    requires IsNode(t, n)
    ensures p.Some? ==> p.value < n
  {
    t.nodes[n].parent
  }

  /**
   * The ascending search from `node` over the segments before index `i`, from
   * right to left: each segment must be the type of the next parent, unless it
   * is optional, in which case it is skipped.
   */
  function Ascend(t: Tree, node: NodeId, rawTypes: seq<string>, i: nat): (r: Option<NodeId>)
    requires IsNode(t, node) && i <= |rawTypes|
    ensures r.Some? ==> r.value <= node
  {
    if i == 0 then Some(node)
    else
      var parent := Parent(t, node);
      if parent.None? || !TypeEquals(t, parent.value, GetType(rawTypes[i - 1])) then
        if IsOptional(rawTypes[i - 1]) then Ascend(t, node, rawTypes, i - 1) else None
      else Ascend(t, parent.value, rawTypes, i - 1)
  }

  /** `a` is `n` or one of its ancestors. */
  predicate AncestorOrSelf(t: Tree, a: NodeId, n: NodeId)
    requires IsNode(t, n)
    decreases n
  {
    a == n || (Parent(t, n).Some? && AncestorOrSelf(t, a, Parent(t, n).value))
  }

  /** The ascending search ends on the node or one of its ancestors. */
  lemma {:induction false} AscendFindsAncestor(t: Tree, node: NodeId, rawTypes: seq<string>, i: nat)
    requires IsNode(t, node) && i <= |rawTypes|
    requires Ascend(t, node, rawTypes, i).Some?
    ensures AncestorOrSelf(t, Ascend(t, node, rawTypes, i).value, node)
  {
    if i > 0 {
      var parent := Parent(t, node);
      if parent.None? || !TypeEquals(t, parent.value, GetType(rawTypes[i - 1])) {
        AscendFindsAncestor(t, node, rawTypes, i - 1);
      } else {
        AscendFindsAncestor(t, parent.value, rawTypes, i - 1);
      }
    }
  }

  /** When no segment is optional, each step of the ascending search climbs to a parent of the right type. */
  lemma {:induction false} AscendWithoutOptionalsClimbs(t: Tree, node: NodeId, rawTypes: seq<string>, i: nat)
    requires IsNode(t, node) && i <= |rawTypes|
    requires forall k :: 0 <= k < i ==> !IsOptional(rawTypes[k])
    requires i > 0 && Ascend(t, node, rawTypes, i).Some?
    ensures Parent(t, node).Some? && TypeEquals(t, Parent(t, node).value, GetType(rawTypes[i - 1]))
    ensures Ascend(t, node, rawTypes, i) == Ascend(t, Parent(t, node).value, rawTypes, i - 1)
  {
  }

  /** The named children of `n` whose type is `nodeType` (or all, for "*"). */
  function ChildrenOfType(t: Tree, children: seq<NodeId>, nodeType: string): (r: seq<NodeId>)
    requires ValidTree(t) && forall c :: c in children ==> c < |t.nodes|
    ensures forall c :: c in r ==> c in children && TypeEquals(t, c, nodeType)
  {
    if children == [] then []
    else
      assert children[0] in children;
      assert forall c :: c in children[1..] ==> c in children;
      (if TypeEquals(t, children[0], nodeType) then [children[0]] else []) +
         ChildrenOfType(t, children[1..], nodeType)
  }

  /** No named child of the type is left out. */
  lemma {:induction false} ChildrenOfTypeComplete(t: Tree, children: seq<NodeId>, nodeType: string, c: NodeId)
    requires ValidTree(t) && forall c :: c in children ==> c < |t.nodes|
    requires c in children && TypeEquals(t, c, nodeType)
    ensures c in ChildrenOfType(t, children, nodeType)
  {
    assert forall c :: c in children[1..] ==> c in children;
    if c != children[0] {
      ChildrenOfTypeComplete(t, children[1..], nodeType, c);
    }
  }

  /**
   * The descending search from `node` over the segments from index `i` on:
   * each segment must be the type of exactly one named child, unless it is
   * optional, in which case it is skipped.
   */
  predicate Descend(t: Tree, node: NodeId, rawTypes: seq<string>, i: nat)
    requires IsNode(t, node) && i <= |rawTypes|
    decreases |rawTypes| - i
  {
    if i == |rawTypes| then true
    else
      var children := ChildrenOfType(t, t.nodes[node].namedChildren, GetType(rawTypes[i]));
      if |children| != 1 then IsOptional(rawTypes[i]) && Descend(t, node, rawTypes, i + 1)
      else
        assert children[0] in children;
        Descend(t, children[0], rawTypes, i + 1)
  }

  /** `searchNodeAscending`: the loop over the segments before the last, from right to left. */
  method SearchNodeAscending(t: Tree, node: NodeId, rawTypes: seq<string>) returns (r: Option<NodeId>)
    requires IsNode(t, node) && |rawTypes| >= 1
    ensures r == Ascend(t, node, rawTypes, |rawTypes| - 1)
  {
    var resNode: NodeId := node;
    var i := |rawTypes| - 2;
    while i > -1
      invariant -1 <= i <= |rawTypes| - 2 && resNode < |t.nodes|
      invariant Ascend(t, node, rawTypes, |rawTypes| - 1) == Ascend(t, resNode, rawTypes, i + 1)
    {
      var nodeType := GetType(rawTypes[i]);
      var parent := t.nodes[resNode].parent;
      if parent.None? || !TypeEquals(t, parent.value, nodeType) {
        if IsOptional(rawTypes[i]) {
          i := i - 1;
          continue;
        }
        return None;
      }
      resNode := parent.value;
      i := i - 1;
    }
    return Some(resNode);
  }

  /** `searchNodeDescending`: the loop over the segments after the first; on success the starting node is returned. */
  method SearchNodeDescending(t: Tree, node: NodeId, rawTypes: seq<string>) returns (r: Option<NodeId>)
    requires IsNode(t, node) && |rawTypes| >= 1
    ensures r == if Descend(t, node, rawTypes, 1) then Some(node) else None
  {
    var tmpNode: NodeId := node;
    var i := 1;
    while i < |rawTypes|
      invariant 1 <= i <= |rawTypes| && tmpNode < |t.nodes|
      invariant Descend(t, node, rawTypes, 1) == Descend(t, tmpNode, rawTypes, i)
      decreases |rawTypes| - i
    {
      var nodeType := GetType(rawTypes[i]);
      var children := ChildrenOfType(t, t.nodes[tmpNode].namedChildren, nodeType);
      if |children| != 1 {
        if IsOptional(rawTypes[i]) {
          i := i + 1;
          continue;
        }
        return None;
      }
      assert children[0] in children;
      tmpNode := children[0];
      i := i + 1;
    }
    return Some(node);
  }

  // ---------------------------------------------------------------------------
  // Patterns

  /** The node of the first segment's field, when that segment names one. */
  function ApplyField(t: Tree, rawTypes: seq<string>, resultNode: Option<NodeId>): (r: Option<NodeId>)
    requires ValidTree(t) && |rawTypes| >= 1 && (resultNode.Some? ==> resultNode.value < |t.nodes|)
    ensures r.Some? ==> r.value < |t.nodes|
  {
    match resultNode
    case None => None
    case Some(n) =>
      match GetField(rawTypes[0])
      case None => Some(n)
      case Some(field) => if field in t.nodes[n].fields then Some(t.nodes[n].fields[field]) else None
  }

  /**
   * `tryPatternMatch`: a one-segment pattern matches the node by type; a node
   * of the last segment's type starts an ascending search, one of the first
   * segment's type a descending search; the first segment's field, if any, is
   * then taken.
   */
  function PatternMatch(t: Tree, node: NodeId, pattern: string): (r: Option<NodeId>)
    requires IsNode(t, node)
    ensures r.Some? ==> r.value < |t.nodes|
  {
    var rawTypes := Split(pattern, '.');
    ApplyField(t, rawTypes, SearchNode(t, node, rawTypes))
  }

  /** The node the search for the segments `rawTypes` finds from `node`, before any field is taken. */
  function SearchNode(t: Tree, node: NodeId, rawTypes: seq<string>): (r: Option<NodeId>)
    requires IsNode(t, node) && |rawTypes| >= 1
    ensures r.Some? ==> r.value < |t.nodes|
  {
    var firstType := GetType(rawTypes[0]);
    var lastType := GetType(rawTypes[|rawTypes| - 1]);
    if |rawTypes| == 1 then (if TypeEquals(t, node, firstType) then Some(node) else None)
    else if TypeEquals(t, node, lastType) then Ascend(t, node, rawTypes, |rawTypes| - 1)
    else if TypeEquals(t, node, firstType) then (if Descend(t, node, rawTypes, 1) then Some(node) else None)
    else None
  }

  method TryPatternMatch(t: Tree, node: NodeId, pattern: string) returns (r: Option<NodeId>)
    requires IsNode(t, node)
    ensures r == PatternMatch(t, node, pattern)
  {
    var rawTypes := Split(pattern, '.');
    var firstType := GetType(rawTypes[0]);
    var lastType := GetType(rawTypes[|rawTypes| - 1]);
    var resultNode: Option<NodeId> := None;
    if |rawTypes| == 1 {
      resultNode := if TypeEquals(t, node, firstType) then Some(node) else None;
    } else if TypeEquals(t, node, lastType) {
      resultNode := SearchNodeAscending(t, node, rawTypes);
    } else if TypeEquals(t, node, firstType) {
      resultNode := SearchNodeDescending(t, node, rawTypes);
    }
    assert resultNode == SearchNode(t, node, rawTypes) by {
      assert firstType == GetType(rawTypes[0]) && lastType == GetType(rawTypes[|rawTypes| - 1]);
    }
    r := ApplyField(t, rawTypes, resultNode);
  }

  /** A pattern of one bare type matches exactly the nodes of that type (every node for "*"), and gives the node itself. */
  lemma SingleTypePattern(t: Tree, node: NodeId, nodeType: string)
    requires IsNode(t, node)
    requires '.' !in nodeType && '[' !in nodeType && !EndsWith(nodeType, "?")
    ensures PatternMatch(t, node, nodeType) == if TypeEquals(t, node, nodeType) then Some(node) else None
    ensures PatternMatch(t, node, "*") == Some(node)
  {
    SplitWithoutSeparator(nodeType, '.');
    PlainSegment(nodeType);
    SplitWithoutSeparator("*", '.');
  }

  /**
   * When the node has the last segment's type, the ascending search decides,
   * even if it also has the first segment's type; a result without a field is
   * the node or one of its ancestors.
   */
  lemma AscendingTakesPrecedence(t: Tree, node: NodeId, pattern: string)
    requires IsNode(t, node)
    requires var rawTypes := Split(pattern, '.');
             |rawTypes| > 1 && TypeEquals(t, node, GetType(rawTypes[|rawTypes| - 1]))
    ensures var rawTypes := Split(pattern, '.');
            PatternMatch(t, node, pattern) == ApplyField(t, rawTypes, Ascend(t, node, rawTypes, |rawTypes| - 1))
    ensures var rawTypes := Split(pattern, '.');
            GetField(rawTypes[0]).None? && PatternMatch(t, node, pattern).Some? ==>
              AncestorOrSelf(t, PatternMatch(t, node, pattern).value, node)
  {
    var rawTypes := Split(pattern, '.');
    if Ascend(t, node, rawTypes, |rawTypes| - 1).Some? {
      AscendFindsAncestor(t, node, rawTypes, |rawTypes| - 1);
    }
  }

  /** A descending search returns the node it started from (or that node's field child). */
  lemma DescendingKeepsTopNode(t: Tree, node: NodeId, pattern: string)
    requires IsNode(t, node)
    requires var rawTypes := Split(pattern, '.');
             |rawTypes| > 1 && !TypeEquals(t, node, GetType(rawTypes[|rawTypes| - 1])) &&
             TypeEquals(t, node, GetType(rawTypes[0])) && GetField(rawTypes[0]).None?
    ensures var rawTypes := Split(pattern, '.');
            PatternMatch(t, node, pattern) == if Descend(t, node, rawTypes, 1) then Some(node) else None
  {
  }

  /** The first pattern that matches, in list order. */
  function FirstPatternMatch(t: Tree, node: NodeId, patterns: seq<string>): (r: Option<NodeId>)
    requires IsNode(t, node)
    ensures r.None? <==> forall i :: 0 <= i < |patterns| ==> PatternMatch(t, node, patterns[i]).None?
  {
    if patterns == [] then None
    else if PatternMatch(t, node, patterns[0]).Some? then PatternMatch(t, node, patterns[0])
    else
      assert forall i :: 1 <= i < |patterns| ==> patterns[i] == patterns[1..][i - 1];
      FirstPatternMatch(t, node, patterns[1..])
  }

  /** A match found is that of some pattern all of whose predecessors fail. */
  lemma {:induction false} FirstPatternMatchIsFirst(t: Tree, node: NodeId, patterns: seq<string>)
    requires IsNode(t, node)
    ensures var r := FirstPatternMatch(t, node, patterns);
            r.Some? ==> exists i :: 0 <= i < |patterns| && PatternMatch(t, node, patterns[i]) == r &&
                                    forall j :: 0 <= j < i ==> PatternMatch(t, node, patterns[j]).None?
  {
    var r := FirstPatternMatch(t, node, patterns);
    if patterns != [] && PatternMatch(t, node, patterns[0]).None? && r.Some? {
      var rest := patterns[1..];
      FirstPatternMatchIsFirst(t, node, rest);
      var i :| 0 <= i < |rest| && PatternMatch(t, node, rest[i]) == r &&
               forall j :: 0 <= j < i ==> PatternMatch(t, node, rest[j]).None?;
      assert patterns[i + 1] == rest[i];
      assert forall j :: 1 <= j < i + 1 ==> patterns[j] == rest[j - 1];
    }
  }

  /** `patternMatcher`: the patterns are tried in order and the first match is selected. */
  method PatternMatcher<V>(t: Tree, node: NodeId, patterns: seq<string>, selector: NodeId -> V) returns (r: Option<V>)
    requires IsNode(t, node)
    ensures r == match FirstPatternMatch(t, node, patterns) case None => None case Some(n) => Some(selector(n))
  {
    for i := 0 to |patterns|
      invariant forall j :: 0 <= j < i ==> PatternMatch(t, node, patterns[j]).None?
      invariant FirstPatternMatch(t, node, patterns) == FirstPatternMatch(t, node, patterns[i..])
    {
      var m := TryPatternMatch(t, node, patterns[i]);
      assert patterns[i..][0] == patterns[i] && patterns[i..][1..] == patterns[i + 1..];
      if m.Some? {
        return Some(selector(m.value));
      }
    }
    return None;
  }
}
