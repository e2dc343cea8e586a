/** Search nodes as the external search strategies return them, and the walk
    from a terminal node back to the root along `parent` links. */
module SearchPath {
  import opened Wrappers
  import opened ToggleState
  import opened Puzzle

  /** A node of a search path: its state, the action that produced it (none
      at the root) and its parent (none at the root). */
  datatype Node = Node(state: State, action: Option<int>, parent: Option<Node>)

  /** Number of ancestors of `node`. */
  function Depth(node: Node): nat {
    match node.parent
    case None => 0
    case Some(p) => Depth(p) + 1
  }

  /** The first node of the chain, the one without a parent. */
  function Root(node: Node): (root: Node)
    ensures root.parent.None?
  {
    match node.parent
    case None => node
    case Some(p) => Root(p)
  }

  /** The nodes the walk yields, in order: `node`, then its parent, and so
      on up to the root. */
  function Ancestry(node: Node): (chain: seq<Node>)
    ensures |chain| == Depth(node) + 1
    ensures chain[0] == node
  {
    match node.parent
    case None => [node]
    case Some(p) => [node] + Ancestry(p)
  }

  /** Each yielded node is followed by its parent, and the walk ends at the
      root, which is the only yielded node without a parent. */
  lemma {:induction false} AncestryLinks(node: Node)
    ensures var chain := Ancestry(node);
      && (forall i :: 0 <= i < |chain| - 1 ==> chain[i].parent == Some(chain[i + 1]))
      && chain[|chain| - 1] == Root(node)
  {
    match node.parent
    case None =>
    case Some(p) =>
      AncestryLinks(p);
  }

  /** The walk: yield the current node and move to its parent until there is
      none. A search that found nothing hands over no node, and the walk then
      yields nothing. */
  method NodeList(resultNode: Option<Node>) returns (nodes: seq<Node>)
    ensures resultNode.None? ==> nodes == []
    ensures resultNode.Some? ==> nodes == Ancestry(resultNode.value)
  {
    nodes := [];
    var current := resultNode;
    while current.Some?
      invariant resultNode.None? ==> current.None? && nodes == []
      invariant resultNode.Some? && current.Some? ==> nodes + Ancestry(current.value) == Ancestry(resultNode.value)
      invariant resultNode.Some? && current.None? ==> nodes == Ancestry(resultNode.value)
      decreases if current.Some? then Depth(current.value) + 1 else 0
    {
      var node := current.value;
      assert Ancestry(node) == [node] + if node.parent.Some? then Ancestry(node.parent.value) else [];
      nodes := nodes + [node];
      current := node.parent;
    }
  }

  /** The walk reversed: the path from the root to `node`. */
  function Trace(node: Node): (path: seq<Node>)
    ensures |path| == |Ancestry(node)|
    ensures forall i :: 0 <= i < |path| ==> path[i] == Ancestry(node)[|path| - 1 - i]
  {
    var chain := Ancestry(node);
    seq(|chain|, i requires 0 <= i < |chain| => chain[|chain| - 1 - i])
  }

  /** The reversed walk starts at the root, ends at `node`, has one element
      more than `node` has ancestors, and each element's parent is the
      element before it. */
  lemma TraceShape(node: Node)
    ensures var path := Trace(node);
      && |path| == Depth(node) + 1
      && path[0] == Root(node) && path[0].parent.None?
      && path[|path| - 1] == node
      && (forall i :: 0 < i < |path| ==> path[i].parent == Some(path[i - 1]))
  {
    var chain := Ancestry(node);
    var path := Trace(node);
    AncestryLinks(node);
    forall i | 0 < i < |path|
      ensures path[i].parent == Some(path[i - 1])
    {
      assert path[i] == chain[|chain| - 1 - i];
      assert path[i - 1] == chain[|chain| - 1 - i + 1];
    }
  }

  /** The chain a search strategy builds for problem `p`: the root carries no
      action, and every other node carries a legal action and the state that
      pressing it in the parent's state gives. */
  ghost predicate BuiltBy(p: ToggleProblem, node: Node)
    requires p.Valid()
  {
    match node.parent
    case None => node.action.None?
    case Some(parent) =>
      && node.action.Some?
      && p.IsAction(node.action.value)
      && node.state == p.Result(parent.state, node.action.value)
      && BuiltBy(p, parent)
  }

  /** The actions along the path from the root to `node`, in the order they
      were taken. */
  function PathActions(node: Node): seq<int> {
    match node.parent
    case None => []
    case Some(parent) =>
      PathActions(parent) + match node.action case Some(a) => [a] case None => []
  }

  /** A chain built for `p` holds legal actions only. */
  lemma {:induction false} PathActionsLegal(p: ToggleProblem, node: Node)
    requires p.Valid() && BuiltBy(p, node)
    ensures forall k :: 0 <= k < |PathActions(node)| ==> p.IsAction(PathActions(node)[k])
  {
    match node.parent
    case None =>
    case Some(parent) =>
      PathActionsLegal(p, parent);
      assert PathActions(node) == PathActions(parent) + [node.action.value];
  }

  /** The last state of a chain built for `p` is what replaying its actions
      from the root's state gives. */
  lemma {:induction false} BuiltChainReplays(p: ToggleProblem, node: Node)
    requires p.Valid() && BuiltBy(p, node)
    ensures forall k :: 0 <= k < |PathActions(node)| ==> p.IsAction(PathActions(node)[k])
    ensures node.state == p.Replay(Root(node).state, PathActions(node))
  {
    PathActionsLegal(p, node);
    match node.parent
    case None =>
    case Some(parent) =>
      BuiltChainReplays(p, parent);
      ReplayLast(p, Root(parent).state, PathActions(parent), node.action.value);
      assert PathActions(node) == PathActions(parent) + [node.action.value];
  }

  /** A search path holds one action per ancestor, so the root-first trace
      is one longer than the list of actions applied. */
  lemma {:induction false} PathActionsCount(node: Node)
    requires ActionsMarkSteps(node)
    ensures |PathActions(node)| == Depth(node)
    ensures |Trace(node)| == |PathActions(node)| + 1
  {
    match node.parent
    case None =>
    case Some(parent) =>
      PathActionsCount(parent);
  }

  /** The shape of every search path: the root carries no action and every
      other node carries the action that produced it. */
  predicate ActionsMarkSteps(node: Node) {
    match node.parent
    case None => node.action.None?
    case Some(parent) => node.action.Some? && ActionsMarkSteps(parent)
  }

  /** A chain built for `p` has that shape. */
  lemma {:induction false} BuiltByMarksSteps(p: ToggleProblem, node: Node)
    requires p.Valid() && BuiltBy(p, node)
    ensures ActionsMarkSteps(node)
  {
    match node.parent
    case None =>
    case Some(parent) =>
      BuiltByMarksSteps(p, parent);
  }

  /** On such a path the root is the only node without an action: the walk
      meets it last. */
  lemma {:induction false} AncestryActions(node: Node)
    requires ActionsMarkSteps(node)
    ensures var chain := Ancestry(node);
      forall i :: 0 <= i < |chain| ==> (chain[i].action.None? <==> i == |chain| - 1)
  {
    match node.parent
    case None =>
    case Some(parent) =>
      AncestryActions(parent);
      assert Ancestry(node) == [node] + Ancestry(parent);
  }

  /** Reversed, the root comes first: it is the only step without an action. */
  lemma TraceActions(node: Node)
    requires ActionsMarkSteps(node)
    ensures var path := Trace(node);
      forall i :: 0 <= i < |path| ==> (path[i].action.None? <==> i == 0)
  {
    var path := Trace(node);
    AncestryActions(node);
    forall i | 0 <= i < |path|
      ensures path[i].action.None? <==> i == 0
    {
      assert path[i] == Ancestry(node)[|path| - 1 - i];
    }
  }
}
