/**
 Any run of creating children and truncating, at any nodes of a search tree: its ids stay good as long as every
 truncation removes the largest ids, as one at the root always does.
 */
module TreeRuns {
  import opened Prelude
  import opened TreeDump
  import opened SearchTree
  import opened NodeIds
  import opened InnerTruncation

  /** A node is named by its place in preorder. */
  datatype Op = Create(at: nat, payload: string) | Truncate(at: nat, maxId: int)

  /** The truncation, if it is one, removes the largest ids. */
  ghost predicate Fits(op: Op, t: Shape) {
    op.Truncate? && op.at < |Nodes(t)| ==>
      Nodes(t)[op.at] in Footprint(t) && RemovesLargest(t, Nodes(t)[op.at], op.maxId)
  }

  lemma AtRootFits(op: Op, t: Shape)
    requires GoodIds(t) && op.at == 0
    ensures Fits(op, t)
  {
    if op.Truncate? {
      TruncationKeepsIds(t, op.maxId);
      InnerTruncationIff(t, t.node, op.maxId);
    }
  }

  /** What one operation makes of the tree: it has grown by the new child, or lost what was truncated. */
  ghost predicate Stepped(op: Op, t: Shape, child: Node?, u: Shape) {
    && (child != null <==> op.Create? && op.at < |Nodes(t)|)
    && if child != null then
         && child.nodeId == |Nodes(t)| + 1 && child.payload == op.payload
         && u == Grow(t, Nodes(t)[op.at], child)
       else u == if op.Truncate? && op.at < |Nodes(t)| then TruncatedAt(t, Nodes(t)[op.at], op.maxId) else t
  }

  /** One operation, and when the ids are still good. */
  method Execute(root: Node, op: Op, ghost t: Shape, ghost all: set<Node>)
    returns (child: Node?, ghost u: Shape, ghost now: set<Node>)
    requires Footprint(t) <= all && Rooted(t, all) && t.node == root
    modifies all
    ensures Footprint(u) <= now && fresh(now - all) && Rooted(u, now) && u.node == root
    ensures Stepped(op, t, child, u) && (child != null ==> fresh(child))
    ensures GoodIds(t) ==> (GoodIds(u) <==> Fits(op, t))
  {
    child, u, now := null, t, all;
    var nodes := root.AllNodesBelow(t, all);
    if op.at >= |nodes| {
      return;
    }
    NodesInFootprint(t);
    var node := nodes[op.at];
    assert node in Nodes(t);
    match op
    case Create(_, payload) =>
      child := node.CreateChild(payload, t, all);
      if GoodIds(t) {
        GrowKeepsIds(t, node, child);
      }
      u, now := Grow(t, node, child), all + {child};
    case Truncate(_, maxId) =>
      SubInside(t, node);
      TruncateBelow(node, maxId, t, all);
      if GoodIds(t) {
        InnerTruncationIff(t, node, maxId);
      }
      u := TruncatedAt(t, node, maxId);
  }

  /** The trees between the operations, the one before the first and the one behind the last included. */
  ghost predicate Trace(ops: seq<Op>, trees: seq<Shape>, children: seq<Node?>) {
    && |children| == |ops| && |trees| == |ops| + 1
    && forall k :: 0 <= k < |ops| ==> Stepped(ops[k], trees[k], children[k], trees[k + 1])
  }

  /** The first `n` operations keep the ids good. */
  ghost predicate FitUpTo(ops: seq<Op>, trees: seq<Shape>, n: nat)
    requires n <= |ops| && n <= |trees|
  {
    forall k :: 0 <= k < n ==> Fits(ops[k], trees[k])
  }

  /** The ids are good after each of the first `n` operations exactly as long as all fit. */
  ghost predicate GoodWhileFit(ops: seq<Op>, trees: seq<Shape>, n: nat)
    requires n <= |ops| && n < |trees|
  {
    && (FitUpTo(ops, trees, n) ==> GoodIds(trees[n]))
    && forall k :: 0 <= k < n && FitUpTo(ops, trees, k) ==> (GoodIds(trees[k + 1]) <==> Fits(ops[k], trees[k]))
  }

  lemma GoodSnoc(ops: seq<Op>, trees: seq<Shape>, n: nat, u: Shape)
    requires n < |ops| && |trees| == n + 1 && GoodWhileFit(ops, trees, n)
    requires GoodIds(trees[n]) ==> (GoodIds(u) <==> Fits(ops[n], trees[n]))
    ensures GoodWhileFit(ops, trees + [u], n + 1)
  {
    var more := trees + [u];
    forall k | 0 <= k <= n ensures FitUpTo(ops, more, k) <==> FitUpTo(ops, trees, k) {
      assert forall i :: 0 <= i < k ==> more[i] == trees[i];
    }
    assert FitUpTo(ops, more, n + 1) <==> FitUpTo(ops, more, n) && Fits(ops[n], trees[n]);
  }

  lemma TraceSnoc(ops: seq<Op>, n: nat, trees: seq<Shape>, children: seq<Node?>, child: Node?, u: Shape)
    requires n < |ops| && Trace(ops[..n], trees, children) && Stepped(ops[n], trees[n], child, u)
    ensures Trace(ops[..n + 1], trees + [u], children + [child])
  {
  }

  lemma RootFitsSnoc(ops: seq<Op>, trees: seq<Shape>, n: nat, u: Shape)
    requires n < |ops| && |trees| == n + 1 && GoodWhileFit(ops, trees, n) && FitUpTo(ops, trees, n)
    requires ops[n].Truncate? ==> ops[n].at == 0
    ensures FitUpTo(ops, trees + [u], n + 1)
  {
    if ops[n].Truncate? {
      AtRootFits(ops[n], trees[n]);
    }
  }

  ghost predicate AllAtRoot(ops: seq<Op>) {
    forall op <- ops :: op.Truncate? ==> op.at == 0
  }

  /**
   Over every run the ids stay distinct, dense and growing for as long as truncations remove the largest ids, and
   no longer; truncations at the root always do.
   */
  method Run(root: Node, ops: seq<Op>, ghost t: Shape, ghost all: set<Node>)
    returns (ghost trees: seq<Shape>, ghost children: seq<Node?>, ghost now: set<Node>)
    requires Footprint(t) <= all && Rooted(t, all) && GoodIds(t) && t.node == root
    modifies all
    ensures Trace(ops, trees, children) && trees[0] == t
    ensures Footprint(trees[|ops|]) <= now && fresh(now - all) && Rooted(trees[|ops|], now)
    ensures GoodWhileFit(ops, trees, |ops|) && (AllAtRoot(ops) ==> FitUpTo(ops, trees, |ops|))
  {
    trees, children, now := [t], [], all;
    for k := 0 to |ops|
      invariant Trace(ops[..k], trees, children) && trees[0] == t
      invariant Footprint(trees[k]) <= now && fresh(now - all) && Rooted(trees[k], now) && trees[k].node == root
      invariant GoodWhileFit(ops, trees, k) && (AllAtRoot(ops) ==> FitUpTo(ops, trees, k))
    {
      var child;
      ghost var u;
      child, u, now := Execute(root, ops[k], trees[k], now);
      TraceSnoc(ops, k, trees, children, child, u);
      GoodSnoc(ops, trees, k, u);
      if AllAtRoot(ops) {
        RootFitsSnoc(ops, trees, k, u);
      }
      trees, children := trees + [u], children + [child];
    }
    assert ops[..|ops|] == ops;
  }

  /** A new search starts with good ids. */
  method NewRoot(payload: string) returns (root: Node, ghost t: Shape)
    ensures fresh(root) && t == Shape(root, []) && Rooted(t, {root}) && GoodIds(t)
  {
    root := new Node(0, payload, null);
    t := Shape(root, []);
    assert Ids(Erase(t)) == [0];
  }
}
