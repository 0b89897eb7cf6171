/**
 The mutable search tree of `Node`: parents and children are references that the methods update. A ghost
 shape names the nodes of a tree; `Linked` says that the references have that shape.
 */
module SearchTree {
  import opened Prelude
  import opened TreeDump

  class Node {
    const nodeId: int
    const payload: string
    var parent: Node?
    var children: seq<Node>

    constructor (nodeId: int, payload: string, parent: Node?)
      ensures this.nodeId == nodeId && this.payload == payload && this.parent == parent && children == []
    {
      this.nodeId, this.payload, this.parent, children := nodeId, payload, parent, [];
    }

    method AddChild(child: Node)
      modifies this`children, child`parent
      ensures child.parent == this && children == old(children) + [child]
    {
      child.parent := this;
      children := children + [child];
    }

    /** `_get_all_nodes`: this node and all below it, in preorder. */
    method AllNodesBelow(ghost t: Shape, ghost all: set<Node>) returns (nodes: seq<Node>)
      requires t.node == this && Linked(t) && Footprint(t) <= all
      ensures nodes == Nodes(t)
      decreases t
    {
      nodes := [this];
      assert children == Heads(t.kids) && t.kids[..0] == [];
      for k := 0 to |children|
        invariant children == Heads(t.kids) && ForestLinked(this, t.kids)
        invariant nodes == [this] + ForestNodes(t.kids[..k])
      {
        HeadsAt(t.kids, k);
        ForestLinkedAt(this, t.kids, k);
        ForestFootprintAt(t.kids, k);
        var below := children[k].AllNodesBelow(t.kids[k], all);
        nodes := nodes + below;
        ForestNodesSnoc(t.kids, k);
      }
      assert t.kids[..|t.kids|] == t.kids;
    }

    method GetRoot(ghost t: Shape, ghost all: set<Node>) returns (root: Node)
      requires Footprint(t) <= all && Rooted(t, all) && this in Footprint(t)
      ensures root == t.node
    {
      ghost var path := PathTo(t, this);
      ghost var k := |path| - 1;
      root := this;
      while root.parent != null
        invariant 0 <= k < |path| && root == path[k]
        invariant k >= 1 ==> root.parent == path[k - 1]
        decreases k
      {
        root := root.parent;
        k := k - 1;
      }
    }

    /** The id of a new node is one more than the number of nodes of the whole tree. */
    method CreateChild(payload: string, ghost t: Shape, ghost all: set<Node>) returns (child: Node)
      requires Footprint(t) <= all && Rooted(t, all) && this in Footprint(t)
      modifies this`children
      ensures fresh(child) && child.payload == payload && child.nodeId == |Nodes(t)| + 1
      ensures Footprint(Grow(t, this, child)) <= all + {child}
      ensures Rooted(Grow(t, this, child), all + {child})
    {
      ghost var before := LinksOf(all);
      LinkedNow(t, all);
      var root := GetRoot(t, all);
      var nodes := root.AllNodesBelow(t, all);
      child := new Node(|nodes| + 1, payload, this);
      AddChild(child);
      ghost var now := LinksOf(all + {child});
      assert OnlyGrown(before, now, Footprint(t), this, child);
      GrowLinked(t, this, child, before, now);
      GrowFootprint(t, this, child);
      GrowProper(t, this, child);
      LinkedNow(Grow(t, this, child), all + {child});
    }

    /** `truncate_children_by_id`: children with larger ids go, with all below them. */
    method Truncate(maxId: int, ghost t: Shape, ghost all: set<Node>)
      requires t.node == this && Footprint(t) <= all && Linked(t) && Proper(t)
      modifies Footprint(t)
      ensures Linked(Truncated(t, maxId))
      ensures forall n <- Footprint(t) :: n.parent == old(n.parent)
      decreases t
    {
      ghost var ks := KeptShapes(t.kids, maxId);
      KeptFacts(this, t.kids, maxId);
      TruncateKept(t.kids, maxId);
      children := Kept(children, maxId);
      assert ForestLinked(this, ks);
      assert ks[0..] == ks && ks[..0] == [];
      for k := 0 to |children|
        invariant children == Heads(ks)
        invariant forall n <- Footprint(t) :: n.parent == old(n.parent)
        invariant ForestLinked(this, ks[k..]) && ForestLinked(this, TruncateAll(ks[..k], maxId))
      {
        HeadsAt(ks, k);
        CutAt(ks, k);
        KeptAmong(t.kids, maxId, k);
        TruncateAllInside(ks[..k], maxId);
        ghost var (done, left) := (TruncateAll(ks[..k], maxId), ks[k + 1..]);
        assert ks[k..][0] == ks[k] && ks[k..][1..] == left;
        assert ForestFootprint(done) <= all && ForestFootprint(left) <= all;
        children[k].Truncate(maxId, ks[k], all);
        TruncateAllSnoc(this, ks, k, maxId);
      }
      assert ks[..|ks|] == ks;
      HeadsOfTruncated(ks, maxId);
    }

    method DumpAsList(ghost t: Shape, ghost all: set<Node>) returns (records: seq<Record>)
      requires Footprint(t) <= all && Rooted(t, all) && this in Footprint(t)
      ensures records == Dump(Erase(t), None)
    {
      var root := GetRoot(t, all);
      var nodes := root.AllNodesBelow(t, all);
      assert Linked(t) && t.node.parent == null;
      records := [];
      for k := 0 to |nodes|
        invariant records == RecordsOf(nodes[..k])
      {
        var node := nodes[k];
        var parentId := if node.parent != null then Some(node.parent.nodeId) else None;
        assert nodes[..k + 1][..k] == nodes[..k];
        records := records + [Record(node.nodeId, node.payload, parentId)];
      }
      assert nodes[..|nodes|] == nodes;
      DumpIsRecords(t, None);
    }
  }

  /** What the references of a tree should be: which nodes, and which below which. */
  datatype Shape = Shape(node: Node, kids: seq<Shape>)

  /** A whole tree: linked as `t` says, without sharing, and with no parent above it. */
  ghost predicate Rooted(t: Shape, all: set<Node>)
    reads all
    requires Footprint(t) <= all
  {
    Linked(t) && Proper(t) && t.node.parent == null
  }

  function Nodes(t: Shape): seq<Node>
    decreases t
  {
    [t.node] + ForestNodes(t.kids)
  }

  function ForestNodes(ts: seq<Shape>): seq<Node>
    decreases ts
  {
    if ts == [] then [] else Nodes(ts[0]) + ForestNodes(ts[1..])
  }

  function Heads(ts: seq<Shape>): (r: seq<Node>)
    ensures |r| == |ts|
  {
    if ts == [] then [] else [ts[0].node] + Heads(ts[1..])
  }

  function Footprint(t: Shape): (r: set<Node>)
    ensures t.node in r
    decreases t
  {
    {t.node} + ForestFootprint(t.kids)
  }

  function ForestFootprint(ts: seq<Shape>): set<Node>
    decreases ts
  {
    if ts == [] then {} else Footprint(ts[0]) + ForestFootprint(ts[1..])
  }

  /** Children and parents are the ones of the shape. */
  ghost predicate Linked(t: Shape)
    reads Footprint(t)
    decreases t
  {
    t.node.children == Heads(t.kids) && ForestLinked(t.node, t.kids)
  }

  ghost predicate ForestLinked(parent: Node, ts: seq<Shape>)
    reads ForestFootprint(ts)
    decreases ts
  {
    ts == [] || (ts[0].node.parent == parent && Linked(ts[0]) && ForestLinked(parent, ts[1..]))
  }

  lemma {:induction false} HeadsAt(ts: seq<Shape>, k: nat)
    requires k < |ts|
    ensures Heads(ts)[k] == ts[k].node
  {
    if k > 0 {
      HeadsAt(ts[1..], k - 1);
    }
  }

  lemma {:induction false} ForestLinkedAt(parent: Node, ts: seq<Shape>, k: nat)
    requires ForestLinked(parent, ts) && k < |ts|
    ensures Linked(ts[k]) && ts[k].node.parent == parent
  {
    if k > 0 {
      ForestLinkedAt(parent, ts[1..], k - 1);
    }
  }

  lemma {:induction false} ForestFootprintAt(ts: seq<Shape>, k: nat)
    requires k < |ts|
    ensures Footprint(ts[k]) <= ForestFootprint(ts)
  {
    if k > 0 {
      ForestFootprintAt(ts[1..], k - 1);
    }
  }

  lemma {:induction false} ForestNodesConcat(a: seq<Shape>, b: seq<Shape>)
    ensures ForestNodes(a + b) == ForestNodes(a) + ForestNodes(b)
  {
    if a == [] {
      assert a + b == b;
    } else {
      ForestNodesConcat(a[1..], b);
      assert a + b == [a[0]] + (a[1..] + b);
      ForestNodesCons(a[0], a[1..] + b);
      Regroup(Nodes(a[0]), ForestNodes(a[1..]), ForestNodes(b));
    }
  }

  lemma ForestNodesCons(t: Shape, ts: seq<Shape>)
    ensures ForestNodes([t] + ts) == Nodes(t) + ForestNodes(ts)
  {
    assert ([t] + ts)[1..] == ts;
  }

  lemma ForestNodesSnoc(ts: seq<Shape>, k: nat)
    requires k < |ts|
    ensures ForestNodes(ts[..k + 1]) == ForestNodes(ts[..k]) + Nodes(ts[k])
  {
    assert ts[..k + 1] == ts[..k] + [ts[k]];
    ForestNodesConcat(ts[..k], [ts[k]]);
    assert [ts[k]][1..] == [];
    assert Nodes(ts[k]) + [] == Nodes(ts[k]);
  }

  lemma {:induction false} PathTo(t: Shape, n: Node) returns (path: seq<Node>)
    requires Linked(t) && n in Footprint(t)
    ensures path != [] && path[0] == t.node && path[|path| - 1] == n
    ensures forall k :: 1 <= k < |path| ==> path[k].parent == path[k - 1]
    decreases t
  {
    if n == t.node {
      path := [n];
    } else {
      var below := PathInForest(t.node, t.kids, n);
      path := [t.node] + below;
    }
  }

  lemma {:induction false} PathInForest(parent: Node, ts: seq<Shape>, n: Node) returns (path: seq<Node>)
    requires ForestLinked(parent, ts) && n in ForestFootprint(ts)
    ensures path != [] && path[0].parent == parent && path[|path| - 1] == n
    ensures forall k :: 1 <= k < |path| ==> path[k].parent == path[k - 1]
    decreases ts
  {
    if n in Footprint(ts[0]) {
      path := PathTo(ts[0], n);
    } else {
      path := PathInForest(parent, ts[1..], n);
    }
  }

  // ---------- a tree grows ----------

  /** No node occurs twice. */
  ghost predicate Proper(t: Shape)
    decreases t
  {
    t.node !in ForestFootprint(t.kids) && ProperForest(t.kids)
  }

  ghost predicate ProperForest(ts: seq<Shape>)
    decreases ts
  {
    ts == [] || (Proper(ts[0]) && Footprint(ts[0]) !! ForestFootprint(ts[1..]) && ProperForest(ts[1..]))
  }

  /** A new last child below `n`. */
  function Grow(t: Shape, n: Node, child: Node): Shape
    decreases t
  {
    if t.node == n then Shape(n, t.kids + [Shape(child, [])]) else Shape(t.node, GrowForest(t.kids, n, child))
  }

  function GrowForest(ts: seq<Shape>, n: Node, child: Node): seq<Shape>
    decreases ts
  {
    if ts == [] then [] else [Grow(ts[0], n, child)] + GrowForest(ts[1..], n, child)
  }

  lemma {:induction false} HeadsOfGrown(ts: seq<Shape>, n: Node, child: Node)
    ensures Heads(GrowForest(ts, n, child)) == Heads(ts)
  {
    if ts != [] {
      HeadsOfGrown(ts[1..], n, child);
    }
  }

  lemma {:induction false} HeadsSnoc(ts: seq<Shape>, t: Shape)
    ensures Heads(ts + [t]) == Heads(ts) + [t.node]
  {
    if ts == [] {
      assert ts + [t] == [t];
    } else {
      HeadsSnoc(ts[1..], t);
      assert (ts + [t])[1..] == ts[1..] + [t];
    }
  }

  /** The references of some nodes at one moment. */
  type Links = map<Node, (Node?, seq<Node>)>

  ghost function LinksOf(nodes: set<Node>): Links
    reads nodes
  {
    map m | m in nodes :: (m.parent, m.children)
  }

  /** `Linked`, for the references of an earlier moment. */
  ghost predicate LinkedIn(t: Shape, links: Links)
    decreases t
  {
    && t.node in links && links[t.node].1 == Heads(t.kids)
    && ForestLinkedIn(t.node, t.kids, links)
  }

  ghost predicate ForestLinkedIn(parent: Node, ts: seq<Shape>, links: Links)
    decreases ts
  {
    ts == [] ||
    (&& ts[0].node in links && links[ts[0].node].0 == parent
     && LinkedIn(ts[0], links) && ForestLinkedIn(parent, ts[1..], links))
  }

  lemma {:induction false} LinkedNow(t: Shape, nodes: set<Node>)
    requires Footprint(t) <= nodes
    ensures Linked(t) <==> LinkedIn(t, LinksOf(nodes))
    decreases t
  {
    ForestLinkedNow(t.node, t.kids, nodes);
  }

  lemma {:induction false} ForestLinkedNow(parent: Node, ts: seq<Shape>, nodes: set<Node>)
    requires ForestFootprint(ts) <= nodes
    ensures ForestLinked(parent, ts) <==> ForestLinkedIn(parent, ts, LinksOf(nodes))
    decreases ts
  {
    if ts != [] {
      LinkedNow(ts[0], nodes);
      ForestLinkedNow(parent, ts[1..], nodes);
    }
  }

  /** Only `n` got `child` as a further child. */
  ghost predicate OnlyGrown(before: Links, now: Links, fp: set<Node>, n: Node, child: Node) {
    && (forall m <- fp :: m in before && m in now && now[m].0 == before[m].0)
    && (forall m <- fp :: now[m].1 == if m == n then before[m].1 + [child] else before[m].1)
    && child in now && now[child] == (n, [])
  }

  lemma {:induction false} LinkedSnoc(parent: Node, ts: seq<Shape>, t: Shape, links: Links)
    requires ForestLinkedIn(parent, ts, links) && LinkedIn(t, links) && links[t.node].0 == parent
    ensures ForestLinkedIn(parent, ts + [t], links)
  {
    if ts == [] {
      assert ts + [t] == [t] && [t][1..] == [];
    } else {
      LinkedSnoc(parent, ts[1..], t, links);
      assert (ts + [t])[1..] == ts[1..] + [t];
    }
  }

  lemma {:induction false} GrowLinked(t: Shape, n: Node, child: Node, before: Links, now: Links)
    requires LinkedIn(t, before) && Proper(t) && OnlyGrown(before, now, Footprint(t), n, child)
    ensures LinkedIn(Grow(t, n, child), now)
    decreases t
  {
    if t.node == n {
      StillLinked(n, t.kids, n, child, before, now);
      var leaf := Shape(child, []);
      LinkedSnoc(n, t.kids, leaf, now);
      HeadsSnoc(t.kids, leaf);
    } else {
      GrowForestLinked(t.node, t.kids, n, child, before, now);
      HeadsOfGrown(t.kids, n, child);
    }
  }

  lemma {:induction false} GrowForestLinked(parent: Node, ts: seq<Shape>, n: Node, child: Node, before: Links,
          now: Links)
    requires ForestLinkedIn(parent, ts, before) && ProperForest(ts)
        && OnlyGrown(before, now, ForestFootprint(ts), n, child)
    ensures ForestLinkedIn(parent, GrowForest(ts, n, child), now)
    decreases ts
  {
    if ts != [] {
      GrowLinked(ts[0], n, child, before, now);
      GrowForestLinked(parent, ts[1..], n, child, before, now);
      assert GrowForest(ts, n, child)[1..] == GrowForest(ts[1..], n, child);
    }
  }

  lemma {:induction false} StillLinked(parent: Node, ts: seq<Shape>, n: Node, child: Node, before: Links, now: Links)
    requires ForestLinkedIn(parent, ts, before) && n !in ForestFootprint(ts)
    requires OnlyGrown(before, now, ForestFootprint(ts), n, child)
    ensures ForestLinkedIn(parent, ts, now)
    decreases ts
  {
    if ts != [] {
      StillLinked(ts[0].node, ts[0].kids, n, child, before, now);
      StillLinked(parent, ts[1..], n, child, before, now);
    }
  }

  lemma {:induction false} GrowFootprint(t: Shape, n: Node, child: Node)
    ensures Footprint(Grow(t, n, child)) == Footprint(t) + if n in Footprint(t) then {child} else {}
    decreases t
  {
    if t.node == n {
      FootprintSnoc(t.kids, Shape(child, []));
    } else {
      GrowForestFootprint(t.kids, n, child);
    }
  }

  lemma {:induction false} GrowForestFootprint(ts: seq<Shape>, n: Node, child: Node)
    ensures ForestFootprint(GrowForest(ts, n, child)) == ForestFootprint(ts) + if n in ForestFootprint(ts)
        then {child} else {}
    decreases ts
  {
    if ts != [] {
      GrowFootprint(ts[0], n, child);
      GrowForestFootprint(ts[1..], n, child);
      assert GrowForest(ts, n, child)[1..] == GrowForest(ts[1..], n, child);
    }
  }

  lemma {:induction false} FootprintSnoc(ts: seq<Shape>, t: Shape)
    ensures ForestFootprint(ts + [t]) == ForestFootprint(ts) + Footprint(t)
  {
    if ts == [] {
      assert ts + [t] == [t] && [t][1..] == [];
    } else {
      FootprintSnoc(ts[1..], t);
      assert (ts + [t])[1..] == ts[1..] + [t];
    }
  }

  lemma {:induction false} GrowProper(t: Shape, n: Node, child: Node)
    requires Proper(t) && child !in Footprint(t)
    ensures Proper(Grow(t, n, child))
    decreases t
  {
    if t.node == n {
      FootprintSnoc(t.kids, Shape(child, []));
      ProperSnoc(t.kids, Shape(child, []));
    } else {
      GrowForestFootprint(t.kids, n, child);
      GrowForestProper(t.kids, n, child);
    }
  }

  lemma {:induction false} GrowForestProper(ts: seq<Shape>, n: Node, child: Node)
    requires ProperForest(ts) && child !in ForestFootprint(ts)
    ensures ProperForest(GrowForest(ts, n, child))
    decreases ts
  {
    if ts != [] {
      GrowProper(ts[0], n, child);
      GrowForestProper(ts[1..], n, child);
      GrowFootprint(ts[0], n, child);
      GrowForestFootprint(ts[1..], n, child);
      assert GrowForest(ts, n, child)[1..] == GrowForest(ts[1..], n, child);
    }
  }

  lemma {:induction false} ProperSnoc(ts: seq<Shape>, t: Shape)
    requires ProperForest(ts) && Proper(t) && Footprint(t) !! ForestFootprint(ts)
    ensures ProperForest(ts + [t])
  {
    if ts == [] {
      assert ts + [t] == [t] && [t][1..] == [];
    } else {
      ProperSnoc(ts[1..], t);
      FootprintSnoc(ts[1..], t);
      assert (ts + [t])[1..] == ts[1..] + [t];
    }
  }

  // ---------- a tree is truncated ----------

  /** `[child for child in children if child.node_id <= max_id]` */
  function Kept(nodes: seq<Node>, maxId: int): seq<Node> {
    if nodes == [] then [] else (if nodes[0].nodeId <= maxId then [nodes[0]] else []) + Kept(nodes[1..], maxId)
  }

  function Truncated(t: Shape, maxId: int): Shape
    decreases t
  {
    Shape(t.node, TruncatedForest(t.kids, maxId))
  }

  function TruncatedForest(ts: seq<Shape>, maxId: int): seq<Shape>
    decreases ts
  {
    if ts == [] then [] else
      (if ts[0].node.nodeId <= maxId then [Truncated(ts[0], maxId)] else []) + TruncatedForest(ts[1..], maxId)
  }

  function KeptShapes(ts: seq<Shape>, maxId: int): seq<Shape> {
    if ts == [] then [] else (if ts[0].node.nodeId <= maxId then [ts[0]] else []) + KeptShapes(ts[1..], maxId)
  }

  function TruncateAll(ts: seq<Shape>, maxId: int): seq<Shape> {
    if ts == [] then [] else [Truncated(ts[0], maxId)] + TruncateAll(ts[1..], maxId)
  }

  lemma {:induction false} TruncateKept(ts: seq<Shape>, maxId: int)
    ensures TruncatedForest(ts, maxId) == TruncateAll(KeptShapes(ts, maxId), maxId)
  {
    if ts != [] {
      TruncateKept(ts[1..], maxId);
      var rest := KeptShapes(ts[1..], maxId);
      assert ([ts[0]] + rest)[1..] == rest && [] + rest == rest;
      assert [] + TruncatedForest(ts[1..], maxId) == TruncatedForest(ts[1..], maxId);
    }
  }

  lemma {:induction false} KeptAmong(ts: seq<Shape>, maxId: int, k: nat)
    requires k < |KeptShapes(ts, maxId)|
    ensures KeptShapes(ts, maxId)[k] in ts
  {
    if ts[0].node.nodeId <= maxId {
      if k > 0 {
        KeptAmong(ts[1..], maxId, k - 1);
      }
    } else {
      KeptAmong(ts[1..], maxId, k);
    }
  }

  lemma {:induction false} KeptFacts(parent: Node, ts: seq<Shape>, maxId: int)
    requires ForestLinked(parent, ts) && ProperForest(ts)
    ensures ForestLinked(parent, KeptShapes(ts, maxId)) && ProperForest(KeptShapes(ts, maxId))
    ensures ForestFootprint(KeptShapes(ts, maxId)) <= ForestFootprint(ts)
    ensures Heads(KeptShapes(ts, maxId)) == Kept(Heads(ts), maxId)
    decreases ts
  {
    if ts != [] {
      KeptFacts(parent, ts[1..], maxId);
      var rest := KeptShapes(ts[1..], maxId);
      assert ([ts[0]] + rest)[1..] == rest && [] + rest == rest;
      assert Heads(ts)[1..] == Heads(ts[1..]);
    }
  }

  /** Before and behind a place, and at it, a proper forest shares nothing. */
  lemma {:induction false} CutAt(ts: seq<Shape>, k: nat)
    requires ProperForest(ts) && k < |ts|
    ensures Footprint(ts[k]) !! ForestFootprint(ts[..k])
    ensures Footprint(ts[k]) !! ForestFootprint(ts[k + 1..])
    ensures Footprint(ts[k]) <= ForestFootprint(ts) && Proper(ts[k])
    ensures ForestFootprint(ts[..k]) <= ForestFootprint(ts) && ForestFootprint(ts[k + 1..]) <= ForestFootprint(ts)
  {
    if k == 0 {
      assert ts[..0] == [];
    } else {
      CutAt(ts[1..], k - 1);
      assert ts[1..][..k - 1] == ts[..k][1..] && ts[1..][k..] == ts[k + 1..];
    }
  }

  lemma {:induction false} TruncatedInside(t: Shape, maxId: int)
    ensures Footprint(Truncated(t, maxId)) <= Footprint(t)
    decreases t
  {
    TruncatedForestInside(t.kids, maxId);
  }

  lemma {:induction false} TruncatedForestInside(ts: seq<Shape>, maxId: int)
    ensures ForestFootprint(TruncatedForest(ts, maxId)) <= ForestFootprint(ts)
    decreases ts
  {
    if ts != [] {
      TruncatedInside(ts[0], maxId);
      TruncatedForestInside(ts[1..], maxId);
      var rest := TruncatedForest(ts[1..], maxId);
      assert ([Truncated(ts[0], maxId)] + rest)[1..] == rest && [] + rest == rest;
    }
  }

  lemma {:induction false} TruncateAllInside(ts: seq<Shape>, maxId: int)
    ensures ForestFootprint(TruncateAll(ts, maxId)) <= ForestFootprint(ts)
  {
    if ts != [] {
      TruncatedInside(ts[0], maxId);
      TruncateAllInside(ts[1..], maxId);
      assert TruncateAll(ts, maxId)[1..] == TruncateAll(ts[1..], maxId);
    }
  }

  lemma {:induction false} HeadsOfTruncated(ts: seq<Shape>, maxId: int)
    ensures Heads(TruncateAll(ts, maxId)) == Heads(ts)
  {
    if ts != [] {
      HeadsOfTruncated(ts[1..], maxId);
      assert TruncateAll(ts, maxId)[1..] == TruncateAll(ts[1..], maxId);
    }
  }

  lemma TruncateAllSnoc(parent: Node, ts: seq<Shape>, k: nat, maxId: int)
    requires k < |ts| && ForestLinked(parent, TruncateAll(ts[..k], maxId))
    requires Linked(Truncated(ts[k], maxId)) && ts[k].node.parent == parent
    ensures ForestLinked(parent, TruncateAll(ts[..k + 1], maxId))
  {
    TruncateAllConcat(ts[..k], ts[k], maxId);
    assert ts[..k + 1] == ts[..k] + [ts[k]];
    ForestLinkedSnoc(parent, TruncateAll(ts[..k], maxId), Truncated(ts[k], maxId));
  }

  lemma {:induction false} TruncateAllConcat(ts: seq<Shape>, t: Shape, maxId: int)
    ensures TruncateAll(ts + [t], maxId) == TruncateAll(ts, maxId) + [Truncated(t, maxId)]
  {
    if ts == [] {
      assert ts + [t] == [t] && [t][1..] == [];
    } else {
      TruncateAllConcat(ts[1..], t, maxId);
      assert (ts + [t])[1..] == ts[1..] + [t];
    }
  }

  lemma {:induction false} ForestLinkedSnoc(parent: Node, ts: seq<Shape>, t: Shape)
    requires ForestLinked(parent, ts) && Linked(t) && t.node.parent == parent
    ensures ForestLinked(parent, ts + [t])
  {
    if ts == [] {
      assert ts + [t] == [t] && [t][1..] == [];
    } else {
      ForestLinkedSnoc(parent, ts[1..], t);
      assert (ts + [t])[1..] == ts[1..] + [t];
    }
  }

  // ---------- a tree is dumped ----------

  function Erase(t: Shape): Tree
    decreases t
  {
    Tree(t.node.nodeId, t.node.payload, EraseForest(t.kids))
  }

  function EraseForest(ts: seq<Shape>): seq<Tree>
    decreases ts
  {
    if ts == [] then [] else [Erase(ts[0])] + EraseForest(ts[1..])
  }

  function RecordOf(n: Node): Record
    reads n
  {
    Record(n.nodeId, n.payload, if n.parent != null then Some(n.parent.nodeId) else None)
  }

  function RecordsOf(nodes: seq<Node>): seq<Record>
    reads nodes
  {
    if nodes == [] then [] else RecordsOf(nodes[..|nodes| - 1]) + [RecordOf(nodes[|nodes| - 1])]
  }

  lemma {:induction false} RecordsConcat(a: seq<Node>, b: seq<Node>)
    ensures RecordsOf(a + b) == RecordsOf(a) + RecordsOf(b)
  {
    if b == [] {
      assert a + b == a;
    } else {
      var (init, last) := (b[..|b| - 1], b[|b| - 1]);
      RecordsConcat(a, init);
      assert (a + b)[..|a + b| - 1] == a + init && (a + b)[|a + b| - 1] == last;
      Regroup(RecordsOf(a), RecordsOf(init), [RecordOf(last)]);
    }
  }

  lemma OneRecord(n: Node)
    ensures RecordsOf([n]) == [RecordOf(n)]
  {
    assert [n][..0] == [];
  }

  lemma {:induction false} DumpIsRecords(t: Shape, parentId: Option<int>)
    requires Linked(t)
    requires parentId == if t.node.parent != null then Some(t.node.parent.nodeId) else None
    ensures RecordsOf(Nodes(t)) == Dump(Erase(t), parentId)
    decreases t
  {
    OneRecord(t.node);
    RecordsConcat([t.node], ForestNodes(t.kids));
    DumpForestIsRecords(t.node, t.kids);
  }

  lemma {:induction false} DumpForestIsRecords(parent: Node, ts: seq<Shape>)
    requires ForestLinked(parent, ts)
    ensures RecordsOf(ForestNodes(ts)) == DumpForest(EraseForest(ts), Some(parent.nodeId))
    decreases ts
  {
    if ts != [] {
      DumpIsRecords(ts[0], Some(parent.nodeId));
      DumpForestIsRecords(parent, ts[1..]);
      RecordsConcat(Nodes(ts[0]), ForestNodes(ts[1..]));
      assert EraseForest(ts)[1..] == EraseForest(ts[1..]);
    }
  }
}
