/**
 Node ids under `create_child` at any node and truncation at the root: they stay distinct and
 dense, and grow from parent to child.
 */
module NodeIds {
  import opened Prelude
  import opened TreeDump
  import opened SearchTree

  // ---------- the invariant ----------

  /** With `n` nodes, the ids are 0 and 2 up to `n`. */
  ghost predicate Dense(ids: seq<int>) {
    Distinct(ids) && forall x :: x in ids <==> x == 0 || 2 <= x <= |ids|
  }

  /** Ids grow from parent to child. */
  ghost predicate Increasing(t: Tree)
    decreases t
  {
    ForestIncreasing(t.id, t.kids)
  }

  ghost predicate ForestIncreasing(above: int, ts: seq<Tree>)
    decreases ts
  {
    ts == [] || (above < ts[0].id && Increasing(ts[0]) && ForestIncreasing(above, ts[1..]))
  }

  ghost predicate GoodIds(t: Shape) {
    t.node.nodeId == 0 && Dense(Ids(Erase(t))) && Increasing(Erase(t))
  }

  // ---------- growing ----------

  lemma {:induction false} GrowAbsent(t: Shape, n: Node, child: Node)
    requires n !in Footprint(t)
    ensures Grow(t, n, child) == t
    decreases t
  {
    GrowForestAbsent(t.kids, n, child);
  }

  lemma {:induction false} GrowForestAbsent(ts: seq<Shape>, n: Node, child: Node)
    requires n !in ForestFootprint(ts)
    ensures GrowForest(ts, n, child) == ts
    decreases ts
  {
    if ts != [] {
      GrowAbsent(ts[0], n, child);
      GrowForestAbsent(ts[1..], n, child);
    }
  }

  /** A sequence with one more element somewhere. */
  ghost predicate OneMore(a: seq<int>, b: seq<int>, x: int) {
    exists i :: 0 <= i <= |a| && b == a[..i] + [x] + a[i..]
  }

  lemma OneMoreAround(front: seq<int>, a: seq<int>, b: seq<int>, back: seq<int>, x: int)
    requires OneMore(a, b, x)
    ensures OneMore(front + a + back, front + b + back, x)
  {
    var i :| 0 <= i <= |a| && b == a[..i] + [x] + a[i..];
    var (c, d, k) := (front + a + back, front + b + back, |front| + i);
    assert c[..k] == front + a[..i] && c[k..] == a[i..] + back;
    assert d == c[..k] + [x] + c[k..];
  }

  lemma {:induction false} ForestIdsSnoc(ts: seq<Tree>, t: Tree)
    ensures ForestIds(ts + [t]) == ForestIds(ts) + Ids(t)
  {
    if ts == [] {
      assert ts + [t] == [t];
      OneTree(t, Prelude.None);
    } else {
      ForestIdsSnoc(ts[1..], t);
      assert (ts + [t])[1..] == ts[1..] + [t];
    }
  }

  lemma {:induction false} EraseSnoc(ts: seq<Shape>, t: Shape)
    ensures EraseForest(ts + [t]) == EraseForest(ts) + [Erase(t)]
  {
    if ts == [] {
      assert ts + [t] == [t] && [t][1..] == [];
    } else {
      EraseSnoc(ts[1..], t);
      assert (ts + [t])[1..] == ts[1..] + [t];
    }
  }

  /** A new child adds its id once. */
  lemma {:induction false} GrowAddsId(t: Shape, n: Node, child: Node)
    requires Proper(t) && n in Footprint(t)
    ensures OneMore(Ids(Erase(t)), Ids(Erase(Grow(t, n, child))), child.nodeId)
    decreases t
  {
    if t.node == n {
      var ids := Ids(Erase(t));
      EraseSnoc(t.kids, Shape(child, []));
      ForestIdsSnoc(EraseForest(t.kids), Erase(Shape(child, [])));
      assert Ids(Erase(Shape(child, []))) == [child.nodeId];
      assert Ids(Erase(Grow(t, n, child))) == ids[..|ids|] + [child.nodeId] + ids[|ids|..];
    } else {
      GrowForestAddsId(t.kids, n, child);
      var (a, b) := (ForestIds(EraseForest(t.kids)), ForestIds(EraseForest(GrowForest(t.kids, n, child))));
      OneMoreAround([t.node.nodeId], a, b, [], child.nodeId);
      assert [t.node.nodeId] + a + [] == [t.node.nodeId] + a && [t.node.nodeId] + b + [] == [t.node.nodeId] + b;
    }
  }

  lemma {:induction false} GrowForestAddsId(ts: seq<Shape>, n: Node, child: Node)
    requires ProperForest(ts) && n in ForestFootprint(ts)
    ensures OneMore(ForestIds(EraseForest(ts)), ForestIds(EraseForest(GrowForest(ts, n, child))), child.nodeId)
    decreases ts
  {
    var (head, rest) := (Ids(Erase(ts[0])), ForestIds(EraseForest(ts[1..])));
    assert EraseForest(ts)[1..] == EraseForest(ts[1..]);
    var grown := GrowForest(ts, n, child);
    assert EraseForest(grown)[1..] == EraseForest(grown[1..]) && grown[1..] == GrowForest(ts[1..], n, child);
    if n in Footprint(ts[0]) {
      GrowForestAbsent(ts[1..], n, child);
      GrowAddsId(ts[0], n, child);
      OneMoreAround([], head, Ids(Erase(grown[0])), rest, child.nodeId);
      assert [] + head == head && [] + Ids(Erase(grown[0])) == Ids(Erase(grown[0]));
    } else {
      GrowAbsent(ts[0], n, child);
      GrowForestAddsId(ts[1..], n, child);
      OneMoreAround(head, rest, ForestIds(EraseForest(grown[1..])), [], child.nodeId);
      assert head + rest + [] == head + rest;
      assert head + ForestIds(EraseForest(grown[1..])) + [] == head + ForestIds(EraseForest(grown[1..]));
    }
  }

  lemma DenseGrows(a: seq<int>, b: seq<int>)
    requires Dense(a) && a != [] && OneMore(a, b, |a| + 1)
    ensures Dense(b)
  {
    var i :| 0 <= i <= |a| && b == a[..i] + [|a| + 1] + a[i..];
    forall x ensures x in b <==> x == 0 || 2 <= x <= |b| {
      assert x in b <==> x in a || x == |a| + 1;
    }
    forall j, k | 0 <= j < k < |b| ensures b[j] != b[k] {
      assert forall l :: 0 <= l < |b| && l != i ==> b[l] == a[if l < i then l else l - 1] && b[l] in a;
    }
  }

  lemma {:induction false} GrowIncreasing(t: Shape, n: Node, child: Node)
    requires Increasing(Erase(t)) && n.nodeId < child.nodeId
    ensures Increasing(Erase(Grow(t, n, child)))
    decreases t
  {
    if t.node == n {
      EraseSnoc(t.kids, Shape(child, []));
      ForestIncreasingSnoc(n.nodeId, EraseForest(t.kids), Erase(Shape(child, [])));
    } else {
      GrowForestIncreasing(t.node.nodeId, t.kids, n, child);
    }
  }

  lemma {:induction false} GrowForestIncreasing(above: int, ts: seq<Shape>, n: Node, child: Node)
    requires ForestIncreasing(above, EraseForest(ts)) && n.nodeId < child.nodeId
    ensures ForestIncreasing(above, EraseForest(GrowForest(ts, n, child)))
    decreases ts
  {
    if ts != [] {
      assert EraseForest(ts)[1..] == EraseForest(ts[1..]);
      GrowIncreasing(ts[0], n, child);
      GrowForestIncreasing(above, ts[1..], n, child);
      var grown := GrowForest(ts, n, child);
      assert EraseForest(grown)[1..] == EraseForest(grown[1..]) && grown[1..] == GrowForest(ts[1..], n, child);
    }
  }

  lemma {:induction false} ForestIncreasingSnoc(above: int, ts: seq<Tree>, t: Tree)
    requires ForestIncreasing(above, ts) && above < t.id && Increasing(t)
    ensures ForestIncreasing(above, ts + [t])
  {
    if ts == [] {
      assert ts + [t] == [t] && [t][1..] == [];
    } else {
      ForestIncreasingSnoc(above, ts[1..], t);
      assert (ts + [t])[1..] == ts[1..] + [t];
    }
  }

  lemma {:induction false} IdsOfNodes(t: Shape)
    ensures |Ids(Erase(t))| == |Nodes(t)|
    ensures forall n <- Footprint(t) :: n.nodeId in Ids(Erase(t))
    decreases t
  {
    IdsOfForest(t.kids);
  }

  lemma {:induction false} IdsOfForest(ts: seq<Shape>)
    ensures |ForestIds(EraseForest(ts))| == |ForestNodes(ts)|
    ensures forall n <- ForestFootprint(ts) :: n.nodeId in ForestIds(EraseForest(ts))
    decreases ts
  {
    if ts != [] {
      IdsOfNodes(ts[0]);
      IdsOfForest(ts[1..]);
      assert EraseForest(ts)[1..] == EraseForest(ts[1..]);
    }
  }

  /** A new child with the next id keeps the ids good. */
  lemma GrowKeepsIds(t: Shape, n: Node, child: Node)
    requires Proper(t) && GoodIds(t) && n in Footprint(t) && child.nodeId == |Nodes(t)| + 1
    ensures GoodIds(Grow(t, n, child))
  {
    IdsOfNodes(t);
    GrowAddsId(t, n, child);
    DenseGrows(Ids(Erase(t)), Ids(Erase(Grow(t, n, child))));
    GrowIncreasing(t, n, child);
  }

  // ---------- truncating ----------

  function AtMost(ids: seq<int>, maxId: int): seq<int> {
    if ids == [] then [] else (if ids[0] <= maxId then [ids[0]] else []) + AtMost(ids[1..], maxId)
  }

  lemma AtMostCons(id: int, ids: seq<int>, maxId: int)
    ensures AtMost([id] + ids, maxId) == (if id <= maxId then [id] else []) + AtMost(ids, maxId)
  {
    assert ([id] + ids)[1..] == ids;
  }

  lemma {:induction false} AtMostConcat(a: seq<int>, b: seq<int>, maxId: int)
    ensures AtMost(a + b, maxId) == AtMost(a, maxId) + AtMost(b, maxId)
  {
    if a == [] {
      assert a + b == b;
    } else {
      AtMostConcat(a[1..], b, maxId);
      AtMostCons(a[0], a[1..] + b, maxId);
      assert a + b == [a[0]] + (a[1..] + b);
      Regroup(if a[0] <= maxId then [a[0]] else [], AtMost(a[1..], maxId), AtMost(b, maxId));
    }
  }

  /** Where ids grow downwards, nothing small lies below something large. */
  lemma {:induction false} NoneAtMost(t: Tree, maxId: int)
    requires Increasing(t) && maxId < t.id
    ensures AtMost(Ids(t), maxId) == []
    decreases t
  {
    NoneAtMostForest(t.id, t.kids, maxId);
    assert Ids(t)[1..] == ForestIds(t.kids);
  }

  lemma {:induction false} NoneAtMostForest(above: int, ts: seq<Tree>, maxId: int)
    requires ForestIncreasing(above, ts) && maxId < above
    ensures AtMost(ForestIds(ts), maxId) == []
    decreases ts
  {
    if ts != [] {
      NoneAtMost(ts[0], maxId);
      NoneAtMostForest(above, ts[1..], maxId);
      AtMostConcat(Ids(ts[0]), ForestIds(ts[1..]), maxId);
    }
  }

  /** Truncation keeps exactly the nodes with small ids, in order. */
  lemma {:induction false} TruncationKeeps(t: Shape, maxId: int)
    requires Increasing(Erase(t)) && t.node.nodeId <= maxId
    ensures Ids(Erase(Truncated(t, maxId))) == AtMost(Ids(Erase(t)), maxId)
    decreases t
  {
    TruncationKeepsForest(t.node.nodeId, t.kids, maxId);
    assert Ids(Erase(t))[1..] == ForestIds(EraseForest(t.kids));
  }

  lemma {:induction false} TruncationKeepsForest(above: int, ts: seq<Shape>, maxId: int)
    requires ForestIncreasing(above, EraseForest(ts))
    ensures ForestIds(EraseForest(TruncatedForest(ts, maxId))) == AtMost(ForestIds(EraseForest(ts)), maxId)
    decreases ts
  {
    if ts != [] {
      assert EraseForest(ts)[1..] == EraseForest(ts[1..]);
      TruncationKeepsForest(above, ts[1..], maxId);
      AtMostConcat(Ids(Erase(ts[0])), ForestIds(EraseForest(ts[1..])), maxId);
      var rest := TruncatedForest(ts[1..], maxId);
      if ts[0].node.nodeId <= maxId {
        TruncationKeeps(ts[0], maxId);
        var all := [Truncated(ts[0], maxId)] + rest;
        assert all[1..] == rest && EraseForest(all)[1..] == EraseForest(rest);
      } else {
        NoneAtMost(Erase(ts[0]), maxId);
        assert [] + rest == rest
          && [] + AtMost(ForestIds(EraseForest(ts[1..])), maxId) == AtMost(ForestIds(EraseForest(ts[1..])), maxId);
      }
    }
  }

  lemma {:induction false} TruncationIncreasing(t: Shape, maxId: int)
    requires Increasing(Erase(t))
    ensures Increasing(Erase(Truncated(t, maxId)))
    decreases t
  {
    TruncationForestIncreasing(t.node.nodeId, t.kids, maxId);
  }

  lemma {:induction false} TruncationForestIncreasing(above: int, ts: seq<Shape>, maxId: int)
    requires ForestIncreasing(above, EraseForest(ts))
    ensures ForestIncreasing(above, EraseForest(TruncatedForest(ts, maxId)))
    decreases ts
  {
    if ts != [] {
      assert EraseForest(ts)[1..] == EraseForest(ts[1..]);
      TruncationIncreasing(ts[0], maxId);
      TruncationForestIncreasing(above, ts[1..], maxId);
      var rest := TruncatedForest(ts[1..], maxId);
      var all := [Truncated(ts[0], maxId)] + rest;
      assert all[1..] == rest && EraseForest(all)[1..] == EraseForest(rest) && [] + rest == rest;
    }
  }

  lemma {:induction false} AtMostIs(ids: seq<int>, maxId: int)
    ensures forall x :: x in AtMost(ids, maxId) <==> x in ids && x <= maxId
    ensures Distinct(ids) ==> Distinct(AtMost(ids, maxId))
  {
    if ids != [] {
      AtMostIs(ids[1..], maxId);
      if Distinct(ids) {
        DistinctConcat([ids[0]], ids[1..]);
        assert ids == [ids[0]] + ids[1..] && ids[0] in [ids[0]];
      }
    }
  }

  function Upto(n: nat): (r: set<int>)
    ensures forall x :: x in r <==> 2 <= x <= n
  {
    if n < 2 then {} else Upto(n - 1) + {n}
  }

  lemma {:induction false} UptoSize(n: nat)
    requires n >= 1
    ensures |Upto(n)| == n - 1
  {
    if n > 1 {
      UptoSize(n - 1);
    }
  }

  lemma {:induction false} DistinctSize(ids: seq<int>)
    requires Distinct(ids)
    ensures |set x | x in ids| == |ids|
  {
    if ids != [] {
      var (init, last) := (ids[..|ids| - 1], ids[|ids| - 1]);
      DistinctSize(init);
      assert (set x | x in ids) == (set x | x in init) + {last};
    }
  }

  lemma DenseSize(ids: seq<int>, n: nat)
    requires n >= 1 && Distinct(ids) && forall x :: x in ids <==> x == 0 || 2 <= x <= n
    ensures |ids| == n
  {
    DistinctSize(ids);
    UptoSize(n);
    assert (set x | x in ids) == {0} + Upto(n);
  }

  /** The node itself stays whatever its id is. */
  lemma TruncationIds(t: Shape, maxId: int)
    requires Increasing(Erase(t))
    ensures Ids(Erase(Truncated(t, maxId))) == AtMost(Ids(Erase(t)), Bound(t.node, maxId))
  {
    if maxId < t.node.nodeId {
      var (id, kids) := (t.node.nodeId, EraseForest(t.kids));
      assert Ids(Erase(t)) == [id] + ForestIds(kids) && ([id] + ForestIds(kids))[1..] == ForestIds(kids);
      TruncationKeepsForest(id, t.kids, maxId);
      NoneAtMostForest(id, kids, maxId);
      NoneLeft(id, kids);
    } else {
      TruncationKeeps(t, maxId);
    }
  }

  function Bound(n: Node, maxId: int): int {
    if maxId < n.nodeId then n.nodeId else maxId
  }

  lemma {:induction false} NoneLeft(above: int, ts: seq<Tree>)
    requires ForestIncreasing(above, ts)
    ensures AtMost(ForestIds(ts), above) == []
    decreases ts
  {
    if ts != [] {
      NoneAtMost(ts[0], above);
      NoneLeft(above, ts[1..]);
      AtMostConcat(Ids(ts[0]), ForestIds(ts[1..]), above);
    }
  }

  /** Truncation at the root keeps the root and exactly the nodes with small ids, and keeps the ids good. */
  lemma TruncationKeepsIds(t: Shape, maxId: int)
    requires GoodIds(t)
    ensures GoodIds(Truncated(t, maxId))
    ensures forall x :: x in Ids(Erase(Truncated(t, maxId))) <==> x in Ids(Erase(t)) && (x <= maxId || x == 0)
  {
    var (ids, bound) := (Ids(Erase(t)), if maxId < 0 then 0 else maxId);
    TruncationIds(t, maxId);
    TruncationIncreasing(t, maxId);
    AtMostIs(ids, bound);
    DenseSize(AtMost(ids, bound), if bound <= 1 then 1 else if bound < |ids| then bound else |ids|);
  }

  lemma {:induction false} NodesInFootprint(t: Shape)
    ensures forall n <- Nodes(t) :: n in Footprint(t)
    decreases t
  {
    ForestNodesInFootprint(t.kids);
  }

  lemma {:induction false} ForestNodesInFootprint(ts: seq<Shape>)
    ensures forall n <- ForestNodes(ts) :: n in ForestFootprint(ts)
    decreases ts
  {
    if ts != [] {
      NodesInFootprint(ts[0]);
      ForestNodesInFootprint(ts[1..]);
    }
  }

  lemma {:induction false} TruncatedProper(t: Shape, maxId: int)
    requires Proper(t)
    ensures Proper(Truncated(t, maxId))
    decreases t
  {
    TruncatedForestProper(t.kids, maxId);
    TruncatedForestInside(t.kids, maxId);
  }

  lemma {:induction false} TruncatedForestProper(ts: seq<Shape>, maxId: int)
    requires ProperForest(ts)
    ensures ProperForest(TruncatedForest(ts, maxId))
    decreases ts
  {
    if ts != [] {
      TruncatedProper(ts[0], maxId);
      TruncatedForestProper(ts[1..], maxId);
      TruncatedInside(ts[0], maxId);
      TruncatedForestInside(ts[1..], maxId);
      var rest := TruncatedForest(ts[1..], maxId);
      assert ([Truncated(ts[0], maxId)] + rest)[1..] == rest && [] + rest == rest;
    }
  }
}
