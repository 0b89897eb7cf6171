/**
 Truncation below any node of a tree: what it does to the whole tree, and when the ids stay dense. The next id is
 counted, so a gap can make it one that is in use.
 */
module InnerTruncation {
  import opened Prelude
  import opened TreeDump
  import opened SearchTree
  import opened NodeIds

  // ---------- the tree with a truncated part ----------

  /** The subtree of a node. */
  function Sub(t: Shape, n: Node): Shape
    requires n in Footprint(t)
    decreases t
  {
    if t.node == n then t else SubIn(t.kids, n)
  }

  function SubIn(ts: seq<Shape>, n: Node): Shape
    requires n in ForestFootprint(ts)
    decreases ts
  {
    if n in Footprint(ts[0]) then Sub(ts[0], n) else SubIn(ts[1..], n)
  }

  function TruncatedAt(t: Shape, n: Node, maxId: int): Shape
    decreases t
  {
    if t.node == n then Truncated(t, maxId) else Shape(t.node, TruncatedIn(t.kids, n, maxId))
  }

  function TruncatedIn(ts: seq<Shape>, n: Node, maxId: int): seq<Shape>
    decreases ts
  {
    if ts == [] then [] else [TruncatedAt(ts[0], n, maxId)] + TruncatedIn(ts[1..], n, maxId)
  }

  lemma {:induction false} SubInside(t: Shape, n: Node)
    requires n in Footprint(t)
    ensures Sub(t, n).node == n && Footprint(Sub(t, n)) <= Footprint(t)
    decreases t
  {
    if t.node != n {
      SubInForest(t.kids, n);
    }
  }

  lemma {:induction false} SubInForest(ts: seq<Shape>, n: Node)
    requires n in ForestFootprint(ts)
    ensures SubIn(ts, n).node == n && Footprint(SubIn(ts, n)) <= ForestFootprint(ts)
    decreases ts
  {
    if n in Footprint(ts[0]) {
      SubInside(ts[0], n);
    } else {
      SubInForest(ts[1..], n);
    }
  }

  lemma {:induction false} SubLinked(t: Shape, n: Node)
    requires n in Footprint(t) && Linked(t) && Proper(t)
    ensures Linked(Sub(t, n)) && Proper(Sub(t, n))
    decreases t
  {
    if t.node != n {
      SubForestLinked(t.node, t.kids, n);
    }
  }

  lemma {:induction false} SubForestLinked(parent: Node, ts: seq<Shape>, n: Node)
    requires n in ForestFootprint(ts) && ForestLinked(parent, ts) && ProperForest(ts)
    ensures Linked(SubIn(ts, n)) && Proper(SubIn(ts, n))
    decreases ts
  {
    if n in Footprint(ts[0]) {
      SubLinked(ts[0], n);
    } else {
      SubForestLinked(parent, ts[1..], n);
    }
  }

  lemma {:induction false} CutAbsent(t: Shape, n: Node, maxId: int)
    requires n !in Footprint(t)
    ensures TruncatedAt(t, n, maxId) == t
    decreases t
  {
    CutForestAbsent(t.kids, n, maxId);
  }

  lemma {:induction false} CutForestAbsent(ts: seq<Shape>, n: Node, maxId: int)
    requires n !in ForestFootprint(ts)
    ensures TruncatedIn(ts, n, maxId) == ts
    decreases ts
  {
    if ts != [] {
      CutAbsent(ts[0], n, maxId);
      CutForestAbsent(ts[1..], n, maxId);
    }
  }

  lemma {:induction false} CutInside(t: Shape, n: Node, maxId: int)
    ensures Footprint(TruncatedAt(t, n, maxId)) <= Footprint(t)
    decreases t
  {
    if t.node == n {
      TruncatedInside(t, maxId);
    } else {
      CutForestInside(t.kids, n, maxId);
    }
  }

  lemma {:induction false} CutForestInside(ts: seq<Shape>, n: Node, maxId: int)
    ensures ForestFootprint(TruncatedIn(ts, n, maxId)) <= ForestFootprint(ts)
    decreases ts
  {
    if ts != [] {
      CutInside(ts[0], n, maxId);
      CutForestInside(ts[1..], n, maxId);
      assert TruncatedIn(ts, n, maxId)[1..] == TruncatedIn(ts[1..], n, maxId);
    }
  }

  lemma {:induction false} CutProper(t: Shape, n: Node, maxId: int)
    requires Proper(t)
    ensures Proper(TruncatedAt(t, n, maxId))
    decreases t
  {
    if t.node == n {
      TruncatedProper(t, maxId);
    } else {
      CutForestProper(t.kids, n, maxId);
      CutForestInside(t.kids, n, maxId);
    }
  }

  lemma {:induction false} CutForestProper(ts: seq<Shape>, n: Node, maxId: int)
    requires ProperForest(ts)
    ensures ProperForest(TruncatedIn(ts, n, maxId))
    decreases ts
  {
    if ts != [] {
      CutProper(ts[0], n, maxId);
      CutForestProper(ts[1..], n, maxId);
      CutInside(ts[0], n, maxId);
      CutForestInside(ts[1..], n, maxId);
      assert TruncatedIn(ts, n, maxId)[1..] == TruncatedIn(ts[1..], n, maxId);
    }
  }

  // ---------- the references ----------

  /** The references of the nodes in `fp` are as before, except below those in `cut`; no parent changed. */
  ghost predicate OnlyCut(before: Links, now: Links, fp: set<Node>, cut: set<Node>) {
    && (forall m <- fp :: m in before && m in now && now[m].0 == before[m].0)
    && (forall m <- fp :: m !in cut ==> now[m] == before[m])
  }

  lemma {:induction false} Untouched(t: Shape, before: Links, now: Links, cut: set<Node>)
    requires LinkedIn(t, before) && OnlyCut(before, now, Footprint(t), cut) && Footprint(t) !! cut
    ensures LinkedIn(t, now)
    decreases t
  {
    ForestUntouched(t.node, t.kids, before, now, cut);
  }

  lemma {:induction false} ForestUntouched(parent: Node, ts: seq<Shape>, before: Links, now: Links, cut: set<Node>)
    requires ForestLinkedIn(parent, ts, before) && OnlyCut(before, now, ForestFootprint(ts), cut)
        && ForestFootprint(ts) !! cut
    ensures ForestLinkedIn(parent, ts, now)
    decreases ts
  {
    if ts != [] {
      Untouched(ts[0], before, now, cut);
      ForestUntouched(parent, ts[1..], before, now, cut);
    }
  }

  lemma {:induction false} HeadsOfCut(ts: seq<Shape>, n: Node, maxId: int)
    ensures Heads(TruncatedIn(ts, n, maxId)) == Heads(ts)
  {
    if ts != [] {
      HeadsOfCut(ts[1..], n, maxId);
      assert TruncatedIn(ts, n, maxId)[1..] == TruncatedIn(ts[1..], n, maxId);
    }
  }

  lemma {:induction false} CutLinked(t: Shape, n: Node, maxId: int, before: Links, now: Links)
    requires n in Footprint(t) && LinkedIn(t, before) && Proper(t)
    requires OnlyCut(before, now, Footprint(t), Footprint(Sub(t, n))) && LinkedIn(Truncated(Sub(t, n), maxId), now)
    ensures LinkedIn(TruncatedAt(t, n, maxId), now)
    decreases t
  {
    if t.node != n {
      SubInForest(t.kids, n);
      CutForestLinked(t.node, t.kids, n, maxId, before, now);
      HeadsOfCut(t.kids, n, maxId);
    }
  }

  lemma {:induction false} CutForestLinked(parent: Node, ts: seq<Shape>, n: Node, maxId: int, before: Links, now: Links)
    requires n in ForestFootprint(ts) && ForestLinkedIn(parent, ts, before) && ProperForest(ts)
    requires OnlyCut(before, now, ForestFootprint(ts), Footprint(SubIn(ts, n)))
    requires LinkedIn(Truncated(SubIn(ts, n), maxId), now)
    ensures ForestLinkedIn(parent, TruncatedIn(ts, n, maxId), now)
    decreases ts
  {
    var made := TruncatedIn(ts, n, maxId);
    assert made[1..] == TruncatedIn(ts[1..], n, maxId);
    if n in Footprint(ts[0]) {
      SubInside(ts[0], n);
      CutLinked(ts[0], n, maxId, before, now);
      CutForestAbsent(ts[1..], n, maxId);
      ForestUntouched(parent, ts[1..], before, now, Footprint(SubIn(ts, n)));
    } else {
      SubInForest(ts[1..], n);
      CutAbsent(ts[0], n, maxId);
      Untouched(ts[0], before, now, Footprint(SubIn(ts, n)));
      CutForestLinked(parent, ts[1..], n, maxId, before, now);
    }
  }

  /** `node.truncate_children_by_id(max_id)` for any node of a tree. */
  method TruncateBelow(n: Node, maxId: int, ghost t: Shape, ghost all: set<Node>)
    requires Footprint(t) <= all && Rooted(t, all) && n in Footprint(t)
    modifies Footprint(Sub(t, n))
    ensures Footprint(TruncatedAt(t, n, maxId)) <= all && Rooted(TruncatedAt(t, n, maxId), all)
  {
    ghost var before := LinksOf(all);
    ghost var sub := Sub(t, n);
    SubInside(t, n);
    SubLinked(t, n);
    LinkedNow(t, all);
    n.Truncate(maxId, sub, all);
    ghost var now := LinksOf(all);
    TruncatedInside(sub, maxId);
    LinkedNow(Truncated(sub, maxId), all);
    assert OnlyCut(before, now, Footprint(t), Footprint(sub));
    CutLinked(t, n, maxId, before, now);
    CutInside(t, n, maxId);
    CutProper(t, n, maxId);
    LinkedNow(TruncatedAt(t, n, maxId), all);
    assert TruncatedAt(t, n, maxId).node == t.node;
  }

  // ---------- the ids that are left ----------

  /** From the ids `a`, those of `part` above the bound are gone. */
  ghost predicate CutFrom(a: seq<int>, b: seq<int>, part: seq<int>, bound: int) {
    && Distinct(b) && (forall x <- part :: x in a)
    && forall x :: x in b <==> x in a && !(x in part && x > bound)
  }

  lemma CutAround(front: seq<int>, a: seq<int>, b: seq<int>, back: seq<int>, part: seq<int>, bound: int)
    requires Distinct(front + a + back) && CutFrom(a, b, part, bound)
    ensures CutFrom(front + a + back, front + b + back, part, bound)
  {
    DistinctConcat(front + a, back);
    DistinctConcat(front, a);
    DistinctJoin(front, b);
    DistinctJoin(front + b, back);
  }

  lemma DistinctJoin(a: seq<int>, b: seq<int>)
    requires Distinct(a) && Distinct(b) && forall x <- b :: x !in a
    ensures Distinct(a + b)
  {
    forall i, j | 0 <= i < j < |a + b| ensures (a + b)[i] != (a + b)[j] {
      if i < |a| && j >= |a| {
        assert b[j - |a|] in b && a[i] in a;
      }
    }
  }

  lemma CutHere(t: Shape, maxId: int)
    requires Increasing(Erase(t)) && Distinct(Ids(Erase(t)))
    ensures CutFrom(Ids(Erase(t)), Ids(Erase(Truncated(t, maxId))), Ids(Erase(t)), Bound(t.node, maxId))
  {
    TruncationIds(t, maxId);
    AtMostIs(Ids(Erase(t)), Bound(t.node, maxId));
  }

  lemma {:induction false} CutIds(t: Shape, n: Node, maxId: int)
    requires n in Footprint(t) && Increasing(Erase(t)) && Distinct(Ids(Erase(t)))
    ensures CutFrom(Ids(Erase(t)), Ids(Erase(TruncatedAt(t, n, maxId))), Ids(Erase(Sub(t, n))), Bound(n, maxId))
    decreases t
  {
    if t.node == n {
      CutHere(t, maxId);
    } else {
      var (id, a) := ([t.node.nodeId], ForestIds(EraseForest(t.kids)));
      var b := ForestIds(EraseForest(TruncatedIn(t.kids, n, maxId)));
      assert id + a + [] == Ids(Erase(t)) && id + b + [] == Ids(Erase(TruncatedAt(t, n, maxId)));
      DistinctConcat(id, a);
      CutForestIds(t.node.nodeId, t.kids, n, maxId);
      CutAround(id, a, b, [], Ids(Erase(Sub(t, n))), Bound(n, maxId));
    }
  }

  lemma {:induction false} CutForestIds(above: int, ts: seq<Shape>, n: Node, maxId: int)
    requires n in ForestFootprint(ts) && ForestIncreasing(above, EraseForest(ts))
        && Distinct(ForestIds(EraseForest(ts)))
    ensures CutFrom(ForestIds(EraseForest(ts)), ForestIds(EraseForest(TruncatedIn(ts, n, maxId))),
                    Ids(Erase(SubIn(ts, n))), Bound(n, maxId))
    decreases ts
  {
    var (first, rest) := (Ids(Erase(ts[0])), ForestIds(EraseForest(ts[1..])));
    var made := TruncatedIn(ts, n, maxId);
    assert made[1..] == TruncatedIn(ts[1..], n, maxId) && EraseForest(ts)[1..] == EraseForest(ts[1..]);
    assert EraseForest(made)[1..] == EraseForest(made[1..]);
    DistinctConcat(first, rest);
    var (part, bound) := (Ids(Erase(SubIn(ts, n))), Bound(n, maxId));
    if n in Footprint(ts[0]) {
      CutIds(ts[0], n, maxId);
      CutElsewhere(ts[1..], n, maxId, ts[0]);
      assert [] + first + rest == first + rest;
      CutAround([], first, Ids(Erase(made[0])), rest, part, bound);
      assert [] + Ids(Erase(made[0])) + rest == Ids(Erase(made[0])) + rest;
    } else {
      CutAbsent(ts[0], n, maxId);
      CutForestIds(above, ts[1..], n, maxId);
      assert first + rest + [] == first + rest;
      CutAround(first, rest, ForestIds(EraseForest(made[1..])), [], part, bound);
      assert first + ForestIds(EraseForest(made[1..])) + [] == first + ForestIds(EraseForest(made[1..]));
    }
  }

  /** A node found in one tree is not in the others: it would have its id there. */
  lemma CutElsewhere(ts: seq<Shape>, n: Node, maxId: int, t: Shape)
    requires n in Footprint(t) && forall x <- Ids(Erase(t)) :: x !in ForestIds(EraseForest(ts))
    ensures TruncatedIn(ts, n, maxId) == ts
  {
    IdsOfNodes(t);
    IdsOfForest(ts);
    CutForestAbsent(ts, n, maxId);
  }

  lemma {:induction false} CutIncreasing(t: Shape, n: Node, maxId: int)
    requires Increasing(Erase(t))
    ensures Increasing(Erase(TruncatedAt(t, n, maxId)))
    decreases t
  {
    if t.node == n {
      TruncationIncreasing(t, maxId);
    } else {
      CutForestIncreasing(t.node.nodeId, t.kids, n, maxId);
    }
  }

  lemma {:induction false} CutForestIncreasing(above: int, ts: seq<Shape>, n: Node, maxId: int)
    requires ForestIncreasing(above, EraseForest(ts))
    ensures ForestIncreasing(above, EraseForest(TruncatedIn(ts, n, maxId)))
    decreases ts
  {
    if ts != [] {
      assert EraseForest(ts)[1..] == EraseForest(ts[1..]);
      CutIncreasing(ts[0], n, maxId);
      CutForestIncreasing(above, ts[1..], n, maxId);
      var made := TruncatedIn(ts, n, maxId);
      assert EraseForest(made)[1..] == EraseForest(made[1..]) && made[1..] == TruncatedIn(ts[1..], n, maxId);
    }
  }

  // ---------- when they are dense ----------

  function MaxOf(ids: seq<int>): int {
    if ids == [] then 0 else if ids[0] > MaxOf(ids[1..]) then ids[0] else MaxOf(ids[1..])
  }

  lemma {:induction false} MaxIs(ids: seq<int>)
    ensures forall x <- ids :: x <= MaxOf(ids)
    ensures MaxOf(ids) in ids || MaxOf(ids) == 0
  {
    if ids != [] {
      MaxIs(ids[1..]);
      forall x | x in ids ensures x <= MaxOf(ids) {
        assert x == ids[0] || x in ids[1..];
      }
    }
  }

  ghost predicate LargestGone(a: seq<int>, b: seq<int>) {
    forall x <- a, y <- b :: x !in b ==> y < x
  }

  /** What is left of dense ids is dense exactly if only the largest are gone. */
  lemma DenseIff(a: seq<int>, b: seq<int>)
    requires Dense(a) && Distinct(b) && 0 in b && forall x <- b :: x in a
    ensures Dense(b) <==> LargestGone(a, b)
  {
    if LargestGone(a, b) {
      MaxIs(b);
      var n := if MaxOf(b) < 1 then 1 else MaxOf(b);
      forall x ensures x in b <==> x == 0 || 2 <= x <= n {
        if 2 <= x <= n {
          assert MaxOf(b) in b && x in a;
        }
      }
      DenseSize(b, n);
    }
  }

  /** No node outside of what is removed has a larger id than one inside. */
  ghost predicate RemovesLargest(t: Shape, n: Node, maxId: int)
    requires n in Footprint(t)
  {
    TopOf(Ids(Erase(t)), Ids(Erase(Sub(t, n))), Bound(n, maxId))
  }

  ghost predicate TopOf(ids: seq<int>, part: seq<int>, bound: int) {
    forall x <- part, y <- ids :: x > bound && !(y in part && y > bound) ==> y < x
  }

  lemma TopIff(a: seq<int>, b: seq<int>, part: seq<int>, bound: int)
    requires CutFrom(a, b, part, bound)
    ensures TopOf(a, part, bound) <==> LargestGone(a, b)
  {
    if TopOf(a, part, bound) {
      forall x <- a, y <- b | x !in b ensures y < x {
        assert x in part && x > bound && y in a;
      }
    }
    if LargestGone(a, b) {
      forall x <- part, y <- a | x > bound && !(y in part && y > bound) ensures y < x {
        assert x in a && x !in b && y in b;
      }
    }
  }

  /** Truncation below a node keeps the ids good exactly if it removes the largest ones. */
  lemma InnerTruncationIff(t: Shape, n: Node, maxId: int)
    requires GoodIds(t) && n in Footprint(t)
    ensures GoodIds(TruncatedAt(t, n, maxId)) <==> RemovesLargest(t, n, maxId)
    ensures CutFrom(Ids(Erase(t)), Ids(Erase(TruncatedAt(t, n, maxId))), Ids(Erase(Sub(t, n))), Bound(n, maxId))
  {
    var (a, b) := (Ids(Erase(t)), Ids(Erase(TruncatedAt(t, n, maxId))));
    CutIds(t, n, maxId);
    CutIncreasing(t, n, maxId);
    assert b[0] == 0;
    DenseIff(a, b);
    TopIff(a, b, Ids(Erase(Sub(t, n))), Bound(n, maxId));
  }

  /** A child with the next id has it for itself exactly if no node has it. */
  lemma NextIdIff(t: Shape, n: Node, child: Node)
    requires Proper(t) && n in Footprint(t) && Distinct(Ids(Erase(t))) && child.nodeId == |Nodes(t)| + 1
    ensures Distinct(Ids(Erase(Grow(t, n, child)))) <==> |Ids(Erase(t))| + 1 !in Ids(Erase(t))
  {
    IdsOfNodes(t);
    GrowAddsId(t, n, child);
    OneMoreDistinct(Ids(Erase(t)), Ids(Erase(Grow(t, n, child))), child.nodeId);
  }

  lemma OneMoreDistinct(a: seq<int>, b: seq<int>, x: int)
    requires Distinct(a) && OneMore(a, b, x)
    ensures Distinct(b) <==> x !in a
  {
    var i :| 0 <= i <= |a| && b == a[..i] + [x] + a[i..];
    assert b[i] == x;
    forall l | 0 <= l < |a| ensures Distinct(b) ==> a[l] != x {
      assert b[if l < i then l else l + 1] == a[l];
    }
    if x !in a {
      forall j, k | 0 <= j < k < |b| ensures b[j] != b[k] {
        assert j != i ==> b[j] == a[if j < i then j else j - 1];
        assert k != i ==> b[k] == a[if k < i then k else k - 1];
      }
    }
  }

  lemma LeafIds(n: Node)
    ensures Ids(Erase(Shape(n, []))) == [n.nodeId] && Increasing(Erase(Shape(n, [])))
  {
    assert ForestIds([]) == [];
  }

  lemma ForestCons(above: int, t: Tree, ts: seq<Tree>)
    ensures ForestIds([t] + ts) == Ids(t) + ForestIds(ts)
    ensures ForestIncreasing(above, [t] + ts) <==> above < t.id && Increasing(t) && ForestIncreasing(above, ts)
  {
    assert ([t] + ts)[1..] == ts;
  }

  lemma EraseOne(x: Shape)
    ensures EraseForest([x]) == [Erase(x)] + []
  {
    assert [x][1..] == [];
  }

  lemma IdsOfOne(n: Node, x: Shape)
    ensures Ids(Erase(Shape(n, [x]))) == [n.nodeId] + Ids(Erase(x))
    ensures Increasing(Erase(Shape(n, [x]))) <==> n.nodeId < x.node.nodeId && Increasing(Erase(x))
  {
    EraseOne(x);
    ForestCons(n.nodeId, Erase(x), []);
    assert Ids(Erase(x)) + ForestIds([]) == Ids(Erase(x));
  }

  lemma IdsOfTwo(n: Node, x: Shape, y: Shape)
    ensures Ids(Erase(Shape(n, [x, y]))) == [n.nodeId] + Ids(Erase(x)) + Ids(Erase(y))
    ensures Increasing(Erase(Shape(n, [x, y]))) <==>
              n.nodeId < x.node.nodeId && Increasing(Erase(x)) && n.nodeId < y.node.nodeId && Increasing(Erase(y))
  {
    EraseOne(y);
    ForestCons(n.nodeId, Erase(y), []);
    assert Ids(Erase(y)) + ForestIds([]) == Ids(Erase(y));
    assert [x, y][1..] == [y];
    ForestCons(n.nodeId, Erase(x), EraseForest([y]));
    Regroup([n.nodeId], Ids(Erase(x)), Ids(Erase(y)));
  }

  /** A tree of four nodes, truncated at the second one: the next child gets the id of the last one again. */
  lemma IdsCollide(root: Node, a: Node, b: Node, c: Node)
    requires root.nodeId == 0 && a.nodeId == 2 && b.nodeId == 3 && c.nodeId == 4
    ensures
      var t := Shape(root, [Shape(a, [Shape(b, [])]), Shape(c, [])]);
      var u := TruncatedAt(t, a, 2);
      && GoodIds(t) && Ids(Erase(u)) == [0, 2, 4] && !GoodIds(u) && |Ids(Erase(u))| + 1 in Ids(Erase(u))
  {
    var (x, y) := (Shape(b, []), Shape(c, []));
    LeafIds(b);
    LeafIds(c);
    LeafIds(a);
    IdsOfOne(a, x);
    IdsOfTwo(root, Shape(a, [x]), y);
    CutOf(root, a, x, y);
    IdsOfTwo(root, Shape(a, []), y);
    assert [0] + ([2] + [3]) + [4] == [0, 2, 3, 4] && Dense([0, 2, 3, 4]);
    assert [0] + [2] + [4] == [0, 2, 4] && 3 !in [0, 2, 4];
  }

  lemma CutOf(root: Node, a: Node, x: Shape, y: Shape)
    requires root.nodeId == 0 && a.nodeId == 2 && x.node.nodeId == 3 && y.node.nodeId == 4 && y.kids == []
    ensures TruncatedAt(Shape(root, [Shape(a, [x]), y]), a, 2) == Shape(root, [Shape(a, []), y])
  {
    var z := Shape(a, [x]);
    assert [z, y][1..] == [y] && [y][1..] == [] && [x][1..] == [];
    assert TruncatedForest([x], 2) == [] + [] == [];
    assert TruncatedAt(z, a, 2) == Shape(a, []);
    assert TruncatedAt(y, a, 2) == y;
    assert TruncatedIn([y], a, 2) == [y];
    assert TruncatedIn([z, y], a, 2) == [Shape(a, [])] + [y];
  }
}
