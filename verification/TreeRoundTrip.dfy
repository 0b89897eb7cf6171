/**
 Dumping a search tree and rebuilding it gives a tree with the same ids, payloads, parents and child order;
 from any permutation of the dump the same parents come back.
 */
module TreeRoundTrip {
  import opened Prelude
  import opened TreeDump
  import opened SearchTree
  import opened TreeRebuild

  // ---------- the dictionary of a dump ----------

  lemma RecordIdsConcat(a: seq<Record>, b: seq<Record>)
    ensures RecordIds(a + b) == RecordIds(a) + RecordIds(b)
  {
  }

  lemma {:induction false} IdsOfDump(t: Tree, parentId: Option<int>)
    ensures RecordIds(Dump(t, parentId)) == Ids(t)
    decreases t
  {
    RecordIdsConcat([Record(t.id, t.payload, parentId)], DumpForest(t.kids, Some(t.id)));
    IdsOfDumpForest(t.kids, Some(t.id));
  }

  lemma {:induction false} IdsOfDumpForest(ts: seq<Tree>, parentId: Option<int>)
    ensures RecordIds(DumpForest(ts, parentId)) == ForestIds(ts)
    decreases ts
  {
    if ts != [] {
      RecordIdsConcat(Dump(ts[0], parentId), DumpForest(ts[1..], parentId));
      IdsOfDump(ts[0], parentId);
      IdsOfDumpForest(ts[1..], parentId);
    }
  }

  /** Every record of a list is the one the dictionary holds. */
  ghost predicate Holds(d: Dict, records: seq<Record>) {
    forall k :: 0 <= k < |records| ==> records[k].id in d.records && d.records[records[k].id] == records[k]
  }

  lemma HoldsConcat(d: Dict, a: seq<Record>, b: seq<Record>)
    requires Holds(d, a + b)
    ensures Holds(d, a) && Holds(d, b)
  {
    forall k | 0 <= k < |a| ensures a[k].id in d.records && d.records[a[k].id] == a[k] {
      assert (a + b)[k] == a[k];
    }
    forall k | 0 <= k < |b| ensures b[k].id in d.records && d.records[b[k].id] == b[k] {
      assert (a + b)[|a| + k] == b[k];
    }
  }

  /** In list order, the rebuild and the list give an id the same children. */
  lemma {:induction false} KidIdsAreKidsOf(d: Dict, records: seq<Record>, id: int)
    requires Holds(d, records)
    ensures Known(d, RecordIds(records)) && KidIds(d, RecordIds(records), id) == KidsOf(records, id)
  {
    if records != [] {
      var (init, last) := (records[..|records| - 1], records[|records| - 1]);
      assert records == init + [last];
      HoldsConcat(d, init, [last]);
      KidIdsAreKidsOf(d, init, id);
      KidsOfConcat(init, [last], id);
      RecordIdsConcat(init, [last]);
      assert RecordIds([last]) == [last.id];
      KidIdsSnoc(d, RecordIds(init), last.id, id);
      assert KidsOf([last], id) == if last.parentId == Some(id) then [last.id] else [];
    }
  }

  // ---------- the tree among the nodes ----------

  ghost predicate Has(nodes: map<int, Node>, ids: seq<int>) {
    forall k :: 0 <= k < |ids| ==> ids[k] in nodes
  }

  lemma HasConcat(nodes: map<int, Node>, a: seq<int>, b: seq<int>)
    requires Has(nodes, a + b)
    ensures Has(nodes, a) && Has(nodes, b)
  {
    forall k | 0 <= k < |a| ensures a[k] in nodes {
      assert (a + b)[k] == a[k];
    }
    forall k | 0 <= k < |b| ensures b[k] in nodes {
      assert (a + b)[|a| + k] == b[k];
    }
  }

  ghost function Build(nodes: map<int, Node>, t: Tree): Shape
    requires Has(nodes, Ids(t))
    decreases t
  {
    HasConcat(nodes, [t.id], ForestIds(t.kids));
    assert [t.id][0] in nodes;
    Shape(nodes[t.id], BuildForest(nodes, t.kids))
  }

  ghost function BuildForest(nodes: map<int, Node>, ts: seq<Tree>): seq<Shape>
    requires Has(nodes, ForestIds(ts))
    decreases ts
  {
    if ts == [] then [] else
      HasConcat(nodes, Ids(ts[0]), ForestIds(ts[1..]));
      [Build(nodes, ts[0])] + BuildForest(nodes, ts[1..])
  }

  lemma {:induction false} HeadsOfBuilt(nodes: map<int, Node>, ts: seq<Tree>)
    requires Has(nodes, ForestIds(ts))
    ensures forall k :: 0 <= k < |ts| ==> RootIds(ts)[k] in nodes
    ensures Heads(BuildForest(nodes, ts)) == NodesOf(nodes, RootIds(ts))
  {
    if ts != [] {
      HasConcat(nodes, Ids(ts[0]), ForestIds(ts[1..]));
      HeadsOfBuilt(nodes, ts[1..]);
      assert BuildForest(nodes, ts)[1..] == BuildForest(nodes, ts[1..]);
      assert Ids(ts[0])[0] == ts[0].id;
      assert Build(nodes, ts[0]).node == nodes[ts[0].id];
      forall k | 0 <= k < |ts| ensures RootIds(ts)[k] in nodes {
        assert k > 0 ==> RootIds(ts)[k] == RootIds(ts[1..])[k - 1];
      }
    }
  }

  /** The nodes are linked by the dictionary of the records. */
  ghost predicate LinkedBy(records: seq<Record>, d: Dict, nodes: map<int, Node>)
    reads nodes.Values
  {
    && nodes.Keys == d.records.Keys && WellFormed(d) && Holds(d, records) && d.order == RecordIds(records)
    && Known(d, d.order) && AllLinkedUpTo(d, nodes, d.order)
  }

  /** What the record of a node makes of it. */
  lemma NodeOf(records: seq<Record>, d: Dict, nodes: map<int, Node>, id: int, payload: string, p: Option<int>)
    requires LinkedBy(records, d, nodes) && id in d.records && d.records[id] == Record(id, payload, p)
    ensures id in nodes && nodes[id].nodeId == id && nodes[id].payload == payload
    ensures p.Some? ==> p.value in nodes && nodes[id].parent == nodes[p.value]
    ensures forall k :: 0 <= k < |KidsOf(records, id)| ==> KidsOf(records, id)[k] in nodes
    ensures nodes[id].children == NodesOf(nodes, KidsOf(records, id))
  {
    KidIdsAreKidsOf(d, records, id);
    KidIdsAmong(d, d.order, id);
    assert LinkedUpTo(d, nodes, d.order, id);
  }

  lemma DumpHead(d: Dict, t: Tree, p: Option<int>)
    requires Holds(d, Dump(t, p))
    ensures t.id in d.records && d.records[t.id] == Record(t.id, t.payload, p)
    ensures Holds(d, DumpForest(t.kids, Some(t.id)))
  {
    var head := [Record(t.id, t.payload, p)];
    HoldsConcat(d, head, DumpForest(t.kids, Some(t.id)));
    assert head[0].id in d.records && d.records[head[0].id] == head[0];
  }

  /** Nodes linked by a dictionary that describes a tree have the shape of that tree. */
  lemma {:induction false} BuiltLinked(records: seq<Record>, d: Dict, nodes: map<int, Node>, t: Tree, p: Option<int>)
    requires LinkedBy(records, d, nodes)
    requires Describes(records, t) && Holds(d, Dump(t, p)) && Has(nodes, Ids(t))
    ensures Linked(Build(nodes, t)) && Erase(Build(nodes, t)) == t
    decreases t
  {
    HasConcat(nodes, [t.id], ForestIds(t.kids));
    DumpHead(d, t, p);
    NodeOf(records, d, nodes, t.id, t.payload, p);
    HeadsOfBuilt(nodes, t.kids);
    BuiltForestLinked(records, d, nodes, t.id, t.kids);
  }

  lemma {:induction false} BuiltForestLinked(records: seq<Record>, d: Dict, nodes: map<int, Node>, parentId: int,
          ts: seq<Tree>)
    requires LinkedBy(records, d, nodes) && parentId in nodes
    requires DescribesAll(records, ts) && Holds(d, DumpForest(ts, Some(parentId))) && Has(nodes, ForestIds(ts))
    ensures ForestLinked(nodes[parentId], BuildForest(nodes, ts)) && EraseForest(BuildForest(nodes, ts)) == ts
    decreases ts
  {
    if ts != [] {
      var (t, rest) := (ts[0], ts[1..]);
      HasConcat(nodes, Ids(t), ForestIds(rest));
      HoldsConcat(d, Dump(t, Some(parentId)), DumpForest(rest, Some(parentId)));
      BuiltLinked(records, d, nodes, t, Some(parentId));
      BuiltForestLinked(records, d, nodes, parentId, rest);
      DumpHead(d, t, Some(parentId));
      NodeOf(records, d, nodes, t.id, t.payload, Some(parentId));
      assert BuildForest(nodes, ts)[1..] == BuildForest(nodes, rest);
      assert Build(nodes, t).node == nodes[t.id];
    }
  }

  // ---------- the round trip ----------

  lemma {:induction false} ParentsOfDump(t: Tree, parentId: Option<int>)
    ensures forall r <- Dump(t, parentId) :: r.parentId == parentId || (r.parentId.Some? && r.parentId.value in Ids(t))
    decreases t
  {
    ParentsOfDumpForest(t.kids, Some(t.id));
  }

  lemma {:induction false} ParentsOfDumpForest(ts: seq<Tree>, parentId: Option<int>)
    ensures forall r <- DumpForest(ts, parentId) ::
              r.parentId == parentId || (r.parentId.Some? && r.parentId.value in ForestIds(ts))
    decreases ts
  {
    if ts != [] {
      ParentsOfDump(ts[0], parentId);
      ParentsOfDumpForest(ts[1..], parentId);
    }
  }

  lemma {:induction false} NoneMissing(d: Dict, keys: seq<int>)
    requires Known(d, keys)
    requires forall k <- d.records :: d.records[k].parentId.Some? ==> d.records[k].parentId.value in d.records
    ensures FirstMissing(d, keys) == None
  {
    if keys != [] {
      NoneMissing(d, keys[1..]);
    }
  }

  /** A dump with distinct ids is rebuilt without error, from its root. */
  lemma DumpRebuilds(t: Tree)
    requires Distinct(Ids(t))
    ensures
      var (records, d) := (Dump(t, None), DictOf(Dump(t, None)));
      && WellFormed(d) && d.order == Ids(t) && Known(d, d.order) && Holds(d, records)
      && FirstMissing(d, d.order) == None && FirstRoot(d, d.order) == Some(t.id)
  {
    var (records, d) := (Dump(t, None), DictOf(Dump(t, None)));
    IdsOfDump(t, None);
    DictWellFormed(records);
    DistinctDict(records);
    ParentsOfDump(t, None);
    forall k | k in d.records && d.records[k].parentId.Some? ensures d.records[k].parentId.value in d.records {
      assert k in d.order;
      var i :| 0 <= i < |d.order| && d.order[i] == k;
      assert records[i] in records && d.records[records[i].id] == records[i];
    }
    NoneMissing(d, d.order);
    assert records[0] == Record(t.id, t.payload, None) && d.order[0] == t.id;
    assert records[0] in records;
  }

  /** The nodes rebuilt from a dump have the shape of the dumped tree. */
  lemma RebuiltShape(t: Tree, nodes: map<int, Node>) returns (u: Shape)
    requires Distinct(Ids(t))
    requires
      var d := DictOf(Dump(t, None));
      nodes.Keys == d.records.Keys && Known(d, d.order) && AllLinkedUpTo(d, nodes, d.order)
    ensures t.id in nodes && u.node == nodes[t.id] && u.node.parent == null
    ensures Linked(u) && Erase(u) == t
  {
    var (records, d) := (Dump(t, None), DictOf(Dump(t, None)));
    DumpRebuilds(t);
    DumpDescribes(t);
    IdsOfDump(t, None);
    assert forall k :: 0 <= k < |Ids(t)| ==> Ids(t)[k] == d.order[k];
    assert records[0] == Record(t.id, t.payload, None);
    assert Ids(t)[0] == t.id;
    assert LinkedBy(records, d, nodes);
    BuiltLinked(records, d, nodes, t, None);
    u := Build(nodes, t);
    assert LinkedUpTo(d, nodes, d.order, t.id);
  }

  /** Dump and rebuild: the copy has the shape, the ids and the payloads of the tree. */
  method DumpAndRebuild(root: Node, ghost t: Shape, ghost all: set<Node>) returns (copy: Node, ghost u: Shape)
    requires Footprint(t) <= all && Rooted(t, all) && root in Footprint(t)
    requires Distinct(Ids(Erase(t)))
    ensures copy == u.node && copy.parent == null && Linked(u) && Erase(u) == Erase(t)
  {
    ghost var tree := Erase(t);
    var records := root.DumpAsList(t, all);
    DumpRebuilds(tree);
    var r;
    ghost var nodes;
    r, nodes := ReconstructFromList(records);
    u := RebuiltShape(tree, nodes);
    copy := r.value;
  }

  /** The same record for every id of the first map. */
  ghost predicate Within(a: map<int, Record>, b: map<int, Record>) {
    forall id <- a :: id in b && a[id] == b[id]
  }

  /** From any permutation of a dump the rebuild takes the same parents, and the same children up to order. */
  lemma PermutedDump(t: Tree, permuted: seq<Record>)
    requires Distinct(Ids(t)) && multiset(permuted) == multiset(Dump(t, None))
    ensures Within(DictOf(permuted).records, DictOf(Dump(t, None)).records)
    ensures Within(DictOf(Dump(t, None)).records, DictOf(permuted).records)
    ensures forall id :: multiset(KidsOf(permuted, id)) == multiset(KidsOf(Dump(t, None), id))
  {
    var records := Dump(t, None);
    IdsOfDump(t, None);
    DistinctPermuted(records, permuted);
    SameRecords(permuted, records);
    SameRecords(records, permuted);
    forall id ensures multiset(KidsOf(permuted, id)) == multiset(KidsOf(records, id)) {
      KidsOfPermuted(permuted, records, id);
    }
  }

  lemma {:induction false} OnlyRoot(d: Dict, keys: seq<int>, id: int)
    requires Known(d, keys) && id in keys
    requires forall i :: 0 <= i < |keys| ==> (d.records[keys[i]].parentId == None <==> keys[i] == id)
    ensures FirstRoot(d, keys) == Some(id)
  {
    if keys[0] != id {
      OnlyRoot(d, keys[1..], id);
    }
  }

  /** Only `id` has no parent, and all other parents are there. */
  ghost predicate RootedAt(records: map<int, Record>, id: int) {
    forall k <- records ::
      && (records[k].parentId == None <==> k == id)
      && (records[k].parentId.Some? ==> records[k].parentId.value in records)
  }

  lemma RootedRebuilds(d: Dict, id: int)
    requires WellFormed(d) && RootedAt(d.records, id) && id in d.records
    ensures Known(d, d.order) && FirstMissing(d, d.order) == None && FirstRoot(d, d.order) == Some(id)
  {
    NoneMissing(d, d.order);
    OnlyRoot(d, d.order, id);
  }

  lemma RootedTransfer(found: map<int, Record>, expected: map<int, Record>, id: int)
    requires Within(found, expected) && Within(expected, found) && RootedAt(expected, id)
    ensures RootedAt(found, id)
  {
    forall k | k in found
      ensures found[k].parentId == None <==> k == id
      ensures found[k].parentId.Some? ==> found[k].parentId.value in found
    {
      assert k in expected && found[k] == expected[k];
      if found[k].parentId.Some? {
        var p := found[k].parentId.value;
        assert p == expected[k].parentId.value && p in expected;
        assert p in found;
      }
    }
  }

  /** A permuted dump is rebuilt without error, too, and from the same root. */
  lemma PermutedRebuilds(t: Tree, permuted: seq<Record>)
    requires Distinct(Ids(t)) && multiset(permuted) == multiset(Dump(t, None))
    ensures
      var d := DictOf(permuted);
      && WellFormed(d) && Known(d, d.order)
      && FirstMissing(d, d.order) == None && FirstRoot(d, d.order) == Some(t.id)
  {
    var (d, e) := (DictOf(permuted), DictOf(Dump(t, None)));
    PermutedDump(t, permuted);
    DictWellFormed(permuted);
    RootOfDump(t);
    RootedTransfer(d.records, e.records, t.id);
    RootedRebuilds(d, t.id);
  }

  lemma RootOfDump(t: Tree)
    requires Distinct(Ids(t))
    ensures RootedAt(DictOf(Dump(t, None)).records, t.id) && t.id in DictOf(Dump(t, None)).records
  {
    var e := DictOf(Dump(t, None));
    DumpRebuilds(t);
    assert Ids(t)[0] == t.id && e.order[0] == t.id;
    assert t.id in e.order;
    forall k | k in e.records
      ensures e.records[k].parentId == None <==> k == t.id
      ensures e.records[k].parentId.Some? ==> e.records[k].parentId.value in e.records
    {
      assert k in e.order;
      var i :| 0 <= i < |e.order| && e.order[i] == k;
      RootOfDumpAt(t, i);
    }
  }

  lemma RootOfDumpAt(t: Tree, i: nat)
    requires Distinct(Ids(t)) && i < |Ids(t)|
    ensures i < |Dump(t, None)| && Dump(t, None)[i].id == Ids(t)[i]
    ensures
      var r := Dump(t, None)[i];
      && (r.parentId == None <==> Ids(t)[i] == t.id)
      && (r.parentId.Some? ==> r.parentId.value in Ids(t))
  {
    IdsOfDump(t, None);
    ParentsOfDumpForest(t.kids, Some(t.id));
    var below := DumpForest(t.kids, Some(t.id));
    assert Dump(t, None) == [Record(t.id, t.payload, None)] + below;
    assert RecordIds(Dump(t, None))[i] == Dump(t, None)[i].id;
    assert Ids(t)[0] == t.id;
    if i > 0 {
      assert Dump(t, None)[i] == below[i - 1] && below[i - 1] in below;
      assert Ids(t)[0] != Ids(t)[i];
    }
  }

  lemma TwiceCounts(s: seq<Record>, i: nat, j: nat)
    requires i < j < |s| && s[i] == s[j]
    ensures multiset(s)[s[i]] >= 2
  {
    assert s == s[..j] + s[j..];
    assert s[..j][i] == s[i] && s[j..][0] == s[i];
    assert s[i] in s[..j] && s[i] in s[j..];
  }

  lemma {:induction false} OnceCounts(s: seq<Record>, r: Record)
    requires Distinct(RecordIds(s))
    ensures multiset(s)[r] <= 1
  {
    if s != [] {
      var (n, init) := (|s| - 1, s[..|s| - 1]);
      assert s == init + [s[n]];
      forall i, j | 0 <= i < j < n ensures RecordIds(init)[i] != RecordIds(init)[j] {
        assert RecordIds(s)[i] != RecordIds(s)[j];
      }
      OnceCounts(init, r);
      forall k | 0 <= k < n ensures init[k] != s[n] {
        assert RecordIds(s)[k] != RecordIds(s)[n];
      }
    }
  }

  lemma DistinctPermuted(a: seq<Record>, b: seq<Record>)
    requires multiset(a) == multiset(b) && Distinct(RecordIds(a))
    ensures Distinct(RecordIds(b))
  {
    forall i, j | 0 <= i < j < |b| ensures b[i].id != b[j].id {
      assert b[i] in multiset(a) && b[j] in multiset(a);
      var k :| 0 <= k < |a| && a[k] == b[i];
      var l :| 0 <= l < |a| && a[l] == b[j];
      if b[i] == b[j] {
        TwiceCounts(b, i, j);
        OnceCounts(a, b[i]);
      } else {
        assert RecordIds(a)[k] == b[i].id && RecordIds(a)[l] == b[j].id && k != l;
      }
    }
  }

  lemma SameRecords(a: seq<Record>, b: seq<Record>)
    requires multiset(a) == multiset(b) && Distinct(RecordIds(a)) && Distinct(RecordIds(b))
    ensures Within(DictOf(a).records, DictOf(b).records)
  {
    DictWellFormed(a);
    DistinctDict(a);
    DistinctDict(b);
    forall id | id in DictOf(a).records
      ensures id in DictOf(b).records && DictOf(a).records[id] == DictOf(b).records[id]
    {
      assert id in DictOf(a).order;
      var i :| 0 <= i < |a| && RecordIds(a)[i] == id;
      assert a[i] in multiset(b);
      assert a[i] in a && a[i] in b;
    }
  }

  // ---------- the rebuild from a permuted dump ----------

  function IdsOf(nodes: seq<Node>): (r: seq<int>)
    ensures |r| == |nodes|
  {
    seq(|nodes|, k requires 0 <= k < |nodes| => nodes[k].nodeId)
  }

  /** The node of a record: its payload and parent, and these children in some order. */
  ghost predicate RebuiltAs(nodes: map<int, Node>, r: Record, kids: seq<int>)
    reads nodes.Values
  {
    && r.id in nodes && nodes[r.id].nodeId == r.id && nodes[r.id].payload == r.payload
    && (match r.parentId
        case None => nodes[r.id].parent == null
        case Some(p) => p in nodes && nodes[r.id].parent == nodes[p])
    && (forall c <- nodes[r.id].children :: c.nodeId in nodes && nodes[c.nodeId] == c)
    && multiset(IdsOf(nodes[r.id].children)) == multiset(kids)
  }

  lemma IdsOfNodesOf(d: Dict, nodes: map<int, Node>, ids: seq<int>)
    requires nodes.Keys == d.records.Keys && Known(d, d.order) && AllLinkedUpTo(d, nodes, d.order)
    requires forall i :: 0 <= i < |ids| ==> ids[i] in nodes
    ensures IdsOf(NodesOf(nodes, ids)) == ids
    ensures forall c <- NodesOf(nodes, ids) :: c.nodeId in nodes && nodes[c.nodeId] == c
  {
    forall i | 0 <= i < |ids| ensures nodes[ids[i]].nodeId == ids[i] {
      assert LinkedUpTo(d, nodes, d.order, ids[i]);
    }
  }

  /** In a list with distinct ids the dictionary keeps every record and the order. */
  lemma HeldByDict(records: seq<Record>)
    requires Distinct(RecordIds(records))
    ensures Holds(DictOf(records), records) && DictOf(records).order == RecordIds(records)
  {
    DistinctDict(records);
    forall k | 0 <= k < |records|
      ensures records[k].id in DictOf(records).records && DictOf(records).records[records[k].id] == records[k]
    {
      assert records[k] in records;
    }
  }

  lemma PermutedNode(t: Tree, permuted: seq<Record>, nodes: map<int, Node>, i: nat)
    requires Distinct(Ids(t)) && multiset(permuted) == multiset(Dump(t, None)) && i < |permuted|
    requires
      var d := DictOf(permuted);
      nodes.Keys == d.records.Keys && Known(d, d.order) && AllLinkedUpTo(d, nodes, d.order)
    ensures RebuiltAs(nodes, permuted[i], KidsOf(Dump(t, None), permuted[i].id))
  {
    var (d, r) := (DictOf(permuted), permuted[i]);
    IdsOfDump(t, None);
    DistinctPermuted(Dump(t, None), permuted);
    HeldByDict(permuted);
    KidIdsAreKidsOf(d, permuted, r.id);
    assert d.order[i] == r.id;
    assert LinkedUpTo(d, nodes, d.order, r.id);
    KidIdsAmong(d, d.order, r.id);
    IdsOfNodesOf(d, nodes, KidIds(d, d.order, r.id));
    PermutedDump(t, permuted);
  }

  /**
   From any permutation of a dump come nodes with the same ids, payloads and parents, and the same children up to
   order.
   */
  method RebuildPermuted(t: Tree, permuted: seq<Record>) returns (root: Node, ghost nodes: map<int, Node>)
    requires Distinct(Ids(t)) && multiset(permuted) == multiset(Dump(t, None))
    ensures t.id in nodes && root == nodes[t.id]
    ensures forall id <- nodes :: id in Ids(t)
    ensures forall i :: 0 <= i < |permuted| ==> RebuiltAs(nodes, permuted[i], KidsOf(Dump(t, None), permuted[i].id))
  {
    PermutedRebuilds(t, permuted);
    var r;
    r, nodes := ReconstructFromList(permuted);
    forall i | 0 <= i < |permuted|
      ensures RebuiltAs(nodes, permuted[i], KidsOf(Dump(t, None), permuted[i].id))
    {
      PermutedNode(t, permuted, nodes, i);
    }
    forall id | id in nodes ensures id in Ids(t) {
      PermutedDump(t, permuted);
      DumpRebuilds(t);
      assert id in DictOf(Dump(t, None)).records;
    }
    root := r.value;
  }
}
