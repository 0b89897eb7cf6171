/**
 Rebuilding a search tree from a flat list (`Node._reconstruct_from_list`): first all nodes are made, then
 they are linked, in the order of the list.
 */
module TreeRebuild {
  import opened Prelude
  import opened TreeDump
  import opened SearchTree

  datatype RebuildError = MissingParent(id: int) | NoRoot

  function NodesOf(nodes: map<int, Node>, ids: seq<int>): (r: seq<Node>)
    requires forall i :: 0 <= i < |ids| ==> ids[i] in nodes
    ensures |r| == |ids| && forall k :: 0 <= k < |r| ==> r[k] == nodes[ids[k]]
  {
    seq(|ids|, k requires 0 <= k < |ids| => nodes[ids[k]])
  }

  lemma {:induction false} KidIdsAmong(d: Dict, keys: seq<int>, id: int)
    requires Known(d, keys)
    ensures
      var kids := KidIds(d, keys, id);
      && Known(d, kids)
      && forall i :: 0 <= i < |kids| ==> kids[i] in keys && d.records[kids[i]].parentId == Some(id)
  {
    if keys != [] {
      KidIdsAmong(d, keys[..|keys| - 1], id);
    }
  }

  /** The node of an id, linked as far as `keys` goes. */
  ghost predicate LinkedUpTo(d: Dict, nodes: map<int, Node>, keys: seq<int>, id: int)
    requires id in nodes && nodes.Keys == d.records.Keys && Known(d, keys)
    reads nodes[id]
  {
    KidIdsAmong(d, keys, id);
    var p := d.records[id].parentId;
    && nodes[id].nodeId == id && nodes[id].payload == d.records[id].payload
    && nodes[id].children == NodesOf(nodes, KidIds(d, keys, id))
    && (if id in keys && p.Some? then p.value in nodes && nodes[id].parent == nodes[p.value]
      else nodes[id].parent == null)
  }

  ghost predicate AllLinkedUpTo(d: Dict, nodes: map<int, Node>, keys: seq<int>)
    requires nodes.Keys == d.records.Keys && Known(d, keys)
    reads nodes.Values
  {
    forall id <- nodes :: LinkedUpTo(d, nodes, keys, id)
  }

  /** The first key whose record names a parent that is not there. */
  function FirstMissing(d: Dict, keys: seq<int>): Option<int>
    requires Known(d, keys)
  {
    if keys == [] then None else
      var p := d.records[keys[0]].parentId;
      if p.Some? && p.value !in d.records then p else FirstMissing(d, keys[1..])
  }

  function FirstRoot(d: Dict, keys: seq<int>): Option<int>
    requires Known(d, keys)
  {
    if keys == [] then None
    else if d.records[keys[0]].parentId == None then Some(keys[0]) else FirstRoot(d, keys[1..])
  }

  /** The root is the first key without a parent, */
  lemma {:induction false} FirstRootIs(d: Dict, keys: seq<int>, k: nat)
    requires Known(d, keys) && k <= |keys| && forall j :: 0 <= j < k ==> d.records[keys[j]].parentId.Some?
    requires k < |keys| ==> d.records[keys[k]].parentId == None
    ensures FirstRoot(d, keys) == if k < |keys| then Some(keys[k]) else None
  {
    if k > 0 {
      FirstRootIs(d, keys[1..], k - 1);
    }
  }

  /** and the parent reported as missing is that of the first key whose parent is not in the list. */
  lemma {:induction false} FirstMissingIs(d: Dict, keys: seq<int>, k: nat)
    requires Known(d, keys) && k <= |keys|
    requires forall j :: 0 <= j < k ==>
               d.records[keys[j]].parentId == None || d.records[keys[j]].parentId.value in d.records
    requires k < |keys| ==> d.records[keys[k]].parentId.Some? && d.records[keys[k]].parentId.value !in d.records
    ensures FirstMissing(d, keys) == if k < |keys| then d.records[keys[k]].parentId else None
  {
    if k > 0 {
      FirstMissingIs(d, keys[1..], k - 1);
    }
  }

  lemma ValuesOfUpdate<K, V>(m: map<K, V>, key: K, value: V)
    ensures m[key := value].Values <= m.Values + {value}
  {
  }

  method MakeNodes(records: seq<Record>)
    returns (nodes: map<int, Node>, order: seq<int>, parents: map<int, Option<int>>)
    ensures order == DictOf(records).order && WellFormed(DictOf(records))
    ensures nodes.Keys == parents.Keys == DictOf(records).records.Keys
    ensures forall id <- parents :: parents[id] == DictOf(records).records[id].parentId
    ensures fresh(nodes.Values)
    ensures AllLinkedUpTo(DictOf(records), nodes, [])
  {
    nodes, order, parents := map[], [], map[];
    assert records[..0] == [];
    for k := 0 to |records|
      invariant order == DictOf(records[..k]).order
      invariant nodes.Keys == parents.Keys == DictOf(records[..k]).records.Keys
      invariant forall id <- parents :: parents[id] == DictOf(records[..k]).records[id].parentId
      invariant fresh(nodes.Values)
      invariant AllLinkedUpTo(DictOf(records[..k]), nodes, [])
    {
      var r := records[k];
      assert records[..k + 1][..k] == records[..k];
      var node := new Node(r.id, r.payload, null);
      if r.id !in nodes {
        order := order + [r.id];
      }
      ValuesOfUpdate(nodes, r.id, node);
      nodes := nodes[r.id := node];
      parents := parents[r.id := r.parentId];
    }
    assert records[..|records|] == records;
    DictWellFormed(records);
  }

  lemma KidIdsSnoc(d: Dict, keys: seq<int>, k: int, id: int)
    requires Known(d, keys) && k in d.records
    ensures Known(d, keys + [k])
    ensures KidIds(d, keys + [k], id) == KidIds(d, keys, id) + if d.records[k].parentId == Some(id) then [k] else []
  {
    assert (keys + [k])[..|keys|] == keys;
  }

  lemma NodesOfSnoc(nodes: map<int, Node>, ids: seq<int>, k: int)
    requires k in nodes && forall i :: 0 <= i < |ids| ==> ids[i] in nodes
    ensures NodesOf(nodes, ids + [k]) == NodesOf(nodes, ids) + [nodes[k]]
  {
  }

  /** One turn of the second loop. */
  method LinkOne(ghost d: Dict, nodes: map<int, Node>, ghost keys: seq<int>, k: int, parentId: Option<int>)
    requires nodes.Keys == d.records.Keys && Known(d, keys) && AllLinkedUpTo(d, nodes, keys)
    requires k in nodes && k !in keys && parentId == d.records[k].parentId
    requires parentId.Some? ==> parentId.value in nodes
    modifies nodes.Values
    ensures Known(d, keys + [k]) && AllLinkedUpTo(d, nodes, keys + [k])
  {
    assert forall id <- nodes :: LinkedUpTo(d, nodes, keys, id);
    if parentId != None {
      nodes[parentId.value].AddChild(nodes[k]);
    }
    forall id | id in nodes
      ensures Known(d, keys + [k])
      ensures LinkedUpTo(d, nodes, keys + [k], id)
    {
      assert old(LinkedUpTo(d, nodes, keys, id));
      KidIdsAmong(d, keys, id);
      KidIdsSnoc(d, keys, k, id);
      NodesOfSnoc(nodes, KidIds(d, keys, id), k);
      assert nodes[id].nodeId == id;
      assert id != k ==> nodes[id] != nodes[k];
      assert parentId.Some? && id != parentId.value ==> nodes[id] != nodes[parentId.value];
    }
    assert Known(d, keys + [k]);
  }

  lemma MissingStep(d: Dict, order: seq<int>, k: nat)
    requires Known(d, order) && k < |order|
    ensures
      var p := d.records[order[k]].parentId;
      FirstMissing(d, order[k..]) == if p.Some? && p.value !in d.records then p else FirstMissing(d, order[k + 1..])
  {
    assert order[k..][1..] == order[k + 1..];
  }

  lemma KeyBehind(order: seq<int>, k: nat)
    requires Distinct(order) && k < |order|
    ensures order[k] !in order[..k] && order[..k + 1] == order[..k] + [order[k]]
  {
  }

  method LinkNodes(ghost d: Dict, nodes: map<int, Node>, order: seq<int>, parents: map<int, Option<int>>)
    returns (missing: Option<int>)
    requires WellFormed(d) && order == d.order && nodes.Keys == parents.Keys == d.records.Keys
    requires forall id <- parents :: parents[id] == d.records[id].parentId
    requires AllLinkedUpTo(d, nodes, [])
    modifies nodes.Values
    ensures Known(d, order) && missing == FirstMissing(d, order)
    ensures missing == None ==> AllLinkedUpTo(d, nodes, order)
  {
    assert order[0..] == order;
    ghost var linked: seq<int> := [];
    for k := 0 to |order|
      invariant linked == order[..k] && Known(d, linked) && AllLinkedUpTo(d, nodes, linked)
      invariant FirstMissing(d, order[k..]) == FirstMissing(d, order)
    {
      var (id, parentId) := (order[k], parents[order[k]]);
      MissingStep(d, order, k);
      if parentId.Some? && parentId.value !in nodes {
        return parentId;
      }
      KeyBehind(order, k);
      LinkOne(d, nodes, linked, id, parentId);
      linked := linked + [id];
    }
    assert order[..|order|] == order;
    missing := None;
  }

  method FindRoot(ghost d: Dict, nodes: map<int, Node>, order: seq<int>, parents: map<int, Option<int>>)
    returns (root: Option<int>)
    requires Known(d, order) && nodes.Keys == parents.Keys == d.records.Keys
    requires forall id <- parents :: parents[id] == d.records[id].parentId
    ensures root == FirstRoot(d, order)
    ensures root.Some? ==> root.value in nodes
  {
    assert order[0..] == order;
    for k := 0 to |order|
      invariant FirstRoot(d, order[k..]) == FirstRoot(d, order)
    {
      assert order[k..][1..] == order[k + 1..] && order[k..][0] == order[k];
      assert parents[order[k]] == d.records[order[k]].parentId;
      if parents[order[k]] == None {
        return Some(order[k]);
      }
    }
    root := None;
  }

  /** The nodes that the rebuild makes, by id, and its result: the root, or the error it raises. */
  method ReconstructFromList(records: seq<Record>) returns (r: Result<Node, RebuildError>, ghost nodes: map<int, Node>)
    ensures
      var d := DictOf(records);
      && WellFormed(d) && Known(d, d.order) && nodes.Keys == d.records.Keys
      && fresh(nodes.Values)
      && match r {
        case Err(MissingParent(id)) => FirstMissing(d, d.order) == Some(id)
        case Err(NoRoot) => FirstMissing(d, d.order) == None && FirstRoot(d, d.order) == None
        case Ok(root) =>
          && FirstMissing(d, d.order) == None && AllLinkedUpTo(d, nodes, d.order)
          && FirstRoot(d, d.order).Some? && FirstRoot(d, d.order).value in nodes
          && root == nodes[FirstRoot(d, d.order).value]
      }
  {
    ghost var d := DictOf(records);
    var nodesById, order, parents := MakeNodes(records);
    nodes := nodesById;
    var missing := LinkNodes(d, nodesById, order, parents);
    if missing.Some? {
      return Err(MissingParent(missing.value)), nodes;
    }
    var root := FindRoot(d, nodesById, order, parents);
    if root == None {
      return Err(NoRoot), nodes;
    }
    r := Ok(nodesById[root.value]);
  }
}
