/**
 Search trees as values, the flat list they are dumped to, and the tree that a flat list describes
 (`Node.dump_as_list`, `Node._reconstruct_from_list`).
 */
module TreeDump {
  import opened Prelude

  datatype Tree = Tree(id: int, payload: string, kids: seq<Tree>)

  /** One entry of the flat list. */
  datatype Record = Record(id: int, payload: string, parentId: Option<int>)

  // ---------- preorder ----------

  function Ids(t: Tree): seq<int>
    decreases t
  {
    [t.id] + ForestIds(t.kids)
  }

  function ForestIds(ts: seq<Tree>): seq<int>
    decreases ts
  {
    if ts == [] then [] else Ids(ts[0]) + ForestIds(ts[1..])
  }

  function RootIds(ts: seq<Tree>): (r: seq<int>)
    ensures |r| == |ts|
  {
    if ts == [] then [] else [ts[0].id] + RootIds(ts[1..])
  }

  /** The dump: every node in preorder, with the id of its parent. */
  function Dump(t: Tree, parentId: Option<int>): seq<Record>
    decreases t
  {
    [Record(t.id, t.payload, parentId)] + DumpForest(t.kids, Some(t.id))
  }

  function DumpForest(ts: seq<Tree>, parentId: Option<int>): seq<Record>
    decreases ts
  {
    if ts == [] then [] else Dump(ts[0], parentId) + DumpForest(ts[1..], parentId)
  }

  // ---------- the children a list gives an id ----------

  function KidOf(r: Record, id: int): seq<int> {
    if r.parentId == Some(id) then [r.id] else []
  }

  function KidsOf(records: seq<Record>, id: int): seq<int> {
    if records == [] then [] else KidOf(records[0], id) + KidsOf(records[1..], id)
  }

  lemma KidsOfCons(r: Record, rest: seq<Record>, id: int)
    ensures KidsOf([r] + rest, id) == KidOf(r, id) + KidsOf(rest, id)
  {
    assert ([r] + rest)[1..] == rest;
  }

  lemma {:induction false} KidsOfConcat(a: seq<Record>, b: seq<Record>, id: int)
    ensures KidsOf(a + b, id) == KidsOf(a, id) + KidsOf(b, id)
  {
    if a == [] {
      assert a + b == b;
    } else {
      KidsOfConcat(a[1..], b, id);
      assert a + b == [a[0]] + (a[1..] + b);
      KidsOfCons(a[0], a[1..] + b, id);
      Regroup(KidOf(a[0], id), KidsOf(a[1..], id), KidsOf(b, id));
    }
  }

  /** Below a forest only its roots have the outer parent, and an id that is not there has no children. */
  lemma {:induction false} KidsInForest(ts: seq<Tree>, parentId: Option<int>, id: int)
    requires id !in ForestIds(ts)
    ensures KidsOf(DumpForest(ts, parentId), id) == if parentId == Some(id) then RootIds(ts) else []
    decreases ts
  {
    if ts != [] {
      KidsInTree(ts[0], parentId, id);
      KidsInForest(ts[1..], parentId, id);
      KidsOfConcat(Dump(ts[0], parentId), DumpForest(ts[1..], parentId), id);
    }
  }

  lemma {:induction false} KidsInTree(t: Tree, parentId: Option<int>, id: int)
    requires id !in Ids(t)
    ensures KidsOf(Dump(t, parentId), id) == if parentId == Some(id) then [t.id] else []
    decreases t
  {
    assert t.id in Ids(t) && id !in ForestIds(t.kids);
    KidsInForest(t.kids, Some(t.id), id);
    KidsOfConcat([Record(t.id, t.payload, parentId)], DumpForest(t.kids, Some(t.id)), id);
    assert KidsOf([Record(t.id, t.payload, parentId)], id) == if parentId == Some(id) then [t.id] else [];
  }

  // ---------- the tree a list describes ----------

  /** Every node of the tree is recorded, and the records give it its children in order. */
  ghost predicate Describes(records: seq<Record>, t: Tree)
    decreases t
  {
    && KidsOf(records, t.id) == RootIds(t.kids)
    && DescribesAll(records, t.kids)
  }

  ghost predicate DescribesAll(records: seq<Record>, ts: seq<Tree>)
    decreases ts
  {
    ts == [] || (Describes(records, ts[0]) && DescribesAll(records, ts[1..]))
  }

  /** For the ids of a forest the records say what the dump of the forest alone says. */
  ghost predicate Agrees(records: seq<Record>, ts: seq<Tree>, parentId: Option<int>) {
    forall x <- ForestIds(ts) :: KidsOf(records, x) == KidsOf(DumpForest(ts, parentId), x)
  }

  lemma DistinctConcat(a: seq<int>, b: seq<int>)
    requires Distinct(a + b)
    ensures Distinct(a) && Distinct(b)
    ensures forall x <- a :: x !in b
  {
    forall i, j | 0 <= i < j < |a| ensures a[i] != a[j] {
      assert (a + b)[i] == a[i] && (a + b)[j] == a[j];
    }
    forall i, j | 0 <= i < j < |b| ensures b[i] != b[j] {
      assert (a + b)[|a| + i] == b[i] && (a + b)[|a| + j] == b[j];
    }
    forall i, j | 0 <= i < |a| && 0 <= j < |b| ensures a[i] != b[j] {
      assert (a + b)[i] == a[i] && (a + b)[|a| + j] == b[j];
    }
  }

  lemma AgreesSplit(records: seq<Record>, ts: seq<Tree>, parentId: Option<int>)
    requires ts != [] && Agrees(records, ts, parentId) && Distinct(ForestIds(ts))
    requires forall x <- ForestIds(ts) :: parentId != Some(x)
    ensures Agrees(records, [ts[0]], parentId) && Agrees(records, ts[1..], parentId)
  {
    var (t, rest) := (ts[0], ts[1..]);
    DistinctConcat(Ids(t), ForestIds(rest));
    OneTree(t, parentId);
    forall x | x in Ids(t) ensures KidsOf(records, x) == KidsOf(Dump(t, parentId), x) {
      KidsOfConcat(Dump(t, parentId), DumpForest(rest, parentId), x);
      KidsInForest(rest, parentId, x);
      assert x in ForestIds(ts);
    }
    forall x | x in ForestIds(rest) ensures KidsOf(records, x) == KidsOf(DumpForest(rest, parentId), x) {
      KidsOfConcat(Dump(t, parentId), DumpForest(rest, parentId), x);
      KidsInTree(t, parentId, x);
      assert x in ForestIds(ts);
    }
  }

  lemma OneTree(t: Tree, parentId: Option<int>)
    ensures ForestIds([t]) == Ids(t) && DumpForest([t], parentId) == Dump(t, parentId)
  {
    assert [t][1..] == [];
    assert ForestIds([t]) == Ids(t) + [] && DumpForest([t], parentId) == Dump(t, parentId) + [];
  }

  lemma AgreesBelow(records: seq<Record>, t: Tree, parentId: Option<int>)
    requires Agrees(records, [t], parentId) && Distinct(Ids(t))
    requires forall x <- Ids(t) :: parentId != Some(x)
    ensures KidsOf(records, t.id) == RootIds(t.kids)
    ensures Agrees(records, t.kids, Some(t.id))
    ensures Distinct(ForestIds(t.kids)) && t.id !in ForestIds(t.kids)
  {
    var (head, below) := ([Record(t.id, t.payload, parentId)], DumpForest(t.kids, Some(t.id)));
    OneTree(t, parentId);
    DistinctConcat([t.id], ForestIds(t.kids));
    assert t.id in [t.id] && t.id in Ids(t);
    KidsInForest(t.kids, Some(t.id), t.id);
    forall x | x in Ids(t) ensures KidsOf(records, x) == KidsOf(below, x) {
      KidsOfConcat(head, below, x);
      assert KidsOf(head, x) == [];
    }
  }

  lemma {:induction false} AgreementDescribes(records: seq<Record>, ts: seq<Tree>, parentId: Option<int>)
    requires Agrees(records, ts, parentId) && Distinct(ForestIds(ts))
    requires forall x <- ForestIds(ts) :: parentId != Some(x)
    ensures DescribesAll(records, ts)
    decreases ts
  {
    if ts != [] {
      AgreesSplit(records, ts, parentId);
      DistinctConcat(Ids(ts[0]), ForestIds(ts[1..]));
      AgreesBelow(records, ts[0], parentId);
      AgreementDescribes(records, ts[0].kids, Some(ts[0].id));
      AgreementDescribes(records, ts[1..], parentId);
    }
  }

  /** The dump of a tree with distinct ids describes that very tree. */
  lemma DumpDescribes(t: Tree)
    requires Distinct(Ids(t))
    ensures Describes(Dump(t, None), t)
  {
    OneTree(t, None);
    AgreementDescribes(Dump(t, None), [t], None);
  }

  // ---------- any order ----------

  /** The first record of a list, taken out of a reordered one. */
  lemma TakeOut(a: seq<Record>, b: seq<Record>) returns (front: seq<Record>, back: seq<Record>)
    requires a != [] && multiset(a) == multiset(b)
    ensures b == front + ([a[0]] + back) && multiset(a[1..]) == multiset(front + back)
  {
    assert a[0] in multiset(b);
    var k :| 0 <= k < |b| && b[k] == a[0];
    front, back := b[..k], b[k + 1..];
    assert b == front + ([a[0]] + back) && a == [a[0]] + a[1..];
    WithoutOne(front, a[0], back, a[1..]);
  }

  /** Reordering the records only reorders the children of an id. */
  lemma {:induction false} KidsOfPermuted(a: seq<Record>, b: seq<Record>, id: int)
    requires multiset(a) == multiset(b)
    ensures multiset(KidsOf(a, id)) == multiset(KidsOf(b, id))
  {
    if a == [] {
      assert |b| == |multiset(b)| == 0;
    } else {
      var front, back := TakeOut(a, b);
      KidsOfPermuted(a[1..], front + back, id);
      KidsAround(front, a[0], back, id);
      KidsFirst(a, id);
    }
  }

  lemma KidsFirst(records: seq<Record>, id: int)
    requires records != []
    ensures multiset(KidsOf(records, id)) == multiset(KidOf(records[0], id)) + multiset(KidsOf(records[1..], id))
  {
  }

  lemma KidsAround(front: seq<Record>, r: Record, back: seq<Record>, id: int)
    ensures multiset(KidsOf(front + ([r] + back), id)) == multiset(KidOf(r, id)) + multiset(KidsOf(front + back, id))
  {
    KidsOfConcat(front, [r] + back, id);
    KidsOfCons(r, back, id);
    KidsOfConcat(front, back, id);
  }

  lemma WithoutOne(front: seq<Record>, r: Record, back: seq<Record>, rest: seq<Record>)
    requires multiset([r] + rest) == multiset(front + ([r] + back))
    ensures multiset(rest) == multiset(front + back)
  {
    assert multiset([r] + rest) == multiset{r} + multiset(rest);
    assert multiset(front + ([r] + back)) == multiset(front) + (multiset{r} + multiset(back));
    assert multiset(front + back) == multiset(front) + multiset(back);
    forall x ensures multiset(rest)[x] == multiset(front + back)[x] {
      assert (multiset{r} + multiset(rest))[x] == (multiset(front) + (multiset{r} + multiset(back)))[x];
    }
  }

  // ---------- the dictionary of the rebuild ----------

  /** `nodes_by_id`: the keys in insertion order, and for every key the last record with it. */
  datatype Dict = Dict(order: seq<int>, records: map<int, Record>)

  function Insert(d: Dict, r: Record): Dict {
    Dict(if r.id in d.records then d.order else d.order + [r.id], d.records[r.id := r])
  }

  function DictOf(records: seq<Record>): Dict {
    if records == [] then Dict([], map[]) else
      Insert(DictOf(records[..|records| - 1]), records[|records| - 1])
  }

  predicate Known(d: Dict, keys: seq<int>) {
    forall i :: 0 <= i < |keys| ==> keys[i] in d.records
  }

  ghost predicate WellFormed(d: Dict) {
    && Distinct(d.order) && Known(d, d.order)
    && (forall id <- d.records :: id in d.order && d.records[id].id == id)
  }

  lemma InsertWellFormed(d: Dict, r: Record)
    requires WellFormed(d)
    ensures WellFormed(Insert(d, r))
  {
    var e := Insert(d, r);
    forall id | id in e.records ensures id in e.order {
      if id == r.id && r.id !in d.records {
        assert e.order[|d.order|] == id;
      }
    }
  }

  lemma {:induction false} DictWellFormed(records: seq<Record>)
    ensures WellFormed(DictOf(records))
  {
    if records != [] {
      var n := |records| - 1;
      DictWellFormed(records[..n]);
      InsertWellFormed(DictOf(records[..n]), records[n]);
    }
  }

  /** For every list: an id stands for the last record that has it, */
  lemma {:induction false} LastRecordWins(records: seq<Record>, k: nat)
    requires k < |records| && forall j :: k < j < |records| ==> records[j].id != records[k].id
    ensures records[k].id in DictOf(records).records && DictOf(records).records[records[k].id] == records[k]
    decreases |records|
  {
    var n := |records| - 1;
    if k < n {
      LastRecordWins(records[..n], k);
    }
  }

  /** no other id is there, */
  lemma {:induction false} OnlyListedIds(records: seq<Record>, id: int)
    ensures id in DictOf(records).records <==> exists k :: 0 <= k < |records| && records[k].id == id
    decreases |records|
  {
    if records != [] {
      var n := |records| - 1;
      OnlyListedIds(records[..n], id);
      if k :| 0 <= k < n && records[k].id == id {
        assert records[..n][k].id == id;
      }
    }
  }

  /** and the ids come in the order of the first records that have them. */
  lemma {:induction false} FirstRecordsOrder(records: seq<Record>, a: nat, b: nat, j: nat) returns (i: nat)
    requires a < b < |DictOf(records).order| && j < |records| && records[j].id == DictOf(records).order[b]
    ensures i < j && records[i].id == DictOf(records).order[a]
    decreases |records|
  {
    var n := |records| - 1;
    var d := DictOf(records[..n]);
    DictWellFormed(records[..n]);
    DictWellFormed(records);
    if j < n {
      assert records[..n][j] == records[j];
      OnlyListedIds(records[..n], records[j].id);
      assert b < |d.order|;
      i := FirstRecordsOrder(records[..n], a, b, j);
    } else {
      OnlyListedIds(records[..n], d.order[a]);
      var k :| 0 <= k < n && records[..n][k].id == d.order[a];
      i := k;
    }
  }

  /** The children the rebuild gives an id, from the keys in order. */
  function KidIds(d: Dict, keys: seq<int>, id: int): seq<int>
    requires Known(d, keys)
  {
    if keys == [] then [] else
      var k := keys[|keys| - 1];
      KidIds(d, keys[..|keys| - 1], id) + if d.records[k].parentId == Some(id) then [k] else []
  }

  function RecordIds(records: seq<Record>): (r: seq<int>)
    ensures |r| == |records|
    ensures forall k :: 0 <= k < |r| ==> r[k] == records[k].id
  {
    seq(|records|, k requires 0 <= k < |records| => records[k].id)
  }

  lemma DistinctFront(records: seq<Record>)
    requires records != [] && Distinct(RecordIds(records))
    ensures
      var (n, init) := (|records| - 1, records[..|records| - 1]);
      && Distinct(RecordIds(init)) && records[n].id !in RecordIds(init)
      && RecordIds(records) == RecordIds(init) + [records[n].id]
  {
    var (n, init) := (|records| - 1, records[..|records| - 1]);
    assert RecordIds(init) == RecordIds(records)[..n];
    forall i, j | 0 <= i < j < n ensures RecordIds(init)[i] != RecordIds(init)[j] {
      assert RecordIds(records)[i] != RecordIds(records)[j];
    }
    forall k | 0 <= k < n ensures records[k].id != records[n].id {
      assert RecordIds(records)[k] != RecordIds(records)[n];
    }
  }

  /** With distinct ids nothing is overwritten. */
  lemma {:induction false} DistinctDict(records: seq<Record>)
    requires Distinct(RecordIds(records))
    ensures DictOf(records).order == RecordIds(records)
    ensures forall r <- records :: r.id in DictOf(records).records && DictOf(records).records[r.id] == r
  {
    if records != [] {
      var (n, init) := (|records| - 1, records[..|records| - 1]);
      DistinctFront(records);
      DistinctDict(init);
      DictWellFormed(init);
      assert records == init + [records[n]];
    }
  }
}
