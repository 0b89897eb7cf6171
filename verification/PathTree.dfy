/**
 The path tree of the code-block index: it holds which block paths are shown. Added to and merged in place;
 as a value it stands for a set of paths, and is determined by that set.
 */
module PathTree {

  type Path = seq<string>

  datatype Trie = Trie(show: bool, kids: map<string, Trie>)

  const EMPTY := Trie(false, map[])

  /** What the tree stands for. */
  predicate Shown(t: Trie, p: Path) {
    if p == [] then t.show else p[0] in t.kids && Shown(t.kids[p[0]], p[1..])
  }

  function Kid(t: Trie, key: string): Trie {
    if key in t.kids then t.kids[key] else EMPTY
  }

  function Added(t: Trie, p: Path): Trie
    decreases |p|
  {
    if p == [] then t.(show := true) else t.(kids := t.kids[p[0] := Added(Kid(t, p[0]), p[1..])])
  }

  function Merged(t: Trie, u: Trie): Trie
    decreases u
  {
    Trie(t.show || u.show,
         map key | key in t.kids.Keys + u.kids.Keys ::
           if key in u.kids then Merged(Kid(t, key), u.kids[key]) else t.kids[key])
  }

  function AddedAll(t: Trie, paths: seq<Path>): Trie
    decreases |paths|
  {
    if paths == [] then t else AddedAll(Added(t, paths[0]), paths[1..])
  }

  /** Below the root nothing is kept that shows nothing. */
  ghost predicate Tidy(t: Trie) {
    forall key <- t.kids :: t.kids[key] != EMPTY && Tidy(t.kids[key])
  }

  // ---------- the set of shown paths ----------

  lemma {:induction false} AddedShows(t: Trie, p: Path, q: Path)
    ensures Shown(Added(t, p), q) <==> Shown(t, q) || q == p
    decreases |p|
  {
    if p != [] && q != [] && p[0] == q[0] {
      AddedShows(Kid(t, p[0]), p[1..], q[1..]);
      assert q == p <==> q[1..] == p[1..] by {
        assert q == [q[0]] + q[1..] && p == [p[0]] + p[1..];
      }
      EmptyShows(q[1..]);
    }
  }

  lemma EmptyShows(q: Path)
    ensures !Shown(EMPTY, q)
  {
  }

  lemma {:induction false} MergedShows(t: Trie, u: Trie, q: Path)
    ensures Shown(Merged(t, u), q) <==> Shown(t, q) || Shown(u, q)
    decreases |q|
  {
    if q != [] && q[0] in u.kids {
      MergedShows(Kid(t, q[0]), u.kids[q[0]], q[1..]);
      EmptyShows(q[1..]);
    }
  }

  lemma {:induction false} AddedAllShows(t: Trie, paths: seq<Path>, q: Path)
    ensures Shown(AddedAll(t, paths), q) <==> Shown(t, q) || q in paths
    decreases |paths|
  {
    if paths != [] {
      AddedShows(t, paths[0], q);
      AddedAllShows(Added(t, paths[0]), paths[1..], q);
      assert q in paths <==> q == paths[0] || q in paths[1..];
    }
  }

  /** A tree made from paths shows these paths and no others. */
  lemma PathsShown(paths: seq<Path>, q: Path)
    ensures Shown(AddedAll(EMPTY, paths), q) <==> q in paths
  {
    AddedAllShows(EMPTY, paths, q);
    EmptyShows(q);
  }

  // ---------- nothing superfluous ----------

  lemma {:induction false} AddedTidy(t: Trie, p: Path)
    requires Tidy(t)
    ensures Tidy(Added(t, p)) && Added(t, p) != EMPTY
    decreases |p|
  {
    if p != [] {
      AddedTidy(Kid(t, p[0]), p[1..]);
      assert p[0] in Added(t, p).kids;
    }
  }

  lemma {:induction false} AddedAllTidy(t: Trie, paths: seq<Path>)
    requires Tidy(t)
    ensures Tidy(AddedAll(t, paths))
    decreases |paths|
  {
    if paths != [] {
      AddedTidy(t, paths[0]);
      AddedAllTidy(Added(t, paths[0]), paths[1..]);
    }
  }

  lemma {:induction false} MergedTidy(t: Trie, u: Trie)
    requires Tidy(t) && Tidy(u)
    ensures Tidy(Merged(t, u)) && (u != EMPTY ==> Merged(t, u) != EMPTY)
    decreases u
  {
    forall key | key in u.kids
      ensures Tidy(Merged(t, u).kids[key]) && Merged(t, u).kids[key] != EMPTY
    {
      MergedTidy(Kid(t, key), u.kids[key]);
    }
    if u.kids != map[] {
      var key :| key in u.kids;
      assert key in Merged(t, u).kids;
    }
  }

  /** A tidy tree that is not empty shows a path. */
  lemma {:induction false} SomeShown(t: Trie) returns (p: Path)
    requires Tidy(t) && t != EMPTY
    ensures Shown(t, p)
  {
    if t.show {
      p := [];
    } else {
      assert t.kids != map[];
      var key :| key in t.kids;
      var rest := SomeShown(t.kids[key]);
      p := [key] + rest;
      assert p[1..] == rest;
    }
  }

  // ---------- the set determines the tree ----------

  ghost predicate SameShown(t: Trie, u: Trie) {
    forall p :: Shown(t, p) <==> Shown(u, p)
  }

  lemma KidsShown(t: Trie, u: Trie, key: string)
    requires SameShown(t, u) && Tidy(t) && key in t.kids
    ensures key in u.kids && SameShown(t.kids[key], u.kids[key])
  {
    var shown := SomeShown(t.kids[key]);
    forall p: Path ensures Shown(t.kids[key], p) <==> key in u.kids && Shown(u.kids[key], p) {
      assert ([key] + p)[1..] == p;
      assert Shown(t, [key] + p) <==> Shown(u, [key] + p);
    }
    assert Shown(t.kids[key], shown);
  }

  /** Tidy trees are equal exactly if they show the same paths. */
  lemma {:induction false} Canonical(t: Trie, u: Trie)
    requires Tidy(t) && Tidy(u)
    ensures t == u <==> SameShown(t, u)
    decreases t
  {
    if SameShown(t, u) {
      assert Shown(t, []) <==> Shown(u, []);
      forall key | key in t.kids ensures key in u.kids && t.kids[key] == u.kids[key] {
        KidsShown(t, u, key);
        Canonical(t.kids[key], u.kids[key]);
      }
      forall key | key in u.kids ensures key in t.kids {
        KidsShown(u, t, key);
      }
      assert t.kids == u.kids;
    }
  }

  /** Neither the order nor the repetition of the paths matters. */
  lemma OrderIsIrrelevant(ps: seq<Path>, qs: seq<Path>)
    ensures AddedAll(EMPTY, ps) == AddedAll(EMPTY, qs) <==> (forall p :: p in ps <==> p in qs)
  {
    AddedAllTidy(EMPTY, ps);
    AddedAllTidy(EMPTY, qs);
    Canonical(AddedAll(EMPTY, ps), AddedAll(EMPTY, qs));
    forall p ensures Shown(AddedAll(EMPTY, ps), p) <==> p in ps {
      PathsShown(ps, p);
    }
    forall p ensures Shown(AddedAll(EMPTY, qs), p) <==> p in qs {
      PathsShown(qs, p);
    }
  }

  /** Merging is adding the other tree's paths. */
  lemma MergeIsUnion(ps: seq<Path>, qs: seq<Path>)
    ensures Merged(AddedAll(EMPTY, ps), AddedAll(EMPTY, qs)) == AddedAll(EMPTY, ps + qs)
  {
    var (t, u) := (AddedAll(EMPTY, ps), AddedAll(EMPTY, qs));
    AddedAllTidy(EMPTY, ps);
    AddedAllTidy(EMPTY, qs);
    AddedAllTidy(EMPTY, ps + qs);
    MergedTidy(t, u);
    forall p ensures Shown(Merged(t, u), p) <==> Shown(AddedAll(EMPTY, ps + qs), p) {
      MergedShows(t, u, p);
      AddedAllShows(EMPTY, ps, p);
      AddedAllShows(EMPTY, qs, p);
      AddedAllShows(EMPTY, ps + qs, p);
    }
    Canonical(Merged(t, u), AddedAll(EMPTY, ps + qs));
  }

  // ---------- one step of adding ----------

  function WithKid(t: Trie, key: string, kid: Trie): Trie {
    Trie(t.show, t.kids[key := kid])
  }

  lemma WithKidTwice(t: Trie, key: string, kid: Trie, other: Trie)
    ensures WithKid(WithKid(t, key, kid), key, other) == WithKid(t, key, other)
  {
    assert t.kids[key := kid][key := other] == t.kids[key := other];
  }

  lemma AddedBelow(t: Trie, p: Path)
    requires p != [] && p[0] in t.kids
    ensures Added(t, p) == WithKid(t, p[0], Added(t.kids[p[0]], p[1..]))
  {
  }

  lemma AddedNew(t: Trie, p: Path, n: Trie)
    requires p != [] && p[0] !in t.kids && n == WithKid(t, p[0], Trie(|p| == 1, map[]))
    ensures Added(t, p) == if |p| == 1 then n else Added(n, p)
  {
    if |p| > 1 {
      assert n.kids[p[0]] == EMPTY;
      assert n.kids[p[0] := Added(EMPTY, p[1..])] == t.kids[p[0] := Added(EMPTY, p[1..])];
    }
  }

  // ---------- merging key by key ----------

  /** The keys in `done` merged, the others still as they were. */
  function MergedPart(t: Trie, u: Trie, done: set<string>): Trie
    requires done <= u.kids.Keys
  {
    Trie(t.show || u.show,
         map key | key in t.kids.Keys + done ::
           if key in done then Merged(Kid(t, key), u.kids[key]) else t.kids[key])
  }

  lemma MergedStep(t: Trie, u: Trie, done: set<string>, key: string)
    requires done <= u.kids.Keys && key in u.kids && key !in done
    ensures
      var part := MergedPart(t, u, done);
      && Kid(part, key) == Kid(t, key)
      && MergedPart(t, u, done + {key}) == WithKid(part, key, Merged(Kid(t, key), u.kids[key]))
  {
    var part := MergedPart(t, u, done);
    assert MergedPart(t, u, done + {key}).kids == WithKid(part, key, Merged(Kid(t, key), u.kids[key])).kids;
  }

  lemma MergedEnds(t: Trie, u: Trie)
    ensures MergedPart(t, u, {}) == Trie(t.show || u.show, t.kids)
    ensures MergedPart(t, u, u.kids.Keys) == Merged(t, u)
  {
    assert MergedPart(t, u, {}).kids == t.kids;
    assert MergedPart(t, u, u.kids.Keys).kids == Merged(t, u).kids;
  }

  lemma {:induction false} MergedSame(t: Trie)
    ensures Merged(t, t) == t
  {
    forall key | key in t.kids ensures Merged(t.kids[key], t.kids[key]) == t.kids[key] {
      MergedSame(t.kids[key]);
    }
    assert Merged(t, t).kids == t.kids;
  }

  lemma MergedPartSame(t: Trie, done: set<string>)
    requires done <= t.kids.Keys
    ensures MergedPart(t, t, done) == t
  {
    forall key | key in done ensures Merged(t.kids[key], t.kids[key]) == t.kids[key] {
      MergedSame(t.kids[key]);
    }
    assert MergedPart(t, t, done).kids == t.kids;
  }

  // ---------- the tree in memory ----------

  class PathTree {
    var show: bool
    var tree: map<string, PathTree>
    /** This node and all below it. */
    ghost var repr: set<PathTree>
    /** What this node and those below it amount to. */
    ghost var value: Trie

    /** Every node below has one parent. */
    ghost predicate Valid()
      reads this, repr
      decreases repr
    {
      && this in repr
      && (forall key <- tree :: tree[key] in repr && tree[key].repr < repr && this !in tree[key].repr)
      && (forall key <- tree :: tree[key].Valid())
      && (forall key, other :: key in tree && other in tree && key != other ==> tree[key].repr !! tree[other].repr)
      && value.show == show && value.kids.Keys == tree.Keys
      && (forall key <- tree :: value.kids[key] == tree[key].value)
    }

    constructor (show: bool)
      ensures Valid() && fresh(repr) && value == Trie(show, map[])
    {
      this.show, tree, repr := show, map[], {this};
      value := Trie(show, map[]);
    }

    method SetShow()
      requires Valid()
      modifies this`show, this`value
      ensures Valid() && value == old(value).(show := true)
    {
      show := true;
      value := value.(show := true);
    }

    /** All is well but for what the child at `key` has become. */
    ghost predicate ValidBut(key: string)
      requires key in tree
      reads this, repr, tree[key], tree[key].repr
    {
      && this in repr && tree[key] in repr && this !in tree[key].repr && tree[key].Valid()
      && value.show == show && value.kids.Keys == tree.Keys
      && (forall k <- tree :: k != key ==> Unaffected(k, tree[key].repr))
      && (forall k, l :: k in tree && l in tree && k != key && l != key && k != l ==> tree[k].repr !! tree[l].repr)
    }

    ghost predicate Unaffected(k: string, changed: set<PathTree>)
      requires k in tree
      reads this, repr
    {
      && tree[k] in repr && tree[k].repr < repr && this !in tree[k].repr && tree[k].Valid()
      && tree[k].repr !! changed && k in value.kids && value.kids[k] == tree[k].value
    }

    ghost method TakeOver(key: string)
      requires key in tree && ValidBut(key)
      modifies this`repr, this`value
      ensures Valid() && repr == old(repr) + tree[key].repr
      ensures value == WithKid(old(value), key, tree[key].value)
    {
      ghost var child := tree[key];
      forall k | k in tree && k != key ensures Unaffected(k, child.repr) {
      }
      repr := repr + child.repr;
      value := WithKid(value, key, child.value);
      forall k | k in tree && k != key
        ensures tree[k] in repr && tree[k].repr < repr && this !in tree[k].repr && tree[k].Valid()
        ensures tree[k].repr !! child.repr && value.kids[k] == tree[k].value
      {
      }
      assert child.Valid() && child.repr < repr && value.kids[key] == child.value;
    }

    method PutChild(key: string, child: PathTree)
      requires Valid() && key !in tree && child.Valid() && child.repr !! repr
      modifies this
      ensures Valid() && repr == old(repr) + child.repr
      ensures key in tree && value == WithKid(old(value), key, child.value)
    {
      repr := repr + child.repr;
      tree, value := tree[key := child], WithKid(value, key, child.value);
      forall k | k in tree && k != key
        ensures tree[k] in repr && tree[k].repr < repr && this !in tree[k].repr && tree[k].Valid()
        ensures tree[k].repr !! child.repr && value.kids[k] == tree[k].value
      {
        assert k in old(tree);
      }
      assert child.Valid() && child.repr < repr;
    }

    method NewChild(key: string, shown: bool)
      requires Valid() && key !in tree
      modifies this
      ensures Valid() && fresh(repr - old(repr))
      ensures key in tree && value == WithKid(old(value), key, Trie(shown, map[]))
    {
      var child := new PathTree(shown);
      PutChild(key, child);
    }

    /** The rest of the path goes into the child. */
    method AddBelow(path: Path)
      requires Valid() && path != [] && path[0] in tree
      modifies repr
      ensures Valid() && fresh(repr - old(repr))
      ensures value == WithKid(old(value), path[0], Added(old(value).kids[path[0]], path[1..]))
      decreases |path|, 0
    {
      var child := tree[path[0]];
      child.ShowOrAdd(path[1..]);
      TakeOver(path[0]);
    }

    /** At the end of the path the node is shown, else the path goes on from it. */
    method ShowOrAdd(path: Path)
      requires Valid()
      modifies repr
      ensures Valid() && fresh(repr - old(repr))
      ensures value == Added(old(value), path)
      decreases |path|, 2
    {
      if path == [] {
        SetShow();
      } else {
        AddToTree(path);
      }
    }

    method AddToTree(path: Path)
      requires Valid()
      modifies repr
      ensures Valid() && fresh(repr - old(repr))
      ensures value == Added(old(value), path)
      decreases |path|, 1
    {
      ghost var t := value;
      if |path| == 0 {
        SetShow();
      } else if path[0] in tree {
        AddedBelow(t, path);
        AddBelow(path);
      } else {
        NewChild(path[0], |path| == 1);
        AddedNew(t, path, value);
        if |path| > 1 {
          AddedBelow(value, path);
          AddBelow(path);
        }
      }
    }

    method MergeBelow(key: string, other: PathTree)
      requires Valid() && key in tree
      requires other.Valid() && (repr !! other.repr || tree[key] == other)
      modifies repr
      ensures Valid() && fresh(repr - old(repr))
      ensures value == WithKid(old(value), key, Merged(old(value).kids[key], old(other.value)))
      ensures other in old(repr) ==> repr == old(repr)
      decreases other.repr, 3
    {
      var child := tree[key];
      child.Merge(other);
      TakeOver(key);
    }

    method MergeKey(key: string, other: PathTree)
      requires Valid() && other.Valid() && (repr !! other.repr || (key in tree && tree[key] == other))
      modifies repr
      ensures Valid() && fresh(repr - old(repr))
      ensures value == WithKid(old(value), key, Merged(Kid(old(value), key), old(other.value)))
      ensures other in old(repr) ==> repr == old(repr)
      decreases other.repr, 4
    {
      ghost var t := value;
      if key !in tree {
        NewChild(key, false);
        WithKidTwice(t, key, EMPTY, Merged(EMPTY, other.value));
      }
      MergeBelow(key, other);
    }

    /** The children in `done` are merged. */
    ghost predicate Merging(t: Trie, other: PathTree, u: Trie, done: set<string>)
      reads this, repr, other, other.repr
    {
      && Valid() && other.Valid() && Mergeable(other) && other.value == u && (this == other ==> t == u)
      && done <= u.kids.Keys && value == MergedPart(t, u, done)
    }

    /** The trees share no node, or are the same. */
    ghost predicate Mergeable(other: PathTree)
      reads this, other
    {
      repr !! other.repr || this == other
    }

    /** Nothing was taken over from elsewhere. */
    twostate predicate OnlyNew(before: set<PathTree>)
      reads this
    {
      forall o <- repr :: o in before || fresh(o)
    }

    method MergeNext(key: string, other: PathTree, ghost t: Trie, ghost u: Trie, ghost done: set<string>)
      requires Merging(t, other, u, done) && key in other.tree && key !in done
      modifies repr
      ensures Merging(t, other, u, done + {key}) && OnlyNew(old(repr)) && (this == other ==> repr == old(repr))
      decreases other.repr, 0
    {
      MergedStep(t, u, done, key);
      MergedPartSame(u, done + {key});
      MergeKey(key, other.tree[key]);
    }

    method MergeAll(other: PathTree, ghost t: Trie, ghost u: Trie)
      requires Merging(t, other, u, {})
      modifies repr
      ensures Merging(t, other, u, u.kids.Keys) && OnlyNew(old(repr)) && (this == other ==> repr == old(repr))
      decreases other.repr, 1
    {
      ghost var done: set<string> := {};
      var left := other.tree.Keys;
      while left != {}
        invariant done + left == other.tree.Keys && done !! left
        invariant Merging(t, other, u, done) && OnlyNew(old(repr)) && (this == other ==> repr == old(repr))
      {
        var key :| key in left;
        MergeNext(key, other, t, u, done);
        left := left - {key};
        done := done + {key};
      }
      assert done == other.tree.Keys;
    }

    /** The two trees share no node, or are the same, which then stays as it is. */
    method Merge(other: PathTree)
      requires Valid() && other.Valid() && Mergeable(other)
      modifies repr
      ensures Valid() && fresh(repr - old(repr))
      ensures value == Merged(old(value), old(other.value))
      ensures this == other ==> value == old(value) && repr == old(repr)
      ensures this != other ==> other.Valid() && other.value == old(other.value)
      decreases other.repr, 2
    {
      ghost var (t, u) := (value, other.value);
      if other.show {
        SetShow();
      }
      MergedEnds(t, u);
      MergedSame(u);
      MergeAll(other, t, u);
    }

    static method FromBlockPaths(blockPaths: seq<Path>) returns (t: PathTree)
      ensures t.Valid() && fresh(t.repr)
      ensures t.value == AddedAll(EMPTY, blockPaths)
    {
      t := new PathTree(false);
      for i := 0 to |blockPaths|
        invariant t.Valid() && fresh(t.repr)
        invariant AddedAll(t.value, blockPaths[i..]) == AddedAll(EMPTY, blockPaths)
      {
        assert blockPaths[i..][1..] == blockPaths[i + 1..];
        t.AddToTree(blockPaths[i]);
      }
    }
  }
}
