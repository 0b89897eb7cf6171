/**
 Code blocks, which the parser chains through `next` in the order it meets them, and the search for the blocks
 of a line range, which goes along that chain and stops early.
 */
module BlockScan {
  import opened Prelude

  /** What the parser goes through. */
  datatype Syntax = Syntax(startLine: int, endLine: int, children: seq<Syntax>)

  class CodeBlock {
    const startLine: int
    const endLine: int
    var next: CodeBlock?

    constructor (startLine: int, endLine: int)
      ensures this.startLine == startLine && this.endLine == endLine && next == null
    {
      this.startLine, this.endLine, next := startLine, endLine, null;
    }

    /** Any part of the block is within the lines. */
    predicate HasLines(startLine: int, endLine: Option<int>) {
      match endLine
      case None => this.endLine >= startLine
      case Some(e) => !(this.endLine < startLine || this.startLine > e)
    }

    method FindBlocksByLineNumbers(startLine: int, endLine: Option<int>, includeParents: bool,
            ghost chain: seq<CodeBlock>)
      returns (blocks: seq<CodeBlock>)
      requires Chained(chain) && chain[0] == this && Sorted(chain)
      requires forall b <- chain :: b.startLine <= b.endLine
      ensures blocks == Select(chain[..|chain| - 1], Query(startLine, endLine, includeParents))
    {
      ghost var q := Query(startLine, endLine, includeParents);
      ghost var inner := chain[..|chain| - 1];
      blocks := [];
      var block := this;
      ghost var k := 0;
      assert inner[0..] == inner && [] + Select(inner, q) == Select(inner, q);
      while block.next != null && (endLine.None? || block.startLine <= endLine.value)
        invariant 0 <= k < |chain| && block == chain[k]
        invariant blocks + Select(inner[k..], q) == Select(inner, q)
        decreases |chain| - k
      {
        SelectNext(inner, k, q, blocks);
        if (includeParents && block.HasLines(startLine, endLine)) || block.startLine >= startLine {
          blocks := blocks + [block];
        }
        block := block.next;
        k := k + 1;
      }
      NoneBehind(chain, k, q);
      assert blocks + [] == blocks;
    }
  }

  ghost predicate Chained(chain: seq<CodeBlock>)
    reads chain
  {
    && chain != [] && chain[|chain| - 1].next == null
    && forall k :: 0 <= k < |chain| - 1 ==> chain[k].next == chain[k + 1]
  }

  ghost predicate Sorted(chain: seq<CodeBlock>) {
    forall i, j :: 0 <= i <= j < |chain| ==> chain[i].startLine <= chain[j].startLine
  }

  // ---------- the full filter ----------

  datatype Query = Query(startLine: int, endLine: Option<int>, includeParents: bool)

  /** With parents a block must reach into the lines, without them it must start there. */
  predicate Wanted(b: CodeBlock, q: Query) {
    && (q.endLine.Some? ==> b.startLine <= q.endLine.value)
    && q.startLine <= if q.includeParents then b.endLine else b.startLine
  }

  function Select(blocks: seq<CodeBlock>, q: Query): seq<CodeBlock> {
    if blocks == [] then []
    else (if Wanted(blocks[0], q) then [blocks[0]] else []) + Select(blocks[1..], q)
  }

  lemma SelectNext(blocks: seq<CodeBlock>, k: nat, q: Query, found: seq<CodeBlock>)
    requires k < |blocks|
    ensures
      found + Select(blocks[k..], q) ==
        (if Wanted(blocks[k], q) then found + [blocks[k]] else found) + Select(blocks[k + 1..], q)
  {
    assert blocks[k..][1..] == blocks[k + 1..];
    var rest := Select(blocks[k + 1..], q);
    assert found + ([blocks[k]] + rest) == found + [blocks[k]] + rest;
    assert [] + rest == rest;
  }

  lemma {:induction false} SelectConcat(a: seq<CodeBlock>, b: seq<CodeBlock>, q: Query)
    ensures Select(a + b, q) == Select(a, q) + Select(b, q)
  {
    if a == [] {
      assert a + b == b;
    } else {
      SelectConcat(a[1..], b, q);
      assert (a + b)[1..] == a[1..] + b;
    }
  }

  lemma {:induction false} SelectNone(blocks: seq<CodeBlock>, q: Query)
    requires forall b <- blocks :: !Wanted(b, q)
    ensures Select(blocks, q) == []
  {
    if blocks != [] {
      SelectNone(blocks[1..], q);
    }
  }

  /** Once a block starts behind the last line, so do all that follow. */
  lemma NoneBehind(chain: seq<CodeBlock>, k: nat, q: Query)
    requires k < |chain| && Sorted(chain)
    requires k == |chain| - 1 || (q.endLine.Some? && chain[k].startLine > q.endLine.value)
    ensures Select(chain[..|chain| - 1][k..], q) == []
  {
    var inner := chain[..|chain| - 1];
    forall b <- inner[k..] ensures !Wanted(b, q) {
      var i :| 0 <= i < |inner[k..]| && inner[k..][i] == b;
      assert chain[k].startLine <= chain[k + i].startLine;
    }
    SelectNone(inner[k..], q);
  }

  /** The block starts no later than the last line and reaches the first one or, without parents, starts there. */
  predicate InLines(b: CodeBlock, startLine: int, endLine: Option<int>, includeParents: bool) {
    && (endLine.None? || b.startLine <= endLine.value)
    && (b.startLine >= startLine || (includeParents && b.endLine >= startLine))
  }

  lemma WantedIff(b: CodeBlock, q: Query)
    requires b.startLine <= b.endLine
    ensures Wanted(b, q) <==> InLines(b, q.startLine, q.endLine, q.includeParents)
  {
  }

  /** These blocks are those at the indices, in order. */
  ghost predicate TakenAt(taken: seq<CodeBlock>, blocks: seq<CodeBlock>, at: seq<nat>) {
    && |taken| == |at| && (forall k, l :: 0 <= k < l < |at| ==> at[k] < at[l])
    && forall k :: 0 <= k < |at| ==> at[k] < |blocks| && taken[k] == blocks[at[k]]
  }

  /** The indices of the wanted blocks, from `from` on. */
  function Places(blocks: seq<CodeBlock>, q: Query, from: nat): seq<nat>
    decreases |blocks| - from
  {
    if from >= |blocks| then []
    else (if Wanted(blocks[from], q) then [from] else []) + Places(blocks, q, from + 1)
  }

  lemma {:induction false} PlacesIn(blocks: seq<CodeBlock>, q: Query, from: nat, i: nat)
    ensures i in Places(blocks, q, from) <==> from <= i < |blocks| && Wanted(blocks[i], q)
    decreases |blocks| - from
  {
    if from < |blocks| {
      PlacesIn(blocks, q, from + 1, i);
      assert i in Places(blocks, q, from) <==>
             (Wanted(blocks[from], q) && i == from) || i in Places(blocks, q, from + 1);
    }
  }

  lemma {:induction false} SelectedAt(blocks: seq<CodeBlock>, q: Query, from: nat)
    requires from <= |blocks|
    ensures TakenAt(Select(blocks[from..], q), blocks, Places(blocks, q, from))
    ensures forall k :: 0 <= k < |Places(blocks, q, from)| ==> from <= Places(blocks, q, from)[k]
    decreases |blocks| - from
  {
    if from < |blocks| {
      SelectedAt(blocks, q, from + 1);
      assert blocks[from..][1..] == blocks[from + 1..] && blocks[from..][0] == blocks[from];
    }
  }

  /** What is selected: the blocks in the lines, all of them, each once and in the order of the chain. */
  lemma SelectIs(blocks: seq<CodeBlock>, q: Query) returns (at: seq<nat>)
    requires forall b <- blocks :: b.startLine <= b.endLine
    ensures |Select(blocks, q)| == |at| && forall k, l :: 0 <= k < l < |at| ==> at[k] < at[l]
    ensures forall k :: 0 <= k < |at| ==> at[k] < |blocks| && Select(blocks, q)[k] == blocks[at[k]]
    ensures forall i: nat :: i < |blocks| ==>
              (i in at <==> InLines(blocks[i], q.startLine, q.endLine, q.includeParents))
  {
    at := Places(blocks, q, 0);
    SelectedAt(blocks, q, 0);
    assert blocks[0..] == blocks;
    forall i: nat | i < |blocks| ensures i in at <==> InLines(blocks[i], q.startLine, q.endLine, q.includeParents) {
      PlacesIn(blocks, q, 0, i);
      assert blocks[i] in blocks;
      WantedIff(blocks[i], q);
    }
  }

  lemma SelectLast(chain: seq<CodeBlock>, q: Query)
    requires chain != []
    ensures
      var (inner, last) := (chain[..|chain| - 1], chain[|chain| - 1]);
      Select(chain, q) == Select(inner, q) + if Wanted(last, q) then [last] else []
  {
    var (inner, last) := (chain[..|chain| - 1], chain[|chain| - 1]);
    assert chain == inner + [last];
    SelectConcat(inner, [last], q);
    assert Select([last], q) == if Wanted(last, q) then [last] else [];
  }

  /** The last block of the chain is never found, so all are found exactly if it is not wanted. */
  lemma LastIsMissed(chain: seq<CodeBlock>, q: Query)
    requires chain != []
    ensures Select(chain[..|chain| - 1], q) == Select(chain, q) <==> !Wanted(chain[|chain| - 1], q)
  {
    SelectLast(chain, q);
  }

  // ---------- the tree of blocks ----------

  /** The block made for each piece of syntax. */
  datatype Shape = Shape(block: CodeBlock, kids: seq<Shape>)

  function Preorder(s: Shape): seq<CodeBlock> {
    [s.block] + PreorderAll(s.kids)
  }

  function PreorderAll(kids: seq<Shape>): seq<CodeBlock> {
    if kids == [] then [] else Preorder(kids[0]) + PreorderAll(kids[1..])
  }

  ghost predicate Mirrors(s: Shape, t: Syntax) {
    && s.block.startLine == t.startLine && s.block.endLine == t.endLine
    && MirrorsAll(s.kids, t.children)
  }

  ghost predicate MirrorsAll(kids: seq<Shape>, ts: seq<Syntax>) {
    if kids == [] || ts == [] then kids == [] && ts == []
    else Mirrors(kids[0], ts[0]) && MirrorsAll(kids[1..], ts[1..])
  }

  /** Children lie within their parent, each behind the one before; lines can be shared. */
  ghost predicate WellNested(t: Syntax) {
    t.startLine <= t.endLine && Within(t.children, t.startLine, t.endLine)
  }

  ghost predicate Within(ts: seq<Syntax>, from: int, last: int) {
    ts != [] ==>
      from <= ts[0].startLine && ts[0].endLine <= last && WellNested(ts[0]) && Within(ts[1..], ts[0].endLine, last)
  }

  ghost predicate Between(blocks: seq<CodeBlock>, from: int, last: int) {
    forall b <- blocks :: from <= b.startLine <= b.endLine <= last
  }

  lemma SortedConcat(a: seq<CodeBlock>, b: seq<CodeBlock>, lo: int, mid: int, hi: int)
    requires Sorted(a) && Sorted(b) && Between(a, lo, mid) && Between(b, mid, hi) && lo <= mid <= hi
    ensures Sorted(a + b) && Between(a + b, lo, hi)
  {
    forall i, j | 0 <= i <= j < |a + b| ensures (a + b)[i].startLine <= (a + b)[j].startLine {
      if i < |a| && j >= |a| {
        assert a[i] in a && b[j - |a|] in b;
      }
    }
  }

  /** Along the preorder of a well-nested tree the start lines never decrease. */
  lemma {:induction false} PreorderSorted(s: Shape, t: Syntax)
    requires Mirrors(s, t) && WellNested(t)
    ensures Sorted(Preorder(s)) && Between(Preorder(s), t.startLine, t.endLine)
    decreases t, 0
  {
    PreorderAllSorted(s.kids, t.children, t.startLine, t.endLine);
    var below := PreorderAll(s.kids);
    forall j | 0 <= j < |Preorder(s)| ensures Preorder(s)[0].startLine <= Preorder(s)[j].startLine {
      if j > 0 {
        assert below[j - 1] in below;
      }
    }
    forall i, j | 0 < i <= j < |Preorder(s)| ensures Preorder(s)[i].startLine <= Preorder(s)[j].startLine {
      assert below[i - 1].startLine <= below[j - 1].startLine;
    }
  }

  lemma {:induction false} PreorderAllSorted(kids: seq<Shape>, ts: seq<Syntax>, from: int, last: int)
    requires MirrorsAll(kids, ts) && Within(ts, from, last) && from <= last
    ensures Sorted(PreorderAll(kids)) && Between(PreorderAll(kids), from, last)
    decreases ts, 1
  {
    if kids != [] {
      PreorderSorted(kids[0], ts[0]);
      PreorderAllSorted(kids[1..], ts[1..], ts[0].endLine, last);
      SortedConcat(Preorder(kids[0]), PreorderAll(kids[1..]), from, ts[0].endLine, last);
    }
  }

  // ---------- going down the tree instead ----------

  /** A walk that enters a block only if it reaches into the lines. */
  function Walk(s: Shape, q: Query): seq<CodeBlock> {
    if Wanted(s.block, q) then [s.block] + WalkAll(s.kids, q) else []
  }

  function WalkAll(kids: seq<Shape>, q: Query): seq<CodeBlock> {
    if kids == [] then [] else Walk(kids[0], q) + WalkAll(kids[1..], q)
  }

  lemma UnwantedBelow(s: Shape, t: Syntax, q: Query)
    requires Mirrors(s, t) && WellNested(t) && q.includeParents && !Wanted(s.block, q)
    ensures Select(Preorder(s), q) == []
  {
    PreorderSorted(s, t);
    forall b <- Preorder(s) ensures !Wanted(b, q) {
    }
    SelectNone(Preorder(s), q);
  }

  /** With parents the filter of the chain is the walk: with a block it has all that enclose it. */
  lemma {:induction false} SelectIsWalk(s: Shape, t: Syntax, q: Query)
    requires Mirrors(s, t) && WellNested(t) && q.includeParents
    ensures Select(Preorder(s), q) == Walk(s, q)
    decreases t, 0
  {
    if Wanted(s.block, q) {
      SelectAllIsWalk(s.kids, t.children, t.startLine, t.endLine, q);
      SelectConcat([s.block], PreorderAll(s.kids), q);
      assert Select([s.block], q) == [s.block];
    } else {
      UnwantedBelow(s, t, q);
    }
  }

  lemma {:induction false} SelectAllIsWalk(kids: seq<Shape>, ts: seq<Syntax>, from: int, last: int, q: Query)
    requires MirrorsAll(kids, ts) && Within(ts, from, last) && q.includeParents
    ensures Select(PreorderAll(kids), q) == WalkAll(kids, q)
    decreases ts, 1
  {
    if kids != [] {
      SelectIsWalk(kids[0], ts[0], q);
      SelectAllIsWalk(kids[1..], ts[1..], ts[0].endLine, last, q);
      SelectConcat(Preorder(kids[0]), PreorderAll(kids[1..]), q);
    }
  }

  /** What the search from the module on finds: the walk, but for the last block of the chain. */
  lemma SearchIsWalkButLast(s: Shape, t: Syntax, q: Query)
    requires Mirrors(s, t) && WellNested(t) && q.includeParents
    ensures
      var chain := Preorder(s);
      && Sorted(chain) && (forall b <- chain :: b.startLine <= b.endLine)
      && Walk(s, q) == Select(chain[..|chain| - 1], q) + if Wanted(chain[|chain| - 1], q) then [chain[|chain| - 1]]
        else []
  {
    var chain := Preorder(s);
    PreorderSorted(s, t);
    SelectIsWalk(s, t, q);
    SelectLast(chain, q);
    assert forall b <- chain :: b.startLine <= b.endLine;
  }

  // ---------- how the chain comes about ----------

  class CodeParser {
    var previousBlock: CodeBlock?

    constructor ()
      ensures previousBlock == null
    {
      previousBlock := null;
    }

    /** The chain so far ends in the previous block. */
    ghost predicate Ready(chain: seq<CodeBlock>)
      reads this, chain
    {
      Chained(chain) && previousBlock == chain[|chain| - 1]
    }

    /** The module starts a chain of its own. */
    method ParseModule(t: Syntax) returns (block: CodeBlock, ghost s: Shape)
      modifies this
      ensures s.block == block && Mirrors(s, t) && fresh(Preorder(s))
      ensures Ready(Preorder(s))
    {
      block := new CodeBlock(t.startLine, t.endLine);
      previousBlock := block;
      ghost var kids := ParseChildren(t.children, [block]);
      s := Shape(block, kids);
      assert Preorder(s) == [block] + PreorderAll(kids);
    }

    method ParseCode(t: Syntax, ghost chain: seq<CodeBlock>) returns (block: CodeBlock, ghost s: Shape)
      requires Ready(chain)
      modifies this, previousBlock
      ensures s.block == block && Mirrors(s, t) && fresh(Preorder(s))
      ensures Ready(chain + Preorder(s))
      decreases t, 0
    {
      block := new CodeBlock(t.startLine, t.endLine);
      previousBlock.next := block;
      previousBlock := block;
      ghost var kids := ParseChildren(t.children, chain + [block]);
      s := Shape(block, kids);
      assert chain + [block] + PreorderAll(kids) == chain + Preorder(s);
    }

    method ParseChildren(ts: seq<Syntax>, ghost chain: seq<CodeBlock>) returns (ghost kids: seq<Shape>)
      requires Ready(chain)
      modifies this, previousBlock
      ensures MirrorsAll(kids, ts) && fresh(PreorderAll(kids))
      ensures Ready(chain + PreorderAll(kids))
      decreases ts, 1
    {
      kids := [];
      assert chain + [] == chain && ts[..0] == [];
      for k := 0 to |ts|
        invariant MirrorsAll(kids, ts[..k]) && fresh(PreorderAll(kids))
        invariant Ready(chain + PreorderAll(kids))
        invariant previousBlock == old(previousBlock) || fresh(previousBlock)
      {
        ghost var s: Shape;
        var child;
        child, s := ParseCode(ts[k], chain + PreorderAll(kids));
        OneMore(kids, s, ts, k);
        assert chain + PreorderAll(kids) + Preorder(s) == chain + (PreorderAll(kids) + Preorder(s));
        LastOf(chain + PreorderAll(kids), s);
        kids := kids + [s];
      }
      assert ts[..|ts|] == ts;
    }
  }

  lemma LastOf(chain: seq<CodeBlock>, s: Shape)
    ensures (chain + Preorder(s))[|chain + Preorder(s)| - 1] in Preorder(s)
  {
    assert (chain + Preorder(s))[|chain + Preorder(s)| - 1] == Preorder(s)[|Preorder(s)| - 1];
  }

  lemma {:induction false} PreorderAllSnoc(kids: seq<Shape>, s: Shape)
    ensures PreorderAll(kids + [s]) == PreorderAll(kids) + Preorder(s)
  {
    if kids == [] {
      assert [s][1..] == [];
    } else {
      PreorderAllSnoc(kids[1..], s);
      assert (kids + [s])[1..] == kids[1..] + [s];
    }
  }

  lemma {:induction false} MirrorsSnoc(kids: seq<Shape>, s: Shape, ts: seq<Syntax>, t: Syntax)
    requires MirrorsAll(kids, ts) && Mirrors(s, t)
    ensures MirrorsAll(kids + [s], ts + [t])
  {
    if kids == [] {
      assert [s][1..] == [] && [t][1..] == [];
    } else {
      MirrorsSnoc(kids[1..], s, ts[1..], t);
      assert (kids + [s])[1..] == kids[1..] + [s] && (ts + [t])[1..] == ts[1..] + [t];
    }
  }

  lemma OneMore(kids: seq<Shape>, s: Shape, ts: seq<Syntax>, k: nat)
    requires k < |ts| && MirrorsAll(kids, ts[..k]) && Mirrors(s, ts[k])
    ensures MirrorsAll(kids + [s], ts[..k + 1])
    ensures PreorderAll(kids + [s]) == PreorderAll(kids) + Preorder(s)
  {
    MirrorsSnoc(kids, s, ts[..k], ts[k]);
    assert ts[..k + 1] == ts[..k] + [ts[k]];
    PreorderAllSnoc(kids, s);
  }

  /** A module whose only block is on line 2: a search for line 2 finds the module, and not the block. */
  method LastBlockMissed() returns (found: seq<CodeBlock>, missed: CodeBlock)
    ensures |found| == 1 && found[0].startLine == 1
    ensures missed !in found && Wanted(missed, Query(2, Some(2), true))
  {
    var parser := new CodeParser();
    var block;
    ghost var s: Shape;
    var (line, t) := (Syntax(2, 2, []), Syntax(1, 2, [Syntax(2, 2, [])]));
    block, s := parser.ParseModule(t);
    ghost var q := Query(2, Some(2), true);
    OneChild(s, t);
    assert [line][1..] == [] && WellNested(line) && Within([line], 1, 2) && WellNested(t);
    SearchIsWalkButLast(s, t, q);
    found := block.FindBlocksByLineNumbers(2, Some(2), true, Preorder(s));
    assert Preorder(s)[..1] == [block] && [block][1..] == [];
    assert found == Select([block], q) == [block] + [];
    assert block.next == Preorder(s)[1];
    missed := block.next;
  }

  lemma OneChild(s: Shape, t: Syntax)
    requires Mirrors(s, t) && |t.children| == 1 && t.children[0].children == []
    ensures |s.kids| == 1 && s.kids[0].kids == []
    ensures s.kids[0].block.startLine == t.children[0].startLine && s.kids[0].block.endLine == t.children[0].endLine
    ensures Preorder(s) == [s.block, s.kids[0].block]
  {
    assert MirrorsAll(s.kids, t.children) && s.kids != [];
    var kid := s.kids[0];
    assert Mirrors(kid, t.children[0]) && MirrorsAll(s.kids[1..], t.children[1..]);
    assert t.children[1..] == [] && s.kids[1..] == [];
    assert MirrorsAll(kid.kids, []) && kid.kids == [];
    assert PreorderAll(s.kids) == Preorder(s.kids[0]) + [];
    assert Preorder(s.kids[0]) == [s.kids[0].block] + [];
  }
}
