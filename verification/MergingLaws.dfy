/** Laws that determine the merging of user messages, whatever the list. */
module MergingLaws {
  import opened Prelude
  import opened Text
  import opened Search
  import opened Messages
  import opened MessageMerging

  /** User messages of one text each. */
  function Plains(texts: seq<string>): (r: seq<Said>)
    ensures |r| == |texts| && forall k :: 0 <= k < |r| ==> r[k] == FromUser(Plain(texts[k]))
  {
    seq(|texts|, k requires 0 <= k < |texts| => FromUser(Plain(texts[k])))
  }

  /** Replacing messages by others that merge alike, whatever is pending. */
  lemma {:induction false} MergeFront(pending: seq<string>, front: seq<Said>, a: seq<Said>, b: seq<Said>)
    requires forall p: seq<string> :: Merge(p, a) == Merge(p, b)
    ensures Merge(pending, front + a) == Merge(pending, front + b)
    decreases |front|
  {
    if front == [] {
      assert front + a == a && front + b == b;
    } else {
      assert (front + a)[1..] == front[1..] + a && (front + b)[1..] == front[1..] + b;
      var m := front[0];
      if Texty(m) {
        MergeFront(pending + Texts(m.content), front[1..], a, b);
      } else {
        MergeFront([], front[1..], a, b);
      }
    }
  }

  lemma {:induction false} JoinTwo(front: seq<string>, a: string, b: string, rest: seq<string>)
    ensures Join(front + [a, b] + rest) == Join(front + [a + "\n" + b] + rest)
    decreases |front|
  {
    var (two, one) := (front + [a, b] + rest, front + [a + "\n" + b] + rest);
    if front == [] {
      assert two[1..] == [b] + rest && one[1..] == rest && two[1..][1..] == rest;
      if rest == [] {
        assert Join(two) == a + "\n" + b;
      } else {
        assert Join(two) == a + "\n" + (b + "\n" + Join(rest));
        assert Join(one) == (a + "\n" + b) + "\n" + Join(rest);
      }
    } else {
      JoinTwo(front[1..], a, b, rest);
      assert two[1..] == front[1..] + [a, b] + rest && one[1..] == front[1..] + [a + "\n" + b] + rest;
    }
  }

  /** Pending texts that join alike, whatever comes behind them, merge alike. */
  ghost predicate JoinAlike(p: seq<string>, q: seq<string>) {
    p != [] && q != [] && forall rest: seq<string> :: Join(p + rest) == Join(q + rest)
  }

  lemma {:induction false} MergeAlike(p: seq<string>, q: seq<string>, said: seq<Said>)
    requires JoinAlike(p, q)
    ensures Merge(p, said) == Merge(q, said)
    decreases |said|
  {
    assert p + [] == p && q + [] == q;
    assert Join(p + []) == Join(q + []);
    if said != [] && said[0].FromUser? {
      var texts := Texts(said[0].content);
      assert Join(p + texts) == Join(q + texts);
      forall rest: seq<string> ensures Join(p + texts + rest) == Join(q + texts + rest) {
        Regroup(p, texts, rest);
        Regroup(q, texts, rest);
        assert Join(p + (texts + rest)) == Join(q + (texts + rest));
      }
      if Texty(said[0]) {
        MergeAlike(p + texts, q + texts, said[1..]);
      }
    }
  }

  /** Two user messages of text, next to each other anywhere, are one with a line break between the texts. */
  lemma TwoTexts(front: seq<Said>, a: string, b: string, rest: seq<Said>)
    ensures Merged(front + ([FromUser(Plain(a)), FromUser(Plain(b))] + rest))
         == Merged(front + ([FromUser(Plain(a + "\n" + b))] + rest))
  {
    var (two, one) := ([FromUser(Plain(a)), FromUser(Plain(b))] + rest, [FromUser(Plain(a + "\n" + b))] + rest);
    forall p: seq<string> ensures Merge(p, two) == Merge(p, one) {
      assert two[1..] == [FromUser(Plain(b))] + rest && two[1..][1..] == rest && one[1..] == rest;
      assert p + [a] + [b] == p + [a, b];
      forall more: seq<string> ensures Join(p + [a, b] + more) == Join(p + [a + "\n" + b] + more) {
        JoinTwo(p, a, b, more);
      }
      MergeAlike(p + [a, b], p + [a + "\n" + b], rest);
    }
    MergeFront([], front, two, one);
  }

  lemma {:induction false} MergePlains(pending: seq<string>, texts: seq<string>, rest: seq<Said>)
    ensures Merge(pending, Plains(texts) + rest) == Merge(pending + texts, rest)
    decreases |texts|
  {
    if texts == [] {
      assert Plains(texts) + rest == rest && pending + texts == pending;
    } else {
      assert (Plains(texts) + rest)[1..] == Plains(texts[1..]) + rest;
      MergePlains(pending + [texts[0]], texts[1..], rest);
      assert pending + [texts[0]] + texts[1..] == pending + texts;
    }
  }

  /** The texts of the first `n` blocks. */
  function BlockTexts(blocks: seq<Block>, n: nat): seq<string>
    requires n <= |blocks| && forall k :: 0 <= k < n ==> blocks[k].TextBlock?
  {
    seq(n, k requires 0 <= k < n => blocks[k].text)
  }

  lemma {:induction false} LeadingIs(blocks: seq<Block>, n: nat)
    requires n <= |blocks| && forall k :: 0 <= k < n ==> blocks[k].TextBlock?
    requires n == |blocks| || blocks[n].MediaBlock?
    ensures Leading(blocks) == BlockTexts(blocks, n)
    decreases n
  {
    if n > 0 {
      LeadingIs(blocks[1..], n - 1);
      assert BlockTexts(blocks, n) == [blocks[0].text] + BlockTexts(blocks[1..], n - 1);
    }
  }

  /** A user message of text blocks is as good as a message for each of them. */
  lemma TextBlocks(front: seq<Said>, blocks: seq<Block>, texts: seq<string>, rest: seq<Said>)
    requires |texts| == |blocks| && forall k :: 0 <= k < |blocks| ==> blocks[k] == TextBlock(texts[k])
    ensures Merged(front + ([FromUser(Blocks(blocks))] + rest)) == Merged(front + (Plains(texts) + rest))
  {
    var m := FromUser(Blocks(blocks));
    LeadingIs(blocks, |blocks|);
    assert BlockTexts(blocks, |blocks|) == texts;
    forall p: seq<string> ensures Merge(p, [m] + rest) == Merge(p, Plains(texts) + rest) {
      assert ([m] + rest)[1..] == rest;
      MergePlains(p, texts, rest);
    }
    MergeFront([], front, [m] + rest, Plains(texts) + rest);
  }

  lemma {:induction false} MergeSplits(pending: seq<string>, front: seq<Said>, m: Said, rest: seq<Said>)
    requires !Texty(m)
    ensures Merge(pending, front + ([m] + rest)) == Merge(pending, front + [m]) + Merged(rest)
    decreases |front|
  {
    assert ([m] + rest)[1..] == rest && [m][1..] == [];
    if front == [] {
      assert front + ([m] + rest) == [m] + rest && front + [m] == [m];
      var flush := Flush(if m.FromUser? then pending + Texts(m.content) else pending);
      assert flush + [m] + [] == flush + [m];
    } else {
      assert (front + ([m] + rest))[1..] == front[1..] + ([m] + rest) && (front + [m])[1..] == front[1..] + [m];
      var (f, all) := (front[0], if front[0].FromUser? then pending + Texts(front[0].content) else pending);
      if Texty(f) {
        MergeSplits(all, front[1..], m, rest);
      } else {
        MergeSplits([], front[1..], m, rest);
        Regroup(Flush(all) + [f], Merge([], front[1..] + [m]), Merged(rest));
      }
    }
  }

  lemma MergeOnly(pending: seq<string>, m: Said, texts: seq<string>)
    requires !Texty(m) && texts == if m.FromUser? then Texts(m.content) else []
    ensures Merge(pending, [m]) == Merge(pending, Plains(texts)) + [m]
  {
    MergePlains(pending, texts, []);
    assert Plains(texts) + [] == Plains(texts) && [m][1..] == [];
    assert pending + [] == pending && Flush(pending + texts) + [m] + [] == Flush(pending + texts) + [m];
  }

  lemma {:induction false} MergeLast(pending: seq<string>, front: seq<Said>, m: Said, texts: seq<string>)
    requires !Texty(m) && texts == if m.FromUser? then Texts(m.content) else []
    ensures Merge(pending, front + [m]) == Merge(pending, front + Plains(texts)) + [m]
    decreases |front|
  {
    if front == [] {
      MergeOnly(pending, m, texts);
      assert front + [m] == [m] && front + Plains(texts) == Plains(texts);
    } else {
      assert (front + [m])[1..] == front[1..] + [m];
      assert (front + Plains(texts))[1..] == front[1..] + Plains(texts);
      var (f, all) := (front[0], if front[0].FromUser? then pending + Texts(front[0].content) else pending);
      if Texty(f) {
        MergeLast(all, front[1..], m, texts);
      } else {
        MergeLast([], front[1..], m, texts);
        Regroup(Flush(all) + [f], Merge([], front[1..] + Plains(texts)), [m]);
      }
    }
  }

  /** Any other message stays, and divides what is merged before it from what is merged behind it. */
  lemma OtherDivides(front: seq<Said>, m: Said, rest: seq<Said>)
    requires m.FromOther?
    ensures Merged(front + ([m] + rest)) == Merged(front) + [m] + Merged(rest)
  {
    MergeSplits([], front, m, rest);
    MergeLast([], front, m, []);
    assert front + Plains([]) == front;
  }

  /**
   So does a user message with something else than text in it; the texts before that are in the messages before it
   as well.
   */
  lemma MixedDivides(front: seq<Said>, blocks: seq<Block>, n: nat, texts: seq<string>, rest: seq<Said>)
    requires n < |blocks| && blocks[n].MediaBlock?
    requires |texts| == n && forall k :: 0 <= k < n ==> blocks[k] == TextBlock(texts[k])
    ensures Merged(front + ([FromUser(Blocks(blocks))] + rest))
         == Merged(front + Plains(texts)) + [FromUser(Blocks(blocks))] + Merged(rest)
  {
    var m := FromUser(Blocks(blocks));
    assert blocks[n] in blocks;
    LeadingIs(blocks, n);
    assert BlockTexts(blocks, n) == texts;
    MergeSplits([], front, m, rest);
    MergeLast([], front, m, texts);
  }

  /** One text by itself stays, and nothing stays nothing. */
  lemma OneText(a: string)
    ensures Merged([FromUser(Plain(a))]) == [FromUser(Plain(a))] && Merged([]) == []
  {
    assert [] + [a] == [a] && Join([a]) == a;
    var m := FromUser(Plain(a));
    assert [m][1..] == [] && [] + Texts(m.content) == [a];
    assert Merged([m]) == Merge([a], []) == Flush([a]);
  }

  /** Texts without line breaks: a run of them becomes a message that splits into them again. */
  lemma {:induction false} RunSplits(texts: seq<string>)
    requires texts != [] && BreakFree(texts)
    ensures Merged(Plains(texts)) == [FromUser(Plain(Join(texts)))]
    ensures Split(Join(texts)) == texts
  {
    MergePlains([], texts, []);
    assert Plains(texts) + [] == Plains(texts) && [] + texts == texts;
    SplitJoin(texts);
  }

  lemma {:induction false} SplitJoin(texts: seq<string>)
    requires texts != [] && BreakFree(texts)
    ensures Split(Join(texts)) == texts
  {
    if |texts| == 1 {
      LineLengthFree(texts[0], "");
      assert texts[0] + "" == texts[0];
    } else {
      var rest := "\n" + Join(texts[1..]);
      SplitJoin(texts[1..]);
      LineLengthFree(texts[0], rest);
      assert Join(texts) == texts[0] + rest;
      assert Join(texts)[|texts[0]| + 1..] == Join(texts[1..]);
      assert texts == [texts[0]] + texts[1..];
    }
  }
}
