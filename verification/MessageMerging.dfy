/**
 Merging consecutive user messages (`_merge_same_role_messages`): what it does to runs of text messages, and
 what a message with text before a picture makes of it.
 */
module MessageMerging {
  import opened Prelude
  import opened Text
  import opened Messages

  // ---------- the parts of a user message ----------

  /** The texts before the first block that is none. */
  function Leading(blocks: seq<Block>): seq<string> {
    if blocks == [] || blocks[0].MediaBlock? then [] else [blocks[0].text] + Leading(blocks[1..])
  }

  predicate AllText(blocks: seq<Block>) {
    forall b <- blocks :: b.TextBlock?
  }

  function Texts(content: Content): seq<string> {
    match content
    case Plain(text) => [text]
    case Blocks(blocks) => Leading(blocks)
  }

  /** A user message that consists of text. */
  predicate Texty(s: Said) {
    s.FromUser? && (s.content.Plain? || AllText(s.content.blocks))
  }

  /** A user message with text before something else. */
  predicate Mixed(s: Said) {
    s.FromUser? && !Texty(s) && Texts(s.content) != []
  }

  predicate NoneMixed(said: seq<Said>) {
    forall s <- said :: !Mixed(s)
  }

  // ---------- what the loop does ----------

  function Flush(pending: seq<string>): seq<Said> {
    if pending == [] then [] else [FromUser(Plain(Join(pending)))]
  }

  /** `pending` are the texts read but not yet written. */
  function Merge(pending: seq<string>, said: seq<Said>): seq<Said>
    decreases |said|
  {
    if said == [] then Flush(pending)
    else if Texty(said[0]) then Merge(pending + Texts(said[0].content), said[1..])
    else if said[0].FromUser? then Flush(pending + Texts(said[0].content)) + [said[0]] + Merge([], said[1..])
    else Flush(pending) + [said[0]] + Merge([], said[1..])
  }

  function Merged(said: seq<Said>): seq<Said> {
    Merge([], said)
  }

  // ---------- run by run ----------

  /** The number of text messages at the front. */
  function RunLength(said: seq<Said>): (n: nat)
    ensures n <= |said|
  {
    if said != [] && Texty(said[0]) then 1 + RunLength(said[1..]) else 0
  }

  function RunTexts(run: seq<Said>): seq<string>
    requires forall s <- run :: Texty(s)
  {
    if run == [] then []
    else
      assert Texty(run[0]);
      Texts(run[0].content) + RunTexts(run[1..])
  }

  lemma {:induction false} RunIsTexty(said: seq<Said>)
    ensures forall s <- said[..RunLength(said)] :: Texty(s)
  {
    if said != [] && Texty(said[0]) {
      RunIsTexty(said[1..]);
      assert said[..RunLength(said)] == [said[0]] + said[1..][..RunLength(said[1..])];
    }
  }

  /** Every maximal run of text messages becomes one message; all others stay as they are. */
  function Grouped(said: seq<Said>): seq<Said>
    decreases |said|
  {
    if said == [] then []
    else if !Texty(said[0]) then [said[0]] + Grouped(said[1..])
    else
      var n := RunLength(said);
      RunIsTexty(said);
      var texts := RunTexts(said[..n]);
      (if texts == [] then [] else [FromUser(Plain(Join(texts)))]) + Grouped(said[n..])
  }

  lemma {:induction false} MergeRun(pending: seq<string>, said: seq<Said>)
    ensures forall s <- said[..RunLength(said)] :: Texty(s)
    ensures Merge(pending, said) == Merge(pending + RunTexts(said[..RunLength(said)]), said[RunLength(said)..])
    decreases |said|
  {
    RunIsTexty(said);
    var n := RunLength(said);
    if n == 0 {
      assert said[..0] == [] && pending + [] == pending && said[0..] == said;
    } else {
      var first := Texts(said[0].content);
      MergeRun(pending + first, said[1..]);
      assert said[..n][1..] == said[1..][..n - 1] && said[1..][n - 1..] == said[n..];
      assert pending + first + RunTexts(said[1..][..n - 1]) == pending + RunTexts(said[..n]);
    }
  }

  lemma BehindRun(said: seq<Said>)
    ensures var n := RunLength(said); n == |said| || !Texty(said[n])
    decreases |said|
  {
    if said != [] && Texty(said[0]) {
      BehindRun(said[1..]);
    }
  }

  lemma NotMixed(s: Said, pending: seq<string>)
    requires !Texty(s) && !Mixed(s) && s.FromUser?
    ensures pending + Texts(s.content) == pending
  {
  }

  /** At anything but a text message the pending texts are written, and the merging starts anew. */
  lemma MergeBarrier(pending: seq<string>, said: seq<Said>)
    requires said == [] || !Texty(said[0])
    requires NoneMixed(said)
    ensures Merge(pending, said) == Flush(pending) + Merge([], said)
  {
    if said == [] {
      assert Flush(pending) + [] == Flush(pending);
    } else {
      if said[0].FromUser? {
        assert !Mixed(said[0]);
        NotMixed(said[0], pending);
        NotMixed(said[0], []);
      }
      var rest := Merge([], said[1..]);
      assert [] + [said[0]] + rest == [said[0]] + rest;
      assert Flush(pending) + [said[0]] + rest == Flush(pending) + ([said[0]] + rest);
    }
  }

  lemma OtherFirst(said: seq<Said>)
    requires said != [] && !Texty(said[0]) && NoneMixed(said)
    ensures Merged(said) == [said[0]] + Merged(said[1..])
  {
    var rest := Merge([], said[1..]);
    if said[0].FromUser? {
      assert !Mixed(said[0]);
      NotMixed(said[0], []);
    }
    assert Merge([], said) == Flush([]) + [said[0]] + rest;
    assert Flush([]) + [said[0]] + rest == [said[0]] + rest;
  }

  lemma RunFirst(said: seq<Said>)
    requires said != [] && Texty(said[0]) && NoneMixed(said)
    ensures var n := RunLength(said);
      && (forall s <- said[..n] :: Texty(s))
      && Merged(said) == Flush(RunTexts(said[..n])) + Merged(said[n..])
  {
    var n := RunLength(said);
    MergeRun([], said);
    BehindRun(said);
    assert [] + RunTexts(said[..n]) == RunTexts(said[..n]);
    MergeBarrier(RunTexts(said[..n]), said[n..]);
  }

  lemma {:induction false} MergedIsGrouped(said: seq<Said>)
    requires NoneMixed(said)
    ensures Merged(said) == Grouped(said)
    decreases |said|
  {
    if said != [] {
      if !Texty(said[0]) {
        OtherFirst(said);
        MergedIsGrouped(said[1..]);
      } else {
        RunFirst(said);
        MergedIsGrouped(said[RunLength(said)..]);
      }
    }
  }

  // ---------- how much text there is ----------

  /** The characters of the texts and a line break for each. */
  function Weight(texts: seq<string>): nat {
    if texts == [] then 0 else |texts[0]| + 1 + Weight(texts[1..])
  }

  /** The text of the user messages, up to the first block that is none. */
  function TextWeight(said: seq<Said>): nat {
    if said == [] then 0
    else (if said[0].FromUser? then Weight(Texts(said[0].content)) else 0) + TextWeight(said[1..])
  }

  /** The text that stands before other blocks. */
  function Doubled(said: seq<Said>): nat {
    if said == [] then 0
    else (if Mixed(said[0]) then Weight(Texts(said[0].content)) else 0) + Doubled(said[1..])
  }

  lemma {:induction false} WeightConcat(a: seq<string>, b: seq<string>)
    ensures Weight(a + b) == Weight(a) + Weight(b)
  {
    if a == [] {
      assert a + b == b;
    } else {
      WeightConcat(a[1..], b);
      assert (a + b)[1..] == a[1..] + b;
    }
  }

  lemma {:induction false} JoinWeight(texts: seq<string>)
    requires texts != []
    ensures |Join(texts)| + 1 == Weight(texts)
  {
    if |texts| > 1 {
      JoinWeight(texts[1..]);
    }
  }

  lemma {:induction false} TextWeightConcat(a: seq<Said>, b: seq<Said>)
    ensures TextWeight(a + b) == TextWeight(a) + TextWeight(b) && Doubled(a + b) == Doubled(a) + Doubled(b)
  {
    if a == [] {
      assert a + b == b;
    } else {
      TextWeightConcat(a[1..], b);
      assert (a + b)[1..] == a[1..] + b;
    }
  }

  lemma FlushWeight(pending: seq<string>)
    ensures TextWeight(Flush(pending)) == Weight(pending) && Doubled(Flush(pending)) == 0
  {
    if pending != [] {
      JoinWeight(pending);
      assert Flush(pending)[1..] == [];
      assert Weight([Join(pending)]) == |Join(pending)| + 1;
    }
  }

  lemma BarrierWeight(pending: seq<string>, s: Said, rest: seq<Said>)
    ensures
      var out := Flush(pending) + [s] + rest;
      && TextWeight(out) == Weight(pending) + (if s.FromUser? then Weight(Texts(s.content)) else 0) + TextWeight(rest)
      && Doubled(out) == (if Mixed(s) then Weight(Texts(s.content)) else 0) + Doubled(rest)
  {
    FlushWeight(pending);
    TextWeightConcat(Flush(pending) + [s], rest);
    TextWeightConcat(Flush(pending), [s]);
    assert [s][1..] == [];
  }

  /** Text is neither lost nor added, but for the text before other blocks, which is written twice. */
  lemma {:induction false} MergeWeight(pending: seq<string>, said: seq<Said>)
    ensures TextWeight(Merge(pending, said)) == Weight(pending) + TextWeight(said) + Doubled(said)
    ensures Doubled(Merge(pending, said)) == Doubled(said)
    decreases |said|
  {
    if said == [] {
      FlushWeight(pending);
    } else if Texty(said[0]) {
      MergeWeight(pending + Texts(said[0].content), said[1..]);
      WeightConcat(pending, Texts(said[0].content));
    } else if said[0].FromUser? {
      MergeWeight([], said[1..]);
      WeightConcat(pending, Texts(said[0].content));
      BarrierWeight(pending + Texts(said[0].content), said[0], Merge([], said[1..]));
    } else {
      MergeWeight([], said[1..]);
      BarrierWeight(pending, said[0], Merge([], said[1..]));
    }
  }

  lemma {:induction false} DoubledIff(said: seq<Said>)
    ensures Doubled(said) == 0 <==> NoneMixed(said)
  {
    if said != [] {
      DoubledIff(said[1..]);
      assert NoneMixed(said) <==> !Mixed(said[0]) && NoneMixed(said[1..]) by {
        assert said == [said[0]] + said[1..];
      }
    }
  }

  // ---------- merging twice ----------

  /** Nothing is left to merge: a text message is plain, and none follows another. */
  predicate Settled(said: seq<Said>) {
    said != [] ==>
      && !Mixed(said[0])
      && (Texty(said[0]) ==> said[0].content.Plain? && (|said| > 1 ==> !Texty(said[1])))
      && Settled(said[1..])
  }

  lemma {:induction false} MergeSettles(pending: seq<string>, said: seq<Said>)
    requires NoneMixed(said)
    ensures Settled(Merge(pending, said))
    decreases |said|
  {
    if said != [] {
      if Texty(said[0]) {
        MergeSettles(pending + Texts(said[0].content), said[1..]);
      } else {
        MergeSettles([], said[1..]);
        assert !Mixed(said[0]);
        if said[0].FromUser? {
          NotMixed(said[0], pending);
        }
        SettledBehind(pending, said[0], Merge([], said[1..]));
      }
    } else if pending != [] {
      assert Flush(pending)[1..] == [];
    }
  }

  lemma SettledBehind(pending: seq<string>, s: Said, rest: seq<Said>)
    requires !Texty(s) && !Mixed(s) && Settled(rest)
    ensures Settled(Flush(pending) + [s] + rest)
  {
    assert ([s] + rest)[1..] == rest;
    assert Settled([s] + rest);
    if pending == [] {
      assert Flush(pending) + [s] + rest == [s] + rest;
    } else {
      assert (Flush(pending) + [s] + rest)[1..] == [s] + rest;
    }
  }

  lemma {:induction false} SettledStays(said: seq<Said>)
    requires Settled(said)
    ensures Merged(said) == said
  {
    if said != [] {
      SettledStays(said[1..]);
      assert said == [said[0]] + said[1..];
      if Texty(said[0]) {
        SettledRest(said[1..]);
        MergeBarrier(Texts(said[0].content), said[1..]);
        assert [] + Texts(said[0].content) == Texts(said[0].content);
      } else {
        if said[0].FromUser? {
          NotMixed(said[0], []);
        }
        assert [] + [said[0]] + Merge([], said[1..]) == [said[0]] + Merge([], said[1..]);
      }
    }
  }

  lemma {:induction false} SettledRest(said: seq<Said>)
    requires Settled(said)
    ensures NoneMixed(said)
  {
    if said != [] {
      SettledRest(said[1..]);
      assert said == [said[0]] + said[1..];
    }
  }

  /** Merging twice is merging once exactly if no message has text before something else. */
  lemma IdempotentIff(said: seq<Said>)
    ensures Merged(Merged(said)) == Merged(said) <==> NoneMixed(said)
  {
    if NoneMixed(said) {
      MergeSettles([], said);
      SettledStays(Merged(said));
    } else {
      DoubledIff(said);
      MergeWeight([], said);
      MergeWeight([], Merged(said));
    }
  }

  // ---------- the loop ----------

  /** The loop over the blocks: texts are collected until a block is none. */
  method CollectTexts(blocks: seq<Block>, pending: seq<string>) returns (currentContent: seq<string>, stopped: bool)
    ensures currentContent == pending + Leading(blocks)
    ensures stopped == !AllText(blocks)
  {
    currentContent := pending;
    for k := 0 to |blocks|
      invariant currentContent + Leading(blocks[k..]) == pending + Leading(blocks)
      invariant forall j :: 0 <= j < k ==> blocks[j].TextBlock?
    {
      assert blocks[k..][1..] == blocks[k + 1..];
      if blocks[k].MediaBlock? {
        assert blocks[k] in blocks;
        assert currentContent + [] == currentContent;
        return currentContent, true;
      }
      assert currentContent + ([blocks[k].text] + Leading(blocks[k + 1..])) ==
             currentContent + [blocks[k].text] + Leading(blocks[k + 1..]);
      currentContent := currentContent + [blocks[k].text];
    }
    assert currentContent + [] == currentContent;
    stopped := false;
  }

  /** What the list holds: messages of the input and new ones, each once. */
  ghost predicate Collected(merged: seq<Message>, messages: seq<Message>, i: nat)
    requires i <= |messages|
    reads merged
  {
    && Distinct(merged) && Others(merged) == Others(messages[..i])
    && forall m <- merged :: m in messages[..i] || (m !in messages && m.marks == {})
  }

  /** The messages that are not all text. */
  function Others(messages: seq<Message>): seq<Message> {
    if messages == [] then []
    else (if Texty(messages[0].said) then [] else [messages[0]]) + Others(messages[1..])
  }

  lemma {:induction false} OthersSnoc(messages: seq<Message>, m: Message)
    ensures Others(messages + [m]) == Others(messages) + if Texty(m.said) then [] else [m]
  {
    if messages == [] {
      assert messages + [m] == [m] && [m][1..] == [];
    } else {
      OthersSnoc(messages[1..], m);
      assert (messages + [m])[1..] == messages[1..] + [m];
    }
  }

  method FlushTo(merged: seq<Message>, currentContent: seq<string>, ghost messages: seq<Message>, ghost i: nat)
    returns (r: seq<Message>)
    requires i <= |messages| && Collected(merged, messages, i)
    ensures Collected(r, messages, i) && Saids(r) == Saids(merged) + Flush(currentContent)
    ensures forall m <- r :: m in merged || fresh(m)
  {
    if currentContent == [] {
      return merged;
    }
    var m := new Message(FromUser(Plain(Join(currentContent))));
    OthersSnoc(merged, m);
    r := merged + [m];
  }

  ghost predicate MergedUpTo(said: seq<Said>, i: nat, done: seq<Said>, pending: seq<string>)
    requires i <= |said|
  {
    done + Merge(pending, said[i..]) == Merged(said)
  }

  lemma MergeStep(said: seq<Said>, i: nat, done: seq<Said>, pending: seq<string>)
    requires i < |said| && MergedUpTo(said, i, done, pending)
    ensures
      var all := if said[i].FromUser? then pending + Texts(said[i].content) else pending;
      if Texty(said[i]) then MergedUpTo(said, i + 1, done, all)
      else MergedUpTo(said, i + 1, done + Flush(all) + [said[i]], [])
  {
    assert said[i..][1..] == said[i + 1..];
    var all := if said[i].FromUser? then pending + Texts(said[i].content) else pending;
    var rest := Merge([], said[i + 1..]);
    assert done + (Flush(all) + [said[i]] + rest) == done + Flush(all) + [said[i]] + rest;
  }

  lemma KeepCollected(merged: seq<Message>, messages: seq<Message>, i: nat)
    requires i < |messages| && Collected(merged, messages, i) && Distinct(messages) && !Texty(messages[i].said)
    ensures Collected(merged + [messages[i]], messages, i + 1)
  {
    var (more, front) := (merged + [messages[i]], messages[..i]);
    OthersSnoc(merged, messages[i]);
    OthersSnoc(front, messages[i]);
    assert messages[..i + 1] == front + [messages[i]];
    assert messages[i] !in front;
  }

  lemma SkipCollected(merged: seq<Message>, messages: seq<Message>, i: nat)
    requires i < |messages| && Collected(merged, messages, i) && Texty(messages[i].said)
    ensures Collected(merged, messages, i + 1)
  {
    assert messages[..i + 1] == messages[..i] + [messages[i]];
    OthersSnoc(messages[..i], messages[i]);
  }

  /** What a message adds to the pending texts, and whether it must be written itself. */
  method ReadMessage(said: Said, pending: seq<string>) returns (currentContent: seq<string>, barrier: bool)
    ensures currentContent == if said.FromUser? then pending + Texts(said.content) else pending
    ensures barrier == !Texty(said)
  {
    if !said.FromUser? {
      return pending, true;
    }
    match said.content {
      case Plain(text) =>
        return pending + [text], false;
      case Blocks(blocks) =>
        currentContent, barrier := CollectTexts(blocks, pending);
    }
  }

  method AddMessage(merged: seq<Message>, currentContent: seq<string>, messages: seq<Message>, i: nat)
    returns (r: seq<Message>)
    requires i < |messages| && Collected(merged, messages, i) && Distinct(messages) && !Texty(messages[i].said)
    ensures Collected(r, messages, i + 1)
    ensures Saids(r) == Saids(merged) + Flush(currentContent) + [messages[i].said]
    ensures forall m <- r :: m in merged || m in messages || fresh(m)
  {
    r := FlushTo(merged, currentContent, messages, i);
    KeepCollected(r, messages, i);
    SaidsConcat(r, [messages[i]]);
    r := r + [messages[i]];
  }

  method MergeSameRoleMessages(messages: seq<Message>) returns (merged: seq<Message>)
    requires Distinct(messages)
    ensures Saids(merged) == Merged(Saids(messages)) && Others(merged) == Others(messages)
    ensures Collected(merged, messages, |messages|)
    ensures forall m <- merged :: m in messages || fresh(m)
  {
    ghost var said := Saids(messages);
    merged := [];
    var currentContent: seq<string> := [];
    MergeNothing(said);
    for i := 0 to |messages|
      invariant Collected(merged, messages, i)
      invariant forall m <- merged :: m in messages || fresh(m)
      invariant MergedUpTo(said, i, Saids(merged), currentContent)
    {
      MergeStep(said, i, Saids(merged), currentContent);
      var barrier;
      currentContent, barrier := ReadMessage(messages[i].said, currentContent);
      if barrier {
        merged := AddMessage(merged, currentContent, messages, i);
        currentContent := [];
      } else {
        SkipCollected(merged, messages, i);
      }
    }
    merged := FlushTo(merged, currentContent, messages, |messages|);
    assert said[|messages|..] == [] && messages[..|messages|] == messages;
  }

  lemma MergeNothing(said: seq<Said>)
    ensures MergedUpTo(said, 0, Saids([]), [])
  {
    assert said[0..] == said && Saids([]) + Merged(said) == Merged(said);
  }

  /** Text before a picture is sent twice after one merging, and three times after two. */
  lemma TextDoubled()
    ensures
      var m := FromUser(Blocks([TextBlock("a"), MediaBlock(0)]));
      && Merged([m]) == [FromUser(Plain("a")), m]
      && Merged(Merged([m])) == [FromUser(Plain("a\na")), m]
  {
    var blocks := [TextBlock("a"), MediaBlock(0)];
    var (m, plain) := (FromUser(Blocks(blocks)), FromUser(Plain("a")));
    assert blocks[1].MediaBlock? && blocks[1] in blocks;
    assert blocks[1..] == [MediaBlock(0)] && Leading(blocks[1..]) == [];
    assert Leading(blocks) == ["a"] + [] == ["a"];
    assert [m][1..] == [] && [plain, m][1..] == [m];
    assert [] + ["a"] == ["a"] && Join(["a"]) == "a";
    assert Merged([m]) == [plain] + [m] + [] == [plain, m];
    assert ["a"] + ["a"] == ["a", "a"] && ["a", "a"][1..] == ["a"];
    assert Join(["a", "a"]) == "a" + "\n" + "a" == "a\na";
    assert Merge(["a"], [m]) == [FromUser(Plain("a\na"))] + [m] + [];
    assert Merged([plain, m]) == Merge(["a"], [m]);
  }
}
