/**
 Hunks that only insert and show no line of the old file, as a diff without context lines has them: where they
 are replayed, and when that is the right place.
 */
module LooseInsertion {
  import opened Prelude
  import opened Text
  import opened HunkReplay
  import opened PatchRoundTrip

  /** The line before which such a hunk behind line `b` is replayed. */
  function Place(b: nat): nat {
    if b == 0 then 0 else b - 1
  }

  /** The lines of a file with others put before line `p`. */
  function PutBefore(lines: seq<string>, p: nat, texts: seq<string>): seq<string>
    requires p <= |lines|
  {
    lines[..p] + texts + lines[p..]
  }

  // ---------- lines with their breaks ----------

  /** Lines that are a text if only the last of them is left open, or none. */
  ghost predicate Renderable(lines: seq<string>, fate: Fate) {
    BreakFree(lines) && (fate == Dropped || (fate == Kept(0) && lines != [] && lines[|lines| - 1] != ""))
  }

  lemma ClosedLine(line: string)
    requires '\n' !in line
    ensures IsLine(Value(line)) && Ended(Value(line)) && Body(Value(line)) == line
    ensures line != "" ==> IsLine(line) && !Ended(line)
  {
  }

  lemma RenderedParts(lines: seq<string>, fate: Fate, k: nat)
    requires Renderable(lines, fate) && k < |lines|
    ensures
      var r := Rendered(lines, fate);
      IsLine(r[k]) && Body(r[k]) == lines[k] && (Ended(r[k]) <==> fate == Dropped || k < |lines| - 1)
  {
    ClosedLine(lines[k]);
    assert Rendered(lines, fate)[k] == RenderedLine(lines, fate, k);
  }

  lemma RenderedLines(lines: seq<string>, fate: Fate)
    requires Renderable(lines, fate)
    ensures
      var s := Concat(Rendered(lines, fate));
      Lines(s) == lines && (Terminated(s) <==> fate == Dropped)
  {
    var r := Rendered(lines, fate);
    forall k | 0 <= k < |r| ensures IsLine(r[k]) && Body(r[k]) == lines[k] && (k < |r| - 1 ==> Ended(r[k])) {
      RenderedParts(lines, fate, k);
    }
    SplitConcat(r);
    SplitKeepLines(Concat(r));
    if lines != [] {
      RenderedParts(lines, fate, |lines| - 1);
    }
  }

  /** The lines of a text with its own last break are renderable. */
  lemma TextIsRenderable(s: string)
    ensures Renderable(Lines(s), EndFate(s))
  {
    LinesBreakFree(s);
    SplitKeepLines(s);
  }

  lemma PutIsRenderable(s: string, p: nat, texts: seq<string>)
    requires p <= |Lines(s)| && (p < |Lines(s)| || Lines(s) == []) && BreakFree(texts)
    ensures Renderable(PutBefore(Lines(s), p, texts), EndFate(s))
  {
    TextIsRenderable(s);
    var (l, put) := (Lines(s), PutBefore(Lines(s), p, texts));
    forall k | 0 <= k < |put| ensures '\n' !in put[k] {
      assert put[k] == if k < p then l[k] else if k < p + |texts| then texts[k - p] else l[k - |texts|];
    }
    assert l != [] ==> put[|put| - 1] == l[|l| - 1];
  }

  // ---------- the replay ----------

  lemma PutRendered(s: string, p: nat, texts: seq<string>)
    requires p <= |Lines(s)| && (p < |Lines(s)| || Lines(s) == [])
    ensures SplitKeep(s)[..p] + Rendered(texts, Dropped) + SplitKeep(s)[p..]
        == Rendered(PutBefore(Lines(s), p, texts), EndFate(s))
  {
    var (l, fate) := (Lines(s), EndFate(s));
    SplitKeepRendered(s);
    if l == [] {
      assert texts == PutBefore(l, p, texts);
    } else {
      RenderedSlice(l, fate, 0, p);
      RenderedTail(l, fate, p);
      assert l[0..p] == l[..p] && Rendered(l, fate)[0..p] == Rendered(l, fate)[..p];
      RenderedConcat(l[..p], texts + l[p..], fate);
      RenderedConcat(texts, l[p..], fate);
      assert PutBefore(l, p, texts) == l[..p] + (texts + l[p..]);
    }
  }

  /** Where an insertion without context is put. */
  lemma InsertionPut(content: string, b: nat, texts: seq<string>)
    requires b <= |Lines(content)|
    ensures ReplayText(content, [Hunk(b, Insertion(texts))])
         == Ok(Concat(Rendered(PutBefore(Lines(content), Place(b), texts), EndFate(content))))
  {
    var (lines, p, h) := (SplitKeep(content), Place(b), Hunk(b, Insertion(texts)));
    assert [h][1..] == [];
    InsertionReplays(lines, p, texts);
    assert lines[0..p] == lines[..p] && Replay(lines, p, []) == Ok(lines[p..]);
    assert CopyEnd(0, b, |lines|) == p;
    assert Replay(lines, 0, [h]) == Ok(lines[..p] + Rendered(texts, Dropped) + lines[p..]);
    PutRendered(content, p, texts);
  }

  // ---------- the right place ----------

  predicate AllAre(texts: seq<string>, line: string) {
    forall k :: 0 <= k < |texts| ==> texts[k] == line
  }

  /** Lines can be moved past another line exactly if they equal it. */
  lemma {:induction false} Passes(texts: seq<string>, line: string)
    ensures texts + [line] == [line] + texts <==> AllAre(texts, line)
  {
    if texts != [] {
      var (first, rest) := (texts[0], texts[1..]);
      Passes(rest, line);
      assert texts == [first] + rest;
      if texts + [line] == [line] + texts {
        assert (texts + [line])[0] == ([line] + texts)[0];
        assert rest + [line] == (texts + [line])[1..] == ([line] + texts)[1..] == texts;
      }
      if first == line && rest + [line] == [line] + rest {
        assert texts + [line] == [first] + (rest + [line]) == [line] + texts;
      }
      assert AllAre(texts, line) <==> first == line && AllAre(rest, line) by {
        assert forall k :: 0 <= k < |rest| ==> rest[k] == texts[k + 1];
        assert forall k :: 0 < k < |texts| ==> texts[k] == rest[k - 1];
      }
    }
  }

  lemma SamePlace(lines: seq<string>, b: nat, texts: seq<string>)
    requires 0 < b <= |lines|
    ensures PutBefore(lines, b - 1, texts) == PutBefore(lines, b, texts) <==> AllAre(texts, lines[b - 1])
  {
    var (front, line, back) := (lines[..b - 1], lines[b - 1], lines[b..]);
    Passes(texts, line);
    var (early, right) := (PutBefore(lines, b - 1, texts), PutBefore(lines, b, texts));
    assert early == front + (texts + [line]) + back && right == front + ([line] + texts) + back;
    assert early[b - 1..b + |texts|] == texts + [line] && right[b - 1..b + |texts|] == [line] + texts;
  }

  /**
   Inserting behind line `b` without context is a diff, but it gives the new text if and only if `b` is 0 or all
   inserted lines equal line `b`, and the texts agree on the final line break.
   */
  lemma InsertionIff(content: string, b: nat, texts: seq<string>, updated: string)
    requires b <= |Lines(content)| && Lines(updated) == PutBefore(Lines(content), b, texts)
    ensures
      var h := Hunk(b, Insertion(texts));
      && IsDiff(Lines(content), 0, Lines(updated), 0, [h])
      && (ReplayText(content, [h]) == Ok(updated) <==>
           (b == 0 || AllAre(texts, Lines(content)[b - 1])) && Terminated(content) == Terminated(updated))
  {
    var (l, p) := (Lines(content), Place(b));
    InsertionIsDiff(l, b, texts);
    InsertionPut(content, b, texts);
    TextsBreakFree(updated, l, b, texts);
    PutIsRenderable(content, p, texts);
    RenderedLines(PutBefore(l, p, texts), EndFate(content));
    var made := Concat(Rendered(PutBefore(l, p, texts), EndFate(content)));
    if b > 0 {
      SamePlace(l, b, texts);
    }
    if Lines(made) == Lines(updated) && Terminated(made) == Terminated(updated) {
      SameText(made, updated);
    }
  }

  lemma TextsBreakFree(updated: string, lines: seq<string>, b: nat, texts: seq<string>)
    requires b <= |lines| && Lines(updated) == PutBefore(lines, b, texts)
    ensures BreakFree(texts)
  {
    LinesBreakFree(updated);
    assert forall k :: 0 <= k < |texts| ==> texts[k] == Lines(updated)[b + k];
  }

  lemma TwoLines()
    ensures Concat(Rendered(["b", "a"], Dropped)) == "b\na\n"
  {
    var lines := ["b", "a"];
    assert RenderedLine(lines, Dropped, 0) == "b" + "\n" && RenderedLine(lines, Dropped, 1) == "a" + "\n";
    assert "b" + "\n" == "b\n" && "a" + "\n" == "a\n";
    assert Rendered(lines, Dropped) == ["b\n", "a\n"];
    ConcatCons("b\n", ["a\n"]);
    ConcatCons("a\n", []);
  }

  /** The inserted line comes before the line that it should follow. */
  lemma InsertedTooEarly()
    ensures
      var h := Hunk(1, Insertion(["b"]));
      && IsDiff(Lines("a\n"), 0, Lines("a\nb\n"), 0, [h])
      && ReplayText("a\n", [h]) == Ok("b\na\n")
  {
    SmallTexts();
    OneLine();
    TwoLines();
    assert PutBefore(["a"], 1, ["b"]) == ["a", "b"] && PutBefore(["a"], 0, ["b"]) == ["b", "a"];
    InsertionIsDiff(["a"], 1, ["b"]);
    InsertionPut("a\n", 1, ["b"]);
  }
}
