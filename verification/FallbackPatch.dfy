/**
 The patch of `_generate_fallback_patch`: its diff lines keep their line breaks and are joined by further ones, so
 an empty line follows every line of a hunk. The recount counts these, and the replay takes them for context.
 */
module FallbackPatch {
  import opened Prelude
  import opened Text
  import opened HunkReplay
  import opened PatchRoundTrip
  import HunkRecount

  // ---------- the text that is recounted ----------

  /** The lines of joined diff lines: an empty one behind each that keeps its own break. */
  function Interleaved(items: seq<string>): seq<string> {
    if items == [] then []
    else (if Ended(items[0]) then [Body(items[0]), ""] else [items[0]]) + Interleaved(items[1..])
  }

  /** No break except at the end of an item. */
  ghost predicate Items(items: seq<string>) {
    forall k :: 0 <= k < |items| ==> '\n' !in Body(items[k])
  }

  lemma JoinedCons(item: string, rest: string)
    requires '\n' !in Body(item)
    ensures Lines(item + "\n" + rest) == (if Ended(item) then [Body(item), ""] else [item]) + Lines(rest)
  {
    if Ended(item) {
      assert item + "\n" + rest == Body(item) + "\n" + ("" + "\n" + rest);
      LinesCons(Body(item), "" + "\n" + rest);
      LinesCons("", rest);
    } else {
      LinesCons(item, rest);
    }
  }

  /** `("\n".join(diff_lines) + "\n").splitlines()` */
  lemma {:induction false} JoinedLines(items: seq<string>)
    requires items != [] && Items(items)
    ensures Lines(Join(items) + "\n") == Interleaved(items)
  {
    if |items| == 1 {
      JoinedCons(items[0], "");
      assert items[0] + "\n" + "" == items[0] + "\n" && Lines("") == [];
      assert Interleaved(items[1..]) == [];
    } else {
      JoinedLines(items[1..]);
      JoinedCons(items[0], Join(items[1..]) + "\n");
      assert Join(items) + "\n" == items[0] + "\n" + (Join(items[1..]) + "\n");
    }
  }

  // ---------- the counts ----------

  /** The lines of a hunk body in the joined text. */
  function PrintedBody(body: seq<HunkLine>): seq<HunkRecount.DiffLine> {
    if body == [] then [] else [HunkRecount.BodyLine(body[0]), HunkRecount.Text("")] + PrintedBody(body[1..])
  }

  /** The hunk as it is read back: an empty line is an empty context line. */
  function Reread(body: seq<HunkLine>): seq<HunkLine> {
    if body == [] then [] else [body[0], Context("")] + Reread(body[1..])
  }

  lemma RereadCons(body: seq<HunkLine>)
    requires body != []
    ensures Reread(body)[0] == body[0] && Reread(body)[1..] == [Context("")] + Reread(body[1..])
    ensures Reread(body)[1..][1..] == Reread(body[1..])
  {
  }

  lemma {:induction false} RereadSides(body: seq<HunkLine>)
    ensures |OldSide(Reread(body))| == |OldSide(body)| + |body|
    ensures |NewSide(Reread(body))| == |NewSide(body)| + |body|
  {
    if body != [] {
      RereadSides(body[1..]);
      RereadCons(body);
    }
  }

  lemma TallyTwo(line: HunkLine, rest: seq<HunkRecount.DiffLine>, more: seq<HunkRecount.DiffLine>)
    ensures
      var t := HunkRecount.Tally(rest + more);
      HunkRecount.Tally([HunkRecount.BodyLine(line), HunkRecount.Text("")] + rest + more)
      == (t.0 + (if line.Added? then 1 else 2), t.1 + (if line.Removed? then 1 else 2))
  {
    var (first, second) := (HunkRecount.BodyLine(line), HunkRecount.Text(""));
    HunkRecount.TallyCons(second, rest, more);
    HunkRecount.TallyCons(first, [second] + rest, more);
    HunkRecount.BodyWeight(line);
    assert [first, second] + rest == [first] + ([second] + rest);
  }

  /** The recounted header counts, for every line of the hunk, an empty one as well. */
  lemma {:induction false} TallyIsDoubled(body: seq<HunkLine>, more: seq<HunkRecount.DiffLine>)
    requires more == [] || more[0].Header?
    ensures HunkRecount.Tally(PrintedBody(body) + more) == (|OldSide(body)| + |body|, |NewSide(body)| + |body|)
  {
    if body == [] {
      assert PrintedBody(body) + more == more;
    } else {
      TallyIsDoubled(body[1..], more);
      TallyTwo(body[0], PrintedBody(body[1..]), more);
      SidesCons(body);
    }
  }

  /** These are the counts of the hunk as it is read back, so it is well formed. */
  lemma TallyIsReread(body: seq<HunkLine>, more: seq<HunkRecount.DiffLine>)
    requires more == [] || more[0].Header?
    ensures HunkRecount.Tally(PrintedBody(body) + more) == (|OldSide(Reread(body))|, |NewSide(Reread(body))|)
  {
    TallyIsDoubled(body, more);
    RereadSides(body);
  }

  // ---------- the replay ----------

  /** The line of the file that the `i`th line of the body meets, `b` being where the hunk starts. */
  function MetAt(b: nat, body: seq<HunkLine>, i: nat): nat
    requires i <= |body|
  {
    b + |OldSide(body[..i])| + i
  }

  /** Every context line that is not blank meets an equal one, up to blanks. */
  ghost predicate Meets(content: seq<string>, b: nat, body: seq<HunkLine>) {
    forall i :: 0 <= i < |body| && body[i].Context? && Strip(Value(body[i].text)) != "" ==>
      MetAt(b, body, i) < |content| && Strip(content[MetAt(b, body, i)]) == Strip(Value(body[i].text))
  }

  lemma MetLater(b: nat, body: seq<HunkLine>, i: nat)
    requires 0 < i <= |body|
    ensures MetAt(b, body, i) == MetAt(b + if body[0].Added? then 1 else 2, body[1..], i - 1)
  {
    assert body[..i][1..] == body[1..][..i - 1] && body[..i][0] == body[0];
  }

  lemma MeetsCons(content: seq<string>, b: nat, body: seq<HunkLine>)
    requires body != []
    ensures
      var next := b + if body[0].Added? then 1 else 2;
      var first := body[0].Context? && Strip(Value(body[0].text)) != "" ==>
        b < |content| && Strip(content[b]) == Strip(Value(body[0].text));
      Meets(content, b, body) <==> first && Meets(content, next, body[1..])
  {
    var next := b + if body[0].Added? then 1 else 2;
    assert body[..0] == [] && MetAt(b, body, 0) == b;
    if Meets(content, b, body) {
      forall i | 0 <= i < |body[1..]| && body[1..][i].Context? && Strip(Value(body[1..][i].text)) != ""
        ensures MetAt(next, body[1..], i) < |content|
                && Strip(content[MetAt(next, body[1..], i)]) == Strip(Value(body[1..][i].text))
      {
        MetLater(b, body, i + 1);
        assert body[i + 1] == body[1..][i];
      }
    }
    if Meets(content, next, body[1..]) {
      forall i | 0 < i < |body| && body[i].Context? && Strip(Value(body[i].text)) != ""
        ensures MetAt(b, body, i) < |content| && Strip(content[MetAt(b, body, i)]) == Strip(Value(body[i].text))
      {
        MetLater(b, body, i);
        assert body[i] == body[1..][i - 1];
      }
    }
  }

  /** The empty line behind a line of the body takes any line of the file. */
  lemma EmptyTakesAny(content: seq<string>, b: nat, rest: seq<HunkLine>)
    requires b <= |content|
    ensures
      var r := ReplayBody(content, b, [Context("")] + rest);
      r.Ok? <==> b < |content| && ReplayBody(content, b + 1, rest).Ok?
  {
    assert ([Context("")] + rest)[1..] == rest;
    BlankStrips();
  }

  lemma BlankStrips()
    ensures Strip(Value("")) == ""
  {
    assert Value("") == "\n" && "\n"[1..] == "";
  }

  /** One line of the body and the empty one behind it. */
  lemma PairReplays(content: seq<string>, b: nat, body: seq<HunkLine>)
    requires b <= |content| && body != []
    ensures
      var next := b + if body[0].Added? then 1 else 2;
      var first := body[0].Context? && Strip(Value(body[0].text)) != "" ==>
        b < |content| && Strip(content[b]) == Strip(Value(body[0].text));
      ReplayBody(content, b, Reread(body)).Ok? <==>
        first && next <= |content| && ReplayBody(content, next, Reread(body[1..])).Ok?
  {
    RereadCons(body);
    EmptyTakesAny(content, b, Reread(body[1..]));
    if b < |content| {
      EmptyTakesAny(content, b + 1, Reread(body[1..]));
    }
  }

  /**
   A recounted hunk is replayed exactly if the file has a line for each of its own old lines and for each empty
   line, and every context line meets an equal one that much further down.
   */
  lemma {:induction false} FallbackReplaysIff(content: seq<string>, b: nat, body: seq<HunkLine>)
    requires b <= |content|
    ensures ReplayBody(content, b, Reread(body)).Ok? <==> MetAt(b, body, |body|) <= |content| && Meets(content, b, body)
    decreases |body|
  {
    if body == [] {
      assert body[..0] == [];
    } else {
      PairReplays(content, b, body);
      MeetsCons(content, b, body);
      MetLater(b, body, |body|);
      var next := b + if body[0].Added? then 1 else 2;
      if next <= |content| {
        FallbackReplaysIff(content, next, body[1..]);
      }
    }
  }

  /** The fallback patch of replacing the only line of a file cannot be replayed. */
  lemma FallbackFails()
    ensures
      var body := [Removed("a"), Added("b")];
      && ReplayBody(["a\n"], 0, body).Ok?
      && ReplayBody(["a\n"], 0, Reread(body)).Err?
  {
    var body := [Removed("a"), Added("b")];
    assert body[1..] == [Added("b")] && body[1..][1..] == [];
    assert body[..2] == body && OldSide(body[1..]) == [] && OldSide(body) == ["a"];
    FallbackReplaysIff(["a\n"], 0, body);
  }
}
