/**
 What a unified diff of two texts is, and when replaying it on the old text gives the new one
 (`ContextFile.generate_patch` followed by `ContextFile.apply_patch_to_content`).
 */
module PatchRoundTrip {
  import opened Prelude
  import opened Text
  import opened HunkReplay

  // ---------- unified diffs (POSIX.1-2017, diff, "Diff -u or -U Output Format") ----------

  /** The lines of the old file a hunk body shows. */
  function OldSide(body: seq<HunkLine>): seq<string> {
    if body == [] then [] else (if body[0].Added? then [] else [body[0].text]) + OldSide(body[1..])
  }

  /** The lines of the new file a hunk body shows. */
  function NewSide(body: seq<HunkLine>): seq<string> {
    if body == [] then [] else (if body[0].Removed? then [] else [body[0].text]) + NewSide(body[1..])
  }

  lemma SidesCons(body: seq<HunkLine>)
    requires body != []
    ensures |OldSide(body)| == (if body[0].Added? then 0 else 1) + |OldSide(body[1..])|
    ensures |NewSide(body)| == (if body[0].Removed? then 0 else 1) + |NewSide(body[1..])|
  {
  }

  /** The number of old lines before the hunk: an empty range carries the number of the line before it. */
  function Begin(h: Hunk): int {
    if OldSide(h.body) == [] then h.sourceStart else h.sourceStart - 1
  }

  /** From line `i` of the old file and line `j` of the new one on, the hunks list all differences. */
  ghost predicate IsDiff(oldLines: seq<string>, i: nat, newLines: seq<string>, j: nat, hunks: seq<Hunk>)
    decreases |hunks|
  {
    if hunks == [] then i <= |oldLines| && j <= |newLines| && oldLines[i..] == newLines[j..] else
      var (b, o, n) := (Begin(hunks[0]), OldSide(hunks[0].body), NewSide(hunks[0].body));
      && i <= b && b + |o| <= |oldLines| && j + (b - i) + |n| <= |newLines|
      && oldLines[i..b] == newLines[j..j + (b - i)]
      && oldLines[b..b + |o|] == o
      && newLines[j + (b - i)..j + (b - i) + |n|] == n
      && IsDiff(oldLines, b + |o|, newLines, j + (b - i) + |n|, hunks[1..])
  }

  /** No hunk is a pure insertion, except before the first line. */
  predicate Anchored(hunks: seq<Hunk>) {
    forall k :: 0 <= k < |hunks| ==> OldSide(hunks[k].body) != [] || hunks[k].sourceStart == 0
  }

  // ---------- what becomes of the old file's last line ----------

  /** Removed, or kept with this many added lines behind it. */
  datatype Fate = Dropped | Kept(behind: nat)

  function BodyFate(body: seq<HunkLine>): Fate {
    if body == [] then Kept(0)
    else if OldSide(body[1..]) != [] then BodyFate(body[1..])
    else if body[0].Removed? then Dropped else Kept(|body| - 1)
  }

  /** The fate of line number `count`, the last one of the old file. */
  function TailFate(count: nat, hunks: seq<Hunk>): Fate {
    if hunks == [] then Kept(0) else
      var last := hunks[|hunks| - 1];
      if Begin(last) + |OldSide(last.body)| < count then Kept(0) else BodyFate(last.body)
  }

  lemma {:induction false} AllAdded(body: seq<HunkLine>)
    requires OldSide(body) == []
    ensures |NewSide(body)| == |body|
  {
    if body != [] {
      AllAdded(body[1..]);
    }
  }

  lemma {:induction false} BodyFateBound(body: seq<HunkLine>)
    requires OldSide(body) != []
    ensures BodyFate(body).Kept? ==> BodyFate(body).behind < |NewSide(body)|
  {
    if OldSide(body[1..]) != [] {
      BodyFateBound(body[1..]);
    } else {
      AllAdded(body[1..]);
    }
  }

  // ---------- lines with their endings ----------

  /** Closed lines, save the one that has `fate.behind` lines behind it. */
  function Rendered(lines: seq<string>, fate: Fate): (r: seq<string>)
    ensures |r| == |lines|
  {
    seq(|lines|, k requires 0 <= k < |lines| => RenderedLine(lines, fate, k))
  }

  function RenderedLine(lines: seq<string>, fate: Fate, k: nat): string
    requires k < |lines|
  {
    if fate.Kept? && k + fate.behind + 1 == |lines| then lines[k] else Value(lines[k])
  }

  function EndFate(s: string): Fate {
    if Terminated(s) then Dropped else Kept(0)
  }

  lemma SplitKeepRendered(s: string)
    ensures SplitKeep(s) == Rendered(Lines(s), EndFate(s))
  {
    SplitKeepLines(s);
    var (lines, r) := (SplitKeep(s), Rendered(Lines(s), EndFate(s)));
    forall k | 0 <= k < |lines| ensures lines[k] == r[k] {
      if Ended(lines[k]) {
        assert lines[k] == lines[k][..|lines[k]| - 1] + "\n";
      }
    }
  }

  lemma SameText(a: string, b: string)
    requires Lines(a) == Lines(b) && Terminated(a) == Terminated(b)
    ensures a == b
  {
    SplitKeepRendered(a);
    SplitKeepRendered(b);
    ConcatSplit(a);
    ConcatSplit(b);
  }

  lemma RenderedCons(line: string, lines: seq<string>, fate: Fate)
    requires fate.Kept? ==> fate.behind < |lines|
    ensures Rendered([line] + lines, fate) == [Value(line)] + Rendered(lines, fate)
  {
    forall k | 0 <= k < |lines|
      ensures RenderedLine([line] + lines, fate, k + 1) == RenderedLine(lines, fate, k)
    {
    }
  }

  lemma RenderedOpenCons(line: string, lines: seq<string>)
    ensures Rendered([line] + lines, Kept(|lines|)) == [line] + Rendered(lines, Dropped)
  {
    forall k | 0 <= k < |lines|
      ensures RenderedLine([line] + lines, Kept(|lines|), k + 1) == RenderedLine(lines, Dropped, k)
    {
    }
  }

  lemma RenderedConcat(a: seq<string>, b: seq<string>, fate: Fate)
    requires fate.Kept? ==> fate.behind < |b|
    ensures Rendered(a + b, fate) == Rendered(a, Dropped) + Rendered(b, fate)
  {
    forall k | 0 <= k < |a| + |b|
      ensures Rendered(a + b, fate)[k] == (Rendered(a, Dropped) + Rendered(b, fate))[k]
    {
      assert Rendered(a + b, fate)[k] == RenderedLine(a + b, fate, k);
    }
  }

  lemma RenderedSlice(lines: seq<string>, fate: Fate, i: nat, e: nat)
    requires i <= e <= |lines|
    requires fate == Dropped || (fate == Kept(0) && (e < |lines| || i == e))
    ensures Rendered(lines, fate)[i..e] == Rendered(lines[i..e], Dropped)
  {
    forall k | 0 <= k < e - i ensures Rendered(lines, fate)[i..e][k] == Rendered(lines[i..e], Dropped)[k] {
      assert Rendered(lines, fate)[i + k] == RenderedLine(lines, fate, i + k);
    }
  }

  lemma RenderedTail(lines: seq<string>, fate: Fate, i: nat)
    requires i < |lines|
    requires fate == Dropped || fate == Kept(0)
    ensures Rendered(lines, fate)[i..] == Rendered(lines[i..], fate)
  {
    forall k | 0 <= k < |lines| - i ensures Rendered(lines, fate)[i..][k] == Rendered(lines[i..], fate)[k] {
      assert Rendered(lines, fate)[i + k] == RenderedLine(lines, fate, i + k);
    }
  }

  lemma StripValue(text: string)
    ensures Strip(Value(text)) == Strip(text)
  {
    LStripValue(text);
    assert LStrip(text) != "" ==> (LStrip(text) + "\n")[..|LStrip(text)|] == LStrip(text);
  }

  lemma {:induction false} LStripValue(text: string)
    ensures LStrip(text + "\n") == if LStrip(text) == "" then "" else LStrip(text) + "\n"
  {
    if text != "" && IsSpace(text[0]) {
      LStripValue(text[1..]);
      assert (text + "\n")[1..] == text[1..] + "\n";
    }
  }

  // ---------- one hunk ----------

  /** Which of the lines a hunk body produces lacks its line break. */
  function AfterBody(oldLines: seq<string>, fate: Fate, b: nat, body: seq<HunkLine>): Fate {
    if fate.Kept? && OldSide(body) != [] && b + |OldSide(body)| == |oldLines| then BodyFate(body) else Dropped
  }

  ghost predicate MakesNewSide(oldLines: seq<string>, fate: Fate, b: nat, body: seq<HunkLine>)
    requires b <= |oldLines|
  {
    ReplayBody(Rendered(oldLines, fate), b, body)
      == Ok((Rendered(NewSide(body), AfterBody(oldLines, fate, b, body)), b + |OldSide(body)|))
  }

  lemma AddedStep(oldLines: seq<string>, fate: Fate, b: nat, body: seq<HunkLine>)
    requires b <= |oldLines| && body != [] && body[0].Added? && MakesNewSide(oldLines, fate, b, body[1..])
    ensures MakesNewSide(oldLines, fate, b, body)
  {
    AddedFirst(oldLines, fate, b, body);
  }

  lemma ContextStep(oldLines: seq<string>, fate: Fate, b: nat, body: seq<HunkLine>)
    requires body != [] && body[0].Context? && b < |oldLines| && oldLines[b] == body[0].text
    requires b + |OldSide(body)| <= |oldLines| && (fate == Dropped || fate == Kept(0))
    requires MakesNewSide(oldLines, fate, b + 1, body[1..])
    ensures MakesNewSide(oldLines, fate, b, body)
  {
    KeptLineMatches(oldLines, fate, b);
    ContextFirst(oldLines, fate, b, body);
  }

  lemma RemovedStep(oldLines: seq<string>, fate: Fate, b: nat, body: seq<HunkLine>)
    requires body != [] && body[0].Removed? && b < |oldLines| && MakesNewSide(oldLines, fate, b + 1, body[1..])
    ensures MakesNewSide(oldLines, fate, b, body)
  {
    RemovedFirst(oldLines, fate, b, body);
  }

  /** On lines that match its old side, a hunk body produces its new side; only a kept line can lack its break. */
  lemma {:induction false} BodyMakesNewSide(oldLines: seq<string>, fate: Fate, b: nat, body: seq<HunkLine>)
    requires b + |OldSide(body)| <= |oldLines| && oldLines[b..b + |OldSide(body)|] == OldSide(body)
    requires fate == Dropped || fate == Kept(0)
    ensures ReplayBody(Rendered(oldLines, fate), b, body)
         == Ok((Rendered(NewSide(body), AfterBody(oldLines, fate, b, body)), b + |OldSide(body)|))
    decreases |body|
  {
    if body == [] {
    } else if body[0].Added? {
      BodyMakesNewSide(oldLines, fate, b, body[1..]);
      AddedStep(oldLines, fate, b, body);
    } else {
      OldSideTail(oldLines, b, body);
      BodyMakesNewSide(oldLines, fate, b + 1, body[1..]);
      if body[0].Context? {
        ContextStep(oldLines, fate, b, body);
      } else {
        RemovedStep(oldLines, fate, b, body);
      }
    }
  }

  lemma OldSideTail(oldLines: seq<string>, b: nat, body: seq<HunkLine>)
    requires body != [] && !body[0].Added?
    requires b + |OldSide(body)| <= |oldLines| && oldLines[b..b + |OldSide(body)|] == OldSide(body)
    ensures b < |oldLines| && oldLines[b] == body[0].text
    ensures |OldSide(body)| == 1 + |OldSide(body[1..])|
    ensures oldLines[b + 1..b + 1 + |OldSide(body[1..])|] == OldSide(body[1..])
  {
    assert oldLines[b] == oldLines[b..b + |OldSide(body)|][0];
    assert oldLines[b..b + |OldSide(body)|][1..] == oldLines[b + 1..b + 1 + |OldSide(body[1..])|];
  }

  lemma KeptLineMatches(oldLines: seq<string>, fate: Fate, b: nat)
    requires b < |oldLines|
    ensures Strip(Rendered(oldLines, fate)[b]) == Strip(Value(oldLines[b]))
  {
    StripValue(oldLines[b]);
  }

  lemma AddedFirst(oldLines: seq<string>, fate: Fate, b: nat, body: seq<HunkLine>)
    requires body != [] && body[0].Added?
    ensures Rendered(NewSide(body), AfterBody(oldLines, fate, b, body))
         == [Value(body[0].text)] + Rendered(NewSide(body[1..]), AfterBody(oldLines, fate, b, body[1..]))
  {
    if OldSide(body[1..]) != [] {
      BodyFateBound(body[1..]);
    }
    RenderedCons(body[0].text, NewSide(body[1..]), AfterBody(oldLines, fate, b, body[1..]));
  }

  lemma ContextFirst(oldLines: seq<string>, fate: Fate, b: nat, body: seq<HunkLine>)
    requires body != [] && body[0].Context? && b < |oldLines| && oldLines[b] == body[0].text
    requires b + |OldSide(body)| <= |oldLines|
    requires fate == Dropped || fate == Kept(0)
    ensures Rendered(NewSide(body), AfterBody(oldLines, fate, b, body))
         == [Rendered(oldLines, fate)[b]] + Rendered(NewSide(body[1..]), AfterBody(oldLines, fate, b + 1, body[1..]))
  {
    var tail := body[1..];
    if OldSide(tail) != [] {
      BodyFateBound(tail);
      RenderedCons(body[0].text, NewSide(tail), AfterBody(oldLines, fate, b + 1, tail));
    } else {
      AllAdded(tail);
      if fate.Kept? && b + 1 == |oldLines| {
        RenderedOpenCons(body[0].text, NewSide(tail));
      } else {
        RenderedCons(body[0].text, NewSide(tail), Dropped);
      }
    }
  }

  lemma RemovedFirst(oldLines: seq<string>, fate: Fate, b: nat, body: seq<HunkLine>)
    requires body != [] && body[0].Removed?
    ensures Rendered(NewSide(body), AfterBody(oldLines, fate, b, body))
         == Rendered(NewSide(body[1..]), AfterBody(oldLines, fate, b + 1, body[1..]))
  {
    assert NewSide(body) == NewSide(body[1..]);
  }

  // ---------- all hunks ----------

  /** The fate of the old file's last line once the first `i` lines are consumed. */
  function AfterHunks(oldLines: seq<string>, fate: Fate, i: nat, hunks: seq<Hunk>): Fate {
    if fate.Kept? && i < |oldLines| then TailFate(|oldLines|, hunks) else Dropped
  }

  lemma NoHunkPastEnd(oldLines: seq<string>, newLines: seq<string>, j: nat, hunks: seq<Hunk>)
    requires oldLines != [] && IsDiff(oldLines, |oldLines|, newLines, j, hunks) && Anchored(hunks)
    ensures hunks == [] && j == |newLines|
  {
    if hunks != [] {
      assert false;
    }
    assert |oldLines[|oldLines|..]| == |newLines[j..]|;
  }

  /** From line `i` on, the replay gives the new lines from `j` on. */
  ghost predicate Replays(oldLines: seq<string>, fate: Fate, i: nat, newLines: seq<string>, j: nat, hunks: seq<Hunk>)
    requires i <= |oldLines| && j <= |newLines|
  {
    var after := AfterHunks(oldLines, fate, i, hunks);
    && (after.Kept? ==> after.behind < |newLines[j..]|)
    && Replay(Rendered(oldLines, fate), i, hunks) == Ok(Rendered(newLines[j..], after))
  }

  lemma NoMoreHunks(oldLines: seq<string>, fate: Fate, i: nat, newLines: seq<string>, j: nat)
    requires IsDiff(oldLines, i, newLines, j, [])
    requires fate == Dropped || fate == Kept(0)
    ensures Replays(oldLines, fate, i, newLines, j, [])
  {
    if i < |oldLines| {
      RenderedTail(oldLines, fate, i);
      assert |oldLines[i..]| == |newLines[j..]|;
    } else {
      assert newLines[j..] == oldLines[i..] == [];
      assert Rendered(oldLines, fate)[i..] == [] == Rendered([], Dropped);
    }
  }

  lemma OneMoreHunk(oldLines: seq<string>, fate: Fate, i: nat, newLines: seq<string>, j: nat, hunks: seq<Hunk>,
          e: nat, j2: nat)
    requires hunks != [] && IsDiff(oldLines, i, newLines, j, hunks) && Anchored(hunks)
    requires fate == Dropped || fate == Kept(0)
    requires i <= |oldLines| && j <= |newLines|
    requires e == Begin(hunks[0]) + |OldSide(hunks[0].body)|
    requires j2 == j + (Begin(hunks[0]) - i) + |NewSide(hunks[0].body)|
    requires Replays(oldLines, fate, e, newLines, j2, hunks[1..])
    ensures Replays(oldLines, fate, i, newLines, j, hunks)
  {
    ReplayOfDiff(oldLines, fate, i, newLines, j, hunks);
    JoinParts(oldLines, fate, i, newLines, j, hunks, e, j2);
  }

  lemma DiffGoesOn(oldLines: seq<string>, i: nat, newLines: seq<string>, j: nat, hunks: seq<Hunk>, e: nat, j2: int)
    requires hunks != [] && IsDiff(oldLines, i, newLines, j, hunks) && Anchored(hunks) && j <= |newLines|
    requires e == Begin(hunks[0]) + |OldSide(hunks[0].body)|
    requires j2 == j + (Begin(hunks[0]) - i) + |NewSide(hunks[0].body)|
    ensures i <= Begin(hunks[0]) && e <= |oldLines| && 0 <= j2 <= |newLines|
    ensures IsDiff(oldLines, e, newLines, j2, hunks[1..]) && Anchored(hunks[1..])
  {
  }

  lemma {:induction false} DiffReplays(oldLines: seq<string>, fate: Fate, i: nat, newLines: seq<string>, j: nat,
          hunks: seq<Hunk>)
    requires IsDiff(oldLines, i, newLines, j, hunks) && Anchored(hunks)
    requires fate == Dropped || fate == Kept(0)
    requires i <= |oldLines| && j <= |newLines|
    ensures Replays(oldLines, fate, i, newLines, j, hunks)
    decreases |hunks|
  {
    if hunks == [] {
      NoMoreHunks(oldLines, fate, i, newLines, j);
    } else {
      var e := Begin(hunks[0]) + |OldSide(hunks[0].body)|;
      var j2 := j + (Begin(hunks[0]) - i) + |NewSide(hunks[0].body)|;
      DiffGoesOn(oldLines, i, newLines, j, hunks, e, j2);
      DiffReplays(oldLines, fate, e, newLines, j2, hunks[1..]);
      OneMoreHunk(oldLines, fate, i, newLines, j, hunks, e, j2);
    }
  }

  /** One turn of the replay of a diff. */
  lemma ReplayOfDiff(oldLines: seq<string>, fate: Fate, i: nat, newLines: seq<string>, j: nat, hunks: seq<Hunk>)
    requires hunks != [] && IsDiff(oldLines, i, newLines, j, hunks) && Anchored(hunks)
    requires fate == Dropped || fate == Kept(0)
    requires i <= |oldLines|
    ensures
      var (b, o, n) := (Begin(hunks[0]), OldSide(hunks[0].body), NewSide(hunks[0].body));
      var content := Rendered(oldLines, fate);
      Replay(content, i, hunks)
      == Prepend(content[i..b] + Rendered(n, AfterBody(oldLines, fate, b, hunks[0].body)),
                 Replay(content, b + |o|, hunks[1..]))
  {
    var b := Begin(hunks[0]);
    assert CopyEnd(i, hunks[0].sourceStart, |oldLines|) == b;
    BodyMakesNewSide(oldLines, fate, b, hunks[0].body);
  }

  /** The parts of a replay step, rendered together: the open line is in the last part, or there is none. */
  lemma JoinBefore(a: seq<string>, n: seq<string>, t: seq<string>, all: Fate)
    requires all.Kept? ==> all.behind < |t|
    ensures Rendered(a + (n + t), all) == Rendered(a, Dropped) + Rendered(n, Dropped) + Rendered(t, all)
  {
    RenderedConcat(n, t, all);
    RenderedConcat(a, n + t, all);
  }

  /** The open line is in the hunk, and nothing follows. */
  lemma JoinLast(a: seq<string>, n: seq<string>, all: Fate)
    requires all.Kept? ==> all.behind < |n|
    ensures Rendered(a + (n + []), all) == Rendered(a, Dropped) + Rendered(n, all) + []
  {
    assert n + [] == n;
    RenderedConcat(a, n, all);
  }

  lemma JoinParts(oldLines: seq<string>, fate: Fate, i: nat, newLines: seq<string>, j: nat, hunks: seq<Hunk>, e: nat,
          j2: nat)
    requires hunks != [] && IsDiff(oldLines, i, newLines, j, hunks) && Anchored(hunks)
    requires fate == Dropped || fate == Kept(0)
    requires i <= |oldLines|
    requires e == Begin(hunks[0]) + |OldSide(hunks[0].body)|
    requires j2 == j + (Begin(hunks[0]) - i) + |NewSide(hunks[0].body)|
    requires AfterHunks(oldLines, fate, e, hunks[1..]).Kept? ==>
               AfterHunks(oldLines, fate, e, hunks[1..]).behind < |newLines[j2..]|
    ensures AfterHunks(oldLines, fate, i, hunks).Kept? ==>
              AfterHunks(oldLines, fate, i, hunks).behind < |newLines[j..]|
    ensures Rendered(newLines[j..], AfterHunks(oldLines, fate, i, hunks))
         == Rendered(oldLines, fate)[i..Begin(hunks[0])]
            + Rendered(NewSide(hunks[0].body), AfterBody(oldLines, fate, Begin(hunks[0]), hunks[0].body))
            + Rendered(newLines[j2..], AfterHunks(oldLines, fate, e, hunks[1..]))
  {
    var (b, n, all) := (Begin(hunks[0]), NewSide(hunks[0].body), AfterHunks(oldLines, fate, i, hunks));
    assert newLines[j..] == oldLines[i..b] + (n + newLines[j2..]);
    RenderedSlice(oldLines, fate, i, b);
    if fate.Kept? && oldLines != [] && e == |oldLines| {
      NoHunkPastEnd(oldLines, newLines, j2, hunks[1..]);
      BodyFateBound(hunks[0].body);
      assert newLines[j2..] == [];
      JoinLast(oldLines[i..b], n, all);
    } else {
      assert e < |oldLines| ==> all == AfterHunks(oldLines, fate, e, hunks[1..]);
      JoinBefore(oldLines[i..b], n, newLines[j2..], all);
    }
  }

  // ---------- texts ----------

  lemma {:induction false} ConcatEnded(lines: seq<string>)
    requires lines != [] && lines[|lines| - 1] != ""
    ensures Concat(lines) != "" && Ended(Concat(lines)) == Ended(lines[|lines| - 1])
  {
    if |lines| == 1 {
      assert Concat(lines[1..]) == "";
    } else {
      ConcatEnded(lines[1..]);
    }
  }

  lemma {:induction false} OpenLineShortens(lines: seq<string>, behind: nat)
    requires behind < |lines|
    ensures |Concat(Rendered(lines, Kept(behind)))| == |Concat(Rendered(lines, Dropped))| - 1
  {
    var (head, tail) := (lines[0], lines[1..]);
    assert lines == [head] + tail;
    RenderedCons(head, tail, Dropped);
    ConcatCons(Value(head), Rendered(tail, Dropped));
    if behind == |tail| {
      RenderedOpenCons(head, tail);
      ConcatCons(head, Rendered(tail, Dropped));
    } else {
      RenderedCons(head, tail, Kept(behind));
      ConcatCons(Value(head), Rendered(tail, Kept(behind)));
      OpenLineShortens(tail, behind);
    }
  }

  /** The lines of a text, rendered, are that text only if the right line is the open one. */
  lemma RenderedIsText(s: string, fate: Fate)
    requires fate.Kept? ==> fate.behind < |Lines(s)|
    ensures Concat(Rendered(Lines(s), fate)) == s <==> FateFits(fate, s)
  {
    var lines := Lines(s);
    ConcatSplit(s);
    SplitKeepRendered(s);
    if Terminated(s) {
      if fate.Kept? {
        OpenLineShortens(lines, fate.behind);
      }
    } else if fate != Kept(0) {
      ConcatEnded(Rendered(lines, fate));
    }
  }

  predicate FateFits(fate: Fate, s: string) {
    match fate
    case Dropped => Terminated(s)
    case Kept(behind) => behind == 0 && !Terminated(s)
  }

  /**
   The round trip of a patch, exactly: the patch always applies, and gives the new text if and only if
   the two texts agree on the final line break in the sense of `FateFits`.
   */
  lemma RoundTripIff(base: string, updated: string, hunks: seq<Hunk>)
    requires IsDiff(Lines(base), 0, Lines(updated), 0, hunks) && Anchored(hunks)
    ensures ReplayText(base, hunks).Ok?
    ensures ReplayText(base, hunks) == Ok(updated)
       <==> FateFits(if Terminated(base) then Dropped else TailFate(|Lines(base)|, hunks), updated)
  {
    SplitKeepRendered(base);
    DiffReplays(Lines(base), EndFate(base), 0, Lines(updated), 0, hunks);
    assert Lines(updated)[0..] == Lines(updated);
    RenderedIsText(updated, AfterHunks(Lines(base), EndFate(base), 0, hunks));
  }

  /** Texts made of closed lines always make the round trip. */
  lemma RoundTrip(base: string, updated: string, hunks: seq<Hunk>)
    requires IsDiff(Lines(base), 0, Lines(updated), 0, hunks) && Anchored(hunks)
    requires Terminated(base) && Terminated(updated)
    ensures ReplayText(base, hunks) == Ok(updated)
  {
    RoundTripIff(base, updated, hunks);
  }

  lemma SmallTexts()
    ensures Lines("a") == ["a"] && Lines("a\nb\n") == ["a", "b"]
  {
    assert "a"[..1] == "a" && "a"[1..] == "" && FirstLine("a") == 1;
    assert SplitKeep("a") == ["a"];
    assert "a\nb\n"[..2] == "a\n" && "a\nb\n"[2..] == "b\n" && "b\n"[2..] == "";
    assert "b\n"[1..] == "\n" && "a\nb\n"[1..] == "\nb\n";
    assert FirstLine("a\nb\n") == 2 && FirstLine("b\n") == 2 && "b\n"[..2] == "b\n";
    assert SplitKeep("b\n") == ["b\n"];
    assert SplitKeep("a\nb\n") == ["a\n", "b\n"];
    assert Body("a") == "a" && Body("a\n") == "a" && Body("b\n") == "b";
  }

  lemma OneLine()
    ensures Lines("a\n") == ["a"]
  {
    assert "a\n"[1..] == "\n" && "a\n"[..2] == "a\n" && "a\n"[2..] == "";
    assert FirstLine("a\n") == 2;
    assert SplitKeep("a\n") == ["a\n"] && Body("a\n") == "a";
  }

  lemma SmallDiff(body: seq<HunkLine>)
    requires body == [Context("a"), Added("b")]
    ensures OldSide(body) == ["a"] && BodyFate(body) == Kept(1)
    ensures IsDiff(["a"], 0, ["a", "b"], 0, [Hunk(1, body)])
  {
    assert body[1..] == [Added("b")] && body[1..][1..] == [] && [Hunk(1, body)][1..] == [];
    assert OldSide(body[1..]) == [] && NewSide(body[1..]) == ["b"];
    assert NewSide(body) == ["a", "b"];
    assert IsDiff(["a"], 1, ["a", "b"], 2, []);
  }

  lemma SmallJoin()
    ensures Concat(Rendered(["a", "b"], Kept(1))) == "ab\n"
  {
    var lines := ["a", "b"];
    assert RenderedLine(lines, Kept(1), 0) == "a" && RenderedLine(lines, Kept(1), 1) == "b" + "\n";
    assert "b" + "\n" == "b\n";
    assert Rendered(lines, Kept(1)) == ["a", "b\n"];
    ConcatCons("a", ["b\n"]);
    ConcatCons("b\n", []);
  }

  /** Without a final line break two lines can be glued together. */
  lemma RoundTripFails()
    ensures
      var hunks := [Hunk(1, [Context("a"), Added("b")])];
      && IsDiff(Lines("a"), 0, Lines("a\nb\n"), 0, hunks) && Anchored(hunks)
      && ReplayText("a", hunks) == Ok("ab\n")
  {
    var hunks := [Hunk(1, [Context("a"), Added("b")])];
    SmallTexts();
    SmallDiff(hunks[0].body);
    SmallJoin();
    assert SplitKeep("a") == Rendered(["a"], Kept(0)) by {
      SplitKeepRendered("a");
    }
    DiffReplays(["a"], Kept(0), 0, ["a", "b"], 0, hunks);
    assert ["a", "b"][0..] == ["a", "b"];
  }

  /** The body of a hunk that only adds lines. */
  function Insertion(texts: seq<string>): (body: seq<HunkLine>) {
    if texts == [] then [] else [Added(texts[0])] + Insertion(texts[1..])
  }

  lemma InsertionIsDiff(content: seq<string>, b: nat, texts: seq<string>)
    requires b <= |content|
    ensures IsDiff(content, 0, content[..b] + texts + content[b..], 0, [Hunk(b, Insertion(texts))])
  {
    InsertionSides(texts);
    OneHunkDiff(content, content[..b] + texts + content[b..], Hunk(b, Insertion(texts)), b);
  }

  /** A single hunk is a diff if the files agree before and behind it. */
  lemma OneHunkDiff(oldLines: seq<string>, newLines: seq<string>, h: Hunk, b: nat)
    requires
      var (e, j) := (b + |OldSide(h.body)|, b + |NewSide(h.body)|);
      && Begin(h) == b && e <= |oldLines|
      && oldLines[b..e] == OldSide(h.body)
      && newLines == oldLines[..b] + NewSide(h.body) + oldLines[e..]
    ensures IsDiff(oldLines, 0, newLines, 0, [h])
  {
    var (e, j) := (b + |OldSide(h.body)|, b + |NewSide(h.body)|);
    assert [h][1..] == [];
    assert oldLines[0..b] == oldLines[..b] == newLines[0..b];
    assert newLines[b..j] == NewSide(h.body);
    assert newLines[j..] == oldLines[e..];
    assert IsDiff(oldLines, e, newLines, j, []);
  }

  lemma {:induction false} InsertionSides(texts: seq<string>)
    ensures OldSide(Insertion(texts)) == [] && NewSide(Insertion(texts)) == texts
  {
    if texts != [] {
      InsertionSides(texts[1..]);
      assert texts == [texts[0]] + texts[1..];
    }
  }

  lemma {:induction false} InsertionReplays(content: seq<string>, b: nat, texts: seq<string>)
    requires b <= |content|
    ensures ReplayBody(content, b, Insertion(texts)) == Ok((Rendered(texts, Dropped), b))
  {
    if texts != [] {
      InsertionReplays(content, b, texts[1..]);
      assert texts == [texts[0]] + texts[1..];
      RenderedCons(texts[0], texts[1..], Dropped);
    }
  }

  // ---------- the whole-file patch ----------

  function Removal(texts: seq<string>): seq<HunkLine> {
    if texts == [] then [] else [Removed(texts[0])] + Removal(texts[1..])
  }

  /** `_generate_manual_patch`: one hunk that replaces everything, headed `-1,n` even when `n` is 0. */
  function ManualPatch(base: string, updated: string): seq<Hunk> {
    [Hunk(1, Removal(Lines(base)) + Insertion(Lines(updated)))]
  }

  lemma {:induction false} ReplacementSides(before: seq<string>, after: seq<string>)
    ensures
      var body := Removal(before) + Insertion(after);
      && OldSide(body) == before && NewSide(body) == after
      && (before != [] ==> BodyFate(body) == Dropped)
  {
    var body := Removal(before) + Insertion(after);
    if before == [] {
      InsertionSides(after);
      assert body == Insertion(after);
    } else {
      ReplacementSides(before[1..], after);
      assert body[1..] == Removal(before[1..]) + Insertion(after);
      assert before == [before[0]] + before[1..];
    }
  }

  lemma OneHunkReplays(content: seq<string>, h: Hunk, made: seq<string>)
    requires CopyEnd(0, h.sourceStart, |content|) == 0 && ReplayBody(content, 0, h.body) == Ok((made, |content|))
    ensures Replay(content, 0, [h]) == Ok(made)
  {
    assert [h][1..] == [] && content[|content|..] == [];
    assert content[0..0] + made == made && made + [] == made;
  }

  lemma ReplacementReplays(o: seq<string>, fate: Fate, n: seq<string>)
    requires fate == Dropped || fate == Kept(0)
    ensures ReplayBody(Rendered(o, fate), 0, Removal(o) + Insertion(n)) == Ok((Rendered(n, Dropped), |o|))
  {
    ReplacementSides(o, n);
    assert o[0..0 + |o|] == o;
    BodyMakesNewSide(o, fate, 0, Removal(o) + Insertion(n));
  }

  lemma ManualReplays(base: string, updated: string)
    ensures ReplayText(base, ManualPatch(base, updated)) == Ok(Concat(Rendered(Lines(updated), Dropped)))
  {
    var (o, n, fate) := (Lines(base), Lines(updated), EndFate(base));
    ReplacementReplays(o, fate, n);
    SplitKeepRendered(base);
    OneHunkReplays(Rendered(o, fate), ManualPatch(base, updated)[0], Rendered(n, Dropped));
  }

  /** The whole-file patch makes the round trip from every base, empty or not, to exactly the closed texts. */
  lemma ManualRoundTripIff(base: string, updated: string)
    ensures ReplayText(base, ManualPatch(base, updated)) == Ok(updated) <==> Terminated(updated)
  {
    ManualReplays(base, updated);
    RenderedIsText(updated, Dropped);
  }
}
