/**
 The splice meaning of hunk replay: on any content, whether or not the patch was made for it, the one
 pass over the file equals replacing the source region of each hunk in turn, last hunk first.
 */
module HunkSplice {
  import opened Prelude
  import opened Text
  import opened HunkReplay
  import opened PatchRoundTrip

  /** A source region with the hunk applied: kept lines are the region's own, whatever the patch shows. */
  function Edited(region: seq<string>, body: seq<HunkLine>): (r: seq<string>)
    requires |region| == |OldSide(body)|
    ensures |r| == |NewSide(body)|
    decreases |body|
  {
    if body == [] then [] else
      match body[0]
      case Added(text) => [Value(text)] + Edited(region, body[1..])
      case Removed(_) => Edited(region[1..], body[1..])
      case Context(_) => [region[0]] + Edited(region[1..], body[1..])
  }

  /** Every non-blank context line of the hunk is that of the region, up to surrounding white space. */
  predicate Fits(region: seq<string>, body: seq<HunkLine>)
    requires |region| == |OldSide(body)|
    decreases |body|
  {
    body == [] ||
    match body[0]
    case Added(_) => Fits(region, body[1..])
    case Removed(_) => Fits(region[1..], body[1..])
    case Context(text) =>
      && (Strip(Value(text)) == "" || Strip(region[0]) == Strip(Value(text)))
      && Fits(region[1..], body[1..])
  }

  /** All hunks fit where the replay meets them: at their own line, or where the hunk before or the file ends. */
  predicate AllFit(content: seq<string>, lineNo: nat, hunks: seq<Hunk>)
    requires lineNo <= |content|
    decreases |hunks|
  {
    hunks == [] ||
    var b := CopyEnd(lineNo, hunks[0].sourceStart, |content|);
    var e := b + |OldSide(hunks[0].body)|;
    e <= |content| && Fits(content[b..e], hunks[0].body) && AllFit(content, e, hunks[1..])
  }

  function SpliceOne(lines: seq<string>, b: nat, body: seq<HunkLine>): seq<string> {
    var e := b + |OldSide(body)|;
    if e <= |lines| then lines[..b] + Edited(lines[b..e], body) + lines[e..] else lines
  }

  /** The reference: the last hunk goes first, so that line numbers stay those of the original. */
  function BottomUp(content: seq<string>, lineNo: nat, hunks: seq<Hunk>): seq<string>
    requires lineNo <= |content| && AllFit(content, lineNo, hunks)
    decreases |hunks|
  {
    if hunks == [] then content else
      var b := CopyEnd(lineNo, hunks[0].sourceStart, |content|);
      SpliceOne(BottomUp(content, b + |OldSide(hunks[0].body)|, hunks[1..]), b, hunks[0].body)
  }

  function Growth(hunks: seq<Hunk>): int {
    if hunks == [] then 0 else |NewSide(hunks[0].body)| - |OldSide(hunks[0].body)| + Growth(hunks[1..])
  }

  /** The line a header names, the first one for `-0,0` as well. */
  function Named(h: Hunk): int {
    if h.sourceStart == 0 then 0 else h.sourceStart - 1
  }

  /** The regions that the headers name are in order and do not overlap. */
  predicate Ordered(lineNo: nat, hunks: seq<Hunk>)
    decreases |hunks|
  {
    hunks == [] ||
    (lineNo <= Named(hunks[0]) && Ordered(Named(hunks[0]) + |OldSide(hunks[0].body)|, hunks[1..]))
  }

  function ByHeader(content: seq<string>, hunks: seq<Hunk>): seq<string> {
    if hunks == [] then content
    else if Named(hunks[0]) < 0 then content
    else SpliceOne(ByHeader(content, hunks[1..]), Named(hunks[0]), hunks[0].body)
  }

  /** Ordered hunks that lie in the file are met where their headers say. */
  lemma {:induction false} OrderedByHeader(content: seq<string>, lineNo: nat, hunks: seq<Hunk>)
    requires lineNo <= |content| && AllFit(content, lineNo, hunks) && Ordered(lineNo, hunks)
    requires forall h <- hunks :: Named(h) <= |content|
    ensures BottomUp(content, lineNo, hunks) == ByHeader(content, hunks)
    decreases |hunks|
  {
    if hunks != [] {
      assert hunks[0] in hunks;
      OrderedByHeader(content, Named(hunks[0]) + |OldSide(hunks[0].body)|, hunks[1..]);
    }
  }

  lemma {:induction false} BodyIsEdited(content: seq<string>, b: nat, body: seq<HunkLine>)
    requires b <= |content|
    ensures
      var e := b + |OldSide(body)|;
      var r := ReplayBody(content, b, body);
      && (r.Ok? <==> e <= |content| && Fits(content[b..e], body))
      && (r.Ok? ==> r.value == (Edited(content[b..e], body), e))
    decreases |body|
  {
    if body != [] {
      var e := b + |OldSide(body)|;
      if body[0].Added? {
        BodyIsEdited(content, b, body[1..]);
      } else if b < |content| {
        BodyIsEdited(content, b + 1, body[1..]);
        if e <= |content| {
          assert content[b..e][1..] == content[b + 1..e];
        }
      }
    }
  }

  // ---------- line by line ----------

  /** The line of the file that a line of the hunk meets. */
  function Met(b: nat, body: seq<HunkLine>, i: nat): nat
    requires i <= |body|
  {
    b + |OldSide(body[..i])|
  }

  lemma FrontSides(body: seq<HunkLine>, i: nat)
    requires 0 < i <= |body|
    ensures |OldSide(body[..i])| == (if body[0].Added? then 0 else 1) + |OldSide(body[1..][..i - 1])|
    ensures |NewSide(body[..i])| == (if body[0].Removed? then 0 else 1) + |NewSide(body[1..][..i - 1])|
  {
    assert body[..i][1..] == body[1..][..i - 1] && body[..i][0] == body[0];
  }

  /** What a line of the hunk asks of the file: to be there, and for context, to be the same up to blanks. */
  predicate Suits(content: seq<string>, p: nat, line: HunkLine) {
    match line
    case Added(_) => true
    case Removed(_) => p < |content|
    case Context(text) => p < |content| && (Strip(text + "\n") == "" || Strip(content[p]) == Strip(text + "\n"))
  }

  /** A hunk is replayed exactly if every line of it suits the line it meets; then an added line is put out as it is, */
  lemma {:induction false} LineReplayed(content: seq<string>, b: nat, body: seq<HunkLine>, i: nat)
    requires b <= |content| && i < |body| && ReplayBody(content, b, body).Ok?
    ensures Suits(content, Met(b, body, i), body[i])
    ensures
      var (made, k) := (ReplayBody(content, b, body).value.0, |NewSide(body[..i])|);
      && (body[i].Added? ==> k < |made| && made[k] == body[i].text + "\n")
      && (body[i].Context? ==> k < |made| && Met(b, body, i) < |content| && made[k] == content[Met(b, body, i)])
    decreases |body|
  {
    if i == 0 {
      assert body[..0] == [];
    } else {
      FrontSides(body, i);
      LineReplayed(content, if body[0].Added? then b else b + 1, body[1..], i - 1);
    }
  }

  lemma SuitBehind(content: seq<string>, b: nat, body: seq<HunkLine>, next: nat, n: nat)
    requires n < |body| && Suits(content, b, body[0]) && next == if body[0].Added? then b else b + 1
    requires forall j :: 0 <= j < n ==> Suits(content, Met(next, body[1..], j), body[1..][j])
    ensures forall j :: 0 <= j < n + 1 ==> Suits(content, Met(b, body, j), body[j])
  {
    assert body[..0] == [];
    forall j | 0 <= j < n + 1 ensures Suits(content, Met(b, body, j), body[j]) {
      if j > 0 {
        FrontSides(body, j);
        assert Suits(content, Met(next, body[1..], j - 1), body[1..][j - 1]);
      }
    }
  }

  /** and the first that does not suit it decides the error. */
  lemma {:induction false} LineRefused(content: seq<string>, b: nat, body: seq<HunkLine>) returns (i: nat)
    requires b <= |content| && ReplayBody(content, b, body).Err?
    ensures i < |body| && !Suits(content, Met(b, body, i), body[i]) && Met(b, body, i) <= |content|
    ensures forall j :: 0 <= j < i ==> Suits(content, Met(b, body, j), body[j])
    ensures
      var (p, e) := (Met(b, body, i), ReplayBody(content, b, body).error);
      if body[i].Removed? then e == RemovePastEnd(p)
      else if p == |content| then e == ContextPastEnd(p)
      else e == ContextMismatch(p)
    decreases |body|
  {
    assert body[..0] == [];
    if !Suits(content, b, body[0]) {
      i := 0;
    } else {
      var next := if body[0].Added? then b else b + 1;
      i := LineRefused(content, next, body[1..]);
      FrontSides(body, i + 1);
      SuitBehind(content, b, body, next, i);
      i := i + 1;
    }
  }

  /** One turn of the replay, with the hunk read as an edit of its region. */
  lemma ReplayStep(content: seq<string>, lineNo: nat, hunks: seq<Hunk>, b: nat, e: nat)
    requires lineNo <= |content| && hunks != [] && b == CopyEnd(lineNo, hunks[0].sourceStart, |content|)
    requires e == b + |OldSide(hunks[0].body)|
    ensures Replay(content, lineNo, hunks).Ok? <==>
              e <= |content| && Fits(content[b..e], hunks[0].body) && Replay(content, e, hunks[1..]).Ok?
    ensures Replay(content, lineNo, hunks).Ok? ==>
              Replay(content, lineNo, hunks).value
              == content[lineNo..b] + Edited(content[b..e], hunks[0].body) + Replay(content, e, hunks[1..]).value
  {
    BodyIsEdited(content, b, hunks[0].body);
  }

  lemma SpliceBelow(content: seq<string>, lineNo: nat, b: nat, body: seq<HunkLine>, rest: seq<string>)
    requires lineNo <= b && b + |OldSide(body)| <= |content|
    ensures
      var e := b + |OldSide(body)|;
      SpliceOne(content[..e] + rest, b, body)
          == content[..lineNo] + (content[lineNo..b] + Edited(content[b..e], body) + rest)
  {
    var e := b + |OldSide(body)|;
    var below := content[..e] + rest;
    assert below[..b] == content[..b] && below[b..e] == content[b..e] && below[e..] == rest;
    assert content[..b] == content[..lineNo] + content[lineNo..b];
  }

  lemma BottomUpStep(content: seq<string>, lineNo: nat, hunks: seq<Hunk>, b: nat, e: nat, rest: seq<string>)
    requires lineNo <= |content| && hunks != [] && b == CopyEnd(lineNo, hunks[0].sourceStart, |content|)
    requires e == b + |OldSide(hunks[0].body)| && AllFit(content, lineNo, hunks)
    requires content[..e] + rest == BottomUp(content, e, hunks[1..])
    ensures content[..lineNo] + (content[lineNo..b] + Edited(content[b..e], hunks[0].body) + rest)
         == BottomUp(content, lineNo, hunks)
  {
    SpliceBelow(content, lineNo, b, hunks[0].body, rest);
  }

  /** Replay succeeds exactly when every hunk fits where it is met, and then equals the bottom-up splice. */
  lemma {:induction false} ReplayIsBottomUp(content: seq<string>, lineNo: nat, hunks: seq<Hunk>)
    requires lineNo <= |content|
    ensures Replay(content, lineNo, hunks).Ok? <==> AllFit(content, lineNo, hunks)
    ensures AllFit(content, lineNo, hunks) ==>
              content[..lineNo] + Replay(content, lineNo, hunks).value == BottomUp(content, lineNo, hunks)
    decreases |hunks|
  {
    if hunks == [] {
      assert content[..lineNo] + content[lineNo..] == content;
    } else {
      var b := CopyEnd(lineNo, hunks[0].sourceStart, |content|);
      var e := b + |OldSide(hunks[0].body)|;
      ReplayStep(content, lineNo, hunks, b, e);
      if e <= |content| {
        ReplayIsBottomUp(content, e, hunks[1..]);
        if AllFit(content, lineNo, hunks) {
          BottomUpStep(content, lineNo, hunks, b, e, Replay(content, e, hunks[1..]).value);
        }
      }
    }
  }

  /** Lines are only lost or gained as the hunks say. */
  lemma {:induction false} ReplayLength(content: seq<string>, lineNo: nat, hunks: seq<Hunk>)
    requires lineNo <= |content| && Replay(content, lineNo, hunks).Ok?
    ensures |Replay(content, lineNo, hunks).value| == |content| - lineNo + Growth(hunks)
    decreases |hunks|
  {
    if hunks != [] {
      var b := CopyEnd(lineNo, hunks[0].sourceStart, |content|);
      var e := b + |OldSide(hunks[0].body)|;
      ReplayStep(content, lineNo, hunks, b, e);
      ReplayLength(content, e, hunks[1..]);
    }
  }

  /** The same for the text of a file. */
  lemma SpliceMeaning(content: string, hunks: seq<Hunk>)
    ensures
      var lines := SplitKeep(content);
      if AllFit(lines, 0, hunks)
      then ReplayText(content, hunks) == Ok(Concat(BottomUp(lines, 0, hunks)))
           && |BottomUp(lines, 0, hunks)| == |lines| + Growth(hunks)
      else ReplayText(content, hunks).Err?
  {
    var lines := SplitKeep(content);
    ReplayIsBottomUp(lines, 0, hunks);
    if AllFit(lines, 0, hunks) {
      ReplayLength(lines, 0, hunks);
      assert lines[..0] + Replay(lines, 0, hunks).value == Replay(lines, 0, hunks).value;
    }
  }
}
