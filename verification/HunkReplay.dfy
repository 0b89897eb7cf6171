/**
 Replaying the hunks of a unified diff on the lines of a file
 (`ContextFile._apply_patched_file`), and what a diff of two texts means for it.
 */
module HunkReplay {
  import opened Prelude
  import opened Text

  datatype HunkLine = Context(text: string) | Added(text: string) | Removed(text: string)

  /** `sourceStart` is the first number of the hunk's `-start,count` range. */
  datatype Hunk = Hunk(sourceStart: int, body: seq<HunkLine>)

  datatype ReplayError =
    | ContextPastEnd(lineNo: nat)
    | ContextMismatch(lineNo: nat)
    | RemovePastEnd(lineNo: nat)

  /** The `value` of a parsed patch line: the patch closes every line. */
  function Value(text: string): string {
    text + "\n"
  }

  // ---------- the replay as a function ----------

  /** How far the copy loop before a hunk runs. */
  function CopyEnd(lineNo: nat, sourceStart: int, count: nat): (e: nat)
    requires lineNo <= count
    ensures lineNo <= e <= count
  {
    if sourceStart - 1 <= lineNo then lineNo
    else if sourceStart - 1 <= count then sourceStart - 1 else count
  }

  /** The lines a hunk body produces from line `lineNo` on, and the line it stops at. */
  function ReplayBody(content: seq<string>, lineNo: nat, body: seq<HunkLine>)
    : (r: Result<(seq<string>, nat), ReplayError>)
    requires lineNo <= |content|
    ensures r.Ok? ==> lineNo <= r.value.1 <= |content|
    decreases |body|
  {
    if body == [] then Ok(([], lineNo)) else
      match body[0]
      case Added(text) =>
        Emit([Value(text)], ReplayBody(content, lineNo, body[1..]))
      case Removed(_) =>
        if lineNo == |content| then Err(RemovePastEnd(lineNo))
        else ReplayBody(content, lineNo + 1, body[1..])
      case Context(text) =>
        if lineNo == |content| then Err(ContextPastEnd(lineNo))
        else if Strip(Value(text)) != "" && Strip(content[lineNo]) != Strip(Value(text))
            then Err(ContextMismatch(lineNo))
        else Emit([content[lineNo]], ReplayBody(content, lineNo + 1, body[1..]))
  }

  function Emit(lines: seq<string>, rest: Result<(seq<string>, nat), ReplayError>)
    : (r: Result<(seq<string>, nat), ReplayError>)
    ensures lines == [] ==> r == rest
  {
    match rest
    case Ok((more, e)) => assert [] + more == more; Ok((lines + more, e))
    case Err(_) => rest
  }

  lemma EmitEmit(a: seq<string>, b: seq<string>, rest: Result<(seq<string>, nat), ReplayError>)
    ensures Emit(a, Emit(b, rest)) == Emit(a + b, rest)
  {
    if rest.Ok? {
      assert a + (b + rest.value.0) == a + b + rest.value.0;
    }
  }

  /** All hunks, and the rest of the file after the last one. */
  function Replay(content: seq<string>, lineNo: nat, hunks: seq<Hunk>): Result<seq<string>, ReplayError>
    requires lineNo <= |content|
    decreases |hunks|
  {
    if hunks == [] then Ok(content[lineNo..]) else
      var b := CopyEnd(lineNo, hunks[0].sourceStart, |content|);
      match ReplayBody(content, b, hunks[0].body)
      case Err(e) => Err(e)
      case Ok((lines, e)) => Prepend(content[lineNo..b] + lines, Replay(content, e, hunks[1..]))
  }

  /** The text `_apply_patched_file` returns. */
  function ReplayText(content: string, hunks: seq<Hunk>): Result<string, ReplayError> {
    match Replay(SplitKeep(content), 0, hunks)
    case Ok(lines) => Ok(Concat(lines))
    case Err(e) => Err(e)
  }

  // ---------- the loops of the source ----------

  /** One turn of the inner loop, as an equation of `ReplayBody`. */
  lemma BodyStep(content: seq<string>, lineNo: nat, produced: seq<string>, body: seq<HunkLine>, k: nat)
    requires lineNo <= |content| && k < |body|
    ensures Emit(produced, ReplayBody(content, lineNo, body[k..])) ==
            match body[k]
            case Added(text) => Emit(produced + [Value(text)], ReplayBody(content, lineNo, body[k + 1..]))
            case Removed(_) =>
              if lineNo == |content| then Err(RemovePastEnd(lineNo))
              else Emit(produced, ReplayBody(content, lineNo + 1, body[k + 1..]))
            case Context(text) =>
              if lineNo == |content| then Err(ContextPastEnd(lineNo))
              else if Strip(Value(text)) != "" && Strip(content[lineNo]) != Strip(Value(text))
                  then Err(ContextMismatch(lineNo))
              else Emit(produced + [content[lineNo]], ReplayBody(content, lineNo + 1, body[k + 1..]))
  {
    assert body[k..][1..] == body[k + 1..];
    match body[k]
    case Added(text) => EmitEmit(produced, [Value(text)], ReplayBody(content, lineNo, body[k + 1..]));
    case Removed(_) =>
    case Context(text) =>
      if lineNo < |content| {
        EmitEmit(produced, [content[lineNo]], ReplayBody(content, lineNo + 1, body[k + 1..]));
      }
  }

  /** The inner loop: the lines of one hunk, from line `start` on. */
  method ApplyBody(contentLines: seq<string>, start: nat, produced: seq<string>, body: seq<HunkLine>)
    returns (r: Result<(seq<string>, nat), ReplayError>)
    requires start <= |contentLines|
    ensures r == Emit(produced, ReplayBody(contentLines, start, body))
  {
    var newContentLines := produced;
    var lineNo: nat := start;
    assert body[0..] == body;
    for k := 0 to |body|
      invariant lineNo <= |contentLines|
      invariant Emit(newContentLines, ReplayBody(contentLines, lineNo, body[k..]))
             == Emit(produced, ReplayBody(contentLines, start, body))
    {
      BodyStep(contentLines, lineNo, newContentLines, body, k);
      match body[k]
      case Context(text) =>
        if lineNo >= |contentLines| {
          return Err(ContextPastEnd(lineNo));
        } else if Strip(Value(text)) != "" && Strip(contentLines[lineNo]) != Strip(Value(text)) {
          return Err(ContextMismatch(lineNo));
        }
        newContentLines := newContentLines + [contentLines[lineNo]];
        lineNo := lineNo + 1;
      case Added(text) =>
        newContentLines := newContentLines + [Value(text)];
      case Removed(_) =>
        if lineNo >= |contentLines| {
          return Err(RemovePastEnd(lineNo));
        }
        lineNo := lineNo + 1;
    }
    assert newContentLines + [] == newContentLines;
    r := Ok((newContentLines, lineNo));
  }

  /** The copy loop before a hunk. */
  method CopyBefore(contentLines: seq<string>, start: nat, produced: seq<string>, sourceStart: int)
    returns (newContentLines: seq<string>, lineNo: nat)
    requires start <= |contentLines|
    ensures lineNo == CopyEnd(start, sourceStart, |contentLines|)
    ensures sourceStart - 1 <= start ==> lineNo == start
    ensures start < sourceStart - 1 <= |contentLines| ==> lineNo == sourceStart - 1
    ensures |contentLines| < sourceStart - 1 ==> lineNo == |contentLines|
    ensures newContentLines == produced + contentLines[start..lineNo]
  {
    newContentLines, lineNo := produced, start;
    while lineNo < sourceStart - 1 && lineNo < |contentLines|
      invariant start <= lineNo <= CopyEnd(start, sourceStart, |contentLines|)
      invariant newContentLines == produced + contentLines[start..lineNo]
    {
      newContentLines := newContentLines + [contentLines[lineNo]];
      lineNo := lineNo + 1;
    }
  }

  /** One turn of the outer loop, as an equation of `Replay`. */
  lemma HunkStep(content: seq<string>, lineNo: nat, produced: seq<string>, hunks: seq<Hunk>, h: nat)
    requires lineNo <= |content| && h < |hunks|
    ensures
      var b := CopyEnd(lineNo, hunks[h].sourceStart, |content|);
      Prepend(produced, Replay(content, lineNo, hunks[h..])) ==
      match Emit(produced + content[lineNo..b], ReplayBody(content, b, hunks[h].body))
      case Err(e) => Err(e)
      case Ok((lines, e)) => Prepend(lines, Replay(content, e, hunks[h + 1..]))
  {
    assert hunks[h..][1..] == hunks[h + 1..];
    var b := CopyEnd(lineNo, hunks[h].sourceStart, |content|);
    match ReplayBody(content, b, hunks[h].body)
    case Err(_) =>
    case Ok((lines, e)) =>
      assert produced + (content[lineNo..b] + lines) == produced + content[lineNo..b] + lines;
      PrependPrepend(produced, content[lineNo..b] + lines, Replay(content, e, hunks[h + 1..]));
  }

  method ApplyPatchedFile(content: string, hunks: seq<Hunk>) returns (r: Result<string, ReplayError>)
    ensures r == ReplayText(content, hunks)
  {
    var contentLines := SplitKeep(content);
    var newContentLines: seq<string> := [];
    var lineNo: nat := 0;
    assert hunks[0..] == hunks;
    for h := 0 to |hunks|
      invariant lineNo <= |contentLines|
      invariant Prepend(newContentLines, Replay(contentLines, lineNo, hunks[h..]))
             == Replay(contentLines, 0, hunks)
    {
      HunkStep(contentLines, lineNo, newContentLines, hunks, h);
      newContentLines, lineNo := CopyBefore(contentLines, lineNo, newContentLines, hunks[h].sourceStart);
      var step := ApplyBody(contentLines, lineNo, newContentLines, hunks[h].body);
      if step.Err? {
        return Err(step.error);
      }
      newContentLines, lineNo := step.value.0, step.value.1;
    }
    assert hunks[|hunks|..] == [];
    if lineNo < |contentLines| {
      newContentLines := newContentLines + contentLines[lineNo..];
    } else {
      assert newContentLines + contentLines[lineNo..] == newContentLines;
    }
    r := Ok(Concat(newContentLines));
  }
}
