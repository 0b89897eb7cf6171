/**
 Taking a ReAct response apart (`_extract_action_blocks`, `_parse_action`) and the layout that the examples
 print: a thought, then any number of actions, each with a name and an input.
 */
module ReAct {
  import opened Prelude
  import opened Text
  import opened Search

  datatype ReActError = MissingAction | MissingNameAndInput

  datatype Action = Action(name: string, input: string)

  // ---------- lower case (ASCII) ----------

  function Lower(s: string): (r: string)
    ensures |r| == |s|
  {
    seq(|s|, k requires 0 <= k < |s| => LowerChar(s[k]))
  }

  lemma LowerConcat(a: string, b: string)
    ensures Lower(a + b) == Lower(a) + Lower(b)
  {
  }

  // ---------- the parser ----------

  const MARKER: string := "action:"

  /** Every occurrence of the marker, from `from` on. */
  function Positions(s: string, from: nat): seq<nat>
    decreases |s| - from
  {
    if from + |MARKER| > |s| then []
    else if OccursAt(s, MARKER, from) then [from] + Positions(s, from + 1)
    else Positions(s, from + 1)
  }

  /** `s[i:j]` */
  function Slice(s: string, i: int, j: int): string
    requires 0 <= i && 0 <= j <= |s|
  {
    if i <= j then s[i..j] else ""
  }

  /** Where the first of the two words is, or -1. */
  function ThoughtStart(text: string): int {
    var (one, many) := (Find(Lower(text), "thought:", 0), Find(Lower(text), "thoughts:", 0));
    if one == -1 then many else if many == -1 || one < many then one else many
  }

  function Thought(text: string, firstAction: nat): string
    requires firstAction <= |text|
  {
    var start := ThoughtStart(text);
    if start < 0 then "" else Strip(Slice(text, Find(text, ":", start) + 1, firstAction))
  }

  ghost predicate Ascending(text: string, positions: seq<nat>) {
    && (forall k :: 0 <= k < |positions| ==> positions[k] + |MARKER| <= |text|)
    && (forall k, l :: 0 <= k < l < |positions| ==> positions[k] + |MARKER| <= positions[l])
  }

  /** The text of the `i`th action, up to the next one or the end. */
  function BlockAt(text: string, positions: seq<nat>, i: nat): string
    requires Ascending(text, positions) && i < |positions|
  {
    if i + 1 < |positions| then Strip(text[positions[i] + |MARKER|..positions[i + 1]])
    else Strip(text[positions[i] + |MARKER|..])
  }

  function Blocks(text: string, positions: seq<nat>): (r: seq<string>)
    requires Ascending(text, positions)
    ensures |r| == |positions|
  {
    seq(|positions|, i requires 0 <= i < |positions| => BlockAt(text, positions, i))
  }

  /** No occurrence of the marker overlaps another, so all of them can start a block. */
  lemma {:induction false} PositionsAscend(s: string, from: nat)
    ensures Ascending(s, Positions(s, from))
    ensures forall k :: 0 <= k < |Positions(s, from)| ==>
              from <= Positions(s, from)[k] && OccursAt(s, MARKER, Positions(s, from)[k])
    decreases |s| - from
  {
    if from + |MARKER| <= |s| {
      PositionsAscend(s, from + 1);
      if OccursAt(s, MARKER, from) {
        var rest := Positions(s, from + 1);
        forall k | 0 <= k < |rest| ensures from + |MARKER| <= rest[k] {
          NoOverlap(s, from, rest[k]);
        }
      }
    }
  }

  lemma AscendingFor(text: string)
    ensures Ascending(text, Markers(text))
  {
    PositionsAscend(Lower(text), 0);
  }

  lemma NoOverlap(s: string, p: nat, q: nat)
    requires p < q && OccursAt(s, MARKER, p) && OccursAt(s, MARKER, q)
    ensures p + |MARKER| <= q
  {
    CharOf(s, MARKER, q, 0);
    if q < p + |MARKER| {
      CharOf(s, MARKER, p, q - p);
    }
  }

  ghost predicate UpTo(s: string, pos: nat, found: seq<nat>) {
    found + Positions(s, pos) == Positions(s, 0)
  }

  lemma NextMarker(s: string, pos: nat, found: seq<nat>)
    requires UpTo(s, pos, found)
    ensures
      var r := Find(s, MARKER, pos);
      if r == -1 then found == Positions(s, 0) else UpTo(s, r + 1, found + [r])
  {
    SkipToMarker(s, pos);
    var r := Find(s, MARKER, pos);
    if r == -1 {
      assert found + [] == found;
    } else {
      assert found + ([r] + Positions(s, r + 1)) == found + [r] + Positions(s, r + 1);
    }
  }

  /** The scan: it goes on one character behind the last marker. */
  method FindMarkers(responseLower: string) returns (actionPositions: seq<nat>)
    ensures actionPositions == Positions(responseLower, 0)
  {
    actionPositions := [];
    var pos: int := 0;
    while true
      invariant 0 <= pos <= |responseLower|
      invariant UpTo(responseLower, pos, actionPositions)
      decreases |responseLower| - pos
    {
      NextMarker(responseLower, pos, actionPositions);
      pos := Find(responseLower, MARKER, pos);
      if pos == -1 {
        break;
      }
      actionPositions := actionPositions + [pos];
      pos := pos + 1;
    }
  }

  method ExtractActionBlocks(responseText: string) returns (r: Result<(string, seq<string>), ReActError>)
    ensures Ascending(responseText, Markers(responseText))
    ensures r == Extracted(responseText)
  {
    PositionsAscend(Lower(responseText), 0);
    var actionPositions := FindMarkers(Lower(responseText));
    if actionPositions == [] {
      return Err(MissingAction);
    }
    var thought := Thought(responseText, actionPositions[0]);
    var actionBlocks := CutBlocks(responseText, actionPositions);
    r := Ok((thought, actionBlocks));
  }

  /** The thought, and a block for every marker. */
  function Extracted(text: string): Result<(string, seq<string>), ReActError> {
    PositionsAscend(Lower(text), 0);
    var positions := Markers(text);
    if positions == [] then Err(MissingAction) else Ok((Thought(text, positions[0]), Blocks(text, positions)))
  }

  lemma {:induction false} SkipToMarker(s: string, from: nat)
    ensures
      var r := Find(s, MARKER, from);
      Positions(s, from) == if r == -1 then [] else [r] + Positions(s, r + 1)
    decreases |s| - from
  {
    if from + |MARKER| <= |s| && !OccursAt(s, MARKER, from) {
      SkipToMarker(s, from + 1);
    }
  }

  method CutBlocks(text: string, positions: seq<nat>) returns (blocks: seq<string>)
    requires Ascending(text, positions)
    ensures blocks == Blocks(text, positions)
  {
    blocks := [];
    for i := 0 to |positions|
      invariant |blocks| == i
      invariant forall k :: 0 <= k < i ==> blocks[k] == BlockAt(text, positions, k)
    {
      if i < |positions| - 1 {
        blocks := blocks + [Strip(text[positions[i] + |MARKER|..positions[i + 1]])];
      } else {
        blocks := blocks + [Strip(text[positions[i] + |MARKER|..])];
      }
    }
  }

  /** Name and input, divided by the first line break. */
  function ParseAction(block: string): Result<Action, ReActError> {
    var n := LineLength(block);
    if n == |block| then Err(MissingNameAndInput) else Ok(Action(Strip(block[..n]), Strip(block[n + 1..])))
  }

  // ---------- the printer ----------

  function PrintAction(a: Action): string {
    "Action: " + a.name + "\n" + a.input + "\n"
  }

  function PrintActions(actions: seq<Action>): string {
    if actions == [] then "" else PrintAction(actions[0]) + PrintActions(actions[1..])
  }

  function Print(thought: string, actions: seq<Action>): string {
    "Thoughts: " + thought + "\n" + PrintActions(actions)
  }

  /** The layout, for one action and any others behind it. */
  lemma Printed(thought: string, name: string, input: string, rest: seq<Action>)
    ensures Print(thought, [Action(name, input)] + rest)
         == "Thoughts: " + thought + "\nAction: " + name + "\n" + input + "\n" + PrintActions(rest)
    ensures Print(thought, []) == "Thoughts: " + thought + "\n"
  {
    var a := Action(name, input);
    assert ([a] + rest)[1..] == rest && ([a] + rest)[0] == a;
    Regroup("Thoughts: " + thought + "\n", PrintAction(a), PrintActions(rest));
    assert "Thoughts: " + thought + "\n" + PrintAction(a)
        == "Thoughts: " + thought + "\nAction: " + name + "\n" + input + "\n";
  }

  // ---------- where the markers are ----------

  /** Where the markers of a text are, in any case. */
  function Markers(s: string): seq<nat> {
    Positions(Lower(s), 0)
  }

  predicate Free(s: string) {
    Markers(s) == []
  }

  function Shifted(positions: seq<nat>, offset: nat): (r: seq<nat>)
    ensures |r| == |positions|
  {
    seq(|positions|, k requires 0 <= k < |positions| => positions[k] + offset)
  }

  lemma OccursBehind(a: string, b: string, i: nat)
    requires i >= |a|
    ensures OccursAt(a + b, MARKER, i) <==> OccursAt(b, MARKER, i - |a|)
  {
    if i + |MARKER| <= |a + b| {
      assert (a + b)[i..i + |MARKER|] == b[i - |a|..i - |a| + |MARKER|];
    }
  }

  lemma OccursBefore(a: string, w: char, b: string, i: nat)
    requires i <= |a| && IsSpace(w)
    ensures OccursAt(a + [w] + b, MARKER, i) <==> OccursAt(a, MARKER, i)
  {
    var s := a + [w] + b;
    if i + |MARKER| <= |a| {
      assert s[i..i + |MARKER|] == a[i..i + |MARKER|];
    } else if OccursAt(s, MARKER, i) {
      CharOf(s, MARKER, i, |a| - i);
    }
  }

  lemma {:induction false} PositionsBehind(a: string, b: string, i: nat)
    requires i >= |a|
    ensures Positions(a + b, i) == Shifted(Positions(b, i - |a|), |a|)
    decreases |a + b| - i
  {
    if i + |MARKER| <= |a + b| {
      OccursBehind(a, b, i);
      PositionsBehind(a, b, i + 1);
    }
  }

  /** No marker reaches across a blank. */
  lemma {:induction false} PositionsAcross(a: string, w: char, b: string, i: nat)
    requires i <= |a| && IsSpace(w)
    ensures Positions(a + [w] + b, i) == Positions(a, i) + Shifted(Positions(b, 0), |a| + 1)
    decreases |a| - i
  {
    var s := a + [w] + b;
    OccursBefore(a, w, b, i);
    if i < |a| {
      PositionsAcross(a, w, b, i + 1);
      assert i + |MARKER| > |a| ==> Positions(a, i) == [] && Positions(a, i + 1) == [];
    } else {
      PositionsBehind(a + [w], b, |a| + 1);
      assert Positions(a, |a|) == [];
      assert [] + Shifted(Positions(b, 0), |a| + 1) == Shifted(Positions(b, 0), |a| + 1);
    }
  }

  lemma FreeOf(s: string)
    requires forall k :: 0 <= k < |s| ==> LowerChar(s[k]) != 'a'
    ensures Free(s)
  {
    NoStart(Lower(s), 0);
  }

  lemma {:induction false} NoStart(s: string, i: nat)
    requires forall k :: i <= k < |s| ==> s[k] != 'a'
    ensures Positions(s, i) == []
    decreases |s| - i
  {
    if i + |MARKER| <= |s| {
      if OccursAt(s, MARKER, i) {
        CharOf(s, MARKER, i, 0);
      }
      NoStart(s, i + 1);
    }
  }

  /** The markers of texts joined by a blank are those of the texts. */
  lemma MarkersAcross(a: string, w: char, b: string)
    requires IsSpace(w)
    ensures Markers(a + [w] + b) == Markers(a) + Shifted(Markers(b), |a| + 1)
  {
    LowerConcat(a, [w]);
    LowerConcat(a + [w], b);
    assert Lower([w]) == [w];
    PositionsAcross(Lower(a), w, Lower(b), 0);
  }

  lemma ShiftedTwice(positions: seq<nat>, a: nat, b: nat)
    ensures Shifted(Shifted(positions, a), b) == Shifted(positions, a + b)
  {
  }

  lemma BehindFree(a: string, w: char, b: string)
    requires Free(a) && IsSpace(w)
    ensures Markers(a + [w] + b) == Shifted(Markers(b), |a| + 1)
  {
    MarkersAcross(a, w, b);
    assert [] + Shifted(Markers(b), |a| + 1) == Shifted(Markers(b), |a| + 1);
  }

  lemma MarkerAlone()
    ensures Markers("Action:") == [0]
  {
    assert Lower("Action:") == MARKER;
    assert MARKER[0..7] == MARKER;
    assert Positions(MARKER, 1) == [];
  }

  /** Where the actions start when `start` characters come before them. */
  function Starts(actions: seq<Action>, start: nat): seq<nat> {
    if actions == [] then [] else [start] + Starts(actions[1..], start + |PrintAction(actions[0])|)
  }

  predicate AllFree(actions: seq<Action>) {
    forall k :: 0 <= k < |actions| ==> Free(actions[k].name) && Free(actions[k].input)
  }

  lemma {:induction false} ShiftedStarts(actions: seq<Action>, start: nat, offset: nat)
    ensures Shifted(Starts(actions, start), offset) == Starts(actions, start + offset)
  {
    if actions != [] {
      ShiftedStarts(actions[1..], start + |PrintAction(actions[0])|, offset);
      var rest := Starts(actions[1..], start + |PrintAction(actions[0])|);
      assert Shifted([start] + rest, offset) == [start + offset] + Shifted(rest, offset);
    }
  }

  lemma NameAndInput(a: Action, rest: string)
    requires Free(a.name) && Free(a.input)
    ensures Markers(a.name + "\n" + (a.input + "\n" + rest)) == Shifted(Markers(rest), |a.name| + |a.input| + 2)
  {
    BehindFree(a.input, '\n', rest);
    BehindFree(a.name, '\n', a.input + "\n" + rest);
    ShiftedTwice(Markers(rest), |a.input| + 1, |a.name| + 1);
  }

  lemma PrintedAction(a: Action, rest: string)
    ensures PrintAction(a) + rest == "Action:" + " " + (a.name + "\n" + (a.input + "\n" + rest))
    ensures |PrintAction(a)| == |a.name| + |a.input| + 10
  {
  }

  /** What is printed of an action holds one marker, at its start. */
  lemma AfterAction(a: Action, rest: string)
    requires Free(a.name) && Free(a.input)
    ensures Markers(PrintAction(a) + rest) == [0] + Shifted(Markers(rest), |PrintAction(a)|)
  {
    var behind := a.name + "\n" + (a.input + "\n" + rest);
    NameAndInput(a, rest);
    PrintedAction(a, rest);
    MarkersAcross("Action:", ' ', behind);
    MarkerAlone();
    ShiftedTwice(Markers(rest), |a.name| + |a.input| + 2, 8);
  }

  lemma {:induction false} ActionMarkers(actions: seq<Action>)
    requires AllFree(actions)
    ensures Markers(PrintActions(actions)) == Starts(actions, 0)
  {
    if actions == [] {
      FreeOf("");
    } else {
      ActionMarkers(actions[1..]);
      AfterAction(actions[0], PrintActions(actions[1..]));
      ShiftedStarts(actions[1..], 0, |PrintAction(actions[0])|);
    }
  }

  lemma ThoughtsFree(thought: string)
    requires Free(thought)
    ensures Free("Thoughts: " + thought)
  {
    FreeOf("Thoughts:");
    BehindFree("Thoughts:", ' ', thought);
    assert "Thoughts:" + " " == "Thoughts: ";
  }

  /** In a whole print the markers are those of the actions. */
  lemma PrintMarkers(thought: string, actions: seq<Action>)
    requires Free(thought) && AllFree(actions)
    ensures Markers(Print(thought, actions)) == Starts(actions, |thought| + 11)
  {
    ThoughtsFree(thought);
    BehindFree("Thoughts: " + thought, '\n', PrintActions(actions));
    ActionMarkers(actions);
    ShiftedStarts(actions, 0, |thought| + 11);
  }

  // ---------- the pieces ----------

  predicate Trimmed(s: string) {
    Strip(s) == s
  }

  /** A non-empty trimmed text starts and ends with characters that are not blank. */
  lemma TrimmedEnds(s: string)
    requires s != ""
    ensures Trimmed(s) <==> !IsSpace(s[0]) && !IsSpace(s[|s| - 1])
  {
    LStripShape(s);
    RStripShape(LStrip(s));
  }

  lemma StripPadded(a: string, s: string, b: string)
    requires forall k :: 0 <= k < |a| ==> IsSpace(a[k])
    requires forall k :: 0 <= k < |b| ==> IsSpace(b[k])
    requires Trimmed(s)
    ensures Strip(a + s + b) == s
  {
    assert a + s + b == a + (s + b);
    LStripPad(a, s + b);
    if s == "" {
      LStripPad(b, "");
      assert s + b == b + "";
    } else {
      TrimmedEnds(s);
      assert LStrip(s + b) == s + b;
      RStripPad(s, b);
      assert LStrip(s) == s;
    }
  }

  /** One printed action is parsed back exactly if it has a name and an input. */
  lemma ParseBlockIff(a: Action)
    requires Trimmed(a.name) && Trimmed(a.input) && '\n' !in a.name
    ensures ParseAction(Strip(PrintAction(a)[|MARKER|..])) == Ok(a) <==> a.name != "" && a.input != ""
  {
    var (name, input) := (a.name, a.input);
    assert PrintAction(a)[|MARKER|..] == " " + name + "\n" + input + "\n";
    if name != "" && input != "" {
      FullBlock(a);
    } else if name != "" {
      assert " " + name + "\n" + "" + "\n" == " " + name + "\n\n";
      StripPadded(" ", name, "\n\n");
      NoBreak(name);
    } else {
      assert " " + "" + "\n" + input + "\n" == " \n" + input + "\n";
      StripPadded(" \n", input, "\n");
      NamedByInput(input);
    }
  }

  /** Without a name the input is taken for it, and without an input nothing divides them: neither can be read. */
  lemma ActionsLost()
    ensures ParseAction(Strip(PrintAction(Action("", "x"))[|MARKER|..])) == Err(MissingNameAndInput)
    ensures ParseAction(Strip(PrintAction(Action("x", ""))[|MARKER|..])) == Err(MissingNameAndInput)
  {
    assert PrintAction(Action("", "x"))[|MARKER|..] == " \n" + "x" + "\n";
    assert PrintAction(Action("x", ""))[|MARKER|..] == " " + "x" + "\n\n";
    assert "x"[1..] == "" && Strip("x") == "x";
    StripPadded(" \n", "x", "\n");
    StripPadded(" ", "x", "\n\n");
    NoBreak("x");
  }

  lemma FullBlock(a: Action)
    requires Trimmed(a.name) && Trimmed(a.input) && '\n' !in a.name && a.name != "" && a.input != ""
    ensures ParseAction(Strip(" " + a.name + "\n" + a.input + "\n")) == Ok(a)
  {
    var block := a.name + "\n" + a.input;
    TrimmedEnds(a.name);
    TrimmedEnds(a.input);
    TrimmedEnds(block);
    StripPadded(" ", block, "\n");
    assert " " + block + "\n" == " " + a.name + "\n" + a.input + "\n";
    LineLengthFree(a.name, "\n" + a.input);
    assert block == a.name + ("\n" + a.input);
    assert block[..|a.name|] == a.name && block[|a.name| + 1..] == a.input;
  }

  lemma BreakIn(s: string, i: nat)
    ensures i < |s| && s[i] == '\n' ==> '\n' in s
  {
  }

  lemma NoBreak(s: string)
    requires '\n' !in s
    ensures ParseAction(s) == Err(MissingNameAndInput)
  {
    BreakIn(s, LineLength(s));
  }

  lemma NamedByInput(input: string)
    requires Trimmed(input)
    ensures ParseAction(input).Ok? ==> ParseAction(input).value.name != ""
  {
    if input != "" {
      TrimmedEnds(input);
      var line := input[..LineLength(input)];
      if line != "" {
        LStripShape(line);
        RStripNonEmpty(line);
      }
    }
  }

  lemma {:induction false} RStripNonEmpty(s: string)
    requires s != "" && !IsSpace(s[0])
    ensures RStrip(s) != ""
  {
    if IsSpace(s[|s| - 1]) {
      RStripNonEmpty(s[..|s| - 1]);
    }
  }

  // ---------- print, then parse ----------

  /** Blocks beyond `max_actions` are dropped; 0 sets no limit. */
  function Limited<T>(items: seq<T>, maxActions: nat): seq<T> {
    if maxActions != 0 && |items| > maxActions then items[..maxActions] else items
  }

  /** The first block that cannot be parsed decides. */
  function ParseAll(blocks: seq<string>): Result<seq<Action>, ReActError> {
    if blocks == [] then Ok([])
    else
      match ParseAction(blocks[0])
      case Err(e) => Err(e)
      case Ok(first) => Prepend([first], ParseAll(blocks[1..]))
  }

  function Parsed(text: string, maxActions: nat): Result<(string, seq<Action>), ReActError> {
    match Extracted(text)
    case Err(e) => Err(e)
    case Ok((thought, blocks)) =>
      match ParseAll(Limited(blocks, maxActions))
      case Err(e) => Err(e)
      case Ok(actions) => Ok((thought, actions))
  }

  ghost predicate ParsedUpTo(blocks: seq<string>, i: nat, actions: seq<Action>)
    requires i <= |blocks|
  {
    ParseAll(blocks) == Prepend(actions, ParseAll(blocks[i..]))
  }

  lemma ParsedNone(blocks: seq<string>)
    ensures ParsedUpTo(blocks, 0, [])
  {
    assert blocks[0..] == blocks;
    var r := ParseAll(blocks);
    if r.Ok? {
      assert [] + r.value == r.value;
    }
  }

  lemma ParsedMore(blocks: seq<string>, i: nat, actions: seq<Action>)
    requires i < |blocks| && ParsedUpTo(blocks, i, actions)
    ensures
      match ParseAction(blocks[i])
      case Err(e) => ParseAll(blocks) == Err(e)
      case Ok(first) => ParsedUpTo(blocks, i + 1, actions + [first])
  {
    assert blocks[i..][1..] == blocks[i + 1..];
    if ParseAction(blocks[i]).Ok? {
      PrependPrepend(actions, [ParseAction(blocks[i]).value], ParseAll(blocks[i + 1..]));
    }
  }

  /** `_validate_completion` up to the look-up of the action classes: the first block that cannot be parsed ends it. */
  method Parse(responseText: string, maxActions: nat) returns (r: Result<(string, seq<Action>), ReActError>)
    ensures r == Parsed(responseText, maxActions)
  {
    var extracted := ExtractActionBlocks(responseText);
    if extracted.Err? {
      return Err(extracted.error);
    }
    var blocks := Limited(extracted.value.1, maxActions);
    var parsed := ParseBlocks(blocks);
    match parsed {
      case Err(e) => r := Err(e);
      case Ok(actions) => r := Ok((extracted.value.0, actions));
    }
  }

  method ParseBlocks(blocks: seq<string>) returns (r: Result<seq<Action>, ReActError>)
    ensures r == ParseAll(blocks)
  {
    var actions: seq<Action> := [];
    ParsedNone(blocks);
    for i := 0 to |blocks|
      invariant ParsedUpTo(blocks, i, actions)
    {
      ParsedMore(blocks, i, actions);
      match ParseAction(blocks[i]) {
        case Err(e) => return Err(e);
        case Ok(action) => actions := actions + [action];
      }
    }
    PrependNothing<Action, ReActError>(actions);
    r := Ok(actions);
  }

  /** What the layout demands of the pieces. */
  predicate WellFormed(thought: string, actions: seq<Action>) {
    Trimmed(thought) && forall a <- actions :: Trimmed(a.name) && Trimmed(a.input) && '\n' !in a.name
  }

  predicate Complete(actions: seq<Action>) {
    forall k :: 0 <= k < |actions| ==> actions[k].name != "" && actions[k].input != ""
  }

  // ---------- what is read of any text ----------

  /** The word that announces the thought is at `p`, in any case, and ends with the colon at `c`. */
  predicate Announced(text: string, p: nat, c: nat) {
    (OccursAt(Lower(text), "thought:", p) && c == p + 7) || (OccursAt(Lower(text), "thoughts:", p) && c == p + 8)
  }

  lemma LowerColon(text: string, i: nat)
    requires i < |text|
    ensures Lower(text)[i] == ':' <==> text[i] == ':'
  {
  }

  /** A word that ends in its only colon. */
  lemma WordColon(text: string, word: string, n: nat, p: nat)
    requires OccursAt(Lower(text), word, p) && |word| == n + 1 && word[n] == ':'
    requires forall i :: 0 <= i < n ==> word[i] != ':'
    ensures p + n < |text| && Find(text, ":", p) == p + n
  {
    forall i | p <= i < p + n ensures !OccursAt(text, ":", i) {
      CharOf(Lower(text), word, p, i - p);
      LowerColon(text, i);
      if OccursAt(text, ":", i) {
        CharOf(text, ":", i, 0);
      }
    }
    CharOf(Lower(text), word, p, n);
    LowerColon(text, p + n);
    assert text[p + n..p + n + 1] == ":";
    FindIs(text, ":", p, p + n);
  }

  lemma AnnouncedColon(text: string, p: nat, c: nat)
    requires Announced(text, p, c)
    ensures c < |text| && Find(text, ":", p) == c
  {
    if c == p + 7 {
      WordColon(text, "thought:", 7, p);
    } else {
      WordColon(text, "thoughts:", 8, p);
    }
  }

  /** The first of the words is at `p`. */
  ghost predicate FirstAnnounced(text: string, p: nat, c: nat) {
    Announced(text, p, c) && forall i: nat, d: nat :: i < p ==> !Announced(text, i, d)
  }

  lemma StartAnnounced(text: string)
    ensures
      var start := ThoughtStart(text);
      start != -1 ==> start >= 0 && (Announced(text, start, start + 7) || Announced(text, start, start + 8))
    ensures forall p: nat, c: nat :: Announced(text, p, c) ==> 0 <= ThoughtStart(text) <= p
  {
    var lower := Lower(text);
    forall p: nat, c: nat | Announced(text, p, c) ensures 0 <= ThoughtStart(text) <= p {
      if c == p + 7 {
        FindIsFirst(lower, "thought:", 0, p);
      } else {
        FindIsFirst(lower, "thoughts:", 0, p);
      }
    }
  }

  /** The thought is what stands between the colon of the first word, singular or plural, and the first action. */
  lemma ThoughtIs(text: string, p: nat, c: nat, q: nat)
    requires FirstAnnounced(text, p, c) && q <= |text|
    ensures Thought(text, q) == if c + 1 <= q then Strip(text[c + 1..q]) else ""
  {
    StartAnnounced(text);
    AnnouncedColon(text, p, c);
    assert ThoughtStart(text) == p;
    assert Strip("") == "";
  }

  /** Without that word there is none. */
  lemma NoThought(text: string, q: nat)
    requires q <= |text| && forall p: nat, c: nat :: !Announced(text, p, c)
    ensures Thought(text, q) == ""
  {
    StartAnnounced(text);
  }

  lemma {:induction false} AllPositions(s: string, from: nat, i: nat)
    requires from <= i && OccursAt(s, MARKER, i)
    ensures i in Positions(s, from)
    decreases |s| - from
  {
    if !OccursAt(s, MARKER, from) || from < i {
      AllPositions(s, from + 1, i);
    }
  }

  /** The markers are where the word is, in any case, and never overlap. */
  lemma MarkersAre(text: string)
    ensures forall i: nat :: i in Markers(text) <==> OccursAt(Lower(text), "action:", i)
    ensures forall k, l :: 0 <= k < l < |Markers(text)| ==> Markers(text)[k] + 7 <= Markers(text)[l]
    ensures forall k :: 0 <= k < |Markers(text)| ==> Markers(text)[k] + 7 <= |text|
  {
    PositionsAscend(Lower(text), 0);
    forall i: nat ensures i in Markers(text) <==> OccursAt(Lower(text), "action:", i) {
      if OccursAt(Lower(text), MARKER, i) {
        AllPositions(Lower(text), 0, i);
      }
    }
  }

  /** Nothing is read of a text without a marker; else what stands behind each one, up to the next or the end. */
  lemma BlockIs(text: string, k: nat)
    ensures
      var at := Markers(text);
      && (at == [] <==> Extracted(text) == Err(MissingAction))
      && (at != [] ==> Extracted(text).Ok? && |Extracted(text).value.1| == |at|)
      && (k < |at| ==>
            var end := if k + 1 < |at| then at[k + 1] else |text|;
            at[k] + 7 <= end <= |text| && Extracted(text).value.1[k] == Strip(text[at[k] + 7..end]))
  {
    var at := Markers(text);
    MarkersAre(text);
    AscendingFor(text);
    if k < |at| {
      assert Extracted(text).value.1[k] == BlockAt(text, at, k);
      assert text[at[k] + 7..] == text[at[k] + 7..|text|];
    }
  }

  /** The thought, whichever of the two words comes first, or none of them. */
  lemma ThoughtRead(text: string, p: nat, c: nat)
    requires Extracted(text).Ok?
    ensures
      var (thought, q) := (Extracted(text).value.0, Markers(text)[0]);
      && q <= |text|
      && (FirstAnnounced(text, p, c) ==> thought == if c + 1 <= q then Strip(text[c + 1..q]) else "")
      && ((forall i: nat, d: nat :: !Announced(text, i, d)) ==> thought == "")
  {
    MarkersAre(text);
    var q := Markers(text)[0];
    if FirstAnnounced(text, p, c) {
      ThoughtIs(text, p, c, q);
    }
    if forall i: nat, d: nat :: !Announced(text, i, d) {
      NoThought(text, q);
    }
  }

  /** The name is on the first line of a block, the input on the others, and a block of one line has neither. */
  lemma ParseActionIs(line: string, rest: string)
    requires '\n' !in line
    ensures ParseAction(line + "\n" + rest) == Ok(Action(Strip(line), Strip(rest)))
    ensures ParseAction(line) == Err(MissingNameAndInput)
  {
    LineLengthFree(line, "\n" + rest);
    assert line + "\n" + rest == line + ("\n" + rest);
    assert (line + "\n" + rest)[..|line|] == line && (line + "\n" + rest)[|line| + 1..] == rest;
    NoBreak(line);
  }

  lemma {:induction false} ParseAllIs(blocks: seq<string>)
    ensures (forall k :: 0 <= k < |blocks| ==> ParseAction(blocks[k]).Ok?) <==> ParseAll(blocks).Ok?
    ensures ParseAll(blocks).Err? ==> ParseAll(blocks) == Err(MissingNameAndInput)
    ensures ParseAll(blocks).Ok? ==>
              && |ParseAll(blocks).value| == |blocks|
              && forall k :: 0 <= k < |blocks| ==> ParseAction(blocks[k]) == Ok(ParseAll(blocks).value[k])
  {
    if blocks != [] {
      ParseAllIs(blocks[1..]);
      assert forall k :: 1 <= k < |blocks| ==> blocks[k] == blocks[1..][k - 1];
    }
  }

  /** The blocks up to the limit are parsed, all of them or none; blocks beyond it do not matter. */
  lemma ParsedIs(text: string, maxActions: nat)
    ensures Extracted(text).Err? ==> Parsed(text, maxActions) == Err(MissingAction)
    ensures Extracted(text).Ok? ==>
              var (thought, blocks) := Extracted(text).value;
              ParsedFrom(thought, if maxActions == 0 || |blocks| < maxActions then blocks else blocks[..maxActions],
                Parsed(text, maxActions))
  {
    if Extracted(text).Ok? {
      var blocks := Extracted(text).value.1;
      ParseAllIs(Limited(blocks, maxActions));
      assert maxActions == |blocks| ==> blocks[..maxActions] == blocks;
    }
  }

  ghost predicate ParsedFrom(thought: string, blocks: seq<string>, r: Result<(string, seq<Action>), ReActError>) {
    if exists k :: 0 <= k < |blocks| && ParseAction(blocks[k]).Err? then r == Err(MissingNameAndInput)
    else
      && r.Ok? && r.value.0 == thought && |r.value.1| == |blocks|
      && forall k :: 0 <= k < |blocks| ==> ParseAction(blocks[k]) == Ok(r.value.1[k])
  }

  /** In a text that starts with the word, the thought is what stands behind it. */
  lemma ThoughtFrom(text: string, end: nat)
    requires |text| >= 9 && text[..9] == "Thoughts:" && 9 <= end <= |text|
    ensures Thought(text, end) == Strip(text[9..end])
  {
    assert forall k :: 0 <= k < 9 ==> text[k] == text[..9][k];
    assert Lower(text)[0..9] == "thoughts:";
    assert Announced(text, 0, 8);
    ThoughtIs(text, 0, 8, end);
  }

  lemma SingularFrom(text: string, end: nat)
    requires |text| >= 8 && text[..8] == "Thought:" && 8 <= end <= |text|
    ensures Thought(text, end) == Strip(text[8..end])
  {
    assert forall k :: 0 <= k < 8 ==> text[k] == text[..8][k];
    assert Lower(text)[0..8] == "thought:";
    assert Announced(text, 0, 7);
    ThoughtIs(text, 0, 7, end);
  }

  /** The thought is found at the front, whatever it says, behind either word. */
  lemma ThoughtPrinted(thought: string, rest: string)
    requires Trimmed(thought)
    ensures Thought("Thoughts: " + thought + "\n" + rest, |thought| + 11) == thought
    ensures Thought("Thought: " + thought + "\n" + rest, |thought| + 10) == thought
  {
    ThoughtFront(thought, rest);
    ThoughtFrom("Thoughts: " + thought + "\n" + rest, |thought| + 11);
    SingularFront(thought, rest);
    SingularFrom("Thought: " + thought + "\n" + rest, |thought| + 10);
    StripPadded(" ", thought, "\n");
  }

  lemma SingularFront(thought: string, rest: string)
    ensures
      var text := "Thought: " + thought + "\n" + rest;
      text[..8] == "Thought:" && text[8..|thought| + 10] == " " + thought + "\n"
  {
    var text := "Thought: " + thought + "\n" + rest;
    assert text == "Thought:" + (" " + thought + "\n") + rest;
  }

  lemma ThoughtFront(thought: string, rest: string)
    ensures
      var text := "Thoughts: " + thought + "\n" + rest;
      text[..9] == "Thoughts:" && text[9] == ' ' && text[9..|thought| + 11] == " " + thought + "\n"
  {
    var text := "Thoughts: " + thought + "\n" + rest;
    assert text == "Thoughts:" + (" " + thought + "\n") + rest;
  }

  lemma {:induction false} ParseAllIff(blocks: seq<string>, actions: seq<Action>)
    requires |blocks| == |actions|
    requires forall k :: 0 <= k < |blocks| ==>
      (ParseAction(blocks[k]) == Ok(actions[k]) <==> actions[k].name != "" && actions[k].input != "")
    ensures ParseAll(blocks) == Ok(actions) <==> Complete(actions)
  {
    if blocks != [] {
      ParseAllIff(blocks[1..], actions[1..]);
      assert actions == [actions[0]] + actions[1..];
      assert Complete(actions) <==> Complete([actions[0]]) && Complete(actions[1..]);
      if ParseAll(blocks) == Ok(actions) {
        ParsedParts(blocks, actions);
      }
    }
  }

  lemma ParsedParts(blocks: seq<string>, actions: seq<Action>)
    requires blocks != [] && ParseAll(blocks) == Ok(actions)
    ensures actions != [] && ParseAction(blocks[0]) == Ok(actions[0]) && ParseAll(blocks[1..]) == Ok(actions[1..])
  {
    var rest := ParseAll(blocks[1..]).value;
    assert ([ParseAction(blocks[0]).value] + rest)[1..] == rest;
  }

  /** Without an action a printed response is refused. */
  lemma NothingToParse(thought: string, maxActions: nat)
    requires Free(thought)
    ensures Parsed(Print(thought, []), maxActions) == Err(MissingAction)
  {
    PrintMarkers(thought, []);
  }

  // ---------- pieces that may hold the marker ----------

  lemma {:induction false} StartsLength(actions: seq<Action>, start: nat)
    ensures |Starts(actions, start)| == |actions|
  {
    if actions != [] {
      StartsLength(actions[1..], start + |PrintAction(actions[0])|);
    }
  }

  lemma {:induction false} PrintSplit(actions: seq<Action>, k: nat)
    requires k <= |actions|
    ensures PrintActions(actions) == PrintActions(actions[..k]) + PrintActions(actions[k..])
  {
    if k == 0 {
      assert actions[..0] == [] && actions[0..] == actions;
    } else {
      PrintSplit(actions[1..], k - 1);
      assert actions[1..][k - 1..] == actions[k..] && actions[..k][1..] == actions[1..][..k - 1];
      Regroup(PrintAction(actions[0]), PrintActions(actions[..k][1..]), PrintActions(actions[k..]));
    }
  }

  /** The markers behind the first `k` actions, if these hold none of their own. */
  lemma {:induction false} MarkersBehind(actions: seq<Action>, k: nat)
    requires k <= |actions| && AllFree(actions[..k])
    ensures Markers(PrintActions(actions))
         == Starts(actions[..k], 0) + Shifted(Markers(PrintActions(actions[k..])), |PrintActions(actions[..k])|)
  {
    if k == 0 {
      assert actions[..0] == [] && actions[0..] == actions;
    } else {
      var (a, rest) := (actions[0], actions[1..]);
      var done := rest[..k - 1];
      assert actions[..k] == [a] + done && rest[k - 1..] == actions[k..];
      FreeTail(a, done);
      MarkersBehind(rest, k - 1);
      AfterAction(a, PrintActions(rest));
      StartsBehind(a, done, Markers(PrintActions(actions[k..])));
    }
  }

  lemma FreeTail(a: Action, done: seq<Action>)
    requires AllFree([a] + done)
    ensures Free(a.name) && Free(a.input) && AllFree(done)
  {
    assert ([a] + done)[0] == a;
    assert forall i :: 0 <= i < |done| ==> done[i] == ([a] + done)[i + 1];
  }

  lemma StartsBehind(a: Action, done: seq<Action>, later: seq<nat>)
    ensures [0] + Shifted(Starts(done, 0) + Shifted(later, |PrintActions(done)|), |PrintAction(a)|)
         == Starts([a] + done, 0) + Shifted(later, |PrintActions([a] + done)|)
  {
    var n := |PrintAction(a)|;
    assert ([a] + done)[1..] == done;
    ShiftedStarts(done, 0, n);
    ShiftedSum(Starts(done, 0), Shifted(later, |PrintActions(done)|), n);
    ShiftedTwice(later, |PrintActions(done)|, n);
    Regroup([0], Starts(done, n), Shifted(later, |PrintActions(done)| + n));
  }

  lemma ShiftedSum(a: seq<nat>, b: seq<nat>, offset: nat)
    ensures Shifted(a + b, offset) == Shifted(a, offset) + Shifted(b, offset)
  {
  }

  /** Where the `k`th action starts. */
  function StartOf(thought: string, actions: seq<Action>, k: nat): nat
    requires k <= |actions|
  {
    |thought| + 11 + |PrintActions(actions[..k])|
  }

  lemma TailAt(all: seq<nat>, front: seq<nat>, later: seq<nat>, a: nat, b: nat)
    requires all == front + Shifted(Shifted(later, a), b)
    ensures |all| == |front| + |later|
    ensures forall i :: 0 <= i < |later| ==> all[|front| + i] == b + a + later[i]
  {
  }

  lemma MarkersFrom(thought: string, actions: seq<Action>, k: nat)
    requires Free(thought) && k <= |actions| && AllFree(actions[..k])
    ensures
      var (all, later) := (Markers(Print(thought, actions)), Markers(PrintActions(actions[k..])));
      && |all| == k + |later|
      && forall i :: 0 <= i < |later| ==> all[k + i] == StartOf(thought, actions, k) + later[i]
  {
    var later := Markers(PrintActions(actions[k..]));
    ThoughtsFree(thought);
    BehindFree("Thoughts: " + thought, '\n', PrintActions(actions));
    MarkersBehind(actions, k);
    StartsLength(actions[..k], 0);
    ShiftedSum(Starts(actions[..k], 0), Shifted(later, |PrintActions(actions[..k])|), |thought| + 11);
    TailAt(Markers(Print(thought, actions)), Shifted(Starts(actions[..k], 0), |thought| + 11), later,
      |PrintActions(actions[..k])|, |thought| + 11);
  }

  lemma TextFrom(thought: string, actions: seq<Action>, k: nat)
    requires k <= |actions|
    ensures StartOf(thought, actions, k) <= |Print(thought, actions)|
    ensures Print(thought, actions)[StartOf(thought, actions, k)..] == PrintActions(actions[k..])
  {
    PrintSplit(actions, k);
    var front := "Thoughts: " + thought + "\n" + PrintActions(actions[..k]);
    assert Print(thought, actions) == front + PrintActions(actions[k..]);
  }

  /** The markers of what is printed from an action on: its own, and those behind its first seven characters. */
  lemma FirstMarkers(a: Action, rest: string)
    ensures Markers(PrintAction(a) + rest)
         == [0] + Shifted(Markers(a.name + "\n" + (a.input + "\n" + rest)), 8)
  {
    PrintedAction(a, rest);
    MarkersAcross("Action:", ' ', a.name + "\n" + (a.input + "\n" + rest));
    MarkerAlone();
  }

  /** A marker in a piece comes before its end. */
  lemma PieceMarker(a: Action, rest: string)
    requires !(Free(a.name) && Free(a.input))
    ensures
      var inside := Markers(a.name + "\n" + (a.input + "\n" + rest));
      inside != [] && inside[0] + |MARKER| <= |a.name| + 1 + |a.input|
  {
    MarkersAcross(a.name, '\n', a.input + "\n" + rest);
    MarkersAcross(a.input, '\n', rest);
    AscendingFor(a.name);
    AscendingFor(a.input);
  }

  lemma StripShorter(s: string)
    ensures |Strip(s)| <= |s|
    ensures s != "" && IsSpace(s[0]) ==> |Strip(s)| < |s|
  {
    LStripShape(s);
    RStripShape(LStrip(s));
    if s != "" && IsSpace(s[0]) {
      LStripShape(s[1..]);
    }
  }

  /** What is read of a block is not longer than the block. */
  lemma ParsedFits(block: string)
    ensures ParseAction(block).Ok? ==>
              |ParseAction(block).value.name| + 1 + |ParseAction(block).value.input| <= |block|
  {
    var n := LineLength(block);
    if n != |block| {
      StripShorter(block[..n]);
      StripShorter(block[n + 1..]);
    }
  }

  /** A block that ends inside its own action is too short. */
  lemma ShortBlock(a: Action, rest: string, end: nat)
    requires |MARKER| + 1 <= end < |PrintAction(a)| - 1
    ensures ParseAction(Strip((PrintAction(a) + rest)[|MARKER|..end])) != Ok(a)
  {
    PrintedAction(a, rest);
    var cut := (PrintAction(a) + rest)[|MARKER|..end];
    assert cut[0] == ' ';
    StripShorter(cut);
    ParsedFits(Strip(cut));
  }

  lemma RestMarkers(actions: seq<Action>)
    ensures actions == [] ==> Markers(PrintActions(actions)) == []
    ensures actions != [] ==> Markers(PrintActions(actions)) != [] && Markers(PrintActions(actions))[0] == 0
  {
    if actions == [] {
      FreeOf("");
    } else {
      FirstMarkers(actions[0], PrintActions(actions[1..]));
    }
  }

  lemma CutFrom(text: string, off: nat, i: nat, j: nat)
    requires off + i <= off + j <= |text|
    ensures text[off + i..off + j] == text[off..][i..j]
    ensures text[off + i..] == text[off..][i..]
  {
  }

  /** The block of the first of the actions still to come. */
  function FirstBlock(actions: seq<Action>): string
    requires actions != []
  {
    var (text, later) := (PrintActions(actions), Markers(PrintActions(actions)));
    AscendingFor(text);
    RestMarkers(actions);
    if |later| > 1 then Strip(text[|MARKER|..later[1]]) else Strip(text[|MARKER|..])
  }

  lemma BlockOf(text: string, positions: seq<nat>, k: nat, off: nat, later: seq<nat>)
    requires Ascending(text, positions) && off <= |text| && later != [] && later[0] == 0 && |positions| == k + |later|
    requires Ascending(text[off..], later)
    requires forall i :: 0 <= i < |later| ==> positions[k + i] == off + later[i]
    ensures BlockAt(text, positions, k)
         == if |later| > 1 then Strip(text[off..][|MARKER|..later[1]]) else Strip(text[off..][|MARKER|..])
  {
    if |later| > 1 {
      CutFrom(text, off, |MARKER|, later[1]);
    } else {
      CutFrom(text, off, |MARKER|, |text| - off);
    }
  }

  lemma BlockIsFirst(thought: string, actions: seq<Action>, k: nat)
    requires Free(thought) && k < |actions| && AllFree(actions[..k])
    ensures
      && Extracted(Print(thought, actions)).Ok? && k < |Extracted(Print(thought, actions)).value.1|
      && Extracted(Print(thought, actions)).value.1[k] == FirstBlock(actions[k..])
  {
    var (text, off, later) :=
      (Print(thought, actions), StartOf(thought, actions, k), Markers(PrintActions(actions[k..])));
    MarkersFrom(thought, actions, k);
    TextFrom(thought, actions, k);
    RestMarkers(actions[k..]);
    AscendingFor(text);
    AscendingFor(PrintActions(actions[k..]));
    BlockOf(text, Markers(text), k, off, later);
  }

  lemma FreeBlock(actions: seq<Action>)
    requires actions != [] && Free(actions[0].name) && Free(actions[0].input)
    ensures FirstBlock(actions) == Strip(PrintAction(actions[0])[|MARKER|..])
  {
    var (a, rest) := (actions[0], actions[1..]);
    AfterAction(a, PrintActions(rest));
    RestMarkers(rest);
    assert (PrintAction(a) + PrintActions(rest))[|MARKER|..|PrintAction(a)|] == PrintAction(a)[|MARKER|..];
    assert rest == [] ==> PrintAction(a) + PrintActions(rest) == PrintAction(a);
  }

  lemma MarkedBlock(actions: seq<Action>)
    requires actions != [] && !(Free(actions[0].name) && Free(actions[0].input))
    ensures ParseAction(FirstBlock(actions)) != Ok(actions[0])
  {
    var (a, rest) := (actions[0], PrintActions(actions[1..]));
    FirstMarkers(a, rest);
    PieceMarker(a, rest);
    PrintedAction(a, rest);
    ShortBlock(a, rest, Markers(a.name + "\n" + (a.input + "\n" + rest))[0] + 8);
  }

  predicate ReadBack(a: Action) {
    a.name != "" && a.input != "" && Free(a.name) && Free(a.input)
  }

  /** Behind actions without the marker, an action is read back exactly if it is complete and holds none itself. */
  lemma BlockReadBackIff(thought: string, actions: seq<Action>, k: nat)
    requires WellFormed(thought, actions) && Free(thought) && k < |actions| && AllFree(actions[..k])
    ensures
      && Extracted(Print(thought, actions)).Ok? && k < |Extracted(Print(thought, actions)).value.1|
      && (ParseAction(Extracted(Print(thought, actions)).value.1[k]) == Ok(actions[k]) <==> ReadBack(actions[k]))
  {
    BlockIsFirst(thought, actions, k);
    assert actions[k..][0] == actions[k] && actions[k] in actions;
    if Free(actions[k].name) && Free(actions[k].input) {
      FreeBlock(actions[k..]);
      ParseBlockIff(actions[k]);
    } else {
      MarkedBlock(actions[k..]);
    }
  }

  lemma {:induction false} ParsedAt(blocks: seq<string>, actions: seq<Action>, k: nat)
    requires ParseAll(blocks) == Ok(actions) && k < |actions|
    ensures |blocks| == |actions| && ParseAction(blocks[k]) == Ok(actions[k])
  {
    ParsedCount(blocks);
    ParsedParts(blocks, actions);
    if k > 0 {
      ParsedAt(blocks[1..], actions[1..], k - 1);
    }
  }

  lemma {:induction false} ParsedCount(blocks: seq<string>)
    ensures ParseAll(blocks).Ok? ==> |ParseAll(blocks).value| == |blocks|
  {
    if blocks != [] {
      ParsedCount(blocks[1..]);
    }
  }

  lemma ReadBackAt(text: string, thought: string, kept: seq<Action>, maxActions: nat, k: nat)
    requires Parsed(text, maxActions) == Ok((thought, kept)) && k < |kept|
    ensures Extracted(text).Ok? && k < |Extracted(text).value.1|
    ensures ParseAction(Extracted(text).value.1[k]) == Ok(kept[k])
  {
    var blocks := Extracted(text).value.1;
    ParsedAt(Limited(blocks, maxActions), kept, k);
    assert Limited(blocks, maxActions)[k] == blocks[k];
  }

  ghost predicate FrontReadBack(actions: seq<Action>, k: nat)
    requires k <= |actions|
  {
    AllFree(actions[..k]) && forall i :: 0 <= i < k ==> ReadBack(actions[i])
  }

  lemma NextReadBack(thought: string, actions: seq<Action>, kept: seq<Action>, maxActions: nat, k: nat)
    requires WellFormed(thought, actions) && Free(thought) && k < |kept| && kept <= actions
    requires Parsed(Print(thought, actions), maxActions) == Ok((thought, kept)) && AllFree(actions[..k])
    ensures ReadBack(actions[k])
  {
    ReadBackAt(Print(thought, actions), thought, kept, maxActions, k);
    BlockReadBackIff(thought, actions, k);
  }

  /** If the kept actions are read back, they hold no marker, one after the other. */
  lemma {:induction false} KeptAreFree(thought: string, actions: seq<Action>, kept: seq<Action>, maxActions: nat,
          k: nat)
    requires WellFormed(thought, actions) && Free(thought) && k <= |kept| && kept <= actions
    requires Parsed(Print(thought, actions), maxActions) == Ok((thought, kept))
    ensures FrontReadBack(actions, k)
    decreases k
  {
    if k > 0 {
      KeptAreFree(thought, actions, kept, maxActions, k - 1);
      NextReadBack(thought, actions, kept, maxActions, k - 1);
      OneMoreReadBack(actions, k - 1);
    }
  }

  lemma OneMoreFree(actions: seq<Action>, k: nat)
    requires k < |actions| && AllFree(actions[..k])
    ensures ReadBack(actions[k]) ==> AllFree(actions[..k + 1])
  {
    var (done, more) := (actions[..k], actions[..k + 1]);
    forall i | 0 <= i < k ensures Free(more[i].name) && Free(more[i].input) {
      assert done[i] == more[i];
    }
  }

  lemma OneMoreReadBack(actions: seq<Action>, k: nat)
    requires k < |actions| && FrontReadBack(actions, k) && ReadBack(actions[k])
    ensures FrontReadBack(actions, k + 1)
  {
    OneMoreFree(actions, k);
  }

  lemma MarkerInThought(thought: string, rest: string)
    requires !Free(thought)
    ensures
      var text := "Thoughts: " + thought + "\n" + rest;
      Markers(text) != [] && 10 <= Markers(text)[0] < 10 + |thought|
  {
    var front := "Thoughts: " + thought;
    MarkersAcross(front, '\n', rest);
    FreeOf("Thoughts:");
    BehindFree("Thoughts:", ' ', thought);
    assert front == "Thoughts:" + " " + thought;
    AscendingFor(thought);
  }

  lemma ThoughtCut(text: string, q: nat)
    requires |text| >= 10 && text[..9] == "Thoughts:" && text[9] == ' ' && 10 <= q <= |text|
    ensures |Thought(text, q)| <= q - 10
  {
    ThoughtFrom(text, q);
    assert text[9..q][0] == ' ';
    StripShorter(text[9..q]);
  }

  /** A thought that holds the marker is cut short. */
  lemma MarkedThought(thought: string, actions: seq<Action>)
    requires !Free(thought)
    ensures
      var text := Print(thought, actions);
      Markers(text) != [] && Markers(text)[0] <= |text| && Thought(text, Markers(text)[0]) != thought
  {
    MarkerInThought(thought, PrintActions(actions));
    ThoughtFront(thought, PrintActions(actions));
    ThoughtCut(Print(thought, actions), Markers(Print(thought, actions))[0]);
  }

  lemma Kept(actions: seq<Action>, maxActions: nat)
    ensures
      var kept := Limited(actions, maxActions);
      kept == actions[..|kept|] && (|kept| == |actions| || |kept| == maxActions)
  {
  }

  lemma KeptBlockIff(thought: string, actions: seq<Action>, maxActions: nat, k: nat)
    requires WellFormed(thought, actions) && Free(thought) && AllFree(Limited(actions, maxActions))
    requires k < |Limited(actions, maxActions)|
    ensures Extracted(Print(thought, actions)).Ok?
    ensures
      var (blocks, a) := (Limited(Extracted(Print(thought, actions)).value.1, maxActions), actions[k]);
      k < |blocks| && (ParseAction(blocks[k]) == Ok(a) <==> a.name != "" && a.input != "")
  {
    Kept(actions, maxActions);
    assert actions[k] == Limited(actions, maxActions)[k];
    assert forall i :: 0 <= i < k ==> actions[..k][i] == Limited(actions, maxActions)[i];
    BlockReadBackIff(thought, actions, k);
    var blocks := Extracted(Print(thought, actions)).value.1;
    assert k < |Limited(blocks, maxActions)| && Limited(blocks, maxActions)[k] == blocks[k];
  }

  lemma CompleteParts(thought: string, actions: seq<Action>, maxActions: nat)
    requires WellFormed(thought, actions) && actions != []
    requires Free(thought) && AllFree(Limited(actions, maxActions))
    ensures Parsed(Print(thought, actions), maxActions) == Ok((thought, Limited(actions, maxActions)))
            <==> Complete(Limited(actions, maxActions))
  {
    var kept := Limited(actions, maxActions);
    Kept(actions, maxActions);
    KeptBlocks(thought, actions, maxActions);
    FirstThought(thought, actions);
    var blocks := Limited(Extracted(Print(thought, actions)).value.1, maxActions);
    forall k | 0 <= k < |kept|
      ensures ParseAction(blocks[k]) == Ok(kept[k]) <==> kept[k].name != "" && kept[k].input != ""
    {
      KeptBlockIff(thought, actions, maxActions, k);
    }
    ParseAllIff(blocks, kept);
  }

  /** As many blocks are kept as actions. */
  lemma KeptBlocks(thought: string, actions: seq<Action>, maxActions: nat)
    requires WellFormed(thought, actions) && actions != []
    requires Free(thought) && AllFree(Limited(actions, maxActions))
    ensures Extracted(Print(thought, actions)).Ok?
    ensures |Limited(Extracted(Print(thought, actions)).value.1, maxActions)| == |Limited(actions, maxActions)|
  {
    var n := |Limited(actions, maxActions)|;
    Kept(actions, maxActions);
    MarkersFrom(thought, actions, n);
    RestMarkers(actions[n..]);
  }

  lemma FirstMarker(thought: string, actions: seq<Action>)
    requires Free(thought) && actions != []
    ensures Markers(Print(thought, actions)) != [] && Markers(Print(thought, actions))[0] == |thought| + 11
  {
    assert actions[..0] == [] && actions[0..] == actions;
    MarkersFrom(thought, actions, 0);
    RestMarkers(actions);
  }

  lemma FirstThought(thought: string, actions: seq<Action>)
    requires Trimmed(thought) && Free(thought) && actions != []
    ensures Extracted(Print(thought, actions)).Ok? && Extracted(Print(thought, actions)).value.0 == thought
  {
    FirstMarker(thought, actions);
    ThoughtPrinted(thought, PrintActions(actions));
  }

  /**
   A printed response is parsed back, up to the limit, exactly if no name and no input up to there is empty, and
   neither the thought nor these pieces hold the marker. What is cut off may hold anything.
   */
  lemma RoundTripIff(thought: string, actions: seq<Action>, maxActions: nat)
    requires WellFormed(thought, actions) && actions != []
    ensures
      var kept := Limited(actions, maxActions);
      Parsed(Print(thought, actions), maxActions) == Ok((thought, kept))
      <==> Complete(kept) && Free(thought) && AllFree(kept)
  {
    var kept := Limited(actions, maxActions);
    if !Free(thought) {
      MarkedThought(thought, actions);
    } else {
      if Parsed(Print(thought, actions), maxActions) == Ok((thought, kept)) {
        Kept(actions, maxActions);
        KeptAreFree(thought, actions, kept, maxActions, |kept|);
      }
      if AllFree(kept) {
        CompleteParts(thought, actions, maxActions);
      }
    }
  }

  /** An input that holds the marker is not read back. */
  lemma MarkedInputLost()
    ensures Parsed(Print("t", [Action("n", "Action:")]), 0) != Ok(("t", [Action("n", "Action:")]))
  {
    var actions := [Action("n", "Action:")];
    assert Strip("t") == "t" && Strip("n") == "n";
    TrimmedEnds("Action:");
    MarkerAlone();
    RoundTripIff("t", actions, 0);
    assert Limited(actions, 0)[0].input == "Action:";
  }
}
