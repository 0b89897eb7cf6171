/**
 The text that a fallback patch gives where it can be replayed: its hunks are read back with an empty context line
 behind every line, so each change comes as many lines too late as the hunk has lines before it.
 */
module FallbackText {
  import opened Prelude
  import opened Text
  import opened HunkReplay
  import opened PatchRoundTrip
  import opened FallbackPatch

  // ---------- one change ----------

  /** A line added before line `p`, or line `p` removed. */
  function ChangeAt(lines: seq<string>, p: nat, line: HunkLine): seq<string> {
    match line
    case Added(text) => if p <= |lines| then lines[..p] + [Value(text)] + lines[p..] else lines
    case Removed(_) => if p < |lines| then lines[..p] + lines[p + 1..] else lines
    case Context(_) => lines
  }

  /** The change can be put off from line `p` to line `q`: it passes only lines that equal what it adds or removes. */
  predicate Passes(lines: seq<string>, p: nat, q: nat, line: HunkLine) {
    match line
    case Added(text) => q <= |lines| && forall j :: p <= j < q ==> lines[j] == Value(text)
    case Removed(_) => q < |lines| && forall j :: p <= j <= q ==> lines[j] == lines[p]
    case Context(_) => true
  }

  lemma AddedLater(lines: seq<string>, p: nat, q: nat, text: string)
    requires p <= q <= |lines|
    ensures ChangeAt(lines, p, Added(text)) == ChangeAt(lines, q, Added(text)) <==> Passes(lines, p, q, Added(text))
  {
    var (early, late) := (ChangeAt(lines, p, Added(text)), ChangeAt(lines, q, Added(text)));
    if early == late {
      AddedRun(lines, p, q, text, q);
    }
    if Passes(lines, p, q, Added(text)) {
      forall k | 0 <= k < |early| ensures early[k] == late[k] {
      }
    }
  }

  /** If it makes no difference where the line is added, the lines between the places equal it. */
  lemma {:induction false} AddedRun(lines: seq<string>, p: nat, q: nat, text: string, n: nat)
    requires p <= n <= q <= |lines|
    requires ChangeAt(lines, p, Added(text)) == ChangeAt(lines, q, Added(text))
    ensures forall j :: p <= j < n ==> lines[j] == Value(text)
    decreases n
  {
    if p < n {
      AddedRun(lines, p, q, text, n - 1);
      var (early, late) := (ChangeAt(lines, p, Added(text)), ChangeAt(lines, q, Added(text)));
      assert late[n - 1] == lines[n - 1];
      assert early[n - 1] == if n - 1 == p then Value(text) else lines[n - 2];
    }
  }

  lemma RemovedLater(lines: seq<string>, p: nat, q: nat, text: string)
    requires p <= q < |lines|
    ensures ChangeAt(lines, p, Removed(text)) == ChangeAt(lines, q, Removed(text))
            <==> Passes(lines, p, q, Removed(text))
  {
    var (early, late) := (ChangeAt(lines, p, Removed(text)), ChangeAt(lines, q, Removed(text)));
    if early == late {
      RemovedRun(lines, p, q, text, q);
    }
    if Passes(lines, p, q, Removed(text)) {
      forall k | 0 <= k < |early| ensures early[k] == late[k] {
      }
    }
  }

  lemma {:induction false} RemovedRun(lines: seq<string>, p: nat, q: nat, text: string, n: nat)
    requires p <= n <= q < |lines|
    requires ChangeAt(lines, p, Removed(text)) == ChangeAt(lines, q, Removed(text))
    ensures forall j :: p <= j <= n ==> lines[j] == lines[p]
    decreases n
  {
    if p < n {
      RemovedRun(lines, p, q, text, n - 1);
      var (early, late) := (ChangeAt(lines, p, Removed(text)), ChangeAt(lines, q, Removed(text)));
      assert late[n - 1] == lines[n - 1] && early[n - 1] == lines[n];
    }
  }

  lemma LaterIff(lines: seq<string>, p: nat, q: nat, line: HunkLine)
    requires p <= q <= |lines| && !line.Context? && (line.Removed? ==> q < |lines|)
    ensures ChangeAt(lines, p, line) == ChangeAt(lines, q, line) <==> Passes(lines, p, q, line)
  {
    match line
    case Added(text) => AddedLater(lines, p, q, text);
    case Removed(text) => RemovedLater(lines, p, q, text);
  }

  lemma ChangeLater(lines: seq<string>, p: nat, q: nat, line: HunkLine)
    requires p <= q && Passes(lines, p, q, line)
    ensures ChangeAt(lines, p, line) == ChangeAt(lines, q, line)
  {
    if !line.Context? {
      LaterIff(lines, p, q, line);
    }
  }

  // ---------- all changes of a hunk ----------

  /** The place of the `i`th line of a hunk that starts at line `b`: its own, or that of the fallback patch. */
  function PlaceOf(b: nat, body: seq<HunkLine>, i: nat, fallback: bool): nat
    requires i <= |body|
  {
    if fallback then MetAt(b, body, i) else b + |OldSide(body[..i])|
  }

  /** The changes of the hunk from the `i`th line on made one by one, the last one first. */
  function Changed(lines: seq<string>, b: nat, body: seq<HunkLine>, i: nat, fallback: bool): seq<string>
    requires i <= |body|
    decreases |body| - i
  {
    if i == |body| then lines
    else ChangeAt(Changed(lines, b, body, i + 1, fallback), PlaceOf(b, body, i, fallback), body[i])
  }

  /** The line at which the rest of a hunk goes on. */
  function Next(b: nat, line: HunkLine, fallback: bool): nat {
    b + (if line.Added? then 0 else 1) + if fallback then 1 else 0
  }

  lemma PlaceLater(b: nat, body: seq<HunkLine>, i: nat, fallback: bool)
    requires 0 < i <= |body|
    ensures PlaceOf(b, body, i, fallback) == PlaceOf(Next(b, body[0], fallback), body[1..], i - 1, fallback)
  {
    assert body[..i][1..] == body[1..][..i - 1] && body[..i][0] == body[0];
  }

  lemma {:induction false} ChangedLater(lines: seq<string>, b: nat, body: seq<HunkLine>, i: nat, fallback: bool)
    requires 0 < i <= |body|
    ensures Changed(lines, b, body, i, fallback)
         == Changed(lines, Next(b, body[0], fallback), body[1..], i - 1, fallback)
    decreases |body| - i
  {
    if i < |body| {
      ChangedLater(lines, b, body, i + 1, fallback);
      PlaceLater(b, body, i, fallback);
      assert body[1..][i - 1] == body[i];
    }
  }

  /** The changes of a hunk are those of its first line, behind those of the rest. */
  lemma ChangedCons(lines: seq<string>, b: nat, body: seq<HunkLine>, fallback: bool)
    requires body != []
    ensures Changed(lines, b, body, 0, fallback)
         == ChangeAt(Changed(lines, Next(b, body[0], fallback), body[1..], 0, fallback), b, body[0])
  {
    assert body[..0] == [];
    ChangedLater(lines, b, body, 1, fallback);
  }

  /** A file in which the lines from `b` to `e` became others. */
  function Spliced(content: seq<string>, b: nat, made: seq<string>, e: nat): seq<string>
    requires b <= e <= |content|
  {
    content[..b] + made + content[e..]
  }

  lemma AddedInFront(content: seq<string>, b: nat, made: seq<string>, e: nat, text: string)
    requires b <= e <= |content|
    ensures Spliced(content, b, [Value(text)] + made, e) == ChangeAt(Spliced(content, b, made, e), b, Added(text))
  {
    var s := Spliced(content, b, made, e);
    assert s[..b] == content[..b] && s[b..] == made + content[e..];
  }

  lemma RemovedInFront(content: seq<string>, b: nat, made: seq<string>, e: nat, text: string)
    requires b < e <= |content|
    ensures Spliced(content, b, made, e) == ChangeAt(Spliced(content, b + 1, made, e), b, Removed(text))
  {
    var s := Spliced(content, b + 1, made, e);
    assert s[..b] == content[..b] && s[b + 1..] == made + content[e..];
  }

  lemma KeptInFront(content: seq<string>, b: nat, made: seq<string>, e: nat)
    requires b < e <= |content|
    ensures Spliced(content, b, [content[b]] + made, e) == Spliced(content, b + 1, made, e)
  {
    assert content[..b + 1] == content[..b] + [content[b]];
  }

  /** The hunk as the replay reads it. */
  function ReadBack(body: seq<HunkLine>, fallback: bool): seq<HunkLine> {
    if fallback then Reread(body) else body
  }

  ghost predicate MakesChanges(content: seq<string>, b: nat, body: seq<HunkLine>, fallback: bool)
    requires b <= |content|
  {
    var r := ReplayBody(content, b, ReadBack(body, fallback));
    r.Ok? ==> Spliced(content, b, r.value.0, r.value.1) == Changed(content, b, body, 0, fallback)
  }

  /** The empty line behind a line keeps one more line of the file. */
  lemma EmptyKeepsOne(content: seq<string>, b: nat, rest: seq<HunkLine>)
    requires b <= |content|
    ensures
      var r := ReplayBody(content, b, [Context("")] + rest);
      r.Ok? ==>
        && b < |content| && ReplayBody(content, b + 1, rest).Ok?
        && r.value ==
           ([content[b]] + ReplayBody(content, b + 1, rest).value.0, ReplayBody(content, b + 1, rest).value.1)
  {
    assert ([Context("")] + rest)[1..] == rest;
  }

  /** The rest of a hunk behind its first line, with the empty line if there is one. */
  lemma RestKeeps(content: seq<string>, p: nat, body: seq<HunkLine>, fallback: bool)
    requires body != [] && p <= |content|
    ensures
      var next := p + if fallback then 1 else 0;
      var r := ReplayBody(content, p, ReadBack(body, fallback)[1..]);
      r.Ok? ==>
        && next <= |content| && ReplayBody(content, next, ReadBack(body[1..], fallback)).Ok?
        && var rest := ReplayBody(content, next, ReadBack(body[1..], fallback)).value;
        && r.value.1 == rest.1 && Spliced(content, p, r.value.0, r.value.1) == Spliced(content, next, rest.0, rest.1)
  {
    if fallback {
      RereadCons(body);
      EmptyKeepsOne(content, p, Reread(body[1..]));
      var r := ReplayBody(content, p, Reread(body)[1..]);
      if r.Ok? {
        KeptInFront(content, p, ReplayBody(content, p + 1, Reread(body[1..])).value.0, r.value.1);
      }
    }
  }

  lemma FirstOfReadBack(body: seq<HunkLine>, fallback: bool)
    requires body != []
    ensures ReadBack(body, fallback) != [] && ReadBack(body, fallback)[0] == body[0]
  {
  }

  /** What the first line of a hunk adds to the rest. */
  lemma FirstChange(content: seq<string>, b: nat, body: seq<HunkLine>, fallback: bool)
    requires body != [] && b <= |content| && ReplayBody(content, b, ReadBack(body, fallback)).Ok?
    ensures
      var p := b + if body[0].Added? then 0 else 1;
      && p <= |content| && ReplayBody(content, p, ReadBack(body, fallback)[1..]).Ok?
      && var (r, rest) := (ReplayBody(content, b, ReadBack(body, fallback)).value,
                           ReplayBody(content, p, ReadBack(body, fallback)[1..]).value);
      && Spliced(content, b, r.0, r.1) == ChangeAt(Spliced(content, p, rest.0, rest.1), b, body[0])
  {
    FirstOfReadBack(body, fallback);
    var p := b + if body[0].Added? then 0 else 1;
    var rest := ReplayBody(content, p, ReadBack(body, fallback)[1..]).value;
    match body[0]
    case Added(text) => AddedInFront(content, b, rest.0, rest.1, text);
    case Removed(text) => RemovedInFront(content, b, rest.0, rest.1, text);
    case Context(_) => KeptInFront(content, b, rest.0, rest.1);
  }

  /**
   A hunk that is replayed makes its changes one by one, each at its own place: at the line of the file that it
   comes to, or with the fallback patch as many lines below as there are lines of the hunk before it.
   */
  lemma {:induction false} ReplayMakesChanges(content: seq<string>, b: nat, body: seq<HunkLine>, fallback: bool)
    requires b <= |content|
    ensures MakesChanges(content, b, body, fallback)
    decreases |body|
  {
    if body == [] {
      assert content[..b] + [] + content[b..] == content;
    } else if ReplayBody(content, b, ReadBack(body, fallback)).Ok? {
      FirstChange(content, b, body, fallback);
      var p := b + if body[0].Added? then 0 else 1;
      RestKeeps(content, p, body, fallback);
      ReplayMakesChanges(content, Next(b, body[0], fallback), body[1..], fallback);
      ChangedCons(content, b, body, fallback);
    }
  }

  // ---------- when the text is right ----------

  /** From the `i`th line on, every change can be put off to its place in the fallback patch. */
  ghost predicate Passable(content: seq<string>, b: nat, body: seq<HunkLine>, i: nat) {
    forall k :: i <= k < |body| ==> Passes(content, PlaceOf(b, body, k, false), PlaceOf(b, body, k, true), body[k])
  }

  lemma NextPlace(b: nat, body: seq<HunkLine>, i: nat)
    requires i < |body|
    ensures PlaceOf(b, body, i, false) <= PlaceOf(b, body, i, true)
    ensures PlaceOf(b, body, i + 1, true) == Next(PlaceOf(b, body, i, true), body[i], true)
  {
    assert body[..i + 1] == body[..i] + [body[i]];
    OldSideSnoc(body[..i], body[i]);
  }

  lemma {:induction false} OldSideSnoc(body: seq<HunkLine>, line: HunkLine)
    ensures |OldSide(body + [line])| == |OldSide(body)| + if line.Added? then 0 else 1
  {
    if body == [] {
      assert OldSide([]) == [] && [line][1..] == [];
    } else {
      OldSideSnoc(body[1..], line);
      assert (body + [line])[1..] == body[1..] + [line];
    }
  }

  lemma {:induction false} PlacesGrow(b: nat, body: seq<HunkLine>, i: nat)
    requires i <= |body|
    ensures PlaceOf(b, body, i, true) <= PlaceOf(b, body, |body|, true)
    decreases |body| - i
  {
    if i < |body| {
      NextPlace(b, body, i);
      PlacesGrow(b, body, i + 1);
    }
  }

  /** What the fallback patch changes lies behind. */
  ghost predicate FrontKept(content: seq<string>, lines: seq<string>, n: nat) {
    n <= |lines| && n <= |content| && lines[..n] == content[..n]
  }

  lemma ChangeBehind(content: seq<string>, lines: seq<string>, p: nat, line: HunkLine)
    requires FrontKept(content, lines, Next(p, line, true))
    ensures FrontKept(content, ChangeAt(lines, p, line), p)
  {
    assert lines[..p] == lines[..Next(p, line, true)][..p] == content[..p];
    assert ChangeAt(lines, p, line)[..p] == lines[..p];
  }

  lemma {:induction false} FallbackFront(content: seq<string>, b: nat, body: seq<HunkLine>, i: nat)
    requires i <= |body| && PlaceOf(b, body, |body|, true) <= |content|
    ensures FrontKept(content, Changed(content, b, body, i, true), PlaceOf(b, body, i, true))
    decreases |body| - i
  {
    if i < |body| {
      FallbackFront(content, b, body, i + 1);
      NextPlace(b, body, i);
      ChangeBehind(content, Changed(content, b, body, i + 1, true), PlaceOf(b, body, i, true), body[i]);
    }
  }

  lemma PassesAlike(content: seq<string>, lines: seq<string>, p: nat, q: nat, line: HunkLine)
    requires p <= q && FrontKept(content, lines, Next(q, line, true)) && Passes(content, p, q, line)
    ensures Passes(lines, p, q, line)
  {
    var n := Next(q, line, true);
    assert forall j :: 0 <= j < n ==> lines[j] == lines[..n][j] == content[j];
  }

  /** If every change can be put off, the fallback patch makes the right ones. */
  lemma {:induction false} PassableIsRight(content: seq<string>, b: nat, body: seq<HunkLine>, i: nat)
    requires i <= |body| && PlaceOf(b, body, |body|, true) <= |content| && Passable(content, b, body, i)
    ensures Changed(content, b, body, i, true) == Changed(content, b, body, i, false)
    decreases |body| - i
  {
    if i < |body| {
      PassableIsRight(content, b, body, i + 1);
      FallbackFront(content, b, body, i + 1);
      NextPlace(b, body, i);
      var (p, q) := (PlaceOf(b, body, i, false), PlaceOf(b, body, i, true));
      var rest := Changed(content, b, body, i + 1, true);
      PassesAlike(content, rest, p, q, body[i]);
      ChangeLater(rest, p, q, body[i]);
    }
  }

  /** The fallback patch gives what the hunk itself gives. */
  ghost predicate GivesTheSame(content: seq<string>, b: nat, body: seq<HunkLine>)
    requires b <= |content|
  {
    var (r, s) := (ReplayBody(content, b, Reread(body)), ReplayBody(content, b, body));
    r.Ok? && s.Ok? && Spliced(content, b, r.value.0, r.value.1) == Spliced(content, b, s.value.0, s.value.1)
  }

  lemma SameChanges(content: seq<string>, b: nat, body: seq<HunkLine>)
    requires b <= |content| && ReplayBody(content, b, body).Ok? && ReplayBody(content, b, Reread(body)).Ok?
    ensures PlaceOf(b, body, |body|, true) <= |content|
    ensures GivesTheSame(content, b, body) <==>
              Changed(content, b, body, 0, true) == Changed(content, b, body, 0, false)
  {
    FallbackReplaysIff(content, b, body);
    ReplayMakesChanges(content, b, body, true);
    ReplayMakesChanges(content, b, body, false);
  }

  /** For any hunk that can be replayed both ways. */
  lemma FallbackIsRight(content: seq<string>, b: nat, body: seq<HunkLine>)
    requires b <= |content| && ReplayBody(content, b, body).Ok? && ReplayBody(content, b, Reread(body)).Ok?
    requires Passable(content, b, body, 0)
    ensures GivesTheSame(content, b, body)
  {
    SameChanges(content, b, body);
    PassableIsRight(content, b, body, 0);
  }

  // ---------- changes that do not get in each other's way ----------

  /** Where the lines end that a change of the fallback patch passes, its own included. */
  function PassedBy(b: nat, body: seq<HunkLine>, i: nat): nat
    requires i < |body|
  {
    PlaceOf(b, body, i, true) + if body[i].Removed? then 1 else 0
  }

  /** No change is put off beyond the place of a later one. */
  ghost predicate Spaced(b: nat, body: seq<HunkLine>) {
    forall i, j {:trigger PassedBy(b, body, i), PlaceOf(b, body, j, false)} ::
      0 <= i < j < |body| && !body[i].Context? && !body[j].Context? ==>
        PassedBy(b, body, i) <= PlaceOf(b, body, j, false)
  }

  /** From the `i`th line on, all changes are at line `n` or behind. */
  ghost predicate AllBehind(b: nat, body: seq<HunkLine>, i: nat, n: nat) {
    forall j {:trigger PlaceOf(b, body, j, false)} ::
      i <= j < |body| && !body[j].Context? ==> n <= PlaceOf(b, body, j, false)
  }

  lemma ChangeKeepsFront(content: seq<string>, lines: seq<string>, p: nat, n: nat, line: HunkLine)
    requires FrontKept(content, lines, n) && (!line.Context? ==> n <= p)
    ensures FrontKept(content, ChangeAt(lines, p, line), n)
  {
    assert ChangeAt(lines, p, line)[..n] == lines[..n];
  }

  /** What comes before all changes stays. */
  lemma {:induction false} ChangedBehind(content: seq<string>, b: nat, body: seq<HunkLine>, i: nat, n: nat,
          fallback: bool)
    requires i <= |body| && n <= |content| && AllBehind(b, body, i, n)
    ensures FrontKept(content, Changed(content, b, body, i, fallback), n)
    decreases |body| - i
  {
    if i < |body| {
      ChangedBehind(content, b, body, i + 1, n, fallback);
      NextPlace(b, body, i);
      assert !body[i].Context? ==> n <= PlaceOf(b, body, i, false);
      ChangeKeepsFront(content, Changed(content, b, body, i + 1, fallback), PlaceOf(b, body, i, fallback), n, body[i]);
    }
  }

  /** A change that can be made is one line more or less. */
  function Weight(line: HunkLine): int {
    match line
    case Added(_) => 1
    case Removed(_) => -1
    case Context(_) => 0
  }

  lemma ChangeWeight(lines: seq<string>, p: nat, line: HunkLine)
    requires p + (if line.Removed? then 1 else 0) <= |lines|
    ensures |ChangeAt(lines, p, line)| == |lines| + Weight(line)
  {
  }

  /** A change only touches the front it lies in. */
  lemma ChangeInFront(front: seq<string>, rest: seq<string>, p: nat, line: HunkLine)
    requires p + (if line.Removed? then 1 else 0) <= |front|
    ensures ChangeAt(front + rest, p, line) == ChangeAt(front, p, line) + rest
  {
    var all := front + rest;
    assert all[..p] == front[..p] && all[p..] == front[p..] + rest;
    if line.Removed? {
      assert all[p + 1..] == front[p + 1..] + rest;
    }
  }

  lemma FrontsEqual<T>(a: seq<T>, b: seq<T>, x: seq<T>, y: seq<T>)
    requires |a| == |b|
    ensures a + x == b + y <==> a == b && x == y
  {
    if a + x == b + y {
      assert a == (a + x)[..|a|] && b == (b + y)[..|b|];
      assert x == (a + x)[|a|..] && y == (b + y)[|b|..];
    }
  }

  /** Two changes in a common front give the same if they do on the front, and the rests are the same. */
  lemma FrontChangeIff(content: seq<string>, s: seq<string>, t: seq<string>, p: nat, q: nat, n: nat, line: HunkLine)
    requires FrontKept(content, s, n) && FrontKept(content, t, n) && !line.Context?
    requires p <= q && q + (if line.Removed? then 1 else 0) <= n
    ensures ChangeAt(s, p, line) == ChangeAt(t, q, line) <==> Passes(content, p, q, line) && s == t
  {
    var front := content[..n];
    assert s == front + s[n..] && t == front + t[n..];
    ChangeInFront(front, s[n..], p, line);
    ChangeInFront(front, t[n..], q, line);
    ChangeWeight(front, p, line);
    ChangeWeight(front, q, line);
    FrontsEqual(ChangeAt(front, p, line), ChangeAt(front, q, line), s[n..], t[n..]);
    LaterIff(front, p, q, line);
    PassesInFront(content, p, q, n, line);
  }

  lemma PassesInFront(content: seq<string>, p: nat, q: nat, n: nat, line: HunkLine)
    requires n <= |content| && p <= q && q + (if line.Removed? then 1 else 0) <= n
    ensures Passes(content[..n], p, q, line) <==> Passes(content, p, q, line)
  {
  }

  lemma SpacedBehind(b: nat, body: seq<HunkLine>, i: nat)
    requires Spaced(b, body) && i < |body| && !body[i].Context?
    ensures AllBehind(b, body, i + 1, PassedBy(b, body, i))
  {
  }

  lemma PassedInFile(content: seq<string>, b: nat, body: seq<HunkLine>, i: nat)
    requires i < |body| && PlaceOf(b, body, |body|, true) <= |content|
    ensures PassedBy(b, body, i) <= |content|
  {
    NextPlace(b, body, i);
    PlacesGrow(b, body, i + 1);
  }

  lemma PassableHere(content: seq<string>, b: nat, body: seq<HunkLine>, i: nat)
    requires i < |body|
    ensures Passable(content, b, body, i) <==>
              Passes(content, PlaceOf(b, body, i, false), PlaceOf(b, body, i, true), body[i])
              && Passable(content, b, body, i + 1)
  {
  }

  /** Where no change is put off beyond a later one, the fallback patch is right only if each can be put off. */
  lemma {:induction false} SpacedIff(content: seq<string>, b: nat, body: seq<HunkLine>, i: nat)
    requires i <= |body| && PlaceOf(b, body, |body|, true) <= |content| && Spaced(b, body)
    ensures Changed(content, b, body, i, true) == Changed(content, b, body, i, false) <==> Passable(content, b, body, i)
    decreases |body| - i
  {
    if i < |body| {
      SpacedIff(content, b, body, i + 1);
      PassableHere(content, b, body, i);
      NextPlace(b, body, i);
      if !body[i].Context? {
        var (p, q, n) := (PlaceOf(b, body, i, false), PlaceOf(b, body, i, true), PassedBy(b, body, i));
        SpacedBehind(b, body, i);
        PassedInFile(content, b, body, i);
        ChangedBehind(content, b, body, i + 1, n, false);
        ChangedBehind(content, b, body, i + 1, n, true);
        FrontChangeIff(content, Changed(content, b, body, i + 1, false), Changed(content, b, body, i + 1, true),
          p, q, n, body[i]);
      }
    }
  }

  /** For hunks whose changes are far enough apart, and for those with one change: exactly when the text is right. */
  lemma SpacedChangesIff(content: seq<string>, b: nat, body: seq<HunkLine>)
    requires b <= |content| && Spaced(b, body)
    requires ReplayBody(content, b, body).Ok? && ReplayBody(content, b, Reread(body)).Ok?
    ensures GivesTheSame(content, b, body) <==> Passable(content, b, body, 0)
  {
    SameChanges(content, b, body);
    SpacedIff(content, b, body, 0);
  }

  // ---------- a single change ----------

  /** All lines but the `k`th are context. */
  predicate OnlyChange(body: seq<HunkLine>, k: nat) {
    k < |body| && !body[k].Context? && forall i :: 0 <= i < |body| && i != k ==> body[i].Context?
  }

  lemma {:induction false} ContextOnly(body: seq<HunkLine>)
    requires forall i :: 0 <= i < |body| ==> body[i].Context?
    ensures |OldSide(body)| == |body|
  {
    if body != [] {
      ContextOnly(body[1..]);
    }
  }

  lemma {:induction false} NothingChanged(lines: seq<string>, b: nat, body: seq<HunkLine>, i: nat, n: nat,
          fallback: bool)
    requires i <= n <= |body| && forall k :: i <= k < n ==> body[k].Context?
    ensures Changed(lines, b, body, i, fallback) == Changed(lines, b, body, n, fallback)
    decreases n - i
  {
    if i < n {
      NothingChanged(lines, b, body, i + 1, n, fallback);
    }
  }

  lemma OneChanged(lines: seq<string>, b: nat, body: seq<HunkLine>, k: nat, fallback: bool)
    requires OnlyChange(body, k)
    ensures Changed(lines, b, body, 0, fallback) == ChangeAt(lines, if fallback then b + 2 * k else b + k, body[k])
  {
    NothingChanged(lines, b, body, 0, k, fallback);
    NothingChanged(lines, b, body, k + 1, |body|, fallback);
    ContextOnly(body[..k]);
  }

  lemma ChangeInFile(content: seq<string>, b: nat, body: seq<HunkLine>, k: nat)
    requires OnlyChange(body, k) && PlaceOf(b, body, |body|, true) <= |content|
    ensures b + 2 * k <= |content| && (body[k].Removed? ==> b + 2 * k < |content|)
  {
    PlacesGrow(b, body, k + 1);
    NextPlace(b, body, k);
    ContextOnly(body[..k]);
  }

  lemma OneChangedIff(content: seq<string>, b: nat, body: seq<HunkLine>, k: nat)
    requires OnlyChange(body, k) && PlaceOf(b, body, |body|, true) <= |content|
    ensures Changed(content, b, body, 0, true) == Changed(content, b, body, 0, false)
            <==> Passes(content, b + k, b + 2 * k, body[k])
  {
    OneChanged(content, b, body, k, true);
    OneChanged(content, b, body, k, false);
    ChangeInFile(content, b, body, k);
    LaterIff(content, b + k, b + 2 * k, body[k]);
  }

  /**
   One changed line behind `k` lines of context: the fallback patch gives the right text if and only if the line
   removed and the `k` behind it are all equal, or the `k` lines behind the place of an added one all equal it.
   */
  lemma OneChangeIff(content: seq<string>, b: nat, body: seq<HunkLine>, k: nat)
    requires b <= |content| && OnlyChange(body, k)
    requires ReplayBody(content, b, body).Ok? && ReplayBody(content, b, Reread(body)).Ok?
    ensures GivesTheSame(content, b, body) <==> Passes(content, b + k, b + 2 * k, body[k])
  {
    SameChanges(content, b, body);
    OneChangedIff(content, b, body, k);
  }

  lemma BlankKeeps(content: seq<string>, b: nat, rest: seq<HunkLine>, made: seq<string>, e: nat)
    requires b < |content| && ReplayBody(content, b + 1, rest) == Ok((made, e))
    ensures ReplayBody(content, b, [Context("")] + rest) == Ok(([content[b]] + made, e))
  {
    BlankStrips();
    assert ([Context("")] + rest)[1..] == rest;
  }

  lemma RemovedSkips(content: seq<string>, b: nat, text: string, rest: seq<HunkLine>)
    requires b < |content|
    ensures ReplayBody(content, b, [Removed(text)] + rest) == ReplayBody(content, b + 1, rest)
  {
    assert ([Removed(text)] + rest)[1..] == rest;
  }

  lemma RightReplay(content: seq<string>)
    requires |content| == 6
    ensures ReplayBody(content, 0, [Context(""), Removed("q"), Context("")]) == Ok(([content[0], content[2]], 3))
  {
    var c := Context("");
    BlankKeeps(content, 2, [], [], 3);
    RemovedSkips(content, 1, "q", [c] + []);
    BlankKeeps(content, 0, [Removed("q")] + ([c] + []), [content[2]] + [], 3);
    assert [c] + ([Removed("q")] + ([c] + [])) == [c, Removed("q"), c];
    assert [content[0]] + ([content[2]] + []) == [content[0], content[2]];
  }

  lemma ThreeBlanks(content: seq<string>)
    requires |content| == 6
    ensures
      var blanks := [Context("")] + ([Context("")] + ([Context("")] + []));
      ReplayBody(content, 3, blanks) == Ok((content[3..], 6))
  {
    var c := Context("");
    BlankKeeps(content, 5, [], [], 6);
    BlankKeeps(content, 4, [c] + [], [content[5]] + [], 6);
    BlankKeeps(content, 3, [c] + ([c] + []), [content[4]] + ([content[5]] + []), 6);
    assert [content[3]] + ([content[4]] + ([content[5]] + [])) == content[3..];
  }

  lemma RereadThree()
    ensures
      var c := Context("");
      Reread([c, Removed("q"), c]) == [c] + ([c] + ([Removed("q")] + ([c] + ([c] + ([c] + [])))))
  {
    var c := Context("");
    assert Reread([c]) == [c, c];
    assert [Removed("q"), c][1..] == [c] && Reread([Removed("q"), c]) == [Removed("q"), c] + [c, c];
    assert [c, Removed("q"), c][1..] == [Removed("q"), c];
  }

  lemma WrongReplay(content: seq<string>)
    requires |content| == 6
    ensures ReplayBody(content, 0, Reread([Context(""), Removed("q"), Context("")]))
         == Ok((content[..2] + content[3..], 6))
  {
    var c := Context("");
    var blanks := [c] + ([c] + ([c] + []));
    ThreeBlanks(content);
    RemovedSkips(content, 2, "q", blanks);
    BlankKeeps(content, 1, [Removed("q")] + blanks, content[3..], 6);
    BlankKeeps(content, 0, [c] + ([Removed("q")] + blanks), [content[1]] + content[3..], 6);
    RereadThree();
    assert [content[0]] + ([content[1]] + content[3..]) == content[..2] + content[3..];
  }

  /** A fallback patch that applies, keeps the line it should remove and removes a blank one. */
  lemma WrongLineRemoved()
    ensures
      var content := ["\n", "q\n", "\n", "\n", "\n", "\n"];
      var body := [Context(""), Removed("q"), Context("")];
      var (right, wrong) := (ReplayBody(content, 0, body), ReplayBody(content, 0, Reread(body)));
      && right.Ok? && wrong.Ok?
      && Spliced(content, 0, right.value.0, right.value.1) == ["\n", "\n", "\n", "\n", "\n"]
      && Spliced(content, 0, wrong.value.0, wrong.value.1) == ["\n", "q\n", "\n", "\n", "\n"]
  {
    var content := ["\n", "q\n", "\n", "\n", "\n", "\n"];
    RightReplay(content);
    WrongReplay(content);
  }

  // ---------- whole patches ----------

  function RereadAll(hunks: seq<Hunk>): seq<Hunk> {
    if hunks == [] then [] else [Hunk(hunks[0].sourceStart, Reread(hunks[0].body))] + RereadAll(hunks[1..])
  }

  /** Every hunk is replayed with all changes put off, and ends before the next one starts. */
  ghost predicate Harmless(content: seq<string>, lineNo: nat, hunks: seq<Hunk>)
    requires lineNo <= |content|
    decreases |hunks|
  {
    hunks == [] ||
    var (b, body) := (CopyEnd(lineNo, hunks[0].sourceStart, |content|), hunks[0].body);
    var e := MetAt(b, body, |body|);
    && e <= |content| && Meets(content, b, body) && Passable(content, b, body, 0)
    && (|hunks| > 1 ==> e < hunks[1].sourceStart) && Harmless(content, e, hunks[1..])
  }

  /** Starting a replay later, but not behind the next hunk, leaves out the lines in between. */
  lemma LaterStart(content: seq<string>, i: nat, e: nat, hunks: seq<Hunk>)
    requires i <= e <= |content| && (hunks != [] ==> e < hunks[0].sourceStart)
    ensures Replay(content, i, hunks) == Prepend(content[i..e], Replay(content, e, hunks))
  {
    if hunks == [] {
      assert content[i..] == content[i..e] + content[e..];
    } else {
      var b := CopyEnd(e, hunks[0].sourceStart, |content|);
      assert content[i..b] == content[i..e] + content[e..b];
      var r := ReplayBody(content, b, hunks[0].body);
      if r.Ok? {
        Regroup(content[i..e], content[e..b], r.value.0);
        PrependPrepend(content[i..e], content[e..b] + r.value.0, Replay(content, r.value.1, hunks[1..]));
      }
    }
  }

  lemma SameUpTo(content: seq<string>, b: nat, made: seq<string>, e: nat, more: seq<string>, end: nat)
    requires b <= e <= end <= |content| && Spliced(content, b, more, end) == Spliced(content, b, made, e)
    ensures more == made + content[e..end]
  {
    var (s, n) := (Spliced(content, b, more, end), |content| - end);
    assert content[e..] == content[e..end] + content[end..];
    assert s == content[..b] + (made + content[e..end]) + content[end..];
    assert s[b..|s| - n] == more;
    assert s[b..|s| - n] == made + content[e..end];
  }

  lemma FallbackEnd(content: seq<string>, b: nat, body: seq<HunkLine>)
    requires b <= |content| && ReplayBody(content, b, Reread(body)).Ok?
    ensures ReplayBody(content, b, Reread(body)).value.1 == MetAt(b, body, |body|)
    ensures ReplayBody(content, b, body).Ok? ==> ReplayBody(content, b, body).value.1 <= MetAt(b, body, |body|)
  {
    EndOfBody(content, b, Reread(body));
    EndOfBody(content, b, body);
    RereadSides(body);
    assert body[..|body|] == body;
  }

  lemma {:induction false} EndOfBody(content: seq<string>, b: nat, body: seq<HunkLine>)
    requires b <= |content|
    ensures ReplayBody(content, b, body).Ok? ==> ReplayBody(content, b, body).value.1 == b + |OldSide(body)|
    decreases |body|
  {
    if body != [] {
      if body[0].Added? {
        EndOfBody(content, b, body[1..]);
      } else if b < |content| {
        EndOfBody(content, b + 1, body[1..]);
      }
    }
  }

  /** One hunk of a harmless patch. */
  lemma HarmlessHunk(content: seq<string>, b: nat, body: seq<HunkLine>)
    requires b <= |content| && ReplayBody(content, b, body).Ok?
    requires MetAt(b, body, |body|) <= |content| && Meets(content, b, body) && Passable(content, b, body, 0)
    ensures
      var (r, e) := (ReplayBody(content, b, body).value, MetAt(b, body, |body|));
      && r.1 <= e <= |content|
      && ReplayBody(content, b, Reread(body)) == Ok((r.0 + content[r.1..e], e))
  {
    FallbackReplaysIff(content, b, body);
    FallbackIsRight(content, b, body);
    FallbackEnd(content, b, body);
    var (r, more) := (ReplayBody(content, b, body).value, ReplayBody(content, b, Reread(body)).value);
    SameUpTo(content, b, r.0, r.1, more.0, more.1);
  }

  /** If every change of every hunk can be put off, the fallback patch gives what the patch should. */
  lemma {:induction false} HarmlessIsRight(content: seq<string>, lineNo: nat, hunks: seq<Hunk>)
    requires lineNo <= |content| && Replay(content, lineNo, hunks).Ok? && Harmless(content, lineNo, hunks)
    ensures Replay(content, lineNo, RereadAll(hunks)) == Replay(content, lineNo, hunks)
    decreases |hunks|
  {
    if hunks != [] {
      var (b, body) := (CopyEnd(lineNo, hunks[0].sourceStart, |content|), hunks[0].body);
      HarmlessHunk(content, b, body);
      var (r, e) := (ReplayBody(content, b, body).value, MetAt(b, body, |body|));
      LaterStart(content, r.1, e, hunks[1..]);
      HarmlessIsRight(content, e, hunks[1..]);
      PrependPrepend(content[lineNo..b] + r.0, content[r.1..e], Replay(content, e, hunks[1..]));
      Regroup(content[lineNo..b], r.0, content[r.1..e]);
      assert RereadAll(hunks)[1..] == RereadAll(hunks[1..]);
    }
  }

  /** All hunks can be replayed both ways, and none runs into the next one. */
  ghost predicate KeptApart(content: seq<string>, lineNo: nat, hunks: seq<Hunk>)
    requires lineNo <= |content|
    decreases |hunks|
  {
    hunks == [] ||
    var (b, body) := (CopyEnd(lineNo, hunks[0].sourceStart, |content|), hunks[0].body);
    var e := MetAt(b, body, |body|);
    && ReplayBody(content, b, body).Ok? && ReplayBody(content, b, Reread(body)).Ok? && e <= |content|
    && (|hunks| > 1 ==> e < hunks[1].sourceStart) && KeptApart(content, e, hunks[1..])
  }

  /** Each hunk by itself gives what it should. */
  ghost predicate AllTheSame(content: seq<string>, lineNo: nat, hunks: seq<Hunk>)
    requires lineNo <= |content| && KeptApart(content, lineNo, hunks)
    decreases |hunks|
  {
    hunks == [] ||
    var (b, body) := (CopyEnd(lineNo, hunks[0].sourceStart, |content|), hunks[0].body);
    GivesTheSame(content, b, body) && AllTheSame(content, MetAt(b, body, |body|), hunks[1..])
  }

  lemma {:induction false} MadeLength(content: seq<string>, b: nat, body: seq<HunkLine>)
    requires b <= |content| && ReplayBody(content, b, body).Ok?
    ensures |ReplayBody(content, b, body).value.0| == |NewSide(body)|
    decreases |body|
  {
    if body != [] {
      MadeLength(content, b + if body[0].Added? then 0 else 1, body[1..]);
    }
  }

  lemma SameUpToIff(content: seq<string>, b: nat, made: seq<string>, e: nat, more: seq<string>, end: nat)
    requires b <= e <= end <= |content|
    ensures Spliced(content, b, more, end) == Spliced(content, b, made, e) <==> more == made + content[e..end]
  {
    assert content[e..] == content[e..end] + content[end..];
    assert Spliced(content, b, made, e) == content[..b] + (made + content[e..end]) + content[end..];
    if Spliced(content, b, more, end) == Spliced(content, b, made, e) {
      SameUpTo(content, b, made, e, more, end);
    }
  }

  /** What one hunk gives, up to where it ends in the fallback patch. */
  lemma HunkIff(content: seq<string>, b: nat, body: seq<HunkLine>)
    requires b <= |content| && ReplayBody(content, b, body).Ok? && ReplayBody(content, b, Reread(body)).Ok?
    ensures
      var (r, s, e) := (ReplayBody(content, b, body).value, ReplayBody(content, b, Reread(body)).value,
                        MetAt(b, body, |body|));
      && r.1 <= s.1 == e <= |content| && |s.0| == |r.0 + content[r.1..e]|
      && (GivesTheSame(content, b, body) <==> s.0 == r.0 + content[r.1..e])
  {
    var (r, s) := (ReplayBody(content, b, body).value, ReplayBody(content, b, Reread(body)).value);
    FallbackEnd(content, b, body);
    EndOfBody(content, b, body);
    EndOfBody(content, b, Reread(body));
    RereadSides(body);
    MadeLength(content, b, body);
    MadeLength(content, b, Reread(body));
    SameUpToIff(content, b, r.0, r.1, s.0, s.1);
  }

  lemma {:induction false} BothReplay(content: seq<string>, lineNo: nat, hunks: seq<Hunk>)
    requires lineNo <= |content| && KeptApart(content, lineNo, hunks)
    ensures Replay(content, lineNo, hunks).Ok? && Replay(content, lineNo, RereadAll(hunks)).Ok?
    decreases |hunks|
  {
    if hunks != [] {
      var (b, body) := (CopyEnd(lineNo, hunks[0].sourceStart, |content|), hunks[0].body);
      HunkIff(content, b, body);
      var (r, e) := (ReplayBody(content, b, body).value, MetAt(b, body, |body|));
      BothReplay(content, e, hunks[1..]);
      LaterStart(content, r.1, e, hunks[1..]);
      assert RereadAll(hunks)[1..] == RereadAll(hunks[1..]);
    }
  }

  lemma PartsEqual<T>(front: seq<T>, a: seq<T>, b: seq<T>, x: seq<T>, y: seq<T>)
    requires |a| == |b|
    ensures front + a + x == front + b + y <==> a == b && x == y
  {
    Regroup(front, a, x);
    Regroup(front, b, y);
    FrontsEqual(front, front, a + x, b + y);
    FrontsEqual(a, b, x, y);
  }

  /** A fallback patch whose hunks are kept apart gives the right lines exactly if each hunk by itself does. */
  lemma {:induction false} FallbackIff(content: seq<string>, lineNo: nat, hunks: seq<Hunk>)
    requires lineNo <= |content| && KeptApart(content, lineNo, hunks)
    ensures Replay(content, lineNo, RereadAll(hunks)) == Replay(content, lineNo, hunks)
            <==> AllTheSame(content, lineNo, hunks)
    decreases |hunks|
  {
    if hunks != [] {
      var (b, body) := (CopyEnd(lineNo, hunks[0].sourceStart, |content|), hunks[0].body);
      HunkIff(content, b, body);
      var (r, s, e) := (ReplayBody(content, b, body).value, ReplayBody(content, b, Reread(body)).value,
                        MetAt(b, body, |body|));
      BothReplay(content, lineNo, hunks);
      BothReplay(content, e, hunks[1..]);
      LaterStart(content, r.1, e, hunks[1..]);
      FallbackIff(content, e, hunks[1..]);
      assert RereadAll(hunks)[1..] == RereadAll(hunks[1..]);
      var (x, y) := (Replay(content, e, RereadAll(hunks[1..])).value, Replay(content, e, hunks[1..]).value);
      PartsEqual(content[lineNo..b], s.0, r.0 + content[r.1..e], x, y);
      assert content[lineNo..b] + r.0 + (content[r.1..e] + y) == content[lineNo..b] + (r.0 + content[r.1..e]) + y;
    }
  }

  /** The same for the text of a file. */
  lemma FallbackTextIsRight(content: string, hunks: seq<Hunk>)
    requires ReplayText(content, hunks).Ok? && Harmless(SplitKeep(content), 0, hunks)
    ensures ReplayText(content, RereadAll(hunks)) == ReplayText(content, hunks)
  {
    HarmlessIsRight(SplitKeep(content), 0, hunks);
  }
}
