/**
 Windows of lines that contain a pattern when case, white space and some punctuation are ignored
 (`find_potential_matches`).
 */
module PotentialMatch {
  import opened Prelude
  import opened Text
  import opened Comparison
  import Search
  import IndentMatch

  predicate Contains(s: string, part: string) {
    Search.Find(s, part, 0) != -1
  }

  // ---------- the windows ----------

  datatype Reason = LineBreaksDiffer | IndentationDiffers

  datatype Match = Match(startLine: nat, endLine: nat, content: string, reason: Reason)

  const MAX_WINDOW: nat := 50

  function WindowText(lines: seq<string>, start: nat, size: nat): string
    requires start + size <= |lines|
  {
    Join(lines[start..start + size])
  }

  /** The first size not tried at `start`. */
  function SizeLimit(lines: seq<string>, start: nat): nat
    requires start <= |lines|
  {
    if |lines| - start + 1 < MAX_WINDOW then |lines| - start + 1 else MAX_WINDOW
  }

  predicate CanStart(oldKey: string, line: string) {
    Key(line) != "" && Key(line) <= oldKey
  }

  predicate Holds(oldKey: string, lines: seq<string>, start: nat, size: nat)
    requires start + size <= |lines|
  {
    Contains(Key(WindowText(lines, start, size)), oldKey)
  }

  /** The least size from `size` on whose window holds the pattern, or the limit. */
  function LeastSize(oldKey: string, lines: seq<string>, start: nat, size: nat): (r: nat)
    requires start < |lines| && 1 <= size <= SizeLimit(lines, start)
    ensures size <= r <= SizeLimit(lines, start)
    decreases SizeLimit(lines, start) - size
  {
    if size == SizeLimit(lines, start) || Holds(oldKey, lines, start, size) then size
    else LeastSize(oldKey, lines, start, size + 1)
  }

  /** The windows from `start` on; behind a window the search goes on with the next line. */
  function Scan(oldKey: string, lines: seq<string>, start: nat): seq<(nat, nat)>
    decreases |lines| - start
  {
    if start >= |lines| then []
    else if !CanStart(oldKey, lines[start]) then Scan(oldKey, lines, start + 1)
    else
      var size := LeastSize(oldKey, lines, start, 1);
      if size == SizeLimit(lines, start) then Scan(oldKey, lines, start + 1)
      else [(start, size)] + Scan(oldKey, lines, start + size)
  }

  function WindowMatch(lines: seq<string>, start: nat, size: nat): Match
    requires start + size <= |lines|
  {
    Match(start + 1, start + size, WindowText(lines, start, size), LineBreaksDiffer)
  }

  /** The matches of the windows from `start` on. */
  function WindowMatches(oldKey: string, lines: seq<string>, start: nat): seq<Match>
    decreases |lines| - start
  {
    if start >= |lines| then []
    else if !CanStart(oldKey, lines[start]) then WindowMatches(oldKey, lines, start + 1)
    else
      var size := LeastSize(oldKey, lines, start, 1);
      if size == SizeLimit(lines, start) then WindowMatches(oldKey, lines, start + 1)
      else [WindowMatch(lines, start, size)] + WindowMatches(oldKey, lines, start + size)
  }

  function TrimmedMatch(oldStr: string, line: string, n: nat): seq<Match> {
    if IndentMatch.NormalizeIndentation(line) == IndentMatch.NormalizeIndentation(oldStr)
    then [Match(n, n, line, IndentationDiffers)] else []
  }

  /** Single lines equal to the pattern after trimming, before line `upTo`. */
  function TrimmedMatches(oldStr: string, lines: seq<string>, upTo: nat): seq<Match>
    requires upTo <= |lines|
  {
    if upTo == 0 then [] else
      TrimmedMatches(oldStr, lines, upTo - 1) + TrimmedMatch(oldStr, lines[upTo - 1], upTo)
  }

  // ---------- the loops ----------

  function LineRange(start: nat, size: nat): (r: set<nat>)
    ensures forall i :: i in r <==> start <= i < start + size
  {
    if size == 0 then {} else LineRange(start, size - 1) + {start + size - 1}
  }

  /** The inner loop: increasing window sizes, none of whose lines may be processed already. */
  method TryWindows(oldKey: string, lines: seq<string>, startIdx: nat, processedLines: set<nat>)
    returns (windowSize: nat)
    requires startIdx < |lines| && forall i <- processedLines :: i < startIdx
    ensures windowSize == LeastSize(oldKey, lines, startIdx, 1)
  {
    windowSize := 1;
    while windowSize < SizeLimit(lines, startIdx)
      invariant 1 <= windowSize <= SizeLimit(lines, startIdx)
      invariant LeastSize(oldKey, lines, startIdx, windowSize) == LeastSize(oldKey, lines, startIdx, 1)
    {
      if processedLines !! LineRange(startIdx, windowSize) && Holds(oldKey, lines, startIdx, windowSize) {
        return;
      }
      windowSize := windowSize + 1;
    }
  }

  ghost predicate UpTo(oldKey: string, lines: seq<string>, start: nat, done: seq<Match>) {
    done + WindowMatches(oldKey, lines, start) == WindowMatches(oldKey, lines, 0)
  }

  /** A line starts a window of this size. */
  predicate Starts(oldKey: string, lines: seq<string>, start: nat, size: nat)
    requires start < |lines|
  {
    CanStart(oldKey, lines[start]) && size == LeastSize(oldKey, lines, start, 1) < SizeLimit(lines, start)
  }

  predicate StartsNone(oldKey: string, lines: seq<string>, start: nat)
    requires start < |lines|
  {
    !CanStart(oldKey, lines[start]) || LeastSize(oldKey, lines, start, 1) == SizeLimit(lines, start)
  }

  lemma TakeStep(oldKey: string, lines: seq<string>, start: nat, size: nat)
    requires start < |lines| && Starts(oldKey, lines, start, size)
    ensures Scan(oldKey, lines, start) == [(start, size)] + Scan(oldKey, lines, start + size)
    ensures WindowMatches(oldKey, lines, start)
         == [WindowMatch(lines, start, size)] + WindowMatches(oldKey, lines, start + size)
  {
  }

  lemma SkipStep(oldKey: string, lines: seq<string>, start: nat)
    requires start < |lines| && StartsNone(oldKey, lines, start)
    ensures Scan(oldKey, lines, start) == Scan(oldKey, lines, start + 1)
    ensures WindowMatches(oldKey, lines, start) == WindowMatches(oldKey, lines, start + 1)
  {
  }

  lemma TakeWindow(oldKey: string, lines: seq<string>, start: nat, size: nat, done: seq<Match>)
    requires start < |lines| && Starts(oldKey, lines, start, size) && UpTo(oldKey, lines, start, done)
    ensures UpTo(oldKey, lines, start + size, done + [WindowMatch(lines, start, size)])
  {
    TakeStep(oldKey, lines, start, size);
    Regroup(done, [WindowMatch(lines, start, size)], WindowMatches(oldKey, lines, start + size));
  }

  lemma SkipLine(oldKey: string, lines: seq<string>, start: nat, done: seq<Match>)
    requires start < |lines| && StartsNone(oldKey, lines, start) && UpTo(oldKey, lines, start, done)
    ensures UpTo(oldKey, lines, start + 1, done)
  {
    SkipStep(oldKey, lines, start);
  }

  /** The body of the loop over the lines. */
  method ScanLine(oldKey: string, lines: seq<string>, start: nat, processed: set<nat>, done: seq<Match>)
    returns (startIdx: nat, processedLines: set<nat>, matches: seq<Match>)
    requires start < |lines| && UpTo(oldKey, lines, start, done)
    requires (forall i <- processed :: i < start) && (done == [] ==> processed == {})
    ensures start < startIdx && UpTo(oldKey, lines, startIdx, matches)
    ensures (forall i <- processedLines :: i < startIdx) && (matches == [] ==> processedLines == {})
  {
    startIdx, processedLines, matches := start + 1, processed, done;
    if start in processed || !CanStart(oldKey, lines[start]) {
      SkipLine(oldKey, lines, start, done);
      return;
    }
    var windowSize := TryWindows(oldKey, lines, start, processed);
    if windowSize < SizeLimit(lines, start) {
      TakeWindow(oldKey, lines, start, windowSize, done);
      processedLines := processed + LineRange(start, windowSize);
      matches := done + [WindowMatch(lines, start, windowSize)];
      startIdx := start + windowSize;
    } else {
      SkipLine(oldKey, lines, start, done);
    }
  }

  method FindPotentialMatches(oldStr: string, newContent: string) returns (matches: seq<Match>)
    ensures
      var (oldKey, lines) := (Key(oldStr), Lines(newContent));
      matches == if WindowMatches(oldKey, lines, 0) != [] then WindowMatches(oldKey, lines, 0)
                 else TrimmedMatches(oldStr, lines, |lines|)
  {
    var oldKey, lines := Key(oldStr), Lines(newContent);
    matches := [];
    var processedLines: set<nat> := {};
    var startIdx: nat := 0;
    while startIdx < |lines|
      invariant forall i <- processedLines :: i < startIdx
      invariant matches == [] ==> processedLines == {}
      invariant UpTo(oldKey, lines, startIdx, matches)
    {
      startIdx, processedLines, matches := ScanLine(oldKey, lines, startIdx, processedLines, matches);
    }
    assert matches + [] == matches;
    if matches == [] {
      matches := FindTrimmedMatches(oldStr, lines, processedLines);
    }
  }

  lemma TrimmedStep(oldStr: string, lines: seq<string>, i: nat)
    requires i < |lines|
    ensures TrimmedMatches(oldStr, lines, i + 1)
         == TrimmedMatches(oldStr, lines, i) + TrimmedMatch(oldStr, lines[i], i + 1)
  {
  }

  method FindTrimmedMatches(oldStr: string, lines: seq<string>, processed: set<nat>) returns (matches: seq<Match>)
    requires processed == {}
    ensures matches == TrimmedMatches(oldStr, lines, |lines|)
  {
    matches := [];
    var processedLines := processed;
    for i := 0 to |lines|
      invariant forall k <- processedLines :: k < i
      invariant matches == TrimmedMatches(oldStr, lines, i)
    {
      TrimmedStep(oldStr, lines, i);
      assert matches + [] == matches;
      if i !in processedLines
        && IndentMatch.NormalizeIndentation(lines[i]) == IndentMatch.NormalizeIndentation(oldStr) {
        processedLines := processedLines + {i};
        matches := matches + [Match(i + 1, i + 1, lines[i], IndentationDiffers)];
      }
    }
  }

  // ---------- what the windows are ----------

  lemma {:induction false} LeastIsLeast(oldKey: string, lines: seq<string>, start: nat, size: nat, smaller: nat)
    requires start < |lines| && 1 <= size <= SizeLimit(lines, start)
    ensures
      var r := LeastSize(oldKey, lines, start, size);
      && (r < SizeLimit(lines, start) ==> Holds(oldKey, lines, start, r))
      && (size <= smaller < r ==> !Holds(oldKey, lines, start, smaller))
    decreases SizeLimit(lines, start) - size
  {
    if size < SizeLimit(lines, start) && !Holds(oldKey, lines, start, size) {
      LeastIsLeast(oldKey, lines, start, size + 1, smaller);
    }
  }

  /** The least window at every line that can start one and has one. */
  ghost function FoundAt(oldKey: string, lines: seq<string>): (r: map<nat, nat>)
  {
    map start: nat |
      && start < |lines| && CanStart(oldKey, lines[start])
      && LeastSize(oldKey, lines, start, 1) < SizeLimit(lines, start) ::
      LeastSize(oldKey, lines, start, 1)
  }

  /** A choice of windows: found ones, in order and disjoint, and no found start lies outside of them. */
  ghost predicate Chosen(found: map<nat, nat>, from: nat, windows: seq<(nat, nat)>) {
    Picked(found, from, windows) && InOrder(windows) && Covered(found, from, windows)
  }

  ghost predicate Picked(found: map<nat, nat>, from: nat, windows: seq<(nat, nat)>) {
    forall k :: 0 <= k < |windows| ==>
      from <= windows[k].0 && windows[k].0 in found && found[windows[k].0] == windows[k].1
  }

  ghost predicate InOrder(windows: seq<(nat, nat)>) {
    forall k, l :: 0 <= k < l < |windows| ==> windows[k].0 + windows[k].1 <= windows[l].0
  }

  ghost predicate Covered(found: map<nat, nat>, from: nat, windows: seq<(nat, nat)>) {
    forall q {:trigger CoveredBy(windows, q)} :: q in found && from <= q ==> CoveredBy(windows, q)
  }

  ghost predicate CoveredBy(windows: seq<(nat, nat)>, q: nat) {
    exists k :: 0 <= k < |windows| && windows[k].0 <= q < windows[k].0 + windows[k].1
  }

  lemma CoveredCons(first: (nat, nat), rest: seq<(nat, nat)>, q: nat)
    ensures CoveredBy(rest, q) || first.0 <= q < first.0 + first.1 ==> CoveredBy([first] + rest, q)
  {
    var windows := [first] + rest;
    if CoveredBy(rest, q) {
      var k :| 0 <= k < |rest| && rest[k].0 <= q < rest[k].0 + rest[k].1;
      assert windows[k + 1] == rest[k];
    } else {
      assert windows[0] == first;
    }
  }

  lemma AllCovered(found: map<nat, nat>, from: nat, size: nat, rest: seq<(nat, nat)>)
    requires Covered(found, from + size, rest)
    ensures Covered(found, from, [(from, size)] + rest)
  {
    forall q | q in found && from <= q ensures CoveredBy([(from, size)] + rest, q) {
      assert from + size <= q ==> CoveredBy(rest, q);
      CoveredCons((from, size), rest, q);
    }
  }

  lemma OrderCons(found: map<nat, nat>, from: nat, size: nat, rest: seq<(nat, nat)>)
    requires Picked(found, from + size, rest) && InOrder(rest)
    ensures InOrder([(from, size)] + rest)
  {
    var windows := [(from, size)] + rest;
    forall k, l | 0 <= k < l < |windows| ensures windows[k].0 + windows[k].1 <= windows[l].0 {
      assert windows[l] == rest[l - 1];
      assert k > 0 ==> windows[k] == rest[k - 1];
    }
  }

  lemma PickedCons(found: map<nat, nat>, from: nat, size: nat, rest: seq<(nat, nat)>)
    requires from in found && found[from] == size && Picked(found, from + size, rest)
    ensures Picked(found, from, [(from, size)] + rest)
  {
    var windows := [(from, size)] + rest;
    forall k | 0 <= k < |windows|
      ensures from <= windows[k].0 && windows[k].0 in found && found[windows[k].0] == windows[k].1
    {
      assert k > 0 ==> windows[k] == rest[k - 1];
    }
  }

  lemma ChosenCons(found: map<nat, nat>, from: nat, size: nat, rest: seq<(nat, nat)>)
    requires from in found && found[from] == size && Chosen(found, from + size, rest)
    ensures Chosen(found, from, [(from, size)] + rest)
  {
    PickedCons(found, from, size, rest);
    OrderCons(found, from, size, rest);
    AllCovered(found, from, size, rest);
  }

  lemma ChosenSkip(found: map<nat, nat>, from: nat, rest: seq<(nat, nat)>)
    requires from !in found && Chosen(found, from + 1, rest)
    ensures Chosen(found, from, rest)
  {
  }

  lemma FoundIff(oldKey: string, lines: seq<string>, start: nat)
    requires start < |lines|
    ensures start in FoundAt(oldKey, lines) ==> Starts(oldKey, lines, start, FoundAt(oldKey, lines)[start])
    ensures start !in FoundAt(oldKey, lines) ==> StartsNone(oldKey, lines, start)
  {
  }

  lemma ScanFound(found: map<nat, nat>, start: nat, size: nat, all: seq<(nat, nat)>, rest: seq<(nat, nat)>)
    requires start in found && size == found[start] && all == [(start, size)] + rest
    requires Chosen(found, start + size, rest)
    ensures Chosen(found, start, all)
  {
    ChosenCons(found, start, size, rest);
  }

  /** What the scan does at a line, in terms of the windows found. */
  ghost predicate ScansBy(found: map<nat, nat>, oldKey: string, lines: seq<string>, start: nat) {
    if start in found
    then found[start] > 0
         && Scan(oldKey, lines, start) == [(start, found[start])] + Scan(oldKey, lines, start + found[start])
    else Scan(oldKey, lines, start) == Scan(oldKey, lines, start + 1)
  }

  lemma {:induction false} ChosenByScan(found: map<nat, nat>, oldKey: string, lines: seq<string>, start: nat)
    requires (forall s <- found :: s < |lines|) && forall s: nat :: s < |lines| ==> ScansBy(found, oldKey, lines, s)
    ensures Chosen(found, start, Scan(oldKey, lines, start))
    decreases |lines| - start
  {
    if start < |lines| {
      assert ScansBy(found, oldKey, lines, start);
      if start in found {
        ChosenByScan(found, oldKey, lines, start + found[start]);
        var rest := Scan(oldKey, lines, start + found[start]);
        ScanFound(found, start, found[start], Scan(oldKey, lines, start), rest);
      } else {
        ChosenByScan(found, oldKey, lines, start + 1);
        ChosenSkip(found, start, Scan(oldKey, lines, start + 1));
      }
    }
  }

  lemma ScansByFound(found: map<nat, nat>, oldKey: string, lines: seq<string>, start: nat)
    requires start < |lines|
    requires if start in found then Starts(oldKey, lines, start, found[start]) else StartsNone(oldKey, lines, start)
    ensures ScansBy(found, oldKey, lines, start)
  {
    if start in found {
      TakeStep(oldKey, lines, start, found[start]);
    } else {
      SkipStep(oldKey, lines, start);
    }
  }

  lemma ScanIsChosen(oldKey: string, lines: seq<string>, start: nat)
    ensures Chosen(FoundAt(oldKey, lines), start, Scan(oldKey, lines, start))
  {
    forall s: nat | s < |lines| ensures ScansBy(FoundAt(oldKey, lines), oldKey, lines, s) {
      FoundIff(oldKey, lines, s);
      ScansByFound(FoundAt(oldKey, lines), oldKey, lines, s);
    }
    ChosenByScan(FoundAt(oldKey, lines), oldKey, lines, start);
  }

  /** The matches are those of the windows, one for one. */
  ghost predicate MatchesOf(lines: seq<string>, windows: seq<(nat, nat)>, matches: seq<Match>) {
    |matches| == |windows| && forall k :: 0 <= k < |windows| ==> IsMatchOf(lines, windows[k], matches[k])
  }

  predicate IsMatchOf(lines: seq<string>, window: (nat, nat), m: Match) {
    && window.0 + window.1 <= |lines| && window.0 < |lines| && 1 <= window.1 < SizeLimit(lines, window.0)
    && m == WindowMatch(lines, window.0, window.1)
  }

  lemma MatchesOfCons(lines: seq<string>, w: (nat, nat), m: Match, windows: seq<(nat, nat)>, matches: seq<Match>)
    requires IsMatchOf(lines, w, m) && MatchesOf(lines, windows, matches)
    ensures MatchesOf(lines, [w] + windows, [m] + matches)
  {
  }

  lemma {:induction false} MatchesOfScan(oldKey: string, lines: seq<string>, start: nat)
    ensures MatchesOf(lines, Scan(oldKey, lines, start), WindowMatches(oldKey, lines, start))
    decreases |lines| - start
  {
    if start < |lines| {
      var size := LeastSize(oldKey, lines, start, 1);
      if Starts(oldKey, lines, start, size) {
        TakeStep(oldKey, lines, start, size);
        MatchesOfScan(oldKey, lines, start + size);
        MatchesOfCons(lines, (start, size), WindowMatch(lines, start, size),
          Scan(oldKey, lines, start + size), WindowMatches(oldKey, lines, start + size));
      } else {
        SkipStep(oldKey, lines, start);
        MatchesOfScan(oldKey, lines, start + 1);
      }
    }
  }

  /**
   The reported windows hold the pattern, no smaller one at their start does, they are disjoint and in order,
   and every line that could start a window lies in a reported one.
   */
  lemma PotentialMatchesSound(oldStr: string, content: string, k: nat, smaller: nat)
    requires k < |Scan(Key(oldStr), Lines(content), 0)|
    ensures
      var (oldKey, lines) := (Key(oldStr), Lines(content));
      var (start, size) := Scan(oldKey, lines, 0)[k];
      && Chosen(FoundAt(oldKey, lines), 0, Scan(oldKey, lines, 0))
      && start + size <= |lines| && 1 <= size < MAX_WINDOW
      && k < |WindowMatches(oldKey, lines, 0)|
      && WindowMatches(oldKey, lines, 0)[k] == WindowMatch(lines, start, size)
      && Holds(oldKey, lines, start, size)
      && (1 <= smaller < size ==> !Holds(oldKey, lines, start, smaller))
  {
    var (oldKey, lines) := (Key(oldStr), Lines(content));
    ScanIsChosen(oldKey, lines, 0);
    MatchesOfScan(oldKey, lines, 0);
    var (start, size) := Scan(oldKey, lines, 0)[k];
    assert IsMatchOf(lines, (start, size), WindowMatches(oldKey, lines, 0)[k]);
    FoundIff(oldKey, lines, start);
    LeastIsLeast(oldKey, lines, start, 1, smaller);
  }

  // ---------- what is reported ----------

  lemma ContainsIff(s: string, part: string)
    ensures Contains(s, part) <==> exists i :: Search.OccursAt(s, part, i)
  {
    if i :| Search.OccursAt(s, part, i) {
      Search.FindIsFirst(s, part, 0, i);
    }
  }

  /** The pattern is in the lines, but for case, white space and some punctuation. */
  ghost predicate InLines(oldStr: string, lines: seq<string>, a: nat, b: nat)
    requires a <= b <= |lines|
  {
    exists i :: Search.OccursAt(NormalizeForComparison(Join(lines[a..b])), NormalizeForComparison(oldStr), i)
  }

  lemma HoldsIff(oldStr: string, lines: seq<string>, a: nat, b: nat)
    requires a <= b <= |lines|
    ensures Holds(Key(oldStr), lines, a, b - a) <==> InLines(oldStr, lines, a, b)
  {
    NormalizedIsKey(oldStr);
    NormalizedIsKey(Join(lines[a..b]));
    ContainsIff(Key(Join(lines[a..b])), Key(oldStr));
  }

  /** The pattern starts with what the line says, and that is something. */
  predicate CouldStart(oldStr: string, line: string) {
    NormalizeForComparison(line) != "" && NormalizeForComparison(line) <= NormalizeForComparison(oldStr)
  }

  lemma CanStartIff(oldStr: string, line: string)
    ensures CanStart(Key(oldStr), line) <==> CouldStart(oldStr, line)
  {
    NormalizedIsKey(oldStr);
    NormalizedIsKey(line);
  }

  /** The window of the `k`th report. */
  lemma WindowOf(oldKey: string, lines: seq<string>, k: nat) returns (start: nat, end: nat)
    requires k < |WindowMatches(oldKey, lines, 0)| || k < |Scan(oldKey, lines, 0)|
    ensures k < |WindowMatches(oldKey, lines, 0)| == |Scan(oldKey, lines, 0)|
    ensures start < end <= |lines| && end - start < 50 && Scan(oldKey, lines, 0)[k] == (start, end - start)
    ensures WindowMatches(oldKey, lines, 0)[k] == Match(start + 1, end, Join(lines[start..end]), LineBreaksDiffer)
  {
    MatchesOfScan(oldKey, lines, 0);
    var w := Scan(oldKey, lines, 0)[k];
    assert IsMatchOf(lines, w, WindowMatches(oldKey, lines, 0)[k]);
    start, end := w.0, w.0 + w.1;
  }

  lemma LeastHolds(oldStr: string, lines: seq<string>, start: nat, end: nat, b: nat)
    requires start < end <= |lines| && Starts(Key(oldStr), lines, start, end - start)
    ensures CouldStart(oldStr, lines[start]) && InLines(oldStr, lines, start, end)
    ensures start < b < end ==> !InLines(oldStr, lines, start, b)
  {
    CanStartIff(oldStr, lines[start]);
    HoldsIff(oldStr, lines, start, end);
    LeastIsLeast(Key(oldStr), lines, start, 1, if b > start then b - start else 0);
    if start < b < end {
      HoldsIff(oldStr, lines, start, b);
    }
  }

  /** Each report is a least window of less than fifty lines, with their numbers and their text. */
  lemma WindowReported(oldStr: string, content: string, k: nat, b: nat) returns (start: nat, end: nat)
    requires k < |WindowMatches(Key(oldStr), Lines(content), 0)|
    ensures start < end <= |Lines(content)| && end - start < 50
    ensures WindowMatches(Key(oldStr), Lines(content), 0)[k]
         == Match(start + 1, end, Join(Lines(content)[start..end]), LineBreaksDiffer)
    ensures CouldStart(oldStr, Lines(content)[start]) && InLines(oldStr, Lines(content), start, end)
    ensures start < b < end ==> !InLines(oldStr, Lines(content), start, b)
  {
    var (oldKey, lines) := (Key(oldStr), Lines(content));
    start, end := WindowOf(oldKey, lines, k);
    ScanStarts(oldKey, lines, k);
    LeastHolds(oldStr, lines, start, end, b);
  }

  lemma ScanStarts(oldKey: string, lines: seq<string>, k: nat)
    requires k < |Scan(oldKey, lines, 0)|
    ensures var w := Scan(oldKey, lines, 0)[k]; w.0 < |lines| && Starts(oldKey, lines, w.0, w.1)
  {
    ScanIsChosen(oldKey, lines, 0);
    var w := Scan(oldKey, lines, 0)[k];
    assert w.0 in FoundAt(oldKey, lines);
    FoundIff(oldKey, lines, w.0);
  }

  /** The reports come in order and do not overlap. */
  lemma WindowsInOrder(oldStr: string, content: string, k: nat, l: nat)
    requires k < l < |WindowMatches(Key(oldStr), Lines(content), 0)|
    ensures
      var ms := WindowMatches(Key(oldStr), Lines(content), 0);
      ms[k].endLine < ms[l].startLine
  {
    var (oldKey, lines) := (Key(oldStr), Lines(content));
    MatchesOfScan(oldKey, lines, 0);
    ScanIsChosen(oldKey, lines, 0);
    var windows := Scan(oldKey, lines, 0);
    assert IsMatchOf(lines, windows[k], WindowMatches(oldKey, lines, 0)[k]);
    assert IsMatchOf(lines, windows[l], WindowMatches(oldKey, lines, 0)[l]);
  }

  lemma {:induction false} LeastFound(oldKey: string, lines: seq<string>, start: nat, size: nat, found: nat)
    requires start < |lines| && 1 <= size <= found < SizeLimit(lines, start) && Holds(oldKey, lines, start, found)
    ensures LeastSize(oldKey, lines, start, size) <= found
    decreases found - size
  {
    if !Holds(oldKey, lines, start, size) {
      LeastFound(oldKey, lines, start, size + 1, found);
    }
  }

  /** A window of less than fifty lines that holds the pattern and could start it is in, or starts in, a report. */
  lemma NoWindowMissed(oldStr: string, content: string, a: nat, b: nat) returns (k: nat)
    requires a < b <= |Lines(content)| && b - a < 50
    requires CouldStart(oldStr, Lines(content)[a]) && InLines(oldStr, Lines(content), a, b)
    ensures
      var ms := WindowMatches(Key(oldStr), Lines(content), 0);
      k < |ms| && ms[k].startLine <= a + 1 <= ms[k].endLine
  {
    StartFound(oldStr, Lines(content), a, b);
    k := CoveringWindow(Key(oldStr), Lines(content), a);
    var start, end := WindowOf(Key(oldStr), Lines(content), k);
  }

  lemma StartFound(oldStr: string, lines: seq<string>, a: nat, b: nat)
    requires a < b <= |lines| && b - a < 50 && CouldStart(oldStr, lines[a]) && InLines(oldStr, lines, a, b)
    ensures CanStart(Key(oldStr), lines[a]) && LeastSize(Key(oldStr), lines, a, 1) < SizeLimit(lines, a)
  {
    HoldsIff(oldStr, lines, a, b);
    CanStartIff(oldStr, lines[a]);
    LeastFound(Key(oldStr), lines, a, 1, b - a);
  }

  lemma CoveringWindow(oldKey: string, lines: seq<string>, a: nat) returns (k: nat)
    requires a < |lines| && CanStart(oldKey, lines[a]) && LeastSize(oldKey, lines, a, 1) < SizeLimit(lines, a)
    ensures k < |Scan(oldKey, lines, 0)|
    ensures var w := Scan(oldKey, lines, 0)[k]; w.0 <= a < w.0 + w.1
  {
    ScanIsChosen(oldKey, lines, 0);
    assert a in FoundAt(oldKey, lines);
    assert CoveredBy(Scan(oldKey, lines, 0), a);
    var l :| 0 <= l < |Scan(oldKey, lines, 0)| &&
      Scan(oldKey, lines, 0)[l].0 <= a < Scan(oldKey, lines, 0)[l].0 + Scan(oldKey, lines, 0)[l].1;
    k := l;
  }

  /** Before line `upTo`, the lines equal to the pattern after trimming, each once and in order. */
  ghost predicate AllTrimmed(ms: seq<Match>, oldStr: string, lines: seq<string>, upTo: nat)
    requires upTo <= |lines|
  {
    && (forall k :: 0 <= k < |ms| ==> IsTrimmed(ms[k], oldStr, lines, upTo))
    && (forall k, l :: 0 <= k < l < |ms| ==> ms[k].startLine < ms[l].startLine)
    && forall m :: IsTrimmed(m, oldStr, lines, upTo) ==> m in ms
  }

  predicate IsTrimmed(m: Match, oldStr: string, lines: seq<string>, upTo: nat)
    requires upTo <= |lines|
  {
    && 1 <= m.startLine <= upTo && m == Match(m.startLine, m.startLine, lines[m.startLine - 1], IndentationDiffers)
    && Strip(lines[m.startLine - 1]) == IndentMatch.NormalizeIndentation(oldStr)
  }

  lemma TrimmedMore(ms: seq<Match>, oldStr: string, lines: seq<string>, upTo: nat)
    requires upTo < |lines| && AllTrimmed(ms, oldStr, lines, upTo) && '\n' !in lines[upTo]
    ensures AllTrimmed(ms + TrimmedMatch(oldStr, lines[upTo], upTo + 1), oldStr, lines, upTo + 1)
  {
    var last := TrimmedMatch(oldStr, lines[upTo], upTo + 1);
    var all := ms + last;
    NormalizedLine(lines[upTo]);
    forall m ensures m in last <==> IsTrimmed(m, oldStr, lines, upTo + 1) && m.startLine == upTo + 1 {
    }
    forall k | 0 <= k < |all| ensures IsTrimmed(all[k], oldStr, lines, upTo + 1) {
      if k < |ms| {
        assert IsTrimmed(ms[k], oldStr, lines, upTo);
      } else {
        assert all[k] in last;
      }
    }
    forall k, l | 0 <= k < l < |all| ensures all[k].startLine < all[l].startLine {
      assert IsTrimmed(ms[k], oldStr, lines, upTo);
      if l >= |ms| {
        assert all[l] in last;
      }
    }
    forall m | IsTrimmed(m, oldStr, lines, upTo + 1) ensures m in all {
      if m.startLine <= upTo {
        assert IsTrimmed(m, oldStr, lines, upTo);
      }
    }
  }

  lemma NormalizedLine(line: string)
    requires '\n' !in line
    ensures IndentMatch.NormalizeIndentation(line) == Strip(line)
  {
    if line == "" {
      assert Lines("") == [] && IndentMatch.Stripped([]) == [] && Strip("") == "";
    } else {
      IndentMatch.LinesOfOne(line);
      assert IndentMatch.Stripped([line]) == [Strip(line)];
    }
  }

  lemma {:induction false} TrimmedAre(oldStr: string, lines: seq<string>, upTo: nat)
    requires upTo <= |lines| && BreakFree(lines)
    ensures AllTrimmed(TrimmedMatches(oldStr, lines, upTo), oldStr, lines, upTo)
    decreases upTo
  {
    if upTo > 0 {
      TrimmedAre(oldStr, lines, upTo - 1);
      TrimmedMore(TrimmedMatches(oldStr, lines, upTo - 1), oldStr, lines, upTo - 1);
    }
  }
}
