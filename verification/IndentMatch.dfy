/**
 Matching a block of lines modulo indentation (`find_match_when_ignoring_indentation`) and shifting a
 text by a uniform indentation difference (`StringReplace.execute`).
 */
module IndentMatch {
  import opened Prelude
  import opened Text
  import opened Search

  // ---------- joining and splitting ----------

  function Stripped(lines: seq<string>): (r: seq<string>)
    ensures |r| == |lines|
  {
    seq(|lines|, k requires 0 <= k < |lines| => Strip(lines[k]))
  }

  function NormalizeIndentation(s: string): string {
    Join(Stripped(Lines(s)))
  }

  lemma {:induction false} LStripFree(s: string)
    requires '\n' !in s
    ensures '\n' !in LStrip(s)
  {
    if s != "" && IsSpace(s[0]) {
      LStripFree(s[1..]);
    }
  }

  lemma {:induction false} RStripFree(s: string)
    requires '\n' !in s
    ensures '\n' !in RStrip(s)
  {
    if s != "" && IsSpace(s[|s| - 1]) {
      RStripFree(s[..|s| - 1]);
    }
  }

  lemma StrippedFree(lines: seq<string>)
    requires BreakFree(lines)
    ensures BreakFree(Stripped(lines))
  {
    forall k | 0 <= k < |lines| ensures '\n' !in Stripped(lines)[k] {
      LStripFree(lines[k]);
      RStripFree(LStrip(lines[k]));
    }
  }

  /** Splitting undoes joining. */
  lemma {:induction false} SplitJoin(lines: seq<string>)
    requires lines != [] && BreakFree(lines)
    ensures Split(Join(lines)) == lines
  {
    if |lines| == 1 {
      LineLengthFree(lines[0], "");
      assert lines[0] + "" == lines[0];
    } else {
      var (head, rest) := (lines[0], Join(lines[1..]));
      SplitJoin(lines[1..]);
      LineLengthFree(head, "\n" + rest);
      var s := head + ("\n" + rest);
      assert Join(lines) == s;
      assert s[..|head|] == head && s[|head| + 1..] == rest;
    }
  }

  lemma {:induction false} FirstLineOnly(a: string)
    requires a != "" && '\n' !in a
    ensures FirstLine(a) == |a|
  {
    if |a| > 1 {
      FirstLineOnly(a[1..]);
    }
  }

  lemma LinesOfOne(a: string)
    requires '\n' !in a
    ensures Lines(a) == if a == "" then [] else [a]
  {
    if a != "" {
      FirstLineOnly(a);
      assert a[..|a|] == a && a[|a|..] == "";
      assert SplitKeep(a) == [a] && Body(a) == a;
    }
  }

  /** What is left of lines that are joined and split again. */
  function Kept(lines: seq<string>): seq<string> {
    if lines != [] && lines[|lines| - 1] == "" then lines[..|lines| - 1] else lines
  }

  lemma KeptCons(head: string, rest: seq<string>)
    requires rest != []
    ensures Kept([head] + rest) == [head] + Kept(rest)
  {
    assert ([head] + rest)[|rest|] == rest[|rest| - 1];
    assert ([head] + rest)[..|rest|] == [head] + rest[..|rest| - 1];
  }

  /** `splitlines` undoes joining, except that an empty last line is lost. */
  lemma {:induction false} LinesOfJoin(lines: seq<string>)
    requires BreakFree(lines)
    ensures Lines(Join(lines)) == Kept(lines)
  {
    if |lines| == 1 {
      LinesOfOne(lines[0]);
    } else if |lines| > 1 {
      var (head, rest) := (lines[0], lines[1..]);
      LinesOfJoin(rest);
      LinesCons(head, Join(rest));
      KeptCons(head, rest);
      assert lines == [head] + rest;
    }
  }

  // ---------- which windows match ----------

  predicate SameStripped(a: seq<string>, b: seq<string>) {
    |a| == |b| && forall k :: 0 <= k < |a| ==> Strip(a[k]) == Strip(b[k])
  }

  lemma JoinInjective(a: seq<string>, b: seq<string>)
    requires a != [] && b != [] && BreakFree(a) && BreakFree(b)
    ensures Join(a) == Join(b) <==> a == b
  {
    SplitJoin(a);
    SplitJoin(b);
  }

  lemma SameStrippedIff(a: seq<string>, b: seq<string>)
    requires a != [] && b != [] && BreakFree(a) && BreakFree(b)
    ensures SameStripped(a, b) <==> Join(Stripped(a)) == Join(Stripped(b))
  {
    StrippedFree(a);
    StrippedFree(b);
    JoinInjective(Stripped(a), Stripped(b));
    if Stripped(a) == Stripped(b) {
      forall k | 0 <= k < |a| ensures Strip(a[k]) == Strip(b[k]) {
        assert Stripped(a)[k] == Stripped(b)[k];
      }
    }
  }

  lemma NormalizedJoin(window: seq<string>)
    requires BreakFree(window)
    ensures NormalizeIndentation(Join(window)) == Join(Stripped(Kept(window))) && BreakFree(Kept(window))
  {
    LinesOfJoin(window);
  }

  /**
   A window is reported exactly if it equals the pattern line by line after trimming, and does not end
   in an empty line, unless it is a single line: joining and splitting again loses an empty last line.
   */
  lemma WindowMatchIff(oldStr: string, window: seq<string>)
    requires BreakFree(window) && |window| == |Lines(oldStr)|
    ensures NormalizeIndentation(Join(window)) == NormalizeIndentation(oldStr)
       <==> SameStripped(window, Lines(oldStr)) && (|window| < 2 || window[|window| - 1] != "")
  {
    var (n, oldLines) := (|window|, Lines(oldStr));
    NormalizedJoin(window);
    LinesBreakFree(oldStr);
    if n == 0 {
      assert Stripped(window) == Stripped(oldLines) == [];
    } else if n == 1 && window[0] == "" {
      EmptyWindow(oldLines);
    } else {
      SameStrippedIff(Kept(window), oldLines);
    }
  }

  lemma EmptyWindow(oldLines: seq<string>)
    requires |oldLines| == 1
    ensures Join(Stripped([])) == Join(Stripped(oldLines)) <==> SameStripped([""], oldLines)
  {
    assert Strip("") == "" && Stripped([]) == [] && Stripped(oldLines) == [Strip(oldLines[0])];
  }

  // ---------- the search ----------

  function Indent(line: string): nat {
    LStripShape(line);
    |line| - |LStrip(line)|
  }

  datatype IndentDiff = IndentDiff(lineNo: nat, expected: nat, found: nat)

  /** `uniformDiff` is present when the match can be auto-corrected. */
  datatype Match = Match(startLine: nat, endLine: nat, content: string, differences: seq<IndentDiff>,
          uniformDiff: Option<int>)

  function Diff(oldLines: seq<string>, window: seq<string>, k: nat): int
    requires k < |oldLines| == |window|
  {
    Indent(window[k]) as int - Indent(oldLines[k]) as int
  }

  function Differences(oldLines: seq<string>, window: seq<string>, count: nat): seq<IndentDiff>
    requires count <= |oldLines| == |window|
  {
    if count == 0 then [] else
      var k := count - 1;
      Differences(oldLines, window, k) +
      if Diff(oldLines, window, k) != 0 then [IndentDiff(count, Indent(oldLines[k]), Indent(window[k]))] else []
  }

  /** The one indentation difference that all lines have. */
  function Uniform(oldLines: seq<string>, window: seq<string>): Option<int>
    requires |oldLines| == |window|
  {
    if oldLines != [] && forall k :: 0 <= k < |oldLines| ==> Diff(oldLines, window, k) == Diff(oldLines, window, 0)
    then Some(Diff(oldLines, window, 0)) else None
  }

  function MatchAt(oldLines: seq<string>, window: seq<string>, i: nat): Match
    requires |oldLines| == |window|
  {
    Match(i + 1, i + |oldLines|, Join(window), Differences(oldLines, window, |oldLines|), Uniform(oldLines, window))
  }

  predicate Found(oldStr: string, window: seq<string>) {
    NormalizeIndentation(Join(window)) == NormalizeIndentation(oldStr)
  }

  /** All runs of `w` lines. */
  function Windows(contentLines: seq<string>, w: nat): (r: seq<seq<string>>)
    ensures |r| == if w > |contentLines| then 0 else |contentLines| + 1 - w
    ensures forall i :: 0 <= i < |r| ==> r[i] == contentLines[i..i + w]
  {
    if w > |contentLines| then []
    else seq(|contentLines| + 1 - w, i requires 0 <= i < |contentLines| + 1 - w => contentLines[i..i + w])
  }

  ghost predicate AllOfSize(windows: seq<seq<string>>, w: nat) {
    forall i :: 0 <= i < |windows| ==> |windows[i]| == w
  }

  function ReportOf(oldStr: string, window: seq<string>, i: nat): seq<Match>
    requires |window| == |Lines(oldStr)|
  {
    if Found(oldStr, window) then [MatchAt(Lines(oldStr), window, i)] else []
  }

  /** The matches among the windows before number `upTo`. */
  function Reported(oldStr: string, windows: seq<seq<string>>, upTo: nat): seq<Match>
    requires upTo <= |windows| && AllOfSize(windows, |Lines(oldStr)|)
  {
    if upTo == 0 then []
    else Reported(oldStr, windows, upTo - 1) + ReportOf(oldStr, windows[upTo - 1], upTo - 1)
  }

  /** All matches in a file. */
  function IndentMatches(oldStr: string, content: string): seq<Match> {
    var windows := Windows(Lines(content), |Lines(oldStr)|);
    Reported(oldStr, windows, |windows|)
  }

  lemma SingleDiff(oldLines: seq<string>, window: seq<string>, diffs: set<int>, d: int)
    requires |oldLines| == |window|
    requires diffs == set k | 0 <= k < |oldLines| :: Diff(oldLines, window, k)
    ensures |diffs| == 1 && d in diffs <==> Uniform(oldLines, window) == Some(d)
  {
    if |diffs| == 1 && d in diffs {
      assert |diffs - {d}| == 0;
      assert forall k :: 0 <= k < |oldLines| ==> Diff(oldLines, window, k) in diffs;
    }
    if Uniform(oldLines, window) == Some(d) {
      assert Diff(oldLines, window, 0) in diffs;
      assert diffs == {d};
    }
  }

  method CompareIndentation(oldLines: seq<string>, window: seq<string>)
    returns (differences: seq<IndentDiff>, uniformDiff: Option<int>)
    requires |oldLines| == |window|
    ensures differences == Differences(oldLines, window, |oldLines|)
    ensures uniformDiff == Uniform(oldLines, window)
  {
    differences := [];
    var indentationDiffs: set<int> := {};
    for i := 0 to |oldLines|
      invariant differences == Differences(oldLines, window, i)
      invariant indentationDiffs == set k | 0 <= k < i :: Diff(oldLines, window, k)
    {
      var oldIndent: int, windowIndent: int := Indent(oldLines[i]), Indent(window[i]);
      indentationDiffs := indentationDiffs + {windowIndent - oldIndent};
      if oldIndent != windowIndent {
        differences := differences + [IndentDiff(i + 1, oldIndent, windowIndent)];
      }
    }
    if |indentationDiffs| == 1 {
      var d :| d in indentationDiffs;
      SingleDiff(oldLines, window, indentationDiffs, d);
      uniformDiff := Some(d);
    } else {
      if Uniform(oldLines, window).Some? {
        SingleDiff(oldLines, window, indentationDiffs, Uniform(oldLines, window).value);
      }
      uniformDiff := None;
    }
  }

  method CheckWindow(oldStr: string, oldLines: seq<string>, oldNoIndent: string, lines: seq<string>, startIdx: nat)
    returns (found: seq<Match>)
    requires oldLines == Lines(oldStr) && oldNoIndent == NormalizeIndentation(oldStr) && |lines| == |oldLines|
    ensures found == ReportOf(oldStr, lines, startIdx)
  {
    var window := Join(lines);
    if NormalizeIndentation(window) != oldNoIndent {
      return [];
    }
    var differences, uniformDiff := CompareIndentation(oldLines, lines);
    found := [Match(startIdx + 1, startIdx + |oldLines|, window, differences, uniformDiff)];
    assert found[0] == MatchAt(oldLines, lines, startIdx);
  }

  method FindMatchIgnoringIndentation(oldStr: string, content: string) returns (matches: seq<Match>)
    ensures matches == IndentMatches(oldStr, content)
  {
    var oldLines, contentLines := Lines(oldStr), Lines(content);
    var oldNoIndent := NormalizeIndentation(oldStr);
    var windowSize := |oldLines|;
    ghost var windows := Windows(contentLines, windowSize);
    matches := [];
    var startIdx := 0;
    while startIdx < |contentLines| - windowSize + 1
      invariant startIdx <= |windows|
      invariant matches == Reported(oldStr, windows, startIdx)
    {
      var lines := contentLines[startIdx..startIdx + windowSize];
      assert lines == windows[startIdx];
      var found := CheckWindow(oldStr, oldLines, oldNoIndent, lines, startIdx);
      matches := matches + found;
      startIdx := startIdx + 1;
    }
    assert startIdx == |windows|;
  }

  lemma InEither(m: Match, a: seq<Match>, b: seq<Match>)
    ensures m in a + b <==> m in a || m in b
  {
  }

  lemma {:induction false} ReportedAt(oldStr: string, windows: seq<seq<string>>, upTo: nat, i: nat)
    requires i < upTo <= |windows| && AllOfSize(windows, |Lines(oldStr)|)
    ensures MatchAt(Lines(oldStr), windows[i], i) in Reported(oldStr, windows, upTo) <==> Found(oldStr, windows[i])
  {
    var (m, last) := (MatchAt(Lines(oldStr), windows[i], i), ReportOf(oldStr, windows[upTo - 1], upTo - 1));
    InEither(m, Reported(oldStr, windows, upTo - 1), last);
    OneReport(oldStr, windows[upTo - 1], upTo - 1, m);
    if i < upTo - 1 {
      ReportedAt(oldStr, windows, upTo - 1, i);
    } else {
      ReportedEarlier(oldStr, windows, upTo - 1);
    }
  }

  lemma OneReport(oldStr: string, window: seq<string>, i: nat, m: Match)
    requires |window| == |Lines(oldStr)|
    ensures m in ReportOf(oldStr, window, i) <==> Found(oldStr, window) && m == MatchAt(Lines(oldStr), window, i)
  {
  }

  lemma {:induction false} ReportedEarlier(oldStr: string, windows: seq<seq<string>>, upTo: nat)
    requires upTo <= |windows| && AllOfSize(windows, |Lines(oldStr)|)
    ensures forall m <- Reported(oldStr, windows, upTo) :: m.startLine <= upTo
  {
    if upTo > 0 {
      ReportedEarlier(oldStr, windows, upTo - 1);
    }
  }

  /** Exactly the windows equal line by line after trimming are reported. */
  lemma IndentMatchesIff(oldStr: string, content: string, i: nat)
    requires i < |Windows(Lines(content), |Lines(oldStr)|)|
    ensures
      var windows := Windows(Lines(content), |Lines(oldStr)|);
      MatchAt(Lines(oldStr), windows[i], i) in IndentMatches(oldStr, content)
      <==> SameStripped(windows[i], Lines(oldStr)) && (|windows[i]| < 2 || windows[i][|windows[i]| - 1] != "")
  {
    var windows := Windows(Lines(content), |Lines(oldStr)|);
    WindowBreakFree(content, |Lines(oldStr)|, i);
    WindowMatchIff(oldStr, windows[i]);
    ReportedAt(oldStr, windows, |windows|, i);
  }

  lemma WindowBreakFree(content: string, w: nat, i: nat)
    requires i < |Windows(Lines(content), w)|
    ensures BreakFree(Windows(Lines(content), w)[i])
  {
    LinesBreakFree(content);
  }

  // ---------- what is reported ----------

  /** The indentation is the number of blanks at the front. */
  lemma IndentIs(line: string, n: nat)
    requires n <= |line| && (forall k :: 0 <= k < n ==> IsSpace(line[k])) && (n < |line| ==> !IsSpace(line[n]))
    ensures Indent(line) == n
  {
    LStripPad(line[..n], line[n..]);
    assert line == line[..n] + line[n..];
    assert LStrip(line[n..]) == line[n..];
  }

  /** The difference is one of the first `count` lines, and gives both widths. */
  predicate Differs(d: IndentDiff, oldLines: seq<string>, window: seq<string>, count: nat)
    requires count <= |oldLines| == |window|
  {
    && 1 <= d.lineNo <= count
    && d.expected == Indent(oldLines[d.lineNo - 1]) && d.found == Indent(window[d.lineNo - 1])
    && d.expected != d.found
  }

  ghost predicate AllDiffer(ds: seq<IndentDiff>, oldLines: seq<string>, window: seq<string>, count: nat)
    requires count <= |oldLines| == |window|
  {
    && (forall k :: 0 <= k < |ds| ==> Differs(ds[k], oldLines, window, count))
    && (forall k, l :: 0 <= k < l < |ds| ==> ds[k].lineNo < ds[l].lineNo)
    && forall d :: Differs(d, oldLines, window, count) ==> d in ds
  }

  lemma DiffersMore(d: IndentDiff, oldLines: seq<string>, window: seq<string>, count: nat)
    requires count < |oldLines| == |window|
    ensures Differs(d, oldLines, window, count + 1)
        <==> Differs(d, oldLines, window, count) || DiffersAt(d, oldLines, window, count)
  {
  }

  predicate DiffersAt(d: IndentDiff, oldLines: seq<string>, window: seq<string>, k: nat)
    requires k < |oldLines| == |window|
  {
    d == IndentDiff(k + 1, Indent(oldLines[k]), Indent(window[k])) && d.expected != d.found
  }

  lemma OneMore(ds: seq<IndentDiff>, last: seq<IndentDiff>, oldLines: seq<string>, window: seq<string>, count: nat)
    requires count < |oldLines| == |window| && AllDiffer(ds, oldLines, window, count) && |last| <= 1
    requires forall d :: d in last <==> DiffersAt(d, oldLines, window, count)
    ensures AllDiffer(ds + last, oldLines, window, count + 1)
  {
    var all := ds + last;
    forall k | 0 <= k < |all| ensures Differs(all[k], oldLines, window, count + 1) {
      DiffersMore(all[k], oldLines, window, count);
      if k >= |ds| {
        assert all[k] == last[k - |ds|] && all[k] in last;
      }
    }
    forall k, l | 0 <= k < l < |all| ensures all[k].lineNo < all[l].lineNo {
      assert Differs(all[k], oldLines, window, count);
      if l >= |ds| {
        assert all[l] in last;
        assert DiffersAt(all[l], oldLines, window, count);
      }
    }
    forall d | Differs(d, oldLines, window, count + 1) ensures d in all {
      DiffersMore(d, oldLines, window, count);
    }
  }

  /** The differences are exactly those of the lines that are indented otherwise, each once and in order. */
  lemma {:induction false} DifferencesAre(oldLines: seq<string>, window: seq<string>, count: nat)
    requires count <= |oldLines| == |window|
    ensures AllDiffer(Differences(oldLines, window, count), oldLines, window, count)
    decreases count
  {
    if count > 0 {
      var k := count - 1;
      DifferencesAre(oldLines, window, k);
      var last := if Diff(oldLines, window, k) != 0 then [IndentDiff(count, Indent(oldLines[k]), Indent(window[k]))]
        else [];
      assert forall d :: d in last <==> DiffersAt(d, oldLines, window, k);
      OneMore(Differences(oldLines, window, k), last, oldLines, window, k);
    }
  }

  /** The match reports the lines of a window, their text, and the difference that all of them have, if there is one. */
  ghost predicate Reports(m: Match, oldLines: seq<string>, lines: seq<string>) {
    && 1 <= m.startLine && m.endLine == m.startLine - 1 + |oldLines| <= |lines|
    && var window := lines[m.startLine - 1..m.endLine];
    && m.content == Join(window) && AllDiffer(m.differences, oldLines, window, |oldLines|)
    && forall d :: m.uniformDiff == Some(d) <==> ShiftedBy(oldLines, window, d)
  }

  predicate ShiftedBy(oldLines: seq<string>, window: seq<string>, d: int)
    requires |oldLines| == |window|
  {
    oldLines != [] && forall j :: 0 <= j < |oldLines| ==> Indent(window[j]) - Indent(oldLines[j]) == d
  }

  lemma UniformIs(oldLines: seq<string>, window: seq<string>, d: int)
    requires |oldLines| == |window|
    ensures Uniform(oldLines, window) == Some(d) <==> ShiftedBy(oldLines, window, d)
  {
    if ShiftedBy(oldLines, window, d) {
      assert forall j :: 0 <= j < |oldLines| ==> Diff(oldLines, window, j) == d;
    }
    if Uniform(oldLines, window) == Some(d) {
      forall j | 0 <= j < |oldLines| ensures Indent(window[j]) - Indent(oldLines[j]) == d {
        assert Diff(oldLines, window, j) == Diff(oldLines, window, 0);
      }
    }
  }

  /** What a match is made of. */
  lemma MatchReports(oldLines: seq<string>, lines: seq<string>, i: nat)
    requires i + |oldLines| <= |lines|
    ensures Reports(MatchAt(oldLines, lines[i..i + |oldLines|], i), oldLines, lines)
  {
    var window := lines[i..i + |oldLines|];
    DifferencesAre(oldLines, window, |oldLines|);
    forall d ensures Uniform(oldLines, window) == Some(d) <==> ShiftedBy(oldLines, window, d) {
      UniformIs(oldLines, window, d);
    }
  }

  /** The match of a window before number `upTo`. */
  predicate ReportsOne(m: Match, oldStr: string, windows: seq<seq<string>>, upTo: nat)
    requires upTo <= |windows| && AllOfSize(windows, |Lines(oldStr)|)
  {
    1 <= m.startLine <= upTo && m == MatchAt(Lines(oldStr), windows[m.startLine - 1], m.startLine - 1)
  }

  ghost predicate InOrder(ms: seq<Match>, oldStr: string, windows: seq<seq<string>>, upTo: nat)
    requires upTo <= |windows| && AllOfSize(windows, |Lines(oldStr)|)
  {
    && (forall k :: 0 <= k < |ms| ==> ReportsOne(ms[k], oldStr, windows, upTo))
    && forall k, l :: 0 <= k < l < |ms| ==> ms[k].startLine < ms[l].startLine
  }

  lemma ReportsMore(m: Match, oldStr: string, windows: seq<seq<string>>, upTo: nat)
    requires upTo < |windows| && AllOfSize(windows, |Lines(oldStr)|)
    requires ReportsOne(m, oldStr, windows, upTo) || m in ReportOf(oldStr, windows[upTo], upTo)
    ensures ReportsOne(m, oldStr, windows, upTo + 1)
  {
    OneReport(oldStr, windows[upTo], upTo, m);
  }

  lemma OrderMore(ms: seq<Match>, last: seq<Match>, oldStr: string, windows: seq<seq<string>>, upTo: nat)
    requires upTo < |windows| && AllOfSize(windows, |Lines(oldStr)|)
    requires InOrder(ms, oldStr, windows, upTo) && last == ReportOf(oldStr, windows[upTo], upTo)
    ensures InOrder(ms + last, oldStr, windows, upTo + 1)
  {
    var all := ms + last;
    forall k | 0 <= k < |all| ensures ReportsOne(all[k], oldStr, windows, upTo + 1) {
      if k >= |ms| {
        assert all[k] == last[k - |ms|] && all[k] in last;
      }
      ReportsMore(all[k], oldStr, windows, upTo);
    }
    forall k, l | 0 <= k < l < |all| ensures all[k].startLine < all[l].startLine {
      assert ReportsOne(all[k], oldStr, windows, upTo);
      if l >= |ms| {
        OneReport(oldStr, windows[upTo], upTo, all[l]);
      }
    }
  }

  lemma {:induction false} ReportedInOrder(oldStr: string, windows: seq<seq<string>>, upTo: nat)
    requires upTo <= |windows| && AllOfSize(windows, |Lines(oldStr)|)
    ensures InOrder(Reported(oldStr, windows, upTo), oldStr, windows, upTo)
    decreases upTo
  {
    if upTo > 0 {
      var (before, last) := (Reported(oldStr, windows, upTo - 1), ReportOf(oldStr, windows[upTo - 1], upTo - 1));
      ReportedInOrder(oldStr, windows, upTo - 1);
      OrderMore(before, last, oldStr, windows, upTo - 1);
      assert Reported(oldStr, windows, upTo) == before + last;
    }
  }

  /** Every report is the match of a window. */
  lemma ReportIs(oldStr: string, content: string, k: nat) returns (i: nat)
    requires k < |IndentMatches(oldStr, content)|
    ensures i < |Windows(Lines(content), |Lines(oldStr)|)|
    ensures IndentMatches(oldStr, content)[k] ==
            MatchAt(Lines(oldStr), Windows(Lines(content), |Lines(oldStr)|)[i], i)
  {
    var windows := Windows(Lines(content), |Lines(oldStr)|);
    ReportedInOrder(oldStr, windows, |windows|);
    assert ReportsOne(IndentMatches(oldStr, content)[k], oldStr, windows, |windows|);
    i := IndentMatches(oldStr, content)[k].startLine - 1;
  }

  /** The reports come in order, so that no window is reported twice. */
  lemma ReportsInOrder(oldStr: string, content: string, k: nat, l: nat)
    requires k < l < |IndentMatches(oldStr, content)|
    ensures IndentMatches(oldStr, content)[k].startLine < IndentMatches(oldStr, content)[l].startLine
  {
    var windows := Windows(Lines(content), |Lines(oldStr)|);
    ReportedInOrder(oldStr, windows, |windows|);
  }

  ghost predicate StartReported(ms: seq<Match>, i: nat) {
    exists k :: 0 <= k < |ms| && ms[k].startLine == i + 1
  }

  lemma WhereReported(ms: seq<Match>, oldStr: string, windows: seq<seq<string>>, i: nat)
    requires i < |windows| && AllOfSize(windows, |Lines(oldStr)|) && InOrder(ms, oldStr, windows, |windows|)
    ensures StartReported(ms, i) <==> MatchAt(Lines(oldStr), windows[i], i) in ms
  {
    if k :| 0 <= k < |ms| && ms[k].startLine == i + 1 {
      assert ReportsOne(ms[k], oldStr, windows, |windows|);
    }
  }

  /** A line starts a reported window exactly if that is the pattern, line by line after trimming. */
  lemma ReportedIff(oldStr: string, content: string, i: nat)
    requires i < |Windows(Lines(content), |Lines(oldStr)|)|
    ensures
      var window := Windows(Lines(content), |Lines(oldStr)|)[i];
      StartReported(IndentMatches(oldStr, content), i)
      <==> SameStripped(window, Lines(oldStr)) && (|window| < 2 || window[|window| - 1] != "")
  {
    var windows := Windows(Lines(content), |Lines(oldStr)|);
    IndentMatchesIff(oldStr, content, i);
    ReportedInOrder(oldStr, windows, |windows|);
    WhereReported(IndentMatches(oldStr, content), oldStr, windows, i);
  }

  // ---------- the shift ----------

  /** What the shift makes of a line: blanks in front of it, or as many less as there are. */
  lemma ShiftIs(line: string, indentDiff: int)
    ensures indentDiff >= 0 ==>
              Shift(line, indentDiff)[..indentDiff] == Spaces(indentDiff)
                  && Shift(line, indentDiff)[indentDiff..] == line
    ensures indentDiff < 0 ==>
              && Shift(line, indentDiff) <= line[|line| - |Shift(line, indentDiff)|..]
              && Indent(line) - (|line| - |Shift(line, indentDiff)|)
                 == if Indent(line) + indentDiff < 0 then 0 else Indent(line) + indentDiff
  {
  }

  function Shift(line: string, indentDiff: int): string {
    if indentDiff < 0 then
      var spacesToRemove := if Indent(line) < -indentDiff then Indent(line) else -indentDiff;
      line[spacesToRemove..]
    else Spaces(indentDiff) + line
  }

  method AdjustLines(newStrLines: seq<string>, indentDiff: int) returns (adjustedLines: seq<string>)
    ensures |adjustedLines| == |newStrLines|
    ensures forall k :: 0 <= k < |newStrLines| ==> adjustedLines[k] == Shift(newStrLines[k], indentDiff)
  {
    adjustedLines := [];
    for k := 0 to |newStrLines|
      invariant |adjustedLines| == k
      invariant forall l :: 0 <= l < k ==> adjustedLines[l] == Shift(newStrLines[l], indentDiff)
    {
      adjustedLines := adjustedLines + [Shift(newStrLines[k], indentDiff)];
    }
  }

  /** What a line starts with. */
  function Lead(line: string): (r: string)
    ensures |r| == Indent(line)
  {
    line[..Indent(line)]
  }

  /** The indentation after the shift. */
  function ShiftedLead(lead: string, indentDiff: int): string {
    if indentDiff < 0 then lead[if |lead| < -indentDiff then |lead| else -indentDiff..] else Spaces(indentDiff) + lead
  }

  predicate AllBlank(s: string) {
    forall k :: 0 <= k < |s| ==> IsSpace(s[k])
  }

  lemma {:induction false} LeadBlank(line: string)
    ensures AllBlank(Lead(line)) && line == Lead(line) + LStrip(line)
  {
    LStripShape(line);
    if line != "" && IsSpace(line[0]) {
      LeadBlank(line[1..]);
      assert Lead(line) == [line[0]] + Lead(line[1..]);
    } else {
      assert Lead(line) == "";
    }
  }

  lemma ShiftParts(line: string, indentDiff: int)
    ensures Shift(line, indentDiff) == ShiftedLead(Lead(line), indentDiff) + LStrip(line)
    ensures AllBlank(ShiftedLead(Lead(line), indentDiff))
  {
    LeadBlank(line);
    if indentDiff < 0 {
      FromLead(line, Lead(line), LStrip(line), if |Lead(line)| < -indentDiff then |Lead(line)| else -indentDiff);
    } else {
      Regroup(Spaces(indentDiff), Lead(line), LStrip(line));
    }
  }

  lemma FromLead(line: string, lead: string, rest: string, k: nat)
    requires line == lead + rest && k <= |lead|
    ensures line[k..] == lead[k..] + rest
  {
  }

  lemma {:induction false} RStripBehind(lead: string, text: string)
    requires AllBlank(lead)
    ensures RStrip(lead + text) == if RStrip(text) == "" then "" else lead + RStrip(text)
    decreases |text|, |lead|
  {
    var s := lead + text;
    if text != "" {
      if IsSpace(text[|text| - 1]) {
        RStripBehind(lead, text[..|text| - 1]);
        assert s[..|s| - 1] == lead + text[..|text| - 1];
      }
    } else if lead != "" {
      RStripBehind(lead[..|lead| - 1], "");
      assert s[..|s| - 1] == lead[..|lead| - 1] + "";
    }
  }

  lemma SameLead(a: string, b: string, text: string)
    ensures a + text == b + text <==> a == b
  {
    if a + text == b + text {
      assert |a| == |b|;
      assert a == (a + text)[..|a|] && b == (b + text)[..|b|];
    }
  }

  /**
   Shifting a pattern line gives the line of the window, up to trailing blanks, exactly if both are blank or the
   shift makes the one indentation out of the other.
   */
  lemma ShiftGivesWindow(oldLine: string, windowLine: string, indentDiff: int)
    requires Strip(oldLine) == Strip(windowLine)
    ensures RStrip(Shift(oldLine, indentDiff)) == RStrip(windowLine)
            <==> Strip(oldLine) == "" || ShiftedLead(Lead(oldLine), indentDiff) == Lead(windowLine)
  {
    ShiftParts(oldLine, indentDiff);
    LeadBlank(windowLine);
    RStripBehind(ShiftedLead(Lead(oldLine), indentDiff), LStrip(oldLine));
    RStripBehind(Lead(windowLine), LStrip(windowLine));
    SameLead(ShiftedLead(Lead(oldLine), indentDiff), Lead(windowLine), Strip(oldLine));
  }

  /**
   So it does where the lines are indented by spaces, as `expandtabs` leaves most of them, and by the reported
   difference.
   */
  lemma SpacesShift(a: string, b: string)
    requires (forall k :: 0 <= k < |a| ==> a[k] == ' ') && forall k :: 0 <= k < |b| ==> b[k] == ' '
    ensures ShiftedLead(a, |b| - |a|) == b
  {
  }

  /** A window indented by a form feed is reported and can be corrected, and the shift puts a blank in its place. */
  lemma FormFeedLost()
    ensures Strip("x") == Strip("\U{0C}x") && Indent("\U{0C}x") == 1 && Indent("x") == 0
    ensures RStrip(Shift("x", 1)) != RStrip("\U{0C}x")
  {
    var line := "\U{0C}x";
    assert line[1..] == "x" && LStrip("x") == "x" && LStrip(line) == "x" && Strip("x") == "x";
    ShiftGivesWindow("x", line, 1);
    assert ShiftedLead(Lead("x"), 1) == Spaces(1) + "" && Lead(line) == "\U{0C}";
    assert (Spaces(1) + "")[0] == ' ';
  }

  /** Whenever a match can be auto-corrected: exactly when the shift by its difference gives a line of the window. */
  lemma AutoCorrection(oldStr: string, window: seq<string>, i: nat, d: int, k: nat)
    requires BreakFree(window) && k < |window| == |Lines(oldStr)|
    requires Found(oldStr, window) && MatchAt(Lines(oldStr), window, i).uniformDiff == Some(d)
    ensures |Lead(window[k])| - |Lead(Lines(oldStr)[k])| == d
    ensures RStrip(Shift(Lines(oldStr)[k], d)) == RStrip(window[k])
            <==> Strip(window[k]) == "" || ShiftedLead(Lead(Lines(oldStr)[k]), d) == Lead(window[k])
  {
    WindowMatchIff(oldStr, window);
    assert Diff(Lines(oldStr), window, k) == d;
    ShiftGivesWindow(Lines(oldStr)[k], window[k], d);
  }

  lemma LostLines()
    ensures Lines("a\n  ") == ["a", "  "] && Lines("a\n\n") == ["a", ""]
  {
    LinesCons("a", "  ");
    LinesOfOne("  ");
    assert "a" + "\n" + "  " == "a\n  " && ["a"] + ["  "] == ["a", "  "];
    LinesCons("a", "\n");
    LinesCons("", "");
    assert "" + "\n" + "" == "\n" && "a" + "\n" + "\n" == "a\n\n";
    assert Lines("") == [] && [""] + [] == [""] && ["a"] + [""] == ["a", ""];
  }

  lemma BlankLines()
    ensures Strip("  ") == Strip("")
  {
    assert "  "[1..] == " " && " "[1..] == "";
    assert LStrip(" ") == "" && LStrip("  ") == "";
  }

  lemma OneWindow(lines: seq<string>)
    ensures Windows(lines, |lines|) == [lines]
  {
    assert lines[0..|lines|] == lines && |Windows(lines, |lines|)| == 1;
  }

  /** A window that equals the pattern after trimming and ends in an empty line is not found. */
  lemma WindowLost()
    ensures
      var (oldStr, window) := ("a\n  ", ["a", ""]);
      && Windows(Lines("a\n\n"), |Lines(oldStr)|) == [window]
      && SameStripped(window, Lines(oldStr)) && !Found(oldStr, window)
  {
    LostLines();
    BlankLines();
    OneWindow(["a", ""]);
    WindowMatchIff("a\n  ", ["a", ""]);
  }
}
