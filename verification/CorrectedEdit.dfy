/**
 The edit behind an automatic correction of the indentation: the text of the window found takes the place of the
 string that was sought, and then every occurrence of that text is replaced.
 */
module CorrectedEdit {
  import opened Prelude
  import opened Text
  import opened Search
  import opened MatchMeaning
  import opened Replacement
  import IndentMatch

  // ---------- where the window is ----------

  /** The offset of line `i`. */
  function OffsetOf(s: string, i: nat): nat
    requires i <= |SplitKeep(s)|
  {
    |Concat(SplitKeep(s)[..i])|
  }

  lemma FirstOf(s: string) returns (line: string, rest: string)
    requires s != ""
    ensures s == line + rest && |rest| < |s| && SplitKeep(s) == [line] + SplitKeep(rest)
    ensures Lines(s) == [Body(line)] + Lines(rest) && (rest != "" ==> line == Body(line) + "\n")
  {
    var n := FirstLine(s);
    line, rest := s[..n], s[n..];
    FirstSplit(s);
    BodiesCons(line, SplitKeep(rest));
    FirstClosed(s);
    Halves(s, n);
  }

  lemma Halves(s: string, n: nat)
    requires n <= |s|
    ensures s == s[..n] + s[n..]
  {
  }

  lemma FirstSplit(s: string)
    requires s != ""
    ensures SplitKeep(s) == [s[..FirstLine(s)]] + SplitKeep(s[FirstLine(s)..])
  {
  }

  lemma FirstClosed(s: string)
    requires s != ""
    ensures FirstLine(s) < |s| ==> s[..FirstLine(s)] == Body(s[..FirstLine(s)]) + "\n"
  {
    var line := s[..FirstLine(s)];
    if FirstLine(s) < |s| {
      assert line[|line| - 1] == '\n';
    }
  }

  lemma FrontPart(s: string, a: string, b: string)
    requires b <= s
    ensures a + b <= a + s
  {
  }

  lemma JoinedFront(line: string, rest: string, lines: seq<string>, w: nat)
    requires 0 < w <= |lines| + 1
    requires w > 1 ==> line == Body(line) + "\n" && Join(lines[..w - 1]) <= rest
    ensures Join(([Body(line)] + lines)[..w]) <= line + rest
  {
    var window := ([Body(line)] + lines)[..w];
    if w == 1 {
      assert window == [Body(line)];
    } else {
      assert window[1..] == lines[..w - 1] && window[0] == Body(line);
      FrontPart(rest, line, Join(lines[..w - 1]));
    }
  }

  /** The first lines of a text, joined, are at its front. */
  lemma {:induction false} FrontJoined(s: string, w: nat)
    requires 0 < w <= |Lines(s)|
    ensures Join(Lines(s)[..w]) <= s
    decreases |s|
  {
    var line, rest := FirstOf(s);
    if w > 1 {
      FrontJoined(rest, w - 1);
    }
    JoinedFront(line, rest, Lines(rest), w);
  }

  lemma OccursLater(a: string, b: string, pat: string, i: nat)
    requires OccursAt(b, pat, i)
    ensures OccursAt(a + b, pat, |a| + i)
  {
    assert (a + b)[|a| + i..|a| + i + |pat|] == b[i..i + |pat|];
  }

  lemma BehindFirst<T>(first: T, rest: seq<T>, i: nat, w: nat)
    requires 0 < i && i - 1 + w <= |rest|
    ensures ([first] + rest)[i..i + w] == rest[i - 1..i - 1 + w]
  {
  }

  lemma OffsetBehind(line: string, rest: seq<string>, i: nat)
    requires 0 < i <= |rest| + 1
    ensures |Concat(([line] + rest)[..i])| == |line| + |Concat(rest[..i - 1])|
  {
    assert ([line] + rest)[..i] == [line] + rest[..i - 1];
    ConcatCons(line, rest[..i - 1]);
  }

  lemma WindowBehind(line: string, rest: string, parts: seq<string>, lines: seq<string>, i: nat, w: nat)
    requires 0 < i && i - 1 + w <= |lines| == |parts|
    requires OccursAt(rest, Join(lines[i - 1..i - 1 + w]), |Concat(parts[..i - 1])|)
    ensures OccursAt(line + rest, Join(([Body(line)] + lines)[i..i + w]), |Concat(([line] + parts)[..i])|)
  {
    BehindFirst(Body(line), lines, i, w);
    OffsetBehind(line, parts, i);
    OccursLater(line, rest, Join(lines[i - 1..i - 1 + w]), |Concat(parts[..i - 1])|);
  }

  lemma FrontOccurs(s: string, lines: seq<string>, parts: seq<string>, w: nat)
    requires w <= |lines| && Join(lines[..w]) <= s
    ensures OccursAt(s, Join(lines[0..0 + w]), |Concat(parts[..0])|)
  {
    assert parts[..0] == [] && lines[0..0 + w] == lines[..w];
    var window := Join(lines[..w]);
    assert s[0..|window|] == window;
  }

  /** Consecutive lines, joined, are in the text where the first of them starts. */
  lemma {:induction false} WindowOccurs(s: string, i: nat, w: nat)
    requires 0 < w && i + w <= |Lines(s)|
    ensures OccursAt(s, Join(Lines(s)[i..i + w]), OffsetOf(s, i))
    decreases i
  {
    if i == 0 {
      FrontJoined(s, w);
      FrontOccurs(s, Lines(s), SplitKeep(s), w);
    } else {
      var line, rest := FirstOf(s);
      WindowOccurs(rest, i - 1, w);
      WindowBehind(line, rest, SplitKeep(rest), Lines(rest), i, w);
    }
  }

  /** That is at the start of a line, with `i` line breaks before it. */
  lemma {:induction false} OffsetIs(s: string, i: nat)
    requires i < |SplitKeep(s)|
    ensures LineAt(s, OffsetOf(s, i), i)
    decreases i
  {
    if i == 0 {
      FirstLineAt(s, SplitKeep(s));
    } else {
      var line, rest := FirstOf(s);
      OffsetIs(rest, i - 1);
      SplitKeepLines(s);
      assert SplitKeep(s)[0] == line;
      LineBehind(line, rest, SplitKeep(rest), i);
    }
  }

  predicate LineAt(s: string, p: nat, i: nat) {
    p < |s| && AtLineStart(s, p) && Newlines(s[..p]) == i
  }

  lemma FirstLineAt(s: string, parts: seq<string>)
    requires s != ""
    ensures LineAt(s, |Concat(parts[..0])|, 0)
  {
    assert parts[..0] == [] && s[..0] == "";
  }

  lemma LineBehind(line: string, rest: string, parts: seq<string>, i: nat)
    requires 0 < i <= |parts| && line == Body(line) + "\n" && IsLine(line)
    requires LineAt(rest, |Concat(parts[..i - 1])|, i - 1)
    ensures LineAt(line + rest, |Concat(([line] + parts)[..i])|, i)
  {
    OffsetBehind(line, parts, i);
    LineBefore(line, rest, |Concat(parts[..i - 1])|, i - 1);
  }

  lemma LineBefore(line: string, rest: string, q: nat, i: nat)
    requires line == Body(line) + "\n" && IsLine(line) && LineAt(rest, q, i)
    ensures LineAt(line + rest, |line| + q, i + 1)
  {
    assert (line + rest)[..|line| + q] == line + rest[..q];
    NewlinesConcat(line, rest[..q]);
    OneBreak(line);
    assert (line + rest)[|line| + q - 1] == if q > 0 then rest[q - 1] else line[|line| - 1];
  }

  lemma OneBreak(line: string)
    requires line == Body(line) + "\n" && IsLine(line)
    ensures Newlines(line) == 1
  {
    NewlinesConcat(Body(line), "\n");
    assert forall k :: 0 <= k < |Body(line)| ==> Body(line)[k] == line[k];
    NoNewlines(Body(line));
  }

  // ---------- what is replaced ----------

  /** The text starts with `u`, and goes on with itself: every character is the one as far before it as `u` is long. */
  predicate Repeats(text: string, u: string) {
    if |text| < |u| then text <= u else u <= text && text[|u|..] == text[..|text| - |u|]
  }

  /** The new text, with what stays of the later occurrence behind it, repeats what comes before that occurrence. */
  predicate SameEdit(s: string, n: nat, q: nat, p: nat, text: string) {
    q <= p && p + n <= |s| && Repeats(text + s[q + n..p + n], s[q..p])
  }

  lemma RepeatsIff(text: string, u: string, v: string)
    requires |u| == |v|
    ensures Repeats(text + v, u) <==> text + v == u + text
  {
    var x := text + v;
    assert x[..|text|] == text && x == x[..|u|] + x[|u|..];
    assert (u + text)[..|u|] == u && (u + text)[|u|..] == text;
  }

  lemma SpliceParts(s: string, n: nat, q: nat, p: nat, text: string)
    requires q <= p && p + n <= |s|
    ensures Splice(s, q, n, text) == s[..q] + (text + s[q + n..p + n]) + s[p + n..]
    ensures Splice(s, p, n, text) == s[..q] + (s[q..p] + text) + s[p + n..]
  {
    assert s[q + n..] == s[q + n..p + n] + s[p + n..];
    assert s[..p] == s[..q] + s[q..p];
  }

  lemma SameMiddle(a: string, x: string, y: string, b: string)
    ensures a + x + b == a + y + b <==> x == y
  {
    if a + x + b == a + y + b {
      assert |x| == |y|;
      assert (a + x + b)[|a|..|a| + |x|] == x && (a + y + b)[|a|..|a| + |x|] == y;
    }
  }

  lemma SameEditIff(s: string, n: nat, q: nat, p: nat, text: string)
    requires q <= p && p + n <= |s|
    ensures Splice(s, q, n, text) == Splice(s, p, n, text) <==> SameEdit(s, n, q, p, text)
  {
    SpliceParts(s, n, q, p, text);
    SameMiddle(s[..q], text + s[q + n..p + n], s[q..p] + text, s[p + n..]);
    RepeatsIff(text, s[q..p], s[q + n..p + n]);
  }

  lemma GreedyCovers(s: string, pat: string, p: nat) returns (l: nat)
    requires pat != "" && OccursAt(s, pat, p)
    ensures l < |Greedy(s, pat, 0)| && Greedy(s, pat, 0)[l] <= p < Greedy(s, pat, 0)[l] + |pat|
    ensures OccursAt(s, pat, Greedy(s, pat, 0)[l])
  {
    GreedyIsLeftmost(s, pat, 0);
    assert p in Occurrences(s, pat) && Covered(|pat|, Greedy(s, pat, 0), p);
    l :| 0 <= l < |Greedy(s, pat, 0)| && Greedy(s, pat, 0)[l] <= p < Greedy(s, pat, 0)[l] + |pat|;
    assert Greedy(s, pat, 0)[l] in Occurrences(s, pat);
  }

  /** What starts with `u` and goes on with itself is given by its length. */
  lemma {:induction false} Periodic(x: string, y: string, u: string, k: nat)
    requires 0 < |u| <= |x| == |y| && k < |x|
    requires x == u + x[..|x| - |u|] && y == u + y[..|y| - |u|]
    ensures x[k] == y[k]
    decreases k
  {
    if k >= |u| {
      Periodic(x, y, u, k - |u|);
      assert x[k] == x[..|x| - |u|][k - |u|] && y[k] == y[..|y| - |u|][k - |u|];
    }
  }

  lemma OverlapPeriod(s: string, pat: string, q: nat, p: nat)
    requires OccursAt(s, pat, q) && OccursAt(s, pat, p) && q < p < q + |pat|
    ensures pat == pat[..p - q] + pat[..|pat| - (p - q)]
  {
    var d := p - q;
    forall k | d <= k < |pat| ensures pat[k] == pat[k - d] {
      CharOf(s, pat, q, k);
      CharOf(s, pat, p, k - d);
    }
  }

  /** An edit of the same length that overlaps another occurrence cannot have replaced that as well. */
  lemma OverlapDiffers(s: string, pat: string, text: string, q: nat, p: nat)
    requires OccursAt(s, pat, q) && OccursAt(s, pat, p) && q < p < q + |pat| && |text| == |pat|
    requires Splice(s, p, |pat|, text)[q..q + |pat|] == text
    ensures text == pat
  {
    var (d, n, r) := (p - q, |pat|, Splice(s, p, |pat|, text));
    OverlapPeriod(s, pat, q, p);
    assert s[q..p] == s[q..q + n][..d] == pat[..d];
    assert r[q..q + n] == s[q..p] + text[..n - d];
    forall k | 0 <= k < n ensures text[k] == pat[k] {
      Periodic(text, pat, pat[..d], k);
    }
  }

  lemma EarlierReplaced(s: string, pat: string, text: string, q: nat, p: nat, r: string)
    requires text != pat && |text| == |pat| && OccursAt(s, pat, q) && OccursAt(s, pat, p) && q < p < q + |pat|
    requires q + |pat| <= |r| && r[q..q + |pat|] == text
    ensures r != Splice(s, p, |pat|, text)
  {
    if r == Splice(s, p, |pat|, text) {
      OverlapDiffers(s, pat, text, q, p);
    }
  }

  lemma RegionReplaced(s: string, pat: string, text: string, l: nat)
    requires pat != "" && |text| == |pat| && l < |Greedy(s, pat, 0)|
    ensures
      var (r, q) := (ReplaceAll(s, pat, text), Greedy(s, pat, 0)[l]);
      q + |pat| <= |r| && r[q..q + |pat|] == text
  {
    GreedyApart(s, pat, 0);
    ReplacedInPlace(s, Greedy(s, pat, 0), |pat|, text, 0, l);
  }

  lemma SeveralDiffer(s: string, pat: string, text: string, p: nat, l: nat)
    requires pat != "" && text != pat && OccursAt(s, pat, p) && l < |Greedy(s, pat, 0)|
    requires Greedy(s, pat, 0)[l] <= p < Greedy(s, pat, 0)[l] + |pat| && OccursAt(s, pat, Greedy(s, pat, 0)[l])
    requires |Greedy(s, pat, 0)| > 1
    ensures ReplaceAll(s, pat, text) != Splice(s, p, |pat|, text)
  {
    if |text| == |pat| && Greedy(s, pat, 0)[l] == p {
      OthersReplaced(s, pat, text, l, if l == 0 then 1 else 0);
    } else if |text| == |pat| {
      RegionReplaced(s, pat, text, l);
      EarlierReplaced(s, pat, text, Greedy(s, pat, 0)[l], p, ReplaceAll(s, pat, text));
    } else {
      GreedyApart(s, pat, 0);
      RegionsLength(s, Greedy(s, pat, 0), |pat|, text, 0);
      NotOnce(|Greedy(s, pat, 0)|, |text| - |pat|);
    }
  }

  /**
   Replacing all occurrences replaces just the one at `p` exactly if there is no other beside the first one, and
   that is at `p`, or overlaps with it and the new text repeats what is between them.
   */
  lemma ReplaceAllIff(s: string, pat: string, text: string, p: nat)
    requires pat != "" && text != pat && OccursAt(s, pat, p)
    ensures Greedy(s, pat, 0) != []
    ensures ReplaceAll(s, pat, text) == Splice(s, p, |pat|, text)
            <==> |Greedy(s, pat, 0)| == 1 && SameEdit(s, |pat|, Greedy(s, pat, 0)[0], p, text)
  {
    var l := GreedyCovers(s, pat, p);
    var q := Greedy(s, pat, 0)[0];
    GreedyApart(s, pat, 0);
    if |Greedy(s, pat, 0)| == 1 {
      assert Greedy(s, pat, 0) == [q];
      ReplaceOnly(s, q, |pat|, text);
      SameEditIff(s, |pat|, q, p, text);
    } else {
      SeveralDiffer(s, pat, text, p, l);
    }
  }

  // ---------- an empty window ----------

  /** `s.replace("", text)` */
  function InsertAll(s: string, text: string): string {
    if s == "" then text else text + [s[0]] + InsertAll(s[1..], text)
  }

  lemma {:induction false} InsertAllLength(s: string, text: string)
    ensures |InsertAll(s, text)| == |s| + (|s| + 1) * |text|
  {
    if s != "" {
      InsertAllLength(s[1..], text);
      assert (|s| + 1) * |text| == |s| * |text| + |text|;
    }
  }

  lemma InsertAllCons(c: char, rest: string, text: string)
    ensures InsertAll([c] + rest, text) == text + [c] + InsertAll(rest, text)
  {
    assert ([c] + rest)[1..] == rest;
  }

  /** The new text comes between all characters, and at both ends. */
  lemma {:induction false} InsertAllIs(a: string, c: char, b: string, text: string)
    ensures InsertAll("", text) == text
    ensures InsertAll(a + [c] + b, text) == InsertAll(a, text) + [c] + InsertAll(b, text)
    decreases |a|
  {
    InsertAllCons(c, b, text);
    if a == "" {
      assert a + [c] + b == [c] + b;
    } else {
      InsertAllIs(a[1..], c, b, text);
      InsertAllCons(a[0], a[1..] + [c] + b, text);
      assert [a[0]] + (a[1..] + [c] + b) == a + [c] + b;
      Regroup(text + [a[0]], InsertAll(a[1..], text), [c] + InsertAll(b, text));
      Regroup(InsertAll(a[1..], text), [c], InsertAll(b, text));
      Regroup(InsertAll(a, text), [c], InsertAll(b, text));
    }
  }

  /** `s.replace(pat, text)`, the empty string included. */
  function Replaced(s: string, pat: string, text: string): string {
    if pat == "" then InsertAll(s, text) else ReplaceAll(s, pat, text)
  }

  lemma InsertedMore(s: string, text: string, p: nat)
    requires p <= |s| && s != "" && text != ""
    ensures InsertAll(s, text) != Splice(s, p, 0, text)
  {
    InsertAllLength(s, text);
    assert (|s| + 1) * |text| == |s| * |text| + |text| && |s| * |text| >= 1 by {
      Product(|s|, |text|);
    }
  }

  lemma Product(a: nat, b: nat)
    requires a > 0 && b > 0
    ensures (a + 1) * b == a * b + b && a * b >= 1
  {
  }

  /**
   The edit behind a correction replaces the window and nothing else exactly if the window is not an empty line,
   its text occurs once, not counting overlaps, and that occurrence is the window, or the new text repeats what is
   between them.
   */
  lemma CorrectedEditIff(content: string, i: nat, w: nat, text: string)
    requires 0 < w && i + w <= |Lines(content)| && text != Join(Lines(content)[i..i + w])
    ensures
      var (window, p) := (Join(Lines(content)[i..i + w]), OffsetOf(content, i));
      && p + |window| <= |content|
      && (Replaced(content, window, text) == Splice(content, p, |window|, text)
          <==> window != "" && |Greedy(content, window, 0)| == 1
               && SameEdit(content, |window|, Greedy(content, window, 0)[0], p, text))
  {
    var (window, p) := (Join(Lines(content)[i..i + w]), OffsetOf(content, i));
    WindowOccurs(content, i, w);
    if window == "" {
      InsertedMore(content, text, p);
    } else {
      ReplaceAllIff(content, window, text, p);
    }
  }

  lemma TwoPlaces()
    ensures Lines(" a\n ab") == [" a", " ab"] && Greedy(" a\n ab", " a", 0) == [0, 3]
  {
    var s := " a\n ab";
    LinesCons(" a", " ab");
    IndentMatch.LinesOfOne(" ab");
    assert " a" + "\n" + " ab" == s && [" a"] + [" ab"] == [" a", " ab"];
    assert s[3] == ' ' && s[4] == 'a' && s[2] == '\n';
    assert s[0..2] == " a" && s[3..5] == " a";
    assert !OccursAt(s, " a", 2);
    assert Greedy(s, " a", 5) == [] && Greedy(s, " a", 3) == [3] && Greedy(s, " a", 2) == [3];
  }

  lemma TwoEdits()
    ensures Replaced(" a\n ab", " a", " z") == " z\n zb"
  {
    var s := " a\n ab";
    TwoPlaces();
    GreedyApart(s, " a", 0);
    assert [0, 3][1..] == [3] && [3][1..] == [];
    assert ReplaceRegions(s, [], 2, " z", 5) == "b";
    assert ReplaceRegions(s, [3], 2, " z", 2) == s[2..3] + " z" + "b" == "\n zb";
    assert ReplaceRegions(s, [0, 3], 2, " z", 0) == s[0..0] + " z" + "\n zb";
  }

  lemma OneFound()
    ensures IndentMatch.Found("a", [" a"]) && !IndentMatch.Found("a", [" ab"])
  {
    IndentMatch.LinesOfOne("a");
    assert Strip("a") == "a" && " a"[1..] == "a" && " ab"[1..] == "ab";
    assert LStrip(" a") == "a" && LStrip(" ab") == "ab" && RStrip("ab") == "ab";
    IndentMatch.WindowMatchIff("a", [" a"]);
    IndentMatch.WindowMatchIff("a", [" ab"]);
    assert [" ab"][0] == " ab";
  }

  /** The only window that matches is the first line; the second line is edited, too. */
  lemma CorrectedElsewhere()
    ensures IndentMatch.Found("a", [" a"]) && !IndentMatch.Found("a", [" ab"])
    ensures Lines(" a\n ab") == [" a", " ab"] && Replaced(" a\n ab", " a", " z") == " z\n zb"
  {
    TwoPlaces();
    TwoEdits();
    OneFound();
  }
}
