/**
 The replacements of `StringReplace.execute`: the targeted one walks from a line number back to an
 offset; the global one replaces every occurrence, reported or not.
 */
module Replacement {
  import opened Search
  import opened ExactMatch
  import opened MatchMeaning

  function Splice(s: string, p: nat, n: nat, text: string): string
    requires p + n <= |s|
  {
    s[..p] + text + s[p + n..]
  }

  // ---------- from a line number to an offset ----------

  /** `turns` times to just behind the next line break, counting from `p`. */
  function Walk(s: string, p: nat, turns: nat): nat
    decreases turns
  {
    if turns == 0 then p else Walk(s, Find(s, "\n", p) + 1, turns - 1)
  }

  lemma NextLine(s: string, i: nat, p: nat)
    requires i <= p <= |s| && Newlines(s[i..p]) > 0
    ensures
      var next := Find(s, "\n", i) + 1;
      && i < next <= p && AtLineStart(s, next)
      && Newlines(s[next..p]) == Newlines(s[i..p]) - 1
  {
    var q := FirstBreak(s, i, p);
    forall k | i <= k < q ensures !OccursAt(s, "\n", k) {
      assert s[k] == s[i..q][k - i];
      OccursFirst(s, "\n", k);
    }
    assert s[q..q + 1] == "\n";
    FindIs(s, "\n", i, q);
    NoNewlines(s[i..q]);
    NewlinesConcat(s[i..q], s[q..p]);
    assert s[i..q] + s[q..p] == s[i..p] && s[q..p][1..] == s[q + 1..p];
  }

  lemma {:induction false} FirstBreak(s: string, i: nat, p: nat) returns (q: nat)
    requires i <= p <= |s| && Newlines(s[i..p]) > 0
    ensures i <= q < p && s[q] == '\n' && '\n' !in s[i..q]
    decreases p - i
  {
    if s[i] == '\n' {
      q := i;
    } else {
      assert s[i..p][1..] == s[i + 1..p];
      q := FirstBreak(s, i + 1, p);
      assert s[i..q] == [s[i]] + s[i + 1..q];
    }
  }

  /** Walking as many lines as lie before an offset leads to the start of its line. */
  lemma {:induction false} WalkToLine(s: string, i: nat, p: nat)
    requires i <= p <= |s| && AtLineStart(s, i)
    ensures Walk(s, i, Newlines(s[i..p])) == LineStart(s, p)
    decreases p - i
  {
    if Newlines(s[i..p]) == 0 {
      if '\n' in s[i..p] {
        var k :| 0 <= k < |s[i..p]| && s[i..p][k] == '\n';
        SomeNewlines(s[i..p], k);
      }
      LineStartIs(s, i, p);
    } else {
      NextLine(s, i, p);
      WalkToLine(s, Find(s, "\n", i) + 1, p);
    }
  }

  lemma FirstOfManyLines(s: string, pat: string, p: nat)
    requires '\n' in pat && OccursAt(s, pat, p)
    ensures Find(s, pat, LineStart(s, p)) == p
  {
    var i := LineStart(s, p);
    LineStartLast(s, p);
    var q := Find(s, pat, i);
    FindIsFirst(s, pat, i, p);
    assert s[i..p][q - i..] == s[q..p];
    OncePerLine(s, pat, q, p);
  }

  lemma NoBreakInside(s: string, pat: string, p: nat, e: nat)
    requires '\n' !in pat && OccursAt(s, pat, p) && p <= e < p + |pat|
    ensures s[e] != '\n'
  {
    assert s[e] == s[p..p + |pat|][e - p];
  }

  lemma FirstOfOneLine(s: string, pat: string, p: nat)
    requires '\n' !in pat && OccursAt(s, pat, p) && FullLine(s, p) == pat
    ensures LineStart(s, p) == p
  {
    var i := LineStart(s, p);
    var e := i + LineLength(s[i..]);
    LineStartLast(s, p);
    SameLine(s, i, p);
    assert |pat| == e - i;
    assert e < |s| ==> s[i..][e - i] == s[e];
    if i < p {
      NoBreakInside(s, pat, p, e);
    }
  }

  /** An accepted occurrence is the first one from the start of its line. */
  lemma FirstOnItsLine(s: string, pat: string, p: nat)
    requires OccursAt(s, pat, p) && Accepted(s, pat, p)
    ensures Find(s, pat, LineStart(s, p)) == p
  {
    if '\n' in pat {
      FirstOfManyLines(s, pat, p);
    } else {
      FirstOfOneLine(s, pat, p);
    }
  }

  /** A pattern with a line break occurs at most once on the same line. */
  lemma OncePerLine(s: string, pat: string, q: nat, p: nat)
    requires '\n' in pat && q <= p && OccursAt(s, pat, q) && OccursAt(s, pat, p) && '\n' !in s[q..p]
    ensures q == p
  {
    BreakOfPattern(s, pat, q);
    BreakOfPattern(s, pat, p);
    assert s[q..][..p - q] == s[q..p] && s[q..][p - q..] == s[p..];
    LineLengthPast(s[q..], p - q);
  }

  lemma BreakOfPattern(s: string, pat: string, p: nat)
    requires '\n' in pat && OccursAt(s, pat, p)
    ensures LineLength(s[p..]) == LineLength(pat)
  {
    LineLengthFirst(pat);
    assert pat[..|pat|] == pat;
    LineLengthPrefix(pat, s[p + |pat|..]);
    assert s[p..] == s[p..p + |pat|] + s[p + |pat|..];
  }

  lemma {:induction false} LineLengthPrefix(a: string, b: string)
    requires LineLength(a) < |a|
    ensures LineLength(a + b) == LineLength(a)
  {
    if a[0] != '\n' {
      LineLengthPrefix(a[1..], b);
      assert (a + b)[1..] == a[1..] + b;
    }
  }

  /** The offset that the targeted replacement recovers from a line number. */
  method RecoverOffset(fileContent: string, oldStr: string, startLine: nat) returns (startPos: int)
    requires startLine >= 1
    ensures startPos == Find(fileContent, oldStr, Walk(fileContent, 0, startLine - 1))
  {
    startPos := 0;
    for turn := 0 to startLine - 1
      invariant 0 <= startPos
      invariant Walk(fileContent, startPos, startLine - 1 - turn) == Walk(fileContent, 0, startLine - 1)
    {
      startPos := Find(fileContent, "\n", startPos) + 1;
    }
    startPos := Find(fileContent, oldStr, startPos);
  }

  /** From the line number of any match, the way back leads to the offset the match came from. */
  lemma OffsetRecovered(s: string, pat: string, k: nat)
    requires pat != "" && k < |Hits(s, pat, 0)|
    ensures k < |Reports(s, pat, 0)|
    ensures Find(s, pat, Walk(s, 0, Reports(s, pat, 0)[k].startLine - 1)) == Hits(s, pat, 0)[k]
  {
    HitsInside(s, pat, 0);
    HitsAreHits(s, pat, 0, k);
    var p := Hits(s, pat, 0)[k];
    assert s[0..p] == s[..p];
    WalkToLine(s, 0, p);
    FirstOnItsLine(s, pat, p);
  }

  predicate IsHit(s: string, pat: string, p: nat) {
    OccursAt(s, pat, p) && Accepted(s, pat, p)
  }

  lemma HitsUnfold(s: string, pat: string, from: nat)
    requires pat != "" && Hits(s, pat, from) != []
    ensures Hits(s, pat, from) == if IsHit(s, pat, from) then [from] + Hits(s, pat, from + |pat|)
        else Hits(s, pat, from + 1)
    ensures from < |s|
  {
  }

  lemma {:induction false} AllHits(s: string, pat: string, from: nat, k: nat)
    requires pat != "" && k < |Hits(s, pat, from)|
    ensures IsHit(s, pat, Hits(s, pat, from)[k])
    decreases |s| - from
  {
    HitsUnfold(s, pat, from);
    if !IsHit(s, pat, from) {
      AllHits(s, pat, from + 1, k);
    } else if k > 0 {
      AllHits(s, pat, from + |pat|, k - 1);
    }
  }

  lemma HitsAreHits(s: string, pat: string, from: nat, k: nat)
    requires pat != "" && k < |Hits(s, pat, from)|
    ensures OccursAt(s, pat, Hits(s, pat, from)[k]) && Accepted(s, pat, Hits(s, pat, from)[k])
  {
    AllHits(s, pat, from, k);
  }

  /** The targeted branch: exactly the chosen match is replaced. */
  method ReplaceTargeted(fileContent: string, oldStr: string, newStr: string, startLine: nat, ghost k: nat)
    returns (newFileContent: string)
    requires oldStr != "" && k < |Hits(fileContent, oldStr, 0)| == |Reports(fileContent, oldStr, 0)|
    requires startLine == Reports(fileContent, oldStr, 0)[k].startLine
    ensures Hits(fileContent, oldStr, 0)[k] + |oldStr| <= |fileContent|
    ensures newFileContent == Splice(fileContent, Hits(fileContent, oldStr, 0)[k], |oldStr|, newStr)
  {
    OffsetRecovered(fileContent, oldStr, k);
    HitsAreHits(fileContent, oldStr, 0, k);
    var startPos := RecoverOffset(fileContent, oldStr, startLine);
    newFileContent := fileContent[..startPos] + newStr + fileContent[startPos + |oldStr|..];
  }

  // ---------- the global replacement ----------

  /** Regions of `n` characters, in order and apart, between `from` and `end`. */
  ghost predicate Apart(offsets: seq<nat>, n: nat, from: nat, end: nat) {
    if offsets == [] then from <= end else from <= offsets[0] && Apart(offsets[1..], n, offsets[0] + n, end)
  }

  /** The regions replaced by `text`, the rest of `s` from `from` on kept. */
  function ReplaceRegions(s: string, offsets: seq<nat>, n: nat, text: string, from: nat): string
    requires Apart(offsets, n, from, |s|)
  {
    if offsets == [] then s[from..] else
      ApartEnds(offsets, n, from, |s|);
      s[from..offsets[0]] + text + ReplaceRegions(s, offsets[1..], n, text, offsets[0] + n)
  }

  lemma {:induction false} ApartEnds(offsets: seq<nat>, n: nat, from: nat, end: nat)
    requires Apart(offsets, n, from, end)
    ensures from <= end && (offsets != [] ==> offsets[0] + n <= end)
  {
    if offsets != [] {
      ApartEnds(offsets[1..], n, offsets[0] + n, end);
    }
  }

  lemma {:induction false} GreedyApart(s: string, pat: string, from: nat)
    requires pat != "" && from <= |s|
    ensures Apart(Greedy(s, pat, from), |pat|, from, |s|)
    decreases |s| - from
  {
    if from + |pat| <= |s| {
      if OccursAt(s, pat, from) {
        GreedyApart(s, pat, from + |pat|);
      } else {
        GreedyApart(s, pat, from + 1);
      }
    }
  }

  /** `s.replace(pat, text)` */
  function ReplaceAll(s: string, pat: string, text: string): string
    requires pat != ""
  {
    GreedyApart(s, pat, 0);
    ReplaceRegions(s, Greedy(s, pat, 0), |pat|, text, 0)
  }

  lemma {:induction false} RegionsLength(s: string, offsets: seq<nat>, n: nat, text: string, from: nat)
    requires Apart(offsets, n, from, |s|)
    ensures |ReplaceRegions(s, offsets, n, text, from)| == |s| - from + |offsets| * (|text| - n)
  {
    ApartEnds(offsets, n, from, |s|);
    if offsets != [] {
      RegionsLength(s, offsets[1..], n, text, offsets[0] + n);
      assert |offsets| * (|text| - n) == (|text| - n) + |offsets[1..]| * (|text| - n);
    }
  }

  /** With a replacement of the same length, every region stays in place and is replaced. */
  lemma {:induction false} ReplacedInPlace(s: string, offsets: seq<nat>, n: nat, text: string, from: nat, k: nat)
    requires Apart(offsets, n, from, |s|) && |text| == n && k < |offsets|
    ensures
      var (r, q) := (ReplaceRegions(s, offsets, n, text, from), offsets[k]);
      from <= q && q + n - from <= |r| && r[q - from..q - from + n] == text
  {
    ApartEnds(offsets, n, from, |s|);
    var (r, first, tail) := (ReplaceRegions(s, offsets, n, text, from), offsets[0], offsets[1..]);
    var rest := ReplaceRegions(s, tail, n, text, first + n);
    if k == 0 {
      assert r[first - from..first - from + n] == text;
    } else {
      ReplacedInPlace(s, tail, n, text, first + n, k - 1);
      InSuffix(s[from..first] + text, rest, offsets[k] - (first + n), n);
    }
  }

  lemma InSuffix(a: string, b: string, i: nat, n: nat)
    requires i + n <= |b|
    ensures (a + b)[|a| + i..|a| + i + n] == b[i..i + n]
  {
  }

  /** The global replacement of one of several occurrences also changes another. */
  lemma OthersReplaced(s: string, pat: string, text: string, k: nat, l: nat)
    requires pat != "" && text != pat && |text| == |pat|
    requires k < |Greedy(s, pat, 0)| && l < |Greedy(s, pat, 0)| && k != l
    ensures OccursAt(s, pat, Greedy(s, pat, 0)[k])
    ensures ReplaceAll(s, pat, text) != Splice(s, Greedy(s, pat, 0)[k], |pat|, text)
  {
    GreedyIsLeftmost(s, pat, 0);
    GreedyApart(s, pat, 0);
    var (p, q) := (Greedy(s, pat, 0)[k], Greedy(s, pat, 0)[l]);
    assert p in Occurrences(s, pat) && q in Occurrences(s, pat);
    assert p + |pat| <= q || q + |pat| <= p;
    ReplacedInPlace(s, Greedy(s, pat, 0), |pat|, text, 0, l);
    OutsideSplice(s, p, |pat|, text, q);
  }

  lemma OutsideSplice(s: string, p: nat, n: nat, text: string, q: nat)
    requires |text| == n && p + n <= |s| && q + n <= |s| && (p + n <= q || q + n <= p)
    ensures |Splice(s, p, n, text)| == |s| && Splice(s, p, n, text)[q..q + n] == s[q..q + n]
  {
  }

  /** Every match is one of the leftmost occurrences. */
  lemma HitIsGreedy(s: string, pat: string, k: nat)
    requires pat != "" && k < |Hits(s, pat, 0)|
    ensures Hits(s, pat, 0)[k] in Greedy(s, pat, 0)
  {
    if '\n' in pat {
      HitsAreGreedy(s, pat, 0);
    } else {
      HitsAreHits(s, pat, 0, k);
      WholeLineIsGreedy(s, pat, Hits(s, pat, 0)[k]);
    }
  }

  lemma WholeLineIsGreedy(s: string, pat: string, p: nat)
    requires pat != "" && '\n' !in pat && OccursAt(s, pat, p) && FullLine(s, p) == pat
    ensures p in Greedy(s, pat, 0)
  {
    FirstOfOneLine(s, pat, p);
    GreedyIsLeftmost(s, pat, 0);
    assert p in Occurrences(s, pat) && Covered(|pat|, Greedy(s, pat, 0), p);
    var l :| 0 <= l < |Greedy(s, pat, 0)| && Greedy(s, pat, 0)[l] <= p < Greedy(s, pat, 0)[l] + |pat|;
    var q := Greedy(s, pat, 0)[l];
    assert q in Occurrences(s, pat);
    StartInside(s, pat, q, p);
  }

  lemma StartInside(s: string, pat: string, q: nat, p: nat)
    requires OccursAt(s, pat, q) && q <= p < q + |pat|
    ensures q == p || s[p - 1] == pat[p - 1 - q]
  {
    if q < p {
      assert s[q..q + |pat|][p - 1 - q] == s[p - 1];
    }
  }

  lemma ReplaceOnly(s: string, p: nat, n: nat, text: string)
    requires p + n <= |s|
    ensures Apart([p], n, 0, |s|) && ReplaceRegions(s, [p], n, text, 0) == Splice(s, p, n, text)
  {
    assert [p][1..] == [] && s[0..p] == s[..p];
  }

  /** The global branch does what it reports exactly if the old string occurs once in the file. */
  lemma GlobalIsTargetedIff(s: string, pat: string, text: string, k: nat)
    requires pat != "" && text != pat && k < |Hits(s, pat, 0)|
    ensures OccursAt(s, pat, Hits(s, pat, 0)[k])
    ensures ReplaceAll(s, pat, text) == Splice(s, Hits(s, pat, 0)[k], |pat|, text) <==> |Greedy(s, pat, 0)| == 1
  {
    var (p, greedy) := (Hits(s, pat, 0)[k], Greedy(s, pat, 0));
    HitsAreHits(s, pat, 0, k);
    HitIsGreedy(s, pat, k);
    GreedyApart(s, pat, 0);
    var l :| 0 <= l < |greedy| && greedy[l] == p;
    if |greedy| == 1 {
      assert greedy == [p];
      ReplaceOnly(s, p, |pat|, text);
    } else if |text| == |pat| {
      OthersReplaced(s, pat, text, l, if l == 0 then 1 else 0);
    } else {
      RegionsLength(s, greedy, |pat|, text, 0);
      NotOnce(|greedy|, |text| - |pat|);
    }
  }

  lemma NotOnce(n: nat, d: int)
    requires n != 1 && d != 0
    ensures n * d != d
  {
    assert n * d - d == (n - 1) * d;
  }

  lemma StrayText()
    ensures Split("a\nba") == ["a", "ba"] && Greedy("a\nba", "a", 0) == [0, 3]
  {
    var s := "a\nba";
    assert s[1..] == "\nba" && s[..1] == "a" && s[2..] == "ba" && "ba"[1..] == "a" && "a"[1..] == "";
    assert LineLength("a") == 1 && LineLength("ba") == 2 && LineLength(s) == 1;
    assert Split("ba") == ["ba"];
    assert !OccursAt(s, "a", 1) && !OccursAt(s, "a", 2);
    assert s[3..4] == "a" && s[0..1] == "a";
    assert Greedy(s, "a", 4) == [] && Greedy(s, "a", 3) == [3];
    assert Greedy(s, "a", 2) == [3] && Greedy(s, "a", 1) == [3];
  }

  lemma StrayEdit()
    ensures ReplaceAll("a\nba", "a", "x") == "x\nbx"
  {
    var s := "a\nba";
    StrayText();
    GreedyApart(s, "a", 0);
    assert [0, 3][1..] == [3] && [3][1..] == [];
    assert ReplaceRegions(s, [], 1, "x", 4) == "";
    assert ReplaceRegions(s, [3], 1, "x", 1) == s[1..3] + "x" + "" == "\nbx";
    assert ReplaceRegions(s, [0, 3], 1, "x", 0) == s[0..0] + "x" + "\nbx";
  }

  /** One line is reported, and another one is edited as well. */
  lemma GlobalReplacementStrays()
    ensures Reports("a\nba", "a", 0) == [Match(1, 1, "a")] && ReplaceAll("a\nba", "a", "x") == "x\nbx"
  {
    StrayText();
    StrayEdit();
    SingleLineMatches("a\nba", "a");
    assert ["a", "ba"][1..] == ["ba"] && ["ba"][1..] == [];
    assert LineNumbers(["ba"], "a", 2) == [];
    assert LineNumbers(["a", "ba"], "a", 1) == [1];
  }
}
