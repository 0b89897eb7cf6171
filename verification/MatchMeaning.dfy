/**
 What the exact matches are: for a pattern without line breaks the lines equal to it, for any other
 the leftmost non-overlapping occurrences.
 */
module MatchMeaning {
  import opened Search
  import opened ExactMatch

  function LineOf(s: string, p: nat): nat {
    if p <= |s| then Newlines(s[..p]) + 1 else 0
  }

  function LinesOf(s: string, offsets: seq<nat>): seq<nat> {
    if offsets == [] then [] else [LineOf(s, offsets[0])] + LinesOf(s, offsets[1..])
  }

  // ---------- one line ----------

  /** The numbers, from `n` on, of the lines equal to `pat`. */
  function LineNumbers(lines: seq<string>, pat: string, n: nat): seq<nat> {
    if lines == [] then [] else
      (if lines[0] == pat then [n] else []) + LineNumbers(lines[1..], pat, n + 1)
  }

  /** All offsets of a line have the same whole line. */
  lemma {:induction false} SameLine(s: string, i: nat, p: nat)
    requires i <= p <= |s| && AtLineStart(s, i) && '\n' !in s[i..p]
    ensures FullLine(s, p) == s[i..i + LineLength(s[i..])] && p <= i + LineLength(s[i..])
    decreases p - i
  {
    LineStartIs(s, i, p);
    LineLengthPast(s[i..], p - i);
    assert s[i..][p - i..] == s[p..];
  }

  lemma {:induction false} LineLengthPast(s: string, k: nat)
    requires k <= |s| && '\n' !in s[..k]
    ensures LineLength(s) == k + LineLength(s[k..])
  {
    if k > 0 {
      assert s[0] == s[..k][0];
      assert s[1..][..k - 1] == s[..k][1..] && s[1..][k - 1..] == s[k..];
      LineLengthPast(s[1..], k - 1);
    } else {
      assert s[0..] == s;
    }
  }

  lemma AcceptedHit(s: string, pat: string, p: nat)
    requires pat != "" && OccursAt(s, pat, p) && Accepted(s, pat, p)
    ensures Hits(s, pat, p) == [p] + Hits(s, pat, p + |pat|)
  {
  }

  lemma LineIsAccepted(s: string, pat: string, i: nat, e: nat)
    requires i <= |s| && AtLineStart(s, i) && e == i + LineLength(s[i..])
    requires s[i..e] == pat
    ensures OccursAt(s, pat, i) && Accepted(s, pat, i) && i + |pat| == e
  {
    SameLine(s, i, i);
  }

  lemma HitOfLine(s: string, pat: string, i: nat, e: nat)
    requires pat != "" && i <= |s| && AtLineStart(s, i) && e == i + LineLength(s[i..])
    requires s[i..e] == pat
    ensures Hits(s, pat, i) == [i] + Hits(s, pat, e)
  {
    LineIsAccepted(s, pat, i, e);
    AcceptedHit(s, pat, i);
  }

  lemma NoHitOfLine(s: string, pat: string, i: nat, e: nat)
    requires pat != "" && i <= |s| && AtLineStart(s, i) && e == i + LineLength(s[i..])
    requires s[i..e] != pat && '\n' !in pat
    ensures Hits(s, pat, i) == Hits(s, pat, e)
  {
    LineLengthFirst(s[i..]);
    assert s[i..][..e - i] == s[i..e];
    forall p | i <= p < e && OccursAt(s, pat, p) ensures !Accepted(s, pat, p) {
      assert s[i..p] == s[i..e][..p - i];
      SameLine(s, i, p);
    }
    NoHits(s, pat, i, e);
  }

  /** The line that starts at `i` is a hit if it equals the pattern, and holds no other. */
  lemma HitsOfLine(s: string, pat: string, i: nat, e: nat)
    requires pat != "" && i <= |s| && AtLineStart(s, i) && e == i + LineLength(s[i..])
    requires '\n' !in pat
    ensures Hits(s, pat, i) == if s[i..e] == pat then [i] + Hits(s, pat, e) else Hits(s, pat, e)
  {
    if s[i..e] == pat {
      HitOfLine(s, pat, i, e);
    } else {
      NoHitOfLine(s, pat, i, e);
    }
  }

  lemma OccursFirst(s: string, pat: string, i: nat)
    requires pat != "" && i < |s|
    ensures OccursAt(s, pat, i) ==> s[i] == pat[0]
  {
    if OccursAt(s, pat, i) {
      assert s[i..i + |pat|][0] == s[i];
    }
  }

  lemma LineBreakIsNoHit(s: string, pat: string, e: nat)
    requires pat != "" && '\n' !in pat && e < |s| && s[e] == '\n'
    ensures Hits(s, pat, e) == Hits(s, pat, e + 1)
  {
    OccursFirst(s, pat, e);
  }

  lemma CountPast(s: string, i: nat, e: nat)
    requires i <= e < |s| && '\n' !in s[i..e] && s[e] == '\n'
    ensures LineOf(s, e + 1) == LineOf(s, i) + 1
  {
    NoNewlines(s[i..e]);
    NewlinesConcat(s[..i], s[i..e]);
    NewlinesConcat(s[..e], "\n");
    assert s[..i] + s[i..e] == s[..e] && s[..e] + "\n" == s[..e + 1];
    assert Newlines("\n") == 1;
  }

  /** From a line start on, the hits are the lines equal to the pattern. */
  ghost predicate LinesFrom(s: string, pat: string, i: nat)
    requires pat != "" && i <= |s|
  {
    LinesOf(s, Hits(s, pat, i)) == LineNumbers(Split(s[i..]), pat, LineOf(s, i))
  }

  lemma LastLine(s: string, pat: string, i: nat)
    requires pat != "" && '\n' !in pat && i <= |s| && AtLineStart(s, i) && i + LineLength(s[i..]) == |s|
    ensures LinesFrom(s, pat, i)
  {
    SplitFirst(s, i, |s|);
    HitsOfLine(s, pat, i, |s|);
    NumbersCons(s, i, s[i..|s|], pat, [], []);
    assert [s[i..|s|]] + [] == [s[i..|s|]];
  }

  lemma HitsOfInnerLine(s: string, pat: string, i: nat, e: nat)
    requires pat != "" && '\n' !in pat && i <= |s| && AtLineStart(s, i) && e == i + LineLength(s[i..]) < |s|
    ensures Hits(s, pat, i) == if s[i..e] == pat then [i] + Hits(s, pat, e + 1) else Hits(s, pat, e + 1)
  {
    HitsOfLine(s, pat, i, e);
    LineBreakIsNoHit(s, pat, e);
  }

  lemma InnerLine(s: string, pat: string, i: nat, e: nat)
    requires pat != "" && '\n' !in pat && i <= |s| && AtLineStart(s, i) && e == i + LineLength(s[i..]) < |s|
    requires LinesFrom(s, pat, e + 1)
    ensures LinesFrom(s, pat, i)
  {
    var (line, hits, rest) := (s[i..e], Hits(s, pat, e + 1), Split(s[e + 1..]));
    assert Split(s[i..]) == [line] + rest by {
      SplitFirst(s, i, e);
    }
    assert LineOf(s, e + 1) == LineOf(s, i) + 1 by {
      LineLengthFirst(s[i..]);
      assert s[i..][..e - i] == s[i..e];
      SplitFirst(s, i, e);
      CountPast(s, i, e);
    }
    HitsOfInnerLine(s, pat, i, e);
    NumbersCons(s, i, line, pat, hits, rest);
  }

  lemma {:induction false} HitsAreLines(s: string, pat: string, i: nat)
    requires pat != "" && '\n' !in pat && i <= |s| && AtLineStart(s, i)
    ensures LinesFrom(s, pat, i)
    decreases |s| - i
  {
    var e := i + LineLength(s[i..]);
    if e < |s| {
      HitsAreLines(s, pat, e + 1);
      InnerLine(s, pat, i, e);
    } else {
      LastLine(s, pat, i);
    }
  }

  lemma NumbersCons(s: string, i: nat, line: string, pat: string, offsets: seq<nat>, lines: seq<string>)
    requires LinesOf(s, offsets) == LineNumbers(lines, pat, LineOf(s, i) + 1)
    ensures LinesOf(s, if line == pat then [i] + offsets else offsets) == LineNumbers([line] + lines, pat, LineOf(s, i))
  {
    assert ([line] + lines)[1..] == lines;
    assert ([i] + offsets)[1..] == offsets;
  }

  lemma {:induction false} StartLines(s: string, pat: string, offsets: seq<nat>)
    requires Inside(s, offsets)
    ensures |LinesOf(s, offsets)| == |offsets|
    ensures forall k :: 0 <= k < |offsets| ==> LinesOf(s, offsets)[k] == MatchAt(s, pat, offsets[k]).startLine
  {
    if offsets != [] {
      StartLines(s, pat, offsets[1..]);
    }
  }

  /** The matches of a one-line pattern are exactly the lines equal to it, in order. */
  lemma SingleLineMatches(s: string, pat: string)
    requires pat != "" && '\n' !in pat
    ensures
      var (reports, numbers) := (Reports(s, pat, 0), LineNumbers(Split(s), pat, 1));
      && |reports| == |numbers|
      && forall k :: 0 <= k < |reports| ==> reports[k] == Match(numbers[k], numbers[k], pat)
  {
    HitsInside(s, pat, 0);
    HitsAreLines(s, pat, 0);
    assert s[0..] == s && s[..0] == "" && LineOf(s, 0) == 1;
    StartLines(s, pat, Hits(s, pat, 0));
    NoNewlines(pat);
  }

  /** The numbers are those of the lines that are the pattern, all of them, */
  lemma {:induction false} NumbersAre(lines: seq<string>, pat: string, n: nat, x: nat)
    ensures x in LineNumbers(lines, pat, n) <==> n <= x < n + |lines| && lines[x - n] == pat
  {
    if lines != [] {
      NumbersAre(lines[1..], pat, n + 1, x);
      assert x in LineNumbers(lines, pat, n) <==>
             (lines[0] == pat && x == n) || x in LineNumbers(lines[1..], pat, n + 1);
      assert n < x < n + |lines| ==> lines[x - n] == lines[1..][x - (n + 1)];
    }
  }

  /** in order. */
  lemma {:induction false} NumbersInOrder(lines: seq<string>, pat: string, n: nat, k: nat, l: nat)
    requires k < l < |LineNumbers(lines, pat, n)|
    ensures LineNumbers(lines, pat, n)[k] < LineNumbers(lines, pat, n)[l]
  {
    var rest := LineNumbers(lines[1..], pat, n + 1);
    if lines[0] != pat {
      NumbersInOrder(lines[1..], pat, n + 1, k, l);
    } else if k > 0 {
      NumbersInOrder(lines[1..], pat, n + 1, k - 1, l - 1);
    } else {
      assert rest[l - 1] in rest;
      NumbersAre(lines[1..], pat, n + 1, rest[l - 1]);
    }
  }

  // ---------- several lines ----------

  /** The leftmost occurrences that do not overlap, from `from` on. */
  function Greedy(s: string, pat: string, from: nat): seq<nat>
    requires pat != ""
    decreases |s| - from
  {
    if from + |pat| > |s| then []
    else if OccursAt(s, pat, from) then [from] + Greedy(s, pat, from + |pat|)
    else Greedy(s, pat, from + 1)
  }

  function Occurrences(s: string, pat: string): set<nat> {
    set i: nat | i <= |s| && OccursAt(s, pat, i)
  }

  /** A choice among occurrences of length `n`: in order, apart, and no occurrence is left uncovered. */
  ghost predicate Leftmost(occurrences: set<nat>, n: nat, from: nat, offsets: seq<nat>) {
    && (forall k :: 0 <= k < |offsets| ==> from <= offsets[k] && offsets[k] in occurrences)
    && (forall k, l :: 0 <= k < l < |offsets| ==> offsets[k] + n <= offsets[l])
    && (forall q {:trigger Covered(n, offsets, q)} :: q in occurrences && from <= q ==> Covered(n, offsets, q))
  }

  ghost predicate Covered(n: nat, offsets: seq<nat>, q: nat) {
    exists k :: 0 <= k < |offsets| && offsets[k] <= q < offsets[k] + n
  }

  lemma {:induction false} GreedyIsLeftmost(s: string, pat: string, from: nat)
    requires pat != ""
    ensures Leftmost(Occurrences(s, pat), |pat|, from, Greedy(s, pat, from))
    decreases |s| - from
  {
    if from + |pat| <= |s| {
      if OccursAt(s, pat, from) {
        GreedyIsLeftmost(s, pat, from + |pat|);
        LeftmostCons(Occurrences(s, pat), |pat|, from, Greedy(s, pat, from + |pat|));
      } else {
        GreedyIsLeftmost(s, pat, from + 1);
        LeftmostSkip(Occurrences(s, pat), |pat|, from, Greedy(s, pat, from + 1));
      }
    }
  }

  lemma LeftmostSkip(occurrences: set<nat>, n: nat, from: nat, rest: seq<nat>)
    requires from !in occurrences && Leftmost(occurrences, n, from + 1, rest)
    ensures Leftmost(occurrences, n, from, rest)
  {
  }

  lemma LeftmostCons(occurrences: set<nat>, n: nat, from: nat, rest: seq<nat>)
    requires from in occurrences && Leftmost(occurrences, n, from + n, rest)
    ensures Leftmost(occurrences, n, from, [from] + rest)
  {
    var offsets := [from] + rest;
    forall q <- occurrences | from <= q ensures Covered(n, offsets, q) {
      if from + n <= q {
        assert Covered(n, rest, q);
        var k :| 0 <= k < |rest| && rest[k] <= q < rest[k] + n;
        assert offsets[k + 1] == rest[k];
      } else {
        assert offsets[0] == from;
      }
    }
  }

  lemma NoneLeft(occurrences: set<nat>, n: nat, from: nat, q: nat)
    requires Leftmost(occurrences, n, from, []) && q in occurrences
    ensures q < from
  {
    assert from <= q ==> Covered(n, [], q);
  }

  /** Only one list is leftmost. */
  lemma {:induction false} LeftmostIsUnique(occurrences: set<nat>, n: nat, from: nat, a: seq<nat>, b: seq<nat>)
    requires n > 0 && Leftmost(occurrences, n, from, a) && Leftmost(occurrences, n, from, b)
    ensures a == b
    decreases |a|
  {
    if a == [] {
      if b != [] {
        NoneLeft(occurrences, n, from, b[0]);
      }
    } else {
      SameFirst(occurrences, n, from, a, b);
      LeftmostTail(occurrences, n, from, a);
      LeftmostTail(occurrences, n, from, b);
      LeftmostIsUnique(occurrences, n, a[0] + n, a[1..], b[1..]);
      assert a == [a[0]] + a[1..] && b == [b[0]] + b[1..];
    }
  }

  lemma SameFirst(occurrences: set<nat>, n: nat, from: nat, a: seq<nat>, b: seq<nat>)
    requires n > 0 && Leftmost(occurrences, n, from, a) && Leftmost(occurrences, n, from, b) && a != []
    ensures b != [] && a[0] == b[0]
  {
    assert Covered(n, b, a[0]);
    var k :| 0 <= k < |b| && b[k] <= a[0] < b[k] + n;
    assert Covered(n, a, b[0]);
    var l :| 0 <= l < |a| && a[l] <= b[0] < a[l] + n;
    assert a[0] <= a[l] && b[0] <= b[k];
  }

  lemma LeftmostTail(occurrences: set<nat>, n: nat, from: nat, a: seq<nat>)
    requires n > 0 && Leftmost(occurrences, n, from, a) && a != []
    ensures Leftmost(occurrences, n, a[0] + n, a[1..])
  {
    forall q <- occurrences | a[0] + n <= q ensures Covered(n, a[1..], q) {
      assert Covered(n, a, q);
      var k :| 0 <= k < |a| && a[k] <= q < a[k] + n;
      assert a[1..][k - 1] == a[k];
    }
  }

  lemma HitsHere(s: string, pat: string, from: nat)
    requires pat != "" && '\n' in pat && OccursAt(s, pat, from)
    ensures Hits(s, pat, from) == [from] + Hits(s, pat, from + |pat|)
    ensures Greedy(s, pat, from) == [from] + Greedy(s, pat, from + |pat|)
  {
  }

  lemma HitsLater(s: string, pat: string, from: nat)
    requires pat != "" && '\n' in pat && from + |pat| <= |s| && !OccursAt(s, pat, from)
    ensures Hits(s, pat, from) == Hits(s, pat, from + 1) && Greedy(s, pat, from) == Greedy(s, pat, from + 1)
  {
  }

  lemma {:induction false} HitsAreGreedy(s: string, pat: string, from: nat)
    requires pat != "" && '\n' in pat
    ensures Hits(s, pat, from) == Greedy(s, pat, from)
    decreases |s| - from
  {
    if from + |pat| <= |s| {
      if OccursAt(s, pat, from) {
        HitsHere(s, pat, from);
        HitsAreGreedy(s, pat, from + |pat|);
      } else {
        HitsLater(s, pat, from);
        HitsAreGreedy(s, pat, from + 1);
      }
    }
  }

  lemma SpannedLines(s: string, pat: string, p: nat)
    requires OccursAt(s, pat, p)
    ensures MatchAt(s, pat, p) == Match(LineOf(s, p), LineOf(s, p + |pat|), pat)
  {
    NewlinesConcat(s[..p], pat);
    assert s[..p] + pat == s[..p + |pat|];
  }

  lemma HitsAreLeftmost(s: string, pat: string)
    requires '\n' in pat
    ensures Leftmost(Occurrences(s, pat), |pat|, 0, Hits(s, pat, 0))
  {
    HitsAreGreedy(s, pat, 0);
    GreedyIsLeftmost(s, pat, 0);
  }

  lemma LeftmostOccurs(s: string, pat: string, hits: seq<nat>, k: nat)
    requires Leftmost(Occurrences(s, pat), |pat|, 0, hits) && k < |hits|
    ensures OccursAt(s, pat, hits[k])
  {
    assert hits[k] in Occurrences(s, pat);
  }

  lemma ReportsOfHits(s: string, pat: string)
    requires pat != ""
    ensures |Reports(s, pat, 0)| == |Hits(s, pat, 0)| && Inside(s, Hits(s, pat, 0))
    ensures forall k :: 0 <= k < |Hits(s, pat, 0)| ==> Reports(s, pat, 0)[k] == MatchAt(s, pat, Hits(s, pat, 0)[k])
  {
    HitsInside(s, pat, 0);
  }

  /** The matches of a pattern with line breaks are its leftmost occurrences, with the lines they span. */
  lemma MultiLineMatches(s: string, pat: string)
    requires '\n' in pat
    ensures
      var (hits, reports) := (Hits(s, pat, 0), Reports(s, pat, 0));
      && Leftmost(Occurrences(s, pat), |pat|, 0, hits) && |reports| == |hits|
      && forall k :: 0 <= k < |hits| ==> reports[k] == Match(LineOf(s, hits[k]), LineOf(s, hits[k] + |pat|), pat)
  {
    HitsAreLeftmost(s, pat);
    ReportsOfHits(s, pat);
    var (hits, reports) := (Hits(s, pat, 0), Reports(s, pat, 0));
    forall k | 0 <= k < |hits|
      ensures reports[k] == Match(LineOf(s, hits[k]), LineOf(s, hits[k] + |pat|), pat)
    {
      LeftmostOccurs(s, pat, hits, k);
      SpannedLines(s, pat, hits[k]);
    }
  }
}
