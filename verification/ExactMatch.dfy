/** The exact matches of a string in a file (`find_exact_matches`). */
module ExactMatch {
  import opened Prelude
  import opened Search

  datatype Match = Match(startLine: nat, endLine: nat, content: string)

  /** The whole line around an offset. */
  function FullLine(s: string, p: nat): string
    requires p <= |s|
  {
    s[LineStart(s, p)..LineEnd(s, p)]
  }

  /** A match counts if it spans lines or is a whole line. */
  predicate Accepted(s: string, pat: string, p: nat)
    requires OccursAt(s, pat, p)
  {
    '\n' in pat || FullLine(s, p) == pat
  }

  /** The offsets of the matches, from `from` on. */
  function Hits(s: string, pat: string, from: nat): seq<nat>
    requires pat != ""
    decreases |s| - from
  {
    if from + |pat| > |s| then []
    else if OccursAt(s, pat, from) && Accepted(s, pat, from) then [from] + Hits(s, pat, from + |pat|)
    else Hits(s, pat, from + 1)
  }

  function MatchAt(s: string, pat: string, p: nat): Match
    requires p <= |s|
  {
    var startLine := Newlines(s[..p]) + 1;
    var endLine := startLine + Newlines(pat);
    Match(startLine, endLine, pat)
  }

  predicate Inside(s: string, offsets: seq<nat>) {
    forall k :: 0 <= k < |offsets| ==> offsets[k] <= |s|
  }

  function Matches(s: string, pat: string, offsets: seq<nat>): (r: seq<Match>)
    requires Inside(s, offsets)
    ensures |r| == |offsets| && forall k :: 0 <= k < |r| ==> r[k] == MatchAt(s, pat, offsets[k])
  {
    seq(|offsets|, k requires 0 <= k < |offsets| => MatchAt(s, pat, offsets[k]))
  }

  lemma {:induction false} HitsInside(s: string, pat: string, from: nat)
    requires pat != ""
    ensures Inside(s, Hits(s, pat, from))
    decreases |s| - from
  {
    if from + |pat| <= |s| {
      HitsInside(s, pat, from + 1);
      HitsInside(s, pat, from + |pat|);
    }
  }

  lemma {:induction false} NoHits(s: string, pat: string, from: nat, until: int)
    requires pat != "" && from <= until
    requires forall p :: from <= p < until && OccursAt(s, pat, p) ==> !Accepted(s, pat, p)
    ensures Hits(s, pat, from) == Hits(s, pat, until)
    decreases until - from
  {
    if from < until {
      NoHits(s, pat, from + 1, until);
    }
  }

  lemma SkipToFind(s: string, pat: string, from: nat)
    requires pat != ""
    ensures Find(s, pat, from) == -1 ==> Hits(s, pat, from) == []
    ensures Find(s, pat, from) != -1 ==> Hits(s, pat, from) == Hits(s, pat, Find(s, pat, from))
  {
    var r := Find(s, pat, from);
    var until := if r == -1 then from + |s| + 1 else r;
    forall p | from <= p < until ensures !OccursAt(s, pat, p) {
      if OccursAt(s, pat, p) {
        FindIsFirst(s, pat, from, p);
      }
    }
    NoHits(s, pat, from, until);
  }

  /** The matches reported from `from` on. */
  function Reports(s: string, pat: string, from: nat): seq<Match>
    requires pat != ""
  {
    HitsInside(s, pat, from);
    Matches(s, pat, Hits(s, pat, from))
  }

  lemma MatchesCons(s: string, pat: string, p: nat, offsets: seq<nat>)
    requires p <= |s| && Inside(s, offsets)
    ensures Inside(s, [p] + offsets)
    ensures Matches(s, pat, [p] + offsets) == [MatchAt(s, pat, p)] + Matches(s, pat, offsets)
  {
  }

  lemma ReportsCons(s: string, pat: string, p: nat)
    requires pat != "" && OccursAt(s, pat, p) && Accepted(s, pat, p)
    ensures Reports(s, pat, p) == [MatchAt(s, pat, p)] + Reports(s, pat, p + |pat|)
  {
    HitsInside(s, pat, p + |pat|);
    MatchesCons(s, pat, p, Hits(s, pat, p + |pat|));
  }

  /** `done` and what is still to come from `from` on make up all reports. */
  ghost predicate UpTo(s: string, pat: string, from: nat, done: seq<Match>)
    requires pat != ""
  {
    done + Reports(s, pat, from) == Reports(s, pat, 0)
  }

  lemma NothingReported(s: string, pat: string)
    requires pat != ""
    ensures UpTo(s, pat, 0, [])
  {
    assert [] + Reports(s, pat, 0) == Reports(s, pat, 0);
  }

  lemma ReportOne(s: string, pat: string, from: nat, m: Match, next: nat, done: seq<Match>)
    requires pat != "" && UpTo(s, pat, from, done) && Reports(s, pat, from) == [m] + Reports(s, pat, next)
    ensures UpTo(s, pat, next, done + [m])
  {
    Regroup(done, [m], Reports(s, pat, next));
  }

  lemma ReportNone(s: string, pat: string, from: nat, next: nat, done: seq<Match>)
    requires pat != "" && UpTo(s, pat, from, done) && Hits(s, pat, from) == Hits(s, pat, next)
    ensures UpTo(s, pat, next, done)
  {
  }

  lemma NoMoreFound(s: string, pat: string, from: nat, done: seq<Match>)
    requires pat != "" && UpTo(s, pat, from, done) && Find(s, pat, from) == -1
    ensures done == Reports(s, pat, 0)
  {
    SkipToFind(s, pat, from);
    assert done + [] == done;
  }

  lemma MatchFound(s: string, pat: string, from: nat, r: nat, done: seq<Match>)
    requires pat != "" && UpTo(s, pat, from, done) && Find(s, pat, from) == r && Accepted(s, pat, r)
    ensures UpTo(s, pat, r + |pat|, done + [MatchAt(s, pat, r)])
  {
    SkipToFind(s, pat, from);
    ReportNone(s, pat, from, r, done);
    ReportsCons(s, pat, r);
    ReportOne(s, pat, r, MatchAt(s, pat, r), r + |pat|, done);
  }

  lemma NoHit(s: string, pat: string, r: nat)
    requires pat != "" && OccursAt(s, pat, r) && !Accepted(s, pat, r)
    ensures Hits(s, pat, r) == Hits(s, pat, r + 1)
  {
  }

  lemma PartFound(s: string, pat: string, from: nat, r: nat, done: seq<Match>)
    requires pat != "" && UpTo(s, pat, from, done) && Find(s, pat, from) == r && !Accepted(s, pat, r)
    ensures UpTo(s, pat, r + 1, done)
  {
    SkipToFind(s, pat, from);
    NoHit(s, pat, r);
    ReportNone(s, pat, from, r + 1, done);
  }

  // ---------- when the search ends ----------

  /** One turn of the loop, for any pattern: where it goes on, if it does. */
  function Turn(s: string, pat: string, from: nat): Option<nat> {
    var r := Find(s, pat, from);
    if r == -1 then None else Some(if Accepted(s, pat, r) then r + |pat| else r + 1)
  }

  ghost predicate EndsWithin(s: string, pat: string, from: nat, turns: nat)
    decreases turns
  {
    turns > 0 && (Turn(s, pat, from) == None || EndsWithin(s, pat, Turn(s, pat, from).value, turns - 1))
  }

  /** The pattern is not empty, or no line is. */
  predicate Searchable(s: string, pat: string) {
    pat != "" || "" !in Split(s)
  }

  predicate EmptyLine(s: string, p: nat) {
    p <= |s| && FullLine(s, p) == ""
  }

  lemma EmptyLineIs(s: string, i: nat, p: nat, e: nat)
    requires i <= p <= e <= |s| && AtLineStart(s, i) && e == i + LineLength(s[i..])
    ensures EmptyLine(s, p) <==> i == e
  {
    LineLengthFirst(s[i..]);
    assert s[i..][..e - i] == s[i..e] && s[i..p] == s[i..e][..p - i];
    LineStartIs(s, i, p);
    EndOfLine(s, p, e);
  }

  lemma {:induction false} EndOfLine(s: string, p: nat, e: nat)
    requires p <= e <= |s| && '\n' !in s[p..e] && (e == |s| || s[e] == '\n')
    ensures LineEnd(s, p) == e
    decreases e - p
  {
    if p < e {
      assert s[p] == s[p..e][0] && s[p + 1..e] == s[p..e][1..];
      EndOfLine(s, p + 1, e);
      assert s[p..][1..] == s[p + 1..];
    }
  }

  /** From `i` on, some offset is on an empty line. */
  ghost predicate HasEmptyLine(s: string, i: nat) {
    exists p :: i <= p && EmptyLine(s, p)
  }

  lemma EmptyLineOrLater(s: string, i: nat, e: nat)
    requires i <= |s| && AtLineStart(s, i) && e == i + LineLength(s[i..]) <= |s|
    ensures HasEmptyLine(s, i) <==> i == e || HasEmptyLine(s, e + 1)
  {
    forall p | i <= p <= e ensures EmptyLine(s, p) <==> i == e {
      EmptyLineIs(s, i, p, e);
    }
    if i == e {
      assert EmptyLine(s, i);
    }
  }

  lemma EmptyFirst(s: string, i: nat, e: nat)
    requires i <= |s| && e == i + LineLength(s[i..]) <= |s|
    ensures "" in Split(s[i..]) <==> i == e || (e < |s| && "" in Split(s[e + 1..]))
  {
    SplitFirst(s, i, e);
    assert s[i..e] == "" <==> i == e;
  }

  lemma EmptyInner(s: string, i: nat, e: nat)
    requires i <= |s| && AtLineStart(s, i) && e == i + LineLength(s[i..]) < |s|
    requires "" in Split(s[e + 1..]) <==> HasEmptyLine(s, e + 1)
    ensures "" in Split(s[i..]) <==> HasEmptyLine(s, i)
  {
    EmptyFirst(s, i, e);
    EmptyLineOrLater(s, i, e);
  }

  lemma EmptyLast(s: string, i: nat)
    requires i <= |s| && AtLineStart(s, i) && i + LineLength(s[i..]) == |s|
    ensures "" in Split(s[i..]) <==> HasEmptyLine(s, i)
  {
    EmptyFirst(s, i, |s|);
    EmptyLineOrLater(s, i, |s|);
    assert !HasEmptyLine(s, |s| + 1);
  }

  /** A line of the split text is empty exactly if some offset is on an empty line. */
  lemma {:induction false} EmptyLineIff(s: string, i: nat)
    requires i <= |s| && AtLineStart(s, i)
    ensures "" in Split(s[i..]) <==> HasEmptyLine(s, i)
    decreases |s| - i
  {
    var e := i + LineLength(s[i..]);
    if e < |s| {
      assert s[i..][e - i] == s[e];
      EmptyLineIff(s, e + 1);
      EmptyInner(s, i, e);
    } else {
      EmptyLast(s, i);
    }
  }

  lemma EmptyTurn(s: string, from: nat)
    ensures Turn(s, "", from) == if from > |s| then None else Some(if EmptyLine(s, from) then from else from + 1)
  {
    assert from <= |s| ==> s[from..from + |""|] == "";
  }

  lemma TurnsForward(s: string, pat: string, from: nat)
    requires pat != "" || !EmptyLine(s, from)
    ensures Turn(s, pat, from).Some? ==> from < Turn(s, pat, from).value <= |s| + 1
  {
    if pat == "" {
      EmptyTurn(s, from);
    }
  }

  lemma {:induction false} EndsBehind(s: string, pat: string, from: nat, turns: nat)
    requires pat != "" || forall p :: from <= p ==> !EmptyLine(s, p)
    requires from <= |s| + 1 && turns == |s| + 2 - from
    ensures EndsWithin(s, pat, from, turns)
    decreases turns
  {
    TurnsForward(s, pat, from);
    if Turn(s, pat, from).Some? {
      var next := Turn(s, pat, from).value;
      EndsBehind(s, pat, next, |s| + 2 - next);
      MoreTurns(s, pat, next, |s| + 2 - next, turns - 1);
    }
  }

  lemma {:induction false} MoreTurns(s: string, pat: string, from: nat, turns: nat, more: nat)
    requires EndsWithin(s, pat, from, turns) && turns <= more
    ensures EndsWithin(s, pat, from, more)
    decreases turns
  {
    if Turn(s, pat, from).Some? {
      MoreTurns(s, pat, Turn(s, pat, from).value, turns - 1, more - 1);
    }
  }

  /** At an empty line the search for an empty string stays where it is, and before one it gets there. */
  lemma {:induction false} NeverEnds(s: string, from: nat, p: nat, turns: nat)
    requires from <= p && EmptyLine(s, p)
    ensures !EndsWithin(s, "", from, turns)
    decreases turns
  {
    EmptyTurn(s, from);
    if turns > 0 {
      NeverEnds(s, Turn(s, "", from).value, p, turns - 1);
    }
  }

  /** The loop ends, and soon, exactly if the pattern is not empty or no line of the file is. */
  lemma SearchEndsIff(s: string, pat: string)
    ensures Searchable(s, pat) ==> EndsWithin(s, pat, 0, |s| + 2)
    ensures !Searchable(s, pat) ==> forall turns: nat :: !EndsWithin(s, pat, 0, turns)
  {
    EmptyLineIff(s, 0);
    assert s[0..] == s;
    if Searchable(s, pat) {
      EndsBehind(s, pat, 0, |s| + 2);
    } else {
      var p :| 0 <= p && EmptyLine(s, p);
      forall turns: nat ensures !EndsWithin(s, pat, 0, turns) {
        NeverEnds(s, 0, p, turns);
      }
    }
  }

  /** Searching a file that ends in a line break for nothing never ends. */
  lemma SearchForNothing()
    ensures forall turns: nat :: !EndsWithin("a\n", "", 0, turns)
  {
    SearchEndsIff("a\n", "");
    assert "a\n"[1..] == "\n" && LineLength("a\n") == 1 && "a\n"[2..] == "" && "a\n"[..1] == "a";
    assert Split("") == [""] && Split("a\n") == ["a"] + [""];
  }

  /** An empty pattern is nowhere reported where the search for it ends. */
  function AllReports(s: string, pat: string): seq<Match>
    requires Searchable(s, pat)
  {
    if pat == "" then [] else Reports(s, pat, 0)
  }

  /** What the loop keeps. */
  ghost predicate Searching(s: string, pat: string, from: nat, done: seq<Match>) {
    && Searchable(s, pat) && from <= |s| + 1
    && if pat == "" then done == [] else UpTo(s, pat, from, done)
  }

  lemma NothingFound(s: string, from: nat, done: seq<Match>)
    requires Searching(s, "", from, done)
    ensures
      var r := Find(s, "", from);
      r == -1 || (from <= r && !Accepted(s, "", r) && Searching(s, "", r + 1, done))
  {
    EmptyTurn(s, from);
    EmptyLineIff(s, 0);
    assert s[0..] == s;
    assert !EmptyLine(s, from);
  }

  lemma LastTurn(s: string, pat: string, from: nat, done: seq<Match>)
    requires Searching(s, pat, from, done) && Find(s, pat, from) == -1
    ensures done == AllReports(s, pat)
  {
    if pat != "" {
      NoMoreFound(s, pat, from, done);
    }
  }

  lemma MatchTurn(s: string, pat: string, from: nat, r: nat, done: seq<Match>)
    requires Searching(s, pat, from, done) && Find(s, pat, from) == r && Accepted(s, pat, r)
    ensures from < r + |pat| && Searching(s, pat, r + |pat|, done + [MatchAt(s, pat, r)])
  {
    if pat == "" {
      NothingFound(s, from, done);
    } else {
      MatchFound(s, pat, from, r, done);
    }
  }

  lemma PartTurn(s: string, pat: string, from: nat, r: nat, done: seq<Match>)
    requires Searching(s, pat, from, done) && Find(s, pat, from) == r && !Accepted(s, pat, r)
    ensures from <= r && Searching(s, pat, r + 1, done)
  {
    if pat == "" {
      NothingFound(s, from, done);
    } else {
      PartFound(s, pat, from, r, done);
    }
  }

  /** A one-line pattern must be the whole line it is found in. */
  method SpansOrWhole(oldStr: string, fileContent: string, startPos: nat) returns (b: bool)
    requires OccursAt(fileContent, oldStr, startPos)
    ensures b <==> Accepted(fileContent, oldStr, startPos)
  {
    if '\n' !in oldStr {
      var fullLine := FullLine(fileContent, startPos);
      if fullLine != oldStr {
        return false;
      }
    }
    b := true;
  }

  lemma TurnIs(s: string, pat: string, from: nat, r: int)
    requires r == Find(s, pat, from)
    ensures Turn(s, pat, from) == if r < 0 then None else Some(if Accepted(s, pat, r) then r + |pat| else r + 1)
  {
  }

  /** One turn of the search loop, for any pattern with which it ends; -1 ends it. */
  method SearchTurn(oldStr: string, fileContent: string, from: nat, done: seq<Match>)
    returns (startPos: int, matches: seq<Match>)
    requires Searching(fileContent, oldStr, from, done)
    ensures Turn(fileContent, oldStr, from) == if startPos < 0 then None else Some(startPos)
    ensures if startPos == -1 then matches == AllReports(fileContent, oldStr)
            else from < startPos && Searching(fileContent, oldStr, startPos, matches)
  {
    var found := Find(fileContent, oldStr, from);
    TurnIs(fileContent, oldStr, from, found);
    if found == -1 {
      LastTurn(fileContent, oldStr, from, done);
      return -1, done;
    }
    var whole := SpansOrWhole(oldStr, fileContent, found);
    if !whole {
      PartTurn(fileContent, oldStr, from, found, done);
      return found + 1, done;
    }
    MatchTurn(fileContent, oldStr, from, found, done);
    startPos, matches := found + |oldStr|, done + [MatchAt(fileContent, oldStr, found)];
  }

  method FindExactMatches(oldStr: string, fileContent: string) returns (matches: seq<Match>)
    requires Searchable(fileContent, oldStr)
    ensures matches == AllReports(fileContent, oldStr)
  {
    matches := [];
    var startPos: int := 0;
    if oldStr != "" {
      NothingReported(fileContent, oldStr);
    }
    while startPos != -1
      invariant startPos == -1 || (startPos >= 0 && Searching(fileContent, oldStr, startPos, matches))
      invariant startPos == -1 ==> matches == AllReports(fileContent, oldStr)
      decreases if startPos == -1 then 0 else |fileContent| + 2 - startPos
    {
      startPos, matches := SearchTurn(oldStr, fileContent, startPos, matches);
    }
  }
}
