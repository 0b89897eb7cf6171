/** What replacing all occurrences of a string means: the first one is replaced, and then all behind it. */
module ReplacingAll {
  import opened Prelude
  import opened Search
  import opened MatchMeaning
  import opened Replacement

  /** From the front: the string is replaced where it is found, and the search goes on behind it. */
  function ReplaceIn(s: string, pat: string, text: string): string
    requires pat != ""
  {
    if s == "" then ""
    else if pat <= s then text + ReplaceIn(s[|pat|..], pat, text)
    else [s[0]] + ReplaceIn(s[1..], pat, text)
  }

  lemma FrontOf(s: string, pat: string, from: nat)
    requires from <= |s|
    ensures OccursAt(s, pat, from) <==> pat <= s[from..]
  {
    if from + |pat| <= |s| {
      assert s[from..][..|pat|] == s[from..from + |pat|];
    }
  }

  lemma FoundHere(s: string, pat: string, text: string, from: nat)
    requires pat != "" && OccursAt(s, pat, from)
    ensures ReplaceIn(s[from..], pat, text) == text + ReplaceIn(s[from + |pat|..], pat, text)
  {
    FrontOf(s, pat, from);
    assert s[from..][|pat|..] == s[from + |pat|..];
  }

  lemma NotHere(s: string, pat: string, text: string, from: nat)
    requires pat != "" && from < |s| && !OccursAt(s, pat, from)
    ensures ReplaceIn(s[from..], pat, text) == [s[from]] + ReplaceIn(s[from + 1..], pat, text)
  {
    FrontOf(s, pat, from);
    assert s[from..][1..] == s[from + 1..] && s[from..][0] == s[from];
  }

  lemma RegionsTake(s: string, offsets: seq<nat>, n: nat, text: string, from: nat)
    requires Apart(offsets, n, from + n, |s|) && Apart([from] + offsets, n, from, |s|)
    ensures ReplaceRegions(s, [from] + offsets, n, text, from) == text + ReplaceRegions(s, offsets, n, text, from + n)
  {
    ApartEnds([from] + offsets, n, from, |s|);
    assert ([from] + offsets)[1..] == offsets && ([from] + offsets)[0] == from;
    assert s[from..from] == "" && "" + text == text;
  }

  lemma RegionsSkip(s: string, offsets: seq<nat>, n: nat, text: string, from: nat)
    requires from < |s| && Apart(offsets, n, from + 1, |s|) && Apart(offsets, n, from, |s|)
    ensures ReplaceRegions(s, offsets, n, text, from) == [s[from]] + ReplaceRegions(s, offsets, n, text, from + 1)
  {
    if offsets == [] {
      assert s[from..] == [s[from]] + s[from + 1..];
    } else {
      ApartEnds(offsets, n, from + 1, |s|);
      var x := s[from + 1..offsets[0]];
      assert s[from..offsets[0]] == [s[from]] + x;
      Regroup([s[from]], x, text);
      Regroup([s[from]], x + text, ReplaceRegions(s, offsets[1..], n, text, offsets[0] + n));
    }
  }

  lemma GreedyStep(s: string, pat: string, from: nat)
    requires pat != ""
    ensures OccursAt(s, pat, from) ==> Greedy(s, pat, from) == [from] + Greedy(s, pat, from + |pat|)
    ensures !OccursAt(s, pat, from) && from < |s| ==> Greedy(s, pat, from) == Greedy(s, pat, from + 1)
    ensures from == |s| ==> Greedy(s, pat, from) == []
  {
  }

  lemma {:induction false} RegionsAre(s: string, pat: string, text: string, from: nat)
    requires pat != "" && from <= |s|
    ensures Apart(Greedy(s, pat, from), |pat|, from, |s|)
    ensures ReplaceRegions(s, Greedy(s, pat, from), |pat|, text, from) == ReplaceIn(s[from..], pat, text)
    decreases |s| - from
  {
    GreedyApart(s, pat, from);
    GreedyStep(s, pat, from);
    if OccursAt(s, pat, from) {
      RegionsAre(s, pat, text, from + |pat|);
      RegionsTake(s, Greedy(s, pat, from + |pat|), |pat|, text, from);
      FoundHere(s, pat, text, from);
    } else if from < |s| {
      RegionsAre(s, pat, text, from + 1);
      RegionsSkip(s, Greedy(s, pat, from + 1), |pat|, text, from);
      NotHere(s, pat, text, from);
    }
  }

  lemma AllIsReplaceIn(s: string, pat: string, text: string)
    requires pat != ""
    ensures ReplaceAll(s, pat, text) == ReplaceIn(s, pat, text)
  {
    RegionsAre(s, pat, text, 0);
    assert s[0..] == s;
  }

  lemma {:induction false} UpToFirst(s: string, pat: string, text: string, from: nat, p: nat)
    requires pat != "" && from <= p <= |s| && forall q :: from <= q < p ==> !OccursAt(s, pat, q)
    ensures ReplaceIn(s[from..], pat, text) == s[from..p] + ReplaceIn(s[p..], pat, text)
    decreases p - from
  {
    if from < p {
      NotHere(s, pat, text, from);
      UpToFirst(s, pat, text, from + 1, p);
      assert s[from..p] == [s[from]] + s[from + 1..p];
      Regroup([s[from]], s[from + 1..p], ReplaceIn(s[p..], pat, text));
    } else {
      assert s[from..p] + ReplaceIn(s[p..], pat, text) == ReplaceIn(s[p..], pat, text);
    }
  }

  /** What it means to replace all occurrences: the first one is replaced, and then all behind it. */
  lemma ReplacesFirst(s: string, pat: string, text: string, p: nat)
    requires pat != "" && OccursAt(s, pat, p) && forall q :: 0 <= q < p ==> !OccursAt(s, pat, q)
    ensures ReplaceAll(s, pat, text) == s[..p] + text + ReplaceAll(s[p + |pat|..], pat, text)
  {
    AllIsReplaceIn(s, pat, text);
    AllIsReplaceIn(s[p + |pat|..], pat, text);
    UpToFirst(s, pat, text, 0, p);
    FoundHere(s, pat, text, p);
    assert s[0..p] == s[..p] && s[0..] == s;
    Regroup(s[..p], text, ReplaceIn(s[p + |pat|..], pat, text));
  }

  /** If there is none, the text stays. */
  lemma ReplacesNone(s: string, pat: string, text: string)
    requires pat != "" && forall q :: 0 <= q < |s| ==> !OccursAt(s, pat, q)
    ensures ReplaceAll(s, pat, text) == s
  {
    AllIsReplaceIn(s, pat, text);
    UpToFirst(s, pat, text, 0, |s|);
    assert s[0..] == s && s[0..|s|] == s && s[|s|..] == "";
    assert s + "" == s;
  }
}
