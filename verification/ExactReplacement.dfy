/**
 The exact branches of `StringReplace.execute`. The search is done on texts whose tabs are expanded; the untargeted
 replacement then looks for the string as it was given, tabs and all.
 */
module ExactReplacement {
  import opened Search
  import opened ExactMatch
  import opened MatchMeaning
  import opened Replacement
  import opened Tabs
  import opened Text

  datatype Outcome =
    | SameStrings
    | NoExactMatch
    | SeveralMatches(matches: seq<Match>)
    | Edited(text: string, targeted: bool)

  function InContext(matches: seq<Match>, shown: (nat, nat) -> bool): seq<Match> {
    if matches == [] then [] else
      (if shown(matches[0].startLine, matches[0].endLine) then [matches[0]] else []) + InContext(matches[1..], shown)
  }

  /** There is one match in the context exactly if one is shown and no other. */
  lemma {:induction false} OneInContext(matches: seq<Match>, shown: (nat, nat) -> bool)
    ensures InContext(matches, shown) == [] <==>
            forall j :: 0 <= j < |matches| ==> !shown(matches[j].startLine, matches[j].endLine)
    ensures |InContext(matches, shown)| == 1 <==> exists k :: OnlyShown(matches, shown, k)
    ensures forall k :: OnlyShown(matches, shown, k) ==> InContext(matches, shown) == [matches[k]]
  {
    if matches != [] {
      var rest := matches[1..];
      OneInContext(rest, shown);
      forall k | OnlyShown(matches, shown, k)
        ensures |InContext(matches, shown)| == 1 && InContext(matches, shown) == [matches[k]]
      {
        if k == 0 {
          assert forall j :: 0 <= j < |rest| ==> rest[j] == matches[j + 1];
        } else {
          assert OnlyShown(rest, shown, k - 1);
        }
      }
      if |InContext(matches, shown)| == 1 {
        if shown(matches[0].startLine, matches[0].endLine) {
          assert InContext(rest, shown) == [];
          assert forall j :: 1 <= j < |matches| ==> matches[j] == rest[j - 1];
          assert OnlyShown(matches, shown, 0);
        } else {
          var k :| OnlyShown(rest, shown, k);
          assert forall j :: 1 <= j < |matches| ==> matches[j] == rest[j - 1];
          assert OnlyShown(matches, shown, k + 1);
        }
      }
      assert forall j :: 0 <= j < |rest| ==> rest[j] == matches[j + 1];
    }
  }

  /** The `k`th match is in the context, and no other. */
  ghost predicate OnlyShown(matches: seq<Match>, shown: (nat, nat) -> bool, k: int) {
    && 0 <= k < |matches| && shown(matches[k].startLine, matches[k].endLine)
    && forall j :: 0 <= j < |matches| && shown(matches[j].startLine, matches[j].endLine) ==> j == k
  }

  /** That is not so exactly if none is shown, or two are. */
  lemma NotOneShown(matches: seq<Match>, shown: (nat, nat) -> bool)
    requires matches != []
    ensures !(exists k :: OnlyShown(matches, shown, k)) <==>
              ((forall k :: 0 <= k < |matches| ==> !shown(matches[k].startLine, matches[k].endLine))
              || exists j, k :: 0 <= j < k < |matches| && shown(matches[j].startLine, matches[j].endLine)
                                && shown(matches[k].startLine, matches[k].endLine))
  {
    if k :| 0 <= k < |matches| && shown(matches[k].startLine, matches[k].endLine) && !OnlyShown(matches, shown, k) {
      var j :| 0 <= j < |matches| && shown(matches[j].startLine, matches[j].endLine) && j != k;
      var (a, b) := if j < k then (j, k) else (k, j);
      assert shown(matches[a].startLine, matches[a].endLine) && shown(matches[b].startLine, matches[b].endLine);
    }
  }

  lemma ReportsAreHits(s: string, pat: string)
    requires pat != ""
    ensures |Hits(s, pat, 0)| == |Reports(s, pat, 0)|
    ensures forall k :: 0 <= k < |Hits(s, pat, 0)| ==> Hits(s, pat, 0)[k] + |pat| <= |s|
  {
    HitsInside(s, pat, 0);
    forall k | 0 <= k < |Hits(s, pat, 0)| ensures Hits(s, pat, 0)[k] + |pat| <= |s| {
      HitsAreHits(s, pat, 0, k);
    }
  }

  lemma ExpandedEmpty(s: string)
    ensures ExpandTabs(s) == "" <==> s == ""
  {
    NoTabLeft(s, 0);
  }

  lemma InContextIff(matches: seq<Match>, shown: (nat, nat) -> bool)
    ensures |InContext(matches, shown)| == 1 <==> exists k :: OnlyShown(matches, shown, k)
    ensures |InContext(matches, shown)| <= |matches|
  {
    OneInContext(matches, shown);
    InContextFewer(matches, shown);
  }

  lemma {:induction false} InContextFewer(matches: seq<Match>, shown: (nat, nat) -> bool)
    ensures |InContext(matches, shown)| <= |matches|
  {
    if matches != [] {
      InContextFewer(matches[1..], shown);
    }
  }

  /** The match in the context is replaced. */
  method ReplaceShown(f: string, sought: string, given: string, reports: seq<Match>, inContextMatches: seq<Match>,
                      ghost shown: (nat, nat) -> bool)
    returns (text: string)
    requires sought != "" && reports == Reports(f, sought, 0)
    requires inContextMatches == InContext(reports, shown) && |inContextMatches| == 1
    ensures |Hits(f, sought, 0)| == |reports|
    ensures forall k :: OnlyShown(reports, shown, k) ==>
              var (p, e) := (Hits(f, sought, 0)[k], Hits(f, sought, 0)[k] + |sought|);
              e <= |f| && text == f[..p] + given + f[e..]
  {
    OneInContext(reports, shown);
    ReportsAreHits(f, sought);
    ghost var k :| OnlyShown(reports, shown, k);
    text := ReplaceTargeted(f, sought, given, inContextMatches[0].startLine, k);
  }

  /** Which branch is taken, and the text that it makes of the expanded file. */
  method ReplaceExact(file: string, oldArg: string, newArg: string, shown: (nat, nat) -> bool) returns (o: Outcome)
    requires ExpandTabs(oldArg) == ExpandTabs(newArg) || Searchable(ExpandTabs(file), ExpandTabs(oldArg))
    ensures
      var (f, sought, given) := (ExpandTabs(file), ExpandTabs(oldArg), ExpandTabs(newArg));
      && (o == SameStrings <==> sought == given)
      && (o == NoExactMatch <==> sought != given && AllReports(f, sought) == [])
      && (sought != given ==>
            var reports := AllReports(f, sought);
            && (o.SeveralMatches? <==> |reports| > 1 && !(exists k :: OnlyShown(reports, shown, k)))
            && (o.SeveralMatches? ==> o.matches == reports)
            && (o.Edited? && !o.targeted <==> |reports| == 1)
            && (o.Edited? && !o.targeted ==> oldArg != "" && o.text == ReplaceAll(f, oldArg, newArg))
            && (o.Edited? && o.targeted <==> |reports| > 1 && exists k :: OnlyShown(reports, shown, k))
            && (o.Edited? && o.targeted ==> sought != "" && |Hits(f, sought, 0)| == |reports|)
            && (o.Edited? && o.targeted ==> forall k :: OnlyShown(reports, shown, k) ==>
                  var (p, e) := (Hits(f, sought, 0)[k], Hits(f, sought, 0)[k] + |sought|);
                  e <= |f| && o.text == f[..p] + given + f[e..]))
  {
    var fileContent, oldStr, newStr := ExpandTabs(file), ExpandTabs(oldArg), ExpandTabs(newArg);
    if oldStr == newStr {
      return SameStrings;
    }
    ExpandedEmpty(oldArg);
    var exactMatches := FindExactMatches(oldStr, fileContent);
    var inContextMatches := InContext(exactMatches, shown);
    ghost var one := exists k :: OnlyShown(exactMatches, shown, k);
    InContextIff(exactMatches, shown);
    assert one <==> |inContextMatches| == 1;
    if |inContextMatches| == 1 && |exactMatches| > |inContextMatches| {
      var text := ReplaceShown(fileContent, oldStr, newStr, exactMatches, inContextMatches, shown);
      return Edited(text, true);
    }
    if |exactMatches| == 0 {
      return NoExactMatch;
    } else if |exactMatches| > 1 {
      return SeveralMatches(exactMatches);
    }
    o := Edited(ReplaceAll(fileContent, oldArg, newArg), false);
  }

  // ---------- the untargeted branch ----------

  lemma TabInside(s: string, pat: string, i: nat)
    ensures '\t' in pat && OccursAt(s, pat, i) ==> '\t' in s
  {
    if '\t' in pat && OccursAt(s, pat, i) {
      var k :| 0 <= k < |pat| && pat[k] == '\t';
      CharOf(s, pat, i, k);
    }
  }

  lemma {:induction false} NoOccurrence(s: string, pat: string, from: nat)
    requires '\t' in pat && '\t' !in s
    ensures Greedy(s, pat, from) == []
    decreases |s| - from
  {
    if from + |pat| <= |s| {
      TabInside(s, pat, from);
      NoOccurrence(s, pat, from + 1);
    }
  }

  /** A string with a tab is not in the expanded file: nothing is replaced. */
  lemma TabNotReplaced(s: string, pat: string, text: string)
    requires '\t' in pat && '\t' !in s
    ensures ReplaceAll(s, pat, text) == s
  {
    NoOccurrence(s, pat, 0);
    assert s[0..] == s;
  }

  lemma SpliceShows(s: string, p: nat, n: nat, text: string)
    requires p + n <= |s|
    ensures |Splice(s, p, n, text)| == |s| - n + |text|
    ensures |text| == n ==> Splice(s, p, n, text)[p..p + n] == text
  {
  }

  /** An edit that makes a difference does. */
  lemma SpliceChanges(s: string, p: nat, pat: string, text: string)
    requires OccursAt(s, pat, p) && text != pat
    ensures Splice(s, p, |pat|, text) != s
  {
    SpliceShows(s, p, |pat|, text);
  }

  /**
   The untargeted branch does what it reports exactly if the old string is given without tabs and occurs once in
   the expanded file.
   */
  lemma UntargetedIff(file: string, oldArg: string, newArg: string, k: nat)
    requires ExpandTabs(oldArg) != ExpandTabs(newArg) && oldArg != "" && ExpandTabs(oldArg) != ""
    requires k < |Hits(ExpandTabs(file), ExpandTabs(oldArg), 0)|
    ensures
      var (f, sought) := (ExpandTabs(file), ExpandTabs(oldArg));
      && OccursAt(f, sought, Hits(f, sought, 0)[k])
      && (ReplaceAll(f, oldArg, newArg) == Splice(f, Hits(f, sought, 0)[k], |sought|, newArg)
          <==> '\t' !in oldArg && |Greedy(f, sought, 0)| == 1)
  {
    var (f, sought) := (ExpandTabs(file), ExpandTabs(oldArg));
    NoTabLeft(file, 0);
    NoTabLeft(oldArg, 0);
    HitsAreHits(f, sought, 0, k);
    KeptIff(oldArg, 0);
    if '\t' in oldArg {
      TabNotReplaced(f, oldArg, newArg);
      KeptIff(newArg, 0);
      SpliceChanges(f, Hits(f, sought, 0)[k], sought, newArg);
    } else {
      GlobalIsTargetedIff(f, oldArg, newArg, k);
    }
  }

  /** A line that starts with a tab is reported as edited, and is not. */
  lemma TabbedLineNotEdited()
    ensures
      var f := ExpandTabs("\tx");
      && Reports(f, f, 0) == [Match(1, 1, f)] && ReplaceAll(f, "\tx", "y") == f
  {
    var f := ExpandTabs("\tx");
    assert "\tx"[1..] == "x" && "x"[1..] == "";
    assert f == ExpandChar('\t', 0) + ExpandChar('x', 8);
    NoTabLeft("\tx", 0);
    TabNotReplaced(f, "\tx", "y");
    assert forall i :: 0 <= i < |f| ==> f[i] != '\n';
    OneLineReport(f);
  }

  lemma OneLineReport(f: string)
    requires f != "" && '\n' !in f
    ensures Reports(f, f, 0) == [Match(1, 1, f)]
  {
    SplitFree(f);
    SingleLineMatches(f, f);
    assert [f][1..] == [];
    assert LineNumbers([f], f, 1) == [1];
  }

  lemma SplitFree(f: string)
    requires '\n' !in f
    ensures Split(f) == [f]
  {
    LineLengthFree(f, "");
    assert f + "" == f;
  }

  // ---------- the rest of the file ----------

  /**
   Replacing a match leaves the rest of the file alone exactly if there is no tab before and behind it: the text
   written back is the expanded one.
   */
  lemma RestOfFileKeptIff(file: string, oldArg: string, text: string, k: nat)
    requires ExpandTabs(oldArg) != "" && k < |Hits(ExpandTabs(file), ExpandTabs(oldArg), 0)|
    ensures
      var (f, sought) := (ExpandTabs(file), ExpandTabs(oldArg));
      var p := Hits(f, sought, 0)[k];
      var e := p + |sought|;
      && e <= |f| && Splice(f, p, |sought|, text) == f[..p] + text + f[e..]
      && (OnlyPartReplaced(file, p, e, text) <==> NoTabBeside(file, p, e))
  {
    var (f, sought) := (ExpandTabs(file), ExpandTabs(oldArg));
    var p := Hits(f, sought, 0)[k];
    ReportsAreHits(f, sought);
    OnlyPartReplacedIff(file, p, p + |sought|, text);
  }

  /**
   A match of one line is the expansion of a part of the file, and nothing but it is replaced if there is no other
   tab.
   */
  lemma LineKeptIff(file: string, oldArg: string, text: string, k: nat) returns (a: string, m: string, b: string)
    requires ExpandTabs(oldArg) != "" && '\n' !in ExpandTabs(oldArg)
    requires k < |Hits(ExpandTabs(file), ExpandTabs(oldArg), 0)|
    ensures
      var (f, sought) := (ExpandTabs(file), ExpandTabs(oldArg));
      var p := Hits(f, sought, 0)[k];
      && file == a + m + b && p + |sought| <= |f|
      && |ExpandTabs(a)| == p && ExpandTabs(a + m) == f[..p] + sought
      && (Splice(f, p, |sought|, text) == a + text + b <==> '\t' !in a && '\t' !in b)
  {
    var (f, sought) := (ExpandTabs(file), ExpandTabs(oldArg));
    var p := Hits(f, sought, 0)[k];
    HitsAreHits(f, sought, 0, k);
    FirstOfOneLine(f, sought, p);
    a, m, b := KeptAround(file, sought, text, p);
  }

  lemma KeptAround(file: string, sought: string, text: string, p: nat) returns (a: string, m: string, b: string)
    requires sought != "" && OccursAt(ExpandTabs(file), sought, p)
    requires LineStart(ExpandTabs(file), p) == p && FullLine(ExpandTabs(file), p) == sought
    ensures
      var f := ExpandTabs(file);
      && file == a + m + b && |ExpandTabs(a)| == p && ExpandTabs(a + m) == f[..p] + sought
      && (Splice(f, p, |sought|, text) == a + text + b <==> '\t' !in a && '\t' !in b)
  {
    LineOfMatch(ExpandTabs(file), sought, p);
    a, m, b := WholeLine(file, p, p + |sought|);
    RestKeptIff(a, m, b, text);
    ExpandedFront(a + m, b, p, sought);
  }

  lemma ExpandedFront(front: string, rest: string, p: nat, pat: string)
    requires |ExpandTabs(front)| == p + |pat| && OccursAt(ExpandTabs(front + rest), pat, p)
    ensures ExpandTabs(front) == ExpandTabs(front + rest)[..p] + pat
  {
    var f := ExpandTabs(front + rest);
    ExpandConcat(front, rest, 0);
    assert f[..p + |pat|] == f[..p] + pat;
  }

  lemma LineOfMatch(f: string, pat: string, p: nat)
    requires OccursAt(f, pat, p) && LineStart(f, p) == p && FullLine(f, p) == pat
    ensures AtLineStart(f, p) && LineEnd(f, p) == p + |pat|
    ensures p + |pat| < |f| ==> f[p + |pat|] == '\n'
  {
    assert f[p..][LineLength(f[p..])..] == f[p + LineLength(f[p..])..];
  }

  lemma TabBehind()
    ensures ExpandTabs("x\n\ty") == "x\n        y"
  {
    var s := "x\n\ty";
    assert s[1..] == "\n\ty" && s[1..][1..] == "\ty" && "\ty"[1..] == "y" && "y"[1..] == "";
    assert Expand("", 9) == "" && Expand("y", 8) == "y" + "";
    assert Expand("\ty", 0) == Spaces(8) + "y" && Spaces(8) == "        ";
    assert "        " + "y" == "        y";
    assert Expand("\n\ty", 1) == "\n" + "        y";
  }

  lemma FirstForZ(f: string)
    requires f == "x\n        y"
    ensures f[..0] + "z" + f[1..] == "z\n        y"
  {
    assert f[1..] == "\n        y";
  }

  /** Editing the first line rewrites the tab in the second one. */
  lemma OtherLineRewritten()
    ensures
      var f := ExpandTabs("x\n\ty");
      && Hits(f, "x", 0) == [0] && ReplaceAll(f, "x", "z") == "z\n        y"
      && !OnlyPartReplaced("x\n\ty", 0, 1, "z")
  {
    var f := ExpandTabs("x\n\ty");
    TabBehind();
    OnlyX(f);
    ReplaceOnly(f, 0, 1, "z");
    FirstForZ(f);
    OnlyPartReplacedIff("x\n\ty", 0, 1, "z");
    assert "x\n\ty"[2] == '\t';
  }

  lemma OnlyX(f: string)
    requires |f| > 1 && f[0] == 'x' && f[1] == '\n' && forall i :: 0 < i < |f| ==> f[i] != 'x'
    ensures Hits(f, "x", 0) == [0] && Greedy(f, "x", 0) == [0]
  {
    NoX(f, 1);
    assert f[0..1] == "x" && AtLineStart(f, 0);
    assert f[0..][1..] == f[1..] && LineLength(f[0..]) == 1;
    LineIsAccepted(f, "x", 0, 1);
  }

  lemma {:induction false} NoX(f: string, from: nat)
    requires 0 < from <= |f| && forall i :: 0 < i < |f| ==> f[i] != 'x'
    ensures Hits(f, "x", from) == [] && Greedy(f, "x", from) == []
    decreases |f| - from
  {
    if from < |f| {
      if OccursAt(f, "x", from) {
        CharOf(f, "x", from, 0);
      }
      NoX(f, from + 1);
    }
  }

  /** Whatever is replaced, the file is written back without tabs; without tabs in it, it is the file. */
  lemma FileKeptIff(file: string)
    ensures ExpandTabs(file) == file <==> '\t' !in file
  {
    KeptIff(file, 0);
  }
}
