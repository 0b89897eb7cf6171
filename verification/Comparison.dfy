/**
 What fuzzy matching compares (`normalize_for_comparison`): texts without blanks and some punctuation, in lower case.
 */
module Comparison {
  import opened Prelude
  import opened Text

  predicate Ignored(c: char) {
    IsSpace(c) || c in "\"'_=+,;"
  }

  /** What of a text counts, in lower case. */
  function Key(s: string): string {
    if s == "" then "" else KeyOf(s[0]) + Key(s[1..])
  }

  /** The lines that are not blank, trimmed. */
  function Trimmed(lines: seq<string>): seq<string> {
    if lines == [] then [] else (if Strip(lines[0]) == "" then [] else [Strip(lines[0])]) + Trimmed(lines[1..])
  }

  function Lower(s: string): string {
    if s == "" then "" else [LowerChar(s[0])] + Lower(s[1..])
  }

  /** The text without some characters. */
  function Without(s: string, dropped: char -> bool): string {
    if s == "" then "" else (if dropped(s[0]) then "" else [s[0]]) + Without(s[1..], dropped)
  }

  /** `normalize_for_comparison`, step by step. */
  function NormalizeForComparison(s: string): string {
    Without(Without(Lower(Join(Trimmed(Lines(s)))), IsSpace), Ignored)
  }

  /** What counts of one character. */
  function KeyOf(c: char): string {
    if Ignored(c) then "" else [LowerChar(c)]
  }

  lemma KeyCons(c: char, rest: string)
    ensures Key([c] + rest) == KeyOf(c) + Key(rest)
  {
    assert ([c] + rest)[1..] == rest;
  }

  lemma {:induction false} KeyConcat(a: string, b: string)
    ensures Key(a + b) == Key(a) + Key(b)
  {
    if a == "" {
      assert a + b == b;
    } else {
      KeyConcat(a[1..], b);
      KeyCons(a[0], a[1..] + b);
      assert [a[0]] + (a[1..] + b) == a + b;
      Regroup(KeyOf(a[0]), Key(a[1..]), Key(b));
    }
  }

  lemma {:induction false} BlankKey(s: string)
    requires forall k :: 0 <= k < |s| ==> IsSpace(s[k])
    ensures Key(s) == ""
  {
    if s != "" {
      BlankKey(s[1..]);
    }
  }

  lemma {:induction false} LStripKey(s: string)
    ensures Key(LStrip(s)) == Key(s)
  {
    if s != "" && IsSpace(s[0]) {
      LStripKey(s[1..]);
    }
  }

  lemma {:induction false} RStripKey(s: string)
    ensures Key(RStrip(s)) == Key(s)
    decreases |s|
  {
    if s != "" && IsSpace(s[|s| - 1]) {
      RStripKey(s[..|s| - 1]);
      assert s == s[..|s| - 1] + [s[|s| - 1]];
      KeyConcat(s[..|s| - 1], [s[|s| - 1]]);
      BlankKey([s[|s| - 1]]);
    }
  }

  lemma StripKey(s: string)
    ensures Key(Strip(s)) == Key(s)
  {
    LStripKey(s);
    RStripKey(LStrip(s));
  }

  function Keys(lines: seq<string>): string {
    if lines == [] then "" else Key(lines[0]) + Keys(lines[1..])
  }

  lemma {:induction false} JoinKey(lines: seq<string>)
    ensures Key(Join(lines)) == Keys(lines)
  {
    if |lines| > 1 {
      JoinKey(lines[1..]);
      KeyConcat(lines[0] + "\n", Join(lines[1..]));
      KeyConcat(lines[0], "\n");
      BlankKey("\n");
    } else if |lines| == 1 {
      assert Keys(lines[1..]) == "";
    }
  }

  lemma {:induction false} TrimmedKeys(lines: seq<string>)
    ensures Keys(Trimmed(lines)) == Keys(lines)
  {
    if lines != [] {
      TrimmedKeys(lines[1..]);
      StripKey(lines[0]);
      if Strip(lines[0]) != "" {
        assert ([Strip(lines[0])] + Trimmed(lines[1..]))[1..] == Trimmed(lines[1..]);
      } else {
        assert "" + Keys(lines[1..]) == Keys(lines[1..]) && [] + Trimmed(lines[1..]) == Trimmed(lines[1..]);
      }
    }
  }

  lemma BodyKey(line: string)
    ensures Key(Body(line)) == Key(line)
  {
    if Ended(line) {
      assert line == Body(line) + "\n";
      KeyConcat(Body(line), "\n");
      BlankKey("\n");
    }
  }

  lemma {:induction false} BodiesKey(parts: seq<string>)
    ensures Keys(Bodies(parts)) == Key(Concat(parts))
  {
    if parts != [] {
      BodiesKey(parts[1..]);
      BodyKey(parts[0]);
      KeyConcat(parts[0], Concat(parts[1..]));
      assert Bodies(parts)[1..] == Bodies(parts[1..]);
    }
  }

  /** What is left once, in lower case, blanks and then all ignored characters are dropped. */
  lemma {:induction false} WithoutIsKey(s: string)
    ensures Without(Without(Lower(s), IsSpace), Ignored) == Key(s)
  {
    if s != "" {
      WithoutIsKey(s[1..]);
      WithoutCons(LowerChar(s[0]), Lower(s[1..]));
    }
  }

  lemma WithoutCons(c: char, rest: string)
    ensures Without(Without([c] + rest, IsSpace), Ignored)
         == (if Ignored(c) then "" else [c]) + Without(Without(rest, IsSpace), Ignored)
  {
    var once := Without(rest, IsSpace);
    assert ([c] + rest)[1..] == rest && "" + once == once;
    assert "" + Without(once, Ignored) == Without(once, Ignored);
    if !IsSpace(c) {
      assert ([c] + once)[1..] == once;
    }
  }

  /** Trimming the lines first and dropping blank ones removes only what is ignored anyway. */
  lemma NormalizedIsKey(s: string)
    ensures NormalizeForComparison(s) == Key(s)
  {
    WithoutIsKey(Join(Trimmed(Lines(s))));
    JoinKey(Trimmed(Lines(s)));
    TrimmedKeys(Lines(s));
    BodiesKey(SplitKeep(s));
    ConcatSplit(s);
  }
}
