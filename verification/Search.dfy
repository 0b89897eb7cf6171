/** Python's `str.find`, `str.count` for line breaks, and `str.split("\n")`. */
module Search {

  predicate OccursAt(s: string, pat: string, i: int) {
    0 <= i && i + |pat| <= |s| && s[i..i + |pat|] == pat
  }

  lemma CharOf(s: string, pat: string, i: int, k: nat)
    requires OccursAt(s, pat, i) && k < |pat|
    ensures s[i + k] == pat[k]
  {
    assert s[i + k] == s[i..i + |pat|][k];
  }

  /** `s.find(pat, from)` */
  function Find(s: string, pat: string, from: nat): (r: int)
    ensures r == -1 || (from <= r && OccursAt(s, pat, r))
    decreases |s| - from
  {
    if from + |pat| > |s| then -1
    else if s[from..from + |pat|] == pat then from
    else Find(s, pat, from + 1)
  }

  lemma {:induction false} FindIsFirst(s: string, pat: string, from: nat, i: int)
    requires from <= i && OccursAt(s, pat, i)
    ensures from <= Find(s, pat, from) <= i
    decreases i - from
  {
    if !OccursAt(s, pat, from) {
      FindIsFirst(s, pat, from + 1, i);
    }
  }

  /** The first occurrence is what `Find` finds. */
  lemma FindIs(s: string, pat: string, from: nat, i: int)
    requires from <= i && OccursAt(s, pat, i)
    requires forall k :: from <= k < i ==> !OccursAt(s, pat, k)
    ensures Find(s, pat, from) == i
  {
    FindIsFirst(s, pat, from, i);
  }

  /** `s.count("\n")` */
  function Newlines(s: string): nat {
    if s == "" then 0 else (if s[0] == '\n' then 1 else 0) + Newlines(s[1..])
  }

  lemma {:induction false} NewlinesConcat(a: string, b: string)
    ensures Newlines(a + b) == Newlines(a) + Newlines(b)
  {
    if a == "" {
      assert a + b == b;
    } else {
      NewlinesConcat(a[1..], b);
      assert (a + b)[1..] == a[1..] + b;
    }
  }

  lemma {:induction false} NoNewlines(s: string)
    requires '\n' !in s
    ensures Newlines(s) == 0
  {
    if s != "" {
      NoNewlines(s[1..]);
    }
  }

  lemma {:induction false} SomeNewlines(s: string, k: nat)
    requires k < |s| && s[k] == '\n'
    ensures Newlines(s) > 0
  {
    if k > 0 {
      SomeNewlines(s[1..], k - 1);
    }
  }

  /** The number of characters before the first line break, or all. */
  function LineLength(s: string): (n: nat)
    ensures n <= |s| && (n < |s| ==> s[n] == '\n')
  {
    if s == "" || s[0] == '\n' then 0 else 1 + LineLength(s[1..])
  }

  lemma {:induction false} LineLengthFirst(s: string)
    ensures '\n' !in s[..LineLength(s)]
  {
    if s != "" && s[0] != '\n' {
      LineLengthFirst(s[1..]);
      assert s[..LineLength(s)] == [s[0]] + s[1..][..LineLength(s[1..])];
    }
  }

  lemma {:induction false} LineLengthFree(a: string, b: string)
    requires '\n' !in a && (b == "" || b[0] == '\n')
    ensures LineLength(a + b) == |a|
  {
    if a == "" {
      assert a + b == b;
    } else {
      LineLengthFree(a[1..], b);
      assert (a + b)[1..] == a[1..] + b;
    }
  }

  /** `s.split("\n")` */
  function Split(s: string): (lines: seq<string>)
    ensures lines != []
  {
    var n := LineLength(s);
    if n == |s| then [s] else [s[..n]] + Split(s[n + 1..])
  }

  /** A line starts at `p`. */
  predicate AtLineStart(s: string, p: nat)
    requires p <= |s|
  {
    p == 0 || s[p - 1] == '\n'
  }

  /** `s.rfind("\n", 0, p) + 1` */
  function LineStart(s: string, p: nat): (r: nat)
    requires p <= |s|
    ensures r <= p && AtLineStart(s, r)
  {
    if AtLineStart(s, p) then p else LineStart(s, p - 1)
  }

  lemma {:induction false} LineStartLast(s: string, p: nat)
    requires p <= |s|
    ensures '\n' !in s[LineStart(s, p)..p]
  {
    if !AtLineStart(s, p) {
      LineStartLast(s, p - 1);
      assert s[LineStart(s, p)..p] == s[LineStart(s, p)..p - 1] + [s[p - 1]];
    }
  }

  /** `s.find("\n", p)`, or the end. */
  function LineEnd(s: string, p: nat): (e: nat)
    requires p <= |s|
    ensures p <= e <= |s|
  {
    p + LineLength(s[p..])
  }

  lemma {:induction false} LineStartIs(s: string, i: nat, p: nat)
    requires i <= p <= |s| && AtLineStart(s, i) && '\n' !in s[i..p]
    ensures LineStart(s, p) == i
  {
    if i < p {
      assert s[i..p][p - 1 - i] == s[p - 1];
      assert s[i..p - 1] == s[i..p][..p - 1 - i];
      LineStartIs(s, i, p - 1);
    }
  }

  lemma SplitFirst(s: string, i: nat, e: nat)
    requires i <= |s| && e == i + LineLength(s[i..])
    ensures '\n' !in s[i..e]
    ensures Split(s[i..]) == if e < |s| then [s[i..e]] + Split(s[e + 1..]) else [s[i..e]]
  {
    LineLengthFirst(s[i..]);
    assert s[i..][..e - i] == s[i..e];
    if e < |s| {
      assert s[i..][e - i + 1..] == s[e + 1..];
    } else {
      assert s[i..] == s[i..e];
    }
  }
}
