/** Python's `str.expandtabs()`: what it leaves alone, and which places of a text it keeps apart. */
module Tabs {
  import opened Prelude
  import opened Text
  import opened Search

  const TAB_SIZE: nat := 8

  function TabWidth(col: nat): (n: nat)
    ensures n > 0
  {
    TAB_SIZE - col % TAB_SIZE
  }

  function ExpandChar(c: char, col: nat): (r: string)
    ensures |r| > 0 && '\t' !in r
    ensures c != '\t' ==> r == [c]
    ensures '\n' in r ==> r == "\n" && c == '\n'
  {
    if c == '\t' then Spaces(TabWidth(col)) else [c]
  }

  function NextColumn(c: char, col: nat): nat {
    if c == '\t' then col + TabWidth(col) else if c == '\n' || c == '\r' then 0 else col + 1
  }

  function Expand(s: string, col: nat): string {
    if s == "" then "" else ExpandChar(s[0], col) + Expand(s[1..], NextColumn(s[0], col))
  }

  function Column(s: string, col: nat): nat {
    if s == "" then col else Column(s[1..], NextColumn(s[0], col))
  }

  function ExpandTabs(s: string): string {
    Expand(s, 0)
  }

  lemma {:induction false} ExpandConcat(a: string, b: string, col: nat)
    ensures Expand(a + b, col) == Expand(a, col) + Expand(b, Column(a, col))
  {
    if a == "" {
      assert a + b == b;
    } else {
      var next := NextColumn(a[0], col);
      ExpandConcat(a[1..], b, next);
      assert (a + b)[1..] == a[1..] + b;
      Regroup(ExpandChar(a[0], col), Expand(a[1..], next), Expand(b, Column(a, col)));
    }
  }

  lemma {:induction false} NoTabLeft(s: string, col: nat)
    ensures '\t' !in Expand(s, col) && |Expand(s, col)| >= |s|
  {
    if s != "" {
      NoTabLeft(s[1..], NextColumn(s[0], col));
    }
  }

  /** A text is kept exactly if it has no tab. */
  lemma {:induction false} KeptIff(s: string, col: nat)
    ensures Expand(s, col) == s <==> '\t' !in s
  {
    NoTabLeft(s, col);
    if '\t' !in s {
      Kept(s, col);
    }
  }

  lemma {:induction false} Kept(s: string, col: nat)
    requires '\t' !in s
    ensures Expand(s, col) == s
  {
    if s != "" {
      Kept(s[1..], NextColumn(s[0], col));
      assert s == [s[0]] + s[1..];
    }
  }

  /** In a line, the column is what the expansion takes. */
  lemma {:induction false} ColumnOf(a: string, col: nat)
    requires '\n' !in a && '\r' !in a
    ensures Column(a, col) == col + |Expand(a, col)|
  {
    if a != "" {
      ColumnOf(a[1..], NextColumn(a[0], col));
    }
  }

  /** A tab goes on to the next multiple of eight. */
  lemma TabStop(a: string)
    requires '\n' !in a && '\r' !in a
    ensures ExpandTabs(a + "\t") == ExpandTabs(a) + Spaces(8 - |ExpandTabs(a)| % 8)
    ensures |ExpandTabs(a + "\t")| % 8 == 0
  {
    ExpandConcat(a, "\t", 0);
    ColumnOf(a, 0);
    assert Expand("\t", Column(a, 0)) == ExpandChar('\t', Column(a, 0)) + Expand("", Column(a, 0) + 8);
  }

  /** Any other character is kept. */
  lemma OtherKept(a: string, c: char)
    requires c != '\t'
    ensures ExpandTabs(a + [c]) == ExpandTabs(a) + [c]
  {
    ExpandConcat(a, [c], 0);
    assert [c][1..] == "";
    assert Expand([c], Column(a, 0)) == [c] + Expand("", NextColumn(c, Column(a, 0)));
  }

  /** Behind a line break columns are counted anew, also behind a carriage return. */
  lemma LineRestarts(a: string, w: char, b: string)
    requires w == '\n' || w == '\r'
    ensures ExpandTabs(a + [w] + b) == ExpandTabs(a + [w]) + ExpandTabs(b)
  {
    ExpandConcat(a + [w], b, 0);
    ColumnConcat(a, [w], 0);
    assert [w][1..] == "";
  }

  lemma {:induction false} ColumnConcat(a: string, b: string, col: nat)
    ensures Column(a + b, col) == Column(b, Column(a, col))
  {
    if a == "" {
      assert a + b == b;
    } else {
      assert (a + b)[1..] == a[1..] + b;
      ColumnConcat(a[1..], b, NextColumn(a[0], col));
    }
  }

  // ---------- editing an expanded text ----------

  /** Replacing the expansion of `m` leaves the rest of the text as it was exactly if there is no tab in the rest. */
  lemma RestKeptIff(a: string, m: string, b: string, text: string)
    ensures
      var (f, p, e) := (ExpandTabs(a + m + b), |ExpandTabs(a)|, |ExpandTabs(a + m)|);
      && p <= e <= |f| && f[p..e] == ExpandTabs(a + m)[p..]
      && (f[..p] + text + f[e..] == a + text + b <==> '\t' !in a && '\t' !in b)
  {
    var (x, y, z) := (ExpandTabs(a), Expand(m, Column(a, 0)), Expand(b, Column(a + m, 0)));
    ExpandConcat(a, m, 0);
    ExpandConcat(a + m, b, 0);
    var f := ExpandTabs(a + m + b);
    assert f == x + y + z && f[..|x|] == x && f[|x + y|..] == z && f[|x|..|x + y|] == y;
    assert (x + y)[|x|..] == y;
    NoTabLeft(a, 0);
    NoTabLeft(b, Column(a + m, 0));
    KeptIff(a, 0);
    KeptIff(b, Column(a + m, 0));
    SameParts(x, z, a, b, text);
  }

  lemma SameParts(x: string, z: string, a: string, b: string, text: string)
    requires |x| >= |a| && |z| >= |b|
    ensures x + text + z == a + text + b <==> x == a && z == b
  {
    if x + text + z == a + text + b {
      assert |x| == |a| && |z| == |b|;
      assert x == (x + text + z)[..|x|] == a;
      assert z == (x + text + z)[|x + text|..] == b;
    }
  }

  /** Of the file itself, some part was replaced, whose expansion is that between `p` and `e`. */
  ghost predicate OnlyPartReplaced(s: string, p: nat, e: nat, text: string)
    requires p <= e <= |ExpandTabs(s)|
  {
    exists i: nat, j: nat :: i <= j <= |s| && PartReplaced(s, p, e, text, i, j)
  }

  predicate PartReplaced(s: string, p: nat, e: nat, text: string, i: nat, j: nat)
    requires p <= e <= |ExpandTabs(s)| && i <= j <= |s|
  {
    var f := ExpandTabs(s);
    && |ExpandTabs(s[..i])| == p && |ExpandTabs(s[..j])| == e
    && f[..p] + text + f[e..] == s[..i] + text + s[j..]
  }

  /** There is no tab before and behind the part. */
  predicate NoTabBeside(s: string, p: nat, e: nat)
    requires p <= e <= |ExpandTabs(s)|
  {
    var rest := |ExpandTabs(s)| - e;
    p + rest <= |s| && '\t' !in s[..p] && '\t' !in s[|s| - rest..]
  }

  lemma PartKept(s: string, p: nat, e: nat, text: string, i: nat, j: nat)
    requires p <= e <= |ExpandTabs(s)| && i <= j <= |s|
    requires |ExpandTabs(s[..i])| == p && |ExpandTabs(s[..j])| == e
    ensures PartReplaced(s, p, e, text, i, j) <==> '\t' !in s[..i] && '\t' !in s[j..]
  {
    var (a, m, b) := (s[..i], s[i..j], s[j..]);
    assert a + m == s[..j] && a + m + b == s;
    RestKeptIff(a, m, b, text);
  }

  /** Without tabs, what is before or behind a place has the length of its expansion. */
  lemma Around(s: string, i: nat, j: nat)
    requires i <= j <= |s|
    ensures '\t' !in s[..i] ==> |ExpandTabs(s[..i])| == i
    ensures '\t' !in s[j..] ==> |ExpandTabs(s)| == |ExpandTabs(s[..j])| + (|s| - j)
  {
    KeptIff(s[..i], 0);
    assert s == s[..j] + s[j..];
    ExpandConcat(s[..j], s[j..], 0);
    KeptIff(s[j..], Column(s[..j], 0));
  }

  /** Replacing any part of the expanded text leaves all else as it was exactly if there is no tab beside that part. */
  lemma OnlyPartReplacedIff(s: string, p: nat, e: nat, text: string)
    requires p <= e <= |ExpandTabs(s)|
    ensures OnlyPartReplaced(s, p, e, text) <==> NoTabBeside(s, p, e)
  {
    if OnlyPartReplaced(s, p, e, text) {
      var i: nat, j: nat :| i <= j <= |s| && PartReplaced(s, p, e, text, i, j);
      PartKept(s, p, e, text, i, j);
      Around(s, i, j);
    }
    if NoTabBeside(s, p, e) {
      var (i, j) := (p, |s| - (|ExpandTabs(s)| - e));
      Around(s, i, j);
      PartKept(s, p, e, text, i, j);
    }
  }

  // ---------- lines stay lines ----------

  lemma FirstPart(s: string, col: nat, e: nat)
    requires s != ""
    ensures e < |ExpandChar(s[0], col)| ==> Expand(s, col)[e] == ExpandChar(s[0], col)[e]
  {
  }

  /** An offset before a line break of the expanded text, or at its end, is that of an offset of the text. */
  lemma {:induction false} BeforeBreak(s: string, col: nat, e: nat) returns (i: nat)
    requires e <= |Expand(s, col)| && (e < |Expand(s, col)| ==> Expand(s, col)[e] == '\n')
    ensures i <= |s| && |Expand(s[..i], col)| == e
    ensures e < |Expand(s, col)| ==> i < |s| && s[i] == '\n'
  {
    if e == 0 {
      i := 0;
      if s != "" {
        assert Expand(s, col)[0] == ExpandChar(s[0], col)[0] == '\n';
      }
    } else {
      var (first, next) := (ExpandChar(s[0], col), NextColumn(s[0], col));
      FirstPart(s, col, e);
      i := BeforeBreak(s[1..], next, e - |first|);
      i := i + 1;
      assert s[..i][1..] == s[1..][..i - 1];
    }
  }

  /** The same for an offset at the start of a line. */
  lemma BehindBreak(s: string, p: nat) returns (i: nat)
    requires p <= |ExpandTabs(s)| && AtLineStart(ExpandTabs(s), p)
    ensures i <= |s| && |ExpandTabs(s[..i])| == p
  {
    if p == 0 {
      i := 0;
    } else {
      i := BeforeBreak(s, 0, p - 1);
      assert s[..i + 1] == s[..i] + "\n";
      ExpandConcat(s[..i], "\n", 0);
      assert Expand("\n", Column(s[..i], 0)) == "\n" + Expand("", 0);
      i := i + 1;
    }
  }

  lemma PrefixGrows(s: string, j: nat, i: nat)
    requires i <= |s|
    ensures j <= i ==> |ExpandTabs(s[..j])| <= |ExpandTabs(s[..i])|
  {
    if j <= i {
      assert s[..i] == s[..j] + s[j..i];
      ExpandConcat(s[..j], s[j..i], 0);
    }
  }

  /** A whole line of the expanded text is the expansion of a part of the text. */
  lemma WholeLine(s: string, p: nat, e: nat) returns (a: string, m: string, b: string)
    requires p < e <= |ExpandTabs(s)| && AtLineStart(ExpandTabs(s), p)
    requires e < |ExpandTabs(s)| ==> ExpandTabs(s)[e] == '\n'
    ensures s == a + m + b && |ExpandTabs(a)| == p && |ExpandTabs(a + m)| == e
  {
    var i := BehindBreak(s, p);
    var j := BeforeBreak(s, 0, e);
    PrefixGrows(s, j, i);
    a, m, b := s[..i], s[i..j], s[j..];
    assert a + m == s[..j];
  }
}
