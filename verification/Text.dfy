/**
 Python strings as the source uses them: `splitlines`, `join`, `strip` and `find`.
 The only line break is '\n'.
 */
module Text {

  // ---------- characters ----------

  /** Lower case, for ASCII. */
  function LowerChar(c: char): char {
    if 'A' <= c <= 'Z' then ((c as int) + 32) as char else c
  }

  predicate IsSpace(c: char) {
    c == ' ' || '\t' <= c <= '\r' || '\U{1C}' <= c <= '\U{1F}'
  }

  function Spaces(n: nat): (r: string)
    ensures |r| == n && forall k :: 0 <= k < n ==> r[k] == ' '
  {
    seq(n, _ => ' ')
  }

  function LStrip(s: string): string {
    if s != "" && IsSpace(s[0]) then LStrip(s[1..]) else s
  }

  function RStrip(s: string): string {
    if s != "" && IsSpace(s[|s| - 1]) then RStrip(s[..|s| - 1]) else s
  }

  function Strip(s: string): string {
    RStrip(LStrip(s))
  }

  lemma {:induction false} LStripPad(a: string, s: string)
    requires forall k :: 0 <= k < |a| ==> IsSpace(a[k])
    ensures LStrip(a + s) == LStrip(s)
  {
    if a == "" {
      assert a + s == s;
    } else {
      assert (a + s)[1..] == a[1..] + s;
      LStripPad(a[1..], s);
    }
  }

  lemma {:induction false} RStripPad(s: string, b: string)
    requires forall k :: 0 <= k < |b| ==> IsSpace(b[k])
    ensures RStrip(s + b) == RStrip(s)
    decreases |b|
  {
    if b == "" {
      assert s + b == s;
    } else {
      assert (s + b)[..|s + b| - 1] == s + b[..|b| - 1];
      RStripPad(s, b[..|b| - 1]);
    }
  }

  lemma {:induction false} LStripShape(s: string)
    ensures |LStrip(s)| <= |s| && LStrip(s) == s[|s| - |LStrip(s)|..]
    ensures LStrip(s) != "" ==> !IsSpace(LStrip(s)[0])
    ensures LStrip(s) == "" ==> forall k :: 0 <= k < |s| ==> IsSpace(s[k])
  {
    if s != "" && IsSpace(s[0]) {
      LStripShape(s[1..]);
    }
  }

  lemma {:induction false} RStripShape(s: string)
    ensures |RStrip(s)| <= |s| && RStrip(s) == s[..|RStrip(s)|]
    ensures RStrip(s) != "" ==> !IsSpace(RStrip(s)[|RStrip(s)| - 1])
  {
    if s != "" && IsSpace(s[|s| - 1]) {
      RStripShape(s[..|s| - 1]);
    }
  }

  // ---------- lines ----------

  /** The length of the first line of `s`, its line break included. */
  function FirstLine(s: string): (n: nat)
    requires s != ""
    ensures 0 < n <= |s|
    ensures forall k :: 0 <= k < n - 1 ==> s[k] != '\n'
    ensures s[n - 1] == '\n' || n == |s|
  {
    if s[0] == '\n' || |s| == 1 then 1 else 1 + FirstLine(s[1..])
  }

  /** `s.splitlines(keepends=True)` */
  function SplitKeep(s: string): (lines: seq<string>)
    ensures s == "" <==> lines == []
  {
    if s == "" then [] else [s[..FirstLine(s)]] + SplitKeep(s[FirstLine(s)..])
  }

  /** Ends in a line break. */
  predicate Ended(s: string) {
    s != "" && s[|s| - 1] == '\n'
  }

  /** One line, with or without its line break. */
  predicate IsLine(s: string) {
    s != "" && forall k :: 0 <= k < |s| - 1 ==> s[k] != '\n'
  }

  /** The line without its line break. */
  function Body(line: string): string {
    if Ended(line) then line[..|line| - 1] else line
  }

  function Bodies(lines: seq<string>): (r: seq<string>)
    ensures |r| == |lines|
    ensures forall k :: 0 <= k < |r| ==> r[k] == Body(lines[k])
  {
    seq(|lines|, k requires 0 <= k < |lines| => Body(lines[k]))
  }

  /** `s.splitlines()` */
  function Lines(s: string): seq<string> {
    Bodies(SplitKeep(s))
  }

  /** Empty, or every line closed by a line break. */
  predicate Terminated(s: string) {
    s == "" || Ended(s)
  }

  /** `"".join(parts)` */
  function Concat(parts: seq<string>): string {
    if parts == [] then "" else parts[0] + Concat(parts[1..])
  }

  /** `"\n".join(lines)` */
  function Join(lines: seq<string>): string {
    if lines == [] then "" else if |lines| == 1 then lines[0] else lines[0] + "\n" + Join(lines[1..])
  }

  /** Only the last line of a text can lack its line break. */
  ghost predicate WellSplit(lines: seq<string>) {
    && (forall k :: 0 <= k < |lines| ==> IsLine(lines[k]))
    && (forall k :: 0 <= k < |lines| - 1 ==> Ended(lines[k]))
  }

  lemma WellSplitCons(line: string, lines: seq<string>)
    requires IsLine(line) && WellSplit(lines) && (lines != [] ==> Ended(line))
    ensures WellSplit([line] + lines)
  {
  }

  lemma {:induction false} SplitKeepLines(s: string)
    ensures WellSplit(SplitKeep(s))
    ensures s != "" ==> Ended(SplitKeep(s)[|SplitKeep(s)| - 1]) == Ended(s)
  {
    if s != "" {
      var (n, rest) := (FirstLine(s), s[FirstLine(s)..]);
      SplitKeepLines(rest);
      WellSplitCons(s[..n], SplitKeep(rest));
      if rest == "" {
        assert s[..n] == s;
        assert SplitKeep(s) == [s];
      } else {
        assert Ended(rest) == Ended(s);
        assert SplitKeep(s)[|SplitKeep(s)| - 1] == SplitKeep(rest)[|SplitKeep(rest)| - 1];
      }
    }
  }

  lemma ConcatCons(part: string, parts: seq<string>)
    ensures Concat([part] + parts) == part + Concat(parts)
  {
    assert ([part] + parts)[1..] == parts;
  }

  lemma {:induction false} ConcatSplit(s: string)
    ensures Concat(SplitKeep(s)) == s
  {
    if s != "" {
      var n := FirstLine(s);
      ConcatSplit(s[n..]);
      ConcatCons(s[..n], SplitKeep(s[n..]));
      assert s[..n] + s[n..] == s;
    }
  }

  ghost predicate BreakFree(lines: seq<string>) {
    forall k :: 0 <= k < |lines| ==> '\n' !in lines[k]
  }

  lemma LinesBreakFree(s: string)
    ensures BreakFree(Lines(s))
  {
    SplitKeepLines(s);
  }

  /** A line is the first line of any text that it starts, if it is closed or all of it. */
  lemma {:induction false} FirstLineOf(line: string, rest: string)
    requires IsLine(line) && (rest == "" || Ended(line))
    ensures FirstLine(line + rest) == |line|
  {
    if |line| > 1 {
      FirstLineOf(line[1..], rest);
      assert (line + rest)[1..] == line[1..] + rest;
    }
  }

  /** Splitting undoes putting lines together. */
  lemma {:induction false} SplitConcat(lines: seq<string>)
    requires WellSplit(lines)
    ensures SplitKeep(Concat(lines)) == lines
  {
    if lines != [] {
      var (line, rest) := (lines[0], Concat(lines[1..]));
      SplitConcat(lines[1..]);
      FirstLineOf(line, rest);
      assert (line + rest)[..|line|] == line && (line + rest)[|line|..] == rest;
      assert lines == [line] + lines[1..];
    }
  }

  lemma {:induction false} FirstLineFree(a: string, b: string)
    requires '\n' !in a
    ensures FirstLine(a + "\n" + b) == |a| + 1
  {
    var s := a + "\n" + b;
    if a != "" {
      FirstLineFree(a[1..], b);
      assert s[1..] == a[1..] + "\n" + b;
    }
  }

  lemma LinesCons(a: string, b: string)
    requires '\n' !in a
    ensures Lines(a + "\n" + b) == [a] + Lines(b)
  {
    var s := a + "\n" + b;
    FirstLineFree(a, b);
    assert s[..|a| + 1] == a + "\n" && s[|a| + 1..] == b;
    BodiesCons(a + "\n", SplitKeep(b));
    assert Body(a + "\n") == a;
  }

  lemma BodiesCons(line: string, lines: seq<string>)
    ensures Bodies([line] + lines) == [Body(line)] + Bodies(lines)
  {
  }
}
