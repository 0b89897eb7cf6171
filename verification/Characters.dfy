/** Which characters are white space, which are letters, and what that makes of trimming and of fuzzy comparison. */
module Characters {
  import opened Text
  import opened Comparison

  const UPPER: string := "ABCDEFGHIJKLMNOPQRSTUVWXYZ"
  const LOWER: string := "abcdefghijklmnopqrstuvwxyz"

  /** The letters, one by one, and nothing else. */
  lemma LowerCharIs(c: char, k: nat)
    ensures k < 26 ==> LowerChar(UPPER[k]) == LOWER[k]
    ensures c !in UPPER ==> LowerChar(c) == c
  {
    if 'A' <= c <= 'Z' {
      var j := c as int - 'A' as int;
      assert UPPER[j] == c;
    }
  }

  /** White space, character by character. */
  lemma SpaceIs(c: char)
    ensures IsSpace(c) <==> c in " \t\n\U{0B}\U{0C}\r\U{1C}\U{1D}\U{1E}\U{1F}"
  {
    var spaces := " \t\n\U{0B}\U{0C}\r\U{1C}\U{1D}\U{1E}\U{1F}";
    if '\t' <= c <= '\r' {
      assert spaces[1 + (c as int - '\t' as int)] == c;
    }
    if '\U{1C}' <= c <= '\U{1F}' {
      assert spaces[6 + (c as int - '\U{1C}' as int)] == c;
    }
  }

  /** Stripping takes the blanks at both ends, and nothing else. */
  lemma StripIs(a: string, s: string, b: string)
    requires forall k :: 0 <= k < |a| ==> IsSpace(a[k])
    requires forall k :: 0 <= k < |b| ==> IsSpace(b[k])
    requires s != "" ==> !IsSpace(s[0]) && !IsSpace(s[|s| - 1])
    ensures Strip(a + s + b) == s
  {
    assert a + s + b == a + (s + b);
    LStripPad(a, s + b);
    if s == "" {
      LStripPad(b, "");
      assert s + b == b + "";
    } else {
      assert LStrip(s + b) == s + b;
      RStripPad(s, b);
    }
  }

  /** Of a character, nothing counts if it is white space or one of these, and else its lower case does. */
  lemma KeyIs(c: char)
    ensures NormalizeForComparison([c]) == if c in " \t\n\U{0B}\U{0C}\r\U{1C}\U{1D}\U{1E}\U{1F}\"'_=+,;" then ""
        else [LowerChar(c)]
  {
    NormalizedIsKey([c]);
    SpaceIs(c);
    assert [c][1..] == "";
  }
}
