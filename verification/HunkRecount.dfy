/**
 Correcting the counts in hunk headers in one pass over the lines of a diff, by going back to the
 last header when its hunk ends (`ContextFile._process_diff_for_unidiff`).
 */
module HunkRecount {
  import opened Prelude
  import HunkReplay
  import PatchRoundTrip

  /** A well-formed `@@ -oldStart,oldCount +newStart,newCount rest` line, or any other line. */
  datatype DiffLine =
    | Header(oldStart: nat, oldCount: Option<nat>, newStart: nat, newCount: Option<nat>, rest: seq<string>)
    | Text(s: string)

  /** What a line adds to the old and the new count; a `\` line is a remark. */
  function Weight(line: DiffLine): (nat, nat) {
    match line
    case Header(_, _, _, _, _) => (0, 0)
    case Text(s) =>
      if s != "" && s[0] == '+' then (0, 1)
      else if s != "" && s[0] == '-' then (1, 0)
      else if s != "" && s[0] == '\\' then (0, 0)
      else (1, 1)
  }

  /** The counts of the lines up to the next header. */
  function Tally(lines: seq<DiffLine>): (nat, nat) {
    if lines == [] || lines[0].Header? then (0, 0) else
      var (w, t) := (Weight(lines[0]), Tally(lines[1..]));
      (w.0 + t.0, w.1 + t.1)
  }

  /** Every header counts its own hunk; nothing else changes. */
  function RecountedLine(lines: seq<DiffLine>, k: nat): DiffLine
    requires k < |lines|
  {
    match lines[k]
    case Text(_) => lines[k]
    case Header(oldStart, _, newStart, _, rest) =>
      var t := Tally(lines[k + 1..]);
      Header(oldStart, Some(t.0), newStart, Some(t.1), rest)
  }

  function Recounted(lines: seq<DiffLine>): (r: seq<DiffLine>)
    ensures |r| == |lines|
    ensures forall k :: 0 <= k < |r| ==> r[k] == RecountedLine(lines, k)
  {
    seq(|lines|, k requires 0 <= k < |lines| => RecountedLine(lines, k))
  }

  lemma TallyStep(lines: seq<DiffLine>, i: nat)
    requires i < |lines|
    ensures Tally(lines[i..]) ==
            if lines[i].Header? then (0, 0)
            else (Weight(lines[i]).0 + Tally(lines[i + 1..]).0, Weight(lines[i]).1 + Tally(lines[i + 1..]).1)
  {
    assert lines[i..][1..] == lines[i + 1..];
  }

  /** The header at `c` awaits its counts; `counted` is what the lines up to `i` come to. */
  ghost predicate Pending(lines: seq<DiffLine>, c: nat, i: nat, oldStart: nat, newStart: nat, counted: (nat, nat)) {
    && c < i <= |lines| && lines[c].Header? && lines[c].oldStart == oldStart && lines[c].newStart == newStart
    && Tally(lines[c + 1..]) == (counted.0 + Tally(lines[i..]).0, counted.1 + Tally(lines[i..]).1)
  }

  /** Going back to a header and writing both its ranges. */
  function FixHeader(fixedLines: seq<DiffLine>, c: nat, oldStart: nat, oldCount: nat, newStart: nat, newCount: nat)
    : (r: seq<DiffLine>)
    requires c < |fixedLines| && fixedLines[c].Header?
    ensures |r| == |fixedLines|
    ensures r[c] == Header(oldStart, Some(oldCount), newStart, Some(newCount), fixedLines[c].rest)
    ensures forall k :: 0 <= k < |r| && k != c ==> r[k] == fixedLines[k]
  {
    fixedLines[c := Header(oldStart, Some(oldCount), newStart, Some(newCount), fixedLines[c].rest)]
  }

  /** When the hunk of a pending header ends, what was counted is what the header must say. */
  lemma PendingEnds(lines: seq<DiffLine>, c: nat, i: nat, oldStart: nat, newStart: nat, counted: (nat, nat))
    requires Pending(lines, c, i, oldStart, newStart, counted) && (i == |lines| || lines[i].Header?)
    ensures RecountedLine(lines, c) == Header(oldStart, Some(counted.0), newStart, Some(counted.1), lines[c].rest)
  {
  }

  /** All lines up to `i` are final, save a pending header. */
  ghost predicate Done(lines: seq<DiffLine>, fixedLines: seq<DiffLine>, i: nat, pending: int) {
    && |fixedLines| == i <= |lines|
    && (0 <= pending < i ==> fixedLines[pending] == lines[pending])
    && forall k :: 0 <= k < i && k != pending ==> fixedLines[k] == RecountedLine(lines, k)
  }

  /** Of a header, all but the counts stays. */
  predicate CountsFixed(header: DiffLine, counts: (nat, nat), fixed: DiffLine) {
    && fixed.Header? && header.Header? && fixed.oldStart == header.oldStart && fixed.newStart == header.newStart
    && fixed.rest == header.rest && fixed.oldCount == Some(counts.0) && fixed.newCount == Some(counts.1)
  }

  lemma RecountedIs(lines: seq<DiffLine>)
    ensures forall k :: 0 <= k < |lines| && lines[k].Text? ==> Recounted(lines)[k] == lines[k]
    ensures forall k :: 0 <= k < |lines| && lines[k].Header? ==>
              CountsFixed(lines[k], Tally(lines[k + 1..]), Recounted(lines)[k])
  {
    forall k | 0 <= k < |lines| && lines[k].Header?
      ensures CountsFixed(lines[k], Tally(lines[k + 1..]), Recounted(lines)[k])
    {
      assert Recounted(lines)[k] == RecountedLine(lines, k);
    }
  }

  method ProcessDiff(lines: seq<DiffLine>) returns (fixedLines: seq<DiffLine>)
    ensures fixedLines == Recounted(lines) && |fixedLines| == |lines|
    ensures forall k :: 0 <= k < |lines| && lines[k].Text? ==> fixedLines[k] == lines[k]
    ensures forall k :: 0 <= k < |lines| && lines[k].Header? ==>
              CountsFixed(lines[k], Tally(lines[k + 1..]), fixedLines[k])
  {
    fixedLines := [];
    var currentHunkStart: Option<nat> := None;
    var hunkOldStart: nat, hunkNewStart: nat, actualOldCount: nat, actualNewCount: nat := 0, 0, 0, 0;
    for i := 0 to |lines|
      invariant currentHunkStart.Some? ==>
                  Pending(lines, currentHunkStart.value, i, hunkOldStart, hunkNewStart,
                      (actualOldCount, actualNewCount))
      invariant Done(lines, fixedLines, i, if currentHunkStart.Some? then currentHunkStart.value else -1)
    {
      var line := lines[i];
      TallyStep(lines, i);
      if line.Header? {
        if currentHunkStart.Some? {
          PendingEnds(lines, currentHunkStart.value, i, hunkOldStart, hunkNewStart, (actualOldCount, actualNewCount));
          fixedLines := FixHeader(fixedLines, currentHunkStart.value, hunkOldStart, actualOldCount, hunkNewStart,
              actualNewCount);
        }
        currentHunkStart := Some(|fixedLines|);
        fixedLines := fixedLines + [line];
        hunkOldStart, hunkNewStart := line.oldStart, line.newStart;
        actualOldCount, actualNewCount := 0, 0;
      } else {
        fixedLines := fixedLines + [line];
        if currentHunkStart.Some? {
          var w := Weight(line);
          actualOldCount, actualNewCount := actualOldCount + w.0, actualNewCount + w.1;
        }
      }
    }
    if currentHunkStart.Some? {
      PendingEnds(lines, currentHunkStart.value, |lines|, hunkOldStart, hunkNewStart, (actualOldCount, actualNewCount));
      fixedLines := FixHeader(fixedLines, currentHunkStart.value, hunkOldStart, actualOldCount, hunkNewStart,
          actualNewCount);
    }
    RecountedIs(lines);
  }

  /** The body line counts in the old text, unless it starts with a plus or is a remark; */
  predicate IsOld(line: DiffLine) {
    line.Text? && !(line.s != "" && line.s[0] in "+\\")
  }

  /** and in the new one, unless it starts with a minus or is a remark. */
  predicate IsNew(line: DiffLine) {
    line.Text? && !(line.s != "" && line.s[0] in "-\\")
  }

  ghost function OldLines(lines: seq<DiffLine>, from: nat, to: nat): set<nat>
    requires to <= |lines|
  {
    set i: nat | from <= i < to && IsOld(lines[i])
  }

  ghost function NewLines(lines: seq<DiffLine>, from: nat, to: nat): set<nat>
    requires to <= |lines|
  {
    set i: nat | from <= i < to && IsNew(lines[i])
  }

  lemma OldStep(lines: seq<DiffLine>, k: nat, e: nat)
    requires k < e <= |lines|
    ensures |OldLines(lines, k, e)| == (if IsOld(lines[k]) then 1 else 0) + |OldLines(lines, k + 1, e)|
  {
    var later := OldLines(lines, k + 1, e);
    assert OldLines(lines, k, e) == if IsOld(lines[k]) then {k} + later else later;
  }

  lemma NewStep(lines: seq<DiffLine>, k: nat, e: nat)
    requires k < e <= |lines|
    ensures |NewLines(lines, k, e)| == (if IsNew(lines[k]) then 1 else 0) + |NewLines(lines, k + 1, e)|
  {
    var later := NewLines(lines, k + 1, e);
    assert NewLines(lines, k, e) == if IsNew(lines[k]) then {k} + later else later;
  }

  lemma {:induction false} TallyCounted(lines: seq<DiffLine>, k: nat, e: nat)
    requires k <= e <= |lines| && (e == |lines| || lines[e].Header?)
    requires forall i :: k <= i < e ==> lines[i].Text?
    ensures Tally(lines[k..]) == (|OldLines(lines, k, e)|, |NewLines(lines, k, e)|)
    decreases e - k
  {
    TallyStepOrEnd(lines, k);
    if k < e {
      TallyCounted(lines, k + 1, e);
      OldStep(lines, k, e);
      NewStep(lines, k, e);
    } else {
      assert OldLines(lines, k, e) == {} && NewLines(lines, k, e) == {};
    }
  }

  /**
   The counts are the numbers of old and of new lines up to the next header: all but those that start with a plus,
   or with a minus, and remarks.
   */
  lemma TallyCounts(lines: seq<DiffLine>, k: nat, e: nat, oldOnes: set<nat>, newOnes: set<nat>)
    requires k <= e <= |lines| && (e == |lines| || lines[e].Header?)
    requires forall i :: k <= i < e ==> lines[i].Text?
    requires forall i: nat :: i in oldOnes <==> k <= i < e && !("+" <= lines[i].s) && !("\\" <= lines[i].s)
    requires forall i: nat :: i in newOnes <==> k <= i < e && !("-" <= lines[i].s) && !("\\" <= lines[i].s)
    ensures Tally(lines[k..]) == (|oldOnes|, |newOnes|)
  {
    TallyCounted(lines, k, e);
    assert oldOnes == OldLines(lines, k, e) && newOnes == NewLines(lines, k, e);
  }

  lemma TallyStepOrEnd(lines: seq<DiffLine>, k: nat)
    requires k <= |lines|
    ensures Tally(lines[k..]) ==
            if k == |lines| || lines[k].Header? then (0, 0)
            else (Weight(lines[k]).0 + Tally(lines[k + 1..]).0, Weight(lines[k]).1 + Tally(lines[k + 1..]).1)
  {
    if k < |lines| {
      TallyStep(lines, k);
    }
  }

  lemma {:induction false} TallyRecounted(lines: seq<DiffLine>, k: nat)
    requires k <= |lines|
    ensures Tally(Recounted(lines)[k..]) == Tally(lines[k..])
    decreases |lines| - k
  {
    if k < |lines| {
      TallyRecounted(lines, k + 1);
      assert lines[k..][1..] == lines[k + 1..] && Recounted(lines)[k..][1..] == Recounted(lines)[k + 1..];
    }
  }

  lemma RecountIdempotent(lines: seq<DiffLine>)
    ensures Recounted(Recounted(lines)) == Recounted(lines)
  {
    forall k | 0 <= k < |lines| ensures Recounted(Recounted(lines))[k] == Recounted(lines)[k] {
      TallyRecounted(lines, k + 1);
    }
  }

  // ---------- the counts are those of the hunk ----------

  function BodyLine(line: HunkReplay.HunkLine): DiffLine {
    match line
    case Context(text) => Text(" " + text)
    case Added(text) => Text("+" + text)
    case Removed(text) => Text("-" + text)
  }

  function BodyLines(body: seq<HunkReplay.HunkLine>): seq<DiffLine> {
    if body == [] then [] else [BodyLine(body[0])] + BodyLines(body[1..])
  }

  lemma TallyCons(line: DiffLine, rest: seq<DiffLine>, more: seq<DiffLine>)
    requires !line.Header?
    ensures Tally([line] + rest + more)
        == (Weight(line).0 + Tally(rest + more).0, Weight(line).1 + Tally(rest + more).1)
  {
    assert ([line] + rest + more)[1..] == rest + more;
  }

  lemma BodyWeight(line: HunkReplay.HunkLine)
    ensures Weight(BodyLine(line)) == (if line.Added? then 0 else 1, if line.Removed? then 0 else 1)
  {
  }

  /** A hunk printed without line breaks of its own, whatever its header said, gets the sizes of its two sides. */
  lemma {:induction false} TallyIsSides(body: seq<HunkReplay.HunkLine>, more: seq<DiffLine>)
    requires more == [] || more[0].Header?
    ensures Tally(BodyLines(body) + more) == (|PatchRoundTrip.OldSide(body)|, |PatchRoundTrip.NewSide(body)|)
  {
    if body == [] {
      assert BodyLines(body) + more == more;
    } else {
      TallyIsSides(body[1..], more);
      TallyCons(BodyLine(body[0]), BodyLines(body[1..]), more);
      BodyWeight(body[0]);
      PatchRoundTrip.SidesCons(body);
    }
  }
}
