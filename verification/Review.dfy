/** Splicing accepted hunks back into the original, line by line.
    Models crates/cuartel-core/src/review.rs, lines 192 to 241, and
    crates/cuartel-core/src/diff_render.rs, lines 22 to 55. */
module Review {
  import opened EditScript
  import opened Overlay

  // ---------- the line loop of apply_hunks ----------

  function Gap(base: Lines, from: nat, to: nat): Lines {
    if from < to <= |base| then base[from..to] else []
  }

  /** The output from hunk `k` on: the lines from the cursor to each hunk, then the side
      of the hunk that was chosen, and after the last hunk the rest of the file. */
  function Splice(base: Lines, hunks: seq<DiffHunk>, accepted: set<nat>, k: nat, cursor: nat): Lines {
    if hunks == [] then (if cursor < |base| then base[cursor..] else [])
    else
      (Gap(base, cursor, HunkStart(hunks[0])) + Side(hunks[0].lines, k in accepted))
      + Splice(base, hunks[1..], accepted, k + 1, HunkEnd(hunks[0]))
  }

  /** What the source needs not to panic: no header that starts before line 1, and no gap
      that runs past the end of the file. */
  predicate NoPanic(hunks: seq<DiffHunk>, cursor: nat, size: nat) {
    hunks == [] ||
    var h := hunks[0];
    && (h.oldCount == 0 || 1 <= h.oldStart)
    && (HunkStart(h) <= cursor || HunkStart(h) <= size)
    && NoPanic(hunks[1..], HunkEnd(h), size)
  }

  lemma {:induction false} SideStep(lines: seq<DiffLine>, m: nat, newSide: bool)
    requires m < |lines|
    ensures Side(lines[..m + 1], newSide)
         == Side(lines[..m], newSide) + (if Keeps(lines[m], newSide) then [lines[m].text] else [])
  {
    assert lines[..m + 1] == lines[..m] + [lines[m]];
    SideConcat(lines[..m], [lines[m]], newSide);
    assert [lines[m]][1..] == [];
  }

  method PushSide(lines: seq<DiffLine>, newSide: bool, out: Lines) returns (out': Lines)
    ensures out' == out + Side(lines, newSide)
  {
    out' := out;
    for m := 0 to |lines|
      invariant out' == out + Side(lines[..m], newSide)
    {
      SideStep(lines, m, newSide);
      if newSide {
        match lines[m]
        case Context(s) => out' := out' + [s];
        case Added(s) => out' := out' + [s];
        case Removed(_) =>
      } else {
        match lines[m]
        case Context(s) => out' := out' + [s];
        case Removed(s) => out' := out' + [s];
        case Added(_) =>
      }
    }
    assert lines[..|lines|] == lines;
  }

  method PushLines(lines: Lines, from: nat, to: nat, out: Lines) returns (out': Lines)
    requires from <= to <= |lines|
    ensures out' == out + lines[from..to]
  {
    out' := out;
    for m := from to to
      invariant out' == out + lines[from..m]
    {
      out' := out' + [lines[m]];
    }
  }

  /** One turn of the loop over the hunks: the gap, then one side. */
  method PushHunk(base: Lines, h: DiffHunk, taken: bool, cursor: nat, out: Lines) returns (out': Lines, cursor': nat)
    requires h.oldCount == 0 || 1 <= h.oldStart
    requires HunkStart(h) <= cursor || HunkStart(h) <= |base|
    ensures out' == out + (Gap(base, cursor, HunkStart(h)) + Side(h.lines, taken))
    ensures cursor' == HunkEnd(h)
  {
    var hunkStart: nat :=
      if h.oldCount == 0 then (if h.newStart == 0 then 0 else h.newStart - 1) else h.oldStart - 1;
    out' := out;
    if hunkStart > cursor {
      out' := PushLines(base, cursor, hunkStart, out');
    }
    out' := PushSide(h.lines, taken, out');
    cursor' := if h.oldCount == 0 then hunkStart else (h.oldStart - 1) + h.oldCount;
  }

  lemma {:induction false} SpliceStep(
      base: Lines, hunks: seq<DiffHunk>, accepted: set<nat>, k: nat, cursor: nat, out: Lines)
    requires k < |hunks|
    ensures out + Splice(base, hunks[k..], accepted, k, cursor)
         == (out + (Gap(base, cursor, HunkStart(hunks[k])) + Side(hunks[k].lines, k in accepted)))
            + Splice(base, hunks[k + 1..], accepted, k + 1, HunkEnd(hunks[k]))
  {
  }

  method ApplyLines(base: Lines, hunks: seq<DiffHunk>, accepted: set<nat>) returns (out: Lines)
    requires NoPanic(hunks, 0, |base|)
    ensures out == Splice(base, hunks, accepted, 0, 0)
  {
    out := [];
    var cursor: nat := 0;
    for k := 0 to |hunks|
      invariant NoPanic(hunks[k..], cursor, |base|)
      invariant out + Splice(base, hunks[k..], accepted, k, cursor) == Splice(base, hunks, accepted, 0, 0)
    {
      assert hunks[k..][1..] == hunks[k + 1..];
      SpliceStep(base, hunks, accepted, k, cursor, out);
      out, cursor := PushHunk(base, hunks[k], k in accepted, cursor, out);
    }
    assert hunks[|hunks|..] == [];
    if cursor < |base| {
      out := PushLines(base, cursor, |base|, out);
    }
  }

  // ---------- counting lines ----------

  lemma {:induction false} WellCutNoPanic(hunks: seq<DiffHunk>, c: nat, d: nat, base: Lines, edited: Lines)
    requires WellCut(hunks, c, d, base, edited)
    ensures NoPanic(hunks, c, |base|)
  {
    if hunks != [] {
      var h := hunks[0];
      WellCutNoPanic(hunks[1..], HunkStart(h) + h.oldCount, d + (HunkStart(h) - c) + h.newCount, base, edited);
    }
  }

  /** The lengths that the first of some well-cut hunks fixes. */
  lemma {:induction false} FirstHunk(hunks: seq<DiffHunk>, c: nat, d: nat, base: Lines, edited: Lines)
    requires WellCut(hunks, c, d, base, edited) && hunks != []
    ensures var h := hunks[0];
      && |Gap(base, c, HunkStart(h))| == HunkStart(h) - c && HunkEnd(h) <= |base|
      && |Side(h.lines, false)| == h.oldCount && |Side(h.lines, true)| == h.newCount
      && WellCut(hunks[1..], HunkEnd(h), d + (HunkStart(h) - c) + h.newCount, base, edited)
  {
  }

  datatype DiffStats = DiffStats(adds: nat, dels: nat)

  function Adds(lines: seq<DiffLine>): nat {
    if lines == [] then 0 else (if lines[0].Added? then 1 else 0) + Adds(lines[1..])
  }

  function Dels(lines: seq<DiffLine>): nat {
    if lines == [] then 0 else (if lines[0].Removed? then 1 else 0) + Dels(lines[1..])
  }

  function HunkAdds(hunks: seq<DiffHunk>): nat {
    if hunks == [] then 0 else Adds(hunks[0].lines) + HunkAdds(hunks[1..])
  }

  function HunkDels(hunks: seq<DiffHunk>): nat {
    if hunks == [] then 0 else Dels(hunks[0].lines) + HunkDels(hunks[1..])
  }

  lemma {:induction false} LineStep(lines: seq<DiffLine>, m: nat)
    requires m < |lines|
    ensures Adds(lines[..m + 1]) == Adds(lines[..m]) + (if lines[m].Added? then 1 else 0)
    ensures Dels(lines[..m + 1]) == Dels(lines[..m]) + (if lines[m].Removed? then 1 else 0)
    decreases m
  {
    assert lines[..m + 1][1..] == lines[1..][..m];
    if 0 < m {
      LineStep(lines[1..], m - 1);
      assert lines[..m][1..] == lines[1..][..m - 1];
    }
  }

  lemma {:induction false} HunkStep(hunks: seq<DiffHunk>, n: nat)
    requires n < |hunks|
    ensures HunkAdds(hunks[..n + 1]) == HunkAdds(hunks[..n]) + Adds(hunks[n].lines)
    ensures HunkDels(hunks[..n + 1]) == HunkDels(hunks[..n]) + Dels(hunks[n].lines)
    decreases n
  {
    assert hunks[..n + 1][1..] == hunks[1..][..n];
    if 0 < n {
      HunkStep(hunks[1..], n - 1);
      assert hunks[..n][1..] == hunks[1..][..n - 1];
    }
  }

  /** `file_stats`. */
  method FileStats(hunks: seq<DiffHunk>) returns (s: DiffStats)
    ensures s == DiffStats(HunkAdds(hunks), HunkDels(hunks))
  {
    s := DiffStats(0, 0);
    for n := 0 to |hunks|
      invariant s == DiffStats(HunkAdds(hunks[..n]), HunkDels(hunks[..n]))
    {
      var lines := hunks[n].lines;
      for m := 0 to |lines|
        invariant s.adds == HunkAdds(hunks[..n]) + Adds(lines[..m])
        invariant s.dels == HunkDels(hunks[..n]) + Dels(lines[..m])
      {
        match lines[m] {
          case Added(_) => s := s.(adds := s.adds + 1);
          case Removed(_) => s := s.(dels := s.dels + 1);
          case Context(_) =>
        }
        LineStep(lines, m);
      }
      assert lines[..|lines|] == lines;
      HunkStep(hunks, n);
    }
    assert hunks[..|hunks|] == hunks;
  }

  /** The lines gained in the hunks that are accepted. */
  function NetAccepted(hunks: seq<DiffHunk>, accepted: set<nat>, k: nat): int {
    if hunks == [] then 0
    else
      (if k in accepted then Adds(hunks[0].lines) - Dels(hunks[0].lines) else 0)
      + NetAccepted(hunks[1..], accepted, k + 1)
  }

  lemma {:induction false} LineStatsCount(lines: seq<DiffLine>)
    ensures |Side(lines, true)| - |Side(lines, false)| == Adds(lines) - Dels(lines)
  {
    if lines != [] {
      LineStatsCount(lines[1..]);
    }
  }

  /** The result has as many lines as the original plus what the accepted hunks gain. */
  lemma {:induction false} SpliceLength(
      hunks: seq<DiffHunk>, accepted: set<nat>, k: nat, c: nat, d: nat, base: Lines, edited: Lines)
    requires WellCut(hunks, c, d, base, edited)
    ensures |Splice(base, hunks, accepted, k, c)| == |base| - c + NetAccepted(hunks, accepted, k)
    decreases |hunks|
  {
    if hunks != [] {
      var h := hunks[0];
      FirstHunk(hunks, c, d, base, edited);
      SpliceLength(hunks[1..], accepted, k + 1, HunkEnd(h), d + (HunkStart(h) - c) + h.newCount, base, edited);
      LineStatsCount(h.lines);
    }
  }

  lemma {:induction false} NetOfAll(hunks: seq<DiffHunk>, accepted: set<nat>, k: nat)
    requires forall m: nat :: k <= m < k + |hunks| ==> m in accepted
    ensures NetAccepted(hunks, accepted, k) == HunkAdds(hunks) - HunkDels(hunks)
    decreases |hunks|
  {
    if hunks != [] {
      NetOfAll(hunks[1..], accepted, k + 1);
    }
  }

  /** The indices `0..n`, as `FileReview::accept_all` collects them. */
  function AllOf(n: nat): (all: set<nat>)
    ensures forall m: nat :: m in all <==> m < n
  {
    if n == 0 then {} else AllOf(n - 1) + {n - 1}
  }
}
