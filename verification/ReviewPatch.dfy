/** Which changes a set of accepted hunks applies: exactly those of the edit script that
    fall in an accepted hunk.
    Models crates/cuartel-core/src/review.rs, lines 183 to 241, over
    crates/cuartel-core/src/overlay.rs, lines 100 to 142. */
module ReviewPatch {
  import opened Wrappers
  import opened EditScript
  import opened Grouped
  import opened Overlay
  import opened Review

  // ---------- any set of accepted hunks ----------

  /** The pending ops on the side that their hunk is taken. */
  function PendingSide(base: Lines, edited: Lines, lo: nat, nlo: nat, i: nat, j: nat, taken: bool): Lines {
    if taken then (if nlo <= j <= |edited| then edited[nlo..j] else [])
    else if lo <= i <= |base| then base[lo..i] else []
  }

  lemma {:induction false} JoinPieces(base: Lines, edited: Lines, op: Op, lo: nat, nlo: nat, taken: bool)
    requires SoundOp(op, base, edited) && op.OldEnd() <= |base| && op.NewEnd() <= |edited|
    requires lo <= op.oldIndex && nlo <= op.newIndex
    ensures PendingSide(base, edited, lo, nlo, op.OldEnd(), op.NewEnd(), taken)
         == PendingSide(base, edited, lo, nlo, op.oldIndex, op.newIndex, taken) + Part(op, base, edited, taken)
  {
  }

  lemma {:induction false} RunInThree(base: Lines, op: Op)
    requires Splits(op) && op.OldEnd() <= |base|
    ensures op.OldPart(base)
         == Head(op).OldPart(base)
            + (base[op.oldIndex + CONTEXT..Tail(op).oldIndex] + base[Tail(op).oldIndex..op.OldEnd()])
  {
  }

  /** The two ends of a long equal run, one on each side of a hunk boundary, and the
      lines between them are the run. */
  lemma {:induction false} SplitPieces(base: Lines, edited: Lines, op: Op, lo: nat, nlo: nat, taken: bool, next: bool)
    requires Splits(op) && SoundOp(op, base, edited) && op.OldEnd() <= |base| && op.NewEnd() <= |edited|
    requires lo <= op.oldIndex && nlo <= op.newIndex
    ensures var i, j := op.oldIndex + CONTEXT, op.newIndex + CONTEXT;
      var m, n := Tail(op).oldIndex, Tail(op).newIndex;
      PendingSide(base, edited, lo, nlo, i, j, taken)
      + (base[i..m] + PendingSide(base, edited, m, n, op.OldEnd(), op.NewEnd(), next))
      == PendingSide(base, edited, lo, nlo, op.oldIndex, op.newIndex, taken) + op.OldPart(base)
  {
    SubSlice(base, edited, op.oldIndex, op.newIndex, op.oldLen, 0, CONTEXT);
    SubSlice(base, edited, op.oldIndex, op.newIndex, op.oldLen, op.oldLen - CONTEXT, op.oldLen);
    JoinPieces(base, edited, Head(op), lo, nlo, taken);
    var m := Tail(op).oldIndex;
    RunInThree(base, op);
    assert PendingSide(base, edited, m, Tail(op).newIndex, op.OldEnd(), op.NewEnd(), next) == base[m..op.OldEnd()];
    var side := PendingSide(base, edited, lo, nlo, op.oldIndex, op.newIndex, taken);
    Associate(side, Head(op).OldPart(base), base[op.oldIndex + CONTEXT..m] + base[m..op.OldEnd()]);
  }

  /** What splicing the hunks from a point of the grouping on should give: the gap, the
      pending side, the remaining ops replayed, and the lines after the script. */
  function Expected(gap: Lines, pending: Lines, patch: Lines, end: Lines): Lines {
    gap + (pending + (patch + end))
  }

  /** An op that joins the pending group. */
  lemma {:induction false} ExpectedJoin(op: Op, base: Lines, edited: Lines, taken: bool,
                                        gap: Lines, lo: nat, nlo: nat, rest: Lines, end: Lines)
    requires SoundOp(op, base, edited) && op.OldEnd() <= |base| && op.NewEnd() <= |edited|
    requires lo <= op.oldIndex && nlo <= op.newIndex
    ensures Expected(gap, PendingSide(base, edited, lo, nlo, op.OldEnd(), op.NewEnd(), taken), rest, end)
         == Expected(gap, PendingSide(base, edited, lo, nlo, op.oldIndex, op.newIndex, taken),
              Part(op, base, edited, taken) + rest, end)
  {
  }

  lemma {:induction false} Regroup(
      near: Lines, mid: Lines, far: Lines, side: Lines, run: Lines, rest: Lines, end: Lines)
    requires near + (mid + far) == side + run
    ensures near + (mid + (far + (rest + end))) == side + ((run + rest) + end)
  {
    var last := rest + end;
    calc {
      near + (mid + (far + last));
      { Associate(mid, far, last); }
      near + ((mid + far) + last);
      { Associate(near, mid + far, last); }
      (side + run) + last;
      { Associate(side, run, last); }
      side + (run + last);
      { Associate(run, rest, end); }
      side + ((run + rest) + end);
    }
  }

  /** A long equal run that closes the pending group: the hunk, and what follows it. */
  lemma {:induction false} ExpectedSplit(op: Op, base: Lines, edited: Lines, taken: bool, next: bool,
                                         gap: Lines, lo: nat, nlo: nat, rest: Lines, end: Lines)
    requires Splits(op) && SoundOp(op, base, edited) && op.OldEnd() <= |base| && op.NewEnd() <= |edited|
    requires lo <= op.oldIndex && nlo <= op.newIndex
    ensures var i, j := op.oldIndex + CONTEXT, op.newIndex + CONTEXT;
      var m, n := Tail(op).oldIndex, Tail(op).newIndex;
      gap + (PendingSide(base, edited, lo, nlo, i, j, taken)
        + Expected(base[i..m], PendingSide(base, edited, m, n, op.OldEnd(), op.NewEnd(), next), rest, end))
      == Expected(gap, PendingSide(base, edited, lo, nlo, op.oldIndex, op.newIndex, taken),
           op.OldPart(base) + rest, end)
  {
    var m := Tail(op).oldIndex;
    SplitPieces(base, edited, op, lo, nlo, taken, next);
    Regroup(PendingSide(base, edited, lo, nlo, op.oldIndex + CONTEXT, op.newIndex + CONTEXT, taken),
      base[op.oldIndex + CONTEXT..m],
      PendingSide(base, edited, m, Tail(op).newIndex, op.OldEnd(), op.NewEnd(), next),
      PendingSide(base, edited, lo, nlo, op.oldIndex, op.newIndex, taken), op.OldPart(base), rest, end);
  }

  // ---------- the splice ----------

  lemma {:induction false} SpliceCons(h: DiffHunk, rest: seq<DiffHunk>, base: Lines, accepted: set<nat>, k: nat, c: nat)
    ensures Splice(base, [h] + rest, accepted, k, c)
         == (Gap(base, c, HunkStart(h)) + Side(h.lines, k in accepted))
            + Splice(base, rest, accepted, k + 1, HunkEnd(h))
  {
  }

  lemma {:induction false} SideDescribed(
      h: DiffHunk, base: Lines, edited: Lines, taken: bool, c: nat, lo: nat, nlo: nat)
    requires HunkStart(h) == lo && c <= lo <= |base| && Describes(h, lo, nlo, base, edited)
    ensures Gap(base, c, lo) == base[c..lo]
    ensures Side(h.lines, taken) == PendingSide(base, edited, lo, nlo, lo + h.oldCount, nlo + h.newCount, taken)
  {
  }

  lemma {:induction false} SpliceFirst(
      h: DiffHunk, rest: seq<DiffHunk>, base: Lines, accepted: set<nat>, k: nat, c: nat, gap: Lines, side: Lines)
    requires Gap(base, c, HunkStart(h)) == gap && Side(h.lines, k in accepted) == side
    ensures Splice(base, [h] + rest, accepted, k, c)
         == gap + (side + Splice(base, rest, accepted, k + 1, HunkEnd(h)))
  {
    SpliceCons(h, rest, base, accepted, k, c);
    Associate(gap, side, Splice(base, rest, accepted, k + 1, HunkEnd(h)));
  }

  /** The hunk of a group contributes the pending side, up to where it ends. */
  lemma {:induction false} SpliceGroup(
      h: DiffHunk, rest: seq<DiffHunk>, base: Lines, edited: Lines, accepted: set<nat>, k: nat,
      c: nat, lo: nat, nlo: nat, oe: nat, ne: nat)
    requires HunkStart(h) == lo && lo + h.oldCount == oe && nlo + h.newCount == ne
    requires c <= lo <= |base| && Describes(h, lo, nlo, base, edited)
    ensures Splice(base, [h] + rest, accepted, k, c)
         == base[c..lo] + (PendingSide(base, edited, lo, nlo, oe, ne, k in accepted)
            + Splice(base, rest, accepted, k + 1, oe))
  {
    SideDescribed(h, base, edited, k in accepted, c, lo, nlo);
    SpliceFirst(h, rest, base, accepted, k, c, base[c..lo],
      PendingSide(base, edited, lo, nlo, oe, ne, k in accepted));
  }

  /** Splicing the hunks from a point of the grouping on is patching with the ops. */
  ghost predicate Patches(
      ops: seq<Op>, pending: seq<Op>, render: Renderer, base: Lines, edited: Lines, accepted: set<nat>, k: nat,
      c: nat, lo: nat, nlo: nat, i: nat, j: nat, oe: nat)
  {
    c <= lo <= |base| && oe <= |base| &&
    Splice(base, HunksOf(Groups(ops, pending), render), accepted, k, c)
    == Expected(base[c..lo], PendingSide(base, edited, lo, nlo, i, j, k in accepted),
         TrimmedPatch(ops, base, edited, accepted, k), base[oe..])
  }

  ghost predicate PatchesFrom(q: Point, render: Renderer, base: Lines, edited: Lines, accepted: set<nat>, oe: nat) {
    Patches(q.ops, q.pending, render, base, edited, accepted, q.k, q.c, q.lo, q.nlo, q.i, q.j, oe)
  }

  lemma {:induction false} RestOfFile(base: Lines, c: nat, lo: nat, oe: nat)
    requires c <= lo <= oe <= |base|
    ensures (if c < |base| then base[c..] else []) == Expected(base[c..lo], base[lo..oe], [], base[oe..])
  {
    assert [] + base[oe..] == base[oe..];
    assert base[lo..oe] + base[oe..] == base[lo..];
    assert base[c..lo] + base[lo..] == base[c..];
  }

  lemma {:induction false} EqualSide(base: Lines, edited: Lines, lo: nat, nlo: nat, oe: nat, ne: nat, taken: bool)
    requires lo <= oe <= |base| && nlo <= ne <= |edited| && base[lo..oe] == edited[nlo..ne]
    ensures PendingSide(base, edited, lo, nlo, oe, ne, taken) == base[lo..oe]
  {
  }

  lemma {:induction false} PatchDropped(
      q: Point, render: Renderer, base: Lines, edited: Lines, accepted: set<nat>, oe: nat, ne: nat)
    requires Grouping(q, base, edited, oe, ne) && q.ops == [] && Dropped(q.pending)
    ensures PatchesFrom(q, render, base, edited, accepted, oe)
  {
    DroppedIsEqual(q.pending, base, edited, q.lo, q.nlo, oe, ne);
    EqualSide(base, edited, q.lo, q.nlo, oe, ne, q.k in accepted);
    RestOfFile(base, q.c, q.lo, oe);
  }

  lemma {:induction false} PatchEnd(
      q: Point, render: Renderer, base: Lines, edited: Lines, accepted: set<nat>, oe: nat, ne: nat)
    requires Renders(render, base, edited) && Grouping(q, base, edited, oe, ne) && q.ops == []
    ensures PatchesFrom(q, render, base, edited, accepted, oe)
  {
    LeadsInside(q.pending, base, edited, q.lo, q.nlo, oe, ne);
    assert [] + base[oe..] == base[oe..];
    if Dropped(q.pending) {
      PatchDropped(q, render, base, edited, accepted, oe, ne);
    } else {
      OnlyGroup(q.pending, render);
      HunkDescribes(q.pending, render, base, edited, q.lo, q.nlo, oe, ne);
      SpliceGroup(HunkOf(q.pending, render), [], base, edited, accepted, q.k, q.c, q.lo, q.nlo, oe, ne);
    }
  }

  /** The splice up to where a long equal run closes the pending group. */
  lemma {:induction false} SpliceClosed(
      group: seq<Op>, hunks: seq<DiffHunk>, rest: seq<DiffHunk>, render: Renderer, base: Lines, edited: Lines,
      accepted: set<nat>, k: nat, c: nat, lo: nat, nlo: nat, oe: nat, ne: nat)
    requires Renders(render, base, edited) && Leads(group, base, edited, lo, nlo, oe, ne) && group != []
    requires c <= lo < oe <= |base| && hunks == [HunkOf(group, render)] + rest
    ensures Splice(base, hunks, accepted, k, c)
         == base[c..lo] + (PendingSide(base, edited, lo, nlo, oe, ne, k in accepted)
            + Splice(base, rest, accepted, k + 1, oe))
  {
    HunkDescribes(group, render, base, edited, lo, nlo, oe, ne);
    SpliceGroup(HunkOf(group, render), rest, base, edited, accepted, k, c, lo, nlo, oe, ne);
  }

  lemma {:induction false} PatchSplit(
      ops: seq<Op>, pending: seq<Op>, render: Renderer, base: Lines, edited: Lines, accepted: set<nat>, k: nat,
      c: nat, lo: nat, nlo: nat, i: nat, j: nat, oe: nat)
    requires Renders(render, base, edited) && c <= lo <= i <= |base| && nlo <= j
    requires ops != [] && Splits(ops[0]) && SoundOp(ops[0], base, edited)
    requires ops[0].OldEnd() <= |base| && ops[0].NewEnd() <= |edited| && ops[0].oldIndex == i && ops[0].newIndex == j
    requires Leads(pending + [Head(ops[0])], base, edited, lo, nlo, i + CONTEXT, j + CONTEXT)
    requires Patches(ops[1..], [Tail(ops[0])], render, base, edited, accepted, k + 1,
               i + CONTEXT, Tail(ops[0]).oldIndex, Tail(ops[0]).newIndex, ops[0].OldEnd(), ops[0].NewEnd(), oe)
    ensures Patches(ops, pending, render, base, edited, accepted, k, c, lo, nlo, i, j, oe)
  {
    var op := ops[0];
    FirstGroup(ops, pending, render);
    SpliceClosed(pending + [Head(op)], HunksOf(Groups(ops, pending), render),
      HunksOf(Groups(ops[1..], [Tail(op)]), render), render, base, edited, accepted, k,
      c, lo, nlo, i + CONTEXT, j + CONTEXT);
    ExpectedSplit(op, base, edited, k in accepted, k + 1 in accepted, base[c..lo], lo, nlo,
      TrimmedPatch(ops[1..], base, edited, accepted, k + 1), base[oe..]);
  }

  lemma {:induction false} PatchJoin(
      ops: seq<Op>, pending: seq<Op>, render: Renderer, base: Lines, edited: Lines, accepted: set<nat>, k: nat,
      c: nat, lo: nat, nlo: nat, i: nat, j: nat, oe: nat)
    requires c <= lo <= i && nlo <= j
    requires ops != [] && !Splits(ops[0]) && SoundOp(ops[0], base, edited)
    requires ops[0].OldEnd() <= |base| && ops[0].NewEnd() <= |edited| && ops[0].oldIndex == i && ops[0].newIndex == j
    requires Patches(ops[1..], pending + [ops[0]], render, base, edited, accepted, k,
               c, lo, nlo, ops[0].OldEnd(), ops[0].NewEnd(), oe)
    ensures Patches(ops, pending, render, base, edited, accepted, k, c, lo, nlo, i, j, oe)
  {
    ExpectedJoin(ops[0], base, edited, k in accepted, base[c..lo], lo, nlo,
      TrimmedPatch(ops[1..], base, edited, accepted, k), base[oe..]);
  }

  lemma {:induction false} NextAtRun(
      q: Point, render: Renderer, base: Lines, edited: Lines, accepted: set<nat>, oe: nat)
    requires q.ops != [] && Splits(q.ops[0]) && PatchesFrom(Next(q), render, base, edited, accepted, oe)
    ensures Patches(q.ops[1..], [Tail(q.ops[0])], render, base, edited, accepted, q.k + 1,
              q.i + CONTEXT, Tail(q.ops[0]).oldIndex, Tail(q.ops[0]).newIndex, q.ops[0].OldEnd(), q.ops[0].NewEnd(), oe)
  {
  }

  lemma {:induction false} PatchAtRun(
      q: Point, render: Renderer, base: Lines, edited: Lines, accepted: set<nat>, oe: nat, ne: nat)
    requires Renders(render, base, edited) && Grouping(q, base, edited, oe, ne) && q.ops != [] && Splits(q.ops[0])
    requires PatchesFrom(Next(q), render, base, edited, accepted, oe)
    ensures PatchesFrom(q, render, base, edited, accepted, oe)
  {
    GroupingInside(q, base, edited, oe, ne);
    ClosedGroup(q, base, edited, oe, ne);
    NextAtRun(q, render, base, edited, accepted, oe);
    PatchSplit(q.ops, q.pending, render, base, edited, accepted, q.k, q.c, q.lo, q.nlo, q.i, q.j, oe);
  }

  lemma {:induction false} PatchAtOp(
      q: Point, render: Renderer, base: Lines, edited: Lines, accepted: set<nat>, oe: nat, ne: nat)
    requires Grouping(q, base, edited, oe, ne) && q.ops != [] && !Splits(q.ops[0])
    requires PatchesFrom(Next(q), render, base, edited, accepted, oe)
    ensures PatchesFrom(q, render, base, edited, accepted, oe)
  {
    GroupingInside(q, base, edited, oe, ne);
    PatchJoin(q.ops, q.pending, render, base, edited, accepted, q.k, q.c, q.lo, q.nlo, q.i, q.j, oe);
  }

  /** From any point of the grouping on, splicing the hunks is patching with the ops. */
  lemma {:induction false} GroupsPatch(
      q: Point, render: Renderer, base: Lines, edited: Lines, accepted: set<nat>, oe: nat, ne: nat)
    requires Renders(render, base, edited) && Grouping(q, base, edited, oe, ne)
    ensures PatchesFrom(q, render, base, edited, accepted, oe)
  {
    var p := (r: Point) => PatchesFrom(r, render, base, edited, accepted, oe);
    forall r | Grouping(r, base, edited, oe, ne) && (r.ops != [] ==> p(Next(r)))
      ensures p(r)
    {
      if r.ops == [] {
        PatchEnd(r, render, base, edited, accepted, oe, ne);
      } else if Splits(r.ops[0]) {
        PatchAtRun(r, render, base, edited, accepted, oe, ne);
      } else {
        PatchAtOp(r, render, base, edited, accepted, oe, ne);
      }
    }
    ByGrouping(q, p, base, edited, oe, ne);
  }

  lemma {:induction false} Pad(a: Lines, b: Lines)
    ensures [] + (a + b) == a + b
  {
  }

  lemma {:induction false} CutOffIsEnd(ops: seq<Op>, base: Lines)
    requires ops != [] && ops[|ops| - 1].OldEnd() == |base|
    ensures LastCut(ops) <= |base| && CutOff(ops[|ops| - 1], base) == base[|base| - LastCut(ops)..]
  {
  }

  lemma {:induction false} PatchToEnd(ops: seq<Op>, base: Lines, edited: Lines, accepted: set<nat>)
    requires ops != [] && ops[|ops| - 1].OldEnd() == |base|
    ensures LastCut(ops) <= |base|
    ensures Patch(ops, base, edited, accepted, 0, false)
         == [] + (TrimmedPatch(TrimLast(ops), base, edited, accepted, 0) + base[|base| - LastCut(ops)..])
  {
    TrimLastPatch(ops, base, edited, accepted, 0, CutOff(ops[|ops| - 1], base));
    CutOffIsEnd(ops, base);
    Pad(TrimmedPatch(TrimLast(ops), base, edited, accepted, 0), base[|base| - LastCut(ops)..]);
  }

  lemma {:induction false} PatchOfTrimmed(ops: seq<Op>, base: Lines, edited: Lines, accepted: set<nat>)
    requires ValidScript(ops, base, edited) && ops != []
    ensures FirstCut(ops) <= |base| && GroupedTo(ops, |base|) <= |base|
    ensures Patch(ops, base, edited, accepted, 0, true)
         == Expected(base[0..FirstCut(ops)], [], TrimmedPatch(TrimLast(TrimFirst(ops)), base, edited, accepted, 0),
              base[GroupedTo(ops, |base|)..])
  {
    var first, i := TrimFirst(ops), FirstCut(ops);
    TrimFirstLeads(ops, base, edited);
    LastEnds(first, base, edited, i, i, |base|, |edited|);
    TrimFirstPatch(ops, base, edited, accepted);
    PatchToEnd(first, base, edited, accepted);
    assert base[0..i] == base[..i];
  }

  lemma {:induction false} NothingPending(base: Lines, edited: Lines, i: nat, taken: bool)
    ensures PendingSide(base, edited, i, i, i, i, taken) == []
  {
  }

  /** Splicing any set of accepted hunks is replaying the script with the changes of those
      hunks and no others. */
  lemma {:induction false} SpliceIsPatch(ops: seq<Op>, base: Lines, edited: Lines, accepted: set<nat>)
    requires ValidScript(ops, base, edited)
    ensures Splice(base, DiffHunks(ops, base, edited), accepted, 0, 0)
         == Patch(ops, base, edited, accepted, 0, true)
  {
    if ops == [] {
      assert base == [] && Groups([], []) == [];
    } else {
      GroupingStart(ops, base, edited);
      LinesOfRenders(base, edited);
      GroupsPatch(Start(ops), LinesOf(base, edited), base, edited, accepted,
        GroupedTo(ops, |base|), GroupedTo(ops, |edited|));
      PatchOfTrimmed(ops, base, edited, accepted);
      NothingPending(base, edited, FirstCut(ops), 0 in accepted);
    }
  }

  // ---------- accepting everything, and nothing ----------

  /** Only the hunks that exist matter. */
  lemma {:induction false} SpliceSame(
      base: Lines, hunks: seq<DiffHunk>, accepted: set<nat>, other: set<nat>, k: nat, c: nat)
    requires forall m: nat :: k <= m < k + |hunks| ==> (m in accepted <==> m in other)
    ensures Splice(base, hunks, accepted, k, c) == Splice(base, hunks, other, k, c)
  {
    if hunks != [] {
      SpliceSame(base, hunks[1..], accepted, other, k + 1, HunkEnd(hunks[0]));
    }
  }

  lemma {:induction false} PatchAll(
      ops: seq<Op>, base: Lines, edited: Lines, accepted: set<nat>, k: nat, start: bool,
      i: nat, j: nat, oe: nat, ne: nat)
    requires Leads(ops, base, edited, i, j, oe, ne)
    requires forall m: nat :: k <= m <= k + |ops| ==> m in accepted
    ensures Patch(ops, base, edited, accepted, k, start) == NewLines(ops, edited)
    decreases |ops|
  {
    if ops != [] {
      var k' := if Splits(ops[0]) && !start && 1 < |ops| then k + 1 else k;
      PatchAll(ops[1..], base, edited, accepted, k', false, ops[0].OldEnd(), ops[0].NewEnd(), oe, ne);
    }
  }

  lemma {:induction false} PatchNone(ops: seq<Op>, base: Lines, edited: Lines, k: nat, start: bool)
    ensures Patch(ops, base, edited, {}, k, start) == OldLines(ops, base)
    decreases |ops|
  {
    if ops != [] {
      PatchNone(ops[1..], base, edited, if Splits(ops[0]) && !start && 1 < |ops| then k + 1 else k, false);
    }
  }

  /** Accepting every hunk gives the new lines. */
  lemma {:induction false} AcceptAll(ops: seq<Op>, base: Lines, edited: Lines, accepted: set<nat>)
    requires ValidScript(ops, base, edited)
    requires forall m: nat :: m < |DiffHunks(ops, base, edited)| ==> m in accepted
    ensures Splice(base, DiffHunks(ops, base, edited), accepted, 0, 0) == edited
  {
    var all := accepted + AllOf(|ops| + 1);
    SpliceSame(base, DiffHunks(ops, base, edited), accepted, all, 0, 0);
    SpliceIsPatch(ops, base, edited, all);
    PatchAll(ops, base, edited, all, 0, true, 0, 0, |base|, |edited|);
    LeadsSpells(ops, base, edited, 0, 0, |base|, |edited|);
  }

  /** Accepting none gives the old lines back. */
  lemma {:induction false} RejectAll(ops: seq<Op>, base: Lines, edited: Lines, accepted: set<nat>)
    requires ValidScript(ops, base, edited)
    requires forall m: nat :: m < |DiffHunks(ops, base, edited)| ==> m !in accepted
    ensures Splice(base, DiffHunks(ops, base, edited), accepted, 0, 0) == base
  {
    SpliceSame(base, DiffHunks(ops, base, edited), accepted, {}, 0, 0);
    SpliceIsPatch(ops, base, edited, {});
    PatchNone(ops, base, edited, 0, true);
    LeadsSpells(ops, base, edited, 0, 0, |base|, |edited|);
  }

  /** The badge of a text diff: added less removed lines is new less old line count. */
  lemma {:induction false} StatsAreNetLines(ops: seq<Op>, base: Lines, edited: Lines)
    requires ValidScript(ops, base, edited)
    ensures HunkAdds(DiffHunks(ops, base, edited)) - HunkDels(DiffHunks(ops, base, edited)) == |edited| - |base|
  {
    var hunks := DiffHunks(ops, base, edited);
    var all := AllOf(|hunks|);
    DiffHunksWellCut(ops, base, edited);
    AcceptAll(ops, base, edited, all);
    SpliceLength(hunks, all, 0, 0, 0, base, edited);
    NetOfAll(hunks, all, 0);
  }
}
