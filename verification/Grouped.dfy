/** How the ops of a valid script fall into groups, and induction over that.
    The grouping is the one of crates/cuartel-core/src/overlay.rs, line 108. */
module Grouped {
  import opened EditScript

  /** A nonempty group whose ops follow one another. */
  predicate Contiguous(group: seq<Op>, base: Lines, edited: Lines) {
    && group != []
    && var last := group[|group| - 1];
      Leads(group, base, edited, group[0].oldIndex, group[0].newIndex, last.OldEnd(), last.NewEnd())
  }

  lemma {:induction false} LastEnds(ops: seq<Op>, base: Lines, edited: Lines, i: nat, j: nat, oe: nat, ne: nat)
    requires Leads(ops, base, edited, i, j, oe, ne) && ops != []
    ensures ops[|ops| - 1].OldEnd() == oe && ops[|ops| - 1].NewEnd() == ne
    ensures Contiguous(ops, base, edited)
  {
    if 1 < |ops| {
      LastEnds(ops[1..], base, edited, ops[0].OldEnd(), ops[0].NewEnd(), oe, ne);
    }
  }

  /** A pending group that is dropped holds equal lines only. */
  lemma {:induction false} DroppedIsEqual(
      pending: seq<Op>, base: Lines, edited: Lines, lo: nat, nlo: nat, oe: nat, ne: nat)
    requires Leads(pending, base, edited, lo, nlo, oe, ne)
    requires Dropped(pending)
    ensures lo <= oe && nlo <= ne && base[lo..oe] == edited[nlo..ne]
  {
  }

  /** A group that starts at the very beginning may have no old lines, but then the old
      file has none at all. */
  predicate Anchored(lo: nat, nlo: nat, i: nat, oe: nat, base: Lines) {
    lo < i || (lo == oe ==> base == [] && nlo == 0)
  }

  /** A point of the grouping: the ops still to come, the pending group, how many groups
      are closed, where the last of them ended, where the pending group starts and where
      it has got to, each in the old and in the new file. */
  datatype Point = Point(
    ops: seq<Op>, pending: seq<Op>, k: nat, c: nat, d: nat, lo: nat, nlo: nat, i: nat, j: nat)

  /** The pending ops lead from `lo`, `nlo` to `i`, `j`, the rest from there to `oe`, `ne`,
      and the lines before the pending group back to `c`, `d`, like those after the end,
      are the same in both files. */
  predicate Grouping(q: Point, base: Lines, edited: Lines, oe: nat, ne: nat) {
    && Leads(q.pending, base, edited, q.lo, q.nlo, q.i, q.j)
    && Leads(q.ops, base, edited, q.i, q.j, oe, ne)
    && q.c <= q.lo <= |base| && q.d <= q.nlo <= |edited| && base[q.c..q.lo] == edited[q.d..q.nlo]
    && oe <= |base| && ne <= |edited| && base[oe..] == edited[ne..]
    && Anchored(q.lo, q.nlo, q.i, oe, base)
  }

  /** A long equal run closes the pending group and starts the next; any other op joins it. */
  function Next(q: Point): Point
    requires q.ops != []
  {
    var op := q.ops[0];
    if Splits(op) then
      Point(q.ops[1..], [Tail(op)], q.k + 1, q.i + CONTEXT, q.j + CONTEXT,
            Tail(op).oldIndex, Tail(op).newIndex, op.OldEnd(), op.NewEnd())
    else
      Point(q.ops[1..], q.pending + [op], q.k, q.c, q.d, q.lo, q.nlo, op.OldEnd(), op.NewEnd())
  }

  lemma {:induction false} GroupingInside(q: Point, base: Lines, edited: Lines, oe: nat, ne: nat)
    requires Grouping(q, base, edited, oe, ne) && q.ops != []
    ensures var op := q.ops[0];
      && op.oldIndex == q.i && op.newIndex == q.j && SoundOp(op, base, edited)
      && q.c <= q.lo <= q.i <= op.OldEnd() <= oe <= |base|
      && q.d <= q.nlo <= q.j <= op.NewEnd() <= ne <= |edited|
      && Leads(q.pending, base, edited, q.lo, q.nlo, q.i, q.j)
      && Leads(q.ops[1..], base, edited, op.OldEnd(), op.NewEnd(), oe, ne)
  {
  }

  lemma {:induction false} HeadLeads(op: Op, base: Lines, edited: Lines)
    requires Splits(op) && SoundOp(op, base, edited) && op.OldEnd() <= |base| && op.NewEnd() <= |edited|
    ensures Leads([Head(op)], base, edited, op.oldIndex, op.newIndex, op.oldIndex + CONTEXT, op.newIndex + CONTEXT)
  {
    SubSlice(base, edited, op.oldIndex, op.newIndex, op.oldLen, 0, CONTEXT);
    assert [Head(op)][1..] == [];
  }

  lemma {:induction false} TailLeads(op: Op, base: Lines, edited: Lines)
    requires Splits(op) && SoundOp(op, base, edited) && op.OldEnd() <= |base| && op.NewEnd() <= |edited|
    ensures Leads([Tail(op)], base, edited, Tail(op).oldIndex, Tail(op).newIndex, op.OldEnd(), op.NewEnd())
  {
  }

  /** The group that a long equal run closes. */
  lemma {:induction false} ClosedGroup(q: Point, base: Lines, edited: Lines, oe: nat, ne: nat)
    requires Grouping(q, base, edited, oe, ne) && q.ops != [] && Splits(q.ops[0])
    ensures Leads(q.pending + [Head(q.ops[0])], base, edited, q.lo, q.nlo, q.i + CONTEXT, q.j + CONTEXT)
  {
    GroupingInside(q, base, edited, oe, ne);
    HeadLeads(q.ops[0], base, edited);
    LeadsAppend(q.pending, [Head(q.ops[0])], base, edited, q.lo, q.nlo, q.i, q.j, q.i + CONTEXT, q.j + CONTEXT);
  }

  lemma {:induction false} JoinedGroup(q: Point, base: Lines, edited: Lines, oe: nat, ne: nat)
    requires Grouping(q, base, edited, oe, ne) && q.ops != []
    ensures Leads(q.pending + [q.ops[0]], base, edited, q.lo, q.nlo, q.ops[0].OldEnd(), q.ops[0].NewEnd())
  {
    var op := q.ops[0];
    GroupingInside(q, base, edited, oe, ne);
    assert [op][1..] == [];
    LeadsAppend(q.pending, [op], base, edited, q.lo, q.nlo, q.i, q.j, op.OldEnd(), op.NewEnd());
  }

  lemma {:induction false} NextGrouping(q: Point, base: Lines, edited: Lines, oe: nat, ne: nat)
    requires Grouping(q, base, edited, oe, ne) && q.ops != []
    ensures Grouping(Next(q), base, edited, oe, ne)
  {
    var op := q.ops[0];
    GroupingInside(q, base, edited, oe, ne);
    if Splits(op) {
      TailLeads(op, base, edited);
      SubSlice(base, edited, q.i, q.j, op.oldLen, CONTEXT, op.oldLen - CONTEXT);
    } else {
      JoinedGroup(q, base, edited, oe, ne);
    }
  }

  /** Where the grouping starts, and the end of the trimmed script in a file of `size` lines. */
  function Start(ops: seq<Op>): Point {
    var i := FirstCut(ops);
    Point(TrimLast(TrimFirst(ops)), [], 0, 0, 0, i, i, i, i)
  }

  function GroupedTo(ops: seq<Op>, size: nat): nat {
    if LastCut(TrimFirst(ops)) <= size then size - LastCut(TrimFirst(ops)) else 0
  }

  lemma {:induction false} SameEnds(base: Lines, edited: Lines, first: nat, last: nat)
    requires first <= |base| && first <= |edited| && base[..first] == edited[..first]
    requires last <= |base| && last <= |edited| && base[|base| - last..|base|] == edited[|edited| - last..|edited|]
    ensures base[0..first] == edited[0..first] && base[|base| - last..] == edited[|edited| - last..]
  {
  }

  lemma {:induction false} AnchoredStart(ops: seq<Op>, base: Lines, edited: Lines)
    requires ValidScript(ops, base, edited)
    ensures Anchored(FirstCut(ops), FirstCut(ops), FirstCut(ops), GroupedTo(ops, |base|), base)
  {
    var cut := FirstCut(ops);
    TrimFirstLeads(ops, base, edited);
    TrimLastLeads(TrimFirst(ops), base, edited, cut, cut, |base|, |edited|);
  }

  lemma {:induction false} GroupingStart(ops: seq<Op>, base: Lines, edited: Lines)
    requires ValidScript(ops, base, edited)
    ensures Grouping(Start(ops), base, edited, GroupedTo(ops, |base|), GroupedTo(ops, |edited|))
  {
    var cut := FirstCut(ops);
    TrimFirstLeads(ops, base, edited);
    TrimLastLeads(TrimFirst(ops), base, edited, cut, cut, |base|, |edited|);
    SameEnds(base, edited, cut, LastCut(TrimFirst(ops)));
    AnchoredStart(ops, base, edited);
  }

  /** Induction from the end of a grouping: what holds when all ops are grouped, and before
      an op if it holds after it, holds at every point. */
  lemma {:induction false} ByGrouping(
      q: Point, p: Point -> bool, base: Lines, edited: Lines, oe: nat, ne: nat)
    requires Grouping(q, base, edited, oe, ne)
    requires forall r: Point {:trigger Grouping(r, base, edited, oe, ne)} ::
               Grouping(r, base, edited, oe, ne) && (r.ops != [] ==> p(Next(r))) ==> p(r)
    ensures p(q)
    decreases |q.ops|
  {
    if q.ops != [] {
      NextGrouping(q, base, edited, oe, ne);
      ByGrouping(Next(q), p, base, edited, oe, ne);
    }
  }

  ghost predicate AllContiguous(groups: seq<seq<Op>>, base: Lines, edited: Lines) {
    forall k :: 0 <= k < |groups| ==> Contiguous(groups[k], base, edited)
  }

  lemma {:induction false} GroupsStep(q: Point, base: Lines, edited: Lines, oe: nat, ne: nat)
    requires Grouping(q, base, edited, oe, ne)
    requires q.ops != [] ==> AllContiguous(Groups(Next(q).ops, Next(q).pending), base, edited)
    ensures AllContiguous(Groups(q.ops, q.pending), base, edited)
  {
    if q.ops == [] {
      if q.pending != [] {
        LastEnds(q.pending, base, edited, q.lo, q.nlo, q.i, q.j);
      }
    } else if Splits(q.ops[0]) {
      ClosedGroup(q, base, edited, oe, ne);
      LastEnds(q.pending + [Head(q.ops[0])], base, edited, q.lo, q.nlo, q.i + CONTEXT, q.j + CONTEXT);
    }
  }

  /** Every group is nonempty and its ops follow one another. */
  lemma {:induction false} ScriptContiguous(ops: seq<Op>, base: Lines, edited: Lines)
    requires ValidScript(ops, base, edited)
    ensures AllContiguous(GroupedOps(ops), base, edited)
  {
    var oe, ne := GroupedTo(ops, |base|), GroupedTo(ops, |edited|);
    GroupingStart(ops, base, edited);
    var p := (q: Point) => AllContiguous(Groups(q.ops, q.pending), base, edited);
    forall q | Grouping(q, base, edited, oe, ne) && (q.ops != [] ==> p(Next(q)))
      ensures p(q)
    {
      GroupsStep(q, base, edited, oe, ne);
    }
    ByGrouping(Start(ops), p, base, edited, oe, ne);
  }
}
