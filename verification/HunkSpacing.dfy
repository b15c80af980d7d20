/** Hunks of one diff never touch, and when they fit a file of some other length.
    Over crates/cuartel-core/src/overlay.rs, lines 104 to 139, and
    crates/cuartel-core/src/review.rs, lines 190 to 234. */
module HunkSpacing {
  import opened EditScript
  import opened Grouped
  import opened Overlay
  import opened Review

  /** Each hunk starts past the end of the one before it, the first past old line `c`. */
  predicate Spaced(hunks: seq<DiffHunk>, c: nat) {
    hunks == [] || (c < HunkStart(hunks[0]) && Spaced(hunks[1..], HunkEnd(hunks[0])))
  }

  predicate SpacedFrom(hunks: seq<DiffHunk>, lo: nat) {
    hunks == [] || (HunkStart(hunks[0]) == lo && Spaced(hunks[1..], HunkEnd(hunks[0])))
  }

  ghost predicate RestSpaced(q: Point, render: Renderer) {
    SpacedFrom(HunksOf(Groups(q.ops, q.pending), render), q.lo)
  }

  lemma {:induction false} SpacedCons(h: DiffHunk, rest: seq<DiffHunk>, lo: nat, next: nat)
    requires HunkStart(h) == lo && HunkEnd(h) < next && SpacedFrom(rest, next)
    ensures SpacedFrom([h] + rest, lo)
  {
    assert ([h] + rest)[1..] == rest;
  }

  lemma {:induction false} LastSpaced(q: Point, render: Renderer, base: Lines, edited: Lines, oe: nat, ne: nat)
    requires Renders(render, base, edited) && Grouping(q, base, edited, oe, ne) && q.ops == []
    ensures RestSpaced(q, render)
  {
    if !Dropped(q.pending) {
      OnlyGroup(q.pending, render);
      HunkDescribes(q.pending, render, base, edited, q.lo, q.nlo, oe, ne);
    }
  }

  lemma {:induction false} ClosedSpaced(q: Point, render: Renderer, base: Lines, edited: Lines, oe: nat, ne: nat)
    requires Renders(render, base, edited) && Grouping(q, base, edited, oe, ne) && q.ops != [] && Splits(q.ops[0])
    requires RestSpaced(Next(q), render)
    ensures RestSpaced(q, render)
  {
    var group := q.pending + [Head(q.ops[0])];
    GroupingInside(q, base, edited, oe, ne);
    ClosedGroup(q, base, edited, oe, ne);
    FirstGroup(q.ops, q.pending, render);
    HunkDescribes(group, render, base, edited, q.lo, q.nlo, q.i + CONTEXT, q.j + CONTEXT);
    SpacedCons(HunkOf(group, render), HunksOf(Groups(Next(q).ops, Next(q).pending), render), q.lo, Next(q).lo);
  }

  lemma {:induction false} GroupsSpaced(q: Point, render: Renderer, base: Lines, edited: Lines, oe: nat, ne: nat)
    requires Renders(render, base, edited) && Grouping(q, base, edited, oe, ne)
    ensures RestSpaced(q, render)
  {
    var p := (r: Point) => RestSpaced(r, render);
    forall r | Grouping(r, base, edited, oe, ne) && (r.ops != [] ==> p(Next(r)))
      ensures p(r)
    {
      if r.ops == [] {
        LastSpaced(r, render, base, edited, oe, ne);
      } else if Splits(r.ops[0]) {
        ClosedSpaced(r, render, base, edited, oe, ne);
      }
    }
    ByGrouping(q, p, base, edited, oe, ne);
  }

  /** Between two hunks of a diff at least one old line is left out. */
  lemma {:induction false} DiffHunksSpaced(ops: seq<Op>, base: Lines, edited: Lines)
    requires ValidScript(ops, base, edited)
    ensures SpacedFrom(DiffHunks(ops, base, edited), Start(ops).lo)
  {
    GroupingStart(ops, base, edited);
    LinesOfRenders(base, edited);
    GroupsSpaced(Start(ops), LinesOf(base, edited), base, edited, GroupedTo(ops, |base|), GroupedTo(ops, |edited|));
  }

  // ---------- when the hunks fit ----------

  predicate GoodHeaders(hunks: seq<DiffHunk>) {
    forall h :: h in hunks ==> h.oldCount == 0 || 1 <= h.oldStart
  }

  /** The last hunk starts inside a file of that many lines, or at its end. */
  predicate LastFits(hunks: seq<DiffHunk>, size: nat) {
    hunks == [] || HunkStart(hunks[|hunks| - 1]) <= size
  }

  lemma {:induction false} SpacedFits(hunks: seq<DiffHunk>, c: nat, size: nat)
    requires Spaced(hunks, c) && GoodHeaders(hunks)
    ensures NoPanic(hunks, c, size) <==> LastFits(hunks, size)
    ensures hunks != [] ==> HunkStart(hunks[0]) <= HunkStart(hunks[|hunks| - 1])
  {
    if hunks != [] {
      SpacedFits(hunks[1..], HunkEnd(hunks[0]), size);
    }
  }

  lemma {:induction false} WellCutHeaders(hunks: seq<DiffHunk>, c: nat, d: nat, base: Lines, edited: Lines)
    requires WellCut(hunks, c, d, base, edited)
    ensures GoodHeaders(hunks)
  {
    if hunks != [] {
      var h := hunks[0];
      WellCutHeaders(hunks[1..], HunkStart(h) + h.oldCount, d + (HunkStart(h) - c) + h.newCount, base, edited);
    }
  }

  /** Applied to a file of any length, the hunks of a diff make `apply_hunks` panic if and
      only if the last of them starts past the end of that file. */
  lemma {:induction false} DiffHunksFit(ops: seq<Op>, base: Lines, edited: Lines, size: nat)
    requires ValidScript(ops, base, edited)
    ensures NoPanic(DiffHunks(ops, base, edited), 0, size) <==> LastFits(DiffHunks(ops, base, edited), size)
  {
    var hunks := DiffHunks(ops, base, edited);
    DiffHunksWellCut(ops, base, edited);
    WellCutHeaders(hunks, 0, 0, base, edited);
    DiffHunksSpaced(ops, base, edited);
    if hunks != [] {
      SpacedFits(hunks[1..], HunkEnd(hunks[0]), size);
    }
  }
}
