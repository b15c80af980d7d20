/** Hunks cut from an edit script.
    Models crates/cuartel-core/src/overlay.rs, lines 31 to 149. */
module Overlay {
  import opened Wrappers
  import opened EditScript
  import opened Grouped

  datatype DiffLine = Context(text: Line) | Added(text: Line) | Removed(text: Line)

  datatype DiffHunk = DiffHunk(
    oldStart: nat, oldCount: nat, newStart: nat, newCount: nat, lines: seq<DiffLine>)

  // ---------- lines of a hunk ----------

  /** `strip_trailing_newline`. */
  function StripNewline(s: string): string {
    if 2 <= |s| && s[|s| - 2] == '\r' && s[|s| - 1] == '\n' then s[..|s| - 2]
    else if 1 <= |s| && s[|s| - 1] == '\n' then s[..|s| - 1]
    else s
  }

  function Stripped(tokens: seq<string>): Lines {
    seq(|tokens|, i requires 0 <= i < |tokens| => StripNewline(tokens[i]))
  }

  function Tagged(tag: Line -> DiffLine, lines: Lines): seq<DiffLine> {
    seq(|lines|, i requires 0 <= i < |lines| => tag(lines[i]))
  }

  function AsContext(s: Line): DiffLine { Context(s) }
  function AsAdded(s: Line): DiffLine { Added(s) }
  function AsRemoved(s: Line): DiffLine { Removed(s) }

  /** The changes of one op, as `iter_changes` lists them. */
  function OpLines(op: Op, base: Lines, edited: Lines): seq<DiffLine> {
    match op.tag
    case Equal => Tagged(AsContext, op.OldPart(base))
    case Delete => Tagged(AsRemoved, op.OldPart(base))
    case Insert => Tagged(AsAdded, op.NewPart(edited))
    case Replace => Tagged(AsRemoved, op.OldPart(base)) + Tagged(AsAdded, op.NewPart(edited))
  }

  function GroupLines(group: seq<Op>, base: Lines, edited: Lines): seq<DiffLine> {
    if group == [] then [] else OpLines(group[0], base, edited) + GroupLines(group[1..], base, edited)
  }

  /** The old side of a hunk keeps context and removed lines, the new side context and
      added lines. */
  predicate Keeps(line: DiffLine, newSide: bool) {
    line.Context? || (if newSide then line.Added? else line.Removed?)
  }

  function Side(lines: seq<DiffLine>, newSide: bool): Lines {
    if lines == [] then []
    else (if Keeps(lines[0], newSide) then [lines[0].text] else []) + Side(lines[1..], newSide)
  }

  lemma {:induction false} SideConcat(a: seq<DiffLine>, b: seq<DiffLine>, newSide: bool)
    ensures Side(a + b, newSide) == Side(a, newSide) + Side(b, newSide)
  {
    if a == [] {
      assert a + b == b;
    } else {
      SideConcat(a[1..], b, newSide);
      assert (a + b)[1..] == a[1..] + b;
      Associate(if Keeps(a[0], newSide) then [a[0].text] else [], Side(a[1..], newSide), Side(b, newSide));
    }
  }

  lemma {:induction false} TaggedSide(tag: Line -> DiffLine, lines: Lines, newSide: bool, kept: bool)
    requires forall s :: tag(s).text == s && Keeps(tag(s), newSide) == kept
    ensures Side(Tagged(tag, lines), newSide) == if kept then lines else []
  {
    if lines != [] {
      TaggedSide(tag, lines[1..], newSide, kept);
      assert Tagged(tag, lines)[1..] == Tagged(tag, lines[1..]);
      assert Tagged(tag, lines)[0] == tag(lines[0]);
    }
  }

  /** Either side of a script, as lines of the two files. */
  function ScriptSide(ops: seq<Op>, base: Lines, edited: Lines, newSide: bool): Lines {
    if newSide then NewLines(ops, edited) else OldLines(ops, base)
  }

  lemma {:induction false} OpSide(op: Op, base: Lines, edited: Lines, newSide: bool)
    requires SoundOp(op, base, edited)
    ensures Side(OpLines(op, base, edited), newSide) == if newSide then op.NewPart(edited) else op.OldPart(base)
  {
    var o, n := op.OldPart(base), op.NewPart(edited);
    TaggedSide(AsContext, o, newSide, true);
    TaggedSide(AsRemoved, o, newSide, !newSide);
    TaggedSide(AsAdded, n, newSide, newSide);
    SideConcat(Tagged(AsRemoved, o), Tagged(AsAdded, n), newSide);
  }

  /** A hunk's lines spell the old and the new lines of its ops. */
  lemma {:induction false} GroupSide(
      group: seq<Op>, base: Lines, edited: Lines, i: nat, j: nat, oe: nat, ne: nat, newSide: bool)
    requires Leads(group, base, edited, i, j, oe, ne)
    ensures Side(GroupLines(group, base, edited), newSide) == ScriptSide(group, base, edited, newSide)
  {
    if group != [] {
      var op := group[0];
      GroupSide(group[1..], base, edited, op.OldEnd(), op.NewEnd(), oe, ne, newSide);
      OpSide(op, base, edited, newSide);
      SideConcat(OpLines(op, base, edited), GroupLines(group[1..], base, edited), newSide);
    }
  }

  // ---------- hunks ----------

  function Span(from: nat, to: nat): nat { if from <= to then to - from else 0 }

  /** How the ops of a group become diff lines. */
  type Renderer = seq<Op> -> seq<DiffLine>

  function HunkOf(group: seq<Op>, render: Renderer): DiffHunk
    requires group != []
  {
    var first, last := group[0], group[|group| - 1];
    var oldCount, newCount := Span(first.oldIndex, last.OldEnd()), Span(first.newIndex, last.NewEnd());
    DiffHunk(
      if oldCount == 0 then 0 else first.oldIndex + 1, oldCount,
      if newCount == 0 then 0 else first.newIndex + 1, newCount,
      render(group))
  }

  /** One hunk for each group that is not empty. */
  function HunksOf(groups: seq<seq<Op>>, render: Renderer): seq<DiffHunk> {
    if groups == [] then []
    else (if groups[0] == [] then [] else [HunkOf(groups[0], render)]) + HunksOf(groups[1..], render)
  }

  /** The lines of a group spell its stretch of the old file and of the new file. */
  ghost predicate RendersGroup(render: Renderer, base: Lines, edited: Lines,
                               group: seq<Op>, i: nat, j: nat, oe: nat, ne: nat)
  {
    i <= oe <= |base| && j <= ne <= |edited| && Leads(group, base, edited, i, j, oe, ne) ==>
      Side(render(group), false) == base[i..oe] && Side(render(group), true) == edited[j..ne]
  }

  ghost predicate Renders(render: Renderer, base: Lines, edited: Lines) {
    forall group, i, j, oe, ne :: RendersGroup(render, base, edited, group, i, j, oe, ne)
  }

  /** The lines of a group, context, removed and added, of two given files. */
  function LinesOf(base: Lines, edited: Lines): Renderer {
    (group: seq<Op>) => GroupLines(group, base, edited)
  }

  lemma {:induction false} LinesOfRenders(base: Lines, edited: Lines)
    ensures Renders(LinesOf(base, edited), base, edited)
  {
    forall group: seq<Op>, i: nat, j: nat, oe: nat, ne: nat
      ensures RendersGroup(LinesOf(base, edited), base, edited, group, i, j, oe, ne)
    {
      if i <= oe <= |base| && j <= ne <= |edited| && Leads(group, base, edited, i, j, oe, ne) {
        LeadsSpells(group, base, edited, i, j, oe, ne);
        GroupSide(group, base, edited, i, j, oe, ne, false);
        GroupSide(group, base, edited, i, j, oe, ne, true);
      }
    }
  }

  // ---------- what the hunks of a diff are ----------

  /** Where `apply_hunks` takes a hunk to start in the old file, counted from 0. */
  function HunkStart(h: DiffHunk): nat {
    if h.oldCount == 0 then (if h.newStart == 0 then 0 else h.newStart - 1)
    else if h.oldStart == 0 then 0 else h.oldStart - 1
  }

  function HunkEnd(h: DiffHunk): nat { HunkStart(h) + h.oldCount }

  /** The header of a hunk is that of the stretch from old line `lo` and new line `nlo`,
      its counts are those of its lines, and its sides are the lines of both files. */
  ghost predicate Describes(h: DiffHunk, lo: nat, nlo: nat, base: Lines, edited: Lines) {
    && h.oldStart == (if h.oldCount == 0 then 0 else lo + 1)
    && h.newStart == (if h.newCount == 0 then 0 else nlo + 1)
    && lo + h.oldCount <= |base| && nlo + h.newCount <= |edited|
    && Side(h.lines, false) == base[lo..lo + h.oldCount]
    && Side(h.lines, true) == edited[nlo..nlo + h.newCount]
    && (h.oldCount == 0 ==> base == [])
  }

  /** The hunks, in order and disjoint, account for every difference from old line `c` and
      new line `d` on: between them, and after the last, both files have the same lines. */
  ghost predicate WellCut(hunks: seq<DiffHunk>, c: nat, d: nat, base: Lines, edited: Lines) {
    && c <= |base| && d <= |edited|
    && if hunks == [] then base[c..] == edited[d..]
       else
         var h := hunks[0];
         var lo := HunkStart(h);
         && c <= lo <= |base|
         && var nlo := d + (lo - c);
           && nlo <= |edited| && base[c..lo] == edited[d..nlo]
           && Describes(h, lo, nlo, base, edited)
           && WellCut(hunks[1..], lo + h.oldCount, nlo + h.newCount, base, edited)
  }

  lemma {:induction false} HunkDescribes(group: seq<Op>, render: Renderer, base: Lines, edited: Lines,
                                         lo: nat, nlo: nat, oe: nat, ne: nat)
    requires Renders(render, base, edited) && Leads(group, base, edited, lo, nlo, oe, ne) && group != []
    requires lo == oe ==> base == [] && nlo == 0
    ensures var h := HunkOf(group, render);
      && HunkStart(h) == lo && lo + h.oldCount == oe && nlo + h.newCount == ne
      && Describes(h, lo, nlo, base, edited)
  {
    LeadsInside(group, base, edited, lo, nlo, oe, ne);
    LastEnds(group, base, edited, lo, nlo, oe, ne);
    assert RendersGroup(render, base, edited, group, lo, nlo, oe, ne);
  }

  /** One more hunk in front. */
  lemma {:induction false} WellCutCons(
      h: DiffHunk, rest: seq<DiffHunk>, base: Lines, edited: Lines, c: nat, d: nat, lo: nat, nlo: nat)
    requires c <= lo <= |base| && d <= nlo <= |edited| && base[c..lo] == edited[d..nlo]
    requires HunkStart(h) == lo && Describes(h, lo, nlo, base, edited)
    requires WellCut(rest, lo + h.oldCount, nlo + h.newCount, base, edited)
    ensures WellCut([h] + rest, c, d, base, edited)
  {
    assert ([h] + rest)[1..] == rest;
    assert |base[c..lo]| == |edited[d..nlo]|;
  }

  /** The hunk of a group in front of well-cut hunks. */
  lemma {:induction false} GroupWellCut(
      group: seq<Op>, rest: seq<DiffHunk>, render: Renderer, base: Lines, edited: Lines,
                                        c: nat, d: nat, lo: nat, nlo: nat, oe: nat, ne: nat)
    requires Renders(render, base, edited) && Leads(group, base, edited, lo, nlo, oe, ne) && group != []
    requires lo == oe ==> base == [] && nlo == 0
    requires c <= lo <= |base| && d <= nlo <= |edited| && base[c..lo] == edited[d..nlo]
    requires WellCut(rest, oe, ne, base, edited)
    ensures WellCut([HunkOf(group, render)] + rest, c, d, base, edited)
  {
    HunkDescribes(group, render, base, edited, lo, nlo, oe, ne);
    WellCutCons(HunkOf(group, render), rest, base, edited, c, d, lo, nlo);
  }

  lemma {:induction false} OnlyGroup(pending: seq<Op>, render: Renderer)
    requires pending != []
    ensures HunksOf([pending], render) == [HunkOf(pending, render)] + []
  {
  }

  lemma {:induction false} LastGap(pending: seq<Op>, base: Lines, edited: Lines,
                c: nat, d: nat, lo: nat, nlo: nat, oe: nat, ne: nat)
    requires Leads(pending, base, edited, lo, nlo, oe, ne)
    requires Dropped(pending)
    requires c <= lo && d <= nlo && lo <= |base| && nlo <= |edited|
    requires base[c..lo] == edited[d..nlo] && base[oe..] == edited[ne..]
    ensures base[c..] == edited[d..]
  {
  }

  lemma {:induction false} LastGroupWellCut(
      q: Point, render: Renderer, base: Lines, edited: Lines, oe: nat, ne: nat)
    requires Renders(render, base, edited) && Grouping(q, base, edited, oe, ne) && q.ops == []
    ensures WellCut(HunksOf(Groups([], q.pending), render), q.c, q.d, base, edited)
  {
    if Dropped(q.pending) {
      LastGap(q.pending, base, edited, q.c, q.d, q.lo, q.nlo, oe, ne);
    } else {
      OnlyGroup(q.pending, render);
      GroupWellCut(q.pending, [], render, base, edited, q.c, q.d, q.lo, q.nlo, oe, ne);
    }
  }

  lemma {:induction false} FirstGroup(ops: seq<Op>, pending: seq<Op>, render: Renderer)
    requires ops != [] && Splits(ops[0])
    ensures HunksOf(Groups(ops, pending), render)
         == [HunkOf(pending + [Head(ops[0])], render)] + HunksOf(Groups(ops[1..], [Tail(ops[0])]), render)
  {
  }

  lemma {:induction false} EarlierGroupWellCut(
      q: Point, render: Renderer, base: Lines, edited: Lines, oe: nat, ne: nat)
    requires Renders(render, base, edited) && Grouping(q, base, edited, oe, ne) && q.ops != [] && Splits(q.ops[0])
    requires WellCut(HunksOf(Groups(q.ops[1..], [Tail(q.ops[0])]), render), q.i + CONTEXT, q.j + CONTEXT, base, edited)
    ensures WellCut(HunksOf(Groups(q.ops, q.pending), render), q.c, q.d, base, edited)
  {
    GroupingInside(q, base, edited, oe, ne);
    ClosedGroup(q, base, edited, oe, ne);
    FirstGroup(q.ops, q.pending, render);
    GroupWellCut(q.pending + [Head(q.ops[0])], HunksOf(Groups(q.ops[1..], [Tail(q.ops[0])]), render),
      render, base, edited, q.c, q.d, q.lo, q.nlo, q.i + CONTEXT, q.j + CONTEXT);
  }

  /** The hunks of a diff. */
  function DiffHunks(ops: seq<Op>, base: Lines, edited: Lines): seq<DiffHunk> {
    HunksOf(GroupedOps(ops), LinesOf(base, edited))
  }

  ghost predicate RestWellCut(q: Point, render: Renderer, base: Lines, edited: Lines) {
    WellCut(HunksOf(Groups(q.ops, q.pending), render), q.c, q.d, base, edited)
  }

  lemma {:induction false} NextWellCut(q: Point, render: Renderer, base: Lines, edited: Lines)
    requires q.ops != [] && Splits(q.ops[0]) && RestWellCut(Next(q), render, base, edited)
    ensures WellCut(HunksOf(Groups(q.ops[1..], [Tail(q.ops[0])]), render), q.i + CONTEXT, q.j + CONTEXT, base, edited)
  {
  }

  lemma {:induction false} WellCutStep(q: Point, render: Renderer, base: Lines, edited: Lines, oe: nat, ne: nat)
    requires Renders(render, base, edited) && Grouping(q, base, edited, oe, ne)
    requires q.ops != [] ==> RestWellCut(Next(q), render, base, edited)
    ensures RestWellCut(q, render, base, edited)
  {
    if q.ops == [] {
      LastGroupWellCut(q, render, base, edited, oe, ne);
    } else if Splits(q.ops[0]) {
      NextWellCut(q, render, base, edited);
      EarlierGroupWellCut(q, render, base, edited, oe, ne);
    }
  }

  lemma {:induction false} GroupsWellCut(q: Point, render: Renderer, base: Lines, edited: Lines, oe: nat, ne: nat)
    requires Renders(render, base, edited) && Grouping(q, base, edited, oe, ne)
    ensures RestWellCut(q, render, base, edited)
  {
    var p := (r: Point) => RestWellCut(r, render, base, edited);
    forall r | Grouping(r, base, edited, oe, ne) && (r.ops != [] ==> p(Next(r)))
      ensures p(r)
    {
      WellCutStep(r, render, base, edited, oe, ne);
    }
    ByGrouping(q, p, base, edited, oe, ne);
  }

  /** Hunks cut from any valid edit script are in order and disjoint, describe their
      stretches of both files, and leave only equal lines between them. */
  lemma {:induction false} DiffHunksWellCut(ops: seq<Op>, base: Lines, edited: Lines)
    requires ValidScript(ops, base, edited)
    ensures WellCut(DiffHunks(ops, base, edited), 0, 0, base, edited)
  {
    GroupingStart(ops, base, edited);
    LinesOfRenders(base, edited);
    GroupsWellCut(Start(ops), LinesOf(base, edited), base, edited, GroupedTo(ops, |base|), GroupedTo(ops, |edited|));
  }

  // ---------- text_hunks ----------

  function StripLine(line: DiffLine): DiffLine {
    match line
    case Context(s) => Context(StripNewline(s))
    case Added(s) => Added(StripNewline(s))
    case Removed(s) => Removed(StripNewline(s))
  }

  function StripLines(lines: seq<DiffLine>): seq<DiffLine> {
    seq(|lines|, i requires 0 <= i < |lines| => StripLine(lines[i]))
  }

  lemma {:induction false} StrippedParts(op: Op, base: seq<string>, edited: seq<string>)
    ensures Stripped(op.OldPart(base)) == op.OldPart(Stripped(base))
    ensures Stripped(op.NewPart(edited)) == op.NewPart(Stripped(edited))
  {
  }

  lemma {:induction false} StrippedLeads(
      ops: seq<Op>, base: seq<string>, edited: seq<string>, i: nat, j: nat, oe: nat, ne: nat)
    requires Leads(ops, base, edited, i, j, oe, ne)
    ensures Leads(ops, Stripped(base), Stripped(edited), i, j, oe, ne)
  {
    if ops != [] {
      StrippedParts(ops[0], base, edited);
      StrippedLeads(ops[1..], base, edited, ops[0].OldEnd(), ops[0].NewEnd(), oe, ne);
    }
  }

  lemma {:induction false} StrippedTags(tag: Line -> DiffLine, lines: seq<string>)
    requires forall s :: StripLine(tag(s)) == tag(StripNewline(s))
    ensures StripLines(Tagged(tag, lines)) == Tagged(tag, Stripped(lines))
  {
  }

  lemma {:induction false} StripConcat(a: seq<DiffLine>, b: seq<DiffLine>)
    ensures StripLines(a + b) == StripLines(a) + StripLines(b)
  {
  }

  /** Stripping the changes of an op is taking the changes of the stripped files. */
  lemma {:induction false} StrippedOpLines(op: Op, base: seq<string>, edited: seq<string>)
    ensures StripLines(OpLines(op, base, edited)) == OpLines(op, Stripped(base), Stripped(edited))
  {
    var o, n := op.OldPart(base), op.NewPart(edited);
    StrippedParts(op, base, edited);
    match op.tag
    case Equal => StrippedTags(AsContext, o);
    case Delete => StrippedTags(AsRemoved, o);
    case Insert => StrippedTags(AsAdded, n);
    case Replace =>
      StrippedTags(AsRemoved, o);
      StrippedTags(AsAdded, n);
      StripConcat(Tagged(AsRemoved, o), Tagged(AsAdded, n));
  }

  lemma {:induction false} PrefixGroupLines(group: seq<Op>, k: nat, base: Lines, edited: Lines)
    requires k < |group|
    ensures GroupLines(group[..k + 1], base, edited)
         == GroupLines(group[..k], base, edited) + OpLines(group[k], base, edited)
    decreases k
  {
    assert group[..k + 1][1..] == group[1..][..k];
    if 0 < k {
      PrefixGroupLines(group[1..], k - 1, base, edited);
      assert group[..k][1..] == group[1..][..k - 1];
      Associate(OpLines(group[0], base, edited), GroupLines(group[1..][..k - 1], base, edited),
        OpLines(group[k], base, edited));
    }
  }

  lemma {:induction false} PrefixHunks(groups: seq<seq<Op>>, k: nat, render: Renderer)
    requires k < |groups| && groups[k] != []
    ensures HunksOf(groups[..k + 1], render) == HunksOf(groups[..k], render) + [HunkOf(groups[k], render)]
    decreases k
  {
    assert groups[..k + 1][1..] == groups[1..][..k];
    if 0 < k {
      PrefixHunks(groups[1..], k - 1, render);
      assert groups[..k][1..] == groups[1..][..k - 1];
    }
  }

  /** The innermost loop: the changes of an op, each with its terminator stripped. */
  method PushChanges(changes: seq<DiffLine>, lines: seq<DiffLine>) returns (lines': seq<DiffLine>)
    ensures lines' == lines + StripLines(changes)
  {
    lines' := lines;
    for m := 0 to |changes|
      invariant lines' == lines + StripLines(changes[..m])
    {
      lines' := lines' + [StripLine(changes[m])];
      assert StripLines(changes[..m + 1]) == StripLines(changes[..m]) + [StripLine(changes[m])];
    }
    assert changes[..|changes|] == changes;
  }

  /** Every change of every op of a group. */
  method HunkLines(group: seq<Op>, base: seq<string>, edited: seq<string>) returns (lines: seq<DiffLine>)
    ensures lines == GroupLines(group, Stripped(base), Stripped(edited))
  {
    ghost var b, e := Stripped(base), Stripped(edited);
    lines := [];
    for k := 0 to |group|
      invariant lines == GroupLines(group[..k], b, e)
    {
      StrippedOpLines(group[k], base, edited);
      PrefixGroupLines(group, k, b, e);
      lines := PushChanges(OpLines(group[k], base, edited), lines);
    }
    assert group[..|group|] == group;
  }

  lemma {:induction false} GroupSpans(ops: seq<Op>, base: Lines, edited: Lines, n: nat)
    requires ValidScript(ops, base, edited) && n < |GroupedOps(ops)|
    ensures var group := GroupedOps(ops)[n];
      && group != []
      && group[0].oldIndex <= group[|group| - 1].OldEnd() && group[0].newIndex <= group[|group| - 1].NewEnd()
  {
    ScriptContiguous(ops, base, edited);
    var group := GroupedOps(ops)[n];
    assert Contiguous(group, base, edited);
    var last := group[|group| - 1];
    LeadsInside(group, base, edited, group[0].oldIndex, group[0].newIndex, last.OldEnd(), last.NewEnd());
  }

  /** The body of the loop over the groups.  No subtraction underflows. */
  method HunkFor(group: seq<Op>, base: seq<string>, edited: seq<string>) returns (h: DiffHunk)
    requires group != []
    requires group[0].oldIndex <= group[|group| - 1].OldEnd() && group[0].newIndex <= group[|group| - 1].NewEnd()
    ensures h == HunkOf(group, LinesOf(Stripped(base), Stripped(edited)))
  {
    var first, last := group[0], group[|group| - 1];
    var oldLo, oldHi, newLo, newHi := first.oldIndex, last.OldEnd(), first.newIndex, last.NewEnd();
    var oldCount: nat, newCount: nat := oldHi - oldLo, newHi - newLo;
    var lines := HunkLines(group, base, edited);
    h := DiffHunk(
      if oldCount == 0 then 0 else oldLo + 1, oldCount,
      if newCount == 0 then 0 else newLo + 1, newCount, lines);
  }

  method GroupedHunks(groups: seq<seq<Op>>, ghost ops: seq<Op>, base: seq<string>, edited: seq<string>)
    returns (hunks: seq<DiffHunk>)
    requires ValidScript(ops, base, edited) && groups == GroupedOps(ops)
    ensures hunks == HunksOf(groups, LinesOf(Stripped(base), Stripped(edited)))
  {
    hunks := [];
    ghost var render := LinesOf(Stripped(base), Stripped(edited));
    for n := 0 to |groups|
      invariant hunks == HunksOf(groups[..n], render)
    {
      GroupSpans(ops, base, edited, n);
      var h := HunkFor(groups[n], base, edited);
      hunks := hunks + [h];
      PrefixHunks(groups, n, render);
    }
    assert groups[..|groups|] == groups;
  }

  /** The loop over the groups, with the lines of the two files still carrying their
      terminators, as the diff library sees them. */
  method TextHunks(ops: seq<Op>, base: seq<string>, edited: seq<string>) returns (hunks: seq<DiffHunk>)
    requires ValidScript(ops, base, edited)
    ensures ValidScript(ops, Stripped(base), Stripped(edited))
    ensures hunks == DiffHunks(ops, Stripped(base), Stripped(edited))
  {
    StrippedLeads(ops, base, edited, 0, 0, |base|, |edited|);
    hunks := GroupedHunks(GroupedOps(ops), ops, base, edited);
  }
}
