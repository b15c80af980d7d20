/** Where a diff is cut into hunks, and what each of its ops becomes in them.
    Over crates/cuartel-core/src/overlay.rs, lines 104 to 139, in which `grouped_ops(3)`
    keeps three lines of context: runs of more than six equal lines are cut. */
module HunkCuts {
  import opened Wrappers
  import opened EditScript
  import opened Grouped
  import opened Overlay
  import opened HunkSpacing

  // ---------- what a hunk shows ----------

  /** Line `x` of the old file, counted from 0, is one of those in the header of the hunk. */
  predicate Covers(h: DiffHunk, x: int) { h.oldStart <= x + 1 < h.oldStart + h.oldCount }

  ghost predicate CoversFrom(h: DiffHunk, from: int) { forall x :: Covers(h, x) ==> from <= x }

  ghost predicate CoversTo(h: DiffHunk, upto: int) { forall x :: Covers(h, x) ==> x < upto }

  predicate CoversAll(h: DiffHunk, from: int, upto: int) {
    forall x :: from <= x < upto ==> Covers(h, x)
  }

  predicate CoversNone(hunks: seq<DiffHunk>, from: int, upto: int) {
    forall m, x :: 0 <= m < |hunks| && from <= x < upto ==> !Covers(hunks[m], x)
  }

  ghost predicate IsPart(own: seq<DiffLine>, all: seq<DiffLine>) {
    exists front, back :: all == front + own + back
  }

  ghost predicate IsEnd(own: seq<DiffLine>, all: seq<DiffLine>) {
    exists front :: all == front + own
  }

  /** The hunk covers these old lines, and lists `shown` without a break. */
  ghost predicate Shows(h: DiffHunk, from: int, upto: int, shown: seq<DiffLine>) {
    CoversAll(h, from, upto) && IsPart(shown, h.lines)
  }

  /** It starts with them. */
  ghost predicate Opens(h: DiffHunk, from: int, upto: int, shown: seq<DiffLine>) {
    CoversAll(h, from, upto) && shown <= h.lines && CoversFrom(h, from)
  }

  /** It ends with them. */
  ghost predicate Closes(h: DiffHunk, from: int, upto: int, shown: seq<DiffLine>) {
    CoversAll(h, from, upto) && IsEnd(shown, h.lines) && CoversTo(h, upto)
  }

  function Contexts(lines: Lines): seq<DiffLine> { seq(|lines|, i requires 0 <= i < |lines| => Context(lines[i])) }

  function Removals(lines: Lines): seq<DiffLine> { seq(|lines|, i requires 0 <= i < |lines| => Removed(lines[i])) }

  function Additions(lines: Lines): seq<DiffLine> { seq(|lines|, i requires 0 <= i < |lines| => Added(lines[i])) }

  /** An op that is neither the first nor the last of the script. */
  predicate IsInner(ops: seq<Op>, k: int) { 0 < k < |ops| - 1 }

  predicate IsLongRun(op: Op) { op.tag == Equal && 6 < op.oldLen }

  // ---------- trimming leaves the inner ops alone ----------

  function Trimmed(ops: seq<Op>): seq<Op> { TrimLast(TrimFirst(ops)) }

  lemma {:induction false} TrimLastAt(ops: seq<Op>, k: nat)
    requires k < |ops|
    ensures |TrimLast(ops)| == |ops|
    ensures TrimLast(ops)[k] == if k < |ops| - 1 then ops[k] else TrimLast([ops[k]])[0]
  {
    if |ops| == 1 {
      assert ops == [ops[0]];
    } else {
      TrimLastAt(ops[1..], if k == 0 then 0 else k - 1);
    }
  }

  lemma {:induction false} TrimmedAt(ops: seq<Op>, k: nat)
    requires k < |ops|
    ensures |Trimmed(ops)| == |ops|
    ensures IsInner(ops, k) || ops[k].tag != Equal || ops[k].oldLen <= 3 ==> Trimmed(ops)[k] == ops[k]
    ensures 2 <= |ops| && ops[k].tag == Equal && 3 < ops[k].oldLen ==>
              var op := ops[k];
              && (k == 0 ==> Trimmed(ops)[k] == EqualRun(op.OldEnd() - 3, op.newIndex + op.oldLen - 3, 3))
              && (k == |ops| - 1 ==> Trimmed(ops)[k] == EqualRun(op.oldIndex, op.newIndex, 3))
    ensures IsInner(ops, k) || !Splits(Trimmed(ops)[k])
  {
    TrimLastAt(TrimFirst(ops), k);
  }

  // ---------- which group an op is in ----------

  /** What is pending stays at the front of the next group, unless it is a single equal run
      and nothing follows. */
  lemma {:induction false} PendingStays(ops: seq<Op>, pending: seq<Op>)
    requires pending != [] && (2 <= |pending| + |ops| || pending[0].tag != Equal)
    ensures Groups(ops, pending) != [] && pending <= Groups(ops, pending)[0]
    decreases |ops|
  {
    if ops != [] && !Splits(ops[0]) {
      PendingStays(ops[1..], pending + [ops[0]]);
    }
  }

  lemma {:induction false} OpStays(ops: seq<Op>, pending: seq<Op>, k: nat) returns (m: nat)
    requires k < |ops| && !Splits(ops[k]) && (2 <= |pending| + |ops| || ops[k].tag != Equal)
    ensures m < |Groups(ops, pending)| && ops[k] in Groups(ops, pending)[m]
    decreases |ops|
  {
    if k == 0 {
      var joined := pending + [ops[0]];
      PendingStays(ops[1..], joined);
      m := 0;
      assert joined[|pending|] == ops[0] && ops[0] in joined;
    } else if Splits(ops[0]) {
      m := OpStays(ops[1..], [Tail(ops[0])], k - 1);
      m := m + 1;
    } else {
      m := OpStays(ops[1..], pending + [ops[0]], k - 1);
    }
  }

  /** A long run that is not last closes one group and opens the next. */
  lemma {:induction false} RunSplits(ops: seq<Op>, pending: seq<Op>, k: nat) returns (m: nat)
    requires k + 1 < |ops| && Splits(ops[k])
    ensures var groups := Groups(ops, pending);
      && m + 1 < |groups| && groups[m] != [] && groups[m + 1] != []
      && groups[m][|groups[m]| - 1] == Head(ops[k]) && groups[m + 1][0] == Tail(ops[k])
    decreases |ops|
  {
    if k == 0 {
      PendingStays(ops[1..], [Tail(ops[0])]);
      m := 0;
    } else if Splits(ops[0]) {
      m := RunSplits(ops[1..], [Tail(ops[0])], k - 1);
      m := m + 1;
    } else {
      m := RunSplits(ops[1..], pending + [ops[0]], k - 1);
    }
  }

  ghost predicate EndsIn(ops: seq<Op>, last: Op) { ops != [] && ops[|ops| - 1] == last }

  lemma {:induction false} LastStays(ops: seq<Op>, pending: seq<Op>, last: Op)
    requires 2 <= |pending| + |ops| && !Splits(last) && EndsIn(if ops == [] then pending else ops, last)
    ensures var groups := Groups(ops, pending);
      groups != [] && EndsIn(groups[|groups| - 1], last)
    decreases |ops|
  {
    if ops != [] {
      if Splits(ops[0]) {
        LastStays(ops[1..], [Tail(ops[0])], last);
      } else {
        LastStays(ops[1..], pending + [ops[0]], last);
      }
    }
  }

  // ---------- from groups to hunks ----------

  lemma {:induction false} HunkAt(groups: seq<seq<Op>>, render: Renderer, m: nat)
    requires m < |groups| && forall k :: 0 <= k < |groups| ==> groups[k] != []
    ensures |HunksOf(groups, render)| == |groups| && HunksOf(groups, render)[m] == HunkOf(groups[m], render)
  {
    if 1 < |groups| {
      HunkAt(groups[1..], render, if m == 0 then 0 else m - 1);
    }
  }

  lemma {:induction false} OpInside(ops: seq<Op>, base: Lines, edited: Lines, i: nat, j: nat, oe: nat, ne: nat, op: Op)
    requires Leads(ops, base, edited, i, j, oe, ne) && op in ops
    ensures i <= op.oldIndex && op.OldEnd() <= oe <= |base| && j <= op.newIndex && op.NewEnd() <= ne <= |edited|
    ensures SoundOp(op, base, edited)
  {
    LeadsInside(ops[1..], base, edited, ops[0].OldEnd(), ops[0].NewEnd(), oe, ne);
    if op != ops[0] {
      OpInside(ops[1..], base, edited, ops[0].OldEnd(), ops[0].NewEnd(), oe, ne, op);
    }
  }

  /** The hunk lists the lines of a group and covers just its old lines. */
  ghost predicate IsHunkOf(h: DiffHunk, group: seq<Op>, base: Lines, edited: Lines) {
    && Contiguous(group, base, edited) && h.lines == GroupLines(group, base, edited)
    && CoversAll(h, group[0].oldIndex, group[|group| - 1].OldEnd())
    && CoversFrom(h, group[0].oldIndex) && CoversTo(h, group[|group| - 1].OldEnd())
  }

  lemma {:induction false} GroupIsHunk(group: seq<Op>, base: Lines, edited: Lines)
    requires Contiguous(group, base, edited)
    ensures IsHunkOf(HunkOf(group, LinesOf(base, edited)), group, base, edited)
  {
    var last := group[|group| - 1];
    LeadsInside(group, base, edited, group[0].oldIndex, group[0].newIndex, last.OldEnd(), last.NewEnd());
  }

  lemma {:induction false} HunkOfGroup(ops: seq<Op>, base: Lines, edited: Lines, m: nat)
    requires ValidScript(ops, base, edited) && m < |GroupedOps(ops)|
    ensures |DiffHunks(ops, base, edited)| == |GroupedOps(ops)|
    ensures IsHunkOf(DiffHunks(ops, base, edited)[m], GroupedOps(ops)[m], base, edited)
  {
    ScriptContiguous(ops, base, edited);
    assert Contiguous(GroupedOps(ops)[m], base, edited);
    forall k | 0 <= k < |GroupedOps(ops)|
      ensures GroupedOps(ops)[k] != []
    {
      assert Contiguous(GroupedOps(ops)[k], base, edited);
    }
    HunkAt(GroupedOps(ops), LinesOf(base, edited), m);
    GroupIsHunk(GroupedOps(ops)[m], base, edited);
  }

  lemma {:induction false} SameTagged(tag: Line -> DiffLine, lines: Lines, shown: seq<DiffLine>)
    requires |shown| == |lines| && forall i :: 0 <= i < |lines| ==> shown[i] == tag(lines[i])
    ensures Tagged(tag, lines) == shown
  {
  }

  lemma {:induction false} OpLists(op: Op, base: Lines, edited: Lines)
    requires SoundOp(op, base, edited)
    ensures OpLines(op, base, edited) ==
              if op.tag == Equal then Contexts(op.OldPart(base))
              else Removals(op.OldPart(base)) + Additions(op.NewPart(edited))
  {
    var o, n := op.OldPart(base), op.NewPart(edited);
    SameTagged(AsContext, o, Contexts(o));
    SameTagged(AsRemoved, o, Removals(o));
    SameTagged(AsAdded, n, Additions(n));
    assert op.tag == Delete ==> Removals(o) + Additions(n) == Removals(o);
    assert op.tag == Insert ==> Removals(o) + Additions(n) == Additions(n);
  }

  lemma {:induction false} PartOfRest(first: seq<DiffLine>, rest: seq<DiffLine>, own: seq<DiffLine>)
    requires IsPart(own, rest)
    ensures IsPart(own, first + rest)
  {
    var front, back :| rest == front + own + back;
    Associate(first, front + own, back);
    Associate(first, front, own);
  }

  lemma {:induction false} EndOfRest(first: seq<DiffLine>, rest: seq<DiffLine>, own: seq<DiffLine>)
    requires IsEnd(own, rest)
    ensures IsEnd(own, first + rest)
  {
    var front :| rest == front + own;
    Associate(first, front, own);
  }

  lemma {:induction false} FirstPart(first: seq<DiffLine>, rest: seq<DiffLine>)
    ensures IsPart(first, first + rest) && first <= first + rest && (rest == [] ==> IsEnd(first, first + rest))
  {
    assert first + rest == [] + first + rest;
    assert rest == [] ==> first + rest == [] + first;
  }

  lemma {:induction false} GroupLists(group: seq<Op>, base: Lines, edited: Lines, op: Op)
    requires op in group
    ensures IsPart(OpLines(op, base, edited), GroupLines(group, base, edited))
  {
    var first, rest := OpLines(group[0], base, edited), GroupLines(group[1..], base, edited);
    if op == group[0] {
      FirstPart(first, rest);
    } else {
      GroupLists(group[1..], base, edited, op);
      PartOfRest(first, rest, OpLines(op, base, edited));
    }
  }

  lemma {:induction false} GroupEnds(group: seq<Op>, base: Lines, edited: Lines)
    requires group != []
    ensures OpLines(group[0], base, edited) <= GroupLines(group, base, edited)
    ensures IsEnd(OpLines(group[|group| - 1], base, edited), GroupLines(group, base, edited))
  {
    var first, rest := OpLines(group[0], base, edited), GroupLines(group[1..], base, edited);
    FirstPart(first, rest);
    if 1 < |group| {
      GroupEnds(group[1..], base, edited);
      EndOfRest(first, rest, OpLines(group[|group| - 1], base, edited));
    }
  }

  lemma {:induction false} GroupCovers(group: seq<Op>, base: Lines, edited: Lines, k: nat)
    requires Contiguous(group, base, edited) && k < |group|
    ensures SoundOp(group[k], base, edited)
    ensures group[0].oldIndex <= group[k].oldIndex && group[k].OldEnd() <= group[|group| - 1].OldEnd()
  {
    var last := group[|group| - 1];
    OpInside(group, base, edited, group[0].oldIndex, group[0].newIndex, last.OldEnd(), last.NewEnd(), group[k]);
  }

  lemma {:induction false} CoveredWithin(h: DiffHunk, from: int, upto: int, a: int, b: int)
    requires CoversAll(h, from, upto) && from <= a && b <= upto
    ensures CoversAll(h, a, b)
  {
  }

  lemma {:induction false} OpOfGroup(h: DiffHunk, group: seq<Op>, base: Lines, edited: Lines, k: nat)
    requires IsHunkOf(h, group, base, edited) && k < |group|
    ensures SoundOp(group[k], base, edited)
    ensures Shows(h, group[k].oldIndex, group[k].OldEnd(), OpLines(group[k], base, edited))
  {
    GroupCovers(group, base, edited, k);
    CoveredWithin(h, group[0].oldIndex, group[|group| - 1].OldEnd(), group[k].oldIndex, group[k].OldEnd());
    GroupLists(group, base, edited, group[k]);
  }

  lemma {:induction false} OpeningOp(h: DiffHunk, group: seq<Op>, base: Lines, edited: Lines)
    requires IsHunkOf(h, group, base, edited)
    ensures SoundOp(group[0], base, edited)
    ensures Opens(h, group[0].oldIndex, group[0].OldEnd(), OpLines(group[0], base, edited))
  {
    GroupCovers(group, base, edited, 0);
    GroupEnds(group, base, edited);
    CoveredWithin(h, group[0].oldIndex, group[|group| - 1].OldEnd(), group[0].oldIndex, group[0].OldEnd());
  }

  lemma {:induction false} ClosingOp(h: DiffHunk, group: seq<Op>, op: Op, base: Lines, edited: Lines)
    requires IsHunkOf(h, group, base, edited) && op == group[|group| - 1]
    ensures SoundOp(op, base, edited)
    ensures Closes(h, op.oldIndex, op.OldEnd(), OpLines(op, base, edited))
  {
    GroupCovers(group, base, edited, |group| - 1);
    GroupEnds(group, base, edited);
    CoveredWithin(h, group[0].oldIndex, op.OldEnd(), op.oldIndex, op.OldEnd());
  }

  /** The hunk of group `m` opens with its first op. */
  lemma {:induction false} HunkOpens(ops: seq<Op>, base: Lines, edited: Lines, m: nat, op: Op)
    requires ValidScript(ops, base, edited) && m < |GroupedOps(ops)|
    requires GroupedOps(ops)[m] != [] && op == GroupedOps(ops)[m][0]
    ensures m < |DiffHunks(ops, base, edited)| && SoundOp(op, base, edited)
    ensures Opens(DiffHunks(ops, base, edited)[m], op.oldIndex, op.OldEnd(), OpLines(op, base, edited))
  {
    HunkOfGroup(ops, base, edited, m);
    OpeningOp(DiffHunks(ops, base, edited)[m], GroupedOps(ops)[m], base, edited);
  }

  /** It closes with its last op. */
  lemma {:induction false} HunkCloses(ops: seq<Op>, base: Lines, edited: Lines, m: nat, op: Op)
    requires ValidScript(ops, base, edited) && m < |GroupedOps(ops)|
    requires GroupedOps(ops)[m] != [] && op == GroupedOps(ops)[m][|GroupedOps(ops)[m]| - 1]
    ensures |DiffHunks(ops, base, edited)| == |GroupedOps(ops)| && SoundOp(op, base, edited)
    ensures Closes(DiffHunks(ops, base, edited)[m], op.oldIndex, op.OldEnd(), OpLines(op, base, edited))
  {
    HunkOfGroup(ops, base, edited, m);
    ClosingOp(DiffHunks(ops, base, edited)[m], GroupedOps(ops)[m], op, base, edited);
  }

  // ---------- the ops of a script in its hunks ----------

  lemma {:induction false} OpOfScript(ops: seq<Op>, base: Lines, edited: Lines, k: nat)
    requires ValidScript(ops, base, edited) && k < |ops|
    ensures SoundOp(ops[k], base, edited) && ops[k].OldEnd() <= |base| && ops[k].NewEnd() <= |edited|
  {
    OpInside(ops, base, edited, 0, 0, |base|, |edited|, ops[k]);
  }

  /** An op that the trims and the cuts leave whole is whole in one hunk. */
  lemma {:induction false} WholeOp(ops: seq<Op>, base: Lines, edited: Lines, k: nat) returns (m: nat)
    requires ValidScript(ops, base, edited) && k < |ops| && (2 <= |ops| || ops[k].tag != Equal)
    requires |Trimmed(ops)| == |ops| && Trimmed(ops)[k] == ops[k] && !Splits(ops[k])
    ensures m < |DiffHunks(ops, base, edited)|
    ensures Shows(DiffHunks(ops, base, edited)[m], ops[k].oldIndex, ops[k].OldEnd(), OpLines(ops[k], base, edited))
  {
    m := OpStays(Trimmed(ops), [], k);
    var n :| 0 <= n < |GroupedOps(ops)[m]| && GroupedOps(ops)[m][n] == ops[k];
    HunkOfGroup(ops, base, edited, m);
    OpOfGroup(DiffHunks(ops, base, edited)[m], GroupedOps(ops)[m], base, edited, n);
  }

  /** Whatever is changed is in one hunk: the old lines removed, then the new ones added. */
  lemma {:induction false} ChangeInOneHunk(ops: seq<Op>, base: Lines, edited: Lines, k: nat) returns (m: nat)
    requires ValidScript(ops, base, edited) && k < |ops| && ops[k].tag != Equal
    ensures ops[k].OldEnd() <= |base| && ops[k].NewEnd() <= |edited|
    ensures m < |DiffHunks(ops, base, edited)|
    ensures var removed, added := base[ops[k].oldIndex..ops[k].OldEnd()], edited[ops[k].newIndex..ops[k].NewEnd()];
      Shows(DiffHunks(ops, base, edited)[m], ops[k].oldIndex, ops[k].OldEnd(), Removals(removed) + Additions(added))
  {
    OpOfScript(ops, base, edited, k);
    OpLists(ops[k], base, edited);
    TrimmedAt(ops, k);
    m := WholeOp(ops, base, edited, k);
  }

  /** At most six equal lines between two changes stay together, as context. */
  lemma {:induction false} ShortRunStays(ops: seq<Op>, base: Lines, edited: Lines, k: nat) returns (m: nat)
    requires ValidScript(ops, base, edited) && IsInner(ops, k) && ops[k].tag == Equal && ops[k].oldLen <= 6
    ensures ops[k].OldEnd() <= |base| && m < |DiffHunks(ops, base, edited)|
    ensures var from, upto := ops[k].oldIndex, ops[k].OldEnd();
      Shows(DiffHunks(ops, base, edited)[m], from, upto, Contexts(base[from..upto]))
  {
    OpOfScript(ops, base, edited, k);
    OpLists(ops[k], base, edited);
    TrimmedAt(ops, k);
    m := WholeOp(ops, base, edited, k);
  }

  // ---------- long runs are cut ----------

  lemma {:induction false} SpacedAt(hunks: seq<DiffHunk>, c: nat, i: nat, k: nat)
    requires Spaced(hunks, c) && i < k < |hunks|
    ensures c < HunkStart(hunks[i]) && HunkEnd(hunks[i]) < HunkStart(hunks[k])
    decreases |hunks|, k
  {
    if 0 < i {
      SpacedAt(hunks[1..], HunkEnd(hunks[0]), i - 1, k - 1);
    } else if 1 < k {
      SpacedAt(hunks[1..], HunkEnd(hunks[0]), 0, k - 1);
    }
  }

  lemma {:induction false} SpacedFromAt(hunks: seq<DiffHunk>, lo: nat, i: nat, k: nat)
    requires SpacedFrom(hunks, lo) && i < k < |hunks|
    ensures HunkEnd(hunks[i]) < HunkStart(hunks[k])
  {
    if 0 < i {
      SpacedAt(hunks[1..], HunkEnd(hunks[0]), i - 1, k - 1);
    } else if 1 < k {
      SpacedAt(hunks[1..], HunkEnd(hunks[0]), 0, k - 1);
    }
  }

  /** The hunks are in the order of the old lines that they cover. */
  ghost predicate CoverInOrder(hunks: seq<DiffHunk>) {
    forall i, k, x, y :: 0 <= i < k < |hunks| && Covers(hunks[i], x) && Covers(hunks[k], y) ==> x < y
  }

  lemma {:induction false} DiffCoversInOrder(ops: seq<Op>, base: Lines, edited: Lines)
    requires ValidScript(ops, base, edited)
    ensures CoverInOrder(DiffHunks(ops, base, edited))
  {
    var hunks := DiffHunks(ops, base, edited);
    DiffHunksSpaced(ops, base, edited);
    forall i, k, x, y | 0 <= i < k < |hunks| && Covers(hunks[i], x) && Covers(hunks[k], y)
      ensures x < y
    {
      SpacedFromAt(hunks, Start(ops).lo, i, k);
    }
  }

  /** No hunk covers what lies between two successive hunks. */
  lemma {:induction false} NothingBetween(hunks: seq<DiffHunk>, m: nat, from: int, upto: int)
    requires CoverInOrder(hunks) && m + 1 < |hunks|
    requires Covers(hunks[m], from - 1) && CoversTo(hunks[m], from)
    requires Covers(hunks[m + 1], upto) && CoversFrom(hunks[m + 1], upto)
    ensures CoversNone(hunks, from, upto)
  {
  }

  /** The parts of a long run are shown as context. */
  lemma {:induction false} ContextOf(op: Op, base: Lines, edited: Lines)
    requires SoundOp(op, base, edited) && IsLongRun(op) && op.OldEnd() <= |base| && op.NewEnd() <= |edited|
    ensures Head(op).oldIndex == op.oldIndex && Head(op).OldEnd() == op.oldIndex + 3
    ensures Tail(op).oldIndex == op.OldEnd() - 3 && Tail(op).OldEnd() == op.OldEnd()
    ensures OpLines(Head(op), base, edited) == Contexts(base[op.oldIndex..op.oldIndex + 3])
    ensures OpLines(Tail(op), base, edited) == Contexts(base[op.OldEnd() - 3..op.OldEnd()])
  {
    HeadLeads(op, base, edited);
    TailLeads(op, base, edited);
    OpLists(Head(op), base, edited);
    OpLists(Tail(op), base, edited);
  }

  lemma {:induction false} GroupsOfRun(ops: seq<Op>, k: nat) returns (m: nat)
    requires IsInner(ops, k) && IsLongRun(ops[k])
    ensures var groups := GroupedOps(ops);
      && m + 1 < |groups| && groups[m] != [] && groups[m + 1] != []
      && groups[m][|groups[m]| - 1] == Head(ops[k]) && groups[m + 1][0] == Tail(ops[k])
  {
    TrimmedAt(ops, k);
    m := RunSplits(Trimmed(ops), [], k);
  }

  lemma {:induction false} HunksOfRun(ops: seq<Op>, base: Lines, edited: Lines, k: nat) returns (m: nat)
    requires ValidScript(ops, base, edited) && IsInner(ops, k) && IsLongRun(ops[k])
    ensures m + 1 < |DiffHunks(ops, base, edited)|
    ensures var op := Head(ops[k]);
      Closes(DiffHunks(ops, base, edited)[m], op.oldIndex, op.OldEnd(), OpLines(op, base, edited))
    ensures var op := Tail(ops[k]);
      Opens(DiffHunks(ops, base, edited)[m + 1], op.oldIndex, op.OldEnd(), OpLines(op, base, edited))
  {
    m := GroupsOfRun(ops, k);
    HunkCloses(ops, base, edited, m, Head(ops[k]));
    HunkOpens(ops, base, edited, m + 1, Tail(ops[k]));
  }

  /** More than six equal lines between two changes end one hunk with the first three of
      them and start the next with the last three; the others are in no hunk. */
  lemma {:induction false} LongRunIsCut(ops: seq<Op>, base: Lines, edited: Lines, k: nat) returns (m: nat)
    requires ValidScript(ops, base, edited) && IsInner(ops, k) && IsLongRun(ops[k])
    ensures ops[k].OldEnd() <= |base|
    ensures var hunks, from, upto := DiffHunks(ops, base, edited), ops[k].oldIndex, ops[k].OldEnd();
      && m + 1 < |hunks|
      && Closes(hunks[m], from, from + 3, Contexts(base[from..from + 3]))
      && Opens(hunks[m + 1], upto - 3, upto, Contexts(base[upto - 3..upto]))
      && CoversNone(hunks, from + 3, upto - 3)
  {
    OpOfScript(ops, base, edited, k);
    ContextOf(ops[k], base, edited);
    m := HunksOfRun(ops, base, edited, k);
    DiffCoversInOrder(ops, base, edited);
    NothingBetween(DiffHunks(ops, base, edited), m, ops[k].oldIndex + 3, ops[k].OldEnd() - 3);
  }

  // ---------- equal runs at either end ----------

  lemma {:induction false} FirstHunk(ops: seq<Op>, base: Lines, edited: Lines)
    requires ValidScript(ops, base, edited) && 2 <= |ops| && !Splits(Trimmed(ops)[0])
    requires |Trimmed(ops)| == |ops|
    ensures var hunks, op := DiffHunks(ops, base, edited), Trimmed(ops)[0];
      && hunks != [] && SoundOp(op, base, edited)
      && Opens(hunks[0], op.oldIndex, op.OldEnd(), OpLines(op, base, edited))
  {
    var t := Trimmed(ops);
    assert [] + [t[0]] == [t[0]];
    PendingStays(t[1..], [t[0]]);
    HunkOpens(ops, base, edited, 0, t[0]);
  }

  lemma {:induction false} NothingBefore(hunks: seq<DiffHunk>, upto: int)
    requires CoverInOrder(hunks) && hunks != [] && (0 < upto ==> Covers(hunks[0], upto))
    requires CoversFrom(hunks[0], upto)
    ensures CoversNone(hunks, 0, upto)
  {
  }

  /** Of equal lines before the first change the last three start the first hunk, or all if
      there are no more; the others are in no hunk. */
  lemma {:induction false} FirstRunIsTrimmed(ops: seq<Op>, base: Lines, edited: Lines)
    requires ValidScript(ops, base, edited) && 2 <= |ops| && ops[0].tag == Equal
    ensures ops[0].oldLen <= |base|
    ensures var hunks, upto := DiffHunks(ops, base, edited), ops[0].oldLen;
      var from := if upto <= 3 then 0 else upto - 3;
      hunks != [] && Opens(hunks[0], from, upto, Contexts(base[from..upto])) && CoversNone(hunks, 0, from)
  {
    OpOfScript(ops, base, edited, 0);
    TrimmedAt(ops, 0);
    FirstHunk(ops, base, edited);
    OpLists(Trimmed(ops)[0], base, edited);
    DiffCoversInOrder(ops, base, edited);
    NothingBefore(DiffHunks(ops, base, edited), Trimmed(ops)[0].oldIndex);
  }

  lemma {:induction false} LastOfLastGroup(ops: seq<Op>)
    requires 2 <= |ops|
    ensures |Trimmed(ops)| == |ops| && GroupedOps(ops) != []
    ensures EndsIn(GroupedOps(ops)[|GroupedOps(ops)| - 1], Trimmed(ops)[|ops| - 1])
  {
    TrimmedAt(ops, |ops| - 1);
    LastStays(Trimmed(ops), [], Trimmed(ops)[|ops| - 1]);
  }

  lemma {:induction false} LastHunk(ops: seq<Op>, base: Lines, edited: Lines)
    requires ValidScript(ops, base, edited) && 2 <= |ops| && |Trimmed(ops)| == |ops|
    ensures var hunks, op := DiffHunks(ops, base, edited), Trimmed(ops)[|ops| - 1];
      && hunks != [] && SoundOp(op, base, edited)
      && Closes(hunks[|hunks| - 1], op.oldIndex, op.OldEnd(), OpLines(op, base, edited))
  {
    LastOfLastGroup(ops);
    HunkCloses(ops, base, edited, |GroupedOps(ops)| - 1, Trimmed(ops)[|ops| - 1]);
  }

  lemma {:induction false} NothingAfter(hunks: seq<DiffHunk>, from: int, end: int)
    requires CoverInOrder(hunks) && hunks != [] && (from < end ==> Covers(hunks[|hunks| - 1], from - 1))
    requires CoversTo(hunks[|hunks| - 1], from)
    ensures CoversNone(hunks, from, end)
  {
  }

  /** Of equal lines after the last change the first three end the last hunk, or all if
      there are no more; the others are in no hunk. */
  lemma {:induction false} LastRunIsTrimmed(ops: seq<Op>, base: Lines, edited: Lines)
    requires ValidScript(ops, base, edited) && 2 <= |ops| && ops[|ops| - 1].tag == Equal
    ensures ops[|ops| - 1].OldEnd() == |base|
    ensures var hunks, from := DiffHunks(ops, base, edited), ops[|ops| - 1].oldIndex;
      var upto := if |base| <= from + 3 then |base| else from + 3;
      && hunks != [] && Closes(hunks[|hunks| - 1], from, upto, Contexts(base[from..upto]))
      && CoversNone(hunks, upto, |base|)
  {
    var last := |ops| - 1;
    LastEnds(ops, base, edited, 0, 0, |base|, |edited|);
    TrimmedAt(ops, last);
    LastHunk(ops, base, edited);
    OpLists(Trimmed(ops)[last], base, edited);
    DiffCoversInOrder(ops, base, edited);
    NothingAfter(DiffHunks(ops, base, edited), Trimmed(ops)[last].OldEnd(), |base|);
  }

  // ---------- how many hunks there are ----------

  /** The runs of more than six equal lines between two changes. */
  function LongRuns(ops: seq<Op>): nat {
    Count((k: int) => 0 <= k < |ops| && IsLongRun(ops[k]), 1, |ops| - 1)
  }

  function SplitAt(ops: seq<Op>): int -> bool { (k: int) => 0 <= k < |ops| && Splits(ops[k]) }

  lemma {:induction false} GroupCount(ops: seq<Op>, n: nat, pending: seq<Op>)
    requires n <= |ops| && 2 <= |pending| + |ops[n..]| && (ops[n..] != [] ==> !Splits(ops[|ops| - 1]))
    ensures |Groups(ops[n..], pending)| == 1 + Count(SplitAt(ops), n, |ops|)
    decreases |ops| - n
  {
    if n < |ops| {
      assert ops[n..][1..] == ops[n + 1..];
      CountParts(SplitAt(ops), n, n + 1, |ops|);
      assert Count(SplitAt(ops), n, n) == 0;
      if Splits(ops[n]) {
        GroupCount(ops, n + 1, [Tail(ops[n])]);
      } else {
        GroupCount(ops, n + 1, pending + [ops[n]]);
      }
    }
  }

  lemma {:induction false} SplitsAreLongRuns(ops: seq<Op>)
    requires 2 <= |ops|
    ensures Count(SplitAt(Trimmed(ops)), 0, |ops|) == LongRuns(ops)
  {
    var t := Trimmed(ops);
    var p := (k: int) => 0 <= k < |ops| && IsLongRun(ops[k]);
    TrimmedAt(ops, 0);
    TrimmedAt(ops, |ops| - 1);
    CountParts(SplitAt(t), 0, 1, |ops|);
    assert Count(SplitAt(t), 0, 0) == 0;
    forall k | 1 <= k < |ops| - 1
      ensures SplitAt(t)(k) == p(k)
    {
      TrimmedAt(ops, k);
    }
    CountSame(SplitAt(t), p, 1, |ops| - 1);
  }

  lemma {:induction false} OneOpGroups(op: Op)
    requires !Splits(op)
    ensures Groups([op], []) == if op.tag == Equal then [] else [[op]]
  {
    assert [] + [op] == [op] && [op][1..] == [];
  }

  /** A script with a change gives one hunk more than it has long runs between changes, and
      a script that is one equal run, or nothing, gives none. */
  lemma {:induction false} HunkCount(ops: seq<Op>, base: Lines, edited: Lines)
    requires ValidScript(ops, base, edited)
    ensures (exists k :: 0 <= k < |ops| && ops[k].tag != Equal) || 2 <= |ops| ==>
              |DiffHunks(ops, base, edited)| == 1 + LongRuns(ops)
    ensures (forall k :: 0 <= k < |ops| ==> ops[k].tag == Equal) && |ops| < 2 ==> DiffHunks(ops, base, edited) == []
  {
    if 2 <= |ops| {
      TrimmedAt(ops, |ops| - 1);
      GroupCount(Trimmed(ops), 0, []);
      assert Trimmed(ops)[0..] == Trimmed(ops);
      SplitsAreLongRuns(ops);
    } else if |ops| == 1 {
      TrimmedAt(ops, 0);
      OneOpGroups(Trimmed(ops)[0]);
      assert Trimmed(ops) == [Trimmed(ops)[0]];
    }
    if GroupedOps(ops) != [] {
      HunkOfGroup(ops, base, edited, 0);
    }
  }
}
