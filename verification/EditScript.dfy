/** Edit scripts from one list of lines to another, and how they are grouped into hunks
    with three lines of context.  The script itself is whatever the diff library
    produces; all that is required of it is that it is valid. */
module EditScript {
  import opened Wrappers

  type Line = string
  type Lines = seq<Line>

  datatype Tag = Equal | Delete | Insert | Replace

  /** An op of the diff library, as its tag and the two ranges it covers. */
  datatype Op = Op(tag: Tag, oldIndex: nat, oldLen: nat, newIndex: nat, newLen: nat) {
    function OldEnd(): nat { oldIndex + oldLen }
    function NewEnd(): nat { newIndex + newLen }
    /** The lines of either file that the op covers; those of a valid script stay inside. */
    function OldPart(base: Lines): Lines { if OldEnd() <= |base| then base[oldIndex..OldEnd()] else [] }
    function NewPart(edited: Lines): Lines { if NewEnd() <= |edited| then edited[newIndex..NewEnd()] else [] }
  }

  function EqualRun(oldIndex: nat, newIndex: nat, len: nat): Op { Op(Equal, oldIndex, len, newIndex, len) }

  /** The op is what its tag says. */
  predicate SoundOp(op: Op, base: Lines, edited: Lines) {
    match op.tag
    case Equal => op.oldLen == op.newLen && op.OldPart(base) == op.NewPart(edited)
    case Delete => op.newLen == 0
    case Insert => op.oldLen == 0
    case Replace => true
  }

  /** `ops` leads from line `i` of `base` and line `j` of `edited` to lines `oe` and `ne`:
      no line is left out on either side, and what is called equal is equal. */
  predicate Leads(ops: seq<Op>, base: Lines, edited: Lines, i: nat, j: nat, oe: nat, ne: nat) {
    && oe <= |base| && ne <= |edited|
    && if ops == [] then i == oe && j == ne
       else
         && ops[0].oldIndex == i && ops[0].newIndex == j
         && ops[0].OldEnd() <= oe && ops[0].NewEnd() <= ne
         && SoundOp(ops[0], base, edited)
         && Leads(ops[1..], base, edited, ops[0].OldEnd(), ops[0].NewEnd(), oe, ne)
  }

  predicate ValidScript(ops: seq<Op>, base: Lines, edited: Lines) {
    Leads(ops, base, edited, 0, 0, |base|, |edited|)
  }

  const CONTEXT: nat := 3

  // ---------- grouping ----------

  /** Its last lines. */
  function Tail(op: Op): Op
    requires CONTEXT <= op.oldLen
  {
    var cut := op.oldLen - CONTEXT;
    EqualRun(op.oldIndex + cut, op.newIndex + cut, CONTEXT)
  }

  /** An equal run at the start keeps its last lines only. */
  function TrimFirst(ops: seq<Op>): seq<Op> {
    if ops != [] && ops[0].tag == Equal && CONTEXT < ops[0].oldLen then
      [Tail(ops[0])] + ops[1..]
    else ops
  }

  /** The first lines of an equal run, as many as a hunk keeps for context. */
  function Head(op: Op): Op { EqualRun(op.oldIndex, op.newIndex, CONTEXT) }

  /** An equal run at the end keeps its first lines only. */
  function TrimLast(ops: seq<Op>): seq<Op> {
    if ops == [] then []
    else if |ops| == 1 then
      if ops[0].tag == Equal && CONTEXT < ops[0].oldLen then [Head(ops[0])] else ops
    else [ops[0]] + TrimLast(ops[1..])
  }

  /** A long equal run ends one group and starts the next. */
  predicate Splits(op: Op) { op.tag == Equal && 2 * CONTEXT < op.oldLen }

  /** A last group without changes is dropped. */
  predicate Dropped(pending: seq<Op>) { pending == [] || (|pending| == 1 && pending[0].tag == Equal) }

  function Groups(ops: seq<Op>, pending: seq<Op>): seq<seq<Op>> {
    if ops == [] then
      if Dropped(pending) then [] else [pending]
    else if Splits(ops[0]) then
      [pending + [Head(ops[0])]] + Groups(ops[1..], [Tail(ops[0])])
    else Groups(ops[1..], pending + [ops[0]])
  }

  /** `grouped_ops(3)` of the diff library. */
  function GroupedOps(ops: seq<Op>): seq<seq<Op>> { Groups(TrimLast(TrimFirst(ops)), []) }

  // ---------- both sides of a script ----------

  function OldLines(ops: seq<Op>, base: Lines): Lines
  {
    if ops == [] then [] else ops[0].OldPart(base) + OldLines(ops[1..], base)
  }

  function NewLines(ops: seq<Op>, edited: Lines): Lines
  {
    if ops == [] then [] else ops[0].NewPart(edited) + NewLines(ops[1..], edited)
  }

  lemma {:induction false} LeadsInside(ops: seq<Op>, base: Lines, edited: Lines, i: nat, j: nat, oe: nat, ne: nat)
    requires Leads(ops, base, edited, i, j, oe, ne)
    ensures i <= oe && j <= ne
  {
  }

  lemma {:induction false} Cat(lines: Lines, a: nat, b: nat, e: nat)
    requires a <= b <= e <= |lines|
    ensures lines[a..b] + lines[b..e] == lines[a..e]
  {
  }

  /** The ops of a stretch spell exactly its old lines and its new lines. */
  lemma {:induction false} LeadsSpells(ops: seq<Op>, base: Lines, edited: Lines, i: nat, j: nat, oe: nat, ne: nat)
    requires Leads(ops, base, edited, i, j, oe, ne)
    requires i <= oe && j <= ne
    ensures OldLines(ops, base) == base[i..oe] && NewLines(ops, edited) == edited[j..ne]
  {
    if ops != [] {
      var op := ops[0];
      LeadsInside(ops[1..], base, edited, op.OldEnd(), op.NewEnd(), oe, ne);
      LeadsSpells(ops[1..], base, edited, op.OldEnd(), op.NewEnd(), oe, ne);
      Cat(base, i, op.OldEnd(), oe);
      Cat(edited, j, op.NewEnd(), ne);
    }
  }

  lemma {:induction false} LeadsAppend(
      ops: seq<Op>, more: seq<Op>, base: Lines, edited: Lines, i: nat, j: nat, m: nat, n: nat, oe: nat, ne: nat)
    requires Leads(ops, base, edited, i, j, m, n) && Leads(more, base, edited, m, n, oe, ne)
    ensures Leads(ops + more, base, edited, i, j, oe, ne)
  {
    LeadsInside(more, base, edited, m, n, oe, ne);
    if ops == [] {
      assert ops + more == more;
    } else {
      LeadsAppend(ops[1..], more, base, edited, ops[0].OldEnd(), ops[0].NewEnd(), m, n, oe, ne);
      assert (ops + more)[1..] == ops[1..] + more;
    }
  }

  // ---------- patching with some of the hunks ----------

  /** What an op contributes to a patched file. */
  function Part(op: Op, base: Lines, edited: Lines, taken: bool): Lines {
    if op.tag == Equal || !taken then op.OldPart(base) else op.NewPart(edited)
  }

  /** The script replayed from `base`, hunk by hunk: changes of an accepted hunk take their
      new lines, all other changes keep their old lines.  `k` is the hunk in which the
      first op falls; a long equal run, unless it stands at either end of the script,
      leads to the next hunk. */
  function Patch(ops: seq<Op>, base: Lines, edited: Lines, accepted: set<nat>, k: nat, start: bool): Lines
  {
    if ops == [] then []
    else
      var op := ops[0];
      var k' := if Splits(op) && !start && 1 < |ops| then k + 1 else k;
      Part(op, base, edited, k in accepted) + Patch(ops[1..], base, edited, accepted, k', false)
  }

  /** The same on a trimmed script, where every long equal run separates hunks. */
  function TrimmedPatch(ops: seq<Op>, base: Lines, edited: Lines, accepted: set<nat>, k: nat): Lines
  {
    if ops == [] then []
    else
      var op := ops[0];
      Part(op, base, edited, k in accepted)
      + TrimmedPatch(ops[1..], base, edited, accepted, if Splits(op) then k + 1 else k)
  }

  lemma {:induction false} SubSlice(base: Lines, edited: Lines, i: nat, j: nat, len: nat, from: nat, to: nat)
    requires i + len <= |base| && j + len <= |edited| && from <= to <= len
    requires base[i..i + len] == edited[j..j + len]
    ensures base[i + from..i + to] == edited[j + from..j + to]
  {
    var a, b := base[i + from..i + to], edited[j + from..j + to];
    forall x | 0 <= x < |a|
      ensures a[x] == b[x]
    {
      assert base[i..i + len][from + x] == edited[j..j + len][from + x];
    }
  }

  /** How many lines `TrimLast` drops. */
  function LastCut(ops: seq<Op>): nat {
    if ops == [] then 0
    else
      var op := ops[|ops| - 1];
      if op.tag == Equal && CONTEXT < op.oldLen then op.oldLen - CONTEXT else 0
  }

  lemma {:induction false} TrimOneLeads(op: Op, base: Lines, edited: Lines)
    requires SoundOp(op, base, edited) && op.OldEnd() <= |base| && op.NewEnd() <= |edited|
    ensures var cut := LastCut([op]);
      && cut <= op.oldLen && cut <= op.newLen && (cut == 0 || cut + CONTEXT == op.oldLen)
      && base[op.OldEnd() - cut..op.OldEnd()] == edited[op.NewEnd() - cut..op.NewEnd()]
      && Leads(TrimLast([op]), base, edited, op.oldIndex, op.newIndex, op.OldEnd() - cut, op.NewEnd() - cut)
  {
    if 0 < LastCut([op]) {
      SubSlice(base, edited, op.oldIndex, op.newIndex, op.oldLen, 0, CONTEXT);
      SubSlice(base, edited, op.oldIndex, op.newIndex, op.oldLen, CONTEXT, op.oldLen);
      assert [Head(op)][1..] == [];
    } else {
      assert [op][1..] == [];
    }
  }

  lemma {:induction false} ConsLeads(
      op: Op, rest: seq<Op>, base: Lines, edited: Lines, i: nat, j: nat, oe: nat, ne: nat)
    requires op.oldIndex == i && op.newIndex == j && SoundOp(op, base, edited)
    requires Leads(rest, base, edited, op.OldEnd(), op.NewEnd(), oe, ne)
    ensures Leads([op] + rest, base, edited, i, j, oe, ne)
  {
    LeadsInside(rest, base, edited, op.OldEnd(), op.NewEnd(), oe, ne);
    assert ([op] + rest)[1..] == rest;
  }

  lemma {:induction false} TrimLastLeads(
      ops: seq<Op>, base: Lines, edited: Lines, i: nat, j: nat, oe: nat, ne: nat)
    requires Leads(ops, base, edited, i, j, oe, ne)
    ensures var cut := LastCut(ops);
      && cut <= oe && cut <= ne && (cut == 0 || i + CONTEXT <= oe - cut)
      && base[oe - cut..oe] == edited[ne - cut..ne]
      && Leads(TrimLast(ops), base, edited, i, j, oe - cut, ne - cut)
  {
    LeadsInside(ops, base, edited, i, j, oe, ne);
    if |ops| == 1 {
      assert ops == [ops[0]];
      TrimOneLeads(ops[0], base, edited);
    } else if ops != [] {
      var m, n := ops[0].OldEnd(), ops[0].NewEnd();
      TrimLastLeads(ops[1..], base, edited, m, n, oe, ne);
      ConsLeads(ops[0], TrimLast(ops[1..]), base, edited, i, j, oe - LastCut(ops), ne - LastCut(ops));
    }
  }

  /** The lines that `TrimLast` drops, if `op` is last. */
  function CutOff(op: Op, base: Lines): Lines {
    if 0 < LastCut([op]) && op.OldEnd() <= |base| then base[op.oldIndex + CONTEXT..op.OldEnd()] else []
  }

  lemma {:induction false} TrimOnePatch(op: Op, base: Lines, edited: Lines, accepted: set<nat>, k: nat)
    requires op.OldEnd() <= |base|
    ensures Patch([op], base, edited, accepted, k, false)
         == TrimmedPatch(TrimLast([op]), base, edited, accepted, k) + CutOff(op, base)
  {
  }

  lemma {:induction false} TrimLastStep(
      ops: seq<Op>, base: Lines, edited: Lines, accepted: set<nat>, k: nat, tail: Lines)
    requires 1 < |ops|
    ensures var k' := if Splits(ops[0]) then k + 1 else k;
      Patch(ops[1..], base, edited, accepted, k', false)
        == TrimmedPatch(TrimLast(ops[1..]), base, edited, accepted, k') + tail
      ==> Patch(ops, base, edited, accepted, k, false)
          == TrimmedPatch(TrimLast(ops), base, edited, accepted, k) + tail
  {
  }

  lemma {:induction false} TrimLastPatch(
      ops: seq<Op>, base: Lines, edited: Lines, accepted: set<nat>, k: nat, tail: Lines)
    requires ops != [] && ops[|ops| - 1].OldEnd() <= |base| && tail == CutOff(ops[|ops| - 1], base)
    ensures Patch(ops, base, edited, accepted, k, false)
         == TrimmedPatch(TrimLast(ops), base, edited, accepted, k) + tail
  {
    if |ops| == 1 {
      assert ops == [ops[0]];
      TrimOnePatch(ops[0], base, edited, accepted, k);
    } else {
      TrimLastPatch(ops[1..], base, edited, accepted, if Splits(ops[0]) then k + 1 else k, tail);
      TrimLastStep(ops, base, edited, accepted, k, tail);
    }
  }

  // ---------- both trims together ----------

  function FirstCut(ops: seq<Op>): nat {
    if ops != [] && ops[0].tag == Equal && CONTEXT < ops[0].oldLen then ops[0].oldLen - CONTEXT else 0
  }

  lemma {:induction false} TrimFirstLeads(ops: seq<Op>, base: Lines, edited: Lines)
    requires ValidScript(ops, base, edited)
    ensures var cut := FirstCut(ops);
      && cut <= |base| && cut <= |edited| && base[..cut] == edited[..cut]
      && (cut == 0 || cut + CONTEXT <= |base|)
      && Leads(TrimFirst(ops), base, edited, cut, cut, |base|, |edited|)
  {
  }

  lemma {:induction false} TrimFirstParts(ops: seq<Op>, base: Lines, edited: Lines, accepted: set<nat>)
    requires ops != [] && 0 < FirstCut(ops)
    ensures var rest := Patch(ops[1..], base, edited, accepted, 0, false);
      && Patch(ops, base, edited, accepted, 0, true) == ops[0].OldPart(base) + rest
      && Patch(TrimFirst(ops), base, edited, accepted, 0, false) == Tail(ops[0]).OldPart(base) + rest
  {
    assert TrimFirst(ops)[1..] == ops[1..];
  }

  lemma {:induction false} TrimFirstPatch(ops: seq<Op>, base: Lines, edited: Lines, accepted: set<nat>)
    requires ValidScript(ops, base, edited)
    ensures FirstCut(ops) <= |base|
    ensures Patch(ops, base, edited, accepted, 0, true)
         == base[..FirstCut(ops)] + Patch(TrimFirst(ops), base, edited, accepted, 0, false)
  {
    var cut := FirstCut(ops);
    if 0 < cut {
      TrimFirstParts(ops, base, edited, accepted);
      Cat(base, 0, cut, ops[0].oldLen);
      assert base[0..cut] == base[..cut];
      Associate(base[..cut], Tail(ops[0]).OldPart(base), Patch(ops[1..], base, edited, accepted, 0, false));
    } else {
      assert TrimFirst(ops) == ops && base[..0] == [];
    }
  }
}
