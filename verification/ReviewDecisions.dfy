/** What the plan of a review lists for each decision, and what its report counts.
    Over crates/cuartel-core/src/review.rs, lines 77 to 164. */
module ReviewDecisions {
  import opened Wrappers
  import opened Overlay
  import opened LineText
  import opened ReviewText
  import opened TreeDiff
  import opened ReviewTree

  // ---------- one decision ----------

  /** A decision is refused if its index is out of range, or if the text that hunks of it are
      to be applied to cannot be read. */
  lemma {:induction false} DecideRefused(diffs: seq<FileDiff>, d: FileReview, host: Files)
    ensures Decide(diffs, d, host) == Err(OutOfRange(d.fileIndex)) <==> |diffs| <= d.fileIndex
    ensures d.fileIndex < |diffs| ==>
      var diff := diffs[d.fileIndex];
      && (Decide(diffs, d, host).Err? <==> Decide(diffs, d, host) == Err(Unreadable(diff.path)))
      && (Decide(diffs, d, host).Err? <==>
            && d.acceptedHunks != {} && diff.kind == Modified && !diff.binary
            && forall text :: Lookup(host, diff.path) != Some(Text(text)))
  {
    if d.fileIndex < |diffs| {
      var path := diffs[d.fileIndex].path;
      assert path in host && host[path].Text? ==> Lookup(host, path) == Some(Text(host[path].text));
    }
  }

  /** Otherwise its file is skipped if nothing of it is accepted, or if it is a modified
      binary file, deleted if it was deleted, and written with its new content if not. */
  lemma {:induction false} DecideExactly(diffs: seq<FileDiff>, d: FileReview, host: Files)
    requires Decide(diffs, d, host).Ok?
    ensures d.fileIndex < |diffs|
    ensures var diff, step := diffs[d.fileIndex], Decide(diffs, d, host).value;
      && (step == Skip(diff.path) <==> d.acceptedHunks == {} || (diff.kind == Modified && diff.binary))
      && (step == Act(Delete(diff.path)) <==> d.acceptedHunks != {} && diff.kind == Deleted)
      && (step.Skip? ==> step.path == diff.path)
      && (step.Act? ==> step.action.path == diff.path)
      && (step.Act? && step.action.Write? ==>
            Outcome(diff, d.acceptedHunks, Lookup(host, diff.path)) == Some(step.action.content))
  {
  }

  /** A file that was added is written whole, and a deleted one goes, whichever of its hunks
      are accepted, if any. */
  lemma {:induction false} AnyHunkWillDo(diffs: seq<FileDiff>, i: nat, accepted: set<nat>, host: Files)
    requires i < |diffs| && diffs[i].kind != Modified && accepted != {}
    ensures var all := NewSides(diffs[i].hunks);
      Decide(diffs, FileReview(i, accepted), host)
      == Ok(Act(if diffs[i].kind == Deleted then Delete(diffs[i].path)
                else Write(diffs[i].path, Text(Unlines(all)))))
  {
  }

  // ---------- the plan ----------

  function StepAt(diffs: seq<FileDiff>, decisions: seq<FileReview>, host: Files, i: int): Option<Step> {
    if 0 <= i < |decisions| && Decide(diffs, decisions[i], host).Ok?
    then Some(Decide(diffs, decisions[i], host).value) else None
  }

  /** Which decisions skip their file. */
  function Skipping(diffs: seq<FileDiff>, decisions: seq<FileReview>, host: Files): int -> bool {
    (i: int) =>
      var step := StepAt(diffs, decisions, host, i);
      step.Some? && step.value.Skip?
  }

  /** The plan holds the step of decision `i`, in the order of the decisions. */
  ghost predicate HoldsStep(plan: ReviewPlan, diffs: seq<FileDiff>, decisions: seq<FileReview>, host: Files, i: nat)
  {
    var skips := Count(Skipping(diffs, decisions, host), 0, i);
    match StepAt(diffs, decisions, host, i)
    case None => false
    case Some(Skip(path)) => skips < |plan.skipped| && plan.skipped[skips] == path
    case Some(Act(action)) => 0 <= i - skips < |plan.actions| && plan.actions[i - skips] == action
  }

  lemma {:induction false} HeldBefore(
      plan: ReviewPlan, more: ReviewPlan, diffs: seq<FileDiff>, decisions: seq<FileReview>, host: Files, i: nat)
    requires i + 1 < |decisions| && HoldsStep(plan, diffs, decisions[..|decisions| - 1], host, i)
    requires plan.skipped <= more.skipped && plan.actions <= more.actions
    ensures HoldsStep(more, diffs, decisions, host, i)
  {
    var p, q := Skipping(diffs, decisions[..|decisions| - 1], host), Skipping(diffs, decisions, host);
    CountSame(p, q, 0, i);
  }

  /** The plan lists each decision's step once and nothing else, skipped paths and actions
      each in the order of the decisions. */
  lemma {:induction false} PlanListsSteps(diffs: seq<FileDiff>, decisions: seq<FileReview>, host: Files)
    requires Plan(diffs, decisions, host).Ok?
    ensures var plan := Plan(diffs, decisions, host).value;
      && |plan.skipped| == Count(Skipping(diffs, decisions, host), 0, |decisions|)
      && |plan.skipped| + |plan.actions| == |decisions|
      && forall i :: 0 <= i < |decisions| ==> HoldsStep(plan, diffs, decisions, host, i)
  {
    if decisions != [] {
      var last := |decisions| - 1;
      var before, plan := Plan(diffs, decisions[..last], host).value, Plan(diffs, decisions, host).value;
      PlanListsSteps(diffs, decisions[..last], host);
      CountSame(Skipping(diffs, decisions[..last], host), Skipping(diffs, decisions, host), 0, last);
      forall i | 0 <= i < |decisions|
        ensures HoldsStep(plan, diffs, decisions, host, i)
      {
        if i < last {
          assert HoldsStep(before, diffs, decisions[..last], host, i);
          HeldBefore(before, plan, diffs, decisions, host, i);
        }
      }
    }
  }

  /** A plan that fails fails with the error of the first decision that cannot be planned. */
  lemma {:induction false} PlanFailsFirst(diffs: seq<FileDiff>, decisions: seq<FileReview>, host: Files, n: nat)
    requires n < |decisions| && Decide(diffs, decisions[n], host).Err?
    requires forall i :: 0 <= i < n ==> Decide(diffs, decisions[i], host).Ok?
    ensures Plan(diffs, decisions, host) == Err(Decide(diffs, decisions[n], host).error)
  {
    assert decisions[..n + 1][..n] == decisions[..n] && decisions[..n + 1][n] == decisions[n];
    PlanSucceeds(diffs, decisions[..n], host);
    FailedPrefix(diffs, decisions, host, n + 1);
  }

  // ---------- the report ----------

  function WriteAt(actions: seq<ReviewAction>): int -> bool {
    (k: int) => 0 <= k < |actions| && actions[k].Write?
  }

  /** Which actions delete a file that is there when they come. */
  function DeletionAt(actions: seq<ReviewAction>, files: Files): int -> bool {
    (k: int) => 0 <= k < |actions| && actions[k].Delete? && actions[k].path in Executed(actions[..k], files)
  }

  lemma {:induction false} ReportCounts(actions: seq<ReviewAction>, files: Files)
    ensures Writes(actions) == Count(WriteAt(actions), 0, |actions|)
    ensures Deletions(actions, files) == Count(DeletionAt(actions, files), 0, |actions|)
  {
    if actions != [] {
      var last := |actions| - 1;
      var before := actions[..last];
      ReportCounts(before, files);
      CountSame(WriteAt(before), WriteAt(actions), 0, last);
      assert forall k :: 0 <= k < last ==> before[..k] == actions[..k];
      CountSame(DeletionAt(before, files), DeletionAt(actions, files), 0, last);
    }
  }
}
