/** Planning and executing a review of a whole tree.
    Models crates/cuartel-core/src/review.rs, lines 30 to 164. */
module ReviewTree {
  import opened Wrappers
  import opened Overlay
  import opened Review
  import opened LineText
  import opened ReviewText
  import opened TreeDiff

  /** The hunks of one file that are accepted; none of them rejects the file. */
  datatype FileReview = FileReview(fileIndex: nat, acceptedHunks: set<nat>)

  datatype ReviewAction = Write(path: Path, content: Content) | Delete(path: Path)

  datatype ReviewPlan = ReviewPlan(actions: seq<ReviewAction>, skipped: seq<Path>)

  datatype ReviewError = OutOfRange(index: nat) | Unreadable(path: Path)

  datatype Step = Skip(path: Path) | Act(action: ReviewAction)

  // ---------- the plan ----------

  /** What one decision comes to, given the files of the host. */
  function Decide(diffs: seq<FileDiff>, d: FileReview, host: Files): Result<Step, ReviewError> {
    if |diffs| <= d.fileIndex then Err(OutOfRange(d.fileIndex))
    else
      var diff := diffs[d.fileIndex];
      if d.acceptedHunks == {} then Ok(Skip(diff.path))
      else
        match diff.kind
        case Added => Ok(Act(Write(diff.path, Text(Unlines(NewSides(diff.hunks))))))
        case Deleted => Ok(Act(Delete(diff.path)))
        case Modified =>
          if diff.binary then Ok(Skip(diff.path))
          else if diff.path in host && host[diff.path].Text? then
            Ok(Act(Write(diff.path, Text(Applied(host[diff.path].text, diff.hunks, d.acceptedHunks)))))
          else Err(Unreadable(diff.path))
  }

  function WithStep(plan: ReviewPlan, step: Step): ReviewPlan {
    match step
    case Skip(p) => plan.(skipped := plan.skipped + [p])
    case Act(a) => plan.(actions := plan.actions + [a])
  }

  /** The plan for the decisions; the first decision that fails fails it. */
  function Plan(diffs: seq<FileDiff>, decisions: seq<FileReview>, host: Files): Result<ReviewPlan, ReviewError> {
    if decisions == [] then Ok(ReviewPlan([], []))
    else
      var last := |decisions| - 1;
      match Plan(diffs, decisions[..last], host)
      case Err(e) => Err(e)
      case Ok(plan) =>
        match Decide(diffs, decisions[last], host)
        case Err(e) => Err(e)
        case Ok(step) => Ok(WithStep(plan, step))
  }

  /** No decision makes `apply_hunks` panic on the file the host has now. */
  predicate NoPanicOn(diffs: seq<FileDiff>, d: FileReview, host: Files) {
    d.fileIndex < |diffs| ==>
      var diff := diffs[d.fileIndex];
      && d.acceptedHunks != {} && diff.kind == Modified && !diff.binary
      && diff.path in host && host[diff.path].Text? ==>
        NoPanic(diff.hunks, 0, |LinesIn(host[diff.path].text)|)
  }

  lemma {:induction false} FailedPrefix(diffs: seq<FileDiff>, decisions: seq<FileReview>, host: Files, n: nat)
    requires n <= |decisions| && Plan(diffs, decisions[..n], host).Err?
    ensures Plan(diffs, decisions, host) == Plan(diffs, decisions[..n], host)
    decreases |decisions| - n
  {
    if n < |decisions| {
      assert decisions[..n + 1][..n] == decisions[..n];
      FailedPrefix(diffs, decisions, host, n + 1);
    } else {
      assert decisions[..n] == decisions;
    }
  }

  /** One turn of the loop of `plan_review`. */
  method PlanOne(diffs: seq<FileDiff>, d: FileReview, host: Files) returns (r: Result<Step, ReviewError>)
    requires NoPanicOn(diffs, d, host)
    ensures r == Decide(diffs, d, host)
  {
    if |diffs| <= d.fileIndex {
      return Err(OutOfRange(d.fileIndex));
    }
    var diff := diffs[d.fileIndex];
    if d.acceptedHunks == {} {
      return Ok(Skip(diff.path));
    }
    match diff.kind {
      case Added =>
        var content := ReconstructAdded(diff.hunks);
        r := Ok(Act(Write(diff.path, Text(content))));
      case Deleted =>
        r := Ok(Act(Delete(diff.path)));
      case Modified =>
        if diff.binary {
          r := Ok(Skip(diff.path));
        } else if diff.path in host && host[diff.path].Text? {
          var result := ApplyHunks(host[diff.path].text, diff.hunks, d.acceptedHunks);
          r := Ok(Act(Write(diff.path, Text(result))));
        } else {
          r := Err(Unreadable(diff.path));
        }
    }
  }

  /** `plan_review`. */
  method PlanReview(diffs: seq<FileDiff>, decisions: seq<FileReview>, host: Files)
    returns (r: Result<ReviewPlan, ReviewError>)
    requires forall d :: d in decisions ==> NoPanicOn(diffs, d, host)
    ensures r == Plan(diffs, decisions, host)
  {
    var plan := ReviewPlan([], []);
    for n := 0 to |decisions|
      invariant Plan(diffs, decisions[..n], host) == Ok(plan)
    {
      assert decisions[n] in decisions && decisions[..n + 1][..n] == decisions[..n];
      var step := PlanOne(diffs, decisions[n], host);
      match step {
        case Err(e) =>
          FailedPrefix(diffs, decisions, host, n + 1);
          return Err(e);
        case Ok(s) =>
          match s {
            case Skip(p) => plan := plan.(skipped := plan.skipped + [p]);
            case Act(a) => plan := plan.(actions := plan.actions + [a]);
          }
      }
    }
    assert decisions[..|decisions|] == decisions;
    r := Ok(plan);
  }

  // ---------- execution ----------

  function After(a: ReviewAction, files: Files): Files {
    match a
    case Write(p, content) => files[p := content]
    case Delete(p) => files - {p}
  }

  /** The files once the actions are done, in order. */
  function Executed(actions: seq<ReviewAction>, files: Files): Files {
    if actions == [] then files
    else After(actions[|actions| - 1], Executed(actions[..|actions| - 1], files))
  }

  datatype ExecutionReport = ExecutionReport(filesWritten: nat, filesDeleted: nat, filesSkipped: nat)

  /** Deletions of files that were there. */
  function Deletions(actions: seq<ReviewAction>, files: Files): nat {
    if actions == [] then 0
    else
      var a, before := actions[|actions| - 1], actions[..|actions| - 1];
      Deletions(before, files) + (if a.Delete? && a.path in Executed(before, files) then 1 else 0)
  }

  function Writes(actions: seq<ReviewAction>): nat {
    if actions == [] then 0
    else Writes(actions[..|actions| - 1]) + (if actions[|actions| - 1].Write? then 1 else 0)
  }

  /** The workspace of the host. */
  class Host {
    var files: Files

    constructor (files: Files)
      ensures this.files == files
    {
      this.files := files;
    }

    /** `execute_review`. */
    method Execute(plan: ReviewPlan) returns (report: ExecutionReport)
      modifies this
      ensures files == Executed(plan.actions, old(files))
      ensures report == ExecutionReport(
                Writes(plan.actions), Deletions(plan.actions, old(files)), |plan.skipped|)
    {
      var written: nat, deleted: nat := 0, 0;
      for n := 0 to |plan.actions|
        invariant files == Executed(plan.actions[..n], old(files))
        invariant written == Writes(plan.actions[..n]) && deleted == Deletions(plan.actions[..n], old(files))
      {
        assert plan.actions[..n + 1][..n] == plan.actions[..n];
        match plan.actions[n] {
          case Write(p, content) =>
            files := files[p := content];
            written := written + 1;
          case Delete(p) =>
            if p in files {
              files := files - {p};
              deleted := deleted + 1;
            }
        }
      }
      assert plan.actions[..|plan.actions|] == plan.actions;
      report := ExecutionReport(written, deleted, |plan.skipped|);
    }
  }

  // ---------- each path depends on its own decision only ----------

  /** What becomes of the file of a diff. */
  function Outcome(diff: FileDiff, accepted: set<nat>, before: Option<Content>): Option<Content> {
    if accepted == {} then before
    else
      match diff.kind
      case Added => Some(Text(Unlines(NewSides(diff.hunks))))
      case Deleted => None
      case Modified =>
        if diff.binary || before.None? || before.value.Binary? then before
        else Some(Text(Applied(before.value.text, diff.hunks, accepted)))
  }

  ghost predicate About(d: FileReview, diffs: seq<FileDiff>, p: Path) {
    d.fileIndex < |diffs| && diffs[d.fileIndex].path == p
  }

  /** Decisions are about different files. */
  ghost predicate Separate(decisions: seq<FileReview>) {
    forall i, j :: 0 <= i < j < |decisions| ==> decisions[i].fileIndex != decisions[j].fileIndex
  }

  /** What one decision does to the files: to its own path, and to no other. */
  lemma {:induction false} OneDecision(diffs: seq<FileDiff>, d: FileReview, host: Files, files: Files, p: Path)
    requires Decide(diffs, d, host).Ok? && Lookup(files, p) == Lookup(host, p)
    ensures var step := Decide(diffs, d, host).value;
      Lookup(if step.Act? then After(step.action, files) else files, p)
      == if About(d, diffs, p) then Outcome(diffs[d.fileIndex], d.acceptedHunks, Lookup(host, p)) else Lookup(host, p)
  {
  }

  lemma {:induction false} OneDecisionElsewhere(diffs: seq<FileDiff>, d: FileReview, host: Files, files: Files, p: Path)
    requires Decide(diffs, d, host).Ok? && !About(d, diffs, p)
    ensures var step := Decide(diffs, d, host).value;
      Lookup(if step.Act? then After(step.action, files) else files, p) == Lookup(files, p)
  {
  }

  lemma {:induction false} PlanStep(diffs: seq<FileDiff>, decisions: seq<FileReview>, host: Files)
    requires decisions != [] && Plan(diffs, decisions, host).Ok?
    ensures var last := |decisions| - 1;
      && Plan(diffs, decisions[..last], host).Ok? && Decide(diffs, decisions[last], host).Ok?
      && var files, step := Executed(Plan(diffs, decisions[..last], host).value.actions, host),
                            Decide(diffs, decisions[last], host).value;
        Executed(Plan(diffs, decisions, host).value.actions, host)
        == if step.Act? then After(step.action, files) else files
  {
  }

  /** A path that no decision is about is left alone. */
  lemma {:induction false} OtherPaths(diffs: seq<FileDiff>, decisions: seq<FileReview>, host: Files, p: Path)
    requires Plan(diffs, decisions, host).Ok? && forall d :: d in decisions ==> !About(d, diffs, p)
    ensures Lookup(Executed(Plan(diffs, decisions, host).value.actions, host), p) == Lookup(host, p)
  {
    if decisions != [] {
      var last := |decisions| - 1;
      PlanStep(diffs, decisions, host);
      assert forall d :: d in decisions[..last] ==> d in decisions;
      OtherPaths(diffs, decisions[..last], host, p);
      OneDecisionElsewhere(diffs, decisions[last], host,
        Executed(Plan(diffs, decisions[..last], host).value.actions, host), p);
    }
  }

  /** The file of a decision becomes what that decision alone makes of it. */
  lemma {:induction false} OwnPath(diffs: seq<FileDiff>, decisions: seq<FileReview>, host: Files, k: nat)
    requires Plan(diffs, decisions, host).Ok? && Separate(decisions) && DistinctPaths(diffs) && k < |decisions|
    ensures decisions[k].fileIndex < |diffs|
    ensures var diff := diffs[decisions[k].fileIndex];
      Lookup(Executed(Plan(diffs, decisions, host).value.actions, host), diff.path)
      == Outcome(diff, decisions[k].acceptedHunks, Lookup(host, diff.path))
  {
    var last := |decisions| - 1;
    PlanStep(diffs, decisions, host);
    var files := Executed(Plan(diffs, decisions[..last], host).value.actions, host);
    if k < last {
      OwnPath(diffs, decisions[..last], host, k);
      OneDecisionElsewhere(diffs, decisions[last], host, files, diffs[decisions[k].fileIndex].path);
    } else {
      var p := diffs[decisions[k].fileIndex].path;
      assert forall d :: d in decisions[..last] ==> !About(d, diffs, p);
      OtherPaths(diffs, decisions[..last], host, p);
      OneDecision(diffs, decisions[last], host, files, p);
    }
  }

  /** Planning succeeds if and only if every decision, on its own, can be planned. */
  lemma {:induction false} PlanSucceeds(diffs: seq<FileDiff>, decisions: seq<FileReview>, host: Files)
    ensures Plan(diffs, decisions, host).Ok? <==> forall d :: d in decisions ==> Decide(diffs, d, host).Ok?
  {
    if decisions != [] {
      var last := |decisions| - 1;
      PlanSucceeds(diffs, decisions[..last], host);
      assert forall d :: d in decisions <==> d in decisions[..last] || d == decisions[last];
    }
  }
}
