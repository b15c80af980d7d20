/** Accepting every change of an overlay: when the base becomes the overlay.
    Over crates/cuartel-core/src/overlay.rs, lines 55 to 98, and
    crates/cuartel-core/src/review.rs, lines 36 to 181. */
module ReviewRoundTrip {
  import opened Wrappers
  import opened Sorting
  import opened Overlay
  import opened Review
  import opened LineText
  import opened LineCuts
  import opened HunkSpacing
  import opened ReviewText
  import opened TreeDiff
  import opened ReviewTree

  /** Every file accepted, as `FileReview::accept_all` does it. */
  function FullAccept(diffs: seq<FileDiff>): seq<FileReview> {
    seq(|diffs|, i requires 0 <= i < |diffs| => FileReview(i, AllOf(|diffs[i].hunks|)))
  }

  /** In no text that is modified does a carriage return stand alone before the end. */
  ghost predicate PlainChanges(base: Files, overlay: Files) {
    forall p :: p in base && p in overlay && base[p] != overlay[p] && base[p].Text? && overlay[p].Text? ==>
      NoInnerCR(base[p].text)
  }

  /** When accepting all of the change of one file brings the file of the overlay back.  A
      new file must be terminated text, a deleted file must not have been empty, and the
      result of a modification must survive the cut and the join of its lines. */
  predicate Restorable(before: Option<Content>, after: Option<Content>) {
    match (before, after)
    case (None, Some(Text(n))) => n != [] && '\r' !in n && EndsLF(n)
    case (Some(Text(o)), None) => o != []
    case (Some(Text(o)), Some(Text(n))) => Survives(n, o)
    case _ => false
  }

  lemma {:induction false} AllOfEmpty(n: nat)
    ensures AllOf(n) == {} <==> n == 0
  {
  }

  lemma {:induction false} TextDiffScript(lib: DiffLibrary, before: string, after: string)
    requires Sound(lib)
    ensures var ops := lib(CutText(before), CutText(after));
      IsScript(ops, before, after) && TextDiff(lib, before, after) == HunksOfTexts(ops, before, after)
  {
  }

  lemma {:induction false} NoDiffOfNothing(lib: DiffLibrary)
    requires Sound(lib)
    ensures TextDiff(lib, "", "") == []
  {
    assert CutText("") == [];
  }

  lemma {:induction false} DifferentTexts(lib: DiffLibrary, before: string, after: string)
    requires Sound(lib) && before != after
    ensures TextDiff(lib, before, after) != []
  {
    TextDiffScript(lib, before, after);
    if TextDiff(lib, before, after) == [] {
      HunksIfDifferent(lib(CutText(before), CutText(after)), before, after);
    }
  }

  /** One added, deleted or modified file. */
  lemma {:induction false} AddedOutcome(lib: DiffLibrary, n: string)
    requires Sound(lib)
    ensures var hunks := TextDiff(lib, "", n);
      (hunks != [] && Unlines(NewSides(hunks)) == n) <==> n != [] && '\r' !in n && EndsLF(n)
  {
    TextDiffScript(lib, "", n);
    AddedText(lib(CutText(""), CutText(n)), n);
    if n == "" {
      NoDiffOfNothing(lib);
    } else {
      DifferentTexts(lib, "", n);
    }
  }

  lemma {:induction false} DeletedOutcome(lib: DiffLibrary, o: string)
    requires Sound(lib)
    ensures TextDiff(lib, o, "") != [] <==> o != []
  {
    if o == "" {
      NoDiffOfNothing(lib);
    } else {
      DifferentTexts(lib, o, "");
    }
  }

  lemma {:induction false} ModifiedOutcome(lib: DiffLibrary, o: string, n: string)
    requires Sound(lib) && NoInnerCR(o) && o != n
    ensures var hunks := TextDiff(lib, o, n);
      && hunks != [] && NoPanic(hunks, 0, |LinesIn(o)|)
      && (Applied(o, hunks, AllOf(|hunks|)) == n <==> Survives(n, o))
  {
    var ops := lib(CutText(o), CutText(n));
    TextDiffScript(lib, o, n);
    DifferentTexts(lib, o, n);
    HunksOfTextsNoPanic(ops, o, n);
    AcceptAllText(ops, o, n, AllOf(|TextDiff(lib, o, n)|));
  }

  // ---------- a host that has changed ----------

  /** What planning a decision needs of the file that the host has now. */
  predicate HostFits(diff: FileDiff, accepted: set<nat>, host: Files) {
    && accepted != {} && diff.kind == Modified && !diff.binary
    && diff.path in host && host[diff.path].Text? ==>
      LastFits(diff.hunks, |LinesIn(host[diff.path].text)|)
  }

  /** Whatever the host has become, planning a decision about the diff of two trees panics
      if and only if the last hunk of a modified file starts past the end of the file that
      is there now. */
  lemma {:induction false} PlanPanicsExactly(
      diffs: seq<FileDiff>, d: FileReview, lib: DiffLibrary, base: Files, overlay: Files, host: Files)
    requires Sound(lib) && TrueDiffs(diffs, lib, base, overlay) && d.fileIndex < |diffs|
    ensures NoPanicOn(diffs, d, host) <==> HostFits(diffs[d.fileIndex], d.acceptedHunks, host)
  {
    var diff := diffs[d.fileIndex];
    assert diff in diffs;
    if diff.kind == Modified && !diff.binary && diff.path in host && host[diff.path].Text? {
      var o, n := base[diff.path].text, overlay[diff.path].text;
      TextDiffScript(lib, o, n);
      HunksFitExactly(lib(CutText(o), CutText(n)), o, n, host[diff.path].text);
    }
  }

  lemma {:induction false} OutcomeOfAll(lib: DiffLibrary, p: Path, base: Files, overlay: Files)
    requires Sound(lib) && PlainChanges(base, overlay) && Changed(p, base, overlay)
    ensures var diff := DiffAt(lib, p, base, overlay);
      Outcome(diff, AllOf(|diff.hunks|), Lookup(base, p)) == Lookup(overlay, p)
      <==> Restorable(Lookup(base, p), Lookup(overlay, p))
  {
    var diff := DiffAt(lib, p, base, overlay);
    AllOfEmpty(|diff.hunks|);
    match (Lookup(base, p), Lookup(overlay, p)) {
      case (None, Some(Text(n))) => AddedOutcome(lib, n);
      case (Some(Text(o)), None) => DeletedOutcome(lib, o);
      case (Some(Text(o)), Some(Text(n))) => ModifiedOutcome(lib, o, n);
      case _ =>
    }
  }

  lemma {:induction false} DecidesAll(diffs: seq<FileDiff>, lib: DiffLibrary, base: Files, overlay: Files, i: nat)
    requires Sound(lib) && PlainChanges(base, overlay)
    requires TrueDiffs(diffs, lib, base, overlay) && i < |diffs|
    ensures var d := FileReview(i, AllOf(|diffs[i].hunks|));
      Decide(diffs, d, base).Ok? && NoPanicOn(diffs, d, base)
  {
    var diff := diffs[i];
    assert diff in diffs;
    if diff.kind == Modified && !diff.binary {
      ModifiedOutcome(lib, base[diff.path].text, overlay[diff.path].text);
    }
  }

  /** Accepting everything never fails and never panics. */
  lemma {:induction false} FullAcceptPlans(diffs: seq<FileDiff>, lib: DiffLibrary, base: Files, overlay: Files)
    requires Sound(lib) && PlainChanges(base, overlay)
    requires TrueDiffs(diffs, lib, base, overlay)
    ensures forall d :: d in FullAccept(diffs) ==> NoPanicOn(diffs, d, base)
    ensures Plan(diffs, FullAccept(diffs), base).Ok?
  {
    forall d | d in FullAccept(diffs)
      ensures Decide(diffs, d, base).Ok? && NoPanicOn(diffs, d, base)
    {
      DecidesAll(diffs, lib, base, overlay, d.fileIndex);
    }
    PlanSucceeds(diffs, FullAccept(diffs), base);
  }

  lemma {:induction false} SortedDistinct(diffs: seq<FileDiff>, less: (Path, Path) -> bool)
    requires StrictOrder(less) && Sorted(Paths(diffs), less)
    ensures DistinctPaths(diffs)
  {
    forall i, j | 0 <= i < j < |diffs|
      ensures diffs[i].path != diffs[j].path
    {
      assert less(Paths(diffs)[i], Paths(diffs)[j]);
      assert Paths(diffs)[i] == DiffPath(diffs[i]) && Paths(diffs)[j] == DiffPath(diffs[j]);
    }
  }

  /** A path that changed, after everything was accepted. */
  lemma {:induction false} ChangedPath(
      diffs: seq<FileDiff>, lib: DiffLibrary, base: Files, overlay: Files, less: (Path, Path) -> bool, p: Path)
    requires Sound(lib) && StrictOrder(less) && PlainChanges(base, overlay)
    requires IsTreeDiff(diffs, lib, base, overlay, less) && Changed(p, base, overlay)
    requires Plan(diffs, FullAccept(diffs), base).Ok?
    ensures var result := Executed(Plan(diffs, FullAccept(diffs), base).value.actions, base);
      Lookup(result, p) == Lookup(overlay, p) <==> Restorable(Lookup(base, p), Lookup(overlay, p))
  {
    SortedDistinct(diffs, less);
    assert Lists(diffs, p);
    var i :| 0 <= i < |diffs| && diffs[i].path == p;
    assert diffs[i] in diffs;
    OwnPath(diffs, FullAccept(diffs), base, i);
    OutcomeOfAll(lib, p, base, overlay);
  }

  lemma {:induction false} UnchangedPath(
      diffs: seq<FileDiff>, lib: DiffLibrary, base: Files, overlay: Files, p: Path)
    requires TrueDiffs(diffs, lib, base, overlay) && !Changed(p, base, overlay)
    requires Plan(diffs, FullAccept(diffs), base).Ok?
    ensures Lookup(Executed(Plan(diffs, FullAccept(diffs), base).value.actions, base), p) == Lookup(overlay, p)
  {
    forall d | d in FullAccept(diffs)
      ensures !About(d, diffs, p)
    {
      assert diffs[d.fileIndex] in diffs;
    }
    OtherPaths(diffs, FullAccept(diffs), base, p);
  }

  lemma {:induction false} SameLookups(a: Files, b: Files)
    ensures a == b <==> forall p :: Lookup(a, p) == Lookup(b, p)
  {
    if forall p :: Lookup(a, p) == Lookup(b, p) {
      assert forall p :: p in a <==> Lookup(a, p).Some?;
      assert forall p :: p in a ==> Lookup(a, p) == Some(a[p]);
      assert forall p :: p in b <==> Lookup(b, p).Some?;
      assert forall p :: p in b ==> Lookup(b, p) == Some(b[p]);
      assert a.Keys == b.Keys;
      assert a == b;
    }
  }

  /** Accepting the whole diff of two trees turns the base into the overlay if and only if
      every change is restorable. */
  lemma {:induction false} FullAcceptGivesOverlay(
      diffs: seq<FileDiff>, lib: DiffLibrary, base: Files, overlay: Files, less: (Path, Path) -> bool)
    requires Sound(lib) && StrictOrder(less) && PlainChanges(base, overlay)
    requires IsTreeDiff(diffs, lib, base, overlay, less)
    ensures Plan(diffs, FullAccept(diffs), base).Ok?
    ensures Executed(Plan(diffs, FullAccept(diffs), base).value.actions, base) == overlay <==>
              forall p :: Changed(p, base, overlay) ==> Restorable(Lookup(base, p), Lookup(overlay, p))
  {
    FullAcceptPlans(diffs, lib, base, overlay);
    var result := Executed(Plan(diffs, FullAccept(diffs), base).value.actions, base);
    forall p
      ensures Lookup(result, p) == Lookup(overlay, p) <==>
                (Changed(p, base, overlay) ==> Restorable(Lookup(base, p), Lookup(overlay, p)))
    {
      if Changed(p, base, overlay) {
        ChangedPath(diffs, lib, base, overlay, less, p);
      } else {
        UnchangedPath(diffs, lib, base, overlay, p);
      }
    }
    SameLookups(result, overlay);
  }

  /** Rejecting every file leaves the workspace as it is. */
  lemma {:induction false} RejectingKeepsFiles(diffs: seq<FileDiff>, decisions: seq<FileReview>, host: Files)
    requires forall d :: d in decisions ==> d.fileIndex < |diffs| && d.acceptedHunks == {}
    ensures Plan(diffs, decisions, host).Ok? && Plan(diffs, decisions, host).value.actions == []
  {
    if decisions != [] {
      var last := |decisions| - 1;
      assert decisions[last] in decisions;
      assert forall d :: d in decisions[..last] ==> d in decisions;
      RejectingKeepsFiles(diffs, decisions[..last], host);
    }
  }
}
