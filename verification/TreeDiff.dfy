/** The diff of two file trees.
    Models crates/cuartel-core/src/overlay.rs, lines 8 to 98. */
module TreeDiff {
  import opened Wrappers
  import opened Sorting
  import opened EditScript
  import opened Overlay
  import opened LineCuts

  type Path = string

  /** What a file holds: valid UTF-8, or bytes that are not. */
  datatype Content = Text(text: string) | Binary(bytes: seq<bv8>)

  type Files = map<Path, Content>

  function Lookup(files: Files, p: Path): Option<Content> {
    if p in files then Some(files[p]) else None
  }

  // ---------- trees ----------

  /** A `BTreeMap`: its keys in ascending order, and what they map to. */
  datatype Tree = Tree(keys: seq<Path>, files: Files)

  ghost predicate IsTree(t: Tree, less: (Path, Path) -> bool) {
    Sorted(t.keys, less) && forall p :: p in t.keys <==> p in t.files
  }

  // ---------- the diff library ----------

  /** The edit script that the diff library finds between two lists of lines. */
  type DiffLibrary = (seq<string>, seq<string>) -> seq<Op>

  /** What is relied on: scripts are valid, and there is nothing to do from nothing to
      nothing. */
  ghost predicate Sound(lib: DiffLibrary) {
    (forall a, b :: ValidScript(lib(a, b), a, b)) && lib([], []) == []
  }

  // ---------- diffs ----------

  datatype DiffKind = Added | Modified | Deleted

  datatype FileDiff = FileDiff(path: Path, kind: DiffKind, binary: bool, hunks: seq<DiffHunk>)

  function TextDiff(lib: DiffLibrary, before: string, after: string): seq<DiffHunk> {
    DiffHunks(lib(CutText(before), CutText(after)), DiffedLines(before), DiffedLines(after))
  }

  function FileDiffOf(lib: DiffLibrary, p: Path, before: Content, after: Content, kind: DiffKind): FileDiff {
    if before.Text? && after.Text? then FileDiff(p, kind, false, TextDiff(lib, before.text, after.text))
    else FileDiff(p, kind, true, [])
  }

  /** The diff of one path; a missing side counts as empty. */
  function DiffAt(lib: DiffLibrary, p: Path, base: Files, overlay: Files): FileDiff {
    FileDiffOf(lib, p,
      if p in base then base[p] else Text(""), if p in overlay then overlay[p] else Text(""),
      if p !in base then DiffKind.Added else if p !in overlay then Deleted else Modified)
  }

  predicate Changed(p: Path, base: Files, overlay: Files) { Lookup(base, p) != Lookup(overlay, p) }

  function DiffPath(d: FileDiff): Path { d.path }

  function Paths(diffs: seq<FileDiff>): seq<Path> { Keys(diffs, DiffPath) }

  /** Every diff is that of a path that changed. */
  ghost predicate TrueDiffs(diffs: seq<FileDiff>, lib: DiffLibrary, base: Files, overlay: Files) {
    forall d :: d in diffs ==> Changed(d.path, base, overlay) && d == DiffAt(lib, d.path, base, overlay)
  }

  ghost predicate Lists(diffs: seq<FileDiff>, p: Path) { exists d :: d in diffs && d.path == p }

  /** One diff for each path that changed, in order. */
  ghost predicate IsTreeDiff(diffs: seq<FileDiff>, lib: DiffLibrary, base: Files, overlay: Files,
                             less: (Path, Path) -> bool)
  {
    && TrueDiffs(diffs, lib, base, overlay)
    && (forall p :: Changed(p, base, overlay) ==> Lists(diffs, p))
    && Sorted(Paths(diffs), less)
  }

  predicate IsBinary(side: Option<Content>) { side.Some? && side.value.Binary? }

  /** The diff of a path that changed says whether it was added, deleted or modified, and
      whether a side is not text; then it has no hunks. */
  lemma {:induction false} DiffAtExactly(lib: DiffLibrary, p: Path, base: Files, overlay: Files)
    requires Changed(p, base, overlay)
    ensures var d, before, after := DiffAt(lib, p, base, overlay), Lookup(base, p), Lookup(overlay, p);
      && d.path == p
      && (d.kind == DiffKind.Added <==> before == None) && (d.kind == Deleted <==> after == None)
      && (d.binary <==> IsBinary(before) || IsBinary(after)) && (d.binary ==> d.hunks == [])
  {
  }

  // ---------- diff_trees ----------

  method BuildFileDiff(lib: DiffLibrary, p: Path, before: Content, after: Content, kind: DiffKind)
    returns (d: FileDiff)
    requires Sound(lib)
    ensures d == FileDiffOf(lib, p, before, after, kind)
  {
    if before.Text? && after.Text? {
      var a, b := CutText(before.text), CutText(after.text);
      var hunks := TextHunks(lib(a, b), a, b);
      d := FileDiff(p, kind, false, hunks);
    } else {
      d := FileDiff(p, kind, true, []);
    }
  }

  /** No two diffs of the list have the same path. */
  ghost predicate DistinctPaths(diffs: seq<FileDiff>) {
    forall i, j :: 0 <= i < j < |diffs| ==> diffs[i].path != diffs[j].path
  }

  /** The diffs of those of the paths seen so far that changed, each once. */
  ghost predicate Covers(diffs: seq<FileDiff>, seen: seq<Path>, lib: DiffLibrary, base: Files, overlay: Files) {
    && TrueDiffs(diffs, lib, base, overlay) && DistinctPaths(diffs)
    && forall p :: Lists(diffs, p) <==> p in seen && Changed(p, base, overlay)
  }

  lemma {:induction false} CoversOneMore(
      diffs: seq<FileDiff>, seen: seq<Path>, p: Path, lib: DiffLibrary, base: Files, overlay: Files)
    requires Covers(diffs, seen, lib, base, overlay)
    ensures p in seen || !Changed(p, base, overlay) ==> Covers(diffs, seen + [p], lib, base, overlay)
    ensures p !in seen && Changed(p, base, overlay) ==>
              Covers(diffs + [DiffAt(lib, p, base, overlay)], seen + [p], lib, base, overlay)
  {
  }

  lemma {:induction false} OneMoreKey(t: Tree, i: nat, less: (Path, Path) -> bool)
    requires StrictOrder(less) && IsTree(t, less) && i < |t.keys|
    ensures t.keys[i] !in t.keys[..i] && t.keys[..i + 1] == t.keys[..i] + [t.keys[i]]
  {
  }

  /** The loop over the overlay: files that are new or not the same. */
  method PushChanged(base: Tree, overlay: Tree, lib: DiffLibrary, ghost less: (Path, Path) -> bool)
    returns (out: seq<FileDiff>)
    requires Sound(lib) && StrictOrder(less) && IsTree(overlay, less)
    ensures Covers(out, overlay.keys, lib, base.files, overlay.files)
  {
    out := [];
    for i := 0 to |overlay.keys|
      invariant Covers(out, overlay.keys[..i], lib, base.files, overlay.files)
    {
      var p := overlay.keys[i];
      assert p in overlay.keys;
      OneMoreKey(overlay, i, less);
      CoversOneMore(out, overlay.keys[..i], p, lib, base.files, overlay.files);
      if p !in base.files {
        var d := BuildFileDiff(lib, p, Text(""), overlay.files[p], DiffKind.Added);
        out := out + [d];
      } else if base.files[p] != overlay.files[p] {
        var d := BuildFileDiff(lib, p, base.files[p], overlay.files[p], Modified);
        out := out + [d];
      }
    }
    assert overlay.keys[..|overlay.keys|] == overlay.keys;
  }

  /** The loop over the base: files that are gone. */
  method PushDeleted(
      base: Tree, overlay: Tree, lib: DiffLibrary, ghost less: (Path, Path) -> bool, diffs: seq<FileDiff>)
    returns (out: seq<FileDiff>)
    requires Sound(lib) && StrictOrder(less) && IsTree(base, less) && IsTree(overlay, less)
    requires Covers(diffs, overlay.keys, lib, base.files, overlay.files)
    ensures Covers(out, overlay.keys + base.keys, lib, base.files, overlay.files)
  {
    out := diffs;
    assert overlay.keys + base.keys[..0] == overlay.keys;
    for i := 0 to |base.keys|
      invariant Covers(out, overlay.keys + base.keys[..i], lib, base.files, overlay.files)
    {
      var p := base.keys[i];
      assert p in base.keys;
      OneMoreKey(base, i, less);
      CoversOneMore(out, overlay.keys + base.keys[..i], p, lib, base.files, overlay.files);
      assert overlay.keys + base.keys[..i + 1] == overlay.keys + base.keys[..i] + [p];
      if p !in overlay.files {
        var d := BuildFileDiff(lib, p, base.files[p], Text(""), Deleted);
        out := out + [d];
      }
    }
    assert base.keys[..|base.keys|] == base.keys;
  }

  /** `diff_trees`. */
  method DiffTrees(base: Tree, overlay: Tree, lib: DiffLibrary, less: (Path, Path) -> bool)
    returns (out: seq<FileDiff>)
    requires Sound(lib) && StrictOrder(less) && IsTree(base, less) && IsTree(overlay, less)
    ensures IsTreeDiff(out, lib, base.files, overlay.files, less)
  {
    out := PushChanged(base, overlay, lib, less);
    out := PushDeleted(base, overlay, lib, less, out);
    SortKeeps(out, DiffPath, less);
    assert DistinctKeys(out, DiffPath);
    SortSorts(out, DiffPath, less);
    assert forall p :: Lists(SortBy(out, DiffPath, less), p) <==> Lists(out, p);
    out := SortBy(out, DiffPath, less);
  }
}
