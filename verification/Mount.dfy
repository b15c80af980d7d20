/** Which entries of a host directory are mounted, where, and in which batches.
    Models crates/cuartel-core/src/workspace_mount.rs, lines 57 to 310 and 340 to 354. */
module Mount {
  import opened Wrappers
  import opened Sorting
  import opened Text

  /** A file name as the host stores it. */
  datatype Name = Utf8(text: string) | NonUtf8(bytes: seq<bv8>)

  /** What stands under a name; `Other` is a symbolic link, a socket and the like, `Faulty`
      an entry whose type, size or listing cannot be read. */
  datatype Node = Dir(entries: seq<Entry>) | File(size: nat) | Other | Faulty

  datatype Entry = Entry(name: Name, node: Node)

  /** A path below the host root. */
  type HostPath = seq<Name>

  datatype MountOptions = MountOptions(mountPoint: string, exclude: set<string>, maxFileSize: nat, batchSize: nat)

  datatype SkipReason = Excluded | TooLarge(size: nat) | NonUtf8Path | NotRegularFile

  datatype SkipEntry = SkipEntry(hostPath: HostPath, reason: SkipReason)

  datatype MountFile = MountFile(hostPath: HostPath, vmPath: string, size: nat)

  // ---------- paths in the virtual machine ----------

  /** Every component as text, or nothing if one is not UTF-8. */
  function Parts(p: HostPath): Option<seq<string>> {
    if p == [] then Some([])
    else if p[0].NonUtf8? then None
    else
      match Parts(p[1..])
      case None => None
      case Some(rest) => Some([p[0].text] + rest)
  }

  /** `vm_path_for_rel`. */
  function VmPath(mountPoint: string, p: HostPath): Option<string> {
    match Parts(p)
    case None => None
    case Some(parts) => Some(if parts == [] then mountPoint else mountPoint + ['/'] + Join(parts, '/'))
  }

  /** `trim_end_matches('/')`, and the checks after it. */
  function TrimSlashes(s: string): (r: string)
    ensures r == [] || r[|r| - 1] != '/'
  {
    if s != [] && s[|s| - 1] == '/' then TrimSlashes(s[..|s| - 1]) else s
  }

  datatype MountError = NotAbsolute(mountPoint: string) | MissingRoot | RootNotDirectory | ReadFailed

  function NormalizedMountPoint(opts: MountOptions): Result<string, MountError> {
    var trimmed := TrimSlashes(opts.mountPoint);
    if trimmed == [] || trimmed[0] != '/' then Err(NotAbsolute(opts.mountPoint)) else Ok(trimmed)
  }

  // ---------- one entry ----------

  /** What the walk is called with besides the directory. */
  datatype Settings = Settings(mountPoint: string, exclude: set<string>, maxFileSize: nat)

  datatype Placement =
    | Made(hostPath: HostPath, directory: string)
    | Planned(file: MountFile)
    | Skipped(skip: SkipEntry)
    | Unread(path: HostPath)

  /** Where an entry of the directory `at` is put: the checks of the walk, in order. */
  function Place(e: Entry, at: HostPath, s: Settings): Placement {
    var path := at + [e.name];
    if e.name.NonUtf8? then Skipped(SkipEntry(path, NonUtf8Path))
    else if e.name.text in s.exclude then Skipped(SkipEntry(path, Excluded))
    else
      match (e.node, VmPath(s.mountPoint, path))
      case (Other, _) => Skipped(SkipEntry(path, NotRegularFile))
      case (Faulty, _) => Unread(path)
      case (_, None) => Skipped(SkipEntry(path, NonUtf8Path))
      case (Dir(_), Some(vm)) => Made(path, vm)
      case (File(size), Some(vm)) =>
        if size > s.maxFileSize then Skipped(SkipEntry(path, TooLarge(size)))
        else Planned(MountFile(path, vm, size))
  }

  // ---------- the walk ----------

  /** What the walk does with each entry it comes to, in order; it goes into the
      directories it makes.  The first entry that cannot be read ends it with an error. */
  function Walked(entries: seq<Entry>, at: HostPath, s: Settings): seq<Placement>
    decreases entries
  {
    if entries == [] then [] else WalkedOne(entries[0], at, s) + Walked(entries[1..], at, s)
  }

  function WalkedOne(e: Entry, at: HostPath, s: Settings): seq<Placement>
    decreases e
  {
    [Place(e, at, s)]
    + (if e.node.Dir? && Place(e, at, s).Made? then Walked(e.node.entries, at + [e.name], s) else [])
  }

  predicate AllRead(ps: seq<Placement>) { forall p :: p in ps ==> !p.Unread? }

  function FilesOf(ps: seq<Placement>): seq<MountFile> {
    if ps == [] then [] else (if ps[0].Planned? then [ps[0].file] else []) + FilesOf(ps[1..])
  }

  function SkipsOf(ps: seq<Placement>): seq<SkipEntry> {
    if ps == [] then [] else (if ps[0].Skipped? then [ps[0].skip] else []) + SkipsOf(ps[1..])
  }

  function DirectoriesOf(ps: seq<Placement>): set<string> { set p | p in ps && p.Made? :: p.directory }

  lemma {:induction false} FilesConcat(a: seq<Placement>, b: seq<Placement>)
    ensures FilesOf(a + b) == FilesOf(a) + FilesOf(b)
  {
    if a == [] {
      assert a + b == b;
    } else {
      FilesConcat(a[1..], b);
      assert (a + b)[1..] == a[1..] + b;
      Associate(if a[0].Planned? then [a[0].file] else [], FilesOf(a[1..]), FilesOf(b));
    }
  }

  lemma {:induction false} SkipsConcat(a: seq<Placement>, b: seq<Placement>)
    ensures SkipsOf(a + b) == SkipsOf(a) + SkipsOf(b)
  {
    if a == [] {
      assert a + b == b;
    } else {
      SkipsConcat(a[1..], b);
      assert (a + b)[1..] == a[1..] + b;
      Associate(if a[0].Skipped? then [a[0].skip] else [], SkipsOf(a[1..]), SkipsOf(b));
    }
  }

  lemma {:induction false} WalkedStep(entries: seq<Entry>, k: nat, at: HostPath, s: Settings)
    requires k < |entries|
    ensures Walked(entries[..k + 1], at, s) == Walked(entries[..k], at, s) + WalkedOne(entries[k], at, s)
    decreases k
  {
    var first := WalkedOne(entries[0], at, s);
    assert entries[..k + 1][1..] == entries[1..][..k];
    if k == 0 {
      assert Walked(entries[..1], at, s) == first + [];
    } else {
      assert entries[..k][1..] == entries[1..][..k - 1];
      WalkedStep(entries[1..], k - 1, at, s);
    }
  }

  lemma {:induction false} WalkedPrefix(entries: seq<Entry>, k: nat, at: HostPath, s: Settings)
    requires k <= |entries|
    ensures AllRead(Walked(entries, at, s)) ==> AllRead(Walked(entries[..k], at, s))
    decreases |entries| - k
  {
    if k == |entries| {
      assert entries[..k] == entries;
    } else {
      WalkedPrefix(entries, k + 1, at, s);
      WalkedStep(entries, k, at, s);
    }
  }

  datatype MountPlan = MountPlan(directories: set<string>, files: seq<MountFile>, skipped: seq<SkipEntry>)

  /** A plan with some more placements. */
  function Extended(plan: MountPlan, ps: seq<Placement>): MountPlan {
    MountPlan(plan.directories + DirectoriesOf(ps), plan.files + FilesOf(ps), plan.skipped + SkipsOf(ps))
  }

  lemma {:induction false} ExtendedTwice(plan: MountPlan, a: seq<Placement>, b: seq<Placement>)
    ensures Extended(Extended(plan, a), b) == Extended(plan, a + b)
  {
    FilesConcat(a, b);
    SkipsConcat(a, b);
  }

  lemma {:induction false} ExtendedByOne(plan: MountPlan, p: Placement)
    ensures Extended(plan, [p]) == match p
      case Made(_, d) => plan.(directories := plan.directories + {d})
      case Planned(f) => plan.(files := plan.files + [f])
      case Skipped(k) => plan.(skipped := plan.skipped + [k])
      case Unread(_) => plan
  {
    assert [p][1..] == [];
    assert plan.files + [] == plan.files && plan.skipped + [] == plan.skipped;
    assert DirectoriesOf([p]) == match p case Made(_, d) => {d} case _ => {};
    assert plan.directories + {} == plan.directories;
    assert FilesOf([p]) == if p.Planned? then [p.file] else [];
    assert SkipsOf([p]) == if p.Skipped? then [p.skip] else [];
  }

  lemma {:induction false} ExtendedEmpty(ps: seq<Placement>)
    ensures Extended(MountPlan({}, [], []), ps) == MountPlan(DirectoriesOf(ps), FilesOf(ps), SkipsOf(ps))
  {
  }

  /** The plan while the walk fills it, and the directories seen. */
  class Planner {
    var files: seq<MountFile>
    var skipped: seq<SkipEntry>
    var dirsSeen: set<string>

    function Contents(): MountPlan
      reads this
    {
      MountPlan(dirsSeen, files, skipped)
    }

    constructor ()
      ensures Contents() == MountPlan({}, [], [])
    {
      files, skipped, dirsSeen := [], [], {};
    }

    method Walk(entries: seq<Entry>, at: HostPath, s: Settings) returns (ok: bool)
      modifies this
      ensures ok <==> AllRead(Walked(entries, at, s))
      ensures ok ==> Contents() == Extended(old(Contents()), Walked(entries, at, s))
      decreases entries
    {
      for k := 0 to |entries|
        invariant AllRead(Walked(entries[..k], at, s))
        invariant Contents() == Extended(old(Contents()), Walked(entries[..k], at, s))
      {
        WalkedStep(entries, k, at, s);
        ExtendedTwice(old(Contents()), Walked(entries[..k], at, s), WalkedOne(entries[k], at, s));
        ok := WalkEntry(entries[k], at, s);
        if !ok {
          WalkedPrefix(entries, k + 1, at, s);
          return;
        }
      }
      assert entries[..|entries|] == entries;
      ok := true;
    }

    /** One turn of the loop. */
    method WalkEntry(e: Entry, at: HostPath, s: Settings) returns (ok: bool)
      modifies this
      ensures ok <==> AllRead(WalkedOne(e, at, s))
      ensures ok ==> Contents() == Extended(old(Contents()), WalkedOne(e, at, s))
      decreases e
    {
      var path := at + [e.name];
      ExtendedByOne(Contents(), Place(e, at, s));
      assert !Place(e, at, s).Made? ==> WalkedOne(e, at, s) == [Place(e, at, s)];
      if e.name.NonUtf8? {
        skipped := skipped + [SkipEntry(path, NonUtf8Path)];
        return true;
      }
      if e.name.text in s.exclude {
        skipped := skipped + [SkipEntry(path, Excluded)];
        return true;
      }
      if e.node.Faulty? {
        return false;
      }
      if e.node.Other? {
        skipped := skipped + [SkipEntry(path, NotRegularFile)];
        return true;
      }
      var vmPath := VmPath(s.mountPoint, path);
      if vmPath.None? {
        skipped := skipped + [SkipEntry(path, NonUtf8Path)];
        return true;
      }
      if e.node.Dir? {
        ExtendedTwice(Contents(), [Place(e, at, s)], Walked(e.node.entries, path, s));
        dirsSeen := dirsSeen + {vmPath.value};
        ok := Walk(e.node.entries, path, s);
        return;
      }
      if e.node.size > s.maxFileSize {
        skipped := skipped + [SkipEntry(path, TooLarge(e.node.size))];
        return true;
      }
      files := files + [MountFile(path, vmPath.value, e.node.size)];
      return true;
    }
  }

  /** The plan for a host root, files and skips in the order of the walk. */
  function PlanOf(entries: seq<Entry>, s: Settings): MountPlan {
    var ps := Walked(entries, [], s);
    MountPlan(DirectoriesOf(ps), FilesOf(ps), SkipsOf(ps))
  }

  function VmPathOf(f: MountFile): string { f.vmPath }

  function HostPathOf(k: SkipEntry): HostPath { k.hostPath }

  /** The plan that is handed out, every list in order. */
  datatype SortedPlan = SortedPlan(directories: seq<string>, files: seq<MountFile>, skipped: seq<SkipEntry>)

  ghost predicate IsSortedPlan(
      sorted: SortedPlan, plan: MountPlan, textLess: (string, string) -> bool, pathLess: (HostPath, HostPath) -> bool)
  {
    && Elements(sorted.directories) == plan.directories && Sorted(sorted.directories, textLess)
    && sorted.files == SortBy(plan.files, VmPathOf, textLess)
    && sorted.skipped == SortBy(plan.skipped, HostPathOf, pathLess)
  }

  /** `collect_mount_plan`, with the orders of texts and of host paths. */
  method CollectMountPlan(hostRoot: Option<Node>, opts: MountOptions,
                          textLess: (string, string) -> bool, pathLess: (HostPath, HostPath) -> bool)
    returns (r: Result<SortedPlan, MountError>)
    requires StrictOrder(textLess) && StrictOrder(pathLess)
    ensures match NormalizedMountPoint(opts)
      case Err(e) => r == Err(e)
      case Ok(mountPoint) =>
        if hostRoot.None? then r == Err(MissingRoot)
        else if !hostRoot.value.Dir? then r == Err(RootNotDirectory)
        else
          var entries, s := hostRoot.value.entries, Settings(mountPoint, opts.exclude, opts.maxFileSize);
          if AllRead(Walked(entries, [], s)) then
            r.Ok? && IsSortedPlan(r.value, PlanOf(entries, s), textLess, pathLess)
          else r == Err(ReadFailed)
  {
    var mountPoint := NormalizedMountPoint(opts);
    if mountPoint.Err? {
      return Err(mountPoint.error);
    }
    if hostRoot.None? {
      return Err(MissingRoot);
    }
    if !hostRoot.value.Dir? {
      return Err(RootNotDirectory);
    }
    var s := Settings(mountPoint.value, opts.exclude, opts.maxFileSize);
    ExtendedEmpty(Walked(hostRoot.value.entries, [], s));
    var planner := new Planner();
    var ok := planner.Walk(hostRoot.value.entries, [], s);
    if !ok {
      return Err(ReadFailed);
    }
    var directories := Ascending(planner.dirsSeen, textLess);
    return Ok(SortedPlan(directories, SortBy(planner.files, VmPathOf, textLess),
                         SortBy(planner.skipped, HostPathOf, pathLess)));
  }

  // ---------- batches ----------

  function Flatten<T>(batches: seq<seq<T>>): seq<T> {
    if batches == [] then [] else Flatten(batches[..|batches| - 1]) + batches[|batches| - 1]
  }

  lemma {:induction false} FlattenPush<T>(batches: seq<seq<T>>, b: seq<T>)
    ensures Flatten(batches + [b]) == Flatten(batches) + b
  {
  }

  /** The loop that packs the files; a batch size of 0 works like 1. */
  method Batches<T>(files: seq<T>, batchSize: nat) returns (batches: seq<seq<T>>)
    ensures Flatten(batches) == files
    ensures var size := if batchSize == 0 then 1 else batchSize;
      && (forall b :: b in batches ==> 1 <= |b| <= size)
      && (forall i :: 0 <= i < |batches| - 1 ==> |batches[i]| == size)
  {
    ghost var size := if batchSize == 0 then 1 else batchSize;
    var current: seq<T> := [];
    batches := [];
    for k := 0 to |files|
      invariant Flatten(batches) + current == files[..k]
      invariant |current| < size && forall i :: 0 <= i < |batches| ==> |batches[i]| == size
    {
      Associate(Flatten(batches), current, [files[k]]);
      current := current + [files[k]];
      if |current| >= batchSize {
        FlattenPush(batches, current);
        batches := batches + [current];
        current := [];
      }
    }
    assert files[..|files|] == files;
    if current != [] {
      FlattenPush(batches, current);
      batches := batches + [current];
    }
  }
}
