/** What a mount plan says of every entry below the host root.
    Over crates/cuartel-core/src/workspace_mount.rs, lines 203 to 310. */
module MountTree {
  import opened Wrappers
  import opened Sorting
  import opened Text
  import opened Mount

  // ---------- the tree, without the walk ----------

  /** Names in a directory differ; those that are text are not empty and have no slash. */
  ghost predicate WellNamed(entries: seq<Entry>)
    decreases entries
  {
    && (forall i, j :: 0 <= i < j < |entries| ==> entries[i].name != entries[j].name)
    && (forall i :: 0 <= i < |entries| ==> WellNamedEntry(entries[i]))
  }

  ghost predicate WellNamedEntry(e: Entry)
    decreases e
  {
    && (e.name.Utf8? ==> e.name.text != [] && '/' !in e.name.text)
    && (e.node.Dir? ==> WellNamed(e.node.entries))
  }

  /** What stands at a path. */
  function Find(entries: seq<Entry>, q: HostPath): Option<Node>
    decreases |q|, entries
  {
    if entries == [] || q == [] then None
    else if entries[0].name != q[0] then Find(entries[1..], q)
    else if |q| == 1 then Some(entries[0].node)
    else if entries[0].node.Dir? then Find(entries[0].node.entries, q[1..])
    else None
  }

  /** Every component is text and not excluded. */
  predicate Open(q: HostPath, s: Settings) {
    forall k :: 0 <= k < |q| ==> q[k].Utf8? && q[k].text !in s.exclude
  }

  function Init(q: HostPath): HostPath
    requires q != []
  {
    q[..|q| - 1]
  }

  function Last(q: HostPath): Name
    requires q != []
  {
    q[|q| - 1]
  }

  /** The entries that the walk should come to: those in no excluded directory. */
  predicate Comes(entries: seq<Entry>, q: HostPath, s: Settings) {
    q != [] && Find(entries, q).Some? && Open(Init(q), s)
  }

  /** Where the entry at a path should be put. */
  function PlaceAt(entries: seq<Entry>, at: HostPath, q: HostPath, s: Settings): Placement
    requires Comes(entries, q, s)
  {
    Place(Entry(Last(q), Find(entries, q).value), at + Init(q), s)
  }

  // ---------- the walk comes to exactly these ----------

  lemma {:induction false} OpenParts(p: HostPath, s: Settings)
    requires Open(p, s)
    ensures Parts(p).Some? && |Parts(p).value| == |p|
    ensures forall k :: 0 <= k < |p| ==> Parts(p).value[k] == p[k].text
  {
    if p != [] {
      OpenParts(p[1..], s);
    }
  }

  lemma {:induction false} OpenPush(p: HostPath, name: Name, s: Settings)
    requires Open(p, s) && name.Utf8? && name.text !in s.exclude
    ensures Open(p + [name], s) && VmPath(s.mountPoint, p + [name]).Some?
  {
    OpenParts(p + [name], s);
  }

  lemma {:induction false} FirstName(entries: seq<Entry>, q: HostPath)
    requires Find(entries, q).Some?
    ensures q != [] && exists i :: 0 <= i < |entries| && entries[i].name == q[0]
    decreases |entries|
  {
    if entries[0].name != q[0] {
      FirstName(entries[1..], q);
      var i :| 0 <= i < |entries[1..]| && entries[1..][i].name == q[0];
      assert entries[i + 1].name == q[0];
    }
  }

  /** The walk puts every such entry where it should be put. */
  lemma {:induction false} WalkComes(entries: seq<Entry>, at: HostPath, q: HostPath, s: Settings)
    requires Comes(entries, q, s) && Open(at, s)
    ensures PlaceAt(entries, at, q, s) in Walked(entries, at, s)
    decreases |q|, entries
  {
    var e := entries[0];
    if e.name != q[0] {
      WalkComes(entries[1..], at, q, s);
    } else if |q| == 1 {
      assert at + Init(q) == at;
    } else {
      assert Init(q)[0] == q[0] && Init(q[1..]) == Init(q)[1..];
      OpenPush(at, q[0], s);
      WalkComes(e.node.entries, at + [q[0]], q[1..], s);
      assert at + [q[0]] + Init(q[1..]) == at + Init(q);
    }
  }

  function PathOf(p: Placement): HostPath {
    match p
    case Made(path, _) => path
    case Planned(f) => f.hostPath
    case Skipped(k) => k.hostPath
    case Unread(path) => path
  }

  /** A placement of the walk is that of the entry at a path `q` below `at`. */
  ghost predicate IsPlacement(p: Placement, entries: seq<Entry>, at: HostPath, q: HostPath, s: Settings) {
    Comes(entries, q, s) && p == PlaceAt(entries, at, q, s) && PathOf(p) == at + q
  }

  lemma {:induction false} PlacePath(e: Entry, at: HostPath, s: Settings)
    ensures PathOf(Place(e, at, s)) == at + [e.name]
  {
  }

  lemma {:induction false} RestOfWellNamed(entries: seq<Entry>)
    requires WellNamed(entries) && entries != []
    ensures WellNamed(entries[1..]) && WellNamedEntry(entries[0])
  {
  }

  lemma {:induction false} PathBelow(at: HostPath, name: Name, q: HostPath)
    requires q != []
    ensures at + [name] + Init(q) == at + Init([name] + q) && Last([name] + q) == Last(q)
    ensures at + [name] + q == at + ([name] + q)
  {
    assert Init([name] + q) == [name] + Init(q);
  }

  lemma {:induction false} PlacedBelow(
      p: Placement, entries: seq<Entry>, at: HostPath, q: HostPath, s: Settings)
    requires entries != [] && entries[0].node.Dir?
    requires entries[0].name.Utf8? && entries[0].name.text !in s.exclude
    requires IsPlacement(p, entries[0].node.entries, at + [entries[0].name], q, s)
    ensures IsPlacement(p, entries, at, [entries[0].name] + q, s)
  {
    var all := [entries[0].name] + q;
    assert all[1..] == q;
    PathBelow(at, entries[0].name, q);
  }

  lemma {:induction false} PlacedLater(
      p: Placement, entries: seq<Entry>, at: HostPath, q: HostPath, s: Settings)
    requires WellNamed(entries) && entries != [] && IsPlacement(p, entries[1..], at, q, s)
    ensures IsPlacement(p, entries, at, q, s)
  {
    FirstName(entries[1..], q);
    var i :| 0 <= i < |entries[1..]| && entries[1..][i].name == q[0];
    assert entries[0].name != entries[i + 1].name;
  }

  /** The walk puts nothing else anywhere. */
  lemma {:induction false} WalkOnly(entries: seq<Entry>, at: HostPath, s: Settings, p: Placement) returns (q: HostPath)
    requires WellNamed(entries) && Open(at, s) && p in Walked(entries, at, s)
    ensures IsPlacement(p, entries, at, q, s)
    decreases entries
  {
    var e := entries[0];
    RestOfWellNamed(entries);
    if p in Walked(entries[1..], at, s) {
      q := WalkOnly(entries[1..], at, s, p);
      PlacedLater(p, entries, at, q, s);
    } else if p == Place(e, at, s) {
      q := [e.name];
      assert Init(q) == [] && at + Init(q) == at;
      PlacePath(e, at, s);
    } else {
      var below := WalkOnlyBelow(e, at, s, p);
      PlacedBelow(p, entries, at, below, s);
      q := [e.name] + below;
    }
  }

  lemma {:induction false} WalkOnlyBelow(e: Entry, at: HostPath, s: Settings, p: Placement) returns (q: HostPath)
    requires WellNamedEntry(e) && Open(at, s) && p in WalkedOne(e, at, s) && p != Place(e, at, s)
    ensures e.node.Dir? && e.name.Utf8? && e.name.text !in s.exclude
    ensures IsPlacement(p, e.node.entries, at + [e.name], q, s)
    decreases e
  {
    OpenPush(at, e.name, s);
    q := WalkOnly(e.node.entries, at + [e.name], s, p);
  }

  // ---------- each entry once ----------

  ghost predicate Distinct(ps: seq<Placement>) {
    forall i, j :: 0 <= i < j < |ps| ==> PathOf(ps[i]) != PathOf(ps[j])
  }

  ghost predicate Apart(a: seq<Placement>, b: seq<Placement>) {
    forall x, y :: x in a && y in b ==> PathOf(x) != PathOf(y)
  }

  lemma {:induction false} DistinctConcat(a: seq<Placement>, b: seq<Placement>)
    requires Distinct(a) && Distinct(b) && Apart(a, b)
    ensures Distinct(a + b)
  {
  }

  /** Paths of one entry's placements start with its name. */
  lemma {:induction false} StartsWithName(e: Entry, at: HostPath, s: Settings, p: Placement)
    requires WellNamedEntry(e) && Open(at, s) && p in WalkedOne(e, at, s)
    ensures |at| < |PathOf(p)| && PathOf(p)[|at|] == e.name
    ensures p != Place(e, at, s) ==> |at| + 1 < |PathOf(p)|
  {
    PlacePath(e, at, s);
    if p != Place(e, at, s) {
      OpenPush(at, e.name, s);
      var q := WalkOnly(e.node.entries, at + [e.name], s, p);
    }
  }

  lemma {:induction false} OneApartFromRest(entries: seq<Entry>, at: HostPath, s: Settings)
    requires WellNamed(entries) && entries != [] && Open(at, s)
    ensures Apart(WalkedOne(entries[0], at, s), Walked(entries[1..], at, s))
  {
    RestOfWellNamed(entries);
    forall x, y | x in WalkedOne(entries[0], at, s) && y in Walked(entries[1..], at, s)
      ensures PathOf(x) != PathOf(y)
    {
      StartsWithName(entries[0], at, s, x);
      var q := WalkOnly(entries[1..], at, s, y);
      FirstName(entries[1..], q);
      var i :| 0 <= i < |entries[1..]| && entries[1..][i].name == q[0];
      assert entries[0].name != entries[i + 1].name;
      assert PathOf(y)[|at|] == q[0];
    }
  }

  lemma {:induction false} WalkedOnce(entries: seq<Entry>, at: HostPath, s: Settings)
    requires WellNamed(entries) && Open(at, s)
    ensures Distinct(Walked(entries, at, s))
    decreases entries
  {
    if entries != [] {
      var e := entries[0];
      RestOfWellNamed(entries);
      WalkedOnce(entries[1..], at, s);
      OneWalkedOnce(e, at, s);
      OneApartFromRest(entries, at, s);
      DistinctConcat(WalkedOne(e, at, s), Walked(entries[1..], at, s));
    }
  }

  lemma {:induction false} OneWalkedOnce(e: Entry, at: HostPath, s: Settings)
    requires WellNamedEntry(e) && Open(at, s)
    ensures Distinct(WalkedOne(e, at, s))
    decreases e
  {
    if e.node.Dir? && Place(e, at, s).Made? {
      var below := Walked(e.node.entries, at + [e.name], s);
      OpenPush(at, e.name, s);
      WalkedOnce(e.node.entries, at + [e.name], s);
      PlacePath(e, at, s);
      forall y | y in below
        ensures PathOf(y) != at + [e.name]
      {
        var q := WalkOnly(e.node.entries, at + [e.name], s, y);
      }
      DistinctConcat([Place(e, at, s)], below);
    }
  }

  // ---------- paths in the virtual machine ----------

  ghost predicate GoodPath(q: HostPath) {
    forall k :: 0 <= k < |q| && q[k].Utf8? ==> q[k].text != [] && '/' !in q[k].text
  }

  lemma {:induction false} FoundIsGood(entries: seq<Entry>, q: HostPath)
    requires WellNamed(entries) && Find(entries, q).Some?
    ensures GoodPath(q)
    decreases |q|, entries
  {
    RestOfWellNamed(entries);
    if entries[0].name != q[0] {
      FoundIsGood(entries[1..], q);
    } else if 1 < |q| {
      FoundIsGood(entries[0].node.entries, q[1..]);
      assert forall k :: 1 <= k < |q| ==> q[k] == q[1..][k - 1];
    }
  }

  /** Different paths below the root never share a path in the virtual machine. */
  lemma {:induction false} VmPathInjective(mountPoint: string, p: HostPath, q: HostPath, s: Settings)
    requires Open(p, s) && Open(q, s) && GoodPath(p) && GoodPath(q)
    requires VmPath(mountPoint, p) == VmPath(mountPoint, q)
    ensures p == q
  {
    OpenParts(p, s);
    OpenParts(q, s);
    var a, b := Parts(p).value, Parts(q).value;
    var x, y := VmPath(mountPoint, p).value, VmPath(mountPoint, q).value;
    if p != [] && q != [] {
      assert Join(a, '/') == x[|mountPoint| + 1..] && Join(b, '/') == y[|mountPoint| + 1..];
      SplitJoined(a, '/');
      SplitJoined(b, '/');
      assert a == b;
      assert forall k :: 0 <= k < |p| ==> p[k] == Utf8(a[k]) && q[k] == Utf8(b[k]);
    }
  }

  // ---------- the plan ----------

  lemma {:induction false} FilesIn(ps: seq<Placement>, f: MountFile)
    ensures f in FilesOf(ps) <==> Planned(f) in ps
  {
    if ps != [] {
      FilesIn(ps[1..], f);
    }
  }

  lemma {:induction false} SkipsIn(ps: seq<Placement>, k: SkipEntry)
    ensures k in SkipsOf(ps) <==> Skipped(k) in ps
  {
    if ps != [] {
      SkipsIn(ps[1..], k);
    }
  }

  /** Whether a placement is one of the plan. */
  lemma {:induction false} InPlan(entries: seq<Entry>, s: Settings, p: Placement)
    requires WellNamed(entries)
    ensures p in Walked(entries, [], s)
      <==> Comes(entries, PathOf(p), s) && p == PlaceAt(entries, [], PathOf(p), s)
  {
    if p in Walked(entries, [], s) {
      var q := WalkOnly(entries, [], s, p);
      assert [] + q == q;
    }
    if Comes(entries, PathOf(p), s) {
      WalkComes(entries, [], PathOf(p), s);
    }
  }

  lemma {:induction false} OpenInitLast(q: HostPath, s: Settings)
    requires q != []
    ensures Open(q, s) <==> Open(Init(q), s) && Last(q).Utf8? && Last(q).text !in s.exclude
    ensures [] + Init(q) + [Last(q)] == q
  {
  }

  /** The files of a plan: those in no excluded directory, not excluded, not too large. */
  lemma {:induction false} PlannedFiles(entries: seq<Entry>, s: Settings, f: MountFile)
    requires WellNamed(entries)
    ensures f in PlanOf(entries, s).files <==>
      && f.hostPath != [] && Open(f.hostPath, s)
      && Find(entries, f.hostPath) == Some(File(f.size)) && f.size <= s.maxFileSize
      && VmPath(s.mountPoint, f.hostPath) == Some(f.vmPath)
  {
    FilesIn(Walked(entries, [], s), f);
    InPlan(entries, s, Planned(f));
    if f.hostPath != [] {
      OpenInitLast(f.hostPath, s);
    }
  }

  /** The directories of a plan: all that are not excluded and not in an excluded one. */
  lemma {:induction false} PlannedDirectories(entries: seq<Entry>, s: Settings, q: HostPath, d: string)
    requires WellNamed(entries)
    ensures Made(q, d) in Walked(entries, [], s) <==>
      && q != [] && Open(q, s) && Find(entries, q).Some? && Find(entries, q).value.Dir?
      && VmPath(s.mountPoint, q) == Some(d)
  {
    InPlan(entries, s, Made(q, d));
    if q != [] {
      OpenInitLast(q, s);
    }
  }

  /** What is skipped, and why: the first reason that applies. */
  function SkipReasonAt(name: Name, node: Node, s: Settings): Option<SkipReason> {
    if name.NonUtf8? then Some(NonUtf8Path)
    else if name.text in s.exclude then Some(Excluded)
    else if node.Other? then Some(NotRegularFile)
    else if node.File? && s.maxFileSize < node.size then Some(TooLarge(node.size))
    else None
  }

  lemma {:induction false} PlannedSkips(entries: seq<Entry>, s: Settings, k: SkipEntry)
    requires WellNamed(entries)
    ensures k in PlanOf(entries, s).skipped <==>
      && Comes(entries, k.hostPath, s)
      && SkipReasonAt(Last(k.hostPath), Find(entries, k.hostPath).value, s) == Some(k.reason)
  {
    SkipsIn(Walked(entries, [], s), k);
    InPlan(entries, s, Skipped(k));
    if Comes(entries, k.hostPath, s) {
      OpenInitLast(k.hostPath, s);
      if Open(k.hostPath, s) {
        OpenParts(k.hostPath, s);
      }
    }
  }

  lemma {:induction false} FindAbove(entries: seq<Entry>, q: HostPath, k: nat)
    requires Find(entries, q).Some? && 0 < k < |q|
    ensures Find(entries, q[..k]).Some? && Find(entries, q[..k]).value.Dir?
    decreases |q|, entries
  {
    if entries[0].name != q[0] {
      FindAbove(entries[1..], q, k);
    } else if 1 < k {
      FindAbove(entries[0].node.entries, q[1..], k - 1);
      assert q[..k][1..] == q[1..][..k - 1];
    }
  }

  /** Every directory above a planned file is made before the files are written. */
  lemma {:induction false} AncestorsAreMade(entries: seq<Entry>, s: Settings, f: MountFile, k: nat)
    requires WellNamed(entries) && f in PlanOf(entries, s).files && 0 < k < |f.hostPath|
    ensures VmPath(s.mountPoint, f.hostPath[..k]).Some?
    ensures VmPath(s.mountPoint, f.hostPath[..k]).value in PlanOf(entries, s).directories
  {
    var q := f.hostPath[..k];
    PlannedFiles(entries, s, f);
    FindAbove(entries, f.hostPath, k);
    assert Open(q, s);
    OpenParts(q, s);
    var d := VmPath(s.mountPoint, q).value;
    PlannedDirectories(entries, s, q, d);
    assert Made(q, d) in Walked(entries, [], s);
  }

  // ---------- each entry exactly once ----------

  predicate Landed(p: Placement) { p.Made? || p.Planned? }

  function VmOf(p: Placement): string
    requires Landed(p)
  {
    if p.Made? then p.directory else p.file.vmPath
  }

  lemma {:induction false} LandedPath(entries: seq<Entry>, s: Settings, p: Placement)
    requires WellNamed(entries) && p in Walked(entries, [], s) && Landed(p)
    ensures Open(PathOf(p), s) && GoodPath(PathOf(p)) && VmPath(s.mountPoint, PathOf(p)) == Some(VmOf(p))
  {
    InPlan(entries, s, p);
    OpenInitLast(PathOf(p), s);
    FoundIsGood(entries, PathOf(p));
  }

  /** No two files or directories of a plan share a path in the virtual machine. */
  lemma {:induction false} VmPathsDiffer(entries: seq<Entry>, s: Settings, i: nat, j: nat)
    requires WellNamed(entries) && i < j < |Walked(entries, [], s)|
    requires Landed(Walked(entries, [], s)[i]) && Landed(Walked(entries, [], s)[j])
    ensures VmOf(Walked(entries, [], s)[i]) != VmOf(Walked(entries, [], s)[j])
  {
    var ps := Walked(entries, [], s);
    WalkedOnce(entries, [], s);
    LandedPath(entries, s, ps[i]);
    LandedPath(entries, s, ps[j]);
    if VmOf(ps[i]) == VmOf(ps[j]) {
      VmPathInjective(s.mountPoint, PathOf(ps[i]), PathOf(ps[j]), s);
    }
  }

  /** No two that are planned or made share a path in the virtual machine. */
  ghost predicate LandApart(ps: seq<Placement>) {
    forall i, j :: 0 <= i < j < |ps| && Landed(ps[i]) && Landed(ps[j]) ==> VmOf(ps[i]) != VmOf(ps[j])
  }

  lemma {:induction false} RestLandApart(ps: seq<Placement>)
    requires LandApart(ps) && ps != []
    ensures LandApart(ps[1..])
  {
    forall i, j | 0 <= i < j < |ps[1..]| && Landed(ps[1..][i]) && Landed(ps[1..][j])
      ensures VmOf(ps[1..][i]) != VmOf(ps[1..][j])
    {
      assert ps[1..][i] == ps[i + 1] && ps[1..][j] == ps[j + 1];
    }
  }

  lemma {:induction false} CountPlacements(ps: seq<Placement>)
    requires LandApart(ps) && AllRead(ps)
    ensures |FilesOf(ps)| + |SkipsOf(ps)| + |DirectoriesOf(ps)| == |ps|
  {
    if ps != [] {
      var rest := ps[1..];
      RestLandApart(ps);
      assert ps[0] in ps && forall p :: p in rest ==> p in ps;
      CountPlacements(rest);
      if ps[0].Made? {
        forall j | 0 <= j < |rest| && rest[j].Made?
          ensures rest[j].directory != ps[0].directory
        {
          assert VmOf(ps[0]) != VmOf(ps[j + 1]);
        }
        assert DirectoriesOf(ps) == DirectoriesOf(rest) + {ps[0].directory};
      } else {
        assert DirectoriesOf(ps) == DirectoriesOf(rest);
      }
    }
  }

  lemma {:induction false} WalkLandsApart(entries: seq<Entry>, s: Settings)
    requires WellNamed(entries)
    ensures LandApart(Walked(entries, [], s))
  {
    var ps := Walked(entries, [], s);
    forall i, j | 0 <= i < j < |ps| && Landed(ps[i]) && Landed(ps[j])
      ensures VmOf(ps[i]) != VmOf(ps[j])
    {
      VmPathsDiffer(entries, s, i, j);
    }
  }

  /** The three lists hold as many entries as the walk comes to: none is lost and none is
      counted twice. */
  lemma {:induction false} PlanIsPartition(entries: seq<Entry>, s: Settings)
    requires WellNamed(entries) && AllRead(Walked(entries, [], s))
    ensures var plan := PlanOf(entries, s);
      |plan.files| + |plan.skipped| + |plan.directories| == |Walked(entries, [], s)|
    ensures Distinct(Walked(entries, [], s))
  {
    WalkedOnce(entries, [], s);
    WalkLandsApart(entries, s);
    CountPlacements(Walked(entries, [], s));
  }

  lemma {:induction false} UnreadAt(entries: seq<Entry>, s: Settings, q: HostPath)
    requires WellNamed(entries)
    ensures Unread(q) in Walked(entries, [], s) <==> q != [] && Open(q, s) && Find(entries, q) == Some(Faulty)
  {
    InPlan(entries, s, Unread(q));
    if q != [] {
      OpenInitLast(q, s);
    }
  }

  /** A walk succeeds if and only if nothing unreadable stands at a path without excluded
      components. */
  lemma {:induction false} WalkSucceeds(entries: seq<Entry>, s: Settings)
    requires WellNamed(entries)
    ensures AllRead(Walked(entries, [], s)) <==>
              forall q :: q != [] && Open(q, s) ==> Find(entries, q) != Some(Faulty)
  {
    var ps := Walked(entries, [], s);
    forall q
      ensures Unread(q) in ps <==> q != [] && Open(q, s) && Find(entries, q) == Some(Faulty)
    {
      UnreadAt(entries, s, q);
    }
    assert AllRead(ps) <==> forall q :: Unread(q) !in ps;
  }

  // ---------- the plan in order ----------

  lemma {:induction false} FilesDistinct(ps: seq<Placement>)
    requires LandApart(ps)
    ensures DistinctKeys(FilesOf(ps), VmPathOf)
  {
    if ps != [] {
      var files := FilesOf(ps[1..]);
      RestLandApart(ps);
      FilesDistinct(ps[1..]);
      forall k | 0 <= k < |files| && ps[0].Planned?
        ensures files[k].vmPath != ps[0].file.vmPath
      {
        FilesIn(ps[1..], files[k]);
        var j :| 0 <= j < |ps[1..]| && ps[1..][j] == Planned(files[k]);
        assert VmOf(ps[0]) != VmOf(ps[j + 1]);
      }
    }
  }

  lemma {:induction false} SkipsDistinct(ps: seq<Placement>)
    requires Distinct(ps)
    ensures DistinctKeys(SkipsOf(ps), HostPathOf)
  {
    if ps != [] {
      var skips := SkipsOf(ps[1..]);
      SkipsDistinct(ps[1..]);
      forall k | 0 <= k < |skips| && ps[0].Skipped?
        ensures skips[k].hostPath != ps[0].skip.hostPath
      {
        SkipsIn(ps[1..], skips[k]);
        var j :| 0 <= j < |ps[1..]| && ps[1..][j] == Skipped(skips[k]);
        assert PathOf(ps[0]) != PathOf(ps[j + 1]);
      }
    }
  }

  /** The lists that are handed out hold what the walk found, in strict order. */
  lemma {:induction false} PlanIsInOrder(entries: seq<Entry>, s: Settings, sorted: SortedPlan,
                                         textLess: (string, string) -> bool, pathLess: (HostPath, HostPath) -> bool)
    requires WellNamed(entries) && StrictOrder(textLess) && StrictOrder(pathLess)
    requires IsSortedPlan(sorted, PlanOf(entries, s), textLess, pathLess)
    ensures multiset(sorted.files) == multiset(PlanOf(entries, s).files)
    ensures multiset(sorted.skipped) == multiset(PlanOf(entries, s).skipped)
    ensures Sorted(Keys(sorted.files, VmPathOf), textLess) && Sorted(Keys(sorted.skipped, HostPathOf), pathLess)
  {
    var ps := Walked(entries, [], s);
    WalkedOnce(entries, [], s);
    WalkLandsApart(entries, s);
    FilesDistinct(ps);
    SkipsDistinct(ps);
    SortKeeps(FilesOf(ps), VmPathOf, textLess);
    SortKeeps(SkipsOf(ps), HostPathOf, pathLess);
    SortSorts(FilesOf(ps), VmPathOf, textLess);
    SortSorts(SkipsOf(ps), HostPathOf, pathLess);
  }
}
