/** The paths that entries get in the virtual machine, and the mount points they start with.
    Over crates/cuartel-core/src/workspace_mount.rs, lines 97 to 109 and 214 to 310. */
module MountPaths {
  import opened Wrappers
  import opened Text
  import opened Mount
  import opened MountTree

  // ---------- the mount point ----------

  function Slashes(n: nat): string { seq(n, i => '/') }

  lemma {:induction false} OneMoreSlash(s: string, n: nat)
    ensures s + Slashes(n) + "/" == s + Slashes(n + 1)
  {
  }

  lemma {:induction false} TrimmedIsPrefix(s: string) returns (n: nat)
    ensures s == TrimSlashes(s) + Slashes(n)
  {
    if s != [] && s[|s| - 1] == '/' {
      n := TrimmedIsPrefix(s[..|s| - 1]);
      OneMoreSlash(TrimSlashes(s), n);
      assert s == s[..|s| - 1] + "/";
      n := n + 1;
    } else {
      n := 0;
    }
  }

  lemma {:induction false} TrimsAllSlashes(r: string, n: nat)
    requires r == [] || r[|r| - 1] != '/'
    ensures TrimSlashes(r + Slashes(n)) == r
  {
    if 0 < n {
      OneMoreSlash(r, n - 1);
      assert (r + Slashes(n))[..|r| + n - 1] == r + Slashes(n - 1);
      TrimsAllSlashes(r, n - 1);
    } else {
      assert r + Slashes(0) == r;
    }
  }

  /** A mount point starts with a slash and does not end with one. */
  predicate IsMountPoint(s: string) { s != [] && s[0] == '/' && s[|s| - 1] != '/' }

  /** What is accepted is a mount point with any number of slashes after it, which are
      dropped. */
  lemma {:induction false} MountPointExactly(opts: MountOptions, mountPoint: string)
    ensures NormalizedMountPoint(opts) == Ok(mountPoint)
        <==> IsMountPoint(mountPoint) && exists n :: opts.mountPoint == mountPoint + Slashes(n)
  {
    var n := TrimmedIsPrefix(opts.mountPoint);
    if IsMountPoint(mountPoint) && exists m :: opts.mountPoint == mountPoint + Slashes(m) {
      var m :| opts.mountPoint == mountPoint + Slashes(m);
      TrimsAllSlashes(mountPoint, m);
    }
  }

  /** A text that does not start with a slash, or holds nothing else, is refused; the root
      is refused as if it were relative. */
  lemma {:induction false} MountPointRefused(opts: MountOptions)
    ensures var s := opts.mountPoint;
      && (NormalizedMountPoint(opts).Err? <==> s == [] || s[0] != '/' || forall c :: c in s ==> c == '/')
      && (NormalizedMountPoint(opts).Err? ==> NormalizedMountPoint(opts).error == NotAbsolute(s))
  {
    var s := opts.mountPoint;
    var n := TrimmedIsPrefix(s);
    var trimmed := TrimSlashes(s);
    if trimmed == [] {
      assert s == Slashes(n);
    } else {
      assert s[0] == trimmed[0] && s[|trimmed| - 1] == trimmed[|trimmed| - 1];
      assert trimmed[|trimmed| - 1] in s;
    }
  }

  // ---------- one component after the other ----------

  lemma {:induction false} PartsPush(p: HostPath, name: Name)
    ensures Parts(p + [name]) ==
              if Parts(p).None? || name.NonUtf8? then None else Some(Parts(p).value + [name.text])
  {
    if p == [] {
      assert p + [name] == [name] && [name][1..] == [] && Parts([name][1..]) == Some([]);
      assert name.Utf8? ==> [name.text] + [] == [] + [name.text];
    } else {
      PartsPush(p[1..], name);
      assert (p + [name])[1..] == p[1..] + [name] && (p + [name])[0] == p[0];
      if Parts(p).Some? && name.Utf8? {
        var rest := Parts(p[1..]).value;
        assert [p[0].text] + (rest + [name.text]) == ([p[0].text] + rest) + [name.text];
      }
    }
  }

  lemma {:induction false} JoinPush(parts: seq<string>, t: string)
    requires parts != []
    ensures Join(parts + [t], '/') == Join(parts, '/') + ['/'] + t
  {
    assert (parts + [t])[1..] == parts[1..] + [t];
    if 1 < |parts| {
      JoinPush(parts[1..], t);
    }
  }

  lemma {:induction false} NoPartsNoPath(p: HostPath)
    ensures Parts(p).Some? ==> |Parts(p).value| == |p|
  {
    if p != [] {
      NoPartsNoPath(p[1..]);
    }
  }

  /** The host root is at the mount point; an entry is at the path of its directory, a slash
      and its own name; what has a component that is not text is nowhere. */
  lemma {:induction false} VmPathByComponent(mountPoint: string, p: HostPath, name: Name)
    ensures VmPath(mountPoint, []) == Some(mountPoint)
    ensures VmPath(mountPoint, p + [name]) ==
              if VmPath(mountPoint, p).Some? && name.Utf8?
              then Some(VmPath(mountPoint, p).value + "/" + name.text) else None
  {
    PartsPush(p, name);
    NoPartsNoPath(p);
    if Parts(p).Some? && name.Utf8? && p != [] {
      var parts, front := Parts(p).value, mountPoint + ['/'];
      JoinPush(parts, name.text);
      assert front + (Join(parts, '/') + ['/'] + name.text) == front + Join(parts, '/') + "/" + name.text;
    }
  }

  // ---------- the paths of a plan ----------

  /** The path of the entry is that of the directory it is in, which is the mount point or
      made by the plan, then a slash and its own name. */
  ghost predicate IsUnderParent(path: HostPath, vm: string, entries: seq<Entry>, s: Settings) {
    && path != [] && Last(path).Utf8?
    && exists parent: string ::
      && vm == parent + "/" + Last(path).text
      && if |path| == 1 then parent == s.mountPoint else Made(Init(path), parent) in Walked(entries, [], s)
  }

  lemma {:induction false} FoundUnderParent(entries: seq<Entry>, s: Settings, path: HostPath, vm: string)
    requires WellNamed(entries) && path != [] && Open(path, s) && Find(entries, path).Some?
    requires VmPath(s.mountPoint, path) == Some(vm)
    ensures IsUnderParent(path, vm, entries, s)
  {
    var q := Init(path);
    assert path == q + [Last(path)];
    VmPathByComponent(s.mountPoint, q, Last(path));
    if 1 < |path| {
      FindAbove(entries, path, |q|);
      PlannedDirectories(entries, s, q, VmPath(s.mountPoint, q).value);
    } else {
      assert q == [];
    }
  }

  /** So it is with every file and every directory of a plan. */
  lemma {:induction false} PlannedUnderParent(entries: seq<Entry>, s: Settings)
    requires WellNamed(entries)
    ensures forall f :: f in PlanOf(entries, s).files ==> IsUnderParent(f.hostPath, f.vmPath, entries, s)
    ensures forall path, vm :: Made(path, vm) in Walked(entries, [], s) ==> IsUnderParent(path, vm, entries, s)
  {
    forall f | f in PlanOf(entries, s).files
      ensures IsUnderParent(f.hostPath, f.vmPath, entries, s)
    {
      PlannedFiles(entries, s, f);
      FoundUnderParent(entries, s, f.hostPath, f.vmPath);
    }
    forall path, vm | Made(path, vm) in Walked(entries, [], s)
      ensures IsUnderParent(path, vm, entries, s)
    {
      PlannedDirectories(entries, s, path, vm);
      FoundUnderParent(entries, s, path, vm);
    }
  }
}
