/** When `copyDir` mirrors a whole tree: the walk is a pre-order listing of
    the source tree, and the destination side has room for every entry. */
module Mirror {
  import opened Paths
  import opened RemoteFs
  import opened Copy

  /** The walk lists the tree rooted at `source` in pre-order: the root
      directory first, only paths under the root, no path twice, and the
      parent of every later entry listed, as a directory, before it. */
  ghost predicate PreOrder(source: Path, walk: seq<WalkEntry>) {
    && |walk| > 0
    && walk[0].path == source && walk[0].isDir
    && (forall i :: 0 <= i < |walk| ==> Under(source, walk[i].path))
    && (forall i, j :: 0 <= i < j < |walk| ==> walk[i].path != walk[j].path)
    && (forall j :: 0 < j < |walk| ==>
          exists i :: 0 <= i < j && walk[i].isDir && walk[i].path == Parent(walk[j].path))
  }

  /** Every walked entry exists in `fs` with the kind the walk reports, is
      reachable, and, if it is a file, readable. */
  ghost predicate Listed(fs: Fs, walk: seq<WalkEntry>) {
    forall i :: 0 <= i < |walk| ==>
      && walk[i].path in fs.nodes
      && walk[i].path !in fs.faults
      && fs.nodes[walk[i].path].Dir? == walk[i].isDir
      && (!walk[i].isDir ==> walk[i].path !in fs.unreadable)
  }

  /** The destination root hangs off an existing directory, lies outside
      the source tree (a walk listing directories lazily would otherwise
      meet the copy's own output), and nothing exists or fails at any
      rebased path of the walk. */
  ghost predicate RoomFor(fs: Fs, source: Path, dest: Path, walk: seq<WalkEntry>) {
    && dest != []
    && !Under(source, dest)
    && IsDirAt(fs, Parent(dest))
    && (forall i :: 0 <= i < |walk| ==>
          Rebase(source, dest, walk[i].path) !in fs.nodes
          && Rebase(source, dest, walk[i].path) !in fs.faults)
  }

  /** The state of the copy after the first `k` entries went through. */
  ghost predicate CopiedUpTo(fs0: Fs, cur: Fs, source: Path, dest: Path, walk: seq<WalkEntry>, k: nat)
    requires k <= |walk|
  {
    && cur.faults == fs0.faults
    && cur.unreadable == fs0.unreadable
    && (forall p :: p in fs0.nodes ==> p in cur.nodes && cur.nodes[p] == fs0.nodes[p])
    && (forall p :: p in cur.nodes ==>
          p in fs0.nodes || exists i :: 0 <= i < k && p == Rebase(source, dest, walk[i].path))
    && (forall i :: 0 <= i < k && walk[i].isDir ==> IsDirAt(cur, Rebase(source, dest, walk[i].path)))
  }

  /** The rebased path of entry `k` is free in the state reached after the
      entries before it. */
  lemma TargetFree(fs0: Fs, cur: Fs, source: Path, dest: Path, walk: seq<WalkEntry>, k: nat)
    requires k < |walk|
    requires PreOrder(source, walk) && RoomFor(fs0, source, dest, walk)
    requires CopiedUpTo(fs0, cur, source, dest, walk, k)
    ensures Rebase(source, dest, walk[k].path) !in cur.nodes
  {
    var t := Rebase(source, dest, walk[k].path);
    if t in cur.nodes {
      assert t !in fs0.nodes;
      var i :| 0 <= i < k && t == Rebase(source, dest, walk[i].path);
      RebaseInjective(source, dest, walk[i].path, walk[k].path);
      assert false;
    }
  }

  /** The rebased path of entry `k` has an existing directory as its parent
      in the state reached after the entries before it. */
  lemma ParentReady(fs0: Fs, cur: Fs, source: Path, dest: Path, walk: seq<WalkEntry>, k: nat)
    requires k < |walk|
    requires PreOrder(source, walk) && RoomFor(fs0, source, dest, walk)
    requires CopiedUpTo(fs0, cur, source, dest, walk, k)
    ensures Rebase(source, dest, walk[k].path) != []
    ensures IsDirAt(cur, Parent(Rebase(source, dest, walk[k].path)))
  {
    var p := walk[k].path;
    RebaseUnder(source, dest, p);
    if k == 0 {
      assert Rebase(source, dest, p) == dest;
    } else {
      var i :| 0 <= i < k && walk[i].isDir && walk[i].path == Parent(p);
      assert walk[0].path != p;
      RebaseParent(source, dest, p);
    }
  }

  /** Entry `k` goes through from the state reached after the entries
      before it, and the state it leaves is the one reached after `k + 1`. */
  lemma MirrorStep(fs0: Fs, cur: Fs, source: Path, dest: Path, walk: seq<WalkEntry>, k: nat)
    requires k < |walk|
    requires PreOrder(source, walk) && Listed(fs0, walk) && RoomFor(fs0, source, dest, walk)
    requires CopiedUpTo(fs0, cur, source, dest, walk, k)
    ensures CopyEntry(cur, source, dest, walk[k]).err.None?
    ensures CopiedUpTo(fs0, CopyEntry(cur, source, dest, walk[k]).fs, source, dest, walk, k + 1)
  {
    var e := walk[k];
    var t := Rebase(source, dest, e.path);
    TargetFree(fs0, cur, source, dest, walk, k);
    ParentReady(fs0, cur, source, dest, walk, k);
    assert Creatable(cur, t);
    assert e.path in fs0.nodes && cur.nodes[e.path] == fs0.nodes[e.path];
    var step := CopyEntry(cur, source, dest, e);
    assert step.err.None?;
    var n := if e.isDir then Dir(DirMode) else cur.nodes[e.path];
    StepKeepsCopied(fs0, cur, step.fs, source, dest, walk, k, n);
  }

  /** Setting the rebased path of entry `k` (to a directory when the entry
      is one) extends the state reached after `k` entries to `k + 1`. */
  lemma StepKeepsCopied(fs0: Fs, cur: Fs, next: Fs, source: Path, dest: Path, walk: seq<WalkEntry>, k: nat, n: Node)
    requires k < |walk|
    requires CopiedUpTo(fs0, cur, source, dest, walk, k)
    requires Rebase(source, dest, walk[k].path) !in cur.nodes
    requires next.faults == cur.faults && next.unreadable == cur.unreadable
    requires next.nodes == cur.nodes[Rebase(source, dest, walk[k].path) := n]
    requires walk[k].isDir ==> n.Dir?
    ensures CopiedUpTo(fs0, next, source, dest, walk, k + 1)
  {
    var t := Rebase(source, dest, walk[k].path);
    forall p | p in fs0.nodes
      ensures p in next.nodes && next.nodes[p] == fs0.nodes[p]
    {
      assert p in cur.nodes;
    }
    forall i | 0 <= i < k + 1 && walk[i].isDir
      ensures IsDirAt(next, Rebase(source, dest, walk[i].path))
    {
      if i < k {
        assert IsDirAt(cur, Rebase(source, dest, walk[i].path));
      }
    }
    forall p | p in next.nodes
      ensures p in fs0.nodes || exists i :: 0 <= i < k + 1 && p == Rebase(source, dest, walk[i].path)
    {
      if p == t {
        assert 0 <= k < k + 1 && p == Rebase(source, dest, walk[k].path);
      } else if p !in fs0.nodes {
        assert p in cur.nodes;
        var i :| 0 <= i < k && p == Rebase(source, dest, walk[i].path);
        assert 0 <= i < k + 1;
      }
    }
  }

  /** Continuing from any state reached after `k` entries, the rest of the
      walk goes through without an error. */
  lemma {:induction false} MirrorFrom(fs0: Fs, cur: Fs, source: Path, dest: Path, walk: seq<WalkEntry>, k: nat)
    requires k <= |walk|
    requires PreOrder(source, walk) && Listed(fs0, walk) && RoomFor(fs0, source, dest, walk)
    requires CopiedUpTo(fs0, cur, source, dest, walk, k)
    ensures CopyDir(cur, source, dest, walk[k..]).err.None?
    decreases |walk| - k
  {
    if k == |walk| {
      SuffixEnd(walk, k);
    } else {
      MirrorStep(fs0, cur, source, dest, walk, k);
      var next := CopyEntry(cur, source, dest, walk[k]).fs;
      MirrorFrom(fs0, next, source, dest, walk, k + 1);
      ContinueCopy(cur, source, dest, walk, k);
    }
  }

  /** Mirroring a pre-order walk into a destination with room for it
      succeeds and reproduces every walked entry: a 0755 directory for every
      walked directory and a byte-for-byte copy of every walked file, at its
      rebased path, with nothing else created and nothing existing changed. */
  lemma MirrorTree(fs: Fs, source: Path, dest: Path, walk: seq<WalkEntry>)
    requires PreOrder(source, walk) && Listed(fs, walk) && RoomFor(fs, source, dest, walk)
    ensures var r := CopyDir(fs, source, dest, walk);
            && r.err.None? && r.done == |walk|
            && Preserves(fs, r.fs, Targets(source, dest, walk))
            && (forall i :: 0 <= i < |walk| ==> Rebase(source, dest, walk[i].path) in r.fs.nodes)
            && (forall i :: 0 <= i < |walk| && walk[i].isDir ==>
                  r.fs.nodes[Rebase(source, dest, walk[i].path)] == Dir(DirMode))
            && (forall i :: 0 <= i < |walk| && !walk[i].isDir && walk[i].path in fs.nodes ==>
                  r.fs.nodes[Rebase(source, dest, walk[i].path)] == fs.nodes[walk[i].path])
  {
    MirrorSucceeds(fs, source, dest, walk);
    CopyDirMirrors(fs, source, dest, walk);
  }

  /** The success half of `MirrorTree`. */
  lemma MirrorSucceeds(fs: Fs, source: Path, dest: Path, walk: seq<WalkEntry>)
    requires PreOrder(source, walk) && Listed(fs, walk) && RoomFor(fs, source, dest, walk)
    ensures CopyDir(fs, source, dest, walk).err.None?
  {
    assert CopiedUpTo(fs, fs, source, dest, walk, 0);
    MirrorFrom(fs, fs, source, dest, walk, 0);
    WholeSuffix(walk);
  }

  /** A tree copy of `walk[k..]` goes through when entry `k` does and the
      rest of the walk goes through from the state it leaves. */
  lemma ContinueCopy(fs: Fs, source: Path, dest: Path, walk: seq<WalkEntry>, k: nat)
    requires k < |walk|
    requires CopyEntry(fs, source, dest, walk[k]).err.None?
    requires CopyDir(CopyEntry(fs, source, dest, walk[k]).fs, source, dest, walk[k + 1..]).err.None?
    ensures CopyDir(fs, source, dest, walk[k..]).err.None?
  {
    SuffixStep(walk, k);
  }

  lemma SuffixStep<T>(s: seq<T>, k: nat)
    requires k < |s|
    ensures s[k..] != [] && s[k..][0] == s[k] && s[k..][1..] == s[k + 1..]
  {
  }

  lemma WholeSuffix<T>(s: seq<T>)
    ensures s[0..] == s
  {
  }

  lemma SuffixEnd<T>(s: seq<T>, k: nat)
    requires k == |s|
    ensures s[k..] == []
  {
  }
}
