/** The copy logic of `cp`: classifying a path, copying one file, mirroring a
    walked tree, and resolving the effective target of a single copy. */
module Copy {
  import opened Wrappers
  import opened Paths
  import opened RemoteFs

  /** What `checkPath` reports: whether the path exists and is a directory. */
  datatype PathStatus = PathStatus(found: bool, isDir: bool)

  /** One entry delivered by `client.Walk`: the path visited and whether it
      is a directory. */
  datatype WalkEntry = WalkEntry(path: Path, isDir: bool)

  /** The filesystem after a sequence of writes, and the error that ended
      them, if any. */
  datatype Step = Step(fs: Fs, err: Option<FsError>)

  /** The filesystem after a tree copy, how many walked entries were copied,
      and the error returned by the walk, if any. */
  datatype Walked = Walked(fs: Fs, done: nat, err: Option<FsError>)

  /** Why a single copy was refused or did not complete; `fatal` is raised
      with each of these. */
  datatype CopyError =
    | StatError(cause: FsError)
    | ConflictError(msg: string)
    | TransferError(cause: FsError)

  datatype Outcome = Outcome(fs: Fs, err: Option<CopyError>)

  const TargetFileExists: string := "Target file is exist."
  const TargetIsFile: string := "Target is a file."

  /** `checkPath`: a missing path is reported as absent, a found one with its
      kind; any other stat error is fatal and never passes for "absent". */
  function CheckPath(fs: Fs, p: Path): (r: Result<PathStatus, FsError>)
    ensures Stat(fs, p).Failure? && Stat(fs, p).error.NotFound? ==> r == Success(PathStatus(false, false))
    ensures Stat(fs, p).Success? ==> r == Success(PathStatus(true, Stat(fs, p).value.Dir?))
    ensures p in fs.faults ==> r == Failure(Fault(p))
    ensures r.Success? ==> (r.value.found <==> p in fs.nodes) && (r.value.isDir <==> IsDirAt(fs, p))
  {
    match Stat(fs, p)
    case Success(node) => Success(PathStatus(true, node.Dir?))
    case Failure(NotFound(_)) => Success(PathStatus(false, false))
    case Failure(e) => Failure(e)
  }

  /** A single-file copy from `src` to `dst` can go through: `src` is a
      reachable, readable file and `dst` can be created. */
  predicate Copyable(fs: Fs, src: Path, dst: Path) {
    src !in fs.faults && IsFileAt(fs, src) && src !in fs.unreadable && Creatable(fs, dst)
  }

  /** The part of `copyFile` after the source is open: create the
      destination, stream the bytes across and close the writer. */
  function WriteCopy(reading: Fs, src: Path, dst: Path): (r: Step)
    requires src in reading.nodes
    ensures SameEnvironment(reading, r.fs)
    ensures r.err.None? <==> Creatable(reading, dst) && IsFileAt(reading, src) && src !in reading.unreadable
    ensures r.err.None? ==> r.fs.nodes == reading.nodes[dst := reading.nodes[src]]
    ensures !Creatable(reading, dst) ==> r == Step(reading, CreateError(reading, dst))
    ensures Creatable(reading, dst) && reading.nodes[src].Dir? ==>
              r.err == Some(IsADirectory(src)) && r.fs.nodes == reading.nodes[dst := File([])]
    ensures Creatable(reading, dst) && reading.nodes[src].File? && src in reading.unreadable ==>
              r.err == Some(ReadFailed(src)) && r.fs.nodes == reading.nodes[dst := File([])]
    ensures Preserves(reading, r.fs, {dst})
  {
    match Create(reading, dst)
    case Failure(e) => Step(reading, Some(e))
    case Success(writing) =>
      assert writing.handles == reading.handles + multiset{Writer(dst)};
      assert src != dst && writing.nodes == reading.nodes[dst := File([])];
      var (copied, e) := Transfer(writing, src, dst);
      var closed := Close(copied, Writer(dst));
      assert closed.nodes == copied.nodes;
      PreservesFresh(reading, closed, dst, closed.nodes[dst]);
      Step(closed, e)
  }

  /** `copyFile`: open the source, create the destination, stream the bytes
      across; both streams are closed on every way out. */
  function CopyFile(fs: Fs, src: Path, dst: Path): (r: Step)
    ensures SameEnvironment(fs, r.fs)
    ensures Open(fs, src).Failure? ==> r == Step(fs, Some(Open(fs, src).error))
    ensures r.err.None? <==> Copyable(fs, src, dst)
    ensures r.err.None? ==> r.fs.nodes == fs.nodes[dst := fs.nodes[src]]
    ensures Open(fs, src).Success? && !Creatable(fs, dst) ==> r == Step(fs, CreateError(fs, dst))
    ensures Open(fs, src).Success? && Creatable(fs, dst) && fs.nodes[src].Dir? ==>
              r.err == Some(IsADirectory(src)) && r.fs.nodes == fs.nodes[dst := File([])]
    ensures Open(fs, src).Success? && Creatable(fs, dst) && fs.nodes[src].File? && src in fs.unreadable ==>
              r.err == Some(ReadFailed(src)) && r.fs.nodes == fs.nodes[dst := File([])]
    ensures Preserves(fs, r.fs, {dst})
  {
    match Open(fs, src)
    case Failure(e) => Step(fs, Some(e))
    case Success(reading) =>
      var written := WriteCopy(reading, src, dst);
      var closed := Close(written.fs, Reader(src));
      PreservesSameNodes(reading, written.fs, fs, closed, {dst});
      Step(closed, written.err)
  }

  /** The walk callback of `copyDir` for one entry: a directory becomes a
      `Mkdir(…, 0755)` at its rebased path, anything else a `copyFile`. */
  function CopyEntry(fs: Fs, source: Path, dest: Path, e: WalkEntry): (r: Step)
    ensures SameEnvironment(fs, r.fs)
    ensures Preserves(fs, r.fs, {Rebase(source, dest, e.path)})
    ensures r.err.None? <==>
              if e.isDir then Creatable(fs, Rebase(source, dest, e.path))
              else Copyable(fs, e.path, Rebase(source, dest, e.path))
    ensures r.err.None? ==>
              r.fs.nodes == fs.nodes[Rebase(source, dest, e.path) :=
                                       if e.isDir then Dir(DirMode) else fs.nodes[e.path]]
    ensures e.isDir && !Creatable(fs, Rebase(source, dest, e.path)) ==>
              r == Step(fs, CreateError(fs, Rebase(source, dest, e.path)))
    ensures !e.isDir ==> r == CopyFile(fs, e.path, Rebase(source, dest, e.path))
  {
    var target := Rebase(source, dest, e.path);
    if e.isDir then
      match Mkdir(fs, target, DirMode)
      case Success(made) => Step(made, None)
      case Failure(err) => Step(fs, Some(err))
    else
      CopyFile(fs, e.path, target)
  }

  /** The destination paths of the walked entries. */
  function Targets(source: Path, dest: Path, walk: seq<WalkEntry>): set<Path>
    decreases |walk|
  {
    if walk == [] then {} else {Rebase(source, dest, walk[0].path)} + Targets(source, dest, walk[1..])
  }

  /** `copyDir`: the callback applied to the walked entries in order, stopping
      at the first error, which is returned. */
  function CopyDir(fs: Fs, source: Path, dest: Path, walk: seq<WalkEntry>): (r: Walked)
    ensures r.done <= |walk|
    ensures r.err.None? <==> r.done == |walk|
    ensures SameEnvironment(fs, r.fs)
    ensures Preserves(fs, r.fs, Targets(source, dest, walk))
    decreases |walk|
  {
    if walk == [] then Walked(fs, 0, None)
    else
      var first := CopyEntry(fs, source, dest, walk[0]);
      if first.err.Some? then Walked(first.fs, 0, first.err)
      else
        var rest := CopyDir(first.fs, source, dest, walk[1..]);
        Walked(rest.fs, rest.done + 1, rest.err)
  }

  /** `copyDir` stops at the first error: whatever follows the failing
      entry in the walk has no influence on the result. */
  lemma {:induction false} CopyDirFailFast(fs: Fs, source: Path, dest: Path, walk: seq<WalkEntry>, rest: seq<WalkEntry>)
    requires CopyDir(fs, source, dest, walk).err.Some?
    ensures var r := CopyDir(fs, source, dest, walk);
            CopyDir(fs, source, dest, walk[..r.done + 1] + rest) == r
    decreases |walk|
  {
    var r := CopyDir(fs, source, dest, walk);
    var first := CopyEntry(fs, source, dest, walk[0]);
    var longer := walk[..r.done + 1] + rest;
    assert longer != [] && longer[0] == walk[0];
    if first.err.None? {
      var tail := walk[1..];
      var t := CopyDir(first.fs, source, dest, tail);
      assert r == Walked(t.fs, t.done + 1, t.err);
      CopyDirFailFast(first.fs, source, dest, tail, rest);
      DropFirst(walk[..r.done + 1], rest);
      TailOfPrefix(walk, r.done);
    } else {
      assert r == Walked(first.fs, 0, first.err);
    }
  }

  /** A failed `copyDir` wrote nothing beyond the targets of the entries up
      to and including the failing one, and changed nothing that existed. */
  lemma CopyDirFailureFrame(fs: Fs, source: Path, dest: Path, walk: seq<WalkEntry>)
    requires CopyDir(fs, source, dest, walk).err.Some?
    ensures var r := CopyDir(fs, source, dest, walk);
            Preserves(fs, r.fs, Targets(source, dest, walk[..r.done + 1]))
  {
    var r := CopyDir(fs, source, dest, walk);
    CopyDirFailFast(fs, source, dest, walk, []);
    assert walk[..r.done + 1] + [] == walk[..r.done + 1];
  }

  /** The error `copyDir` returns is the one raised at entry `done`, after
      every earlier entry went through. */
  lemma {:induction false} CopyDirFirstError(fs: Fs, source: Path, dest: Path, walk: seq<WalkEntry>)
    requires CopyDir(fs, source, dest, walk).err.Some?
    ensures var r := CopyDir(fs, source, dest, walk);
            var before := CopyDir(fs, source, dest, walk[..r.done]);
            && before.err.None?
            && CopyEntry(before.fs, source, dest, walk[r.done]) == Step(r.fs, r.err)
    decreases |walk|
  {
    var r := CopyDir(fs, source, dest, walk);
    var first := CopyEntry(fs, source, dest, walk[0]);
    if first.err.None? {
      var tail := walk[1..];
      var t := CopyDir(first.fs, source, dest, tail);
      assert r == Walked(t.fs, t.done + 1, t.err);
      CopyDirFirstError(first.fs, source, dest, tail);
      var inner := CopyDir(first.fs, source, dest, tail[..t.done]);
      TailOfPrefix(walk, r.done);
      assert walk[..r.done][0] == walk[0];
      assert CopyDir(fs, source, dest, walk[..r.done]) == Walked(inner.fs, inner.done + 1, inner.err);
      assert walk[r.done] == tail[t.done];
    } else {
      assert r == Walked(first.fs, 0, first.err);
      assert walk[..r.done] == [];
    }
  }

  /** A tree copy that returns no error created a fresh node at every walked
      entry's rebased path, pairwise distinct: a 0755 directory for every
      directory entry, and the source's own content for every file entry that
      existed before the copy. */
  lemma {:induction false} CopyDirMirrors(fs: Fs, source: Path, dest: Path, walk: seq<WalkEntry>)
    requires CopyDir(fs, source, dest, walk).err.None?
    ensures var r := CopyDir(fs, source, dest, walk);
            && (forall i :: 0 <= i < |walk| ==>
                  Rebase(source, dest, walk[i].path) !in fs.nodes
                  && Rebase(source, dest, walk[i].path) in r.fs.nodes)
            && (forall i :: 0 <= i < |walk| && walk[i].isDir ==>
                  r.fs.nodes[Rebase(source, dest, walk[i].path)] == Dir(DirMode))
            && (forall i :: 0 <= i < |walk| && !walk[i].isDir && walk[i].path in fs.nodes ==>
                  r.fs.nodes[Rebase(source, dest, walk[i].path)] == fs.nodes[walk[i].path])
            && (forall i, j :: 0 <= i < j < |walk| ==>
                  Rebase(source, dest, walk[i].path) != Rebase(source, dest, walk[j].path))
    decreases |walk|
  {
    if walk != [] {
      var r := CopyDir(fs, source, dest, walk);
      var first := CopyEntry(fs, source, dest, walk[0]);
      var tail := walk[1..];
      CopyDirMirrors(first.fs, source, dest, tail);
      var t0 := Rebase(source, dest, walk[0].path);
      assert t0 !in fs.nodes && t0 in first.fs.nodes;
      forall i | 1 <= i < |walk|
        ensures Rebase(source, dest, walk[i].path) !in fs.nodes
        ensures Rebase(source, dest, walk[i].path) != t0
        ensures !walk[i].isDir && walk[i].path in fs.nodes ==>
                  r.fs.nodes[Rebase(source, dest, walk[i].path)] == fs.nodes[walk[i].path]
      {
        assert walk[i] == tail[i - 1];
      }
    }
  }

  /** Where a single copy of `source` requested at `dest` is written: inside
      `dest` under the source's name when `dest` is a directory, at `dest`
      itself otherwise. */
  function ResolvedTarget(fs: Fs, source: Path, dest: Path): Path {
    if IsDirAt(fs, dest) then Join(dest, Base(source)) else dest
  }

  /** The destination handling shared by `copySingleFile` and
      `copySingleDir`: an absent destination is used as given, an existing
      directory receives the source under its own name, an existing file is
      refused with `conflict`, and any other stat error is fatal. */
  function EffectiveTarget(fs: Fs, source: Path, dest: Path, conflict: string): (r: Result<Path, CopyError>)
    ensures dest in fs.faults ==> r == Failure(StatError(Fault(dest)))
    ensures dest !in fs.faults && dest !in fs.nodes ==> r == Success(dest)
    ensures dest !in fs.faults && IsDirAt(fs, dest) ==> r == Success(Join(dest, Base(source)))
    ensures dest !in fs.faults && IsFileAt(fs, dest) ==> r == Failure(ConflictError(conflict))
    ensures r.Success? ==> r.value == ResolvedTarget(fs, source, dest)
  {
    match CheckPath(fs, dest)
    case Failure(e) => Failure(StatError(e))
    case Success(status) =>
      if !status.found then Success(dest)
      else if status.isDir then Success(Join(dest, Base(source)))
      else Failure(ConflictError(conflict))
  }

  /** `copySingleFile`: resolve the target, then copy the file there. An
      existing file at `dest` is never touched and nothing that existed
      before is ever changed. */
  function CopySingleFile(fs: Fs, source: Path, dest: Path): (r: Outcome)
    ensures dest in fs.faults ==> r == Outcome(fs, Some(StatError(Fault(dest))))
    ensures IsFileAt(fs, dest) ==> r.fs == fs && r.err.Some?
    ensures dest !in fs.faults && IsFileAt(fs, dest) ==> r.err == Some(ConflictError(TargetFileExists))
    ensures SameEnvironment(fs, r.fs)
    ensures Preserves(fs, r.fs, {ResolvedTarget(fs, source, dest)})
    ensures r.err.None? <==>
              dest !in fs.faults && !IsFileAt(fs, dest) && Copyable(fs, source, ResolvedTarget(fs, source, dest))
    ensures r.err.None? ==> r.fs.nodes == fs.nodes[ResolvedTarget(fs, source, dest) := fs.nodes[source]]
    ensures dest !in fs.faults && !IsFileAt(fs, dest) ==>
              var copied := CopyFile(fs, source, ResolvedTarget(fs, source, dest));
              r.fs == copied.fs && r.err == (if copied.err.Some? then Some(TransferError(copied.err.value)) else None)
  {
    match EffectiveTarget(fs, source, dest, TargetFileExists)
    case Failure(e) => Outcome(fs, Some(e))
    case Success(target) =>
      var copied := CopyFile(fs, source, target);
      Outcome(copied.fs, if copied.err.Some? then Some(TransferError(copied.err.value)) else None)
  }

  /** `copySingleDir`: resolve the target, then mirror the walked tree there.
      An existing file at `dest` is never touched; otherwise the outcome is
      that of the tree copy into the resolved target. */
  function CopySingleDir(fs: Fs, source: Path, dest: Path, walk: seq<WalkEntry>): (r: Outcome)
    ensures dest in fs.faults ==> r == Outcome(fs, Some(StatError(Fault(dest))))
    ensures IsFileAt(fs, dest) ==> r.fs == fs && r.err.Some?
    ensures dest !in fs.faults && IsFileAt(fs, dest) ==> r.err == Some(ConflictError(TargetIsFile))
    ensures SameEnvironment(fs, r.fs)
    ensures Preserves(fs, r.fs, Targets(source, ResolvedTarget(fs, source, dest), walk))
    ensures dest !in fs.faults && !IsFileAt(fs, dest) ==>
              var copied := CopyDir(fs, source, ResolvedTarget(fs, source, dest), walk);
              r.fs == copied.fs && r.err == (if copied.err.Some? then Some(TransferError(copied.err.value)) else None)
    ensures r.err.None? ==> dest !in fs.faults && !IsFileAt(fs, dest)
  {
    match EffectiveTarget(fs, source, dest, TargetIsFile)
    case Failure(e) => Outcome(fs, Some(e))
    case Success(target) =>
      var copied := CopyDir(fs, source, target, walk);
      Outcome(copied.fs, if copied.err.Some? then Some(TransferError(copied.err.value)) else None)
  }

  lemma DropFirst<T>(a: seq<T>, b: seq<T>)
    requires |a| >= 1
    ensures (a + b)[1..] == a[1..] + b
  {
  }

  lemma TailOfPrefix<T>(s: seq<T>, k: nat)
    requires 0 < k < |s|
    ensures s[..k + 1][1..] == s[1..][..k]
    ensures s[..k][1..] == s[1..][..k - 1]
  {
  }
}
