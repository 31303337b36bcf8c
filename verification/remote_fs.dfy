/** A map-based stand-in for the remote filesystem client the copy code
    calls (`Stat`, `Open`, `Create`, `Mkdir`, stream reads and `Close`).
    The behaviour given here is the client library's as this model assumes
    it: creation never overwrites and never creates missing parents. */
module RemoteFs {
  import opened Wrappers
  import opened Paths

  newtype byte = x: int | 0 <= x < 256

  /** Permission bits of the directories the copy creates: octal 0755. */
  const DirMode: int := 493

  datatype Node = Dir(mode: int) | File(data: seq<byte>)

  /** An open stream: a reader from `Open`, a writer from `Create`. */
  datatype Handle = Reader(path: Path) | Writer(path: Path)

  /** The remote namespace: a node per existing path, the paths on which
      every call fails (permission denied, unreachable node, ...), the files
      whose blocks cannot be read, and the streams currently open. */
  datatype Fs = Fs(
    nodes: map<Path, Node>,
    faults: set<Path>,
    unreadable: set<Path>,
    handles: multiset<Handle>)

  datatype FsError =
    | NotFound(path: Path)
    | AlreadyExists(path: Path)
    | NotADirectory(path: Path)
    | IsADirectory(path: Path)
    | Fault(path: Path)
    | ReadFailed(path: Path)

  predicate IsDirAt(fs: Fs, p: Path) {
    p in fs.nodes && fs.nodes[p].Dir?
  }

  predicate IsFileAt(fs: Fs, p: Path) {
    p in fs.nodes && fs.nodes[p].File?
  }

  /** A new entry can be made at `p`: it is reachable, free, and its parent
      is an existing directory. */
  predicate Creatable(fs: Fs, p: Path) {
    p !in fs.faults && p !in fs.nodes && p != [] && IsDirAt(fs, Parent(p))
  }

  /** The streams and the failure sets are left as they were. */
  predicate SameEnvironment(fs: Fs, fs': Fs) {
    fs'.faults == fs.faults && fs'.unreadable == fs.unreadable && fs'.handles == fs.handles
  }

  /** Every node that existed is still there, unchanged, and the only new
      paths are among `written`. */
  predicate Preserves(fs: Fs, fs': Fs, written: set<Path>) {
    && (forall p :: p in fs.nodes ==> p in fs'.nodes && fs'.nodes[p] == fs.nodes[p])
    && (forall p :: p in fs'.nodes ==> p in fs.nodes || p in written)
  }

  /** Setting one path that did not exist before preserves every old node
      and writes only that path. */
  lemma PreservesFresh(fs: Fs, fs': Fs, p: Path, n: Node)
    requires p !in fs.nodes && fs'.nodes == fs.nodes[p := n]
    ensures Preserves(fs, fs', {p})
  {
  }

  /** `Preserves` looks at the nodes only. */
  lemma PreservesSameNodes(fs: Fs, fs': Fs, gs: Fs, gs': Fs, written: set<Path>)
    requires Preserves(fs, fs', written)
    requires gs.nodes == fs.nodes && gs'.nodes == fs'.nodes
    ensures Preserves(gs, gs', written)
  {
  }

  function Stat(fs: Fs, p: Path): Result<Node, FsError> {
    if p in fs.faults then Failure(Fault(p))
    else if p !in fs.nodes then Failure(NotFound(p))
    else Success(fs.nodes[p])
  }

  /** Why `p` cannot be created, if it cannot. */
  function CreateError(fs: Fs, p: Path): (e: Option<FsError>)
    ensures e.None? <==> Creatable(fs, p)
  {
    if p in fs.faults then Some(Fault(p))
    else if p in fs.nodes then Some(AlreadyExists(p))
    else if p == [] || Parent(p) !in fs.nodes then Some(NotFound(Parent(p)))
    else if !fs.nodes[Parent(p)].Dir? then Some(NotADirectory(Parent(p)))
    else None
  }

  /** `Open`: a reader on an existing, reachable path. */
  function Open(fs: Fs, p: Path): (r: Result<Fs, FsError>)
    ensures r.Success? <==> p in fs.nodes && p !in fs.faults
  {
    if p in fs.faults then Failure(Fault(p))
    else if p !in fs.nodes then Failure(NotFound(p))
    else Success(fs.(handles := fs.handles + multiset{Reader(p)}))
  }

  /** `Create`: a writer on a new, empty file. */
  function Create(fs: Fs, p: Path): (r: Result<Fs, FsError>)
    ensures r.Success? <==> Creatable(fs, p)
  {
    match CreateError(fs, p)
    case Some(e) => Failure(e)
    case None => Success(fs.(nodes := fs.nodes[p := File([])],
                             handles := fs.handles + multiset{Writer(p)}))
  }

  /** `Mkdir(p, mode)`: a new directory; an existing path is an error. */
  function Mkdir(fs: Fs, p: Path, mode: int): (r: Result<Fs, FsError>)
    ensures r.Success? <==> Creatable(fs, p)
  {
    match CreateError(fs, p)
    case Some(e) => Failure(e)
    case None => Success(fs.(nodes := fs.nodes[p := Dir(mode)]))
  }

  /** `io.Copy` from the reader on `src` into the writer on `dst`: the whole
      content of `src`, or an error that leaves `dst` as it was. */
  function Transfer(fs: Fs, src: Path, dst: Path): (r: (Fs, Option<FsError>))
    ensures SameEnvironment(fs, r.0)
    ensures r.1.None? <==> IsFileAt(fs, src) && src !in fs.unreadable
    ensures r.1.None? ==> r.0.nodes == fs.nodes[dst := fs.nodes[src]]
    ensures r.1.Some? ==> r.0 == fs
  {
    if src !in fs.nodes then (fs, Some(NotFound(src)))
    else if fs.nodes[src].Dir? then (fs, Some(IsADirectory(src)))
    else if src in fs.unreadable then (fs, Some(ReadFailed(src)))
    else (fs.(nodes := fs.nodes[dst := fs.nodes[src]]), None)
  }

  /** `Close`: the stream is released; its own error is discarded, as the
      deferred calls do. */
  function Close(fs: Fs, h: Handle): Fs {
    fs.(handles := fs.handles - multiset{h})
  }
}
