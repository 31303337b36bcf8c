/** The `cp [-r] SOURCE DEST` command: argument checks, connecting, source
    checks, then a single-file or a single-directory copy. */
module CpCommand {
  import opened Wrappers
  import opened Paths
  import opened RemoteFs
  import opened Copy
  import opened Session

  const OnlySourceAndDest: string := "Only a source and a destination are required."
  const GlobUnsupported: string := "Glob is not supported right now."
  const SourceMissing: string := "Source path not exist."
  const SourceIsDir: string := "Source is a dir."

  /** Every way `cp` ends in `fatal` or `fatalWithUsage`. */
  datatype CpError =
    | BadPaths(msg: string)
    | UsageError(msg: string)
    | Unsupported(msg: string)
    | ConnectError(session: SessionError)
    | ExpandError(msg: string)
    | SourceStatError(stat: FsError)
    | NotFoundError(msg: string)
    | CopyFailed(copy: CopyError)

  /** The command line after `normalizePaths`: the paths and the namenode
      they address. */
  datatype Normalized = Normalized(paths: seq<Path>, namenode: string)

  /** A `cp` invocation together with what the helpers it calls report:
      path normalisation, glob detection, expansion of the source, and the
      walk of the source tree. */
  datatype CpRequest = CpRequest(
    normalized: Result<Normalized, string>,
    hasGlob: Path -> bool,
    expanded: Result<seq<Path>, string>,
    walk: seq<WalkEntry>,
    recursive: bool)

  datatype CpOutcome = CpOutcome(fs: Fs, err: Option<CpError>)

  /** The arguments pass the checks made before connecting. */
  predicate ArgsAccepted(req: CpRequest) {
    && req.normalized.Success?
    && |req.normalized.value.paths| == 2
    && !req.hasGlob(req.normalized.value.paths[0])
    && !req.hasGlob(req.normalized.value.paths[1])
  }

  /** The expanded sources pass the checks made before copying: exactly
      one source, which exists, and is a directory only with `-r`. */
  predicate SourceAccepted(fs: Fs, sources: seq<Path>, recursive: bool) {
    && |sources| == 1
    && sources[0] !in fs.faults
    && sources[0] in fs.nodes
    && (IsDirAt(fs, sources[0]) ==> recursive)
  }

  /** Lines 88-97 of `cp`: normalisation must succeed, exactly a source and
      a destination are required, and neither may hold a glob. */
  function CheckArgs(req: CpRequest): (r: Result<Normalized, CpError>)
    ensures r.Success? <==> ArgsAccepted(req)
    ensures r.Success? ==> r.value == req.normalized.value
    ensures req.normalized.Failure? ==> r == Failure(BadPaths(req.normalized.error))
    ensures req.normalized.Success? && |req.normalized.value.paths| != 2 ==> r == Failure(UsageError(OnlySourceAndDest))
    ensures req.normalized.Success? && |req.normalized.value.paths| == 2 && !ArgsAccepted(req) ==>
              r == Failure(Unsupported(GlobUnsupported))
  {
    match req.normalized
    case Failure(e) => Failure(BadPaths(e))
    case Success(n) =>
      if |n.paths| != 2 then Failure(UsageError(OnlySourceAndDest))
      else if req.hasGlob(n.paths[0]) || req.hasGlob(n.paths[1]) then Failure(Unsupported(GlobUnsupported))
      else Success(n)
  }

  function Lift(o: Outcome): CpOutcome {
    CpOutcome(o.fs, if o.err.Some? then Some(CopyFailed(o.err.value)) else None)
  }

  /** Lines 109-127 of `cp`: with exactly one source, which must exist, copy
      a directory (only with `-r`) or a file; with any other number of
      sources do nothing. Nothing is written unless every check passed. */
  function CopySources(fs: Fs, sources: seq<Path>, dest: Path, walk: seq<WalkEntry>, recursive: bool): (r: CpOutcome)
    ensures r.fs != fs ==> SourceAccepted(fs, sources, recursive)
    ensures |sources| != 1 ==> r == CpOutcome(fs, None)
    ensures |sources| == 1 && sources[0] in fs.faults ==>
              r == CpOutcome(fs, Some(SourceStatError(Fault(sources[0]))))
    ensures |sources| == 1 && sources[0] !in fs.faults && sources[0] !in fs.nodes ==>
              r == CpOutcome(fs, Some(NotFoundError(SourceMissing)))
    ensures |sources| == 1 && sources[0] !in fs.faults && IsDirAt(fs, sources[0]) && !recursive ==>
              r == CpOutcome(fs, Some(UsageError(SourceIsDir)))
    ensures SourceAccepted(fs, sources, recursive) && IsDirAt(fs, sources[0]) ==>
              r == Lift(CopySingleDir(fs, sources[0], dest, walk))
    ensures SourceAccepted(fs, sources, recursive) && IsFileAt(fs, sources[0]) ==>
              r == Lift(CopySingleFile(fs, sources[0], dest))
  {
    if |sources| != 1 then CpOutcome(fs, None)
    else
      var source := sources[0];
      match CheckPath(fs, source)
      case Failure(e) => CpOutcome(fs, Some(SourceStatError(e)))
      case Success(status) =>
        if !status.found then CpOutcome(fs, Some(NotFoundError(SourceMissing)))
        else if status.isDir then
          if !recursive then CpOutcome(fs, Some(UsageError(SourceIsDir)))
          else Lift(CopySingleDir(fs, source, dest, walk))
        else Lift(CopySingleFile(fs, source, dest))
  }

  /** `cp`: every check on the arguments comes before connecting, every
      check on the source before any write, and a connection failure writes
      nothing and caches nothing. `client` is what `getClient` returned, or
      `None` when the arguments were refused before connecting. */
  method Cp(cache: map<string, Client>, env: Env, fs: Fs, req: CpRequest)
    returns (cache': map<string, Client>, fs': Fs, err: Option<CpError>, client: Option<Result<Client, SessionError>>)
    ensures CheckArgs(req).Failure? ==>
              cache' == cache && fs' == fs && err == Some(CheckArgs(req).error) && client.None?
    ensures ArgsAccepted(req) ==> client == Some(Acquire(cache, req.normalized.value.namenode, env))
    ensures ArgsAccepted(req) ==> ((err.Some? && err.value.ConnectError?) <==> client.value.Failure?)
    ensures client.Some? && client.value.Failure? ==> err == Some(ConnectError(client.value.error))
    ensures ArgsAccepted(req) && req.normalized.value.namenode in cache ==>
              client == Some(Success(cache[req.normalized.value.namenode])) && cache' == cache
    ensures client.Some? && client.value.Success? ==>
              cache' == cache[req.normalized.value.namenode := client.value.value]
    ensures fs' != fs ==>
              && ArgsAccepted(req)
              && req.normalized.value.namenode in cache'
              && req.expanded.Success?
              && SourceAccepted(fs, req.expanded.value, req.recursive)
    ensures err.Some? && err.value.ConnectError? ==> fs' == fs && cache' == cache
    ensures ArgsAccepted(req) && !(err.Some? && err.value.ConnectError?) ==>
              && req.normalized.value.namenode in cache'
              && (req.expanded.Failure? ==> fs' == fs && err == Some(ExpandError(req.expanded.error)))
              && (req.expanded.Success? ==>
                    CpOutcome(fs', err) == CopySources(fs, req.expanded.value, req.normalized.value.paths[1],
                                                       req.walk, req.recursive))
  {
    var args := CheckArgs(req);
    if args.Failure? {
      return cache, fs, Some(args.error), None;
    }
    var connected, slept;
    cache', connected, slept := GetClient(cache, args.value.namenode, env);
    client := Some(connected);
    if connected.Failure? {
      return cache', fs, Some(ConnectError(connected.error)), client;
    }
    var dest := args.value.paths[1];
    if req.expanded.Failure? {
      return cache', fs, Some(ExpandError(req.expanded.error)), client;
    }
    var copied := CopySources(fs, req.expanded.value, dest, req.walk, req.recursive);
    fs', err := copied.fs, copied.err;
  }
}
