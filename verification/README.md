# hdfs `cp` and client acquisition, in Dafny

This project models two parts of the `hdfs` command-line client:

- the `cp [-r] SOURCE DEST` subcommand (`cmd/hdfs/cp.go`);
- the per-namenode client acquisition it relies on (`getClient` and its helpers in `cmd/hdfs/main.go`).

The `cp` subcommand covers:
- classifying a path;
- copying one file through a reader and a writer that are both closed on every way out;
- mirroring a walked directory tree under a destination, with fail-fast errors;
- the destination rule: an absent destination is used as given, an existing directory receives the source under its base name, and an existing file is refused;
- the argument and source checks of the command itself.

Client acquisition covers:
- the client cache;
- the choice of user (`HADOOP_USER_NAME`, else the OS account);
- the plain options, whose namenode addresses are read from `HADOOP_NAMENODE` split at `_`;
- the Kerberos options, used when `hdfs_conf` is not reported missing;
- the login retry: at most 1000 attempts, sleeping `i` seconds after failed attempt `i`;
- dialers with 300000-second timeouts;
- the `Couldn't connect to namenode: ` wrapping of constructor errors.

Modules:

- `Wrappers`: `Option` and `Result`.
- `Strings`: `strings.Split` and `strings.Join` on a one-character separator, and their round trips.
- `Paths`: paths as sequences of segments. Covers `path.Split`, `path.Join`, the prefix trim and the rebasing of a walked path under the destination.
- `RemoteFs`: a map-based stand-in for the remote filesystem client (see "Left out" for the behaviour it assumes).
- `Copy`: `checkPath`, `copyFile`, the walk callback and `copyDir`, and `copySingleFile` and `copySingleDir`.
- `Mirror`: the theorem that a pre-order walk of an existing tree, copied into a destination with room for it, succeeds and reproduces every walked directory and file.
- `Session`: `findRealm`, `getClientNormal`, `getClientKerberos`, the retry loop, and `getClient`. It also has a `SessionManager` class that owns the cache map.
- `CpCommand`: `cp` itself.
- `Scenarios`: a concrete worked example of a single-file copy.

The walk that `client.Walk` would perform is an input: a sequence of entries. The theorem in `Mirror` states which walks are copied in full; that the walk lists every node under the source is the library's business and is not stated. External state is also passed in as data:
- the environment variables;
- the OS user lookup;
- the stat of `hdfs_conf`;
- what each Kerberos attempt finds;
- the client constructor.

The seconds slept and the lines logged by the retry loop are returned as sequences.

## Model

| member | source | states |
|---|---|---|
| Copy.CheckPath | cmd/hdfs/cp.go:12-21 | A missing path is reported as absent. A found path is reported with whether it is a directory, and "found" holds exactly when the path exists. Any other stat error is an error and is never taken for "absent". |
| Copy.WriteCopy | cmd/hdfs/cp.go:30-37 | Once the source is open, the copy succeeds exactly when the destination can be created and the source is a readable file. On success the destination holds the source's node. A failed create returns the create error with nothing changed. A source that is a directory or cannot be read returns that read error and leaves the destination as an empty file. No existing node changes, only the destination is written, and the writer is closed again. |
| Copy.CopyFile | cmd/hdfs/cp.go:23-38 | An open failure is returned with nothing changed. The copy succeeds exactly when the source is a reachable readable file and the destination is creatable. On success the destination holds the source's bytes and nothing else changed. After a successful open, a failed create returns the create error with nothing changed, and a directory or unreadable source returns that read error with the destination left as an empty file. The set of open streams is the same afterwards, so both streams were closed. |
| Copy.CopyEntry | cmd/hdfs/cp.go:41-53 | A directory entry becomes a new 0755 directory at its rebased path, and a file entry becomes a file copy there. The entry succeeds exactly when that target is creatable (and, for a file, the source is copyable). A failing directory entry returns the mkdir error with nothing changed, and a file entry returns exactly the file copy's result and error. Only the rebased path is written. |
| Copy.CopyDir | cmd/hdfs/cp.go:40-55 | The walk is processed in order. The result reports no error exactly when every entry went through. Streams and failure sets are unchanged, no existing node is modified, and only rebased targets are created. |
| Copy.CopyDirFailFast | cmd/hdfs/cp.go:43-52 | After the first failing entry nothing else runs: any continuation of the walk after it gives the same result. |
| Copy.CopyDirFirstError | cmd/hdfs/cp.go:41-54 | The returned error is the one raised by entry `done`. Every entry before it succeeded, and the final state is the one that failing entry left. |
| Copy.CopyDirFailureFrame | cmd/hdfs/cp.go:40-55 | A failed tree copy wrote only the targets of the entries up to and including the failing one, and left every existing node unchanged. |
| Copy.CopyDirMirrors | cmd/hdfs/cp.go:42-51 | After a successful tree copy, every rebased target was absent before and is present after, and the targets are pairwise distinct. Directory entries are 0755 directories, and file entries hold the bytes of their source. |
| Mirror.MirrorTree | cmd/hdfs/cp.go:40-55 | For a pre-order walk of existing, readable entries, into a destination outside the source tree whose parent is a directory and whose targets are all free, the tree copy succeeds. It reproduces every walked directory and file at its rebased path and changes nothing that existed. |
| Copy.EffectiveTarget | cmd/hdfs/cp.go:58-66 | An absent destination is used as given, and an existing directory yields destination joined with the source's base name. An existing file is refused with the given conflict message, and any other stat error is surfaced. |
| Copy.CopySingleFile | cmd/hdfs/cp.go:57-70 | A stat error on the destination is reported with nothing written. An existing file at the destination is left untouched and "Target file is exist." is reported. The copy succeeds exactly when the source can be copied to the resolved target. On success only that target changed, and it now holds the source's bytes. Otherwise the state and the error are those of the file copy into the resolved target, its error reported as a transfer error. |
| Copy.CopySingleDir | cmd/hdfs/cp.go:72-85 | A stat error on the destination is reported with nothing written. An existing file at the destination is left untouched and "Target is a file." is reported. Otherwise the state and the error are those of the tree copy into the resolved target (its error reported as a transfer error), which writes only the rebased targets. |
| Scenarios.FileToAbsentDestination | cmd/hdfs/cp.go:57-69 | Copying `/a/x.txt` to an absent `/d` in a concrete tree succeeds and writes the file's bytes at `/d` itself. |
| CpCommand.CheckArgs | cmd/hdfs/cp.go:88-97 | The arguments are accepted exactly when normalisation succeeds, there are exactly two paths, and neither holds a glob. Each failure carries its own message, in the order the checks are made. |
| CpCommand.CopySources | cmd/hdfs/cp.go:109-127 | Any number of sources other than one is a silent no-op. A missing source, a stat error, or a directory without `-r` each give their error with nothing written. Otherwise a directory goes to the tree copy and a file to the single-file copy. Nothing changes unless every source check passed. |
| CpCommand.Cp | cmd/hdfs/cp.go:87-128 | Refused arguments end the command before connecting. Accepted arguments always connect, and the client obtained is exactly the acquisition outcome `Session.Acquire` defines for the cache, the namenode and the environment (cache hit, user lookup, plain or first successful Kerberos options, connect), so on a cache miss the client is whatever that environment yields; a connect error is reported exactly when that outcome is a failure. A connect failure writes and caches nothing. Otherwise the cache is the old cache with exactly that client added under the namenode, and the run ends as the copy of the one expanded source, after the source checks that precede any write. |
| Paths.Base | cmd/hdfs/cp.go:61-62 | The base name joined back onto the parent gives the path again. |
| Paths.TrimPrefix | cmd/hdfs/cp.go:42 | For a path under the prefix, the prefix followed by the result is the path. Any other path is returned unchanged. |
| Paths.RebaseUnder | cmd/hdfs/cp.go:42 | A path under the source lands under the destination at the same relative depth, and the walk root lands on the destination itself. |
| Paths.RebaseRoundTrip | cmd/hdfs/cp.go:42 | Rebasing from source to destination and back returns the original path. |
| Paths.RebaseInjective | cmd/hdfs/cp.go:42 | Distinct walked paths land on distinct destination paths. |
| Paths.RebaseParent | cmd/hdfs/cp.go:42 | The parent of a rebased path is the rebased parent, so each entry lands inside its directory's copy. |
| Strings.Split | cmd/hdfs/main.go:198 | At least one piece, and no piece contains the separator. |
| Strings.JoinSplit | cmd/hdfs/main.go:198 | Joining the pieces of a split with the separator restores the input. |
| Strings.SplitJoin | cmd/hdfs/main.go:198 | Splitting separator-free pieces joined with the separator gives the pieces back. |
| Session.FindRealm | cmd/hdfs/main.go:186-192 | The configured default realm when it is non-empty, otherwise `HADOOP.COM`. The realm is never empty. |
| Session.ClientNormal | cmd/hdfs/main.go:194-202 | The user is the one given. The addresses are empty when `HADOOP_NAMENODE` is unset or empty. Otherwise they are separator-free pieces that join back to the variable's value. |
| Session.ClientKerberos | cmd/hdfs/main.go:204-225 | The configuration, keytab and Kerberos configuration loads are tried in that order, and the first failure is returned. Success requires all three loads and the login to succeed. A failed login returns the login's own error. On success the options are those loaded from the configuration, with only the Kerberos client set: a keytab client for the user in the resolved realm. |
| Session.SelectUser | cmd/hdfs/main.go:231-238 | A non-empty `HADOOP_USER_NAME` wins, otherwise the OS account is used. A failed lookup is an error. |
| Session.Connect | cmd/hdfs/main.go:269-272 | Success exactly when the constructor succeeds. Its error is wrapped with the `Couldn't connect to namenode: ` prefix. |
| Session.FirstLoginFindsFirstSuccess | cmd/hdfs/main.go:246-251 | When attempts up to k fail and attempt k succeeds, the login outcome is attempt k's options. |
| Session.FirstLoginAllFail | cmd/hdfs/main.go:246-258 | When every attempt fails, the login outcome is the error of attempt 1000. |
| Session.LoginWithRetry | cmd/hdfs/main.go:246-258 | The result is the login outcome `FirstLogin` defines: that of the first successful attempt, or of attempt 1000 when all fail. Every earlier attempt failed. Failed attempt `i` logs `i` with its error and sleeps `i` seconds, for a total of 1+...+n seconds. |
| Session.WithDialers | cmd/hdfs/main.go:261-268 | Both dial functions get the same dual-stack dialer with a 300000-second timeout, keep-alive and deadline; the addresses, user and Kerberos client are kept. |
| Session.SessionManager.Get | cmd/hdfs/main.go:228-273 | The process-wide client cache (`cachedClients`, declared at line 87): the result is the acquisition outcome for the cache as it was; a namenode already cached returns its client and leaves the cache alone; a successful lookup stores the client; a failure leaves the cache unchanged. |
| Session.GetClient | cmd/hdfs/main.go:227-275 | The result is the acquisition outcome `Acquire` defines. A cached client is returned with no work and no sleep. A failed user lookup is returned at once. With `hdfs_conf` missing, the plain options are connected. Otherwise, if all 1000 attempts fail, the last error is returned after 500500 seconds of sleep; if attempt k first succeeds, its options are connected after (k-1)k/2 seconds. The cache gains the client only on success. |

## Left out

- Dispatch, option parsing and usage text: everything in `cmd/hdfs/main.go` outside `findRealm`, `getClientNormal`, `getClientKerberos` and `getClient`.
- Other subcommands.
- `normalizePaths`, `hasGlob` and `expandPaths`: their results are inputs of a `CpRequest` (a result, a predicate and a result). Their code is not part of this model.
- The remote filesystem's wire protocol. The client library is replaced by `RemoteFs`. Its behaviour is assumed, not taken from code that is part of this model:
  - `Create` and `Mkdir` fail on an existing path or on a missing or non-directory parent.
  - `Open` succeeds on any reachable existing node.
  - Reading a directory, or a file whose blocks are unreadable, fails.
  - Permission and network failures are paths in `faults`.
- The order of `client.Walk`: the walk is an input sequence. `Mirror.MirrorTree` states which walks (pre-order, listing existing readable entries) give a complete copy.
- The walk is a snapshot of the source tree taken before the copy writes anything. The library's walk lists a directory's children only after the callback for that directory returned, so with the destination inside the source (`cp -r /a /a/b`, or `cp -r /a /a`, which resolves to `/a/a`) it would also visit the directories the copy creates. `Mirror.MirrorTree` therefore requires the destination to lie outside the source; the behaviour of such a self-nesting copy is not modelled.
- The walk callback's own `err` argument. The source ignores it and calls `info.IsDir()`, which would dereference a nil `info` when the walk reports an error for an entry. Entries here always carry their kind.
- Copy.CopyFile: a transfer that fails part-way leaves the destination as the empty file `Create` made. The model does not track partially written bytes.
- Errors from the deferred `Close` calls are discarded, as the source discards them.
- Paths.TrimPrefix: `strings.TrimPrefix` works on strings and the model works on whole segments. The two differ only for a string prefix that is not a segment prefix (source `/a`, path `/ab`), which a walk of `/a` never yields.
- `hadoopconf.Load`, `keytab.Load`, `config.Load`, `ClientOptionsFromConf` and the Kerberos login: what each attempt finds is an input function of the attempt number.
- `time.Sleep` and the standard-error lines: returned as sequences rather than performed.
- The dial deadline `time.Now() + 300000 s`: recorded as a duration, because the clock is not modelled.
- Concurrency: the source is single-threaded and so is the model.

Where the code's behaviour may be unexpected, the model follows the code:
- Kerberos mode is entered unless the stat of `hdfs_conf` reports "not exist", so a stat failing for another reason also enters it.
- Creating a directory that already exists is an error that stops the tree copy, not a no-op.
- The source is checked only after connecting.
- With more than one expanded source, `cp` does nothing and reports nothing.
- The sleep also follows the last failed attempt, so exhausting the attempts sleeps 1+...+1000 seconds.
- An authentication failure is returned as such, not wrapped as a connect error.
- The dialers are attached after the Kerberos options replace the plain ones.
