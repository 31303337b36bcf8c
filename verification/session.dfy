/** Acquiring an HDFS client for a namenode: the per-namenode client cache,
    the choice of user, the plain and the Kerberos client options, and the
    bounded login retry with linear back-off. */
module Session {
  import opened Wrappers
  import opened Strings

  /** The most login attempts made before giving up. */
  const MaxAttempts: nat := 1000
  /** The realm used when the Kerberos configuration names none. */
  const FallbackRealm: string := "HADOOP.COM"
  const UserVariable: string := "HADOOP_USER_NAME"
  const NamenodeVariable: string := "HADOOP_NAMENODE"
  /** Separator between namenode addresses in the namenode variable. */
  const AddressSeparator: char := '_'
  /** Timeout, keep-alive and deadline, in seconds, of every dialer. */
  const DialSeconds: nat := 300000
  const ConnectErrorPrefix: string := "Couldn't connect to namenode: "

  /** The `libdefaults` part of a loaded `krb5.conf`. */
  datatype KrbConfig = KrbConfig(defaultRealm: string)

  /** The principals of a loaded `user.keytab`. */
  datatype Keytab = Keytab(principals: seq<string>)

  datatype KerberosClient = KerberosClient(user: string, realm: string, keytab: Keytab, config: KrbConfig)

  /** How connections are dialed: timeout, keep-alive and deadline in seconds. */
  datatype Dialer = Dialer(timeout: nat, keepAlive: nat, deadline: nat, dualStack: bool)

  /** The fields of `hdfs.ClientOptions` this code sets. */
  datatype ClientOptions = ClientOptions(
    addresses: seq<string>,
    user: string,
    kerberos: Option<KerberosClient>,
    namenodeDialer: Option<Dialer>,
    datanodeDialer: Option<Dialer>)

  /** A connected client, as handed out by the client constructor. */
  datatype Client = Client(id: nat)

  /** What one Kerberos attempt finds: the client options built from the
      Hadoop configuration directory, the keytab, the Kerberos configuration,
      and the error of the login, if it fails. */
  datatype KerberosInputs = KerberosInputs(
    conf: Result<ClientOptions, string>,
    keytab: Result<Keytab, string>,
    krbConfig: Result<KrbConfig, string>,
    loginError: Option<string>)

  /** The step of a Kerberos attempt that failed. */
  datatype AuthError =
    | ConfLoadFailed(msg: string)
    | KeytabLoadFailed(msg: string)
    | KrbConfigLoadFailed(msg: string)
    | LoginFailed(msg: string)

  datatype SessionError =
    | UserLookupFailed(msg: string)
    | AuthFailed(cause: AuthError)
    | ConnectFailed(msg: string)

  /** What `os.Stat("hdfs_conf")` reports. */
  datatype ConfDirStat = ConfDirPresent | ConfDirMissing | ConfDirStatFailed

  /** Everything outside the process the session code consults: environment
      variables, the OS user lookup, the configuration directory, what the
      Kerberos attempt with a given number finds, and the client constructor. */
  datatype Env = Env(
    vars: map<string, string>,
    osUser: Result<string, string>,
    confDir: ConfDirStat,
    kerberos: nat -> KerberosInputs,
    newClient: ClientOptions -> Result<Client, string>)

  /** One line written to standard error after a failed attempt. */
  datatype RetryLog = Attempted(attempt: nat, error: AuthError)

  /** `os.Getenv`: an unset variable reads as "". */
  function GetEnv(env: Env, name: string): string {
    if name in env.vars then env.vars[name] else ""
  }

  /** `findRealm`: the configured default realm, or the fallback. The result
      is never empty. */
  function FindRealm(conf: KrbConfig): (realm: string)
    ensures conf.defaultRealm != "" ==> realm == conf.defaultRealm
    ensures conf.defaultRealm == "" ==> realm == FallbackRealm
    ensures realm != ""
  {
    if conf.defaultRealm != "" then conf.defaultRealm else FallbackRealm
  }

  /** `getClientNormal`: the user as given, and the namenode addresses read
      from the environment, cut at every separator; joined back with the
      separator they give the variable's value again. */
  function ClientNormal(userName: string, env: Env): (options: ClientOptions)
    ensures options.user == userName
    ensures GetEnv(env, NamenodeVariable) == "" ==> options.addresses == []
    ensures GetEnv(env, NamenodeVariable) != "" ==>
              && |options.addresses| >= 1
              && JoinWith(options.addresses, AddressSeparator) == GetEnv(env, NamenodeVariable)
              && forall i :: 0 <= i < |options.addresses| ==> AddressSeparator !in options.addresses[i]
    ensures options.kerberos.None? && options.namenodeDialer.None? && options.datanodeDialer.None?
  {
    var namenode := GetEnv(env, NamenodeVariable);
    JoinSplit(namenode, AddressSeparator);
    var addresses := if namenode != "" then Split(namenode, AddressSeparator) else [];
    ClientOptions(addresses, userName, None, None, None)
  }

  /** `getClientKerberos`: load the configuration, then the keytab, then the
      Kerberos configuration, stopping at the first failure; then log in with
      a keytab client for the user in the resolved realm. */
  function ClientKerberos(userName: string, inputs: KerberosInputs): (r: Result<ClientOptions, AuthError>)
    ensures inputs.conf.Failure? ==> r == Failure(ConfLoadFailed(inputs.conf.error))
    ensures inputs.conf.Success? && inputs.keytab.Failure? ==> r == Failure(KeytabLoadFailed(inputs.keytab.error))
    ensures inputs.conf.Success? && inputs.keytab.Success? && inputs.krbConfig.Failure? ==>
              r == Failure(KrbConfigLoadFailed(inputs.krbConfig.error))
    ensures r.Success? <==>
              inputs.conf.Success? && inputs.keytab.Success? && inputs.krbConfig.Success? && inputs.loginError.None?
    ensures inputs.conf.Success? && inputs.keytab.Success? && inputs.krbConfig.Success? && inputs.loginError.Some? ==>
              r == Failure(LoginFailed(inputs.loginError.value))
    ensures r.Success? ==>
              r.value == inputs.conf.value.(kerberos := Some(KerberosClient(userName, FindRealm(inputs.krbConfig.value),
                                                                             inputs.keytab.value, inputs.krbConfig.value)))
  {
    match inputs.conf
    case Failure(e) => Failure(ConfLoadFailed(e))
    case Success(fromConf) =>
      match inputs.keytab
      case Failure(e) => Failure(KeytabLoadFailed(e))
      case Success(ktab) =>
        match inputs.krbConfig
        case Failure(e) => Failure(KrbConfigLoadFailed(e))
        case Success(krbConf) =>
          var client := KerberosClient(userName, FindRealm(krbConf), ktab, krbConf);
          match inputs.loginError
          case Some(e) => Failure(LoginFailed(e))
          case None => Success(fromConf.(kerberos := Some(client)))
  }

  /** The acting user: the override variable when it is set and non-empty,
      otherwise the OS account, whose lookup may fail. */
  function SelectUser(env: Env): (r: Result<string, SessionError>)
    ensures GetEnv(env, UserVariable) != "" ==> r == Success(GetEnv(env, UserVariable))
    ensures GetEnv(env, UserVariable) == "" && env.osUser.Success? ==> r == Success(env.osUser.value)
    ensures GetEnv(env, UserVariable) == "" && env.osUser.Failure? ==> r == Failure(UserLookupFailed(env.osUser.error))
  {
    var overridden := GetEnv(env, UserVariable);
    if overridden != "" then Success(overridden)
    else
      match env.osUser
      case Success(name) => Success(name)
      case Failure(e) => Failure(UserLookupFailed(e))
  }

  /** The dialer put on both dial functions before connecting. */
  const LongDialer: Dialer := Dialer(DialSeconds, DialSeconds, DialSeconds, true)

  /** Both dial functions set to the same dual-stack dialer whose timeout,
      keep-alive and deadline are all `DialSeconds`; every other option is
      kept as it was. */
  function WithDialers(options: ClientOptions): (r: ClientOptions)
    ensures r.namenodeDialer.Some? && r.namenodeDialer == r.datanodeDialer
    ensures var d := r.namenodeDialer.value;
            d.timeout == DialSeconds && d.keepAlive == DialSeconds && d.deadline == DialSeconds && d.dualStack
    ensures r.addresses == options.addresses && r.user == options.user && r.kerberos == options.kerberos
  {
    options.(namenodeDialer := Some(LongDialer), datanodeDialer := Some(LongDialer))
  }

  /** `hdfs.NewClient` with its error wrapped as a connect error. */
  function Connect(env: Env, options: ClientOptions): (r: Result<Client, SessionError>)
    ensures r.Success? <==> env.newClient(options).Success?
    ensures r.Success? ==> r.value == env.newClient(options).value
    ensures r.Failure? ==> r.error == ConnectFailed(ConnectErrorPrefix + env.newClient(options).error)
  {
    match env.newClient(options)
    case Success(c) => Success(c)
    case Failure(e) => Failure(ConnectFailed(ConnectErrorPrefix + e))
  }

  /** 1 + 2 + ... summed over a sequence of delays. */
  function Sum(s: seq<nat>): nat
    decreases |s|
  {
    if |s| == 0 then 0 else Sum(s[..|s| - 1]) + s[|s| - 1]
  }

  /** Attempt `k` of the login is the first that succeeds. */
  ghost predicate FirstSuccessAt(userName: string, inputs: nat -> KerberosInputs, k: nat) {
    && 1 <= k <= MaxAttempts
    && ClientKerberos(userName, inputs(k)).Success?
    && forall j :: 1 <= j < k ==> ClientKerberos(userName, inputs(j)).Failure?
  }

  /** At most one attempt is the first to succeed. */
  lemma FirstSuccessUnique(userName: string, inputs: nat -> KerberosInputs, k: nat, m: nat)
    requires FirstSuccessAt(userName, inputs, k) && FirstSuccessAt(userName, inputs, m)
    ensures k == m
  {
  }

  /** Every one of the allowed attempts fails. */
  ghost predicate AllAttemptsFail(userName: string, inputs: nat -> KerberosInputs) {
    forall j :: 1 <= j <= MaxAttempts ==> ClientKerberos(userName, inputs(j)).Failure?
  }

  /** The login outcome of the retry loop, attempt by attempt from `i`: the
      first attempt that succeeds, or attempt `MaxAttempts` when none before
      it did. */
  function FirstLogin(userName: string, inputs: nat -> KerberosInputs, i: nat): Result<ClientOptions, AuthError>
    requires 1 <= i <= MaxAttempts
    decreases MaxAttempts - i
  {
    var attempt := ClientKerberos(userName, inputs(i));
    if attempt.Success? || i == MaxAttempts then attempt else FirstLogin(userName, inputs, i + 1)
  }

  /** Read from attempt `i`, the login outcome is that of attempt `k` when
      every attempt from `i` up to `k` failed and attempt `k` succeeded. */
  lemma {:induction false} FirstLoginFindsFirstSuccess(userName: string, inputs: nat -> KerberosInputs, i: nat, k: nat)
    requires 1 <= i <= k <= MaxAttempts
    requires ClientKerberos(userName, inputs(k)).Success?
    requires forall j :: i <= j < k ==> ClientKerberos(userName, inputs(j)).Failure?
    ensures FirstLogin(userName, inputs, i) == ClientKerberos(userName, inputs(k))
    decreases k - i
  {
    if i < k {
      assert ClientKerberos(userName, inputs(i)).Failure?;
      FirstLoginFindsFirstSuccess(userName, inputs, i + 1, k);
    }
  }

  /** Read from attempt `i`, when every attempt from `i` on fails the login
      outcome is the error of the last allowed attempt. */
  lemma {:induction false} FirstLoginAllFail(userName: string, inputs: nat -> KerberosInputs, i: nat)
    requires 1 <= i <= MaxAttempts
    requires forall j :: i <= j <= MaxAttempts ==> ClientKerberos(userName, inputs(j)).Failure?
    ensures FirstLogin(userName, inputs, i) == ClientKerberos(userName, inputs(MaxAttempts))
    ensures FirstLogin(userName, inputs, i).Failure?
    decreases MaxAttempts - i
  {
    if i < MaxAttempts {
      assert ClientKerberos(userName, inputs(i)).Failure?;
      FirstLoginAllFail(userName, inputs, i + 1);
    }
  }

  /** What `getClient` returns for `namenode`: the cached client; else the
      user lookup error; else the plain options connected when `hdfs_conf` is
      reported missing; else the last login error when no attempt succeeds,
      or the options of the first successful attempt connected. */
  function Acquire(cache: map<string, Client>, namenode: string, env: Env): Result<Client, SessionError> {
    if namenode in cache then Success(cache[namenode])
    else
      match SelectUser(env)
      case Failure(e) => Failure(e)
      case Success(user) =>
        if env.confDir == ConfDirMissing then Connect(env, WithDialers(ClientNormal(user, env)))
        else
          match FirstLogin(user, env.kerberos, 1)
          case Failure(e) => Failure(AuthFailed(e))
          case Success(options) => Connect(env, WithDialers(options))
  }

  /** The retry loop of `getClient`: attempt after attempt until one
      succeeds, at most `MaxAttempts` of them; after failed attempt `i` a line
      is logged and `i` seconds are slept. All-failing attempts return the
      last error, after 1 + ... + 1000 seconds of sleep. */
  method LoginWithRetry(userName: string, inputs: nat -> KerberosInputs)
    returns (r: Result<ClientOptions, AuthError>, tries: nat, slept: seq<nat>, log: seq<RetryLog>)
    ensures 1 <= tries <= MaxAttempts
    ensures r == ClientKerberos(userName, inputs(tries))
    ensures r == FirstLogin(userName, inputs, 1)
    ensures forall j :: 1 <= j < tries ==> ClientKerberos(userName, inputs(j)).Failure?
    ensures r.Failure? ==> tries == MaxAttempts
    ensures |slept| == (if r.Success? then tries - 1 else tries)
    ensures forall k :: 0 <= k < |slept| ==> slept[k] == k + 1
    ensures Sum(slept) == |slept| * (|slept| + 1) / 2
    ensures |log| == |slept|
    ensures forall k :: 0 <= k < |log| ==>
              log[k] == Attempted(k + 1, ClientKerberos(userName, inputs(k + 1)).error)
  {
    slept, log := [], [];
    tries := 1;
    r := ClientKerberos(userName, inputs(tries));
    while r.Failure?
      invariant 1 <= tries <= MaxAttempts
      invariant r == ClientKerberos(userName, inputs(tries))
      invariant FirstLogin(userName, inputs, 1) == FirstLogin(userName, inputs, tries)
      invariant forall j :: 1 <= j < tries ==> ClientKerberos(userName, inputs(j)).Failure?
      invariant |slept| == tries - 1 && |log| == tries - 1
      invariant forall k :: 0 <= k < |slept| ==> slept[k] == k + 1
      invariant Sum(slept) == |slept| * (|slept| + 1) / 2
      invariant forall k :: 0 <= k < |log| ==>
                  log[k] == Attempted(k + 1, ClientKerberos(userName, inputs(k + 1)).error)
      decreases MaxAttempts - tries
    {
      log := log + [Attempted(tries, r.error)];
      SumAppend(slept, tries);
      slept := slept + [tries];
      if tries == MaxAttempts {
        break;
      }
      FirstLoginSkips(userName, inputs, tries);
      assert forall j :: 1 <= j < tries + 1 ==> ClientKerberos(userName, inputs(j)).Failure?;
      tries := tries + 1;
      r := ClientKerberos(userName, inputs(tries));
    }
  }

  /** A failed attempt before the last passes the outcome on to the next. */
  lemma FirstLoginSkips(userName: string, inputs: nat -> KerberosInputs, i: nat)
    requires 1 <= i < MaxAttempts
    requires ClientKerberos(userName, inputs(i)).Failure?
    ensures FirstLogin(userName, inputs, i) == FirstLogin(userName, inputs, i + 1)
  {
  }

  lemma SumAppend(s: seq<nat>, x: nat)
    requires Sum(s) == |s| * (|s| + 1) / 2
    requires x == |s| + 1
    ensures Sum(s + [x]) == |s + [x]| * (|s + [x]| + 1) / 2
  {
    assert (s + [x])[..|s|] == s;
    assert |s| * (|s| + 1) + 2 * x == x * (x + 1);
  }

  /** `getClient`: a cached client is returned with no further work.
      Otherwise the user is chosen, the plain options are built, and, unless
      the configuration directory is reported missing, replaced by those of
      the first successful Kerberos attempt; the client is then constructed
      with long dial timeouts and cached under `namenode` only if that
      succeeds. */
  method GetClient(cache: map<string, Client>, namenode: string, env: Env)
    returns (cache': map<string, Client>, r: Result<Client, SessionError>, slept: seq<nat>)
    ensures r == Acquire(cache, namenode, env)
    ensures namenode in cache ==> cache' == cache && r == Success(cache[namenode]) && slept == []
    ensures r.Success? ==> cache' == cache[namenode := r.value]
    ensures r.Failure? ==> cache' == cache
    ensures namenode !in cache && SelectUser(env).Failure? ==> r == Failure(SelectUser(env).error) && slept == []
    ensures namenode !in cache && SelectUser(env).Success? && env.confDir == ConfDirMissing ==>
              && slept == []
              && r == Connect(env, WithDialers(ClientNormal(SelectUser(env).value, env)))
    ensures namenode !in cache && SelectUser(env).Success? && env.confDir != ConfDirMissing ==>
              && (AllAttemptsFail(SelectUser(env).value, env.kerberos) ==>
                    && r == Failure(AuthFailed(ClientKerberos(SelectUser(env).value, env.kerberos(MaxAttempts)).error))
                    && |slept| == MaxAttempts
                    && Sum(slept) == MaxAttempts * (MaxAttempts + 1) / 2)
              && (forall k: nat :: FirstSuccessAt(SelectUser(env).value, env.kerberos, k) ==>
                    && |slept| == k - 1
                    && Sum(slept) == (k - 1) * k / 2
                    && r == Connect(env, WithDialers(ClientKerberos(SelectUser(env).value, env.kerberos(k)).value)))
  {
    if namenode in cache {
      return cache, Success(cache[namenode]), [];
    }
    var user := SelectUser(env);
    if user.Failure? {
      return cache, Failure(user.error), [];
    }
    var options := ClientNormal(user.value, env);
    slept := [];
    if env.confDir != ConfDirMissing {
      var login, tries, log;
      login, tries, slept, log := LoginWithRetry(user.value, env.kerberos);
      if login.Failure? {
        return cache, Failure(AuthFailed(login.error)), slept;
      }
      options := login.value;
      assert FirstSuccessAt(user.value, env.kerberos, tries);
      forall k: nat | FirstSuccessAt(user.value, env.kerberos, k)
        ensures k == tries
      {
        FirstSuccessUnique(user.value, env.kerberos, k, tries);
      }
    }
    r := Connect(env, WithDialers(options));
    cache' := if r.Success? then cache[namenode := r.value] else cache;
  }

  /** The process-wide client cache, as an object owning the map. */
  class SessionManager {
    var cache: map<string, Client>

    constructor ()
      ensures cache == map[]
    {
      cache := map[];
    }

    /** Two requests for the same namenode get the same client: the first
        one that succeeds stores it, later ones find it. */
    method Get(namenode: string, env: Env) returns (r: Result<Client, SessionError>)
      modifies this
      ensures r == Acquire(old(cache), namenode, env)
      ensures namenode in old(cache) ==> r == Success(old(cache)[namenode]) && cache == old(cache)
      ensures r.Success? ==> cache == old(cache)[namenode := r.value]
      ensures r.Failure? ==> cache == old(cache)
    {
      var slept;
      cache, r, slept := GetClient(cache, namenode, env);
    }
  }
}
