/** Where the bridge's settings come from: `snapctl get` lookups, each
    trimmed and required to be non-empty, when running as a snap; the
    process environment otherwise. */
module SnapConfig {
  import opened Wrappers

  /** The code points `String.prototype.trim` removes: ECMAScript's
      WhiteSpace (tab, vertical tab, form feed, space, no-break space,
      byte order mark and the other Zs space separators) and its
      LineTerminator (line feed, carriage return, line and paragraph
      separators). */
  predicate IsJsWhitespace(c: char)
  {
    var n := c as int;
    || n == 0x09 || n == 0x0A || n == 0x0B || n == 0x0C || n == 0x0D
    || n == 0x20 || n == 0xA0 || n == 0x1680 || (0x2000 <= n <= 0x200A)
    || n == 0x2028 || n == 0x2029 || n == 0x202F || n == 0x205F
    || n == 0x3000 || n == 0xFEFF
  }

  /** Every character of `s[lo..hi]` is whitespace. */
  predicate WhitespaceBetween(s: string, lo: nat, hi: nat)
    requires lo <= hi <= |s|
  {
    forall k :: lo <= k < hi ==> IsJsWhitespace(s[k])
  }

  predicate AllWhitespace(s: string)
  {
    WhitespaceBetween(s, 0, |s|)
  }

  /** `r` is `s` with some whitespace cut from each end. */
  ghost predicate Strips(s: string, r: string)
  {
    exists i, j :: 0 <= i <= j <= |s| && s[i..j] == r && WhitespaceBetween(s, 0, i) && WhitespaceBetween(s, j, |s|)
  }

  /** No whitespace at either end. */
  predicate Tight(r: string)
  {
    r != [] ==> !IsJsWhitespace(r[0]) && !IsJsWhitespace(r[|r| - 1])
  }

  /** Where the leading whitespace of `s[i..]` ends. */
  function LeadingEnd(s: string, i: nat): (n: nat)
    requires i <= |s|
    ensures i <= n <= |s| && WhitespaceBetween(s, i, n)
    ensures n < |s| ==> !IsJsWhitespace(s[n])
    decreases |s| - i
  {
    if i < |s| && IsJsWhitespace(s[i]) then LeadingEnd(s, i + 1) else i
  }

  /** Where the trailing whitespace of `s[lo..j]` starts. */
  function TrailingStart(s: string, lo: nat, j: nat): (m: nat)
    requires lo <= j <= |s|
    ensures lo <= m <= j && WhitespaceBetween(s, m, j)
    ensures lo < m ==> !IsJsWhitespace(s[m - 1])
    decreases j
  {
    if lo < j && IsJsWhitespace(s[j - 1]) then TrailingStart(s, lo, j - 1) else j
  }

  /** `String.prototype.trim`: the result is `s` less its leading and
      trailing whitespace, has none at either end, and is empty exactly
      when `s` is all whitespace. */
  function Trim(s: string): (r: string)
    ensures Strips(s, r) && Tight(r)
    ensures r == [] <==> AllWhitespace(s)
  {
    var n := LeadingEnd(s, 0);
    var m := TrailingStart(s, n, |s|);
    assert n < m ==> s[n..m][0] == s[n] && s[n..m][m - n - 1] == s[m - 1];
    s[n..m]
  }

  /** The leading whitespace of `s[k..]` ends at the first character that
      is not whitespace. */
  lemma {:induction false} LeadingEndAt(s: string, k: nat, i: nat)
    requires k <= i < |s| && WhitespaceBetween(s, k, i) && !IsJsWhitespace(s[i])
    ensures LeadingEnd(s, k) == i
    decreases i - k
  {
    if k < i {
      LeadingEndAt(s, k + 1, i);
    }
  }

  /** The trailing whitespace of `s[lo..j]` starts after the last character
      that is not whitespace. */
  lemma {:induction false} TrailingStartAt(s: string, lo: nat, j: nat, m: nat)
    requires lo < m <= j <= |s| && WhitespaceBetween(s, m, j) && !IsJsWhitespace(s[m - 1])
    ensures TrailingStart(s, lo, j) == m
    decreases j
  {
    if m < j {
      TrailingStartAt(s, lo, j - 1, m);
    }
  }

  /** Trimming is determined by its contract: any tight string that `s`
      reduces to by cutting whitespace at the ends is `Trim(s)`. */
  lemma TrimUnique(s: string, r: string)
    requires Strips(s, r) && Tight(r) && r != []
    ensures r == Trim(s)
  {
    var i, j :| 0 <= i <= j <= |s| && s[i..j] == r && WhitespaceBetween(s, 0, i) && WhitespaceBetween(s, j, |s|);
    assert s[i] == r[0] && s[j - 1] == r[|r| - 1];
    LeadingEndAt(s, 0, i);
    TrailingStartAt(s, i, |s|, j);
  }

  /** Trimming twice is trimming once. */
  lemma TrimIdempotent(s: string)
    ensures Trim(Trim(s)) == Trim(s)
  {
    var t := Trim(s);
    if t != [] {
      assert t[0..|t|] == t;
      TrimUnique(t, t);
    }
  }

  /** What `exec('snapctl get <name>')` settles to. */
  datatype ExecResult = Stdout(out: string) | ExecFailed

  /** What `getSnapVariable` does: return a value, exit the process, or
      reject because the command itself failed. */
  datatype Lookup = Found(value: string) | Exit(code: int) | ExecRejected

  const MissingVariableExitCode: int := 1

  /** `getSnapVariable`: a failing `snapctl` rejects; the process exits
      with status 1 exactly when stdout is all whitespace (or empty);
      otherwise the value is stdout less the whitespace at its ends, and
      so is non-empty with no whitespace at either end. */
  function GetSnapVariable(result: ExecResult): (r: Lookup)
    ensures r.ExecRejected? <==> result.ExecFailed?
    ensures r.Exit? <==> result.Stdout? && AllWhitespace(result.out)
    ensures r.Exit? ==> r.code == MissingVariableExitCode
    ensures r.Found? ==> r.value != [] && Tight(r.value) && Strips(result.out, r.value)
  {
    match result
    case ExecFailed => ExecRejected
    case Stdout(out) =>
      if |Trim(out)| == 0 then Exit(MissingVariableExitCode) else Found(Trim(out))
  }

  /** The eight settings of the bridge. */
  datatype SettingId =
    | DatabaseHost | DatabasePort | DatabaseUser | DatabaseName | DatabasePassword
    | MqttUrl | MqttUser | MqttPassword

  /** The environment variable a setting is read from. */
  function EnvName(id: SettingId): string
  {
    match id
    case DatabaseHost => "DATABASE_HOST"
    case DatabasePort => "DATABASE_PORT"
    case DatabaseUser => "DATABASE_USER"
    case DatabaseName => "DATABASE_NAME"
    case DatabasePassword => "DATABASE_PASSWORD"
    case MqttUrl => "MQTT_URL"
    case MqttUser => "MQTT_USER"
    case MqttPassword => "MQTT_PASSWORD"
  }

  /** The snap key a setting is looked up under. */
  function SnapKey(id: SettingId): string
  {
    match id
    case DatabaseHost => "database.host"
    case DatabasePort => "database.port"
    case DatabaseUser => "database.user"
    case DatabaseName => "database.name"
    case DatabasePassword => "database.password"
    case MqttUrl => "mqtt.url"
    case MqttUser => "mqtt.user"
    case MqttPassword => "mqtt.password"
  }

  /** The settings record, each setting possibly `undefined`. */
  datatype Config = Config(
    databaseHost: Option<string>,
    databasePort: Option<string>,
    databaseUser: Option<string>,
    databaseName: Option<string>,
    databasePassword: Option<string>,
    mqttUrl: Option<string>,
    mqttUser: Option<string>,
    mqttPassword: Option<string>)
  {
    function Setting(id: SettingId): Option<string>
    {
      match id
      case DatabaseHost => databaseHost
      case DatabasePort => databasePort
      case DatabaseUser => databaseUser
      case DatabaseName => databaseName
      case DatabasePassword => databasePassword
      case MqttUrl => mqttUrl
      case MqttUser => mqttUser
      case MqttPassword => mqttPassword
    }
  }

  /** The order in which `getConfigFromSnap` looks the settings up. */
  const SnapOrder: seq<SettingId> :=
    [DatabaseHost, DatabasePort, DatabaseUser, DatabaseName, DatabasePassword, MqttPassword, MqttUrl, MqttUser]

  /** Looking up keys one after another until one does not give a value. */
  datatype Lookups = AllFound(values: seq<string>) | StoppedAt(index: nat, failure: Lookup)

  /** The awaited lookups in sequence: either every one gives a value, in
      order, or the first that does not stops the rest. */
  function LookupAll<K>(keys: seq<K>, lookup: K -> Lookup): (r: Lookups)
    ensures r.AllFound? ==>
      && |r.values| == |keys|
      && forall i :: 0 <= i < |keys| ==> lookup(keys[i]) == Found(r.values[i])
    ensures r.StoppedAt? ==>
      && r.index < |keys|
      && (forall i :: 0 <= i < r.index ==> lookup(keys[i]).Found?)
      && r.failure == lookup(keys[r.index])
      && !r.failure.Found?
    decreases |keys|
  {
    if keys == [] then AllFound([])
    else
      match lookup(keys[0])
      case Found(v) =>
        (match LookupAll(keys[1..], lookup)
         case AllFound(vs) => AllFound([v] + vs)
         case StoppedAt(i, failure) => StoppedAt(i + 1, failure))
      case failure => StoppedAt(0, failure)
  }

  /** All lookups give a value exactly when each of them does. */
  lemma AllFoundIffEachFound<K>(keys: seq<K>, lookup: K -> Lookup)
    ensures LookupAll(keys, lookup).AllFound? <==> forall i :: 0 <= i < |keys| ==> lookup(keys[i]).Found?
  {
    var r := LookupAll(keys, lookup);
    if r.StoppedAt? {
      assert !lookup(keys[r.index]).Found?;
    }
  }

  /** The first lookup that gives no value is where the sequence stops,
      whatever the lookups after it would give. */
  lemma StopsAtFirstFailure<K>(keys: seq<K>, lookup: K -> Lookup, k: nat)
    requires k < |keys|
    requires forall i :: 0 <= i < k ==> lookup(keys[i]).Found?
    requires !lookup(keys[k]).Found?
    ensures LookupAll(keys, lookup) == StoppedAt(k, lookup(keys[k]))
  {
  }

  /** Result of loading the configuration. */
  datatype ConfigOutcome = Loaded(config: Config) | Exited(code: int) | Rejected

  /** Every setting is present, non-empty and has no surrounding whitespace. */
  predicate Complete(c: Config)
  {
    forall id :: c.Setting(id).Some? && c.Setting(id).value != [] && Tight(c.Setting(id).value)
  }

  /** The record built from the values found, in the order of `SnapOrder`. */
  function ConfigOf(vs: seq<string>): Config
    requires |vs| == |SnapOrder|
  {
    Config(Some(vs[0]), Some(vs[1]), Some(vs[2]), Some(vs[3]), Some(vs[4]),
           Some(vs[6]), Some(vs[7]), Some(vs[5]))
  }

  /** One `getSnapVariable` per setting, each running `snapctl get <key>`. */
  function SnapLookup(exec: string -> ExecResult): SettingId -> Lookup
  {
    id => GetSnapVariable(exec(SnapKey(id)))
  }

  /** Where a setting stands in `SnapOrder`. */
  function SnapPosition(id: SettingId): (i: nat)
    ensures i < |SnapOrder| && SnapOrder[i] == id
  {
    match id
    case DatabaseHost => 0
    case DatabasePort => 1
    case DatabaseUser => 2
    case DatabaseName => 3
    case DatabasePassword => 4
    case MqttPassword => 5
    case MqttUrl => 6
    case MqttUser => 7
  }

  /** Each setting of the record built from the values found is the value
      found at that setting's own position in `SnapOrder`. */
  lemma ConfigOfByPosition(vs: seq<string>, id: SettingId)
    requires |vs| == |SnapOrder|
    ensures ConfigOf(vs).Setting(id) == Some(vs[SnapPosition(id)])
  {
  }

  /** The lookups in `SnapOrder` all give a value exactly when the lookup
      of every setting's key does. */
  lemma SnapLookupsAllFoundIff(exec: string -> ExecResult)
    ensures LookupAll(SnapOrder, SnapLookup(exec)).AllFound? <==> forall id :: GetSnapVariable(exec(SnapKey(id))).Found?
  {
    var lookup := SnapLookup(exec);
    AllFoundIffEachFound(SnapOrder, lookup);
    if forall id :: GetSnapVariable(exec(SnapKey(id))).Found? {
      forall i | 0 <= i < |SnapOrder| ensures lookup(SnapOrder[i]).Found? {
        assert lookup(SnapOrder[i]) == GetSnapVariable(exec(SnapKey(SnapOrder[i])));
      }
    } else {
      var id :| !GetSnapVariable(exec(SnapKey(id))).Found?;
      assert !lookup(SnapOrder[SnapPosition(id)]).Found?;
    }
  }

  /** When every lookup gives a value, the record built from the values
      holds, for each setting, the value found under that setting's own
      key. */
  lemma SnapLookupsSetting(exec: string -> ExecResult, id: SettingId)
    requires LookupAll(SnapOrder, SnapLookup(exec)).AllFound?
    ensures GetSnapVariable(exec(SnapKey(id))).Found?
    ensures ConfigOf(LookupAll(SnapOrder, SnapLookup(exec)).values).Setting(id)
      == Some(GetSnapVariable(exec(SnapKey(id))).value)
  {
    var lookup := SnapLookup(exec);
    var vs := LookupAll(SnapOrder, lookup).values;
    var i := SnapPosition(id);
    assert lookup(SnapOrder[i]) == Found(vs[i]);
    ConfigOfByPosition(vs, id);
  }

  /** So that record holds every setting's own value. */
  lemma SnapLookupsLoaded(exec: string -> ExecResult)
    requires LookupAll(SnapOrder, SnapLookup(exec)).AllFound?
    ensures forall id :: GetSnapVariable(exec(SnapKey(id))).Found?
    ensures forall id ::
              ConfigOf(LookupAll(SnapOrder, SnapLookup(exec)).values).Setting(id)
                == Some(GetSnapVariable(exec(SnapKey(id))).value)
  {
    forall id: SettingId
      ensures GetSnapVariable(exec(SnapKey(id))).Found?
      ensures ConfigOf(LookupAll(SnapOrder, SnapLookup(exec)).values).Setting(id)
        == Some(GetSnapVariable(exec(SnapKey(id))).value)
    {
      SnapLookupsSetting(exec, id);
    }
  }

  /** A record of values `getSnapVariable` returned is complete: each one
      is non-empty and has no whitespace at either end. */
  lemma FoundValuesComplete(c: Config, exec: string -> ExecResult)
    requires forall id :: GetSnapVariable(exec(SnapKey(id))).Found?
    requires forall id :: c.Setting(id) == Some(GetSnapVariable(exec(SnapKey(id))).value)
    ensures Complete(c)
  {
    forall id: SettingId
      ensures c.Setting(id).Some? && c.Setting(id).value != [] && Tight(c.Setting(id).value)
    {
      var v := GetSnapVariable(exec(SnapKey(id)));
      assert v.Found? && c.Setting(id) == Some(v.value);
    }
  }

  /** A lookup sequence that stops does so on a key whose `snapctl` call
      printed only whitespace (an exit) or failed (a rejection). */
  lemma SnapLookupsStopOnKey(exec: string -> ExecResult)
    requires LookupAll(SnapOrder, SnapLookup(exec)).StoppedAt?
    ensures LookupAll(SnapOrder, SnapLookup(exec)).failure.Exit? ==>
      exists id :: exec(SnapKey(id)).Stdout? && AllWhitespace(exec(SnapKey(id)).out)
    ensures !LookupAll(SnapOrder, SnapLookup(exec)).failure.Exit? ==>
      exists id :: exec(SnapKey(id)).ExecFailed?
  {
    var lookups := LookupAll(SnapOrder, SnapLookup(exec));
    var id := SnapOrder[lookups.index];
    assert lookups.failure == GetSnapVariable(exec(SnapKey(id)));
  }

  /** `getConfigFromSnap`: the record loads exactly when every setting's
      key has a value, and then holds each setting's own value, so that
      every setting is present, non-empty and free of surrounding
      whitespace. Otherwise the process exits with status 1 only because
      some key printed nothing but whitespace, and the promise rejects only
      because some `snapctl` call failed. */
  function GetConfigFromSnap(exec: string -> ExecResult): (r: ConfigOutcome)
    ensures r.Loaded? <==> forall id :: GetSnapVariable(exec(SnapKey(id))).Found?
    ensures r.Loaded? ==> forall id :: r.config.Setting(id) == Some(GetSnapVariable(exec(SnapKey(id))).value)
    ensures r.Loaded? ==> Complete(r.config)
    ensures r.Exited? ==> r.code == MissingVariableExitCode
    ensures r.Exited? ==> exists id :: exec(SnapKey(id)).Stdout? && AllWhitespace(exec(SnapKey(id)).out)
    ensures r.Rejected? ==> exists id :: exec(SnapKey(id)).ExecFailed?
  {
    SnapLookupsAllFoundIff(exec);
    var lookups := LookupAll(SnapOrder, SnapLookup(exec));
    if lookups.AllFound? then
      SnapLookupsLoaded(exec);
      FoundValuesComplete(ConfigOf(lookups.values), exec);
      Loaded(ConfigOf(lookups.values))
    else
      SnapLookupsStopOnKey(exec);
      if lookups.failure.Exit? then Exited(MissingVariableExitCode) else Rejected
  }

  /** The first setting in `SnapOrder` whose lookup gives no value decides
      the outcome, whatever the lookups after it would give: exit status 1
      on an empty value, a rejection when `snapctl` fails. */
  lemma FirstFailingKeyDecides(exec: string -> ExecResult, k: nat)
    requires k < |SnapOrder|
    requires forall i :: 0 <= i < k ==> GetSnapVariable(exec(SnapKey(SnapOrder[i]))).Found?
    requires !GetSnapVariable(exec(SnapKey(SnapOrder[k]))).Found?
    ensures GetConfigFromSnap(exec) ==
      if GetSnapVariable(exec(SnapKey(SnapOrder[k]))).Exit? then Exited(MissingVariableExitCode) else Rejected
  {
    StopsAtFirstFailure(SnapOrder, SnapLookup(exec), k);
  }

  function Get(env: map<string, string>, name: string): Option<string>
  {
    if name in env then Some(env[name]) else None
  }

  /** The non-snap record: each setting is the environment variable of its
      name, `undefined` when that is not set. */
  function EnvConfig(env: map<string, string>): (c: Config)
    ensures forall id :: c.Setting(id) == if EnvName(id) in env then Some(env[EnvName(id)]) else None
  {
    Config(Get(env, "DATABASE_HOST"), Get(env, "DATABASE_PORT"), Get(env, "DATABASE_USER"),
           Get(env, "DATABASE_NAME"), Get(env, "DATABASE_PASSWORD"),
           Get(env, "MQTT_URL"), Get(env, "MQTT_USER"), Get(env, "MQTT_PASSWORD"))
  }

  /** JavaScript's `!!` on an environment variable's value: `undefined`
      and the empty string are falsy, every other string is truthy. */
  predicate Truthy(v: Option<string>)
  {
    v.Some? && v.value != ""
  }

  /** `IS_SNAP = !!(process.env.SNAP_NAME)`: it runs as a snap exactly when
      `SNAP_NAME` is set to a non-empty string. */
  predicate IsSnap(processEnv: map<string, string>): (b: bool)
    ensures b <==> "SNAP_NAME" in processEnv && |processEnv["SNAP_NAME"]| > 0
  {
    Truthy(Get(processEnv, "SNAP_NAME"))
  }

  /** The environment after `dotenv` has loaded a `.env` file: its entries
      are added, but a variable the process already has is kept. */
  function WithDotenv(processEnv: map<string, string>, dotenvFile: map<string, string>): (env: map<string, string>)
    ensures env.Keys == processEnv.Keys + dotenvFile.Keys
    ensures forall name :: name in processEnv ==> env[name] == processEnv[name]
    ensures forall name :: name in dotenvFile && name !in processEnv ==> env[name] == dotenvFile[name]
  {
    dotenvFile + processEnv
  }

  /** The startup choice between the two sources, made on the process
      environment before any `.env` file is read. The environment path
      never fails, even with settings missing; only the snap path can stop
      the process. */
  function LoadConfig(processEnv: map<string, string>, dotenvFile: map<string, string>, exec: string -> ExecResult)
    : (r: ConfigOutcome)
    ensures !IsSnap(processEnv) ==> r.Loaded?
    ensures !IsSnap(processEnv) ==>
      forall id :: r.config.Setting(id) ==
        (if EnvName(id) in processEnv then Some(processEnv[EnvName(id)])
         else if EnvName(id) in dotenvFile then Some(dotenvFile[EnvName(id)])
         else None)
    ensures IsSnap(processEnv) ==> (r.Loaded? <==> forall id :: GetSnapVariable(exec(SnapKey(id))).Found?)
    ensures IsSnap(processEnv) && r.Loaded? ==>
      forall id :: r.config.Setting(id) == Some(GetSnapVariable(exec(SnapKey(id))).value)
    ensures r.Loaded? && !Complete(r.config) ==> !IsSnap(processEnv)
    ensures r.Exited? ==> IsSnap(processEnv) && r.code == MissingVariableExitCode
    ensures r.Rejected? ==> IsSnap(processEnv)
  {
    if IsSnap(processEnv) then GetConfigFromSnap(exec) else Loaded(EnvConfig(WithDotenv(processEnv, dotenvFile)))
  }

  /** On the environment path a setting comes from the process environment
      when it is set there, from the `.env` file otherwise, and is
      `undefined` when neither has it. */
  lemma DotenvSetting(processEnv: map<string, string>, dotenvFile: map<string, string>, id: SettingId)
    ensures EnvConfig(WithDotenv(processEnv, dotenvFile)).Setting(id) ==
      if EnvName(id) in processEnv then Some(processEnv[EnvName(id)])
      else if EnvName(id) in dotenvFile then Some(dotenvFile[EnvName(id)])
      else None
  {
  }
}
