/** The module-level state of the bridge (`config`, `dbPool`,
    `mqttClient`) and the startup sequence that fills it: load the
    configuration, acquire the pool and then the client, subscribe, and
    only then register the message listener. */
module Startup {
  import opened Wrappers
  import opened Json
  import opened Sink
  import opened Handler
  import opened SnapConfig

  /** The topic pattern the bridge subscribes to. */
  const IngestTopic: string := "iot/#"

  /** An opaque handle on a pool or client the foreign library returned. */
  type Handle = nat

  /** How an awaited acquisition settled. */
  datatype Acquire = Acquired(handle: Handle) | AcquireFailed

  /** How `main` ends. */
  datatype MainResult =
    | ConnectFailed     // pool or client rejected: logged, main returns
    | SubscribeFailed   // the subscribe callback got an error: main's promise rejects
    | Listening         // subscribed and the message listener registered

  /** How the whole startup ends. */
  datatype StartResult = ConfigExited(code: int) | ConfigRejected | Ran(main: MainResult)

  class Bridge {
    var config: Option<Config>
    var dbPool: Option<Handle>
    var mqttClient: Option<Handle>
    var subscriptions: seq<string>
    var listening: bool
    /** The rows handed to `dbPool.execute`, oldest first. */
    var executed: seq<Row>

    /** The listener only exists once configuration, pool, client and the
        subscription are all in place. */
    predicate Valid()
      reads this
    {
      listening ==> config.Some? && dbPool.Some? && mqttClient.Some? && IngestTopic in subscriptions
    }

    /** The state before the startup function runs: nothing assigned. */
    constructor ()
      ensures Valid()
      ensures config == None && dbPool == None && mqttClient == None
      ensures subscriptions == [] && !listening && executed == []
    {
      config := None;
      dbPool := None;
      mqttClient := None;
      subscriptions := [];
      listening := false;
      executed := [];
    }

    /** The first half of the startup function: `config` is assigned only
        when loading it completes. */
    method LoadConfiguration(processEnv: map<string, string>, dotenvFile: map<string, string>, exec: string -> ExecResult)
      returns (r: ConfigOutcome)
      requires Valid()
      modifies this`config
      ensures Valid()
      ensures r == LoadConfig(processEnv, dotenvFile, exec)
      ensures config == if r.Loaded? then Some(r.config) else old(config)
    {
      r := LoadConfig(processEnv, dotenvFile, exec);
      if r.Loaded? {
        config := Some(r.config);
      }
    }

    /** `main`: the pool is acquired first and the client only if that
        worked; a failure of either returns before anything is subscribed.
        The listener is registered only after the subscription is granted. */
    method RunMain(pool: Acquire, client: Acquire, granted: bool) returns (r: MainResult)
      requires Valid() && config.Some?
      modifies this`dbPool, this`mqttClient, this`subscriptions, this`listening
      ensures Valid()
      ensures r == ConnectFailed <==> pool.AcquireFailed? || client.AcquireFailed?
      ensures r == Listening <==> pool.Acquired? && client.Acquired? && granted
      ensures dbPool == if pool.Acquired? then Some(pool.handle) else old(dbPool)
      ensures mqttClient == if pool.Acquired? && client.Acquired? then Some(client.handle) else old(mqttClient)
      ensures subscriptions == if r == Listening then old(subscriptions) + [IngestTopic] else old(subscriptions)
      ensures listening == (old(listening) || r == Listening)
    {
      if pool.AcquireFailed? {
        return ConnectFailed;
      }
      dbPool := Some(pool.handle);
      if client.AcquireFailed? {
        return ConnectFailed;
      }
      mqttClient := Some(client.handle);
      if !granted {
        return SubscribeFailed;
      }
      subscriptions := subscriptions + [IngestTopic];
      listening := true;
      r := Listening;
    }

    /** The startup function: load the configuration and, when that
        completes, run `main` with it. When loading stops the process or
        rejects, `main` never runs and nothing else is assigned. */
    method Start(processEnv: map<string, string>, dotenvFile: map<string, string>, exec: string -> ExecResult,
                 pool: Acquire, client: Acquire, granted: bool)
      returns (r: StartResult)
      requires Valid() && !listening
      modifies this`config, this`dbPool, this`mqttClient, this`subscriptions, this`listening
      ensures Valid()
      ensures r.ConfigExited? <==> LoadConfig(processEnv, dotenvFile, exec).Exited?
      ensures r.ConfigExited? ==> r.code == MissingVariableExitCode
      ensures r.ConfigRejected? <==> LoadConfig(processEnv, dotenvFile, exec).Rejected?
      ensures r.Ran? <==> LoadConfig(processEnv, dotenvFile, exec).Loaded?
      ensures r.Ran? ==> config == Some(LoadConfig(processEnv, dotenvFile, exec).config)
      ensures r.Ran? ==> (r.main == ConnectFailed <==> pool.AcquireFailed? || client.AcquireFailed?)
      ensures r.Ran? ==> (r.main == Listening <==> pool.Acquired? && client.Acquired? && granted)
      ensures r.Ran? ==> dbPool == if pool.Acquired? then Some(pool.handle) else old(dbPool)
      ensures r.Ran? ==>
        mqttClient == if pool.Acquired? && client.Acquired? then Some(client.handle) else old(mqttClient)
      ensures subscriptions == if r == Ran(Listening) then old(subscriptions) + [IngestTopic] else old(subscriptions)
      ensures listening <==> r == Ran(Listening)
      ensures !r.Ran? ==> config == old(config) && dbPool == old(dbPool) && mqttClient == old(mqttClient)
    {
      var loaded := LoadConfiguration(processEnv, dotenvFile, exec);
      match loaded
      case Exited(code) =>
        r := ConfigExited(code);
      case Rejected =>
        r := ConfigRejected;
      case Loaded(_) =>
        var m := RunMain(pool, client, granted);
        r := Ran(m);
    }

    /** One delivery to the registered listener. An insert is handed to the
        pool; a drop or a fault hands nothing. */
    method OnMessage(parsed: Option<JValue>, now: Timestamp) returns (o: Outcome)
      requires Valid() && listening
      modifies this`executed
      ensures Valid()
      ensures o == HandleMessage(parsed, now)
      ensures executed == if o.Insert? then old(executed) + [o.row] else old(executed)
    {
      o := HandleMessage(parsed, now);
      if o.Insert? {
        executed := executed + [o.row];
      }
    }
  }
}
