# iot-data-saver: the ingestion decisions, in Dafny

iot-data-saver is a bridge from MQTT to MySQL. It subscribes to `iot/#`.
For each message it parses the payload as JSON and checks the message's
shape. It then inserts one row into the table `iot_data_1`. Its settings
come either from the environment or, when it runs as a snap, from
`snapctl get`.

This project models the decisions inside that plumbing:

- `Json` defines JSON values and the two JavaScript operations the bridge
  applies to them: property access and `typeof`.
- `Message` models `isValidMessage`. It also gives a typed decoding of the
  same five properties (`ReadEvent`) as an independent reference.
- `Sink` models the projection of a valid message onto the row. It also
  models the positional parameters of the INSERT statement.
- `Handler` models the `message` listener: parse, then validate, then
  insert. It also holds the guarded variant described under Findings.
- `SnapConfig` models `String.prototype.trim`, `getSnapVariable`,
  `getConfigFromSnap`, the environment path and the choice between the two
  paths.
- `Startup` has a class `Bridge` holding the module-level state:
  `config`, `dbPool`, `mqttClient`, the granted subscriptions, whether the
  listener is registered, and the rows handed to the pool. Its methods model
  startup and message delivery.

These are inputs to the model, not computed by it:
- the result of `JSON.parse` (`Option<JValue>`; `None` means it threw);
- the clock reading at insert time;
- what each `snapctl get` settled to;
- the process environment, and the variables a `.env` file defines;
- how each pool, client and subscribe request settled.

## Model

| member | source | states |
|---|---|---|
| Json.Property | index.js:112-116 | a property read gives a value exactly when the message is an object with that own key, and then that key's value; every other read is `undefined` |
| Json.TypeOf | index.js:112-116 | `typeof` is "undefined" exactly for a missing property; "object" exactly for `null`, an array or an object; "boolean", "number" and "string" exactly for those JSON values |
| Message.IsValidMessage | index.js:110-117 | Throws exactly on `null`; otherwise valid exactly when `type`, `place`, `sensorName` are strings, `isChangeEvt` a boolean and `value` a number or boolean, i.e. exactly when the message carries a typed event |
| Message.ReadEvent | index.js:111-116 | the decoded event is the one the message's five properties hold, and it is the only such event |
| Message.EncodedEventIsValid | index.js:111-116 | any object holding an event's five members, whatever else it holds, is valid and decodes back to that event |
| Message.DecodedEventIsContained | index.js:111-116 | a decoded event's encoding is contained, member for member, in the message it came from |
| Message.ValidityIgnoresOtherFields | index.js:111-116 | two objects that agree on the five properties get the same verdict and the same event |
| Message.OtherPropertyIsIrrelevant | index.js:111-116 | adding, changing or removing any other property leaves the verdict unchanged |
| Message.MissingPropertyIsInvalid | index.js:111-116 | a message without one of the five properties is invalid (reads as `undefined`) |
| Message.NonObjectIsInvalid | index.js:110-117 | a bare number, string, boolean or array is invalid and does not throw |
| Sink.ProjectRow | index.js:119-126 | a boolean `value` fills `dataBool` and leaves `dataDouble` null; a number does the reverse; exactly one is non-null; `isChangeEvt` comes from the message; the row equals the event's row |
| Sink.InsertParams | index.js:123-126 | the seven parameters line up, position for position, with the seven columns of the INSERT |
| Sink.InsertBindsMessage | index.js:120-126 | for a valid message the text columns get its strings, `is_change_evt` its own `isChangeEvt`, the timestamp the call time, and exactly one value column is NULL |
| Handler.HandleMessage | index.js:46-62 | a parse failure drops with no insert; a parsed `null` faults; an insert happens exactly when parsing and validation both succeed, with the event's row |
| Handler.NullPayloadFaults | index.js:110-112 | the payload `null` makes the listener fault instead of dropping the message |
| Handler.IsValidMessageGuarded | index.js:110-117 | the null-guarded test accepts exactly the messages that carry an event and agrees with `isValidMessage` on every non-null value |
| Handler.HandleMessageGuarded | index.js:46-62 | the listener with the guarded test never faults; it inserts exactly the messages that carry an event |
| Handler.GuardedAgreesExceptOnNull | index.js:46-62 | the guarded listener differs from the one as written only on the payload `null`, which it drops as invalid |
| Handler.OutcomeIgnoresClockExceptTimestamp | index.js:119-126 | whether a message is inserted does not depend on the clock; the clock changes only the row's timestamp |
| Handler.NumericReadingScenario | index.js:46-62 | a temperature reading of 21.5 is stored in `data_double` with `data_bool` NULL |
| Handler.BooleanReadingScenario | index.js:46-62 | a door reading of `true` is stored in `data_bool` with `data_double` NULL |
| Handler.MissingFieldsScenario | index.js:56-59 | a message with only `type` and `place` is dropped without an insert |
| SnapConfig.Trim | index.js:145 | `trim()` returns the input less its leading and trailing whitespace, has no whitespace at either end, and is empty exactly when the input is all whitespace |
| SnapConfig.LeadingEndAt | index.js:145 | the leading whitespace that `trim()` cuts ends at the first character that is not whitespace |
| SnapConfig.TrailingStartAt | index.js:145 | the trailing whitespace that `trim()` cuts starts after the last character that is not whitespace |
| SnapConfig.TrimUnique | index.js:145 | any whitespace-free-ended string obtained by cutting whitespace from the ends equals `trim()`'s result |
| SnapConfig.TrimIdempotent | index.js:145-149 | trimming a trimmed value changes nothing |
| SnapConfig.GetSnapVariable | index.js:143-151 | a failing `snapctl` rejects and nothing else does; the process exits with status 1 exactly when stdout is all whitespace; a returned value is non-empty, has no surrounding whitespace and is stdout less that whitespace |
| SnapConfig.LookupAll | index.js:129-141 | the awaited lookups in order: all give values, in order, or the sequence stops at the first that does not |
| SnapConfig.AllFoundIffEachFound | index.js:129-141 | the lookups all complete exactly when each lookup gives a value |
| SnapConfig.StopsAtFirstFailure | index.js:129-141 | the sequence stops at the first failing lookup, whatever the later ones would give |
| SnapConfig.SnapPosition | index.js:131-139 | every setting has its place in the order the keys are looked up |
| SnapConfig.GetConfigFromSnap | index.js:129-150 | the record loads exactly when every key's lookup gives a value, and then each setting holds the value found under its own key and the record is complete; an exit has status 1 and happens only when some key printed nothing but whitespace; a rejection happens only when some `snapctl` call failed |
| SnapConfig.ConfigOfByPosition | index.js:130-140 | each setting of the record is the value found at that setting's own place in the lookup order (the MQTT keys are looked up password first) |
| SnapConfig.SnapLookupsAllFoundIff | index.js:129-141 | the eight awaited lookups all give a value exactly when the lookup of every setting's own key does |
| SnapConfig.SnapLookupsSetting | index.js:131-139 | when all lookups give values, each setting of the record holds the value found under its own key (`DATABASE_HOST` under `database.host`, ...) |
| SnapConfig.SnapLookupsLoaded | index.js:130-140 | the same for all eight settings at once |
| SnapConfig.FoundValuesComplete | index.js:143-150 | a record of values `getSnapVariable` returned has every setting present, non-empty and without surrounding whitespace |
| SnapConfig.SnapLookupsStopOnKey | index.js:143-150 | a lookup sequence stops only on a key whose `snapctl` call printed nothing but whitespace (exit) or failed (rejection) |
| SnapConfig.FirstFailingKeyDecides | index.js:131-147 | the first key with no value decides the outcome: exit 1 for an empty value, a rejection for a failing `snapctl` |
| SnapConfig.IsSnap | index.js:7 | `IS_SNAP` holds exactly when `SNAP_NAME` is set in the process environment to a non-empty string |
| SnapConfig.EnvConfig | index.js:22-32 | each setting is the environment variable of its own name when set and `undefined` when not |
| SnapConfig.WithDotenv | index.js:20 | loading a `.env` file adds its variables but keeps every variable the process already has |
| SnapConfig.LoadConfig | index.js:7-33 | with `IS_SNAP` decided on the process environment before any `.env` file is read: off the snap, the record always loads and each setting comes from the process environment, else the `.env` file, else is `undefined`; on the snap, it loads exactly when every key has a value, each setting holding its own key's value; an incomplete record can only come from the environment path; exits (status 1) and rejections only happen on the snap |
| SnapConfig.DotenvSetting | index.js:20-32 | a setting read after `.env` is loaded comes from the process environment when set there, else from the `.env` file, else is `undefined` |
| Startup.Bridge.constructor | index.js:9-12 | before startup `config` is unassigned, `dbPool` and `mqttClient` are `null`, nothing is subscribed, no listener is registered and nothing has been inserted |
| Startup.Bridge.LoadConfiguration | index.js:14-33 | `config` is assigned exactly when loading completes |
| Startup.Bridge.RunMain | index.js:35-45 | the client is acquired only after the pool; a failure of either returns before subscribing; the listener is registered exactly when both are acquired and `iot/#` is granted |
| Startup.Bridge.Start | index.js:14-45 | a loading exit (status 1) or rejection is returned as such and then nothing else is assigned; otherwise `config` holds the loaded record and `main` runs: it fails to connect exactly when the pool or the client is not acquired, the pool and client are assigned as they are acquired, and the listener is registered and `iot/#` subscribed exactly when both are acquired and the subscription is granted |
| Startup.Bridge.OnMessage | index.js:46-62 | a delivery hands the pool exactly the row of an insert outcome, and nothing for a drop or a fault |

## Left out

- MQTT connection and subscription (index.js:76-108) are not modelled. How the connect, error and subscribe callbacks settle is an input (`Acquire`, `granted`).
- The listener bookkeeping in `getMqttClient` is not modelled. As written, `resolve(client, clearListeners)` never calls `clearListeners`, so the `connect` and `error` listeners stay registered.
- Pool creation (index.js:65-74) is not modelled, and neither are its settings or connection limit.
- The `dbPool.execute` call is not modelled; the model keeps only the row it is handed. Whether the insert succeeds is outside the model. As written, nothing catches a rejected insert: it escapes the async listener as an unhandled rejection instead of being logged and dropped.
- `JSON.parse` and `Buffer.toString` are not modelled. The parse result is an input, and duplicate keys and number syntax are the parser's business.
- `snapctl get` itself is not modelled. What it settles to is an input per key.
- Reading and parsing the `.env` file is not modelled. Its variables are an input map; only the rule that they never override the process environment is modelled (`SnapConfig.WithDotenv`). `process.env` is an input map of strings.
- `new Date(Date.now())` is not modelled. The timestamp is a parameter.
- `process.exit`, `console.log` and `console.error` appear only as outcome tags. Log messages are not modelled.
- Numbers are `real` and are only passed through. IEEE-754 doubles are not modelled.
- Strings are sequences of Unicode scalar values, where JavaScript uses UTF-16 code units. Every whitespace character `trim` removes is a single code unit, so trimming and the emptiness test are unaffected. Lone surrogates cannot be represented.
- Json.Property reads only own properties of parsed objects. Properties inherited from prototypes are not modelled; none of the five keys the bridge reads is defined by any built-in prototype.
- Async scheduling and interleaving of listener invocations are not modelled. Each delivery is one call.
- Startup.Bridge.OnMessage and Startup.Bridge.Start: what the runtime does with an unhandled promise rejection is not modelled. These are a `Fault` outcome of the listener (index.js:46, 112), a rejected insert (index.js:61), a rejected configuration load (index.js:17) and a refused subscription (index.js:44, 153). Recent Node versions end the process on such a rejection, older ones only warn. The model assumes the process goes on: after a `Fault` the bridge stays `listening` with its state as after a drop.
- Startup.Bridge.RunMain does not pass `config` to the pool and client. Their acquisition results are inputs.

## Findings

| source | as written | input that shows it | evidently intended | confidence | as-written member | corrected member |
|---|---|---|---|---|---|---|
| index.js:110-112 | `isValidMessage` reads `message.type` without checking `message` for `null`. The TypeError escapes the async listener as an unhandled rejection. | MQTT payload `null`, which is valid JSON | drop the message as invalid, like every other payload that is not an event | not executed; high | Handler.NullPayloadFaults (about Handler.HandleMessage) | Handler.HandleMessageGuarded |

`Handler.HandleMessage` and `Startup.Bridge.OnMessage` model the listener
as written: a `null` payload gives the outcome `Fault`, the unhandled
rejection. `Handler.HandleMessageGuarded` is the intended listener. It never
faults and differs from the listener as written only on `null`
(`Handler.GuardedAgreesExceptOnNull`).

Three facts about the code shape the model:
- A rejected insert is not caught anywhere (see Left out).
- `is_change_evt` is always bound to the message's own `isChangeEvt` (index.js:126; `Sink.InsertBindsMessage`).
- Only the snap path checks the settings: `getSnapVariable` stops on an empty value (index.js:145-147), while the environment path (index.js:22-32) loads `undefined` settings without failing (`SnapConfig.LoadConfig`).
