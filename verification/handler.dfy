/** The MQTT `message` listener: parse, validate, then insert, each stage
    stopping the ones after it when it fails. */
module Handler {
  import opened Wrappers
  import opened Json
  import opened Message
  import opened Sink

  /** What one delivery leads to. `Fault` is an exception escaping the
      async listener (an unhandled promise rejection). */
  datatype Outcome =
    | DropParseError   // JSON.parse threw: logged with the topic, nothing inserted
    | DropInvalid      // isValidMessage returned false: logged, nothing inserted
    | Insert(row: Row) // saveMessageToDatabase binds this row
    | Fault            // isValidMessage threw

  /** The listener as written. `parsed` is what `JSON.parse` gave for the
      payload (`None`: it threw); `now` is the clock when the insert runs. */
  function HandleMessage(parsed: Option<JValue>, now: Timestamp): (r: Outcome)
    ensures r == DropParseError <==> parsed.None?
    ensures r.Insert? <==> parsed.Some? && ReadEvent(parsed.value).Some?
    ensures r.Insert? ==> r.row == RowOf(ReadEvent(parsed.value).value, now)
    ensures r == Fault <==> parsed == Some(JNull)
  {
    match parsed
    case None => DropParseError
    case Some(message) =>
      match IsValidMessage(message)
      case Throws => Fault
      case Invalid => DropInvalid
      case Valid => Insert(ProjectRow(message, now))
  }

  /** The payload `null` parses, and the validator then reads `null.type`:
      the listener faults instead of dropping the message. */
  lemma NullPayloadFaults(now: Timestamp)
    ensures HandleMessage(Some(JNull), now) == Fault
  {
  }

  /** The validity test with the `null` case guarded, as the rest of the
      pipeline needs it: `message !== null && isValidMessage(message)`. */
  function IsValidMessageGuarded(message: JValue): (r: bool)
    ensures r <==> ReadEvent(message).Some?
    ensures message != JNull ==> (r <==> IsValidMessage(message) == Valid)
  {
    !message.JNull? && IsValidMessage(message) == Valid
  }

  /** The listener with the guarded test: every delivery ends in a drop or
      an insert, never in a fault. */
  function HandleMessageGuarded(parsed: Option<JValue>, now: Timestamp): (r: Outcome)
    ensures r != Fault
    ensures r == DropParseError <==> parsed.None?
    ensures r.Insert? <==> parsed.Some? && ReadEvent(parsed.value).Some?
    ensures r.Insert? ==> r.row == RowOf(ReadEvent(parsed.value).value, now)
  {
    match parsed
    case None => DropParseError
    case Some(message) =>
      if IsValidMessageGuarded(message) then Insert(ProjectRow(message, now)) else DropInvalid
  }

  /** The guarded listener differs from the one as written only on the
      payload `null`. */
  lemma GuardedAgreesExceptOnNull(parsed: Option<JValue>, now: Timestamp)
    ensures parsed != Some(JNull) ==> HandleMessageGuarded(parsed, now) == HandleMessage(parsed, now)
    ensures parsed == Some(JNull) ==> HandleMessageGuarded(parsed, now) == DropInvalid
  {
  }

  /** Handling is a function of the parsed payload and the clock only: the
      same payload handled twice at the same time gives the same outcome,
      and an insert's row differs only in its timestamp across times. */
  lemma OutcomeIgnoresClockExceptTimestamp(parsed: Option<JValue>, t1: Timestamp, t2: Timestamp)
    ensures HandleMessage(parsed, t1).Insert? == HandleMessage(parsed, t2).Insert?
    ensures HandleMessage(parsed, t1).Insert? ==>
      HandleMessage(parsed, t1).row.(timestamp := t2) == HandleMessage(parsed, t2).row
  {
  }

  /** {"type":"temp","place":"kitchen","sensorName":"s1","isChangeEvt":false,"value":21.5}
      is stored with data_double 21.5 and data_bool NULL. */
  lemma NumericReadingScenario(now: Timestamp)
    ensures HandleMessage(Some(JObj(map["type" := JStr("temp"), "place" := JStr("kitchen"),
              "sensorName" := JStr("s1"), "isChangeEvt" := JBool(false), "value" := JNum(21.5)])), now)
            == Insert(Row("kitchen", "temp", "s1", None, Some(21.5), false, now))
  {
    var m := JObj(map["type" := JStr("temp"), "place" := JStr("kitchen"),
              "sensorName" := JStr("s1"), "isChangeEvt" := JBool(false), "value" := JNum(21.5)]);
    assert Carries(m, Event("temp", "kitchen", "s1", false, NumReading(21.5)));
  }

  /** {"type":"door","place":"hall","sensorName":"d1","isChangeEvt":true,"value":true}
      is stored with data_bool true and data_double NULL. */
  lemma BooleanReadingScenario(now: Timestamp)
    ensures HandleMessage(Some(JObj(map["type" := JStr("door"), "place" := JStr("hall"),
              "sensorName" := JStr("d1"), "isChangeEvt" := JBool(true), "value" := JBool(true)])), now)
            == Insert(Row("hall", "door", "d1", Some(true), None, true, now))
  {
    var m := JObj(map["type" := JStr("door"), "place" := JStr("hall"),
              "sensorName" := JStr("d1"), "isChangeEvt" := JBool(true), "value" := JBool(true)]);
    assert Carries(m, Event("door", "hall", "d1", true, BoolReading(true)));
  }

  /** {"type":"temp","place":"kitchen"} lacks three properties and is
      dropped without an insert. */
  lemma MissingFieldsScenario(now: Timestamp)
    ensures HandleMessage(Some(JObj(map["type" := JStr("temp"), "place" := JStr("kitchen")])), now) == DropInvalid
  {
    MissingPropertyIsInvalid(map["type" := JStr("temp"), "place" := JStr("kitchen")], "value");
  }
}
