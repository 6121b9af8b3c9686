/** Shape validation of an incoming MQTT message (`isValidMessage`) and the
    typed sensor event that a valid message carries. */
module Message {
  import opened Wrappers
  import opened Json

  /** What `isValidMessage(message)` does: return true, return false, or
      throw a `TypeError` (reading a property of `null`). */
  datatype Verdict = Valid | Invalid | Throws

  /** The only properties `isValidMessage` reads. */
  const MessageKeys: set<string> := {"type", "place", "sensorName", "isChangeEvt", "value"}

  /** The value of a reading: a boolean or a number, nothing else. */
  datatype Reading = BoolReading(b: bool) | NumReading(n: Num)

  /** A decoded sensor event: the five fields a valid message carries. */
  datatype Event = Event(eventType: string, place: string, sensorName: string, isChangeEvt: bool, value: Reading)

  function ReadingJson(v: Reading): JValue
  {
    match v
    case BoolReading(b) => JBool(b)
    case NumReading(n) => JNum(n)
  }

  /** The JSON members that encode an event. */
  function EventFields(e: Event): map<string, JValue>
  {
    map["type" := JStr(e.eventType), "place" := JStr(e.place), "sensorName" := JStr(e.sensorName),
        "isChangeEvt" := JBool(e.isChangeEvt), "value" := ReadingJson(e.value)]
  }

  /** `message` is an object whose five message properties hold exactly the
      fields of `e`; any other property is allowed. */
  predicate Carries(message: JValue, e: Event)
  {
    && Property(message, "type") == Some(JStr(e.eventType))
    && Property(message, "place") == Some(JStr(e.place))
    && Property(message, "sensorName") == Some(JStr(e.sensorName))
    && Property(message, "isChangeEvt") == Some(JBool(e.isChangeEvt))
    && Property(message, "value") == Some(ReadingJson(e.value))
  }

  /** Typed decoding of a parsed message: the event it carries, if any. */
  function ReadEvent(message: JValue): (r: Option<Event>)
    ensures r.Some? ==> Carries(message, r.value)
    ensures forall e :: Carries(message, e) ==> r == Some(e)
  {
    match (Property(message, "type"), Property(message, "place"), Property(message, "sensorName"),
           Property(message, "isChangeEvt"), Property(message, "value"))
    case (Some(JStr(t)), Some(JStr(p)), Some(JStr(s)), Some(JBool(c)), Some(JBool(b))) =>
      Some(Event(t, p, s, c, BoolReading(b)))
    case (Some(JStr(t)), Some(JStr(p)), Some(JStr(s)), Some(JBool(c)), Some(JNum(n))) =>
      Some(Event(t, p, s, c, NumReading(n)))
    case _ => None
  }

  /** `isValidMessage`: the chain of `typeof` tests, evaluated left to right.
      The first test reads `message.type`, which throws when the parsed
      payload is `null`; every other value has properties to read. A
      message is valid exactly when it carries a typed event. */
  function IsValidMessage(message: JValue): (r: Verdict)
    ensures r == Throws <==> message == JNull
    ensures r == Valid <==> ReadEvent(message).Some?
  {
    if message.JNull? then Throws
    else if
      && TypeOf(Property(message, "type")) == "string"
      && TypeOf(Property(message, "place")) == "string"
      && TypeOf(Property(message, "sensorName")) == "string"
      && TypeOf(Property(message, "isChangeEvt")) == "boolean"
      && (TypeOf(Property(message, "value")) == "number" || TypeOf(Property(message, "value")) == "boolean")
    then Valid
    else Invalid
  }

  /** Round trip: an object that holds the encoding of an event, whatever
      other members it has, is valid and decodes to that event. */
  lemma EncodedEventIsValid(e: Event, extra: map<string, JValue>)
    ensures ReadEvent(JObj(extra + EventFields(e))) == Some(e)
    ensures IsValidMessage(JObj(extra + EventFields(e))) == Valid
  {
    assert Carries(JObj(extra + EventFields(e)), e);
  }

  /** Decoding then encoding: a decoded event's encoding is contained in the
      message it came from. */
  lemma DecodedEventIsContained(message: JValue)
    requires ReadEvent(message).Some?
    ensures message.JObj?
    ensures forall k :: k in EventFields(ReadEvent(message).value) ==>
              k in message.fields && message.fields[k] == EventFields(ReadEvent(message).value)[k]
  {
    var e := ReadEvent(message).value;
    assert Carries(message, e);
  }

  /** Validity depends on the five message properties only: two objects
      that agree on them get the same verdict. */
  lemma ValidityIgnoresOtherFields(f1: map<string, JValue>, f2: map<string, JValue>)
    requires forall k :: k in MessageKeys ==> Property(JObj(f1), k) == Property(JObj(f2), k)
    ensures IsValidMessage(JObj(f1)) == IsValidMessage(JObj(f2))
    ensures ReadEvent(JObj(f1)) == ReadEvent(JObj(f2))
  {
    assert "type" in MessageKeys && "place" in MessageKeys && "sensorName" in MessageKeys;
    assert "isChangeEvt" in MessageKeys && "value" in MessageKeys;
  }

  /** Adding, changing or removing a property other than the five leaves
      the verdict unchanged. */
  lemma OtherPropertyIsIrrelevant(fields: map<string, JValue>, key: string, v: JValue)
    requires key !in MessageKeys
    ensures IsValidMessage(JObj(fields[key := v])) == IsValidMessage(JObj(fields))
    ensures IsValidMessage(JObj(fields - {key})) == IsValidMessage(JObj(fields))
  {
    ValidityIgnoresOtherFields(fields[key := v], fields);
    ValidityIgnoresOtherFields(fields - {key}, fields);
  }

  /** A message is invalid when one of the five properties is missing. */
  lemma MissingPropertyIsInvalid(fields: map<string, JValue>, key: string)
    requires key in MessageKeys && key !in fields
    ensures IsValidMessage(JObj(fields)) == Invalid
  {
    assert Property(JObj(fields), key) == None;
  }

  /** A value that is neither `null` nor an object (a bare number, string,
      boolean or array) is invalid, not a fault. */
  lemma NonObjectIsInvalid(message: JValue)
    requires !message.JNull? && !message.JObj?
    ensures IsValidMessage(message) == Invalid
  {
  }
}
