/** JSON values as `JSON.parse` returns them, and the two JavaScript
    operations the bridge applies to them: property access and `typeof`. */
module Json {
  import opened Wrappers

  /** A JSON number. The bridge only passes numbers through and never
      computes on them, so the rounding of IEEE doubles plays no part. */
  type Num = real

  datatype JValue =
    | JNull
    | JBool(b: bool)
    | JNum(n: Num)
    | JStr(s: string)
    | JArr(items: seq<JValue>)
    | JObj(fields: map<string, JValue>)

  /** `v[key]` on a value that is not `null`; `None` stands for `undefined`.
      Only an object has own properties that `JSON.parse` can set. The keys
      the bridge reads (`type`, `place`, `sensorName`, `isChangeEvt`,
      `value`) are defined by no built-in prototype, so a missing own
      property reads as `undefined` for every kind of value. */
  function Property(v: JValue, key: string): (r: Option<JValue>)
    ensures r.Some? <==> v.JObj? && key in v.fields
    ensures r.Some? ==> r.value == v.fields[key]
  {
    match v
    case JObj(fields) => if key in fields then Some(fields[key]) else None
    case _ => None
  }

  /** The JavaScript `typeof` operator on a property read; `typeof null`
      and `typeof` of an array are both "object". */
  function TypeOf(p: Option<JValue>): (t: string)
    ensures t == "undefined" <==> p.None?
    ensures t == "object" <==> p.Some? && (p.value.JNull? || p.value.JArr? || p.value.JObj?)
    ensures t == "boolean" <==> p.Some? && p.value.JBool?
    ensures t == "number" <==> p.Some? && p.value.JNum?
    ensures t == "string" <==> p.Some? && p.value.JStr?
  {
    match p
    case None => "undefined"
    case Some(JNull) => "object"
    case Some(JBool(_)) => "boolean"
    case Some(JNum(_)) => "number"
    case Some(JStr(_)) => "string"
    case Some(JArr(_)) => "object"
    case Some(JObj(_)) => "object"
  }
}
