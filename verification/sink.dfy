/** The row `saveMessageToDatabase` binds to its INSERT into `iot_data_1`:
    the projection of a valid message onto the table's columns and the
    positional parameters of the prepared statement. */
module Sink {
  import opened Wrappers
  import opened Json
  import opened Message

  /** Milliseconds since the epoch, as `Date.now()` gives them. */
  type Timestamp = int

  /** One row of `iot_data_1`; `None` is SQL NULL. */
  datatype Row = Row(
    place: string,
    eventType: string,
    sensorName: string,
    dataBool: Option<bool>,
    dataDouble: Option<Num>,
    isChangeEvt: bool,
    timestamp: Timestamp)

  /** The row an event is stored as at time `now`: the reading goes to the
      column of its kind, the other column is NULL. */
  function RowOf(e: Event, now: Timestamp): Row
  {
    Row(e.place, e.eventType, e.sensorName,
        if e.value.BoolReading? then Some(e.value.b) else None,
        if e.value.NumReading? then Some(e.value.n) else None,
        e.isChangeEvt, now)
  }

  /** The projection written in `saveMessageToDatabase`: `dataBool` and
      `dataDouble` by two `typeof` tests on `message.value`, the other
      columns read from the message, the timestamp taken at call time. */
  function ProjectRow(message: JValue, now: Timestamp): (r: Row)
    requires IsValidMessage(message) == Valid
    ensures r == RowOf(ReadEvent(message).value, now)
    ensures r.dataBool.Some? != r.dataDouble.Some?
    ensures message.fields["value"].JBool? ==> r.dataBool == Some(message.fields["value"].b) && r.dataDouble == None
    ensures message.fields["value"].JNum? ==> r.dataDouble == Some(message.fields["value"].n) && r.dataBool == None
    ensures r.isChangeEvt == message.fields["isChangeEvt"].b && r.timestamp == now
  {
    var e := ReadEvent(message).value;
    assert Carries(message, e);
    var value := Property(message, "value");
    var dataBool := if TypeOf(value) == "boolean" then Some(value.value.b) else None;
    var dataDouble := if TypeOf(value) == "number" then Some(value.value.n) else None;
    Row(Property(message, "place").value.s, Property(message, "type").value.s,
        Property(message, "sensorName").value.s, dataBool, dataDouble,
        Property(message, "isChangeEvt").value.b, now)
  }

  /** The column list of the INSERT statement, in order. */
  const InsertColumns: seq<string> :=
    ["place", "type", "sensor_name", "data_bool", "data_double", "is_change_evt", "timestamp_evt"]

  /** A parameter bound to a `?` placeholder. */
  datatype SqlValue = SqlNull | SqlText(text: string) | SqlBool(b: bool) | SqlDouble(n: Num) | SqlTime(t: Timestamp)

  function BoolOrNull(v: Option<bool>): SqlValue
  {
    match v
    case Some(b) => SqlBool(b)
    case None => SqlNull
  }

  function DoubleOrNull(v: Option<Num>): SqlValue
  {
    match v
    case Some(n) => SqlDouble(n)
    case None => SqlNull
  }

  /** What the table column named `column` must receive for `row`. */
  function ColumnValue(row: Row, column: string): SqlValue
  {
    match column
    case "place" => SqlText(row.place)
    case "type" => SqlText(row.eventType)
    case "sensor_name" => SqlText(row.sensorName)
    case "data_bool" => BoolOrNull(row.dataBool)
    case "data_double" => DoubleOrNull(row.dataDouble)
    case "is_change_evt" => SqlBool(row.isChangeEvt)
    case "timestamp_evt" => SqlTime(row.timestamp)
    case _ => SqlNull
  }

  /** The parameter array passed to `execute`. Each position matches the
      column at the same position of the INSERT's column list. */
  function InsertParams(row: Row): (params: seq<SqlValue>)
    ensures |params| == |InsertColumns|
    ensures forall i :: 0 <= i < |params| ==> params[i] == ColumnValue(row, InsertColumns[i])
  {
    [SqlText(row.place), SqlText(row.eventType), SqlText(row.sensorName),
     BoolOrNull(row.dataBool), DoubleOrNull(row.dataDouble), SqlBool(row.isChangeEvt), SqlTime(row.timestamp)]
  }

  /** For a valid message, `is_change_evt` receives the message's own
      `isChangeEvt`, the text columns its strings, and exactly one of the
      two value columns is non-NULL. */
  lemma InsertBindsMessage(message: JValue, now: Timestamp)
    requires IsValidMessage(message) == Valid
    ensures var params := InsertParams(ProjectRow(message, now));
      && params[0] == SqlText(message.fields["place"].s)
      && params[1] == SqlText(message.fields["type"].s)
      && params[2] == SqlText(message.fields["sensorName"].s)
      && (params[3] == SqlNull) != (params[4] == SqlNull)
      && params[5] == SqlBool(message.fields["isChangeEvt"].b)
      && params[6] == SqlTime(now)
  {
    var e := ReadEvent(message).value;
    assert Carries(message, e);
  }
}
