/** Values shared by the whole model: optional values, parsed JSON, records and events. */
module Common {

  /** Ruby's `nil` or a value. */
  datatype Option<+T> = None | Some(value: T)

  /** A JSON value as the JSON library parses it (numbers are kept as integers). */
  datatype Json =
    | JNull
    | JBool(b: bool)
    | JNum(n: int)
    | JStr(s: string)
    | JArr(items: seq<Json>)
    | JObj(fields: map<string, Json>)

  /** A log record: the JSON object parsed from an event's message. */
  type Record = map<string, Json>

  /**
   * A Logstash event, seen through `event.get(ref)`: each field reference
   * ("host", "[log][file][path]", ...) that is set maps to the text of its
   * value (what `to_s` gives); a reference that is not set reads as nil.
   */
  datatype Event = Event(fields: map<string, string>)

  /** `event.get(ref)`. */
  function Get(e: Event, ref: string): Option<string>
  {
    if ref in e.fields then Some(e.fields[ref]) else None
  }

  /** `value.to_s`, where `nil.to_s` is the empty string. */
  function ToS(v: Option<string>): string
  {
    match v
    case None => ""
    case Some(s) => s
  }
}
