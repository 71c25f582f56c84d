/**
  The lines, events and batches that the replay engine loads, writes and sends.

  What JSON parsing finds in a line is a parameter: `Parser` gives the object type of a line, the
  value under it and its timestamp field.
*/
module Events {
  import opened Basics
  import Json

  type Line = string

  /** Times are nanoseconds since the Unix epoch; Go's zero time is the start of year 1. */
  const ZERO_TIME: int := -62135596800 * 1000000000

  datatype Event = Event(payload: Line, objectType: string, timestamp: int)

  datatype Batch = Batch(metadata: Line, events: seq<Event>)

  /** The timestamp field of an event line. A text comes with the result of parsing it in each of
      the supported formats. */
  datatype TimestampField = Missing | Number(us: int) | Text(parses: seq<Option<int>>) | OtherType

  datatype Parsed = Parsed(objectType: string, body: Json.Value, timestamp: TimestampField)

  type Parser = Line -> Parsed

  /** The tree of a line {"objectType": body}. */
  function TreeOf(parser: Parser, line: Line): Json.Value {
    Json.Object([Json.Field(parser(line).objectType, parser(line).body)])
  }
}
