/**
  JSON values as the protocol uses them. Text is parsed and printed by a JSON
  library that is not part of this model; components that need it receive the
  parser as a function value.
 */
module Json {
  import opened Bytes

  /**
    A JSON value. Numbers are IEEE doubles on the wire; the model keeps only
    the ones the protocol relies on, doubles that hold a non-negative integer.
   */
  datatype Json =
    | Null
    | Bool(b: bool)
    | Num(n: nat)
    | Str(s: seq<byte>)
    | Array(items: seq<Json>)
    | Object(members: seq<(seq<byte>, Json)>)

  /** The outcome of parsing JSON text: a value, or the parser's error text. */
  datatype JsonParse = Parsed(value: Json) | Malformed(reason: seq<byte>)
}
