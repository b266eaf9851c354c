/** Abstract JSON values, as `json.loads` hands them to the relay. */
module Json {

  /** A decoded JSON document. An object is a dictionary: when a key is
      repeated in the text the decoder keeps one value for it, so a map is
      the right shape. The relay never inspects numbers, it only copies them,
      so their representation does not matter here. */
  datatype Value =
    | Null
    | Bool(b: bool)
    | Num(n: real)
    | Str(s: string)
    | Arr(items: seq<Value>)
    | Obj(fields: map<string, Value>)

  /** The outcome of decoding one inbound frame (text, or binary holding JSON). */
  datatype Inbound =
    | Undecodable          // the decoder raised a decode error
    | Decoded(v: Value)
}
