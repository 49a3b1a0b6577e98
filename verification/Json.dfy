/** Decoded JSON, as the provider transports hand it to the parsers. */
module Json {

  /** Text is kept as its UTF-8 encoding: one `char` per byte, so `|s|` is the encoded length. */
  type Utf8 = string

  datatype Json =
    | Null
    | Bool(b: bool)
    | Int(i: int)
    | Float(x: real)
    | Str(s: Utf8)
    | List(items: seq<Json>)
    | Obj(fields: map<string, Json>)
  {
    /** `data.get(key)` on a dictionary. */
    function Get(key: string): Json
      requires Obj?
    {
      if key in fields then fields[key] else Null
    }

    /** Python truth value. */
    predicate Truthy() {
      match this
      case Null => false
      case Bool(b) => b
      case Int(i) => i != 0
      case Float(x) => x != 0.0
      case Str(s) => s != ""
      case List(items) => items != []
      case Obj(fields) => fields != map[]
    }
  }
}
