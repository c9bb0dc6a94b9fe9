/** The JSON values the tool reads and writes (serde_json::Value), and the
    content of a file as the model sees it. Parsing JSON text and
    pretty-printing are not modelled: a file holds either a JSON document or
    other content that does not parse as JSON. */
module Json {
  import opened Wrappers

  /** serde_json numbers: integers (as u64 or i64) and floats; a float's value
      plays no role in the tool. */
  datatype Number = Int(i: int) | Float

  datatype Json =
    | Null
    | Bool(b: bool)
    | Num(n: Number)
    | Str(s: string)
    | Arr(items: seq<Json>)
    | Obj(fields: map<string, Json>)

  const U64Limit: int := 0x1_0000_0000_0000_0000

  /** `Value::as_u64`: an integer that fits 64 unsigned bits. */
  function AsU64(j: Json): (r: Option<nat>)
    ensures r.Some? ==> r.value < U64Limit
  {
    if j.Num? && j.n.Int? && 0 <= j.n.i < U64Limit then Some(j.n.i) else None
  }

  /** `Value::as_str`. */
  function AsStr(j: Json): Option<string> {
    if j.Str? then Some(j.s) else None
  }

  /** `Value::as_array`. */
  function AsArray(j: Json): Option<seq<Json>> {
    if j.Arr? then Some(j.items) else None
  }

  /** `Value::get(key)`: the field of an object; None for anything else. */
  function Get(j: Json, key: string): Option<Json> {
    if j.Obj? && key in j.fields then Some(j.fields[key]) else None
  }

  /** `Option<&Value>::and_then(|v| v.get(key))`. */
  function GetOpt(j: Option<Json>, key: string): Option<Json> {
    if j.Some? then Get(j.value, key) else None
  }

  /** The content of a file: text, a JSON document (as written by
      `serde_json::to_string_pretty`) or raw bytes. */
  datatype Content = Text(text: string) | Pretty(doc: Json) | Binary(bytes: seq<bv8>)

  /** `serde_json::from_str` on a file's content. */
  function ParseContent(c: Content): Option<Json> {
    if c.Pretty? then Some(c.doc) else None
  }

  const EmptyObject: Json := Obj(map[])
}
