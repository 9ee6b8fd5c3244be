/**
 * JSON values as both layers see them after decoding. A Python `dict.get(k)` yields
 * None for a missing key, and JSON null also decodes to None, so both are JNull here.
 */
module Json {
  import opened Wrappers

  datatype Json =
    | JNull
    | JBool(b: bool)
    | JInt(i: int)
    | JStr(s: string)
    | JArr(items: seq<Json>)
    | JObj(fields: map<string, Json>)

  /**
   * The text carried by a socket frame or a bus message. `Encoded(v)` is the text
   * `json.dumps(v)` (or `JSON.stringify(v)`) produced; `Garbage` is text that no
   * JSON decoder accepts. Relaying a wire value unchanged is relaying the raw text.
   */
  datatype Wire = Encoded(value: Json) | Garbage(raw: string)

  /** `json.loads` / `JSON.parse`: the decoded value, or None when the text is not JSON. */
  function Decode(w: Wire): (r: Option<Json>)
    ensures r.Some? <==> w.Encoded?
  {
    match w
    case Encoded(v) => Some(v)
    case Garbage(_) => None
  }

  /** Python's `obj.get(key)` on a decoded dict. */
  function GetOrNull(fields: map<string, Json>, key: string): (v: Json)
    ensures key !in fields ==> v == JNull
    ensures key in fields ==> v == fields[key]
  {
    if key in fields then fields[key] else JNull
  }
}
