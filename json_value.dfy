/** JSON values as Python's `json.loads` hands them back, and the outcome of
    parsing one raw text block. The parser itself is not modelled: a block
    reaches the extraction loop already parsed, or marked as a decode failure. */
module JsonValue {

  /** A decoded JSON value: `None`, `bool`, a number, `str`, `list` or `dict`. */
  datatype Json =
    | JNull
    | JBool(b: bool)
    | JNum(n: real)
    | JStr(s: string)
    | JArr(elems: seq<Json>)
    | JObj(fields: map<string, Json>)

  /** What `json.loads` did with one block: raised `JSONDecodeError`, or returned a value. */
  datatype ParseResult = Fail | Parsed(value: Json)

  /** Python's `dict.get(key)`: the stored value, or `None` (here `JNull`) when
      the key is missing. An explicit JSON `null` is also `None`, so the two
      cases cannot be told apart by the caller. */
  function Get(fields: map<string, Json>, key: string): (v: Json)
    ensures key in fields ==> v == fields[key]
    ensures key !in fields ==> v == JNull
    ensures v != JNull ==> key in fields && fields[key] == v
  {
    if key in fields then fields[key] else JNull
  }

  /** True for the values that are neither a `dict` nor a `list`. */
  predicate IsScalar(v: Json)
  {
    !v.JObj? && !v.JArr?
  }
}
