/** The values `json.loads` returns. An object keeps the pairs of its text
    in order, repeated keys included; `Dicts.DictOf` gives the dict Python
    makes of them. A number written without fraction or exponent is an
    `int`, any other a `float`, as Python reads them. Non-finite floats,
    the sign of a zero and lone surrogates in strings have no value here. */
module JsonValues {

  datatype Json =
    | Null
    | Bool(b: bool)
    | Int(i: int)
    | Float(f: real)
    | Str(s: string)
    | Arr(items: seq<Json>)
    | Obj(fields: seq<(string, Json)>)
}
