/** The dynamically typed intermediate values that codecs encode to and patches
    operate on: Go's `any` restricted to nil, scalars, slices and string-keyed maps. */
module Wire {
  datatype Option<+T> = None | Some(value: T)

  /** Go's pair of a value and an error, of which one is meant. */
  datatype Fallible<+T, +E> = Ok(value: T) | Err(error: E)

  datatype Json =
    | Null
    | Num(n: int)
    | Str(s: string)
    | Arr(elems: seq<Json>)
    | Obj(m: map<string, Json>)

  /** Reading a Go map: an absent key yields the zero value, here nil. */
  function At(m: map<string, Json>, k: string): Json {
    if k in m then m[k] else Null
  }

  /** The value a path of object keys leads to, if every step exists. */
  function Get(doc: Json, path: seq<string>): Option<Json> {
    if path == [] then Some(doc)
    else if doc.Obj? && path[0] in doc.m then Get(doc.m[path[0]], path[1..])
    else None
  }

  function GetOrNull(doc: Json, path: seq<string>): Json {
    match Get(doc, path) case Some(v) => v case None => Null
  }
}
