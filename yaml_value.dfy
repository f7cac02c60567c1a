/** Configuration values as yaml-cpp hands them to the loader: a parsed node is null, a scalar,
    a sequence or a mapping. Keys are strings because the loader reads every key with
    `as<std::string>()`. */
module Yaml {

  datatype Value = Null | Scalar(text: string) | Seq(items: seq<Value>) | Map(entries: map<string, Value>)

  /** A configuration document: the top-level mapping of one file. */
  type Doc = map<string, Value>

  datatype Option<+T> = None | Some(value: T)

  datatype Result<+T, +E> = Success(value: T) | Failure(error: E)

  /** The entry of `key` in `m`; `None` when the key is undefined. */
  function Lookup(m: Doc, key: string): Option<Value>
  {
    if key in m then Some(m[key]) else None
  }

  /** The value reached by following `path` key by key from `v`; `None` when some key on the way
      is missing or the value there is not a mapping. */
  function PathGet(v: Value, path: seq<string>): Option<Value>
    decreases |path|
  {
    if path == [] then Some(v)
    else if v.Map? && path[0] in v.entries then PathGet(v.entries[path[0]], path[1..])
    else None
  }
}
