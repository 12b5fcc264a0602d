/** Parsed JSON with integer numbers. Objects are maps: key order carries no meaning here. */
module Json {

  datatype Json =
    | Null
    | Bool(b: bool)
    | Num(n: int)
    | Str(s: string)
    | Arr(items: seq<Json>)
    | Obj(fields: map<string, Json>)

  /** Python's `d.get(key)` on a dict, with `None` standing for JSON null as it does there. */
  function Get(fields: map<string, Json>, key: string): Json {
    if key in fields then fields[key] else Null
  }
}
