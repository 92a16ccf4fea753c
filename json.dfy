/** JSON values as Python's `json` module loads them into `None`, `bool`, numbers, `str`, `list`
    and `dict`. */
module Json {
  import opened Optional

  datatype JValue =
    | JNull
    | JBool(boolean: bool)
    | JNum(number: real)
    | JStr(str: string)
    | JArr(items: seq<JValue>)
    | JObj(fields: map<string, JValue>)

  /** Python's `d.get(key)`. */
  function Get(fields: map<string, JValue>, key: string): Option<JValue>
  {
    if key in fields then Some(fields[key]) else None
  }
}
