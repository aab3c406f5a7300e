/** JSON-like Python values: what `json.loads` returns and what troposphere's `to_dict` produces. */
module Json {
  import opened Dicts

  datatype Json =
    | JNull
    | JBool(b: bool)
    | JNum(n: int)
    | JStr(s: string)
    | JArray(items: seq<Json>)
    | JObject(fields: Dict<Json>)
}
