/** JSON values as the daemon (Python `json`) and the web UI (`JSON.parse`) hold them. */
module Json {

  /** Numbers are carried as values and never computed with, so `real` stands for them. */
  datatype Json =
    | JNull
    | JBool(b: bool)
    | JNum(n: real)
    | JStr(s: string)
    | JArr(items: seq<Json>)
    | JObj(fields: map<string, Json>)
}
