/** The JSON values that json.loads can produce (floating-point numbers are out
    of scope: numbers are integers). */
module JsonValues {

  datatype Json =
    | JNull
    | JBool(b: bool)
    | JNum(n: int)
    | JStr(s: string)
    | JArr(items: seq<Json>)
    | JObj(fields: map<string, Json>)
}
