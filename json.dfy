/** JSON values as `json.load` produces them. */
module JsonModel {

  datatype Json =
    | JNull
    | JBool(b: bool)
    /** A number is kept as its literal text: the sanitizer never reads or
        changes one, so no arithmetic on it is modelled. */
    | JNum(literal: string)
    | JStr(s: string)
    | JArr(items: seq<Json>)
    /** An object, as an ordered dictionary (see module Dicts). */
    | JObj(fields: seq<(string, Json)>)
}
