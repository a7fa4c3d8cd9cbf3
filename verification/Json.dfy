/** JSON values, shared by the redactor and the filter evaluator. */
module Json {
  datatype Value =
    | Null
    | Bool(value: bool)
    | Number(text: string)
    | String(text: string)
    | Array(items: seq<Value>)
    | Object(fields: map<string, Value>)
}
