/** JSON values as the program holds them. A number is the text it prints as. */
module JsonValue {
  datatype Value =
    | Null
    | False
    | True
    | Number(text: string)
    | Str(s: string)
    | List(items: seq<Value>)
    | Object(fields: map<string, Value>)
}
