/** The dynamic values the documents hold where the Go structs use
    `interface{}` (decoded JSON, or whatever a caller passed in). */
module Json {
  datatype Value =
    | Null
    | Bool(b: bool)
    | Str(s: string)
    | Strs(items: seq<string>)         // a Go []string
    | Num(n: int)
    | List(values: seq<Value>)         // a Go []interface{}
    | Object(fields: map<string, Value>)
}
