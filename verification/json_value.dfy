/** The JSON tree the issue codec reads and writes (rustc-serialize's `json::Json`).
    Its three number variants are folded into one integer variant; nothing in the codec
    reads a number. */
module JsonValue {

  datatype Json =
    | Null
    | Boolean(b: bool)
    | Number(n: int)
    | Str(s: string)
    | Array(items: seq<Json>)
    | Object(fields: map<string, Json>)
}
