/**
 JSON values as the application reads them from stored content. `render` is Python's `str` on
 values other than strings.
 */
module Json {
  import opened Text

  const ID_MAX := 64

  /** Object keys: the ones that are looked at, and all others by name. */
  datatype Key =
    | QUESTIONS | PASSING | ID | TYPE | TEXT | OPTIONS | CORRECT_IDS | CORRECT | ANSWER | EXPLANATION
    | QUESTION_ID | SELECTED | BLOCKS | BODY
    | Other(name: string)

  datatype Json =
    | Null
    | Bool(b: bool)
    | Int(n: int)
    | Float(r: real)
    | Str(s: string)
    | Arr(items: seq<Json>)
    | Obj(fields: map<Key, Json>)

  type Render = Json -> string

  predicate Has(j: Json, key: Key) {
    j.Obj? && key in j.fields
  }

  /** `dict.get`: a missing key reads as null. */
  function Get(j: Json, key: Key): Json {
    if Has(j, key) then j.fields[key] else Null
  }

  function Items(j: Json): seq<Json> {
    if j.Arr? then j.items else []
  }

  predicate NonBlank(j: Json) {
    j.Str? && Strip(j.s) != ""
  }

  function Trimmed(j: Json): string {
    if j.Str? then Strip(j.s) else ""
  }

  function IdOf(render: Render, raw: Json, fallback: string): string {
    var text := Strip(if raw.Str? then raw.s else render(raw));
    if raw != Null && text != "" then Truncate(text, ID_MAX) else fallback
  }
}
