/** The object tree that YAML and JSON parsing produce in Ruby, as the workers see it. */
module Values {
  import Text

  /** nil, true/false, Integer, String, Array, and Hash with String keys. */
  datatype Value =
    | Nil
    | Bool(b: bool)
    | Int(i: int)
    | Str(s: string)
    | List(items: seq<Value>)
    | Hash(entries: map<string, Value>)

  /** Ruby truthiness: everything except `nil` and `false`. */
  predicate Truthy(v: Value)
  {
    !(v.Nil? || v == Bool(false))
  }

  /** `v.is_a?(Hash) && v.key?(k)`. */
  predicate HasKey(v: Value, k: string)
  {
    v.Hash? && k in v.entries
  }

  /** The text `"#{v}"` interpolates (Ruby's `to_s`); arrays and hashes are rendered by a
      placeholder, not by Ruby's `inspect`. */
  function Display(v: Value): string
  {
    match v
    case Nil => ""
    case Bool(b) => if b then "true" else "false"
    case Int(i) => Text.IntToString(i)
    case Str(s) => s
    case List(_) => "[...]"
    case Hash(_) => "{...}"
  }
}
