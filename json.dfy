/** The already-parsed JSON document the generator works on.

    A number carries the literal text it was written with, so that `1e37`
    stays `1e37`; an object is an ordered sequence of members, in the order
    the JSON parser yields them. */
module Json {

  datatype Value =
    | Null
    | Bool(b: bool)
    | Num(lit: string)
    | Str(s: string)
    | Arr(elems: seq<Value>)
    | Obj(members: seq<Member>)

  datatype Member = Member(key: string, val: Value)

  /** A leaf: anything that is neither an array nor an object. */
  predicate IsScalar(v: Value) {
    !v.Arr? && !v.Obj?
  }

  /** The text `true` or `false`, as Rust's `bool::to_string` writes it. */
  function BoolText(b: bool): string {
    if b then "true" else "false"
  }

  const HexDigits: string := "0123456789abcdef"

  /** One character of a JSON string body, escaped as serde_json writes it:
      quote and backslash are escaped, the short control escapes are used
      where JSON has them, every other control character is `\u00XX`. */
  function EscapeJsonChar(c: char): string {
    if c == '"' then "\\\""
    else if c == '\\' then "\\\\"
    else if c == '\n' then "\\n"
    else if c == '\r' then "\\r"
    else if c == '\t' then "\\t"
    else if c == 8 as char then "\\b"
    else if c == 12 as char then "\\f"
    else if (c as int) < 0x20 then
      "\\u00" + [HexDigits[(c as int) / 16], HexDigits[(c as int) % 16]]
    else [c]
  }

  function EscapeJson(s: string): string {
    if s == [] then [] else EscapeJsonChar(s[0]) + EscapeJson(s[1..])
  }

  /** The compact JSON text of a value (serde_json's `Value::to_string`):
      no whitespace, `,` between elements, `:` between key and value. */
  function JsonText(v: Value): string
    decreases v, 1
  {
    match v
    case Null => "null"
    case Bool(b) => BoolText(b)
    case Num(lit) => lit
    case Str(s) => "\"" + EscapeJson(s) + "\""
    case Arr(elems) => "[" + ElementsText(elems) + "]"
    case Obj(members) => "{" + MembersText(members) + "}"
  }

  function ElementsText(vs: seq<Value>): string
    decreases vs, 0
  {
    if vs == [] then ""
    else if |vs| == 1 then JsonText(vs[0])
    else JsonText(vs[0]) + "," + ElementsText(vs[1..])
  }

  function MembersText(ms: seq<Member>): string
    decreases ms, 0
  {
    if ms == [] then ""
    else
      var head := "\"" + EscapeJson(ms[0].key) + "\":" + JsonText(ms[0].val);
      if |ms| == 1 then head else head + "," + MembersText(ms[1..])
  }
}
