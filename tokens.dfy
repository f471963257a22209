/** The value classifier and the token variants: what one JSON leaf or one
    JSON array becomes, and the type and value text the emitter writes for
    it. */
module Tokens {
  import opened Base
  import opened Json
  import opened Literal

  /** `Single` holds the text of a scalar, `Array` the texts of an array's
      elements in order. */
  datatype TokenVariant = Single(text: string) | Array(items: seq<string>)

  /** A constant before emission; `name` is the JSON key (or the file name)
      exactly as given. */
  datatype Token = Token(name: string, data: TokenVariant)

  /** The text of a scalar field: a string as it is, a number as its
      literal, a boolean as `true`/`false`, null as the empty string. */
  function ScalarText(v: Value): string
    requires IsScalar(v)
  {
    match v
    case Str(s) => s
    case Num(lit) => lit
    case Bool(b) => BoolText(b)
    case Null => ""
  }

  /** The text of one element of an array field: a string as it is,
      anything else as its JSON text. */
  function ElementText(v: Value): string {
    if v.Str? then v.s else JsonText(v)
  }

  /** The two renderings agree on every scalar except null, which is `""`
      as a field and `null` as an array element. */
  lemma ScalarVersusElement(v: Value)
    requires IsScalar(v)
    ensures ElementText(v) == ScalarText(v) <==> !v.Null?
    ensures v.Null? ==> ScalarText(v) == "" && ElementText(v) == "null"
  {
  }

  const StrType: string := "&str"
  const ArrayTypeHead: string := "[&str; "

  /** `get_type`: `&str` for a single value, `[&str; N]` for an array of
      N values. */
  function GetType(d: TokenVariant): string {
    match d
    case Single(_) => StrType
    case Array(items) => ArrayTypeHead + DecimalText(|items|) + "]"
  }

  /** `into_data`: the string literal, or the array literal of the items in
      order. */
  function IntoData(d: TokenVariant): string {
    match d
    case Single(s) => Quote(s)
    case Array(items) => ArrayLiteral(items)
  }

  /** Reads the N back out of `[&str; N]`. */
  function ArrayTypeLength(ty: string): Option<nat> {
    if |ty| > |ArrayTypeHead| && ty[..|ArrayTypeHead|] == ArrayTypeHead && Last(ty) == ']'
    then ParseDecimal(ty[|ArrayTypeHead|..|ty| - 1])
    else None
  }

  /** Reads a token variant back out of an emitted type and value. An array
      is accepted only when its literal holds exactly N items. */
  function DecodeData(ty: string, value: string): Option<TokenVariant> {
    if ty == StrType then
      match ReadLiteral(value)
      case Some((s, rest)) => if rest == [] then Some(Single(s)) else None
      case None => None
    else
      match ArrayTypeLength(ty)
      case None => None
      case Some(n) =>
        match ReadArrayLiteral(value)
        case Some(xs) => if |xs| == n then Some(Array(xs)) else None
        case None => None
  }

  /** The type of an array constant names its exact length, and only a
      single value gets `&str`. */
  lemma GetTypeLength(d: TokenVariant)
    ensures d.Single? <==> GetType(d) == StrType
    ensures d.Array? ==> ArrayTypeLength(GetType(d)) == Some(|d.items|)
  {
    if d.Array? {
      var ty := GetType(d);
      DecimalRoundTrip(|d.items|);
      assert ty[..|ArrayTypeHead|] == ArrayTypeHead;
      assert ty[|ArrayTypeHead|..|ty| - 1] == DecimalText(|d.items|);
      assert ty[1] == '&' && StrType[1] == 's';
    }
  }

  /** What is emitted for a token variant determines it: reading the type
      and the value back gives the same variant, the same strings in the
      same order. */
  lemma DataRoundTrip(d: TokenVariant)
    ensures DecodeData(GetType(d), IntoData(d)) == Some(d)
  {
    GetTypeLength(d);
    match d
    case Single(s) =>
      ReadQuoted(s, []);
      assert Quote(s) + [] == Quote(s);
    case Array(items) =>
      ReadArrayOfLiteral(items);
  }
}
