/** The literal text the emitter writes: Rust string literals (what
    `syn::LitStr` prints), the array literal `["a", "b"]`, and the decimal
    array length inside `[&str; N]`.

    Each writer has a reader beside it, and the round-trip lemmas say that
    the reader gives back exactly what was written. */
module Literal {
  import opened Base

  /** A character as it appears inside a Rust string literal. NUL is written
      `\0`, or `\x00` when an octal digit follows it (so that the pair is
      not read as an octal escape); tab, carriage return, newline, backslash
      and double quote get their short escapes; the single quote and every
      other character stand as they are. `rest` is the text that follows. */
  function EscapeChar(c: char, rest: string): string {
    if c == '\0' then
      (if rest != [] && '0' <= rest[0] <= '7' then "\\x00" else "\\0")
    else if c == '\t' then "\\t"
    else if c == '\r' then "\\r"
    else if c == '\n' then "\\n"
    else if c == '\\' then "\\\\"
    else if c == '"' then "\\\""
    else [c]
  }

  function Escape(s: string): string {
    if s == [] then [] else EscapeChar(s[0], s[1..]) + Escape(s[1..])
  }

  /** The Rust string literal for `s`. */
  function Quote(s: string): string {
    "\"" + Escape(s) + "\""
  }

  /** The character a two-character escape `\e` stands for. */
  function Unescaped(e: char): char {
    match e
    case '0' => '\0'
    case 't' => '\t'
    case 'r' => '\r'
    case 'n' => '\n'
    case _ => e
  }

  function Prepend(c: char, r: Option<(string, string)>): Option<(string, string)> {
    match r
    case None => None
    case Some((s, rest)) => Some(([c] + s, rest))
  }

  /** Reads the body of a string literal up to and including its closing
      quote; gives the characters it stands for and the text after the
      quote. Any text it cannot read is refused. */
  function ReadBody(t: string): (r: Option<(string, string)>)
    ensures r.Some? ==> |r.value.1| < |t|
    decreases |t|
  {
    if t == [] then None
    else if t[0] == '"' then Some(([], t[1..]))
    else if t[0] != '\\' then Prepend(t[0], ReadBody(t[1..]))
    else if |t| < 2 then None
    else if t[1] == 'x' then
      if |t| >= 4 && t[2] == '0' && t[3] == '0' then Prepend('\0', ReadBody(t[4..])) else None
    else if t[1] in "0trn\\\"" then Prepend(Unescaped(t[1]), ReadBody(t[2..]))
    else None
  }

  /** Reads one string literal at the start of `t`. */
  function ReadLiteral(t: string): (r: Option<(string, string)>)
    ensures r.Some? ==> |r.value.1| < |t|
  {
    if t != [] && t[0] == '"' then ReadBody(t[1..]) else None
  }

  /** Reading one escaped character gives that character back and reads on
      after it. */
  lemma ReadBodyStep(c: char, next: string, tail: string)
    ensures ReadBody(EscapeChar(c, next) + tail) == Prepend(c, ReadBody(tail))
  {
    var piece := EscapeChar(c, next);
    var t := piece + tail;
    if |piece| == 1 {
      assert piece == [c] && c != '"' && c != '\\';
      assert t[0] == c && t[1..] == tail;
    } else if |piece| == 2 {
      assert t[0] == '\\' && t[1] == piece[1] && t[2..] == tail;
      assert piece[1] in "0trn\\\"" && Unescaped(piece[1]) == c;
    } else {
      assert t[0] == '\\' && t[1] == 'x' && t[2] == '0' && t[3] == '0' && t[4..] == tail;
    }
  }

  lemma {:induction false} ReadBodyOfEscape(s: string, rest: string)
    ensures ReadBody(Escape(s) + "\"" + rest) == Some((s, rest))
    decreases |s|
  {
    if s == [] {
      assert Escape(s) + "\"" + rest == "\"" + rest;
    } else {
      var tail := Escape(s[1..]) + "\"" + rest;
      ReadBodyOfEscape(s[1..], rest);
      ReadBodyStep(s[0], s[1..], tail);
      assert Escape(s) + "\"" + rest == EscapeChar(s[0], s[1..]) + tail;
      assert [s[0]] + s[1..] == s;
    }
  }

  /** A string of printable ASCII characters other than the double quote
      and the backslash is written as it is. */
  lemma {:induction false} EscapePlain(s: string)
    requires forall i :: 0 <= i < |s| ==> ' ' <= s[i] <= '~' && s[i] != '"' && s[i] != '\\'
    ensures Escape(s) == s
    ensures Quote(s) == "\"" + s + "\""
  {
    if s != [] {
      EscapePlain(s[1..]);
      assert [s[0]] + s[1..] == s;
    }
  }

  /** A literal written by `Quote` is read back as the very string it was
      written from, and the text after it is left untouched. */
  lemma ReadQuoted(s: string, rest: string)
    ensures ReadLiteral(Quote(s) + rest) == Some((s, rest))
  {
    ReadBodyOfEscape(s, rest);
    assert (Quote(s) + rest)[1..] == Escape(s) + "\"" + rest;
  }

  /** The inside of an array literal: the quoted items joined by `, `. */
  function ListBody(xs: seq<string>): string {
    if xs == [] then ""
    else if |xs| == 1 then Quote(xs[0])
    else Quote(xs[0]) + ", " + ListBody(xs[1..])
  }

  /** The array literal `["a", "b", …]` of `xs`, items in order. */
  function ArrayLiteral(xs: seq<string>): string {
    "[" + ListBody(xs) + "]"
  }

  /** Reads `lit, lit, …, lit]` to the end of the text. */
  function ReadItems(t: string): Option<seq<string>>
    decreases |t|
  {
    match ReadLiteral(t)
    case None => None
    case Some((x, rest)) =>
      if rest == "]" then Some([x])
      else if |rest| >= 2 && rest[..2] == ", " then
        match ReadItems(rest[2..])
        case None => None
        case Some(ys) => Some([x] + ys)
      else None
  }

  /** Reads a whole array literal. */
  function ReadArrayLiteral(t: string): Option<seq<string>> {
    if t == "[]" then Some([])
    else if t != [] && t[0] == '[' then ReadItems(t[1..])
    else None
  }

  lemma ReadItemsLast(x: string)
    ensures ReadItems(Quote(x) + "]") == Some([x])
  {
    ReadQuoted(x, "]");
  }

  lemma ReadItemsCons(x: string, more: string)
    ensures ReadItems(Quote(x) + ", " + more) ==
      match ReadItems(more) case None => None case Some(ys) => Some([x] + ys)
  {
    var after := ", " + more;
    ReadQuoted(x, after);
    assert Quote(x) + ", " + more == Quote(x) + after;
    assert after[0] == ',' && after[..2] == ", " && after[2..] == more;
  }

  lemma {:induction false} ReadItemsOfList(xs: seq<string>)
    requires xs != []
    ensures ReadItems(ListBody(xs) + "]") == Some(xs)
    decreases |xs|
  {
    if |xs| == 1 {
      ReadItemsLast(xs[0]);
      assert ListBody(xs) == Quote(xs[0]) && [xs[0]] == xs;
    } else {
      ReadItemsOfList(xs[1..]);
      ReadItemsCons(xs[0], ListBody(xs[1..]) + "]");
      assert ListBody(xs) + "]" == Quote(xs[0]) + ", " + (ListBody(xs[1..]) + "]");
      assert [xs[0]] + xs[1..] == xs;
    }
  }

  /** The array literal gives back the same strings, as many and in the same
      order as were written. */
  lemma ReadArrayOfLiteral(xs: seq<string>)
    ensures ReadArrayLiteral(ArrayLiteral(xs)) == Some(xs)
  {
    if xs == [] {
      assert ArrayLiteral(xs) == "[]";
    } else {
      ReadItemsOfList(xs);
      var t := ArrayLiteral(xs);
      assert t[1..] == ListBody(xs) + "]";
      assert |ListBody(xs)| >= |Quote(xs[0])| >= 2;
    }
  }

  /** The digit character for `d`. */
  function DigitChar(d: nat): char
    requires d < 10
  {
    ('0' as int + d) as char
  }

  /** `n` in decimal, without leading zeros (Rust's `usize` formatting). */
  function DecimalText(n: nat): string
    decreases n
  {
    if n < 10 then [DigitChar(n)] else DecimalText(n / 10) + [DigitChar(n % 10)]
  }

  predicate AllDigits(s: string) {
    forall i :: 0 <= i < |s| ==> '0' <= s[i] <= '9'
  }

  function DigitsValue(s: string): nat
    requires AllDigits(s)
    decreases |s|
  {
    if s == [] then 0 else DigitsValue(s[..|s| - 1]) * 10 + (Last(s) as int - '0' as int)
  }

  /** Reads a non-empty run of decimal digits. */
  function ParseDecimal(s: string): Option<nat> {
    if s != [] && AllDigits(s) then Some(DigitsValue(s)) else None
  }

  lemma {:induction false} DecimalDigits(n: nat)
    ensures DecimalText(n) != [] && AllDigits(DecimalText(n))
    ensures DigitsValue(DecimalText(n)) == n
    decreases n
  {
    if n >= 10 {
      DecimalDigits(n / 10);
      var s := DecimalText(n);
      assert s[..|s| - 1] == DecimalText(n / 10);
    }
  }

  /** Writing a length in decimal and reading it back gives the length. */
  lemma DecimalRoundTrip(n: nat)
    ensures ParseDecimal(DecimalText(n)) == Some(n)
  {
    DecimalDigits(n);
  }
}
