/** Identifier normalisation: constant names are upper-cased when they are
    emitted (`String::to_uppercase`), namespace names are kept as written.
    The fold is the ASCII one: `a`..`z` become `A`..`Z`, everything else,
    `_` and digits included, stays. */
module Ident {

  predicate IsLower(c: char) {
    'a' <= c <= 'z'
  }

  function UpperChar(c: char): char {
    if IsLower(c) then (c as int - 32) as char else c
  }

  /** The upper-cased name: same length, each lower-case letter replaced by
      its capital, every other character kept where it was. */
  function ToUpper(s: string): (r: string)
    ensures |r| == |s|
    ensures forall i :: 0 <= i < |s| ==>
      if IsLower(s[i]) then r[i] as int == s[i] as int - 32 else r[i] == s[i]
  {
    if s == [] then [] else [UpperChar(s[0])] + ToUpper(s[1..])
  }

  /** No lower-case letter is left after upper-casing. */
  lemma NoLowerAfterUpper(s: string)
    ensures forall i :: 0 <= i < |s| ==> !IsLower(ToUpper(s)[i])
  {
  }

  /** Upper-casing twice is upper-casing once: the file name is upper-cased
      before it becomes a constant's name and again when that constant is
      emitted, and the second pass changes nothing. */
  lemma {:induction false} ToUpperIdempotent(s: string)
    ensures ToUpper(ToUpper(s)) == ToUpper(s)
  {
    var u := ToUpper(s);
    NoLowerAfterUpper(s);
    assert forall i :: 0 <= i < |u| ==> ToUpper(u)[i] == u[i];
  }
}
