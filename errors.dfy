/** The ways one generation can fail. Every failure is whole: the caller
    gets the error and nothing else. */
module Errors {
  import opened Json

  const CrateName: string := "anylang"

  /** What the `error!` macro puts before a message. */
  const ErrorPrefix: string := "[" + CrateName + ":parse:ERROR] "

  datatype Error =
    | NoFileName(path: string)                          // the path names no file
    | CannotRead(fileName: string, cause: string)       // opening the file failed
    | CannotDeserialize(fileName: string, cause: string) // the JSON parser refused it
    | NoExtension(fileName: string)                     // the file name has no extension
    | ArrayContainsObject(element: Value)               // an object inside an array field
    | RootElementNotObject(element: Value)              // a root array element that is not an object

  datatype Result<T> = Ok(value: T) | Err(error: Error)

  /** `error!(msg)`: the message behind the crate's fixed prefix. */
  function Prefixed(msg: string): (r: string)
    ensures |r| == |ErrorPrefix| + |msg|
    ensures r[..|ErrorPrefix|] == ErrorPrefix && r[|ErrorPrefix|..] == msg
  {
    ErrorPrefix + msg
  }

  /** The prefix hides nothing: two prefixed messages are equal exactly
      when the messages behind the prefix are. */
  lemma PrefixedInjective(a: string, b: string)
    ensures Prefixed(a) == Prefixed(b) <==> a == b
  {
    if Prefixed(a) == Prefixed(b) {
      assert a == Prefixed(a)[|ErrorPrefix|..];
      assert b == Prefixed(b)[|ErrorPrefix|..];
    }
  }

  /** Errors raised while locating and reading the file, as opposed to those
      raised while walking the document. */
  predicate IsFileError(e: Error) {
    !e.ArrayContainsObject? && !e.RootElementNotObject?
  }

  /** The message each error carries. Errors about the file go through
      `error!`; the two raised while walking the document do not. */
  function Message(e: Error): string {
    match e
    case NoFileName(path) => Prefixed("File expected but received " + path)
    case CannotRead(name, cause) => Prefixed("Cannot read file " + name + " cause " + cause)
    case CannotDeserialize(name, cause) => Prefixed("Cannot deserialize " + name + " cause " + cause)
    case NoExtension(_) => Prefixed("A file with some extension was expected")
    case ArrayContainsObject(_) => "Everything except Object was expected"
    case RootElementNotObject(_) => "Excepted Object into Array, but actually "
  }

  /** The text the error is attached to (the literal it is spanned on). */
  function Span(e: Error): string {
    match e
    case NoFileName(path) => path
    case CannotRead(_, cause) => cause
    case CannotDeserialize(_, cause) => cause
    case NoExtension(name) => name
    case ArrayContainsObject(v) => JsonText(v)
    case RootElementNotObject(v) => JsonText(v)
  }

  /** The message of an error about the document is no prefixed message
      at all, whatever text follows the prefix. */
  lemma DocumentErrorUnprefixed(e: Error, msg: string)
    requires !IsFileError(e)
    ensures Message(e) != Prefixed(msg)
  {
    assert Message(e)[0] == 'E' && Prefixed(msg)[0] == '[';
  }

  /** A message carries the crate prefix exactly when the error is about the
      file, and then the text after the prefix is the bare message. */
  lemma PrefixMarksFileErrors(e: Error)
    ensures IsFileError(e) <==>
      |Message(e)| >= |ErrorPrefix| && Message(e)[..|ErrorPrefix|] == ErrorPrefix
    ensures e.NoExtension? ==>
      Message(e)[|ErrorPrefix|..] == "A file with some extension was expected"
  {
    if !IsFileError(e) {
      assert Message(e)[0] == 'E' && ErrorPrefix[0] == '[';
    }
  }
}
