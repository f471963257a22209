/** The namespace tree: a namespace holds, in push order, constants and
    nested namespaces. `JsonNamespace` is the mutable namespace the builder
    pushes into; a nested namespace is moved into its parent once it is
    complete, so inside a parent it is a value. */
module Namespace {
  import opened Base
  import opened Tokens

  datatype TokenJson =
    | NamespaceEntry(ns: NamespaceTree)
    | TokenEntry(token: Token)

  /** A finished namespace. `name` is absent only for the root. */
  datatype NamespaceTree = NamespaceTree(name: Option<string>, tokens: seq<TokenJson>)

  class JsonNamespace {
    var namespace: Option<string>
    var tokens: seq<TokenJson>

    /** `JsonNamespace::default()`: the unnamed, empty root. */
    constructor Default()
      ensures namespace == None && tokens == []
    {
      namespace := None;
      tokens := [];
    }

    /** `JsonNamespace::new(key)`: an empty namespace named with the key as
        it is. */
    constructor New(name: string)
      ensures namespace == Some(name) && tokens == []
    {
      namespace := Some(name);
      tokens := [];
    }

    /** `tokens.push(entry)`. */
    method Push(entry: TokenJson)
      modifies this
      ensures tokens == old(tokens) + [entry]
      ensures namespace == old(namespace)
    {
      tokens := tokens + [entry];
    }

    /** The namespace as a value, as it is when moved into its parent. */
    function Snapshot(): NamespaceTree
      reads this
    {
      NamespaceTree(namespace, tokens)
    }
  }
}
