/** The code emitter: a namespace becomes `pub mod NAME { … }` and a token
    becomes `pub const NAME: TYPE = VALUE;`. The emitted declarations are
    kept as records (`Item`); `Render` writes them out as text. */
module Emit {
  import opened Base
  import opened Ident
  import opened Tokens
  import opened Namespace

  /** One emitted declaration: a module with its items in order, or a
      constant with its name, its type text and its value text. */
  datatype Item =
    | Module(name: string, items: seq<Item>)
    | Const(name: string, ty: string, value: string)

  /** The module name of a namespace that has none. */
  const DefaultModuleName: string := "lang"

  /** The module name of a namespace: its own name as given, or `lang`. */
  function ModuleName(ns: NamespaceTree): string {
    match ns.name
    case Some(n) => n
    case None => DefaultModuleName
  }

  /** A token: the name upper-cased, the type from `GetType`, the value
      from `IntoData`. */
  function EmitToken(t: Token): Item {
    Const(ToUpper(t.name), GetType(t.data), IntoData(t.data))
  }

  function EmitEntry(e: TokenJson): Item
    decreases e, 0
  {
    match e
    case NamespaceEntry(ns) => EmitNamespace(ns)
    case TokenEntry(t) => EmitToken(t)
  }

  /** The entries of a namespace, each emitted, in push order. */
  function EmitEntries(ts: seq<TokenJson>): (r: seq<Item>)
    ensures |r| == |ts|
    ensures forall i :: 0 <= i < |ts| ==> r[i] == EmitEntry(ts[i])
    decreases ts, 1
  {
    if ts == [] then [] else [EmitEntry(ts[0])] + EmitEntries(ts[1..])
  }

  function EmitNamespace(ns: NamespaceTree): Item
    decreases ns, 2
  {
    Module(ModuleName(ns), EmitEntries(ns.tokens))
  }

  /** A constant emitted for a token carries the token's name upper-cased,
      and its type and value give back the token's data exactly: a single
      value is `&str`, an array is `[&str; N]` with N its length, and the
      value literal holds the same strings in the same order. */
  lemma EmitTokenDecodes(t: Token)
    ensures EmitToken(t).Const? && EmitToken(t).name == ToUpper(t.name)
    ensures DecodeData(EmitToken(t).ty, EmitToken(t).value) == Some(t.data)
    ensures t.data.Single? <==> EmitToken(t).ty == StrType
  {
    DataRoundTrip(t.data);
    GetTypeLength(t.data);
  }

  /** A namespace is emitted as a module named `lang` when it has no name,
      and by its own name, not upper-cased, otherwise. The module holds one
      item per entry, in order: a nested module for each nested namespace
      and, for each token, a constant that decodes back to the token. */
  lemma EmitNamespaceShape(ns: NamespaceTree)
    ensures EmitNamespace(ns).Module?
    ensures ns.name.None? ==> EmitNamespace(ns).name == "lang"
    ensures ns.name.Some? ==> EmitNamespace(ns).name == ns.name.value
    ensures |EmitNamespace(ns).items| == |ns.tokens|
    ensures forall i :: 0 <= i < |ns.tokens| ==>
      var item, e := EmitNamespace(ns).items[i], ns.tokens[i];
      (item.Module? <==> e.NamespaceEntry?) &&
      (e.NamespaceEntry? ==> item == EmitNamespace(e.ns)) &&
      (e.TokenEntry? ==> item.name == ToUpper(e.token.name) &&
                         DecodeData(item.ty, item.value) == Some(e.token.data))
  {
    forall i | 0 <= i < |ns.tokens| && ns.tokens[i].TokenEntry? {
      EmitTokenDecodes(ns.tokens[i].token);
    }
  }

  /** The declaration text of an item. Items inside a module follow one
      another, each followed by a space. */
  function Render(item: Item): string
    decreases item, 1
  {
    match item
    case Const(name, ty, value) => "pub const " + name + ": " + ty + " = " + value + ";"
    case Module(name, items) => "pub mod " + name + " { " + RenderAll(items) + "}"
  }

  function RenderAll(items: seq<Item>): string
    decreases items, 0
  {
    if items == [] then "" else Render(items[0]) + " " + RenderAll(items[1..])
  }

  /** Rendering a list of items is rendering each part in turn: the text of
      `a + b` is the text of `a` followed by the text of `b`. */
  lemma {:induction false} RenderAllAppend(a: seq<Item>, b: seq<Item>)
    ensures RenderAll(a + b) == RenderAll(a) + RenderAll(b)
    decreases |a|
  {
    if a == [] {
      assert a + b == b;
    } else {
      assert (a + b)[0] == a[0] && (a + b)[1..] == a[1..] + b;
      RenderAllAppend(a[1..], b);
    }
  }
}
