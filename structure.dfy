/** The structural promise of the whole pipeline: for a document the
    builder accepts, the emitted root module holds exactly one constant per
    leaf value of the document and one module per nested object, plus the
    root module itself. */
module Structure {
  import opened Base
  import opened Json
  import opened Tokens
  import opened Namespace
  import opened Builder
  import opened BuildProperties
  import opened Emit

  datatype Counts = Counts(consts: nat, modules: nat)

  function Plus(a: Counts, b: Counts): Counts {
    Counts(a.consts + b.consts, a.modules + b.modules)
  }

  const NoCounts: Counts := Counts(0, 0)
  const OneConst: Counts := Counts(1, 0)
  const OneModule: Counts := Counts(0, 1)

  // ---- Counting the document ----

  /** Leaf values and nested objects of a document. A root array's objects
      are not themselves counted: they are merged into the root. */
  function DocCounts(v: Value): Counts
    decreases v, 2
  {
    match v
    case Obj(ms) => MembersCounts(ms)
    case Arr(elems) => RootArrayCounts(elems)
    case _ => OneConst
  }

  function MembersCounts(ms: seq<Member>): Counts
    decreases ms, 1
  {
    if ms == [] then NoCounts else Plus(MembersCounts(ms[..|ms| - 1]), MemberCounts(Last(ms)))
  }

  function MemberCounts(m: Member): Counts
    decreases m, 0
  {
    if m.val.Obj? then Plus(OneModule, DocCounts(m.val)) else OneConst
  }

  function RootArrayCounts(elems: seq<Value>): Counts
    decreases elems, 1
  {
    if elems == [] then NoCounts else Plus(RootArrayCounts(elems[..|elems| - 1]), DocCounts(Last(elems)))
  }

  // ---- Counting the namespace tree ----

  function EntriesCounts(ts: seq<TokenJson>): Counts
    decreases ts, 1
  {
    if ts == [] then NoCounts else Plus(EntryCounts(ts[0]), EntriesCounts(ts[1..]))
  }

  function EntryCounts(e: TokenJson): Counts
    decreases e, 0
  {
    match e
    case TokenEntry(_) => OneConst
    case NamespaceEntry(ns) => Plus(OneModule, EntriesCounts(ns.tokens))
  }

  // ---- Counting the emitted items ----

  function ItemCounts(item: Item): Counts
    decreases item, 1
  {
    match item
    case Const(_, _, _) => OneConst
    case Module(_, items) => Plus(OneModule, ItemsCounts(items))
  }

  function ItemsCounts(items: seq<Item>): Counts
    decreases items, 0
  {
    if items == [] then NoCounts else Plus(ItemCounts(items[0]), ItemsCounts(items[1..]))
  }

  // ---- The builder keeps the counts ----

  lemma {:induction false} EntriesCountsAppend(a: seq<TokenJson>, b: seq<TokenJson>)
    ensures EntriesCounts(a + b) == Plus(EntriesCounts(a), EntriesCounts(b))
    decreases |a|
  {
    if a != [] {
      var ab := a + b;
      assert ab[0] == a[0] && ab[1..] == a[1..] + b;
      EntriesCountsAppend(a[1..], b);
      calc {
        EntriesCounts(ab);
        Plus(EntryCounts(a[0]), EntriesCounts(a[1..] + b));
        Plus(EntryCounts(a[0]), Plus(EntriesCounts(a[1..]), EntriesCounts(b)));
        Plus(EntriesCounts(a), EntriesCounts(b));
      }
    } else {
      assert a + b == b;
    }
  }

  lemma {:induction false} WalkCounts(v: Value, fileName: string)
    requires Walk(v, fileName).error.None?
    ensures EntriesCounts(Walk(v, fileName).pushed) == DocCounts(v)
    decreases v, 2
  {
    match v
    case Obj(ms) => WalkMembersCounts(ms, fileName);
    case Arr(elems) => WalkRootArrayCounts(elems, fileName);
    case _ =>
      var ts := Walk(v, fileName).pushed;
      assert ts[1..] == [];
  }

  lemma EntriesCountsOne(e: TokenJson)
    ensures EntriesCounts([e]) == EntryCounts(e)
  {
    assert [e][1..] == [];
  }

  lemma {:induction false} WalkMemberCounts(m: Member, fileName: string)
    requires WalkMember(m, fileName).error.None?
    ensures EntriesCounts(WalkMember(m, fileName).pushed) == MemberCounts(m)
    decreases m, 0
  {
    var ts := WalkMember(m, fileName).pushed;
    if m.val.Obj? {
      var inner := Walk(m.val, fileName);
      assert ts == [NamespaceEntry(NamespaceTree(Some(m.key), inner.pushed))];
      EntriesCountsOne(ts[0]);
      WalkCounts(m.val, fileName);
    } else if m.val.Arr? {
      var c := ClassifyArray(m.val.elems);
      assert ts == [TokenEntry(Token(m.key, Array(c.value)))];
      EntriesCountsOne(ts[0]);
    } else {
      assert ts == [TokenEntry(Token(m.key, Single(ScalarText(m.val))))];
      EntriesCountsOne(ts[0]);
    }
  }

  lemma {:induction false} WalkMembersCounts(ms: seq<Member>, fileName: string)
    requires WalkMembers(ms, fileName).error.None?
    ensures EntriesCounts(WalkMembers(ms, fileName).pushed) == MembersCounts(ms)
    decreases ms, 1
  {
    if ms != [] {
      var init := ms[..|ms| - 1];
      var before := WalkMembers(init, fileName);
      assert WalkMembers(ms, fileName) == Then(before, WalkMember(Last(ms), fileName));
      WalkMembersCounts(init, fileName);
      WalkMemberCounts(Last(ms), fileName);
      EntriesCountsAppend(before.pushed, WalkMember(Last(ms), fileName).pushed);
    }
  }

  lemma {:induction false} WalkRootArrayCounts(elems: seq<Value>, fileName: string)
    requires WalkRootArray(elems, fileName).error.None?
    ensures EntriesCounts(WalkRootArray(elems, fileName).pushed) == RootArrayCounts(elems)
    decreases elems, 1
  {
    if elems != [] {
      var init := elems[..|elems| - 1];
      var before := WalkRootArray(init, fileName);
      assert Last(elems).Obj?;
      assert WalkRootArray(elems, fileName) == Then(before, Walk(Last(elems), fileName));
      WalkRootArrayCounts(init, fileName);
      WalkCounts(Last(elems), fileName);
      EntriesCountsAppend(before.pushed, Walk(Last(elems), fileName).pushed);
    }
  }

  // ---- The emitter keeps the counts ----

  lemma {:induction false} EmitNamespaceCounts(ns: NamespaceTree)
    ensures ItemCounts(EmitNamespace(ns)) == Plus(OneModule, EntriesCounts(ns.tokens))
    decreases ns, 2
  {
    EmitEntriesCounts(ns.tokens);
  }

  lemma {:induction false} EmitEntriesCounts(ts: seq<TokenJson>)
    ensures ItemsCounts(EmitEntries(ts)) == EntriesCounts(ts)
    decreases ts, 1
  {
    if ts != [] {
      var items := EmitEntries(ts);
      assert items[1..] == EmitEntries(ts[1..]);
      EmitEntriesCounts(ts[1..]);
      EmitEntryCounts(ts[0]);
    }
  }

  lemma {:induction false} EmitEntryCounts(e: TokenJson)
    ensures ItemCounts(EmitEntry(e)) == EntryCounts(e)
    decreases e, 0
  {
    match e
    case NamespaceEntry(ns) => EmitNamespaceCounts(ns);
    case TokenEntry(_) =>
  }

  /** For every document the builder accepts, the emitted root module
      holds one constant per leaf value and one module per nested object,
      besides itself. */
  lemma OneConstantPerLeaf(v: Value, fileName: string)
    requires WellFormed(v)
    ensures Build(v, fileName).Ok?
    ensures ItemCounts(EmitNamespace(NamespaceTree(None, Build(v, fileName).value))) ==
      Plus(OneModule, DocCounts(v))
  {
    BuildSucceedsIffWellFormed(v, fileName);
    WalkCounts(v, fileName);
    EmitNamespaceCounts(NamespaceTree(None, Build(v, fileName).value));
  }
}
