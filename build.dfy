/** The namespace builder (`parse_json`).

    `ParseJson` walks a document and pushes entries onto a `JsonNamespace`,
    as the source does. Its specification is `Walk`, which gives both what
    lands in the namespace and whether the walk failed: on a failure the
    entries pushed before it stay in the namespace (the caller discards the
    namespace then), so `Walk` keeps them too. `Build` is the outcome a
    caller sees. */
module Builder {
  import opened Base
  import opened Json
  import opened Errors
  import opened Tokens
  import opened Namespace

  /** What a walk pushed, and the error that stopped it, if any. */
  datatype Walked = Walked(pushed: seq<TokenJson>, error: Option<Error>) {
    /** The `syn::Result<()>` that `parse_json` returns. */
    function Outcome(): Result<()> {
      if error.Some? then Err(error.value) else Ok(())
    }
  }

  const Nothing: Walked := Walked([], None)

  /** Runs `w2` after `w1`, unless `w1` already failed. */
  function Then(w1: Walked, w2: Walked): Walked {
    if w1.error.Some? then w1 else Walked(w1.pushed + w2.pushed, w2.error)
  }

  /** What `parse_json(value, root, fileName)` pushes onto `root`. */
  function Walk(v: Value, fileName: string): Walked
    decreases v, 2
  {
    match v
    case Obj(ms) => WalkMembers(ms, fileName)
    case Arr(elems) => WalkRootArray(elems, fileName)
    case _ => Walked([TokenEntry(Token(fileName, Single(ScalarText(v))))], None)
  }

  /** The members of an object, in order, stopping at the first failure. */
  function WalkMembers(ms: seq<Member>, fileName: string): Walked
    decreases ms, 1
  {
    if ms == [] then Nothing
    else Then(WalkMembers(ms[..|ms| - 1], fileName), WalkMember(Last(ms), fileName))
  }

  /** One member of an object. A nested object becomes a namespace named
      with the key as it is, pushed only once its own walk has succeeded; an
      array becomes one array constant, or fails on an object element before
      anything is pushed; a scalar becomes one constant. */
  function WalkMember(m: Member, fileName: string): Walked
    decreases m, 0
  {
    match m.val
    case Obj(_) =>
      var inner := Walk(m.val, fileName);
      if inner.error.Some? then Walked([], inner.error)
      else Walked([NamespaceEntry(NamespaceTree(Some(m.key), inner.pushed))], None)
    case Arr(elems) =>
      (match ClassifyArray(elems)
       case Err(e) => Walked([], Some(e))
       case Ok(items) => Walked([TokenEntry(Token(m.key, Array(items)))], None))
    case _ => Walked([TokenEntry(Token(m.key, Single(ScalarText(m.val))))], None)
  }

  /** The elements of a root-level array: each object is walked into the
      same namespace; the first element that is not an object fails. */
  function WalkRootArray(elems: seq<Value>, fileName: string): Walked
    decreases elems, 1
  {
    if elems == [] then Nothing
    else
      var e := Last(elems);
      Then(WalkRootArray(elems[..|elems| - 1], fileName),
           if e.Obj? then Walk(e, fileName) else Walked([], Some(RootElementNotObject(e))))
  }

  /** The whole build of a document: its entries, or its error. */
  function Build(v: Value, fileName: string): Result<seq<TokenJson>> {
    var w := Walk(v, fileName);
    if w.error.Some? then Err(w.error.value) else Ok(w.pushed)
  }

  /** The index of the first object in `arr`, or `|arr|` if there is none. */
  function FirstObject(arr: seq<Value>): (k: nat)
    ensures k <= |arr|
    ensures forall j :: 0 <= j < k ==> !arr[j].Obj?
    ensures k < |arr| ==> arr[k].Obj?
  {
    if arr == [] then 0
    else if arr[0].Obj? then 0
    else 1 + FirstObject(arr[1..])
  }

  /** The texts of an array field, or the error on its first object
      element. */
  function ClassifyArray(arr: seq<Value>): (r: Result<seq<string>>)
    ensures r.Ok? <==> forall j :: 0 <= j < |arr| ==> !arr[j].Obj?
    ensures r.Ok? ==>
      |r.value| == |arr| && forall j :: 0 <= j < |arr| ==> r.value[j] == ElementText(arr[j])
    ensures r.Err? ==>
      exists k :: 0 <= k < |arr| && arr[k].Obj? && r.error == ArrayContainsObject(arr[k]) &&
        forall j :: 0 <= j < k ==> !arr[j].Obj?
  {
    var k := FirstObject(arr);
    if k < |arr| then Err(ArrayContainsObject(arr[k]))
    else Ok(seq(|arr|, j requires 0 <= j < |arr| => ElementText(arr[j])))
  }

  /** The loop over an array field's elements that collects their texts. */
  method CollectArray(arr: seq<Value>) returns (r: Result<seq<string>>)
    ensures r == ClassifyArray(arr)
  {
    var items: seq<string> := [];
    var i := 0;
    while i < |arr|
      invariant 0 <= i <= |arr|
      invariant |items| == i
      invariant forall j :: 0 <= j < i ==> !arr[j].Obj? && items[j] == ElementText(arr[j])
    {
      var val := arr[i];
      if val.Obj? {
        return Err(ArrayContainsObject(val));
      }
      if val.Str? {
        items := items + [val.s];
      } else {
        items := items + [JsonText(val)];
      }
      i := i + 1;
    }
    assert items == seq(|arr|, j requires 0 <= j < |arr| => ElementText(arr[j]));
    return Ok(items);
  }

  /** Once the members up to `k` have failed, the rest change nothing. */
  lemma {:induction false} WalkMembersStops(ms: seq<Member>, k: nat, fileName: string)
    requires k <= |ms|
    requires WalkMembers(ms[..k], fileName).error.Some?
    ensures WalkMembers(ms, fileName) == WalkMembers(ms[..k], fileName)
    decreases |ms|
  {
    if k < |ms| {
      var init := ms[..|ms| - 1];
      assert init[..k] == ms[..k];
      WalkMembersStops(init, k, fileName);
    } else {
      assert ms[..k] == ms;
    }
  }

  /** Once the elements up to `k` have failed, the rest change nothing. */
  lemma {:induction false} WalkRootArrayStops(elems: seq<Value>, k: nat, fileName: string)
    requires k <= |elems|
    requires WalkRootArray(elems[..k], fileName).error.Some?
    ensures WalkRootArray(elems, fileName) == WalkRootArray(elems[..k], fileName)
    decreases |elems|
  {
    if k < |elems| {
      var init := elems[..|elems| - 1];
      assert init[..k] == elems[..k];
      WalkRootArrayStops(init, k, fileName);
    } else {
      assert elems[..k] == elems;
    }
  }

  /** The body of `parse_json`'s loop over an object's members: pushes the
      entry for one member onto `root`, or fails without pushing. */
  method ParseMember(m: Member, root: JsonNamespace, fileName: string) returns (r: Result<()>)
    modifies root
    ensures root.namespace == old(root.namespace)
    ensures root.tokens == old(root.tokens) + WalkMember(m, fileName).pushed
    ensures r == WalkMember(m, fileName).Outcome()
    decreases m, 0
  {
    var key, val := m.key, m.val;
    if val.Obj? {
      var namespace := new JsonNamespace.New(key);
      r := ParseJson(val, namespace, fileName);
      assert namespace.tokens == Walk(val, fileName).pushed;
      if r.Ok? {
        root.Push(NamespaceEntry(namespace.Snapshot()));
      }
    } else if val.Arr? {
      var items := CollectArray(val.elems);
      if items.Err? {
        return Err(items.error);
      }
      root.Push(TokenEntry(Token(key, Array(items.value))));
      r := Ok(());
    } else {
      if val.Str? {
        root.Push(TokenEntry(Token(key, Single(val.s))));
      } else if val.Num? {
        root.Push(TokenEntry(Token(key, Single(val.lit))));
      } else if val.Null? {
        root.Push(TokenEntry(Token(key, Single(""))));
      } else {
        root.Push(TokenEntry(Token(key, Single(BoolText(val.b)))));
      }
      r := Ok(());
    }
  }

  /** `parse_json` on an object: the loop over its members. */
  method ParseObject(ms: seq<Member>, root: JsonNamespace, fileName: string) returns (r: Result<()>)
    modifies root
    ensures root.namespace == old(root.namespace)
    ensures root.tokens == old(root.tokens) + WalkMembers(ms, fileName).pushed
    ensures r == WalkMembers(ms, fileName).Outcome()
    decreases ms, 1
  {
    var i := 0;
    while i < |ms|
      invariant 0 <= i <= |ms|
      invariant root.namespace == old(root.namespace)
      invariant WalkMembers(ms[..i], fileName).error == None
      invariant root.tokens == old(root.tokens) + WalkMembers(ms[..i], fileName).pushed
    {
      assert ms[..i + 1][..i] == ms[..i] && Last(ms[..i + 1]) == ms[i];
      var res := ParseMember(ms[i], root, fileName);
      if res.Err? {
        WalkMembersStops(ms, i + 1, fileName);
        return res;
      }
      i := i + 1;
    }
    assert ms[..i] == ms;
    return Ok(());
  }

  /** `parse_json` on a root-level array: each object element is walked
      into the same `root`; any other element fails. */
  method ParseRootArray(elems: seq<Value>, root: JsonNamespace, fileName: string) returns (r: Result<()>)
    modifies root
    ensures root.namespace == old(root.namespace)
    ensures root.tokens == old(root.tokens) + WalkRootArray(elems, fileName).pushed
    ensures r == WalkRootArray(elems, fileName).Outcome()
    decreases elems, 1
  {
    var i := 0;
    while i < |elems|
      invariant 0 <= i <= |elems|
      invariant root.namespace == old(root.namespace)
      invariant WalkRootArray(elems[..i], fileName).error == None
      invariant root.tokens == old(root.tokens) + WalkRootArray(elems[..i], fileName).pushed
    {
      assert elems[..i + 1][..i] == elems[..i] && Last(elems[..i + 1]) == elems[i];
      var val := elems[i];
      if val.Obj? {
        var res := ParseJson(val, root, fileName);
        if res.Err? {
          WalkRootArrayStops(elems, i + 1, fileName);
          return res;
        }
      } else {
        WalkRootArrayStops(elems, i + 1, fileName);
        return Err(RootElementNotObject(val));
      }
      i := i + 1;
    }
    assert elems[..i] == elems;
    return Ok(());
  }

  /** `parse_json`: walks `value` and pushes its entries onto `root`. The
      name of `root` is left alone; what is pushed, and the result, are
      those of `Walk`. A scalar can only be met at the top, since the
      recursive calls pass objects only; it becomes one constant named
      `fileName`. */
  method ParseJson(value: Value, root: JsonNamespace, fileName: string) returns (r: Result<()>)
    modifies root
    ensures root.namespace == old(root.namespace)
    ensures root.tokens == old(root.tokens) + Walk(value, fileName).pushed
    ensures r == Walk(value, fileName).Outcome()
    decreases value, 2
  {
    if value.Obj? {
      r := ParseObject(value.members, root, fileName);
    } else if value.Arr? {
      r := ParseRootArray(value.elems, root, fileName);
    } else {
      if value.Str? {
        root.Push(TokenEntry(Token(fileName, Single(value.s))));
      } else if value.Num? {
        root.Push(TokenEntry(Token(fileName, Single(value.lit))));
      } else if value.Null? {
        root.Push(TokenEntry(Token(fileName, Single(""))));
      } else {
        root.Push(TokenEntry(Token(fileName, Single(BoolText(value.b)))));
      }
      r := Ok(());
    }
  }
}
