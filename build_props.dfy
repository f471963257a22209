/** What the namespace builder promises, stated over its specification
    `Walk` / `Build`. */
module BuildProperties {
  import opened Base
  import opened Json
  import opened Errors
  import opened Tokens
  import opened Namespace
  import opened Builder

  /** The entry that member `m` of an object must become: a nested object
      a namespace named with the key as it is, holding that object's own
      entries; an array a constant named with the key, holding one text per
      element in order; a scalar a constant named with the key, holding its
      text. */
  predicate EntryFor(m: Member, e: TokenJson, fileName: string) {
    if m.val.Obj? then
      e.NamespaceEntry? && e.ns.name == Some(m.key) && Build(m.val, fileName) == Ok(e.ns.tokens)
    else
      e.TokenEntry? && e.token.name == m.key &&
      if m.val.Arr? then
        e.token.data.Array? && |e.token.data.items| == |m.val.elems| &&
        forall j :: 0 <= j < |m.val.elems| ==> e.token.data.items[j] == ElementText(m.val.elems[j])
      else
        e.token.data == Single(ScalarText(m.val))
  }

  lemma WalkMemberEntry(m: Member, fileName: string)
    requires WalkMember(m, fileName).error.None?
    ensures |WalkMember(m, fileName).pushed| == 1
    ensures EntryFor(m, WalkMember(m, fileName).pushed[0], fileName)
  {
  }

  /** A successfully built object yields exactly one entry per member, in
      the members' order, each the entry its member must become. Keys that
      collide are not merged. */
  lemma {:induction false} ObjectEntries(ms: seq<Member>, fileName: string)
    requires Build(Obj(ms), fileName).Ok?
    ensures |Build(Obj(ms), fileName).value| == |ms|
    ensures forall i :: 0 <= i < |ms| ==> EntryFor(ms[i], Build(Obj(ms), fileName).value[i], fileName)
    decreases |ms|
  {
    if ms != [] {
      var init := ms[..|ms| - 1];
      var before := WalkMembers(init, fileName);
      assert Walk(Obj(ms), fileName) == WalkMembers(ms, fileName) == Then(before, WalkMember(Last(ms), fileName));
      ObjectEntries(init, fileName);
      WalkMemberEntry(Last(ms), fileName);
      var all := Build(Obj(ms), fileName).value;
      assert all == before.pushed + WalkMember(Last(ms), fileName).pushed;
      forall i | 0 <= i < |ms|
        ensures EntryFor(ms[i], all[i], fileName)
      {
        if i < |ms| - 1 {
          assert ms[i] == init[i] && all[i] == before.pushed[i];
        }
      }
    }
  }

  /** A failure never pushes anything for the member that failed. */
  lemma WalkMemberFailurePushesNothing(m: Member, fileName: string)
    requires WalkMember(m, fileName).error.Some?
    ensures WalkMember(m, fileName).pushed == []
  {
  }

  /** When an object fails, it fails at some member k: the namespace then
      holds exactly the entries of the members before k, all built
      successfully, nothing of member k, and the error is member k's. */
  lemma {:induction false} ObjectFailureKeepsPrefix(ms: seq<Member>, fileName: string)
    requires WalkMembers(ms, fileName).error.Some?
    ensures exists k ::
      && 0 <= k < |ms|
      && WalkMembers(ms[..k], fileName).error.None?
      && WalkMember(ms[k], fileName).error.Some?
      && WalkMembers(ms, fileName) == Walked(WalkMembers(ms[..k], fileName).pushed, WalkMember(ms[k], fileName).error)
    decreases |ms|
  {
    var init := ms[..|ms| - 1];
    if WalkMembers(init, fileName).error.Some? {
      ObjectFailureKeepsPrefix(init, fileName);
      var k :| 0 <= k < |init| &&
        WalkMembers(init[..k], fileName).error.None? &&
        WalkMember(init[k], fileName).error.Some? &&
        WalkMembers(init, fileName) == Walked(WalkMembers(init[..k], fileName).pushed, WalkMember(init[k], fileName).error);
      assert init[..k] == ms[..k] && init[k] == ms[k];
    } else {
      var k := |ms| - 1;
      assert ms[..k] == init;
      WalkMemberFailurePushesNothing(ms[k], fileName);
      assert WalkMembers(init, fileName).pushed + [] == WalkMembers(init, fileName).pushed;
    }
  }

  /** An independent statement of which documents the builder accepts:
      every array field is free of objects, every nested object is itself
      acceptable, and a root array holds only acceptable objects. */
  predicate WellFormed(v: Value)
    decreases v, 1
  {
    match v
    case Obj(ms) => forall i :: 0 <= i < |ms| ==> MemberWellFormed(ms[i])
    case Arr(elems) => forall i :: 0 <= i < |elems| ==> elems[i].Obj? && WellFormed(elems[i])
    case _ => true
  }

  predicate MemberWellFormed(m: Member)
    decreases m, 0
  {
    match m.val
    case Obj(_) => WellFormed(m.val)
    case Arr(elems) => forall j :: 0 <= j < |elems| ==> !elems[j].Obj?
    case _ => true
  }

  lemma {:induction false} WalkSucceedsIff(v: Value, fileName: string)
    ensures Walk(v, fileName).error.None? <==> WellFormed(v)
    decreases v, 2
  {
    match v
    case Obj(ms) => WalkMembersSucceedIff(ms, fileName);
    case Arr(elems) => WalkRootArraySucceedsIff(elems, fileName);
    case _ =>
  }

  lemma {:induction false} WalkMemberSucceedsIff(m: Member, fileName: string)
    ensures WalkMember(m, fileName).error.None? <==> MemberWellFormed(m)
    decreases m, 0
  {
    if m.val.Obj? {
      WalkSucceedsIff(m.val, fileName);
    }
  }

  lemma {:induction false} WalkMembersSucceedIff(ms: seq<Member>, fileName: string)
    ensures WalkMembers(ms, fileName).error.None? <==>
      forall i :: 0 <= i < |ms| ==> MemberWellFormed(ms[i])
    decreases ms, 1
  {
    if ms != [] {
      var init := ms[..|ms| - 1];
      WalkMembersSucceedIff(init, fileName);
      WalkMemberSucceedsIff(Last(ms), fileName);
      assert forall i :: 0 <= i < |init| ==> init[i] == ms[i];
    }
  }

  lemma {:induction false} WalkRootArraySucceedsIff(elems: seq<Value>, fileName: string)
    ensures WalkRootArray(elems, fileName).error.None? <==>
      forall i :: 0 <= i < |elems| ==> elems[i].Obj? && WellFormed(elems[i])
    decreases elems, 1
  {
    if elems != [] {
      var init := elems[..|elems| - 1];
      WalkRootArraySucceedsIff(init, fileName);
      if Last(elems).Obj? {
        WalkSucceedsIff(Last(elems), fileName);
      }
      assert forall i :: 0 <= i < |init| ==> init[i] == elems[i];
    }
  }

  /** The build succeeds exactly on well-formed documents, whatever the
      file name. */
  lemma BuildSucceedsIffWellFormed(v: Value, fileName: string)
    ensures Build(v, fileName).Ok? <==> WellFormed(v)
  {
    WalkSucceedsIff(v, fileName);
  }

  lemma ThenAssociative(x: Walked, y: Walked, z: Walked)
    ensures Then(Then(x, y), z) == Then(x, Then(y, z))
  {
  }

  /** Walking `a + b` is walking `a`, then `b`. */
  lemma {:induction false} WalkMembersAppend(a: seq<Member>, b: seq<Member>, fileName: string)
    ensures WalkMembers(a + b, fileName) == Then(WalkMembers(a, fileName), WalkMembers(b, fileName))
    decreases |b|
  {
    if b == [] {
      assert a + b == a;
    } else {
      var initB := b[..|b| - 1];
      WalkMembersAppend(a, initB, fileName);
      assert (a + b)[..|a + b| - 1] == a + initB;
      ThenAssociative(WalkMembers(a, fileName), WalkMembers(initB, fileName), WalkMember(Last(b), fileName));
    }
  }

  /** The members of all the objects of a root array, one object after the
      other. */
  function MergedMembers(elems: seq<Value>): seq<Member>
    requires forall i :: 0 <= i < |elems| ==> elems[i].Obj?
  {
    if elems == [] then [] else MergedMembers(elems[..|elems| - 1]) + Last(elems).members
  }

  /** A root array of objects is walked exactly as the single object that
      holds all their members in order: the objects' entries land side by
      side in the same namespace, with no level for the array, and even a
      failure leaves the same entries behind. */
  lemma {:induction false} RootArrayMergesObjects(elems: seq<Value>, fileName: string)
    requires forall i :: 0 <= i < |elems| ==> elems[i].Obj?
    ensures Walk(Arr(elems), fileName) == Walk(Obj(MergedMembers(elems)), fileName)
    decreases |elems|
  {
    if elems != [] {
      var init := elems[..|elems| - 1];
      RootArrayMergesObjects(init, fileName);
      WalkMembersAppend(MergedMembers(init), Last(elems).members, fileName);
      assert Walk(Arr(elems), fileName) == Then(WalkRootArray(init, fileName), Walk(Last(elems), fileName));
      assert WalkRootArray(init, fileName) == WalkMembers(MergedMembers(init), fileName);
      assert Walk(Last(elems), fileName) == WalkMembers(Last(elems).members, fileName);
    }
  }

  /** In a root array whose leading objects are all well formed, the first
      element that is not an object is the error. */
  lemma RootArrayFirstNonObject(elems: seq<Value>, k: nat, fileName: string)
    requires k < |elems| && !elems[k].Obj?
    requires forall j :: 0 <= j < k ==> elems[j].Obj? && WellFormed(elems[j])
    ensures Build(Arr(elems), fileName) == Err(RootElementNotObject(elems[k]))
  {
    var upTo := elems[..k];
    WalkRootArraySucceedsIff(upTo, fileName);
    assert elems[..k + 1][..k] == upTo;
    WalkRootArrayStops(elems, k + 1, fileName);
  }

  /** A bare scalar document is exactly one constant, named by the file
      name passed in, holding the scalar's text. */
  lemma ScalarRootIsOneConstant(v: Value, fileName: string)
    requires IsScalar(v)
    ensures Build(v, fileName) == Ok([TokenEntry(Token(fileName, Single(ScalarText(v))))])
  {
  }

  /** An array field holding an object fails on its first object element:
      the error names that element and is attached to its JSON text, and
      the member's key is no part of it. */
  lemma ArrayFieldErrorSpan(key: string, elems: seq<Value>, fileName: string)
    requires exists j :: 0 <= j < |elems| && elems[j].Obj?
    ensures FirstObject(elems) < |elems|
    ensures WalkMember(Member(key, Arr(elems)), fileName) ==
      Walked([], Some(ArrayContainsObject(elems[FirstObject(elems)])))
    ensures Span(ArrayContainsObject(elems[FirstObject(elems)])) == JsonText(elems[FirstObject(elems)])
    ensures Message(ArrayContainsObject(elems[FirstObject(elems)])) == "Everything except Object was expected"
  {
    var r := ClassifyArray(elems);
    var k :| 0 <= k < |elems| && elems[k].Obj? && r.error == ArrayContainsObject(elems[k]) &&
      forall j :: 0 <= j < k ==> !elems[j].Obj?;
    assert FirstObject(elems) == k;
  }
}
