/** The expected-call queue of a mock object, with its groups as objects. */
module MockQueue {
  import opened Common
  import opened Mox

  class UnorderedGroup {
    const groupName: string
    var methods: seq<Call>

    constructor (groupName: string)
      ensures this.groupName == groupName && methods == []
    {
      this.groupName, methods := groupName, [];
    }

    method AddMethod(c: Call)
      modifies this
      ensures methods == old(methods) + [c]
    {
      methods := methods + [c];
    }

    /** Removes the call from the group, if it is there. */
    method MethodCalled(c: Call) returns (found: bool)
      modifies this
      ensures found <==> c in old(methods)
      ensures methods == if found then RemoveFirst(old(methods), c) else old(methods)
    {
      for i := 0 to |methods|
        invariant unchanged(this) && c !in methods[..i]
      {
        if methods[i] == c {
          methods := RemoveFirst(methods, c);
          return true;
        }
      }
      found := false;
    }

    predicate IsSatisfied()
      reads this
    {
      methods == []
    }
  }

  class MultipleTimesGroup {
    const groupName: string
    /** In the iteration order of the set; a member is known by its position. */
    var methods: seq<Call>
    var methodsLeft: set<nat>

    constructor (groupName: string)
      ensures this.groupName == groupName && methods == [] && methodsLeft == {}
    {
      this.groupName, methods, methodsLeft := groupName, [], {};
    }

    method AddMethod(c: Call)
      modifies this
      ensures methods == old(methods) + [c] && methodsLeft == old(methodsLeft) + {|old(methods)|}
    {
      methodsLeft := methodsLeft + {|methods|};
      methods := methods + [c];
    }

    /** Notes that the first equal member has been called, if there is one. */
    method MethodCalled(c: Call) returns (found: bool)
      modifies this`methodsLeft
      ensures found <==> c in methods
      ensures methodsLeft == if found then old(methodsLeft) - {IndexOf(methods, c)} else old(methodsLeft)
    {
      for i := 0 to |methods|
        invariant unchanged(this) && forall j :: 0 <= j < i ==> methods[j] != c
      {
        if methods[i] == c {
          methodsLeft := methodsLeft - {i};
          return true;
        }
      }
      found := false;
    }

    predicate IsSatisfied()
      reads this
    {
      methodsLeft == {}
    }
  }

  datatype Entry = Method(call: Call) | AnyOrderGroup(any: UnorderedGroup) | TimesGroup(times: MultipleTimesGroup)

  ghost predicate Shows(e: Entry, b: Block)
    reads if e.AnyOrderGroup? then {e.any} else {}, if e.TimesGroup? then {e.times} else {}
  {
    match e
    case Method(c) => b == Single(c)
    case AnyOrderGroup(g) => b == Unordered(g.groupName, g.methods)
    case TimesGroup(g) => b == Repeat(g.groupName, g.methods, g.methodsLeft)
  }

  ghost function Groups(es: seq<Entry>): set<object> {
    (set e | e in es && e.AnyOrderGroup? :: e.any) + (set e | e in es && e.TimesGroup? :: e.times)
  }

  /** Entry by entry the value is `view`, and no group is listed twice. */
  ghost predicate AllShown(calls: seq<Entry>, view: Expected)
    reads Groups(calls)
  {
    && |calls| == |view|
    && (forall i :: 0 <= i < |calls| ==> Shows(calls[i], view[i]))
    && (forall i, j :: 0 <= i < j < |calls| ==> calls[i] != calls[j] || calls[i].Method?)
  }

  lemma NotAmong(calls: seq<Entry>, e: Entry)
    requires e !in calls
    ensures e.AnyOrderGroup? ==> e.any !in Groups(calls)
    ensures e.TimesGroup? ==> e.times !in Groups(calls)
  {
  }

  lemma AnyOrderTakes(block: Block, q: Expected, c: Call)
    requires block.Unordered? && c in block.calls
    ensures var rest := RemoveFirst(block.calls, c);
      Replay([block] + q, c) == Some(if rest == [] then q else [Unordered(block.group, rest)] + q)
  {
    assert ([block] + q)[1..] == q;
  }

  lemma TimesTakes(block: Block, q: Expected, c: Call)
    requires block.Repeat? && c in block.members
    ensures var left := block.left - {IndexOf(block.members, c)};
      Replay([block] + q, c) == Some([Repeat(block.group, block.members, left)] + q)
  {
    assert ([block] + q)[1..] == q;
  }

  class ExpectedCalls {
    var calls: seq<Entry>
    /** The queue as a value. */
    ghost var view: Expected

    ghost predicate Valid()
      reads this, Groups(calls)
    {
      AllShown(calls, view)
    }

    constructor ()
      ensures Valid() && view == [] && calls == []
    {
      calls, view := [], [];
    }

    /** A call in record mode is appended on its own. */
    method Append(c: Call)
      requires Valid()
      modifies this
      ensures Valid() && view == Add(old(view), Ordered(c)) && calls == old(calls) + [Method(c)]
      ensures Records(view) == Records(old(view)) + [Ordered(c)]
    {
      AddRecords(view, Ordered(c));
      calls := calls + [Method(c)];
      view := view + [Single(c)];
    }

    /** `InAnyOrder` right after the call: it leaves the tail and joins or begins a group. */
    method InAnyOrder(c: Call, groupName: string, ghost before: Expected)
      requires Valid() && calls != [] && calls[|calls| - 1] == Method(c) && view == Add(before, Ordered(c))
      modifies this, Groups(calls)
      ensures Valid() && view == Add(before, AnyOrder(c, groupName))
      ensures Records(view) == Records(before) + [AnyOrder(c, groupName)]
    {
      hide Records;
      AddRecords(before, AnyOrder(c, groupName));
      calls := calls[..|calls| - 1];
      view := before;
      var last := |calls| - 1;
      if last >= 0 && calls[last].AnyOrderGroup? && calls[last].any.groupName == groupName {
        JoinAnyOrder(c);
      } else {
        NewAnyOrder(c, groupName);
      }
    }

    method JoinAnyOrder(c: Call)
      requires Valid() && calls != [] && calls[|calls| - 1].AnyOrderGroup?
      modifies this, calls[|calls| - 1].any
      ensures Valid() && view == Add(old(view), AnyOrder(c, old(calls)[|old(calls)| - 1].any.groupName))
    {
      var last := |calls| - 1;
      var group := calls[last].any;
      assert Shows(calls[last], view[last]);
      group.AddMethod(c);
      view := view[..last] + [Unordered(group.groupName, group.methods)];
    }

    method NewAnyOrder(c: Call, groupName: string)
      requires Valid()
      modifies this
      ensures Valid() && view == old(view) + [Unordered(groupName, [c])]
    {
      var group := new UnorderedGroup(groupName);
      group.AddMethod(c);
      calls := calls + [AnyOrderGroup(group)];
      view := view + [Unordered(groupName, [c])];
    }

    method MultipleTimes(c: Call, groupName: string, ghost before: Expected)
      requires Valid() && calls != [] && calls[|calls| - 1] == Method(c) && view == Add(before, Ordered(c))
      modifies this, Groups(calls)
      ensures Valid() && view == Add(before, Times(c, groupName))
      ensures Records(view) == Records(before) + [Times(c, groupName)]
    {
      hide Records;
      AddRecords(before, Times(c, groupName));
      calls := calls[..|calls| - 1];
      view := before;
      var last := |calls| - 1;
      if last >= 0 && calls[last].TimesGroup? && calls[last].times.groupName == groupName {
        JoinTimes(c);
      } else {
        NewTimes(c, groupName);
      }
    }

    method JoinTimes(c: Call)
      requires Valid() && calls != [] && calls[|calls| - 1].TimesGroup?
      modifies this, calls[|calls| - 1].times
      ensures Valid() && view == Add(old(view), Times(c, old(calls)[|old(calls)| - 1].times.groupName))
    {
      var last := |calls| - 1;
      var group := calls[last].times;
      assert Shows(calls[last], view[last]);
      group.AddMethod(c);
      view := view[..last] + [Repeat(group.groupName, group.methods, group.methodsLeft)];
    }

    method NewTimes(c: Call, groupName: string)
      requires Valid()
      modifies this
      ensures Valid() && view == old(view) + [Repeat(groupName, [c], {0})]
    {
      var group := new MultipleTimesGroup(groupName);
      group.AddMethod(c);
      calls := calls + [TimesGroup(group)];
      view := view + [Repeat(groupName, [c], {0})];
    }

    /** An entry has been popped: it shows `block`, and is not in the queue unless it is a single call. */
    ghost predicate Popped(expected: Entry, block: Block)
      reads this, Groups(calls), Groups([expected])
    {
      Valid() && Shows(expected, block) && (expected.Method? || expected !in calls)
    }

    /** `_PopNextMethod`. */
    method PopNextMethod() returns (expected: Entry, ghost block: Block)
      requires Valid() && calls != []
      modifies this
      ensures Popped(expected, block) && [block] + view == old(view) && [expected] + calls == old(calls)
    {
      expected, block := calls[0], view[0];
      calls, view := calls[1..], view[1..];
      assert [block] + view == old(view) && [expected] + calls == old(calls);
    }

    /** `_VerifyMethodCall`: groups that are done make way for the next entry until one decides. */
    method VerifyMethodCall(c: Call) returns (ok: bool)
      requires Valid()
      modifies this, Groups(calls)
      ensures ok <==> Replay(old(view), c).Some?
      ensures ok ==> Valid() && Some(view) == Replay(old(view), c) && Groups(calls) <= old(Groups(calls))
    {
      if calls == [] { return false; }
      ghost var goal := Replay(view, c);
      var expected, block := PopNextMethod();
      while expected.TimesGroup?
        invariant Groups([expected] + calls) <= old(Groups(calls))
        invariant Popped(expected, block) && goal == Replay([block] + view, c)
        decreases |calls|
      {
        ok := TimesCalled(expected, block, c);
        if ok { return; }
        assert ([block] + view)[1..] == view;
        if !expected.times.IsSatisfied() || calls == [] { return false; }
        expected, block := PopNextMethod();
      }
      assert ([block] + view)[1..] == view;
      if expected.AnyOrderGroup? {
        ok := AnyOrderCalled(expected, block, c);
      } else {
        ok := expected.call == c;
      }
    }

    /** A group returns to the front. */
    method PushFront(expected: Entry, ghost block: Block)
      requires Valid() && expected !in calls && Shows(expected, block)
      modifies this
      ensures Valid() && calls == [expected] + old(calls) && view == [block] + old(view)
    {
      calls, view := [expected] + calls, [block] + view;
    }

    /** An unordered group takes the call or the replay fails; unless it is done it returns to the front. */
    method AnyOrderCalled(expected: Entry, ghost block: Block, c: Call) returns (ok: bool)
      requires Valid() && expected.AnyOrderGroup? && expected !in calls && Shows(expected, block)
      modifies this, expected.any
      ensures ok <==> c in block.calls
      ensures ok ==> Valid() && Some(view) == Replay([block] + old(view), c)
      ensures ok ==> calls == old(calls) || calls == [expected] + old(calls)
    {
      hide Replay, AllShown;
      NotAmong(calls, expected);
      ok := expected.any.MethodCalled(c);
      if !ok { return; }
      AnyOrderTakes(block, view, c);
      if !expected.any.IsSatisfied() {
        PushFront(expected, Unordered(block.group, RemoveFirst(block.calls, c)));
      }
    }

    /** A repeat group that takes the call always returns to the front. */
    method TimesCalled(expected: Entry, ghost block: Block, c: Call) returns (ok: bool)
      requires Valid() && expected.TimesGroup? && expected !in calls && Shows(expected, block)
      modifies this, expected.times
      ensures ok <==> c in block.members
      ensures ok ==> Valid() && Some(view) == Replay([block] + old(view), c) && calls == [expected] + old(calls)
      ensures !ok ==> Valid() && Shows(expected, block) && calls == old(calls) && view == old(view)
    {
      hide Replay, AllShown;
      NotAmong(calls, expected);
      ok := expected.times.MethodCalled(c);
      if !ok { return; }
      TimesTakes(block, view, c);
      PushFront(expected, Repeat(block.group, block.members, block.left - {IndexOf(block.members, c)}));
    }

    /** `_Verify`: the last repeat group is never popped. */
    method Verify() returns (ok: bool)
      requires Valid()
      ensures ok <==> Verified(view)
    {
      ok := calls == [] || (|calls| == 1 && calls[0].TimesGroup? && calls[0].times.IsSatisfied());
    }

    /** A whole replay: every call in turn, then the verification. */
    method ReplayCalls(w: seq<Call>) returns (ok: bool)
      requires Valid()
      modifies this, Groups(calls)
      ensures ok <==> Accepts(old(view), w)
    {
      for i := 0 to |w|
        invariant Valid() && Groups(calls) <= old(Groups(calls))
        invariant ReplayAll(old(view), w) == ReplayAll(view, w[i..])
      {
        assert w[i..][0] == w[i] && w[i..][1..] == w[i + 1..];
        var expected := VerifyMethodCall(w[i]);
        if !expected { return false; }
      }
      ok := Verify();
    }
  }
}
