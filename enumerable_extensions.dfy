// SolidStack.Core.Collections.EnumerableExtensions: `ForEach` over a
// sequence, plain and with a running index.
module CollectionEnumerableExtensions {
  import opened Base
  import Guards

  /** An Action<T>: each invocation is recorded, in call order. */
  class Action<T> {
    var invocations: seq<T>

    constructor()
      ensures invocations == []
    {
      invocations := [];
    }

    method Invoke(element: T)
      modifies this
      ensures invocations == old(invocations) + [element]
    {
      invocations := invocations + [element];
    }
  }

  /** An Action<T, int>: each invocation's element and index are recorded. */
  class IndexedAction<T> {
    var invocations: seq<(T, int)>

    constructor()
      ensures invocations == []
    {
      invocations := [];
    }

    method Invoke(element: T, index: int)
      modifies this
      ensures invocations == old(invocations) + [(element, index)]
    {
      invocations := invocations + [(element, index)];
    }
  }

  /** Each element paired with its position. */
  function Indexed<T>(s: seq<T>): (r: seq<(T, int)>)
    ensures |r| == |s|
    ensures forall i :: 0 <= i < |s| ==> r[i].0 == s[i] && r[i].1 == i
  {
    seq(|s|, i requires 0 <= i < |s| => (s[i], i))
  }

  function ActionOrNull<T>(action: Action?<T>): Nullable<Action<T>>
  {
    if action == null then Null else NonNull(action)
  }

  /** `ForEach(source, action)`: the action runs once per element, in order;
    * the guards fail before any call. */
  method ForEach<T>(source: Nullable<seq<T>>, action: Action?<T>) returns (o: Outcome)
    modifies action
    ensures source.Null? ==> o == Fail(GuardClause(Guards.NullMessage("source")))
    ensures source.NonNull? && action == null ==> o == Fail(GuardClause(Guards.NullMessage("action")))
    ensures o.Fail? && action != null ==> action.invocations == old(action.invocations)
    ensures source.NonNull? && action != null ==>
      o.Pass? && action.invocations == old(action.invocations) + source.value
  {
    var sourceGuard := Guards.RequiresNonNull(source, "source");
    if sourceGuard.Fail? {
      return sourceGuard;
    }
    var actionGuard := Guards.RequiresNonNull(ActionOrNull(action), "action");
    if actionGuard.Fail? {
      return actionGuard;
    }
    var elements := source.value;
    var i := 0;
    while i < |elements|
      invariant 0 <= i <= |elements|
      invariant action.invocations == old(action.invocations) + elements[..i]
    {
      action.Invoke(elements[i]);
      assert elements[..i + 1] == elements[..i] + [elements[i]];
      i := i + 1;
    }
    assert elements[..i] == elements;
    return Pass;
  }

  function IndexedActionOrNull<T>(action: IndexedAction?<T>): Nullable<IndexedAction<T>>
  {
    if action == null then Null else NonNull(action)
  }

  /** `ForEach(source, action)` with an index: the action gets each element
    * with the indices 0, 1, …, in order. */
  method ForEachIndexed<T>(source: Nullable<seq<T>>, action: IndexedAction?<T>) returns (o: Outcome)
    modifies action
    ensures source.Null? ==> o == Fail(GuardClause(Guards.NullMessage("source")))
    ensures source.NonNull? && action == null ==> o == Fail(GuardClause(Guards.NullMessage("action")))
    ensures o.Fail? && action != null ==> action.invocations == old(action.invocations)
    ensures source.NonNull? && action != null ==>
      o.Pass? && action.invocations == old(action.invocations) + Indexed(source.value)
  {
    var sourceGuard := Guards.RequiresNonNull(source, "source");
    if sourceGuard.Fail? {
      return sourceGuard;
    }
    var actionGuard := Guards.RequiresNonNull(IndexedActionOrNull(action), "action");
    if actionGuard.Fail? {
      return actionGuard;
    }
    var elements := source.value;
    var index := 0;
    while index < |elements|
      invariant 0 <= index <= |elements|
      invariant action.invocations == old(action.invocations) + Indexed(elements[..index])
    {
      action.Invoke(elements[index], index);
      assert Indexed(elements[..index + 1]) == Indexed(elements[..index]) + [(elements[index], index)];
      index := index + 1;
    }
    assert elements[..index] == elements;
    return Pass;
  }

  /** The indexed calls carry the elements in order and the indices 0 to n - 1. */
  lemma IndexedProjections<T>(s: seq<T>)
    ensures seq(|s|, i requires 0 <= i < |s| => Indexed(s)[i].0) == s
    ensures seq(|s|, i requires 0 <= i < |s| => Indexed(s)[i].1) == seq(|s|, i => i)
  {
  }
}
