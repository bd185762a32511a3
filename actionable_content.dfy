// SolidStack.Core.Flow.Internal.ActionableContent: the action list behind a
// `.Do(...)` chain on a value. Every matching clause appends its action;
// `Execute()` runs them all, in order, on the content.
module ActionableContents {
  import opened Base
  import Guards
  import Linq
  import opened FlowClauses

  /** What the filtered wrapper does with the next `Do` action:
    * `AppendNextAction()` stores it, `AppendNextAction<TSpecificContent>()`
    * runs it on the content at once, `SkipNext*` discards it. */
  datatype Handler = Skip | Append | RunNow

  /** The calls `Execute` makes: each action with the content it is given. */
  function CallsOn<A, C>(actions: seq<A>, content: C): (r: seq<(A, C)>)
    ensures |r| == |actions|
    ensures forall i :: 0 <= i < |actions| ==> r[i] == (actions[i], content)
  {
    seq(|actions|, i requires 0 <= i < |actions| => (actions[i], content))
  }

  /** `A` names an Action<TContent>; its effects are the calls made to it. */
  class ActionableContent<C, A> {
    const content: C
    /** `Actions`. */
    var actions: seq<A>

    /** `ActionableContent(content, actions)`: a fresh list with the given actions. */
    constructor(content: C, actions: seq<A>)
      ensures this.content == content && this.actions == actions
    {
      this.content := content;
      this.actions := actions;
    }

    /** `Execute()`: `List.ForEach` calls every stored action on the content, in order. */
    method Execute() returns (calls: seq<(A, C)>)
      ensures calls == CallsOn(actions, content)
    {
      calls := [];
      var i := 0;
      while i < |actions|
        invariant 0 <= i <= |actions|
        invariant calls == CallsOn(actions[..i], content)
      {
        calls := calls + [(actions[i], content)];
        i := i + 1;
      }
      assert actions[..i] == actions;
    }

    /** `Do(action)` on the filtered wrapper: the null guard, then the handler. */
    method Do(handler: Handler, action: Nullable<A>) returns (o: Outcome, call: Option<(A, C)>)
      modifies this
      ensures action.Null? ==> o == Fail(GuardClause(Guards.NullMessage("action"))) && call.None?
      ensures action.NonNull? ==> o.Pass?
      ensures actions == if action.NonNull? && handler == Append then old(actions) + [action.value] else old(actions)
      ensures call == if action.NonNull? && handler == RunNow then Some((action.value, content)) else None
    {
      call := None;
      o := Guards.RequiresNonNull(action, "action");
      if o.Fail? {
        return;
      }
      match handler {
        case Skip =>
        case Append => actions := actions + [action.value];
        case RunNow => call := Some((action.value, content));
      }
    }

    /** A chain of `Do` clauses: a matching clause appends its action, a
      * non-matching one is skipped. */
    method DoChain(clauses: seq<Clause<A>>)
      modifies this
      ensures actions == old(actions) + MatchedHandlers(clauses)
    {
      var i := 0;
      while i < |clauses|
        invariant 0 <= i <= |clauses|
        invariant actions == old(actions) + MatchedHandlers(clauses[..i])
      {
        assert clauses[..i + 1] == clauses[..i] + [clauses[i]];
        Linq.WhereAppend(clauses[..i], [clauses[i]], IsMatched);
        var o, call := Do(if clauses[i].matched then Append else Skip, NonNull(clauses[i].handler));
        i := i + 1;
      }
      assert clauses[..i] == clauses;
    }
  }

  /** A fresh chain then `Execute()`: every matching action falls through
    * and runs on the content, in clause order. */
  method DoAll<C, A>(content: C, clauses: seq<Clause<A>>) returns (calls: seq<(A, C)>)
    ensures calls == CallsOn(MatchedHandlers(clauses), content)
  {
    var actionable := new ActionableContent(content, []);
    actionable.DoChain(clauses);
    calls := actionable.Execute();
  }
}
