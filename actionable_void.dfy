// SolidStack.Core.Flow.Internal.ActionableVoid: the action list behind a
// `.Do(...)` chain with no content. Every matching clause appends its
// action; `Execute()` runs them all, in order.
module ActionableVoids {
  import opened Base
  import Guards
  import Linq
  import opened FlowClauses

  /** What the filtered wrapper does with the next `Do` action:
    * `AppendNextAction()` stores it, `SkipNext*` discards it. */
  datatype Handler = Skip | Append

  /** `A` names an Action; its effects are the calls made to it. */
  class ActionableVoid<A> {
    var actions: seq<A>

    /** `ActionableVoid(actions)`: a fresh list with the given actions. */
    constructor(actions: seq<A>)
      ensures this.actions == actions
    {
      this.actions := actions;
    }

    /** `Execute()`: `List.ForEach` calls every stored action, in order. */
    method Execute() returns (calls: seq<A>)
      ensures calls == actions
    {
      calls := [];
      var i := 0;
      while i < |actions|
        invariant 0 <= i <= |actions|
        invariant calls == actions[..i]
      {
        calls := calls + [actions[i]];
        i := i + 1;
      }
    }

    /** `Do(action)` on the filtered wrapper: the null guard, then the handler. */
    method Do(handler: Handler, action: Nullable<A>) returns (o: Outcome)
      modifies this
      ensures action.Null? ==> o == Fail(GuardClause(Guards.NullMessage("action")))
      ensures action.NonNull? ==> o.Pass?
      ensures actions == if action.NonNull? && handler == Append then old(actions) + [action.value] else old(actions)
    {
      o := Guards.RequiresNonNull(action, "action");
      if o.Pass? && handler == Append {
        actions := actions + [action.value];
      }
    }

    /** A chain of `Do` clauses: a matching clause appends its action, a
      * non-matching one is skipped. */
    method DoChain(clauses: seq<Clause<A>>)
      modifies this
      ensures actions == old(actions) + MatchedHandlers(clauses)
    {
      var i := 0;
      while i < |clauses|
        invariant 0 <= i <= |clauses|
        invariant actions == old(actions) + MatchedHandlers(clauses[..i])
      {
        assert clauses[..i + 1] == clauses[..i] + [clauses[i]];
        Linq.WhereAppend(clauses[..i], [clauses[i]], IsMatched);
        var o := Do(if clauses[i].matched then Append else Skip, NonNull(clauses[i].handler));
        i := i + 1;
      }
      assert clauses[..i] == clauses;
    }
  }

  /** A fresh chain then `Execute()`: every matching action runs, in clause order. */
  method DoAll<A>(clauses: seq<Clause<A>>) returns (calls: seq<A>)
    ensures calls == MatchedHandlers(clauses)
  {
    var actionable := new ActionableVoid([]);
    actionable.DoChain(clauses);
    calls := actionable.Execute();
  }
}
