// The clauses of a fluent Flow chain (`option.WhenSome().MapTo(f)`,
// `.When(p).Do(a)`, …) as the content sees them: each clause's filter either
// matched the content or not, and supplies one delegate.
module FlowClauses {
  import opened Base
  import Linq

  datatype Clause<F> = Clause(matched: bool, handler: F)

  predicate IsMatched<F>(clause: Clause<F>)
  {
    clause.matched
  }

  function HandlerOf<F>(clause: Clause<F>): F
  {
    clause.handler
  }

  /** The delegate of the earliest matching clause. */
  function FirstMatched<F>(clauses: seq<Clause<F>>): (r: Option<F>)
    ensures r.None? <==> forall i :: 0 <= i < |clauses| ==> !clauses[i].matched
  {
    if clauses == [] then None
    else if clauses[0].matched then Some(clauses[0].handler)
    else
      assert forall i :: 0 <= i < |clauses[1..]| ==> clauses[1..][i] == clauses[i + 1];
      FirstMatched(clauses[1..])
  }

  /** The winner is the delegate of a matching clause with no match before it. */
  lemma {:induction false} FirstMatchedIsEarliest<F>(clauses: seq<Clause<F>>)
    requires FirstMatched(clauses).Some?
    ensures exists i :: (0 <= i < |clauses| && clauses[i].matched && clauses[i].handler == FirstMatched(clauses).value &&
                         forall j :: 0 <= j < i ==> !clauses[j].matched)
  {
    if !clauses[0].matched {
      var tail := clauses[1..];
      assert forall i :: 0 <= i < |tail| ==> tail[i] == clauses[i + 1];
      FirstMatchedIsEarliest(tail);
      var k :| 0 <= k < |tail| && tail[k].matched && tail[k].handler == FirstMatched(tail).value &&
        (forall j :: 0 <= j < k ==> !tail[j].matched);
      assert clauses[k + 1].matched && clauses[k + 1].handler == FirstMatched(clauses).value;
      assert forall j :: 0 <= j < k + 1 ==> !clauses[j].matched by {
        forall j | 0 < j < k + 1 ensures !clauses[j].matched {
          assert tail[j - 1] == clauses[j];
        }
      }
    }
  }

  /** The delegates of every matching clause, in clause order. */
  function MatchedHandlers<F>(clauses: seq<Clause<F>>): seq<F>
  {
    Linq.Select(Linq.Where(clauses, IsMatched), HandlerOf)
  }

  /** The first match wins for mappings and every match runs for actions:
    * the winning mapping is the first of the matched actions. */
  lemma {:induction false} FirstMatchedHeadsMatchedHandlers<F>(clauses: seq<Clause<F>>)
    ensures FirstMatched(clauses) == if MatchedHandlers(clauses) == [] then None else Some(MatchedHandlers(clauses)[0])
  {
    if clauses != [] {
      var tail := clauses[1..];
      assert clauses == [clauses[0]] + tail;
      assert forall i :: 0 <= i < |tail| ==> tail[i] == clauses[i + 1];
      Linq.WhereAppend([clauses[0]], tail, IsMatched);
      FirstMatchedHeadsMatchedHandlers(tail);
      if clauses[0].matched {
        assert Linq.Where(clauses, IsMatched)[0] == clauses[0];
      } else {
        assert Linq.Where(clauses, IsMatched) == Linq.Where(tail, IsMatched);
      }
    }
  }
}
