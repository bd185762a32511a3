// The System.Linq operators the modelled code relies on, over finite sequences.
module Linq {
  import opened Base

  /** `Enumerable.Where`: the elements satisfying `p`, in their original order. */
  function Where<T>(s: seq<T>, p: T -> bool): (r: seq<T>)
    ensures |r| <= |s|
    ensures forall i :: 0 <= i < |r| ==> r[i] in s && p(r[i])
    ensures forall i :: 0 <= i < |s| && p(s[i]) ==> s[i] in r
  {
    if s == [] then []
    else if p(s[0]) then [s[0]] + Where(s[1..], p)
    else Where(s[1..], p)
  }

  /** Filtering distributes over concatenation, so `Where` keeps relative order. */
  lemma {:induction false} WhereAppend<T>(s: seq<T>, t: seq<T>, p: T -> bool)
    ensures Where(s + t, p) == Where(s, p) + Where(t, p)
  {
    if s == [] {
      assert s + t == t;
    } else {
      assert (s + t)[1..] == s[1..] + t;
      WhereAppend(s[1..], t, p);
    }
  }

  /** Filtering twice is filtering once by the conjunction. */
  lemma {:induction false} WhereWhere<T>(s: seq<T>, p: T -> bool, q: T -> bool)
    ensures Where(Where(s, p), q) == Where(s, x => p(x) && q(x))
  {
    if s != [] {
      WhereWhere(s[1..], p, q);
    }
  }

  /** Predicates that agree on the elements select the same elements. */
  lemma {:induction false} WhereCongruent<T>(s: seq<T>, p: T -> bool, q: T -> bool)
    requires forall i :: 0 <= i < |s| ==> p(s[i]) == q(s[i])
    ensures Where(s, p) == Where(s, q)
  {
    if s != [] {
      assert forall i :: 0 <= i < |s[1..]| ==> s[1..][i] == s[i + 1];
      WhereCongruent(s[1..], p, q);
    }
  }

  /** `Enumerable.All`. */
  function All<T>(s: seq<T>, p: T -> bool): (r: bool)
    ensures r <==> forall i :: 0 <= i < |s| ==> p(s[i])
  {
    if s == [] then true else p(s[0]) && All(s[1..], p)
  }

  /** `Enumerable.Any`. */
  function Any<T>(s: seq<T>, p: T -> bool): (r: bool)
    ensures r <==> exists i :: 0 <= i < |s| && p(s[i])
  {
    if s == [] then false else p(s[0]) || Any(s[1..], p)
  }

  /** `Enumerable.Select`. */
  function Select<T, U>(s: seq<T>, f: T -> U): (r: seq<U>)
    ensures |r| == |s|
    ensures forall i :: 0 <= i < |s| ==> r[i] == f(s[i])
  {
    seq(|s|, i requires 0 <= i < |s| => f(s[i]))
  }

  /** `Enumerable.SelectMany` with the identity: the inner sequences, one after another. */
  function Concat<T>(ss: seq<seq<T>>): seq<T>
  {
    if ss == [] then [] else ss[0] + Concat(ss[1..])
  }

  /** `Where` followed by `ToList` when the predicate may throw: the predicate
    * is evaluated element by element, and the first exception ends the walk. */
  function WhereOrFail<T>(s: seq<T>, p: T -> Result<bool>): (r: Result<seq<T>>)
    ensures r.Ok? <==> forall i :: 0 <= i < |s| ==> p(s[i]).Ok?
    ensures r.Ok? ==> r.value == Where(s, x => p(x) == Ok(true))
  {
    if s == [] then Ok([])
    else match p(s[0])
      case Err(f) => Err(f)
      case Ok(keep) =>
        match WhereOrFail(s[1..], p)
        case Err(f) => Err(f)
        case Ok(rest) => Ok(if keep then [s[0]] + rest else rest)
  }

  /** A fallible predicate that never fails and agrees with `q` filters like `q`. */
  lemma {:induction false} WhereOrFailAgrees<T>(s: seq<T>, p: T -> Result<bool>, q: T -> bool)
    requires forall i :: 0 <= i < |s| ==> p(s[i]) == Ok(q(s[i]))
    ensures WhereOrFail(s, p) == Ok(Where(s, q))
  {
    if s != [] {
      assert forall i :: 0 <= i < |s[1..]| ==> s[1..][i] == s[i + 1];
      WhereOrFailAgrees(s[1..], p, q);
    }
  }
}
