// SolidStack.Core.Equality.Internal.EnumerableExtensions: the null-safe
// element-wise equality and the order-sensitive hash of untyped sequences.
module SequenceEquality {
  import opened Base
  import opened Runtime

  const HashCodeSeed: bv32 := 17
  const HashCodeMultiplier: bv32 := 89

  /** One step of the unchecked fold: `(current * 89) ^ (o?.GetHashCode() ?? 0)`,
    * wrapping around at 32 bits. */
  function Step(rt: Runtime, current: bv32, o: Value): bv32
  {
    (current * HashCodeMultiplier) ^ HashOrZero(rt, o)
  }

  /** `Aggregate(seed, Step)` over the items, first to last. */
  function Fold(rt: Runtime, seed: bv32, items: seq<Value>): bv32
    decreases |items|
  {
    if items == [] then seed else Fold(rt, Step(rt, seed, items[0]), items[1..])
  }

  /** `GetSequenceHashCode`: 0 for null, otherwise the fold from 17. */
  function GetSequenceHashCode(rt: Runtime, sequence: Value): (h: bv32)
    ensures sequence.Null? ==> h == 0
    ensures sequence.NonNull? && sequence.value.items == [] ==> h == HashCodeSeed
  {
    if sequence.Null? then 0 else Fold(rt, HashCodeSeed, sequence.value.items)
  }

  /** `Enumerable.SequenceEqual(first.Cast<object>(), second.Cast<object>())`
    * on two non-null sequences: same length, and the default comparer accepts
    * every pair of items at the same position. */
  function ElementsEqual(rt: Runtime, xs: seq<Value>, ys: seq<Value>): (r: bool)
    ensures r <==> |xs| == |ys| && forall i :: 0 <= i < |xs| ==> DefaultEquals(rt, xs[i], ys[i])
  {
    if xs == [] || ys == [] then |xs| == |ys|
    else DefaultEquals(rt, xs[0], ys[0]) && ElementsEqual(rt, xs[1..], ys[1..])
  }

  /** `SequenceEqual`: the same reference is equal, a null and a non-null are
    * not, and two non-null sequences are equal exactly when they have the same
    * length and their items are equal position by position. */
  function SequenceEqual(rt: Runtime, first: Value, other: Value): (r: bool)
    ensures first == other ==> r
    ensures first.Null? != other.Null? ==> !r
    ensures first != other && first.NonNull? && other.NonNull? ==>
      (r <==> |first.value.items| == |other.value.items| &&
              forall i :: 0 <= i < |first.value.items| ==>
                DefaultEquals(rt, first.value.items[i], other.value.items[i]))
  {
    first == other ||
    (first.NonNull? && other.NonNull? && ElementsEqual(rt, first.value.items, other.value.items))
  }

  /** Folding two sequences whose items hash alike position by position gives
    * the same result. */
  lemma {:induction false} FoldPointwise(rt: Runtime, seed: bv32, xs: seq<Value>, ys: seq<Value>)
    requires |xs| == |ys|
    requires forall i :: 0 <= i < |xs| ==> HashOrZero(rt, xs[i]) == HashOrZero(rt, ys[i])
    ensures Fold(rt, seed, xs) == Fold(rt, seed, ys)
    decreases |xs|
  {
    if xs != [] {
      var next := Step(rt, seed, xs[0]);
      assert HashOrZero(rt, xs[0]) == HashOrZero(rt, ys[0]);
      assert next == Step(rt, seed, ys[0]);
      assert forall i :: 0 <= i < |xs[1..]| ==> xs[1..][i] == xs[i + 1] && ys[1..][i] == ys[i + 1];
      FoldPointwise(rt, next, xs[1..], ys[1..]);
    }
  }

  /** The fold read from the right: adding an item at the end is one more step. */
  lemma {:induction false} FoldSnoc(rt: Runtime, seed: bv32, xs: seq<Value>, x: Value)
    ensures Fold(rt, seed, xs + [x]) == Step(rt, Fold(rt, seed, xs), x)
    decreases |xs|
  {
    if xs == [] {
      assert xs + [x] == [x];
    } else {
      assert (xs + [x])[1..] == xs[1..] + [x];
      FoldSnoc(rt, Step(rt, seed, xs[0]), xs[1..], x);
    }
  }

  /** The helper pair is consistent: sequences `SequenceEqual` accepts have the
    * same `GetSequenceHashCode`, provided the items' own Equals and
    * GetHashCode are. */
  lemma SequenceEqualKeepsHash(rt: Runtime, first: Value, other: Value)
    requires Lawful(rt)
    requires SequenceEqual(rt, first, other)
    ensures GetSequenceHashCode(rt, first) == GetSequenceHashCode(rt, other)
  {
    if first != other {
      var xs, ys := first.value.items, other.value.items;
      forall i | 0 <= i < |xs|
        ensures HashOrZero(rt, xs[i]) == HashOrZero(rt, ys[i])
      {
        DefaultEqualsKeepsHash(rt, xs[i], ys[i]);
      }
      FoldPointwise(rt, HashCodeSeed, xs, ys);
    }
  }
}
