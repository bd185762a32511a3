// SolidStack.Core.Equality.Internal.EqualityComparerFunc: the IEqualityComparer
// every recipe returns, built from an equality delegate and a hash delegate.
module Comparers {
  import opened Base
  import opened Runtime

  /** The two delegates. They only ever see non-null operands; they may throw,
    * which the `Result` records. */
  datatype Comparer = Comparer(
    equalsFunc: (Object, Object) -> Result<bool>,
    getHashCodeFunc: Object -> Result<bv32>)
  {
    /** `Equals(x, y)`: a reference is equal to itself without asking the
      * delegate, null is equal to nothing else, and two distinct non-null
      * operands are whatever the delegate says. */
    function Equals(x: Value, y: Value): (r: Result<bool>)
      ensures x == y ==> r == Ok(true)
      ensures x != y && (x.Null? || y.Null?) ==> r == Ok(false)
      ensures x != y && x.NonNull? && y.NonNull? ==> r == equalsFunc(x.value, y.value)
    {
      if x == y then Ok(true)
      else if x.Null? || y.Null? then Ok(false)
      else equalsFunc(x.value, y.value)
    }

    /** `GetHashCode(obj)`: 0 for null, the delegate otherwise. */
    function GetHashCode(obj: Value): (r: Result<bv32>)
      ensures obj.Null? ==> r == Ok(0)
      ensures obj.NonNull? ==> r == getHashCodeFunc(obj.value)
    {
      if obj.Null? then Ok(0) else getHashCodeFunc(obj.value)
    }
  }

  /** The wrapper turns delegates that agree on non-null operands into a
    * comparer that agrees on every operand, null included. */
  lemma WrapperKeepsConsistency(c: Comparer, x: Value, y: Value)
    requires forall a: Object, b: Object ::
      c.equalsFunc(a, b) == Ok(true) ==> c.getHashCodeFunc(a) == c.getHashCodeFunc(b)
    requires c.Equals(x, y) == Ok(true)
    ensures c.GetHashCode(x) == c.GetHashCode(y)
  {
  }

  /** The wrapper keeps the delegate's symmetry. */
  lemma WrapperKeepsSymmetry(c: Comparer, x: Value, y: Value)
    requires forall a: Object, b: Object :: c.equalsFunc(a, b) == c.equalsFunc(b, a)
    ensures c.Equals(x, y) == c.Equals(y, x)
  {
  }
}
