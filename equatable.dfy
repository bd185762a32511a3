// SolidStack.Core.Equality.Equatable<TSelf>: a base class that routes Equals,
// GetHashCode, == and != through one comparer per TSelf, built on first use
// and cached in a static property.
module Equatables {
  import opened Base
  import opened Runtime
  import opened Comparers
  import Memberwise

  /** `Equals(TSelf other)`: the comparer's verdict on `(this, other)`; a
    * comparer the subclass left null throws NullReferenceException. */
  function EqualsWith(comparer: Nullable<Comparer>, self: Object, other: Value): (r: Result<bool>)
    ensures comparer.Null? ==> r == Err(NullReference)
    ensures comparer.NonNull? ==> r == comparer.value.Equals(NonNull(self), other)
  {
    if comparer.Null? then Err(NullReference) else comparer.value.Equals(NonNull(self), other)
  }

  /** `Equals(object obj)`: `obj as TSelf`, then `Equals(TSelf)`. */
  function EqualsObjectWith(rt: Runtime, selfType: TypeId, comparer: Nullable<Comparer>, self: Object, obj: Value): Result<bool>
  {
    EqualsWith(comparer, self, As(rt, obj, selfType))
  }

  /** `x == y`: same reference (both null included), else a null `x` is
    * unequal, else the comparer's verdict on the two operands cast to TSelf. */
  function OperatorEqualsWith(rt: Runtime, selfType: TypeId, comparer: Nullable<Comparer>, x: Value, y: Value): Result<bool>
  {
    if x == y then Ok(true)
    else if x.Null? then Ok(false)
    else if comparer.Null? then Err(NullReference)
    else
      var verdict :- comparer.value.Equals(As(rt, x, selfType), As(rt, y, selfType));
      Ok(verdict)
  }

  /** `x != y`. */
  function OperatorNotEqualsWith(rt: Runtime, selfType: TypeId, comparer: Nullable<Comparer>, x: Value, y: Value): Result<bool>
  {
    var equal :- OperatorEqualsWith(rt, selfType, comparer, x, y);
    Ok(!equal)
  }

  /** `GetHashCode()`: the comparer's hash of `this`. */
  function GetHashCodeWith(comparer: Nullable<Comparer>, self: Object): (r: Result<bv32>)
    ensures comparer.Null? ==> r == Err(NullReference)
    ensures comparer.NonNull? ==> r == comparer.value.GetHashCode(NonNull(self))
  {
    if comparer.Null? then Err(NullReference) else comparer.value.GetHashCode(NonNull(self))
  }

  /** The hash contract of IEqualityComparer. */
  ghost predicate KeepsHashContract(c: Comparer)
  {
    forall x: Value, y: Value :: c.Equals(x, y) == Ok(true) ==> c.GetHashCode(x) == c.GetHashCode(y)
  }

  /** The static state of `Equatable<TSelf>` for one TSelf. */
  class EquatableType {
    const rt: Runtime
    /** TSelf. */
    const selfType: TypeId
    /** The subclass's `GetEqualityComparer()` override. */
    const getEqualityComparer: () -> Nullable<Comparer>
    /** `CachedEqualityComparer`. */
    var cachedEqualityComparer: Nullable<Comparer>
    /** How many times `GetEqualityComparer()` has been called. */
    ghost var factoryCalls: nat

    /** The cache only ever holds what the factory returned. */
    ghost predicate Valid()
      reads this
    {
      cachedEqualityComparer.NonNull? ==> cachedEqualityComparer == getEqualityComparer()
    }

    constructor(rt: Runtime, selfType: TypeId, getEqualityComparer: () -> Nullable<Comparer>)
      ensures Valid()
      ensures this.rt == rt && this.selfType == selfType && this.getEqualityComparer == getEqualityComparer
      ensures cachedEqualityComparer.Null? && factoryCalls == 0
    {
      this.rt := rt;
      this.selfType := selfType;
      this.getEqualityComparer := getEqualityComparer;
      cachedEqualityComparer := Null;
      factoryCalls := 0;
    }

    /** The `EqualityComparer` getter: `Cached ?? (Cached = GetEqualityComparer())`.
      * The factory runs only while the cache is null, and what it returns is
      * what every access sees. */
    method EqualityComparer() returns (c: Nullable<Comparer>)
      requires Valid()
      modifies this
      ensures Valid()
      ensures c == getEqualityComparer()
      ensures cachedEqualityComparer == c
      ensures factoryCalls == old(factoryCalls) + (if old(cachedEqualityComparer).Null? then 1 else 0)
    {
      if cachedEqualityComparer.NonNull? {
        c := cachedEqualityComparer;
      } else {
        c := getEqualityComparer();
        factoryCalls := factoryCalls + 1;
        cachedEqualityComparer := c;
      }
    }

    /** `Equals(TSelf other)`. */
    method Equals(self: Object, other: Value) returns (r: Result<bool>)
      requires Valid()
      modifies this
      ensures Valid()
      ensures r == EqualsWith(getEqualityComparer(), self, other)
      ensures factoryCalls == old(factoryCalls) + (if old(cachedEqualityComparer).Null? then 1 else 0)
      ensures cachedEqualityComparer == getEqualityComparer()
    {
      var c := EqualityComparer();
      r := EqualsWith(c, self, other);
    }

    /** `Equals(object obj)`. */
    method EqualsObject(self: Object, obj: Value) returns (r: Result<bool>)
      requires Valid()
      modifies this
      ensures Valid()
      ensures r == EqualsObjectWith(rt, selfType, getEqualityComparer(), self, obj)
      ensures factoryCalls == old(factoryCalls) + (if old(cachedEqualityComparer).Null? then 1 else 0)
      ensures cachedEqualityComparer == getEqualityComparer()
    {
      r := Equals(self, As(rt, obj, selfType));
    }

    /** `operator ==`: the comparer is touched only when `x` is non-null and
      * a different reference from `y`. */
    method OperatorEquals(x: Value, y: Value) returns (r: Result<bool>)
      requires Valid()
      modifies this
      ensures Valid()
      ensures r == OperatorEqualsWith(rt, selfType, getEqualityComparer(), x, y)
      ensures x == y || x.Null? ==>
        cachedEqualityComparer == old(cachedEqualityComparer) && factoryCalls == old(factoryCalls)
      ensures x != y && x.NonNull? ==>
        factoryCalls == old(factoryCalls) + (if old(cachedEqualityComparer).Null? then 1 else 0)
        && cachedEqualityComparer == getEqualityComparer()
    {
      if x == y {
        return Ok(true);
      }
      if x.Null? {
        return Ok(false);
      }
      var c := EqualityComparer();
      if c.Null? {
        return Err(NullReference);
      }
      r := c.value.Equals(As(rt, x, selfType), As(rt, y, selfType));
    }

    /** `operator !=`: `!(x == y)`. */
    method OperatorNotEquals(x: Value, y: Value) returns (r: Result<bool>)
      requires Valid()
      modifies this
      ensures Valid()
      ensures r == OperatorNotEqualsWith(rt, selfType, getEqualityComparer(), x, y)
    {
      var equal := OperatorEquals(x, y);
      if equal.Err? {
        return Err(equal.failure);
      }
      r := Ok(!equal.value);
    }

    /** `GetHashCode()`. */
    method GetHashCode(self: Object) returns (r: Result<bv32>)
      requires Valid()
      modifies this
      ensures Valid()
      ensures r == GetHashCodeWith(getEqualityComparer(), self)
      ensures factoryCalls == old(factoryCalls) + (if old(cachedEqualityComparer).Null? then 1 else 0)
      ensures cachedEqualityComparer == getEqualityComparer()
    {
      var c := EqualityComparer();
      r := GetHashCodeWith(c, self);
    }
  }

  /** Same reference, null included, is always `==`. */
  lemma OperatorEqualsReflexive(rt: Runtime, selfType: TypeId, comparer: Nullable<Comparer>, x: Value)
    ensures OperatorEqualsWith(rt, selfType, comparer, x, x) == Ok(true)
    ensures OperatorNotEqualsWith(rt, selfType, comparer, x, x) == Ok(false)
  {
  }

  /** A null left operand is unequal to any non-null right operand, without
    * consulting the comparer. */
  lemma NullLeftOperandUnequal(rt: Runtime, selfType: TypeId, comparer: Nullable<Comparer>, y: Object)
    ensures OperatorEqualsWith(rt, selfType, comparer, Null, NonNull(y)) == Ok(false)
    ensures OperatorNotEqualsWith(rt, selfType, comparer, Null, NonNull(y)) == Ok(true)
  {
  }

  /** `!=` is the negation of `==`, and fails exactly when `==` fails. */
  lemma NotEqualsNegates(rt: Runtime, selfType: TypeId, comparer: Nullable<Comparer>, x: Value, y: Value)
    ensures OperatorNotEqualsWith(rt, selfType, comparer, x, y).Ok? <==> OperatorEqualsWith(rt, selfType, comparer, x, y).Ok?
    ensures OperatorEqualsWith(rt, selfType, comparer, x, y).Ok? ==>
      OperatorNotEqualsWith(rt, selfType, comparer, x, y).value == !OperatorEqualsWith(rt, selfType, comparer, x, y).value
  {
  }

  /** For a TSelf on the left, `==` and `Equals(TSelf)` agree. */
  lemma OperatorAgreesWithEquals(rt: Runtime, selfType: TypeId, comparer: Nullable<Comparer>, x: Object, y: Value)
    requires rt.isA(x.runtimeType, selfType)
    requires y.NonNull? ==> rt.isA(y.value.runtimeType, selfType)
    ensures OperatorEqualsWith(rt, selfType, comparer, NonNull(x), y) ==
      (if NonNull(x) == y then Ok(true) else EqualsWith(comparer, x, y))
  {
  }

  /** `Equals(object)` treats an argument that is not a TSelf as null, so it is unequal. */
  lemma ForeignObjectUnequal(rt: Runtime, selfType: TypeId, comparer: Comparer, self: Object, obj: Value)
    requires !IsInstanceOf(rt, obj, selfType)
    ensures EqualsObjectWith(rt, selfType, NonNull(comparer), self, obj) == Ok(false)
  {
  }

  /** With a comparer that keeps the hash contract, equal Equatables hash alike. */
  lemma EqualImpliesSameHash(comparer: Comparer, self: Object, other: Object)
    requires KeepsHashContract(comparer)
    requires EqualsWith(NonNull(comparer), self, NonNull(other)) == Ok(true)
    ensures GetHashCodeWith(NonNull(comparer), self) == GetHashCodeWith(NonNull(comparer), other)
  {
    assert comparer.Equals(NonNull(self), NonNull(other)) == Ok(true);
  }

  /** A subclass whose `GetEqualityComparer` is a memberwise recipe gets an
    * Equals and a GetHashCode that keep the hash contract. */
  lemma MemberwiseKeepsHashContract(rt: Runtime, members: seq<MemberInfo>)
    requires Lawful(rt)
    ensures KeepsHashContract(Memberwise.Create(rt, members))
  {
    forall x: Value, y: Value | Memberwise.Create(rt, members).Equals(x, y) == Ok(true)
      ensures Memberwise.Create(rt, members).GetHashCode(x) == Memberwise.Create(rt, members).GetHashCode(y)
    {
      Memberwise.MemberwiseConsistent(rt, members, x, y);
    }
  }

  /** The factory is called once however many accesses follow, unless it
    * returns null: `??` then leaves the cache empty and calls it again. */
  method AccessTwice(t: EquatableType, self: Object, other: Value) returns (first: Result<bool>, second: Result<bv32>)
    requires t.Valid() && t.cachedEqualityComparer.Null?
    modifies t
    ensures t.Valid()
    ensures t.factoryCalls == old(t.factoryCalls) + (if t.getEqualityComparer().NonNull? then 1 else 2)
    ensures t.cachedEqualityComparer == t.getEqualityComparer()
  {
    first := t.Equals(self, other);
    second := t.GetHashCode(self);
  }
}
