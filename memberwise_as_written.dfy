// MemberwiseEqualityComparerFactory exactly as written, and the inputs that
// show where it departs from what the tests and the documentation promise.
// The rest of the model uses the corrected engine of module Memberwise.
module MemberwiseAsWritten {
  import opened Base
  import opened Runtime
  import Linq
  import opened Comparers
  import Memberwise
  import Samples
  import SequenceEquality

  /** Whether `MakeEqualsExpression` can build its expression for `m`. For a
    * reference-typed sequence member it calls Expression.Call(typeof(Enumerable),
    * "SequenceEqual", new[] {memberType}, x, y): the generic argument is the
    * member type itself, so SequenceEqual<memberType> expects two
    * IEnumerable<memberType>, and the member values fit only when the member
    * type enumerates itself. */
  predicate EqualsExpressionBinds(m: MemberInfo)
  {
    m.Type().isValueType || !Memberwise.IsSequenceType(m.Type()) || m.Type().enumeratesItself
  }

  /** Whether `MakeGetHashCodeExpression` can build its expression for `m`: it
    * passes the unconverted member to Expression.Call(typeof(EnumerableExtensions),
    * "GetSequenceHashCode", Type.EmptyTypes, obj), whose method lookup demands
    * an argument reference-assignable to IEnumerable, which no value type is. */
  predicate HashExpressionBinds(m: MemberInfo)
  {
    !(m.Type().isValueType && Memberwise.IsSequenceType(m.Type()))
  }

  /** One link of the chain as built: value types are boxed and compared with
    * static object.Equals; a reference-typed sequence (one that binds) goes to
    * Enumerable.SequenceEqual, which throws on a null argument and otherwise
    * compares the items with the default comparer; anything else goes to
    * static object.Equals. */
  function MemberEquals(rt: Runtime, m: MemberInfo, a: Value, b: Value): (r: Result<bool>)
    ensures r.Err? <==> !m.Type().isValueType && Memberwise.IsSequenceType(m.Type()) && (a.Null? || b.Null?)
    ensures r.Err? ==> r.failure == ArgumentNull
    ensures r.Ok? && a != b ==> r.value == Memberwise.MemberEquals(rt, m, a, b)
  {
    if !m.Type().isValueType && Memberwise.IsSequenceType(m.Type()) then
      if a.Null? || b.Null? then Err(ArgumentNull)
      else Ok(SequenceEquality.ElementsEqual(rt, a.value.items, b.value.items))
    else Ok(ObjectEquals(rt, a, b))
  }

  /** The AND chain seeded with `true`: links evaluated left to right, the
    * first false one ending it and the first exception escaping. */
  function EqualsChain(rt: Runtime, members: seq<MemberInfo>, x: Object, y: Object): (r: Result<bool>)
    ensures r == Ok(true) <==> forall i :: 0 <= i < |members| ==>
      MemberEquals(rt, members[i], Read(x, members[i]), Read(y, members[i])) == Ok(true)
    ensures (forall i :: 0 <= i < |members| ==> MemberEquals(rt, members[i], Read(x, members[i]), Read(y, members[i])).Ok?) ==>
      r.Ok?
    decreases |members|
  {
    if members == [] then Ok(true)
    else
      var head :- MemberEquals(rt, members[0], Read(x, members[0]), Read(y, members[0]));
      if !head then Ok(false) else EqualsChain(rt, members[1..], x, y)
  }

  /** `MakeEqualsMethod<T>` as written: building fails on a sequence member
    * that does not bind (InvalidOperationException); the built delegate tests
    * `y is T`, which subtypes pass, and then runs the chain on `x` and the
    * second parameter expression, which converts `x` again; otherwise it
    * compares references. */
  function MakeEqualsMethod(rt: Runtime, t: TypeId, members: seq<MemberInfo>): (r: Result<(Object, Object) -> Result<bool>>)
    ensures r.Ok? <==> forall i :: 0 <= i < |members| ==> EqualsExpressionBinds(members[i])
    ensures r.Err? ==> r.failure == InvalidOperation
    ensures r.Ok? ==> forall x: Object, y: Object :: rt.isA(y.runtimeType, t) ==> r.value(x, y) == EqualsChain(rt, members, x, x)
    ensures r.Ok? ==> forall x: Object, y: Object :: !rt.isA(y.runtimeType, t) ==> r.value(x, y) == Ok(x == y)
  {
    if !Linq.All(members, EqualsExpressionBinds) then Err(InvalidOperation)
    else Ok((x: Object, y: Object) =>
      if rt.isA(y.runtimeType, t) then EqualsChain(rt, members, x, x) else Ok(x == y))
  }

  /** `MakeGetHashCodeMethod<T>` as written: building fails on a value-typed
    * sequence member (InvalidOperationException); once built, the hash is the
    * one the corrected engine keeps, since no value-typed sequence is left. */
  function MakeGetHashCodeMethod(rt: Runtime, members: seq<MemberInfo>): (r: Result<Object -> Result<bv32>>)
    ensures r.Ok? <==> forall i :: 0 <= i < |members| ==> HashExpressionBinds(members[i])
    ensures r.Err? ==> r.failure == InvalidOperation
    ensures r.Ok? ==> forall obj: Object :: r.value(obj) == Memberwise.MakeGetHashCodeMethod(rt, members)(obj)
  {
    if !Linq.All(members, HashExpressionBinds) then Err(InvalidOperation)
    else Ok(Memberwise.MakeGetHashCodeMethod(rt, members))
  }

  /** `Create<T>(members)` as written: the equality delegate is built first. */
  function Create(rt: Runtime, t: TypeId, members: seq<MemberInfo>): (r: Result<Comparer>)
    ensures r.Ok? <==> forall i :: 0 <= i < |members| ==> EqualsExpressionBinds(members[i]) && HashExpressionBinds(members[i])
    ensures r.Err? ==> r.failure == InvalidOperation
    ensures r.Ok? ==> r.value.getHashCodeFunc == Memberwise.MakeGetHashCodeMethod(rt, members)
  {
    var equalsFunc :- MakeEqualsMethod(rt, t, members);
    var getHashCodeFunc :- MakeGetHashCodeMethod(rt, members);
    Ok(Comparer(equalsFunc, getHashCodeFunc))
  }

  /** A selected reference-typed sequence member whose type does not
    * enumerate itself makes construction throw. */
  lemma SequenceMemberBreaksConstruction(rt: Runtime, t: TypeId, members: seq<MemberInfo>, m: MemberInfo)
    requires m in members
    requires !m.Type().isValueType && Memberwise.IsSequenceType(m.Type()) && !m.Type().enumeratesItself
    ensures Create(rt, t, members) == Err(InvalidOperation)
  {
  }

  /** A value-typed sequence member makes construction throw as well. */
  lemma ValueTypedSequenceMemberBreaksConstruction(rt: Runtime, t: TypeId, members: seq<MemberInfo>, m: MemberInfo)
    requires m in members
    requires m.Type().isValueType && Memberwise.IsSequenceType(m.Type())
    ensures Create(rt, t, members) == Err(InvalidOperation)
  {
  }

  /** A member type that enumerates itself does bind; the comparer is built,
    * and then throws ArgumentNullException whenever that member of the first
    * operand is null. */
  lemma SelfEnumeratingNullMemberThrows(rt: Runtime, t: TypeId, m: MemberInfo, x: Object, y: Object)
    requires !m.Type().isValueType && Memberwise.IsSequenceType(m.Type()) && m.Type().enumeratesItself
    requires Read(x, m).Null? && x != y && rt.isA(y.runtimeType, t)
    ensures Create(rt, t, [m]).Ok?
    ensures Create(rt, t, [m]).value.Equals(NonNull(x), NonNull(y)) == Err(ArgumentNull)
  {
    assert [m][1..] == [];
  }

  /** Once built, the comparer never reads the second operand beyond its type:
    * for any instance `y` of `T` or of a type derived from it, the verdict is
    * the chain run on `x` against itself. */
  lemma SecondOperandIgnored(rt: Runtime, t: TypeId, members: seq<MemberInfo>, x: Object, y: Object)
    requires Create(rt, t, members).Ok?
    requires rt.isA(y.runtimeType, t)
    ensures Create(rt, t, members).value.Equals(NonNull(x), NonNull(y)) ==
      if x == y then Ok(true) else EqualsChain(rt, members, x, x)
  {
  }

  /** Without reference-typed sequence members, the chain accepts any object
    * compared with itself. */
  lemma {:induction false} ScalarChainAcceptsItself(rt: Runtime, members: seq<MemberInfo>, x: Object)
    requires forall i :: 0 <= i < |members| ==> members[i].Type().isValueType || !Memberwise.IsSequenceType(members[i].Type())
    ensures EqualsChain(rt, members, x, x) == Ok(true)
    decreases |members|
  {
    if members != [] {
      assert MemberEquals(rt, members[0], Read(x, members[0]), Read(x, members[0])) == Ok(true);
      assert forall i :: 0 <= i < |members[1..]| ==> members[1..][i] == members[i + 1];
      ScalarChainAcceptsItself(rt, members[1..], x);
    }
  }

  // ---- Concrete inputs ----

  const FieldA: MemberInfo := Field(Samples.IntMember("FieldA"))
  const FieldC: MemberInfo := Field(Samples.IntMember("FieldC"))

  /** Two `Dummy` objects whose only member differs: 5 and 3. */
  const DummyFive: Object := Object(10, Samples.DummyType, map["FieldA" := Samples.Int(5)], [])
  const DummyThree: Object := Object(11, Samples.DummyType, map["FieldA" := Samples.Int(3)], [])

  /** A `DummyChild` with the same `FieldA` as `DummyFive` and one more field. */
  const ChildFive: Object :=
    Object(12, Samples.DummyChildType, map["FieldA" := Samples.Int(5), "FieldC" := Samples.Int(7)], [])

  /** Objects whose members differ are called equal, yet their hash codes
    * differ, which breaks the IEqualityComparer contract; the corrected engine
    * calls them unequal. */
  lemma DifferentMembersCalledEqual()
    ensures Create(Samples.Reference, Samples.DummyType, [FieldA]).Ok?
    ensures Create(Samples.Reference, Samples.DummyType, [FieldA]).value.Equals(NonNull(DummyFive), NonNull(DummyThree)) == Ok(true)
    ensures Create(Samples.Reference, Samples.DummyType, [FieldA]).value.GetHashCode(NonNull(DummyFive))
         != Create(Samples.Reference, Samples.DummyType, [FieldA]).value.GetHashCode(NonNull(DummyThree))
    ensures Memberwise.Create(Samples.Reference, [FieldA]).Equals(NonNull(DummyFive), NonNull(DummyThree)) == Ok(false)
  {
    var rt := Samples.Reference;
    SecondOperandIgnored(rt, Samples.DummyType, [FieldA], DummyFive, DummyThree);
    ScalarChainAcceptsItself(rt, [FieldA], DummyFive);
    assert Memberwise.MemberHash(rt, FieldA, Samples.Int(5)) == 5;
    assert Memberwise.MemberHash(rt, FieldA, Samples.Int(3)) == 3;
    assert [FieldA][1..] == [];
    assert Memberwise.HashChain(rt, Memberwise.HashCodeSeed, [FieldA], DummyFive) == Memberwise.Link(Memberwise.HashCodeSeed, 5);
    assert Memberwise.HashChain(rt, Memberwise.HashCodeSeed, [FieldA], DummyThree) == Memberwise.Link(Memberwise.HashCodeSeed, 3);
    Memberwise.DifferingMemberSeparates(Samples.Reference, [FieldA], DummyFive, DummyThree, 0);
  }

  /** An instance of a derived type passes `TypeIs` and is called equal to an
    * instance of the base type; the corrected engine calls them unequal. */
  lemma DerivedInstanceCalledEqual()
    ensures Create(Samples.Reference, Samples.DummyType, [FieldA]).Ok?
    ensures Create(Samples.Reference, Samples.DummyType, [FieldA]).value.Equals(NonNull(DummyFive), NonNull(ChildFive)) == Ok(true)
    ensures Memberwise.Create(Samples.Reference, [FieldA]).Equals(NonNull(DummyFive), NonNull(ChildFive)) == Ok(false)
  {
    SecondOperandIgnored(Samples.Reference, Samples.DummyType, [FieldA], DummyFive, ChildFive);
    ScalarChainAcceptsItself(Samples.Reference, [FieldA], DummyFive);
  }

  /** The members of the test double DummyByMembersEqualityComparable: `int
    * FieldA`, `IEnumerable<char> FieldB`, `DateTime PropertyA` and
    * `IEnumerable<bool> PropertyB`, plus the two backing fields. */
  const CharSequence: MemberType := MemberType(false, true, false, false)
  const DummyByMembers: TypeInfo := TypeInfo(
    Samples.DummyType,
    [Samples.IntMember("FieldA"), MemberDecl("FieldB", CharSequence, {}),
     MemberDecl("<PropertyA>k__BackingField", MemberType(true, false, false, false), {}),
     MemberDecl("<PropertyB>k__BackingField", CharSequence, {})],
    [MemberDecl("PropertyA", MemberType(true, false, false, false), {}), MemberDecl("PropertyB", CharSequence, {})])

  /** No comparer over all members of that double can be built, so the
    * expectations on null sequence members cannot be met as written; the
    * corrected engine builds one and calls objects with equal member values,
    * null sequences included, equal. */
  lemma SequenceDoubleCannotBeBuilt(rt: Runtime, x: Object, y: Object)
    requires x.runtimeType == y.runtimeType
    requires forall m :: m in Memberwise.GetMembers(DummyByMembers) ==> Read(x, m) == Read(y, m)
    ensures Create(rt, Samples.DummyType, Memberwise.GetMembers(DummyByMembers)) == Err(InvalidOperation)
    ensures Memberwise.Create(rt, Memberwise.GetMembers(DummyByMembers)).Equals(NonNull(x), NonNull(y)) == Ok(true)
  {
    var fieldB := Field(MemberDecl("FieldB", CharSequence, {}));
    assert fieldB == Field(DummyByMembers.fields[1]);
    assert Memberwise.IsUserMember(fieldB);
    SequenceMemberBreaksConstruction(rt, Samples.DummyType, Memberwise.GetMembers(DummyByMembers), fieldB);
    Memberwise.SameMemberValuesEqual(rt, Memberwise.GetMembers(DummyByMembers), x, y);
  }
}
