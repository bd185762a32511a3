// SolidStack.Core.Equality.Internal.MemberwiseEqualityComparerFactory, with
// the defects listed under "Findings" in README.md corrected: both operands
// are read, concrete runtime types must match, and each member's strategy is
// decided once and used by both the equality and the hash. The code as
// written is modelled in module MemberwiseAsWritten.
module Memberwise {
  import opened Base
  import opened Runtime
  import Linq
  import SequenceEquality
  import opened Comparers

  const HashCodeSeed: bv32 := 29
  const HashCodeMultiplier: bv32 := 103
  const BackingFieldSuffix: string := ">k__BackingField"

  predicate EndsWith(s: string, suffix: string)
  {
    |suffix| <= |s| && s[|s| - |suffix|..] == suffix
  }

  /** Compiler-generated backing fields of auto-properties are skipped. */
  predicate IsUserMember(m: MemberInfo)
  {
    !EndsWith(m.Name(), BackingFieldSuffix)
  }

  function AsFields(decls: seq<MemberDecl>): (r: seq<MemberInfo>)
    ensures |r| == |decls|
    ensures forall i :: 0 <= i < |r| ==> r[i] == Field(decls[i])
  {
    seq(|decls|, i requires 0 <= i < |decls| => Field(decls[i]))
  }

  function AsProperties(decls: seq<MemberDecl>): (r: seq<MemberInfo>)
    ensures |r| == |decls|
    ensures forall i :: 0 <= i < |r| ==> r[i] == Property(decls[i])
  {
    seq(|decls|, i requires 0 <= i < |decls| => Property(decls[i]))
  }

  /** `GetMembers<T>()`: every instance field and property, public or not,
    * except compiler-generated backing fields. */
  function GetMembers(t: TypeInfo): (r: seq<MemberInfo>)
    ensures forall i :: 0 <= i < |r| ==> IsUserMember(r[i])
    ensures forall d :: d in t.fields && IsUserMember(Field(d)) ==> Field(d) in r
    ensures forall d :: d in t.properties && IsUserMember(Property(d)) ==> Property(d) in r
    ensures forall i :: 0 <= i < |r| ==>
      (r[i].Field? && r[i].decl in t.fields) || (r[i].Property? && r[i].decl in t.properties)
  {
    var candidates := AsFields(t.fields) + AsProperties(t.properties);
    assert forall i :: 0 <= i < |t.fields| ==> candidates[i] == Field(t.fields[i]);
    assert forall i :: 0 <= i < |t.properties| ==> candidates[|t.fields| + i] == Property(t.properties[i]);
    Linq.Where(candidates, IsUserMember)
  }

  /** Fields come first, then properties, each in reflection order. */
  lemma GetMembersFieldsFirst(t: TypeInfo)
    ensures GetMembers(t) ==
      Linq.Where(AsFields(t.fields), IsUserMember) + Linq.Where(AsProperties(t.properties), IsUserMember)
  {
    Linq.WhereAppend(AsFields(t.fields), AsProperties(t.properties), IsUserMember);
  }

  /** `IsSequenceType`: assignable to IEnumerable and not string; a string,
    * though enumerable, is compared as a scalar. */
  function IsSequenceType(mt: MemberType): (r: bool)
    ensures mt.isString ==> !r
    ensures r ==> mt.isEnumerable
  {
    mt.isEnumerable && !mt.isString
  }

  /** How one member is compared and hashed, decided once from its declared
    * type. As in `MakeEqualsExpression`, the value-type test comes first: a
    * value-typed member is boxed and compared with static object.Equals even
    * when it is enumerable, so its hash is its own GetHashCode as well. */
  datatype Strategy = ScalarValue | ScalarReference | Sequence

  function StrategyOf(mt: MemberType): (s: Strategy)
    ensures s == ScalarValue <==> mt.isValueType
    ensures s == Sequence <==> !mt.isValueType && IsSequenceType(mt)
  {
    if mt.isValueType then ScalarValue
    else if IsSequenceType(mt) then Sequence
    else ScalarReference
  }

  /** One member's equality: the null-safe sequence helper for reference-typed
    * sequences, static object.Equals (after boxing, for value types) otherwise. */
  function MemberEquals(rt: Runtime, m: MemberInfo, a: Value, b: Value): (r: bool)
    ensures a == b ==> r
    ensures a.Null? != b.Null? ==> !r
    ensures m.Type().isValueType ==> (r <==> ObjectEquals(rt, a, b))
  {
    match StrategyOf(m.Type())
    case Sequence => SequenceEquality.SequenceEqual(rt, a, b)
    case _ => ObjectEquals(rt, a, b)
  }

  /** One member's hash: 0 for null, the sequence hash for reference-typed
    * sequences, the value's own GetHashCode otherwise. */
  function MemberHash(rt: Runtime, m: MemberInfo, v: Value): (r: bv32)
    ensures v.Null? ==> r == 0
    ensures m.Type().isValueType && v.NonNull? ==> r == rt.hash(v.value)
    ensures StrategyOf(m.Type()) == Sequence ==> r == SequenceEquality.GetSequenceHashCode(rt, v)
  {
    if v.Null? then 0
    else if StrategyOf(m.Type()) == Sequence then SequenceEquality.GetSequenceHashCode(rt, v)
    else rt.hash(v.value)
  }

  /** Because equality and hash of a member follow the same strategy, member
    * values that compare equal hash alike. */
  lemma MemberEqualsKeepsHash(rt: Runtime, m: MemberInfo, a: Value, b: Value)
    requires Lawful(rt)
    requires MemberEquals(rt, m, a, b)
    ensures MemberHash(rt, m, a) == MemberHash(rt, m, b)
  {
    if StrategyOf(m.Type()) == Sequence {
      SequenceEquality.SequenceEqualKeepsHash(rt, a, b);
    } else {
      ObjectEqualsKeepsHash(rt, a, b);
    }
  }

  /** The AND chain seeded with `true`: members compared left to right,
    * stopping at the first that differs. */
  function EqualsChain(rt: Runtime, members: seq<MemberInfo>, x: Object, y: Object): (r: bool)
    ensures r <==> forall i :: 0 <= i < |members| ==>
      MemberEquals(rt, members[i], Read(x, members[i]), Read(y, members[i]))
  {
    if members == [] then true
    else (MemberEquals(rt, members[0], Read(x, members[0]), Read(y, members[0]))
          && EqualsChain(rt, members[1..], x, y))
  }

  /** `LinkHashCodeExpression`: `(x * 103) ^ y`, wrapping around at 32 bits. */
  function Link(current: bv32, next: bv32): (r: bv32)
    ensures r ^ next == current * HashCodeMultiplier
  {
    (current * HashCodeMultiplier) ^ next
  }

  /** The hash chain: from the seed, multiply by 103 and xor the next member's
    * hash, wrapping around at 32 bits. Computed from the first member on, it
    * is the left fold `Aggregate(seed, Link)`: the last member is linked last. */
  function HashChain(rt: Runtime, current: bv32, members: seq<MemberInfo>, x: Object): (r: bv32)
    ensures members == [] ==> r == current
    ensures members != [] ==>
      r == Link(HashChain(rt, current, members[..|members| - 1], x),
                MemberHash(rt, members[|members| - 1], Read(x, members[|members| - 1])))
    decreases |members|
  {
    if members == [] then current
    else
      var next := Link(current, MemberHash(rt, members[0], Read(x, members[0])));
      assert members[1..] != [] ==> members[1..][..|members[1..]| - 1] == members[..|members| - 1][1..];
      HashChain(rt, next, members[1..], x)
  }

  /** Objects whose selected members hash alike position by position get the
    * same chained hash. */
  lemma {:induction false} HashChainPointwise(rt: Runtime, current: bv32, members: seq<MemberInfo>, x: Object, y: Object)
    requires forall i :: 0 <= i < |members| ==>
      MemberHash(rt, members[i], Read(x, members[i])) == MemberHash(rt, members[i], Read(y, members[i]))
    ensures HashChain(rt, current, members, x) == HashChain(rt, current, members, y)
    decreases |members|
  {
    if members != [] {
      var m := members[0];
      var hx, hy := MemberHash(rt, m, Read(x, m)), MemberHash(rt, m, Read(y, m));
      assert hx == hy;
      var next := Link(current, hx);
      assert next == Link(current, hy);
      assert forall i :: 0 <= i < |members[1..]| ==> members[1..][i] == members[i + 1];
      HashChainPointwise(rt, next, members[1..], x, y);
    }
  }

  /** `MakeEqualsMethod<T>`: objects of different concrete types are unequal;
    * otherwise every selected member must be equal. */
  function MakeEqualsMethod(rt: Runtime, members: seq<MemberInfo>): (f: (Object, Object) -> Result<bool>)
    ensures forall x: Object, y: Object :: f(x, y).Ok?
    ensures forall x: Object, y: Object :: x.runtimeType != y.runtimeType ==> f(x, y) == Ok(false)
    ensures forall x: Object :: f(x, x) == Ok(true)
  {
    (x: Object, y: Object) => Ok(x.runtimeType == y.runtimeType && EqualsChain(rt, members, x, y))
  }

  /** `MakeGetHashCodeMethod<T>`. */
  function MakeGetHashCodeMethod(rt: Runtime, members: seq<MemberInfo>): (f: Object -> Result<bv32>)
    ensures forall obj: Object :: f(obj).Ok?
    ensures members == [] ==> forall obj: Object :: f(obj) == Ok(HashCodeSeed)
  {
    (obj: Object) => Ok(HashChain(rt, HashCodeSeed, members, obj))
  }

  /** `Create<T>(members)`: the comparer over the materialised member list. */
  function Create(rt: Runtime, members: seq<MemberInfo>): (c: Comparer)
    ensures forall x: Object, y: Object :: c.equalsFunc(x, y).Ok?
    ensures forall obj: Object :: c.getHashCodeFunc(obj).Ok?
  {
    Comparer(MakeEqualsMethod(rt, members), MakeGetHashCodeMethod(rt, members))
  }

  /** `Create<T>(memberSelector)`: the selector applied to `GetMembers<T>()`. */
  function CreateSelecting(rt: Runtime, t: TypeInfo, selector: seq<MemberInfo> -> seq<MemberInfo>): (c: Comparer)
    ensures forall x: Object, y: Object :: c.equalsFunc(x, y).Ok? && c.getHashCodeFunc(x).Ok?
    ensures forall x: Object :: c.Equals(NonNull(x), NonNull(x)) == Ok(true)
  {
    Create(rt, selector(GetMembers(t)))
  }

  /** What a member-wise comparer decides for two non-null objects. */
  lemma MemberwiseEquals(rt: Runtime, members: seq<MemberInfo>, x: Object, y: Object)
    ensures Create(rt, members).Equals(NonNull(x), NonNull(y)) ==
      Ok(x == y || (x.runtimeType == y.runtimeType &&
                    forall i :: 0 <= i < |members| ==>
                      MemberEquals(rt, members[i], Read(x, members[i]), Read(y, members[i]))))
  {
    if x == y {
      assert forall i :: 0 <= i < |members| ==> MemberEquals(rt, members[i], Read(x, members[i]), Read(y, members[i]));
    }
  }

  /** The main contract of IEqualityComparer: objects a member-wise comparer
    * calls equal have the same hash code, for every member selection. */
  lemma MemberwiseConsistent(rt: Runtime, members: seq<MemberInfo>, x: Value, y: Value)
    requires Lawful(rt)
    requires Create(rt, members).Equals(x, y) == Ok(true)
    ensures Create(rt, members).GetHashCode(x) == Create(rt, members).GetHashCode(y)
  {
    if x != y {
      var a, b := x.value, y.value;
      assert EqualsChain(rt, members, a, b);
      forall i | 0 <= i < |members|
        ensures MemberHash(rt, members[i], Read(a, members[i])) == MemberHash(rt, members[i], Read(b, members[i]))
      {
        MemberEqualsKeepsHash(rt, members[i], Read(a, members[i]), Read(b, members[i]));
      }
      HashChainPointwise(rt, HashCodeSeed, members, a, b);
    }
  }

  /** Both operands are read: a selected member whose values differ makes the
    * objects unequal. */
  lemma DifferingMemberSeparates(rt: Runtime, members: seq<MemberInfo>, x: Object, y: Object, k: nat)
    requires k < |members|
    requires !MemberEquals(rt, members[k], Read(x, members[k]), Read(y, members[k]))
    ensures Create(rt, members).Equals(NonNull(x), NonNull(y)) == Ok(false)
  {
    assert x != y;
  }

  /** Objects of different concrete types are unequal, even when one derives
    * from the other. */
  lemma DifferentRuntimeTypesSeparate(rt: Runtime, members: seq<MemberInfo>, x: Object, y: Object)
    requires x.runtimeType != y.runtimeType
    ensures Create(rt, members).Equals(NonNull(x), NonNull(y)) == Ok(false)
  {
  }

  /** Two objects of the same concrete type holding the same member values are
    * equal, whatever those values are: null sequences compare equal. */
  lemma SameMemberValuesEqual(rt: Runtime, members: seq<MemberInfo>, x: Object, y: Object)
    requires x.runtimeType == y.runtimeType
    requires forall i :: 0 <= i < |members| ==> Read(x, members[i]) == Read(y, members[i])
    ensures Create(rt, members).Equals(NonNull(x), NonNull(y)) == Ok(true)
  {
    assert forall i :: 0 <= i < |members| ==> MemberEquals(rt, members[i], Read(x, members[i]), Read(y, members[i]));
  }

  /** Members left out of the selection never matter: changing them changes
    * neither the equality nor the hash. */
  lemma UnselectedMembersIgnored(rt: Runtime, members: seq<MemberInfo>, x: Object, x': Object, y: Object)
    requires x.runtimeType == x'.runtimeType
    requires forall i :: 0 <= i < |members| ==> Read(x, members[i]) == Read(x', members[i])
    ensures MakeEqualsMethod(rt, members)(x, y) == MakeEqualsMethod(rt, members)(x', y)
    ensures MakeGetHashCodeMethod(rt, members)(x) == MakeGetHashCodeMethod(rt, members)(x')
  {
    assert EqualsChain(rt, members, x, y) == EqualsChain(rt, members, x', y);
    HashChainPointwise(rt, HashCodeSeed, members, x, x');
  }

  /** With no member selected, all objects of one concrete type are equal and
    * hash to the seed. */
  lemma EmptySelection(rt: Runtime, x: Object, y: Object)
    requires x.runtimeType == y.runtimeType
    ensures Create(rt, []).Equals(NonNull(x), NonNull(y)) == Ok(true)
    ensures Create(rt, []).GetHashCode(NonNull(x)) == Ok(HashCodeSeed)
  {
  }
}
