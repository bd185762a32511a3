// The .NET runtime as the equality engine sees it: objects with an identity,
// a concrete type, member values and (for enumerable objects) the items an
// enumeration yields; the virtual Equals/GetHashCode of user types; and the
// reflection data (fields, properties, attributes) the member-wise engine reads.
module Runtime {
  import opened Base

  type TypeId = string
  type MemberName = string

  const AttributeType: TypeId := "System.Attribute"
  const EqualityMemberAttributeType: TypeId := "SolidStack.Core.Equality.EqualityMemberAttribute"

  /** A heap object. `id` tells apart two allocations with the same contents;
    * `slots` holds the values of its fields and properties by name; `items` is
    * what enumerating it yields (empty and unused when it is not enumerable). */
  datatype Object = Object(id: nat, runtimeType: TypeId, slots: map<MemberName, Value>, items: seq<Value>)

  /** A reference: `null` or an object. */
  type Value = Nullable<Object>

  /** The behaviour user code supplies and the model cannot see: the virtual
    * `Equals(object)` of the receiver, the virtual `GetHashCode()`, the hash of
    * a `System.Type`, and the runtime test `s is t` on types. */
  datatype Runtime = Runtime(
    equals: (Object, Value) -> bool,
    hash: Object -> bv32,
    typeHash: TypeId -> bv32,
    isA: (TypeId, TypeId) -> bool)

  /** The contract .NET puts on those overrides: objects that are Equals have
    * the same hash code; no object Equals null; every type is an instance of itself; and
    * EqualityMemberAttribute derives from System.Attribute. */
  ghost predicate Lawful(rt: Runtime)
  {
    (forall a: Object, b: Object :: rt.equals(a, NonNull(b)) ==> rt.hash(a) == rt.hash(b))
    && (forall a: Object :: !rt.equals(a, Null))
    && (forall t: TypeId :: rt.isA(t, t))
    && rt.isA(EqualityMemberAttributeType, AttributeType)
  }

  /** Static `object.Equals(a, b)`: same reference, or both non-null and the
    * left operand's virtual Equals accepts the right one. */
  function ObjectEquals(rt: Runtime, a: Value, b: Value): bool
  {
    a == b || (a.NonNull? && b.NonNull? && rt.equals(a.value, b))
  }

  /** `EqualityComparer<object>.Default.Equals(a, b)`: two nulls are equal, a
    * null and a non-null are not, otherwise the virtual Equals decides. */
  function DefaultEquals(rt: Runtime, a: Value, b: Value): bool
  {
    if a.NonNull? then b.NonNull? && rt.equals(a.value, b) else b.Null?
  }

  /** `v?.GetHashCode() ?? 0`. */
  function HashOrZero(rt: Runtime, v: Value): bv32
  {
    if v.Null? then 0 else rt.hash(v.value)
  }

  /** Static object.Equals never separates values with the same hash code. */
  lemma ObjectEqualsKeepsHash(rt: Runtime, a: Value, b: Value)
    requires Lawful(rt)
    requires ObjectEquals(rt, a, b)
    ensures HashOrZero(rt, a) == HashOrZero(rt, b)
  {
    if a != b {
      assert rt.equals(a.value, NonNull(b.value));
    }
  }

  /** Neither does the default comparer. */
  lemma DefaultEqualsKeepsHash(rt: Runtime, a: Value, b: Value)
    requires Lawful(rt)
    requires DefaultEquals(rt, a, b)
    ensures HashOrZero(rt, a) == HashOrZero(rt, b)
  {
    if a.NonNull? {
      assert rt.equals(a.value, NonNull(b.value));
    }
  }

  /** `v is t`: non-null and its concrete type is `t` or derives from it. */
  function IsInstanceOf(rt: Runtime, v: Value, t: TypeId): bool
  {
    v.NonNull? && rt.isA(v.value.runtimeType, t)
  }

  /** `v as t`: the same reference when it is a `t`, null otherwise. */
  function As(rt: Runtime, v: Value, t: TypeId): (r: Value)
    ensures r.NonNull? <==> IsInstanceOf(rt, v, t)
    ensures r.NonNull? ==> r == v
  {
    if IsInstanceOf(rt, v, t) then v else Null
  }

  /** `t.IsSubclassOf(typeof(Attribute))`: a strict subclass of System.Attribute. */
  function IsAttributeType(rt: Runtime, t: TypeId): bool
  {
    t != AttributeType && rt.isA(t, AttributeType)
  }

  // ---- Reflection ----

  /** What the engine asks of a member's declared type: whether it is a value
    * type, whether it is assignable to IEnumerable, whether it is string, and
    * whether it is assignable to IEnumerable of itself (a type `S` implementing
    * `IEnumerable<S>`). */
  datatype MemberType = MemberType(isValueType: bool, isEnumerable: bool, isString: bool, enumeratesItself: bool)

  /** A declared instance field or property: its name, declared type, and the
    * types of the attributes `Attribute.IsDefined` finds on it. */
  datatype MemberDecl = MemberDecl(name: MemberName, memberType: MemberType, attributes: set<TypeId>)

  /** A `MemberInfo`: a `FieldInfo` or a `PropertyInfo`. */
  datatype MemberInfo = Field(decl: MemberDecl) | Property(decl: MemberDecl)
  {
    function Name(): MemberName { decl.name }
    function Type(): MemberType { decl.memberType }
  }

  /** What `GetFields` and `GetProperties` return for a type, with the binding
    * flags Instance | Public | NonPublic, in reflection order. */
  datatype TypeInfo = TypeInfo(name: TypeId, fields: seq<MemberDecl>, properties: seq<MemberDecl>)

  /** The value of member `m` of `x` (a missing slot reads as null). */
  function Read(x: Object, m: MemberInfo): Value
  {
    if m.Name() in x.slots then x.slots[m.Name()] else Null
  }
}
