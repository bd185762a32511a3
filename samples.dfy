// A concrete runtime and concrete objects, used to exhibit the inputs named
// under "Findings" in README.md.
module Samples {
  import opened Base
  import opened Runtime

  const DummyType: TypeId := "Dummy"
  const DummyChildType: TypeId := "DummyChild"
  const Int32Type: TypeId := "System.Int32"

  /** Objects use reference identity for Equals and hash to their id; a type
    * hashes to the length of its name; `DummyChild` derives from `Dummy`. */
  const Reference: Runtime := Runtime(
    (a: Object, b: Value) => b == NonNull(a),
    (a: Object) => (a.id % 0x1_0000_0000) as bv32,
    (t: TypeId) => (|t| % 0x1_0000_0000) as bv32,
    (s: TypeId, u: TypeId) =>
      s == u || (s == DummyChildType && u == DummyType) ||
      (s == EqualityMemberAttributeType && u == AttributeType))

  lemma ReferenceIsLawful()
    ensures Lawful(Reference)
  {
  }

  /** A boxed `int`: boxes of the same number are the same value. */
  function Int(n: nat): Value
  {
    NonNull(Object(n, Int32Type, map[], []))
  }

  /** A value-typed, non-enumerable member declaration such as `int FieldA`. */
  function IntMember(name: MemberName): MemberDecl
  {
    MemberDecl(name, MemberType(true, false, false, false), {})
  }
}
