// SolidStack.Core.Equality.EqualityComparer: the public recipes that build an
// IEqualityComparer by elements, by key, by selected members, by tagged
// members, or from two caller-supplied delegates.
module EqualityRecipes {
  import opened Base
  import opened Runtime
  import Linq
  import Guards
  import opened Comparers
  import SequenceEquality
  import Memberwise
  import Samples

  /** `Func<IEnumerable<MemberInfo>, IEnumerable<MemberInfo>>`. */
  type Selector = seq<MemberInfo> -> seq<MemberInfo>

  /** `Func<MemberInfo, bool>`. */
  type MemberPredicate = MemberInfo -> bool

  /** `Func<T, object>` selecting an object's key. */
  type KeyPath = Object -> Value

  /** `For<T>(equals, getHashCode)`: both delegates must be non-null. */
  function For(equals: Nullable<(Object, Object) -> Result<bool>>, getHashCode: Nullable<Object -> Result<bv32>>): (r: Result<Comparer>)
    ensures equals.Null? ==> r == Err(GuardClause(Guards.NullMessage("equals")))
    ensures equals.NonNull? && getHashCode.Null? ==> r == Err(GuardClause(Guards.NullMessage("getHashCode")))
    ensures equals.NonNull? && getHashCode.NonNull? ==>
      r.Ok? && r.value.equalsFunc == equals.value && r.value.getHashCodeFunc == getHashCode.value
  {
    var equalsGuard := Guards.RequiresNonNull(equals, "equals");
    if equalsGuard.Fail? then Err(equalsGuard.failure)
    else
      var hashGuard := Guards.RequiresNonNull(getHashCode, "getHashCode");
      if hashGuard.Fail? then Err(hashGuard.failure)
      else Ok(Comparer(equals.value, getHashCode.value))
  }

  // ---- By elements ----

  /** `ByElements<T>()`: the sequence helper pair. */
  function ByElements(rt: Runtime): (r: Result<Comparer>)
    ensures r.Ok?
  {
    For(NonNull((x: Object, y: Object) => Ok(SequenceEquality.SequenceEqual(rt, NonNull(x), NonNull(y)))),
        NonNull((obj: Object) => Ok(SequenceEquality.GetSequenceHashCode(rt, NonNull(obj)))))
  }

  /** Two sequences are equal by elements exactly when `SequenceEqual` says so,
    * and the comparer keeps the hash contract. */
  lemma ByElementsMeaning(rt: Runtime, x: Value, y: Value)
    requires Lawful(rt)
    ensures ByElements(rt).value.Equals(x, y) == Ok(SequenceEquality.SequenceEqual(rt, x, y))
    ensures ByElements(rt).value.Equals(x, y) == Ok(true) ==>
      ByElements(rt).value.GetHashCode(x) == ByElements(rt).value.GetHashCode(y)
  {
    if SequenceEquality.SequenceEqual(rt, x, y) {
      SequenceEquality.SequenceEqualKeepsHash(rt, x, y);
    }
  }

  // ---- By members, fields and properties ----

  /** `members.OfType<FieldInfo>()`. */
  function OfFields(members: seq<MemberInfo>): seq<MemberInfo>
  {
    Linq.Where(members, (m: MemberInfo) => m.Field?)
  }

  /** `members.OfType<PropertyInfo>()`. */
  function OfProperties(members: seq<MemberInfo>): seq<MemberInfo>
  {
    Linq.Where(members, (m: MemberInfo) => m.Property?)
  }

  /** `ByMembers<T>(selector)`. */
  function ByMembersSelected(rt: Runtime, t: TypeInfo, selector: Nullable<Selector>): (r: Result<Comparer>)
    ensures selector.Null? ==> r == Err(GuardClause(Guards.NullMessage("selector")))
    ensures selector.NonNull? ==> r == Ok(Memberwise.Create(rt, selector.value(Memberwise.GetMembers(t))))
  {
    var guard := Guards.RequiresNonNull(selector, "selector");
    if guard.Fail? then Err(guard.failure)
    else Ok(Memberwise.CreateSelecting(rt, t, selector.value))
  }

  /** `ByMembers<T>(predicate)`. */
  function ByMembersWhere(rt: Runtime, t: TypeInfo, filter: Nullable<MemberPredicate>): (r: Result<Comparer>)
    ensures filter.Null? ==> r == Err(GuardClause(Guards.NullMessage("predicate")))
    ensures filter.NonNull? ==>
      r == Ok(Memberwise.Create(rt, Linq.Where(Memberwise.GetMembers(t), filter.value)))
  {
    var guard := Guards.RequiresNonNull(filter, "predicate");
    if guard.Fail? then Err(guard.failure)
    else ByMembersSelected(rt, t, NonNull((members: seq<MemberInfo>) => Linq.Where(members, filter.value)))
  }

  /** `ByMembers<T>()`. */
  function ByMembers(rt: Runtime, t: TypeInfo): (r: Result<Comparer>)
    ensures r == Ok(Memberwise.Create(rt, Memberwise.GetMembers(t)))
  {
    ByMembersSelected(rt, t, NonNull((members: seq<MemberInfo>) => members))
  }

  /** `ByFields<T>(selector)`: the selector sees the fields only. */
  function ByFieldsSelected(rt: Runtime, t: TypeInfo, selector: Nullable<Selector>): (r: Result<Comparer>)
    ensures selector.Null? ==> r == Err(GuardClause(Guards.NullMessage("selector")))
    ensures selector.NonNull? ==>
      r == Ok(Memberwise.Create(rt, selector.value(OfFields(Memberwise.GetMembers(t)))))
  {
    var guard := Guards.RequiresNonNull(selector, "selector");
    if guard.Fail? then Err(guard.failure)
    else ByMembersSelected(rt, t, NonNull((members: seq<MemberInfo>) => selector.value(OfFields(members))))
  }

  /** `ByFields<T>(predicate)`. */
  function ByFieldsWhere(rt: Runtime, t: TypeInfo, filter: Nullable<MemberPredicate>): (r: Result<Comparer>)
    ensures filter.Null? ==> r == Err(GuardClause(Guards.NullMessage("predicate")))
    ensures filter.NonNull? ==>
      r == Ok(Memberwise.Create(rt, Linq.Where(OfFields(Memberwise.GetMembers(t)), filter.value)))
  {
    var guard := Guards.RequiresNonNull(filter, "predicate");
    if guard.Fail? then Err(guard.failure)
    else ByFieldsSelected(rt, t, NonNull((fields: seq<MemberInfo>) => Linq.Where(fields, filter.value)))
  }

  /** `ByFields<T>()`. */
  function ByFields(rt: Runtime, t: TypeInfo): (r: Result<Comparer>)
    ensures r == Ok(Memberwise.Create(rt, OfFields(Memberwise.GetMembers(t))))
  {
    ByFieldsSelected(rt, t, NonNull((fields: seq<MemberInfo>) => fields))
  }

  /** `ByProperties<T>(selector)`: the selector sees the properties only. */
  function ByPropertiesSelected(rt: Runtime, t: TypeInfo, selector: Nullable<Selector>): (r: Result<Comparer>)
    ensures selector.Null? ==> r == Err(GuardClause(Guards.NullMessage("selector")))
    ensures selector.NonNull? ==>
      r == Ok(Memberwise.Create(rt, selector.value(OfProperties(Memberwise.GetMembers(t)))))
  {
    var guard := Guards.RequiresNonNull(selector, "selector");
    if guard.Fail? then Err(guard.failure)
    else ByMembersSelected(rt, t, NonNull((members: seq<MemberInfo>) => selector.value(OfProperties(members))))
  }

  /** `ByProperties<T>(predicate)`. */
  function ByPropertiesWhere(rt: Runtime, t: TypeInfo, filter: Nullable<MemberPredicate>): (r: Result<Comparer>)
    ensures filter.Null? ==> r == Err(GuardClause(Guards.NullMessage("predicate")))
    ensures filter.NonNull? ==>
      r == Ok(Memberwise.Create(rt, Linq.Where(OfProperties(Memberwise.GetMembers(t)), filter.value)))
  {
    var guard := Guards.RequiresNonNull(filter, "predicate");
    if guard.Fail? then Err(guard.failure)
    else ByPropertiesSelected(rt, t, NonNull((properties: seq<MemberInfo>) => Linq.Where(properties, filter.value)))
  }

  /** `ByProperties<T>()`. */
  function ByProperties(rt: Runtime, t: TypeInfo): (r: Result<Comparer>)
    ensures r == Ok(Memberwise.Create(rt, OfProperties(Memberwise.GetMembers(t))))
  {
    ByPropertiesSelected(rt, t, NonNull((properties: seq<MemberInfo>) => properties))
  }

  /** A by-fields comparer never looks at a property: objects that agree on
    * every field of the type compare and hash alike. */
  lemma ByFieldsIgnoresProperties(rt: Runtime, t: TypeInfo, filter: MemberPredicate, x: Object, x': Object, y: Object)
    requires x.runtimeType == x'.runtimeType
    requires forall d :: d in t.fields ==> Read(x, Field(d)) == Read(x', Field(d))
    ensures ByFieldsWhere(rt, t, NonNull(filter)).value.equalsFunc(x, y) ==
            ByFieldsWhere(rt, t, NonNull(filter)).value.equalsFunc(x', y)
    ensures ByFieldsWhere(rt, t, NonNull(filter)).value.getHashCodeFunc(x) ==
            ByFieldsWhere(rt, t, NonNull(filter)).value.getHashCodeFunc(x')
  {
    var members := Linq.Where(OfFields(Memberwise.GetMembers(t)), filter);
    forall i | 0 <= i < |members|
      ensures Read(x, members[i]) == Read(x', members[i])
    {
      assert members[i] in OfFields(Memberwise.GetMembers(t));
    }
    Memberwise.UnselectedMembersIgnored(rt, members, x, x', y);
  }

  /** A by-properties comparer never looks at a field. */
  lemma ByPropertiesIgnoresFields(rt: Runtime, t: TypeInfo, filter: MemberPredicate, x: Object, x': Object, y: Object)
    requires x.runtimeType == x'.runtimeType
    requires forall d :: d in t.properties ==> Read(x, Property(d)) == Read(x', Property(d))
    ensures ByPropertiesWhere(rt, t, NonNull(filter)).value.equalsFunc(x, y) ==
            ByPropertiesWhere(rt, t, NonNull(filter)).value.equalsFunc(x', y)
    ensures ByPropertiesWhere(rt, t, NonNull(filter)).value.getHashCodeFunc(x) ==
            ByPropertiesWhere(rt, t, NonNull(filter)).value.getHashCodeFunc(x')
  {
    var members := Linq.Where(OfProperties(Memberwise.GetMembers(t)), filter);
    forall i | 0 <= i < |members|
      ensures Read(x, members[i]) == Read(x', members[i])
    {
      assert members[i] in OfProperties(Memberwise.GetMembers(t));
    }
    Memberwise.UnselectedMembersIgnored(rt, members, x, x', y);
  }

  // ---- By tagged members ----

  const InvalidAttributeTypesMessage: string :=
    "Receiving attributeTypes containing one or more types that are not a subclass of Attribute."

  /** `InnerGuard.RequiresValidAttributeTypes`: in debug builds, no null type
    * and only strict subclasses of System.Attribute. */
  function RequiresValidAttributeTypes(rt: Runtime, build: Guards.Build, attributeTypes: seq<Nullable<TypeId>>): (o: Outcome)
    ensures o.Pass? <==> (build == Guards.Release || ValidMarkers(rt, attributeTypes))
    ensures o.Fail? ==> o.failure.GuardClause?
  {
    var noNull := Guards.RequiresNoNullIn(build, attributeTypes, "attributeTypes");
    if noNull.Fail? then noNull
    else Guards.RequiresAll(build, attributeTypes,
      (a: Nullable<TypeId>) => a.NonNull? && IsAttributeType(rt, a.value), InvalidAttributeTypesMessage)
  }

  /** An attribute of type `attributeType`, or derived from it, is on `m`. */
  predicate IsDefined(rt: Runtime, m: MemberInfo, attributeType: TypeId)
  {
    exists a | a in m.decl.attributes :: rt.isA(a, attributeType)
  }

  /** `Attribute.IsDefined(member, attributeType)`: throws on a null type and on
    * a type that is not System.Attribute or derived from it. */
  function AttributeIsDefined(rt: Runtime, m: MemberInfo, attributeType: Nullable<TypeId>): (r: Result<bool>)
    ensures r.Ok? <==> attributeType.NonNull? && rt.isA(attributeType.value, AttributeType)
    ensures attributeType.Null? ==> r == Err(ArgumentNull)
    ensures r.Err? && attributeType.NonNull? ==> r.failure == Argument
    ensures r.Ok? ==> (r.value <==> IsTagged(rt, m, [attributeType]))
  {
    if attributeType.Null? then Err(ArgumentNull)
    else if !rt.isA(attributeType.value, AttributeType) then Err(Argument)
    else
      assert [attributeType][0] == attributeType;
      Ok(IsDefined(rt, m, attributeType.value))
  }

  /** `m` carries one of the (non-null) marker types. */
  predicate IsTagged(rt: Runtime, m: MemberInfo, attributeTypes: seq<Nullable<TypeId>>)
  {
    exists i :: 0 <= i < |attributeTypes| && attributeTypes[i].NonNull? && IsDefined(rt, m, attributeTypes[i].value)
  }

  /** `IsTagged` as a member filter. */
  function Tagged(rt: Runtime, attributeTypes: seq<Nullable<TypeId>>): MemberPredicate
  {
    (m: MemberInfo) => IsTagged(rt, m, attributeTypes)
  }

  predicate ValidMarkers(rt: Runtime, attributeTypes: seq<Nullable<TypeId>>)
  {
    forall i :: 0 <= i < |attributeTypes| ==>
      attributeTypes[i].NonNull? && IsAttributeType(rt, attributeTypes[i].value)
  }

  /** `HasAnyAttribute`: `Any` over the marker types, stopping at the first
    * that is defined on the member and throwing at the first invalid one it
    * reaches. */
  function HasAnyAttribute(rt: Runtime, m: MemberInfo, attributeTypes: seq<Nullable<TypeId>>): (r: Result<bool>)
    ensures ValidMarkers(rt, attributeTypes) ==> r == Ok(IsTagged(rt, m, attributeTypes))
    ensures |attributeTypes| > 0 && attributeTypes[0].Null? ==> r == Err(ArgumentNull)
  {
    if attributeTypes == [] then Ok(false)
    else match AttributeIsDefined(rt, m, attributeTypes[0])
      case Err(f) => Err(f)
      case Ok(true) => Ok(true)
      case Ok(false) =>
        var rest := HasAnyAttribute(rt, m, attributeTypes[1..]);
        assert ValidMarkers(rt, attributeTypes) ==> ValidMarkers(rt, attributeTypes[1..]);
        assert IsTagged(rt, m, attributeTypes[1..]) ==> IsTagged(rt, m, attributeTypes);
        assert ValidMarkers(rt, attributeTypes) && IsTagged(rt, m, attributeTypes) ==> IsTagged(rt, m, attributeTypes[1..]);
        rest
  }

  /** The marker guard, then the members kept by `HasAnyAttribute`. */
  function SelectTagged(rt: Runtime, build: Guards.Build, candidates: seq<MemberInfo>, attributeTypes: seq<Nullable<TypeId>>): (r: Result<Comparer>)
    ensures r.Err? ==> !ValidMarkers(rt, attributeTypes)
    ensures build == Guards.Debug && !ValidMarkers(rt, attributeTypes) ==> r.Err? && r.failure.GuardClause?
  {
    var guard := RequiresValidAttributeTypes(rt, build, attributeTypes);
    if guard.Fail? then Err(guard.failure)
    else
      var members :- Linq.WhereOrFail(candidates, (m: MemberInfo) => HasAnyAttribute(rt, m, attributeTypes));
      Ok(Memberwise.Create(rt, members))
  }

  /** `ByTaggedMembers<T>(attributeTypes)`. */
  function ByTaggedMembers(rt: Runtime, build: Guards.Build, t: TypeInfo, attributeTypes: seq<Nullable<TypeId>>): (r: Result<Comparer>)
    ensures ValidMarkers(rt, attributeTypes) ==>
      r == Ok(Memberwise.Create(rt, Linq.Where(Memberwise.GetMembers(t), Tagged(rt, attributeTypes))))
    ensures build == Guards.Debug && !ValidMarkers(rt, attributeTypes) ==> r.Err? && r.failure.GuardClause?
  {
    SelectTaggedValid(rt, build, Memberwise.GetMembers(t), attributeTypes);
    SelectTagged(rt, build, Memberwise.GetMembers(t), attributeTypes)
  }

  /** `ByTaggedFields<T>(attributeTypes)`. */
  function ByTaggedFields(rt: Runtime, build: Guards.Build, t: TypeInfo, attributeTypes: seq<Nullable<TypeId>>): (r: Result<Comparer>)
    ensures ValidMarkers(rt, attributeTypes) ==>
      r == Ok(Memberwise.Create(rt, Linq.Where(OfFields(Memberwise.GetMembers(t)), Tagged(rt, attributeTypes))))
    ensures build == Guards.Debug && !ValidMarkers(rt, attributeTypes) ==> r.Err? && r.failure.GuardClause?
  {
    SelectTaggedValid(rt, build, OfFields(Memberwise.GetMembers(t)), attributeTypes);
    SelectTagged(rt, build, OfFields(Memberwise.GetMembers(t)), attributeTypes)
  }

  /** `ByTaggedProperties<T>(attributeTypes)`. */
  function ByTaggedProperties(rt: Runtime, build: Guards.Build, t: TypeInfo, attributeTypes: seq<Nullable<TypeId>>): (r: Result<Comparer>)
    ensures ValidMarkers(rt, attributeTypes) ==>
      r == Ok(Memberwise.Create(rt, Linq.Where(OfProperties(Memberwise.GetMembers(t)), Tagged(rt, attributeTypes))))
    ensures build == Guards.Debug && !ValidMarkers(rt, attributeTypes) ==> r.Err? && r.failure.GuardClause?
  {
    SelectTaggedValid(rt, build, OfProperties(Memberwise.GetMembers(t)), attributeTypes);
    SelectTagged(rt, build, OfProperties(Memberwise.GetMembers(t)), attributeTypes)
  }

  /** `ByTaggedMembers<T>()`, `ByTaggedFields<T>()`, `ByTaggedProperties<T>()`:
    * the default marker is EqualityMemberAttribute. */
  const DefaultMarkers: seq<Nullable<TypeId>> := [NonNull(EqualityMemberAttributeType)]

  /** With valid markers, a tagged recipe compares exactly the candidates
    * carrying one of the markers, in either build. */
  lemma {:induction false} SelectTaggedValid(rt: Runtime, build: Guards.Build, candidates: seq<MemberInfo>, attributeTypes: seq<Nullable<TypeId>>)
    ensures ValidMarkers(rt, attributeTypes) ==>
      SelectTagged(rt, build, candidates, attributeTypes) == Ok(Memberwise.Create(rt, Linq.Where(candidates, Tagged(rt, attributeTypes))))
  {
    if ValidMarkers(rt, attributeTypes) {
      Linq.WhereOrFailAgrees(candidates, (m: MemberInfo) => HasAnyAttribute(rt, m, attributeTypes), Tagged(rt, attributeTypes));
    }
  }

  /** The default marker is valid, so the default tagged recipes select the
    * members carrying EqualityMemberAttribute (or an attribute derived from it). */
  lemma DefaultMarkersValid(rt: Runtime)
    requires Lawful(rt)
    ensures ValidMarkers(rt, DefaultMarkers)
  {
  }

  /** In a release build the guard is compiled out: a null marker surfaces
    * only as Attribute.IsDefined's ArgumentNullException, and only when there
    * is a candidate member to test. */
  lemma NullMarkerInRelease(rt: Runtime, candidates: seq<MemberInfo>, attributeTypes: seq<Nullable<TypeId>>)
    requires |attributeTypes| > 0 && attributeTypes[0].Null?
    ensures candidates != [] ==> SelectTagged(rt, Guards.Release, candidates, attributeTypes) == Err(ArgumentNull)
    ensures candidates == [] ==> SelectTagged(rt, Guards.Release, candidates, attributeTypes).Ok?
  {
  }

  // ---- By key ----

  /** The key equality as written: `keyPath(x).Equals(keyPath(y))`, which
    * throws NullReferenceException when the first key is null. */
  function KeyEquals(rt: Runtime, keyPath: KeyPath, x: Object, y: Object): (r: Result<bool>)
    ensures r.Err? <==> keyPath(x).Null?
    ensures r.Err? ==> r.failure == NullReference
    ensures Lawful(rt) && keyPath(y).Null? ==> r != Ok(true)
    ensures Lawful(rt) && r == Ok(true) ==> rt.hash(keyPath(x).value) == rt.hash(keyPath(y).value)
  {
    var key := keyPath(x);
    if key.Null? then Err(NullReference) else Ok(rt.equals(key.value, keyPath(y)))
  }

  /** The key hash: `obj.GetType().GetHashCode() ^ keyPath(obj).GetHashCode()`. */
  function KeyHash(rt: Runtime, keyPath: KeyPath, obj: Object): (r: Result<bv32>)
    ensures r.Err? <==> keyPath(obj).Null?
    ensures r.Err? ==> r.failure == NullReference
    ensures r.Ok? ==> r.value ^ rt.typeHash(obj.runtimeType) == rt.hash(keyPath(obj).value)
  {
    var key := keyPath(obj);
    if key.Null? then Err(NullReference) else Ok(rt.typeHash(obj.runtimeType) ^ rt.hash(key.value))
  }

  /** `ByKey<T>(keyPath)` as written: the equality ignores the concrete type
    * that the hash folds in. */
  function ByKeyAsWritten(rt: Runtime, keyPath: Nullable<KeyPath>): (r: Result<Comparer>)
    ensures keyPath.Null? ==> r == Err(GuardClause(Guards.NullMessage("keyPath")))
    ensures keyPath.NonNull? ==> r.Ok?
    ensures keyPath.NonNull? ==> forall x: Object, y: Object :: x != y ==>
      r.value.Equals(NonNull(x), NonNull(y)) == KeyEquals(rt, keyPath.value, x, y)
    ensures keyPath.NonNull? ==> forall o: Object :: r.value.GetHashCode(NonNull(o)) == KeyHash(rt, keyPath.value, o)
  {
    var guard := Guards.RequiresNonNull(keyPath, "keyPath");
    if guard.Fail? then Err(guard.failure)
    else For(NonNull((x: Object, y: Object) => KeyEquals(rt, keyPath.value, x, y)),
             NonNull((obj: Object) => KeyHash(rt, keyPath.value, obj)))
  }

  /** `ByKey<T>(keyPath)` corrected: objects of different concrete types are
    * unequal, matching the type the hash folds in. */
  function ByKey(rt: Runtime, keyPath: Nullable<KeyPath>): (r: Result<Comparer>)
    ensures keyPath.Null? ==> r == Err(GuardClause(Guards.NullMessage("keyPath")))
    ensures keyPath.NonNull? ==> r.Ok?
    ensures keyPath.NonNull? ==> forall x: Object, y: Object :: x != y && x.runtimeType == y.runtimeType ==>
      r.value.Equals(NonNull(x), NonNull(y)) == KeyEquals(rt, keyPath.value, x, y)
    ensures keyPath.NonNull? ==> forall x: Object, y: Object :: x != y && x.runtimeType != y.runtimeType ==>
      r.value.Equals(NonNull(x), NonNull(y)) == if keyPath.value(x).Null? then Err(NullReference) else Ok(false)
    ensures keyPath.NonNull? ==> forall o: Object :: r.value.GetHashCode(NonNull(o)) == KeyHash(rt, keyPath.value, o)
  {
    var guard := Guards.RequiresNonNull(keyPath, "keyPath");
    if guard.Fail? then Err(guard.failure)
    else For(NonNull((x: Object, y: Object) =>
               var keyEquals :- KeyEquals(rt, keyPath.value, x, y);
               Ok(x.runtimeType == y.runtimeType && keyEquals)),
             NonNull((obj: Object) => KeyHash(rt, keyPath.value, obj)))
  }

  /** Corrected by-key comparers keep the hash contract. */
  lemma ByKeyConsistent(rt: Runtime, keyPath: KeyPath, x: Value, y: Value)
    requires Lawful(rt)
    requires ByKey(rt, NonNull(keyPath)).value.Equals(x, y) == Ok(true)
    ensures ByKey(rt, NonNull(keyPath)).value.GetHashCode(x) == ByKey(rt, NonNull(keyPath)).value.GetHashCode(y)
  {
    if x != y {
      var kx, ky := keyPath(x.value), keyPath(y.value);
      assert kx.NonNull? && rt.equals(kx.value, ky);
      assert x.value.runtimeType == y.value.runtimeType;
      assert ky.NonNull? && rt.hash(kx.value) == rt.hash(ky.value);
    }
  }

  /** A null key makes both the equality and the hash throw, as written and corrected. */
  lemma ByKeyNullKeyThrows(rt: Runtime, keyPath: KeyPath, x: Object, y: Object)
    requires x != y && keyPath(x).Null?
    ensures ByKey(rt, NonNull(keyPath)).value.Equals(NonNull(x), NonNull(y)) == Err(NullReference)
    ensures ByKeyAsWritten(rt, NonNull(keyPath)).value.Equals(NonNull(x), NonNull(y)) == Err(NullReference)
    ensures ByKey(rt, NonNull(keyPath)).value.GetHashCode(NonNull(x)) == Err(NullReference)
  {
  }

  const KeyName: MemberName := "Id"
  const IdProperty: MemberInfo := Property(MemberDecl(KeyName, MemberType(false, true, true, false), {}))
  const Key: Object := Object(100, "System.String", map[], [])
  const KeyedDummy: Object := Object(20, Samples.DummyType, map[KeyName := NonNull(Key)], [])
  const KeyedChild: Object := Object(21, Samples.DummyChildType, map[KeyName := NonNull(Key)], [])

  /** As written, an instance and an instance of a derived type with the same
    * key are equal but hash differently; the corrected recipe calls them
    * unequal. */
  lemma ByKeyAsWrittenBreaksHashContract()
    ensures ByKeyAsWritten(Samples.Reference, NonNull((o: Object) => Read(o, IdProperty))).value
              .Equals(NonNull(KeyedDummy), NonNull(KeyedChild)) == Ok(true)
    ensures ByKeyAsWritten(Samples.Reference, NonNull((o: Object) => Read(o, IdProperty))).value
              .GetHashCode(NonNull(KeyedDummy))
         != ByKeyAsWritten(Samples.Reference, NonNull((o: Object) => Read(o, IdProperty))).value
              .GetHashCode(NonNull(KeyedChild))
    ensures ByKey(Samples.Reference, NonNull((o: Object) => Read(o, IdProperty))).value
              .Equals(NonNull(KeyedDummy), NonNull(KeyedChild)) == Ok(false)
  {
    var rt := Samples.Reference;
    assert Read(KeyedDummy, IdProperty) == NonNull(Key);
    assert Read(KeyedChild, IdProperty) == NonNull(Key);
    assert rt.typeHash(Samples.DummyType) == 5;
    assert rt.typeHash(Samples.DummyChildType) == 10;
    assert rt.hash(Key) == 100;
  }
}
