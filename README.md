# SolidStack core, modelled in Dafny

This project models the core of SolidStack, a set of small .NET libraries:

- **Guards** (`SolidStack.Core.Guards`). These are precondition and postcondition checks that throw `GuardClauseException`. The `[Conditional("DEBUG")]` guards vanish from release builds. Module `Guards` models them, with a `Build` flag.
- **Equality** (`SolidStack.Core.Equality`). This covers the `EqualityComparer` recipes (`ByElements`, `ByFields`, `ByProperties`, `ByMembers`, the tagged variants, `ByKey` and `For`) and the comparer wrapper `EqualityComparerFunc`. It also covers the null-safe sequence helpers and the reflection-driven `MemberwiseEqualityComparerFactory`. The last of these is modelled twice: once as written (`MemberwiseAsWritten`) and once corrected (`Memberwise`, which the recipes use). Finally it covers the `Equatable<TSelf>` base class and its cached comparer.
  - Modules: `Runtime`, `SequenceEquality`, `Comparers`, `Memberwise`, `MemberwiseAsWritten`, `EqualityRecipes` and `Equatables`.
- **Options**:
  - the option adapters of `SolidStack.Core.Flow` (`TryFirst`, `TrySingle`, `TryGetValue`, `AsEnumerable`, `WhereSome`);
  - the option adapters and extensions of `SolidStack.Core.Options` (`TryFirst`, `TrySingle`, `TryGetValue`, `When`, `Map`, `Reduce`).
  - Modules: `FlowOptionAdapters`, `OptionAdapters` and `OptionExtensions`.
- **Flow routing** (`SolidStack.Core.Flow.Internal`). `MappableContent` and `MappableVoid` keep the first mapping offered to them and map with it. `ActionableContent` and `ActionableVoid` collect actions and run them in order.
  - Each is a class whose methods update the mapping or the action list.
  - A fluent chain of filters is modelled as a sequence of `Clause`s (module `FlowClauses`): each clause says whether its filter matched, and carries the handler it offered.
- **Collections** (`SolidStack.Core.Collections`). These are `AddOrUpdate`, `AddOrUpdateRange` and `RemoveRange` on a mutable dictionary, and `ForEach` with and without the index. Modules: `DictionaryExtensions` and `CollectionEnumerableExtensions`.
- **Persistence** (`SolidStack.Persistence`). `DelegatingChangeTracker` keeps a list of tracked instances; it detects changed ones and accepts their changes. `ChangeTrackerExtensions` adds guarded `Track` and `TrackRange`. Modules: `ChangeTracking` and `ChangeTrackerExtensions`.

Conventions used throughout the model:

- `null` is `Nullable.Null`. A thrown exception is `Result.Err` or `Outcome.Fail`, carrying the exception kind; a guard violation carries its message.
- Hash codes are `bv32`, so the source's unchecked `int` arithmetic wraps around explicitly.
- Runtime behaviour the libraries call but do not define is a parameter:
  - user `Equals` and `GetHashCode` overrides;
  - type hashes;
  - `is` tests;
  - the user's delegates.
- The .NET contract on those overrides is the predicate `Runtime.Lawful`.
- Module `Linq` holds the LINQ operators the code relies on, over finite sequences. Module `Enumerators` holds an `IEnumerator` cursor.

Where the code and its documentation disagree, the model follows the code. The disagreements are:

- `Attribute.IsDefined` accepts `System.Attribute` itself, while the tagged recipes' guard demands a strict subclass.
- A null `Option<T>` passed to `OptionExtensions` is not a `Some` and takes the None branch.
- `DelegatingChangeTracker.TrackRange(null)` throws `ArgumentNullException` from `ToList` before its guard runs.

## Model

| member | source | states |
|---|---|---|
| Guards.Assert | src/SolidStack.Core.Guards/Guard.cs:162-169 | passes exactly when the condition holds, else fails with a guard violation carrying the message |
| Guards.Requires | src/SolidStack.Core.Guards/Guard.cs:101-102 | always checked: passes iff the condition holds, failure carries the message |
| Guards.RequiresNonNull | src/SolidStack.Core.Guards/Guard.cs:145-146 | passes iff the value is non-null; failure message is "Receiving null <name>." |
| Guards.RequiresAll | src/SolidStack.Core.Guards/Guard.cs:116-119 | in debug passes iff every element satisfies the predicate; in release always passes |
| Guards.RequiresAny | src/SolidStack.Core.Guards/Guard.cs:133-136 | in debug passes iff some element satisfies it (so an empty sequence fails); release passes |
| Guards.RequiresNoNullIn | src/SolidStack.Core.Guards/Guard.cs:159-160 | in debug passes iff no element is null, message names the variable; release passes |
| Guards.Ensures | src/SolidStack.Core.Guards/Guard.cs:30-31 | debug-only: passes iff release or the condition holds |
| Guards.EnsuresAll | src/SolidStack.Core.Guards/Guard.cs:45-48 | debug-only: passes iff release or every element satisfies the predicate |
| Guards.EnsuresAny | src/SolidStack.Core.Guards/Guard.cs:62-65 | debug-only: passes iff release or some element satisfies the predicate |
| Guards.EnsuresNonNull | src/SolidStack.Core.Guards/Guard.cs:78-79 | debug-only: passes iff release or the value is non-null |
| Guards.EnsuresNoNullIn | src/SolidStack.Core.Guards/Guard.cs:92-93 | debug-only: passes iff release or no element is null |
| Guards.DebugOnlyGuardsAgreeWhenConditionHolds | src/SolidStack.Core.Guards/Guard.cs:159-160 | on a sequence without nulls the debug and release builds of the guard both pass |
| Linq.WhereAppend | src/SolidStack.Core.Equality/Internal/MemberwiseEqualityComparerFactory.cs:41-45 | filtering distributes over concatenation, so field order is kept before property order |
| Linq.WhereOrFailAgrees | src/SolidStack.Core.Equality/EqualityComparer.cs:252-253 | a throwing filter that never throws and agrees with a plain predicate selects the same elements |
| Runtime.ObjectEqualsKeepsHash | src/SolidStack.Core.Equality/Internal/MemberwiseEqualityComparerFactory.cs:141-145 | static object.Equals never separates values with the same (null-safe) hash, for lawful overrides |
| Runtime.DefaultEqualsKeepsHash | src/SolidStack.Core.Equality/Internal/EnumerableExtensions.cs:30 | the default comparer used by Enumerable.SequenceEqual keeps hashes equal too |
| Runtime.As | src/SolidStack.Core.Equality/Equatable.cs:33 | `as T` is the same reference iff the object is a T, null otherwise |
| SequenceEquality.GetSequenceHashCode | src/SolidStack.Core.Equality/Internal/EnumerableExtensions.cs:12-22 | null hashes to 0 and an empty sequence to the seed 17 |
| SequenceEquality.ElementsEqual | src/SolidStack.Core.Equality/Internal/EnumerableExtensions.cs:30 | true iff same length and the default comparer accepts every pair at the same position |
| SequenceEquality.SequenceEqual | src/SolidStack.Core.Equality/Internal/EnumerableExtensions.cs:24-30 | same reference is equal, null vs non-null is unequal, otherwise element-wise equality |
| SequenceEquality.FoldPointwise | src/SolidStack.Core.Equality/Internal/EnumerableExtensions.cs:19-20 | sequences whose items hash alike position by position fold to the same hash |
| SequenceEquality.FoldSnoc | src/SolidStack.Core.Equality/Internal/EnumerableExtensions.cs:19-20 | appending an item adds one `(h * 89) ^ itemHash` step, wrapping at 32 bits |
| SequenceEquality.SequenceEqualKeepsHash | src/SolidStack.Core.Equality/Internal/EnumerableExtensions.cs:12-30 | sequences SequenceEqual accepts have the same GetSequenceHashCode |
| Comparers.Comparer.Equals | src/SolidStack.Core.Equality/Internal/EqualityComparerFunc.cs:20-26 | the same reference is equal without calling the delegate; null is unequal to anything else; otherwise the delegate decides |
| Comparers.Comparer.GetHashCode | src/SolidStack.Core.Equality/Internal/EqualityComparerFunc.cs:29-32 | 0 for null, the delegate's hash otherwise |
| Comparers.WrapperKeepsConsistency | src/SolidStack.Core.Equality/Internal/EqualityComparerFunc.cs:20-32 | delegates that keep equal objects' hashes equal give a comparer that does so on every operand, null included |
| Comparers.WrapperKeepsSymmetry | src/SolidStack.Core.Equality/Internal/EqualityComparerFunc.cs:20-26 | a symmetric delegate gives a symmetric comparer |
| Memberwise.GetMembers | src/SolidStack.Core.Equality/Internal/MemberwiseEqualityComparerFactory.cs:37-46 | every field and property except compiler backing fields, and nothing else |
| Memberwise.GetMembersFieldsFirst | src/SolidStack.Core.Equality/Internal/MemberwiseEqualityComparerFactory.cs:41-45 | fields come first, then properties, each in reflection order |
| Memberwise.IsSequenceType | src/SolidStack.Core.Equality/Internal/MemberwiseEqualityComparerFactory.cs:48-49 | a sequence type is enumerable; a string never is one |
| Memberwise.StrategyOf | src/SolidStack.Core.Equality/Internal/MemberwiseEqualityComparerFactory.cs:62-73 | value types come first and are scalars even when enumerable; a reference type is a sequence iff it is a sequence type |
| Memberwise.MemberEquals | src/SolidStack.Core.Equality/Internal/MemberwiseEqualityComparerFactory.cs:57-74 | every member value, null included, is equal to itself; null and non-null never are; a value-typed member is compared with object.Equals |
| Memberwise.MemberHash | src/SolidStack.Core.Equality/Internal/MemberwiseEqualityComparerFactory.cs:103-122 | null hashes to 0; a value-typed member, enumerable or not, hashes with its own GetHashCode; a reference-typed sequence with the sequence hash |
| Memberwise.MemberEqualsKeepsHash | src/SolidStack.Core.Equality/Internal/MemberwiseEqualityComparerFactory.cs:57-122 | member values that compare equal hash alike |
| Memberwise.EqualsChain | src/SolidStack.Core.Equality/Internal/MemberwiseEqualityComparerFactory.cs:87-88 | the AND chain holds iff every selected member compares equal |
| Memberwise.Link | src/SolidStack.Core.Equality/Internal/MemberwiseEqualityComparerFactory.cs:51-55 | the next hash can be recovered from the link: xor with it gives the current value times 103, wrapping at 32 bits |
| Memberwise.HashChain | src/SolidStack.Core.Equality/Internal/MemberwiseEqualityComparerFactory.cs:132-135 | the chain is the left fold from the seed: the last member is linked last |
| Memberwise.HashChainPointwise | src/SolidStack.Core.Equality/Internal/MemberwiseEqualityComparerFactory.cs:133-135 | objects whose members hash alike position by position get the same chained hash |
| Memberwise.MakeEqualsMethod | src/SolidStack.Core.Equality/Internal/MemberwiseEqualityComparerFactory.cs:76-101 | the equality delegate never throws, separates different concrete types and accepts an object compared with itself |
| Memberwise.MakeGetHashCodeMethod | src/SolidStack.Core.Equality/Internal/MemberwiseEqualityComparerFactory.cs:124-139 | the hash delegate never throws; with no member it is the seed 29 |
| Memberwise.Create | src/SolidStack.Core.Equality/Internal/MemberwiseEqualityComparerFactory.cs:27-35 | the corrected comparer's delegates never throw |
| Memberwise.CreateSelecting | src/SolidStack.Core.Equality/Internal/MemberwiseEqualityComparerFactory.cs:22-25 | whatever the selector returns, the delegates never throw and an object equals itself |
| Memberwise.MemberwiseEquals | src/SolidStack.Core.Equality/Internal/MemberwiseEqualityComparerFactory.cs:76-101 | two objects are equal iff same reference, or same concrete type and every selected member equal |
| Memberwise.MemberwiseConsistent | src/SolidStack.Core.Equality/Internal/MemberwiseEqualityComparerFactory.cs:76-139 | objects called equal have the same hash, for every member selection |
| Memberwise.DifferingMemberSeparates | src/SolidStack.Core.Equality/Internal/MemberwiseEqualityComparerFactory.cs:57-60 | one selected member that differs makes the objects unequal |
| Memberwise.DifferentRuntimeTypesSeparate | src/SolidStack.Core.Equality/Internal/MemberwiseEqualityComparerFactory.cs:92-95 | objects of different concrete types are unequal |
| Memberwise.SameMemberValuesEqual | src/SolidStack.Core.Equality/Internal/MemberwiseEqualityComparerFactory.cs:57-74 | same type and same member values (null sequences included) are equal |
| Memberwise.UnselectedMembersIgnored | src/SolidStack.Core.Equality/Internal/MemberwiseEqualityComparerFactory.cs:22-25 | members outside the selection change neither equality nor hash |
| Memberwise.EmptySelection | src/SolidStack.Core.Equality/Internal/MemberwiseEqualityComparerFactory.cs:88 | with no member selected, objects of one type are equal and hash to the seed 29 |
| MemberwiseAsWritten.MemberEquals | src/SolidStack.Core.Equality/Internal/MemberwiseEqualityComparerFactory.cs:57-74 | a member link throws ArgumentNullException exactly on a null reference-typed sequence; otherwise it agrees with the corrected engine on distinct values |
| MemberwiseAsWritten.EqualsChain | src/SolidStack.Core.Equality/Internal/MemberwiseEqualityComparerFactory.cs:86-88 | the chain is true iff every link is true, and does not throw when no link does |
| MemberwiseAsWritten.MakeEqualsMethod | src/SolidStack.Core.Equality/Internal/MemberwiseEqualityComparerFactory.cs:76-101 | building fails with InvalidOperationException iff some member does not bind; the delegate runs the chain on x against itself whenever y is a T |
| MemberwiseAsWritten.MakeGetHashCodeMethod | src/SolidStack.Core.Equality/Internal/MemberwiseEqualityComparerFactory.cs:103-139 | building fails with InvalidOperationException iff some member is a value-typed sequence; otherwise the hash is the corrected engine's |
| MemberwiseAsWritten.Create | src/SolidStack.Core.Equality/Internal/MemberwiseEqualityComparerFactory.cs:27-35 | the comparer exists iff every member binds in both expressions; failures are InvalidOperationException |
| MemberwiseAsWritten.SequenceMemberBreaksConstruction | src/SolidStack.Core.Equality/Internal/MemberwiseEqualityComparerFactory.cs:147-148 | a reference-typed sequence member whose type does not enumerate itself makes construction throw InvalidOperationException |
| MemberwiseAsWritten.SelfEnumeratingNullMemberThrows | src/SolidStack.Core.Equality/Internal/MemberwiseEqualityComparerFactory.cs:147-148 | a member type that enumerates itself binds, and a null value of it makes Equals throw ArgumentNullException |
| MemberwiseAsWritten.ValueTypedSequenceMemberBreaksConstruction | src/SolidStack.Core.Equality/Internal/MemberwiseEqualityComparerFactory.cs:111-112 | a value-typed sequence member makes construction throw InvalidOperationException |
| MemberwiseAsWritten.SecondOperandIgnored | src/SolidStack.Core.Equality/Internal/MemberwiseEqualityComparerFactory.cs:83-84 | as written, the verdict for any instance y of T or a subtype is the chain run on x against itself |
| MemberwiseAsWritten.ScalarChainAcceptsItself | src/SolidStack.Core.Equality/Internal/MemberwiseEqualityComparerFactory.cs:86-88 | without reference-typed sequence members that chain is always true |
| MemberwiseAsWritten.DifferentMembersCalledEqual | src/SolidStack.Core.Equality/Internal/MemberwiseEqualityComparerFactory.cs:84 | two Dummy objects with FieldA 5 and 3 are called equal yet hash differently |
| MemberwiseAsWritten.DerivedInstanceCalledEqual | src/SolidStack.Core.Equality/Internal/MemberwiseEqualityComparerFactory.cs:92-95 | a DummyChild is called equal to a Dummy |
| MemberwiseAsWritten.SequenceDoubleCannotBeBuilt | src/SolidStack.Core.Equality/Internal/MemberwiseEqualityComparerFactory.cs:66-67 | no as-written comparer exists for a type with an IEnumerable&lt;char&gt; member; the corrected one calls equal-valued objects equal |
| Samples.ReferenceIsLawful | src/SolidStack.Core.Equality/Internal/MemberwiseEqualityComparerFactory.cs:141-145 | the reference-identity runtime used for the counterexamples satisfies the .NET contract |
| EqualityRecipes.For | src/SolidStack.Core.Equality/EqualityComparer.cs:243-250 | null delegates fail the "equals" or "getHashCode" guard; otherwise the wrapper around them |
| EqualityRecipes.ByElements | src/SolidStack.Core.Equality/EqualityComparer.cs:19-23 | the comparer built from SequenceEqual and GetSequenceHashCode |
| EqualityRecipes.ByElementsMeaning | src/SolidStack.Core.Equality/EqualityComparer.cs:19-23 | element-wise equality; equal sequences hash alike |
| EqualityRecipes.ByMembersSelected | src/SolidStack.Core.Equality/EqualityComparer.cs:112-119 | null selector fails the guard; otherwise member-wise over the selected members |
| EqualityRecipes.ByMembersWhere | src/SolidStack.Core.Equality/EqualityComparer.cs:97-103 | null predicate fails the guard; otherwise member-wise over the members it accepts |
| EqualityRecipes.ByMembers | src/SolidStack.Core.Equality/EqualityComparer.cs:86-88 | member-wise over all members |
| EqualityRecipes.ByFieldsSelected | src/SolidStack.Core.Equality/EqualityComparer.cs:54-61 | null selector fails the guard; otherwise member-wise over the selected fields |
| EqualityRecipes.ByFieldsWhere | src/SolidStack.Core.Equality/EqualityComparer.cs:40-46 | null predicate fails the guard; otherwise member-wise over the accepted fields |
| EqualityRecipes.ByFields | src/SolidStack.Core.Equality/EqualityComparer.cs:30-32 | member-wise over all fields |
| EqualityRecipes.ByPropertiesSelected | src/SolidStack.Core.Equality/EqualityComparer.cs:152-159 | null selector fails the guard; otherwise member-wise over the selected properties |
| EqualityRecipes.ByPropertiesWhere | src/SolidStack.Core.Equality/EqualityComparer.cs:137-143 | null predicate fails the guard; otherwise member-wise over the accepted properties |
| EqualityRecipes.ByProperties | src/SolidStack.Core.Equality/EqualityComparer.cs:126-128 | member-wise over all properties |
| EqualityRecipes.ByFieldsIgnoresProperties | src/SolidStack.Core.Equality/EqualityComparer.cs:54-61 | a fields recipe is blind to property values |
| EqualityRecipes.ByPropertiesIgnoresFields | src/SolidStack.Core.Equality/EqualityComparer.cs:152-159 | a properties recipe is blind to field values |
| EqualityRecipes.RequiresValidAttributeTypes | src/SolidStack.Core.Equality/EqualityComparer.cs:255-263 | passes iff release, or no marker is null and every marker strictly derives from Attribute |
| EqualityRecipes.HasAnyAttribute | src/SolidStack.Core.Equality/EqualityComparer.cs:252-253 | with valid markers, true iff the member carries one; a leading null marker throws ArgumentNullException |
| EqualityRecipes.AttributeIsDefined | src/SolidStack.Core.Equality/EqualityComparer.cs:253 | throws ArgumentNullException on a null type and ArgumentException on a non-attribute type; otherwise true iff the member carries it |
| EqualityRecipes.SelectTagged | src/SolidStack.Core.Equality/EqualityComparer.cs:178-184 | only invalid markers can fail; in debug they always fail with a guard violation |
| EqualityRecipes.SelectTaggedValid | src/SolidStack.Core.Equality/EqualityComparer.cs:167-234 | with valid markers, a tagged recipe compares exactly the members carrying a marker |
| EqualityRecipes.ByTaggedMembers | src/SolidStack.Core.Equality/EqualityComparer.cs:192-209 | with valid markers, the members carrying one; in debug invalid markers fail the guard |
| EqualityRecipes.ByTaggedFields | src/SolidStack.Core.Equality/EqualityComparer.cs:167-184 | with valid markers, the fields carrying one; in debug invalid markers fail the guard |
| EqualityRecipes.ByTaggedProperties | src/SolidStack.Core.Equality/EqualityComparer.cs:217-234 | with valid markers, the properties carrying one; in debug invalid markers fail the guard |
| EqualityRecipes.DefaultMarkersValid | src/SolidStack.Core.Equality/EqualityComparer.cs:167-169 | EqualityMemberAttribute is a valid marker |
| EqualityRecipes.NullMarkerInRelease | src/SolidStack.Core.Equality/EqualityComparer.cs:252-253 | in release a null marker throws ArgumentNullException only when there is a member to test |
| EqualityRecipes.KeyEquals | src/SolidStack.Core.Equality/EqualityComparer.cs:76 | throws NullReferenceException iff the first key is null; a null second key never matches; equal keys hash alike |
| EqualityRecipes.KeyHash | src/SolidStack.Core.Equality/EqualityComparer.cs:77 | throws iff the key is null; otherwise xor with the type's hash gives back the key's hash |
| EqualityRecipes.ByKeyAsWritten | src/SolidStack.Core.Equality/EqualityComparer.cs:70-78 | null key path fails the guard; otherwise distinct objects are equal exactly as their keys, and the hash is the type-and-key hash |
| EqualityRecipes.ByKey | src/SolidStack.Core.Equality/EqualityComparer.cs:70-78 | as written for the same runtime type; objects of different runtime types are unequal unless the first key is null, which throws |
| EqualityRecipes.ByKeyConsistent | src/SolidStack.Core.Equality/EqualityComparer.cs:75-77 | objects ByKey calls equal have the same hash |
| EqualityRecipes.ByKeyNullKeyThrows | src/SolidStack.Core.Equality/EqualityComparer.cs:76 | a null first key throws NullReferenceException |
| EqualityRecipes.ByKeyAsWrittenBreaksHashContract | src/SolidStack.Core.Equality/EqualityComparer.cs:76-77 | a Dummy and a DummyChild with the same key are equal as written but hash differently |
| Equatables.EqualsWith | src/SolidStack.Core.Equality/Equatable.cs:26-27 | the cached comparer's Equals on this and other; a null comparer throws |
| Equatables.GetHashCodeWith | src/SolidStack.Core.Equality/Equatable.cs:43-44 | the cached comparer's hash of this; a null comparer throws |
| Equatables.EquatableType.constructor | src/SolidStack.Core.Equality/Equatable.cs:20 | the cache starts empty |
| Equatables.EquatableType.EqualityComparer | src/SolidStack.Core.Equality/Equatable.cs:22-23 | returns the factory's comparer and calls the factory only while the cache is empty |
| Equatables.EquatableType.Equals | src/SolidStack.Core.Equality/Equatable.cs:26-27 | the comparer's verdict on this and other; the cache is filled |
| Equatables.EquatableType.EqualsObject | src/SolidStack.Core.Equality/Equatable.cs:39-40 | Equals after `as TSelf`, so a foreign object is unequal; the factory runs only when the cache is empty |
| Equatables.EquatableType.OperatorEquals | src/SolidStack.Core.Equality/Equatable.cs:29-33 | same reference is true, null left operand false, otherwise the comparer; cache and factory untouched on the short cuts, filled once otherwise |
| Equatables.EquatableType.OperatorNotEquals | src/SolidStack.Core.Equality/Equatable.cs:35-36 | the negation of == |
| Equatables.EquatableType.GetHashCode | src/SolidStack.Core.Equality/Equatable.cs:43-44 | the comparer's hash of this |
| Equatables.OperatorEqualsReflexive | src/SolidStack.Core.Equality/Equatable.cs:29-36 | x == x and not x != x, even with a null comparer |
| Equatables.NullLeftOperandUnequal | src/SolidStack.Core.Equality/Equatable.cs:33 | null == y is false for non-null y |
| Equatables.NotEqualsNegates | src/SolidStack.Core.Equality/Equatable.cs:35-36 | != fails iff == fails and otherwise returns its negation |
| Equatables.OperatorAgreesWithEquals | src/SolidStack.Core.Equality/Equatable.cs:26-33 | on TSelf operands, == agrees with Equals |
| Equatables.ForeignObjectUnequal | src/SolidStack.Core.Equality/Equatable.cs:39-40 | Equals(object) is false for an object that is not a TSelf |
| Equatables.EqualImpliesSameHash | src/SolidStack.Core.Equality/Equatable.cs:26-44 | with a consistent comparer, equal instances have equal hash codes |
| Equatables.MemberwiseKeepsHashContract | src/SolidStack.Core.Equality/Equatable.cs:53 | every member-wise comparer is consistent |
| Equatables.AccessTwice | src/SolidStack.Core.Equality/Equatable.cs:22-23 | Equals then GetHashCode call the factory once when it returns a comparer, twice when it returns null |
| Enumerators.Enumerator.constructor | src/SolidStack.Core.Flow/OptionAdapters.cs:132 | the cursor starts before the first element |
| Enumerators.Enumerator.MoveNext | src/SolidStack.Core.Flow/OptionAdapters.cs:134-139 | advances iff an element remains; otherwise rests past the end |
| FlowOptionAdapters.AsEnumerable | src/SolidStack.Core.Flow/OptionAdapters.cs:19-29 | Some v gives [v], None gives [], null fails the guard |
| FlowOptionAdapters.AsEnumerableInverse | src/SolidStack.Core.Flow/OptionAdapters.cs:19-29 | the option can be read back from its enumeration |
| FlowOptionAdapters.TryFirst | src/SolidStack.Core.Flow/OptionAdapters.cs:40-59 | null fails the guard; Some of the first element iff non-empty |
| FlowOptionAdapters.TryFirstWhere | src/SolidStack.Core.Flow/OptionAdapters.cs:72-83 | guards; Some of the first matching element iff one matches |
| FlowOptionAdapters.TryGetValue | src/SolidStack.Core.Flow/OptionAdapters.cs:98-106 | guards; Some of the stored value iff the key is present |
| FlowOptionAdapters.TrySingle | src/SolidStack.Core.Flow/OptionAdapters.cs:117-144 | guard; Some of the element iff there is exactly one |
| FlowOptionAdapters.TrySingleWhere | src/SolidStack.Core.Flow/OptionAdapters.cs:157-185 | guards; Some of the match iff exactly one element matches |
| FlowOptionAdapters.SomeValues | src/SolidStack.Core.Flow/OptionAdapters.cs:195-200 | fails iff some option is null |
| FlowOptionAdapters.SomeValuesKeepsSomes | src/SolidStack.Core.Flow/OptionAdapters.cs:195-200 | exactly the contents of the Somes, in order |
| FlowOptionAdapters.SomeValuesAppend | src/SolidStack.Core.Flow/OptionAdapters.cs:195-200 | distributes over concatenation |
| FlowOptionAdapters.WhereSome | src/SolidStack.Core.Flow/OptionAdapters.cs:195-200 | null sequence fails the guard, otherwise the Some contents |
| FlowOptionAdapters.WhereSomeSelect | src/SolidStack.Core.Flow/OptionAdapters.cs:213-220 | guards, then the Some contents of the selected options |
| OptionAdapters.TryFirst | src/SolidStack.Core.Options/OptionAdapters.cs:16-24 | null sequence throws; null predicate throws only on a non-empty sequence; Some of the first match |
| OptionAdapters.TryGetValue | src/SolidStack.Core.Options/OptionAdapters.cs:37-40 | null dictionary NullReference, null key ArgumentNull; Some iff present |
| OptionAdapters.TrySingle | src/SolidStack.Core.Options/OptionAdapters.cs:49-74 | Some of the element iff exactly one |
| OptionAdapters.When | src/SolidStack.Core.Options/OptionAdapters.cs:76-77 | Some of the value iff the predicate accepts it |
| OptionExtensions.Map | src/SolidStack.Core.Options/OptionExtensions.cs:7-8 | None (or null) stays None; Some v becomes Some(f(v)) |
| OptionExtensions.Reduce | src/SolidStack.Core.Options/OptionExtensions.cs:10-11 | the content, or the fallback |
| OptionExtensions.ReduceWith | src/SolidStack.Core.Options/OptionExtensions.cs:13-14 | the content, or the factory's value, the factory called only on None |
| OptionExtensions.When | src/SolidStack.Core.Options/OptionExtensions.cs:16-17 | keeps a Some iff the predicate accepts it |
| OptionExtensions.MapIdentity | src/SolidStack.Core.Options/OptionExtensions.cs:7-8 | mapping with the identity gives the option back |
| OptionExtensions.MapComposes | src/SolidStack.Core.Options/OptionExtensions.cs:7-8 | mapping twice is mapping by the composition |
| OptionExtensions.WhenComposes | src/SolidStack.Core.Options/OptionExtensions.cs:16-17 | two filters are one filter by the conjunction |
| OptionExtensions.ReduceAfterMap | src/SolidStack.Core.Options/OptionExtensions.cs:7-11 | reducing a mapped option maps the content or falls back |
| OptionExtensions.ReduceOverloadsAgree | src/SolidStack.Core.Options/OptionExtensions.cs:10-14 | the two Reduce overloads agree |
| DictionaryExtensions.AddOrUpdatePair | src/SolidStack.Core.Collections/DictionaryExtensions.cs:21-34 | overwrites or adds the entry; the count grows iff the key was absent; null key throws, dictionary untouched |
| DictionaryExtensions.AddOrUpdate | src/SolidStack.Core.Collections/DictionaryExtensions.cs:9-19 | the three guards in order, then the entry is set |
| DictionaryExtensions.AddOrUpdateThenTryGetValue | src/SolidStack.Core.Collections/DictionaryExtensions.cs:21-34 | after setting an entry, looking it up finds the new value |
| DictionaryExtensions.AddOrUpdateRange | src/SolidStack.Core.Collections/DictionaryExtensions.cs:36-44 | guards in source order; keys of second take its values, other entries unchanged |
| DictionaryExtensions.RemoveRange | src/SolidStack.Core.Collections/DictionaryExtensions.cs:46-54 | guards; removes the keys up to the first null one, which then throws |
| DictionaryExtensions.RemoveRangeOfPairs | src/SolidStack.Core.Collections/DictionaryExtensions.cs:56-64 | guards; removes the entries of second that match key and value |
| CollectionEnumerableExtensions.Indexed | src/SolidStack.Core.Collections/EnumerableExtensions.cs:19-27 | pairs each element with its position |
| CollectionEnumerableExtensions.ForEach | src/SolidStack.Core.Collections/EnumerableExtensions.cs:10-17 | guards; the action is called on every element, in order |
| CollectionEnumerableExtensions.ForEachIndexed | src/SolidStack.Core.Collections/EnumerableExtensions.cs:19-27 | guards; the action is called on every element with its index, in order |
| CollectionEnumerableExtensions.IndexedProjections | src/SolidStack.Core.Collections/EnumerableExtensions.cs:19-27 | the elements and the indices 0..n-1 are read back from the pairs |
| ChangeTracking.TrackedInstance.AcceptChanges | src/SolidStack.Persistence/DelegatingChangeTracker.cs:15-16 | an accepted instance is unchanged |
| ChangeTracking.ChangedIn | src/SolidStack.Persistence/DelegatingChangeTracker.cs:21-22 | fails with NullReferenceException iff some tracked item is null |
| ChangeTracking.ChangedInAppend | src/SolidStack.Persistence/DelegatingChangeTracker.cs:21-22 | distributes over concatenation |
| ChangeTracking.ChangedInMeaning | src/SolidStack.Persistence/DelegatingChangeTracker.cs:21-22 | exactly the changed instances, in order |
| ChangeTracking.NothingChanged | src/SolidStack.Persistence/DelegatingChangeTracker.cs:21-22 | no changed instance gives no result |
| ChangeTracking.FirstNull | src/SolidStack.Persistence/DelegatingChangeTracker.cs:15-16 | the index of the first null item, or the length |
| ChangeTracking.DelegatingChangeTracker.AcceptAllChanges | src/SolidStack.Persistence/DelegatingChangeTracker.cs:15-16 | accepts every instance up to the first null one, which throws; instances after it keep their state; on success nothing is detected afterwards |
| ChangeTracking.DelegatingChangeTracker.Clear | src/SolidStack.Persistence/DelegatingChangeTracker.cs:18-19 | the list is empty and nothing is detected |
| ChangeTracking.DelegatingChangeTracker.TrackRange | src/SolidStack.Persistence/DelegatingChangeTracker.cs:24-32 | null throws ArgumentNull; a null item fails the debug guard; otherwise appended, and detections extend |
| ChangeTrackerExtensions.Track | src/SolidStack.Persistence/ChangeTrackerExtensions.cs:8-16 | guards on the tracker and the instance, then tracks the one instance |
| ChangeTrackerExtensions.TrackRange | src/SolidStack.Persistence/ChangeTrackerExtensions.cs:18-27 | guards, then the tracker's TrackRange |
| FlowClauses.FirstMatched | src/SolidStack.Core.Flow/Internal/MappableContent.cs:13-17 | none iff no clause matched |
| FlowClauses.FirstMatchedIsEarliest | src/SolidStack.Core.Flow/Internal/MappableContent.cs:13-17 | the handler of the earliest matched clause |
| FlowClauses.FirstMatchedHeadsMatchedHandlers | src/SolidStack.Core.Flow/Internal/MappableContent.cs:13-17 | the first matched handler is the head of all matched handlers |
| MappableContents.MappableContent.Unmapped | src/SolidStack.Core.Flow/Internal/MappableContent.cs:9-18 | no mapping yet |
| MappableContents.MappableContent.Mapped | src/SolidStack.Core.Flow/Internal/MappableContent.cs:20-25 | the given mapping, fixed |
| MappableContents.MappableContent.Map | src/SolidStack.Core.Flow/Internal/MappableContent.cs:33-34 | the mapping applied to the content; InvalidOperationException without one |
| MappableContents.MappableContent.TryUseMapping | src/SolidStack.Core.Flow/Internal/MappableContent.cs:13-17 | the first mapping offered is kept, later ones ignored |
| MappableContents.MappableContent.MapTo | src/SolidStack.Core.Flow/Internal/MappableContent.cs:36-70 | null mapping fails the guard; try-use offers it, a specific type runs it on the content, skip ignores it |
| MappableContents.MappableContent.MapChain | src/SolidStack.Core.Flow/Internal/MappableContent.cs:13-17 | after a chain the mapping is the first matched one, unless one was already set |
| MappableContents.FirstMatchedSnoc | src/SolidStack.Core.Flow/Internal/MappableContent.cs:13-17 | a clause added at the end matters only if none before matched |
| MappableContents.MapFirstMatch | src/SolidStack.Core.Flow/Internal/MappableContent.cs:9-34 | mapping a fresh content after a chain applies the first matched mapping, or throws |
| MappableVoids.MappableVoid.Unmapped | src/SolidStack.Core.Flow/Internal/MappableVoid.cs:9-17 | no mapping yet |
| MappableVoids.MappableVoid.Mapped | src/SolidStack.Core.Flow/Internal/MappableVoid.cs:19-23 | the given mapping, fixed |
| MappableVoids.MappableVoid.Map | src/SolidStack.Core.Flow/Internal/MappableVoid.cs:29-30 | the mapping's value; InvalidOperationException without one |
| MappableVoids.MappableVoid.TryUseMapping | src/SolidStack.Core.Flow/Internal/MappableVoid.cs:12-16 | the first mapping offered is kept |
| MappableVoids.MappableVoid.MapTo | src/SolidStack.Core.Flow/Internal/MappableVoid.cs:32-48 | null mapping fails the guard; try-use offers it, skip ignores it |
| MappableVoids.MappableVoid.MapChain | src/SolidStack.Core.Flow/Internal/MappableVoid.cs:12-16 | after a chain the mapping is the first matched one, unless one was set |
| MappableVoids.MapAfterFirstMapping | src/SolidStack.Core.Flow/Internal/MappableVoid.cs:19-30 | a void built with a mapping keeps it through any chain |
| ActionableContents.CallsOn | src/SolidStack.Core.Flow/Internal/ActionableContent.cs:26-27 | each action paired with the content, in order |
| ActionableContents.ActionableContent.constructor | src/SolidStack.Core.Flow/Internal/ActionableContent.cs:11-20 | content and a copy of the actions |
| ActionableContents.ActionableContent.Execute | src/SolidStack.Core.Flow/Internal/ActionableContent.cs:26-27 | every action runs on the content, in order |
| ActionableContents.ActionableContent.Do | src/SolidStack.Core.Flow/Internal/FilteredActionableContent.cs:20-26 | a null action fails the guard; otherwise append adds the action, a specific type runs it now, skip ignores it |
| ActionableContents.ActionableContent.DoChain | src/SolidStack.Core.Flow/Internal/ActionableContent.cs:29-30 | the matched actions are appended in order |
| ActionableContents.DoAll | src/SolidStack.Core.Flow/Internal/ActionableContent.cs:11-30 | executing after a chain runs the matched actions on the content, in order |
| ActionableVoids.ActionableVoid.constructor | src/SolidStack.Core.Flow/Internal/ActionableVoid.cs:11-17 | a copy of the actions |
| ActionableVoids.ActionableVoid.Execute | src/SolidStack.Core.Flow/Internal/ActionableVoid.cs:21-22 | every action runs, in order |
| ActionableVoids.ActionableVoid.Do | src/SolidStack.Core.Flow/Internal/FilteredActionableVoid.cs:20-26 | a null action fails the guard; otherwise append adds the action, skip ignores it |
| ActionableVoids.ActionableVoid.DoChain | src/SolidStack.Core.Flow/Internal/ActionableVoid.cs:24-25 | the matched actions are appended in order |
| ActionableVoids.DoAll | src/SolidStack.Core.Flow/Internal/ActionableVoid.cs:11-25 | executing after a chain runs the matched actions, in order |

## Left out

- Reflection, `Expression` trees and their compilation are not modelled. A type is given as its fields and properties in reflection order, and each compiled delegate is given as the function it computes.
- Attribute inheritance and `AttributeUsage` are not modelled. A member's attributes are the set `Attribute.IsDefined` would find.
- The user's `Equals`, `GetHashCode` and `IChangeTracking` implementations are parameters. The properties assume the conventional .NET contract (`Runtime.Lawful`), and `AcceptChanges` is assumed to clear `IsChanged`.
- The `Option.Some` constructor's null guard, and null option contents, are not modelled. Option contents are plain values.
- `DetectChanges` and the LINQ pipelines are lazy in the source. The model evaluates them eagerly. A pipeline that throws is modelled as throwing when it is enumerated in full.
- Aliasing is not modelled. In particular, `AddOrUpdateRange` and `RemoveRange` with the same dictionary as source and second would throw in .NET while the dictionary is being enumerated.
- Dictionary values are compared with Dafny equality, not with `EqualityComparer<TValue>.Default`.
- FlowOptionAdapters.TrySingleWhere: the `checked` long counter overflows only beyond 2^63 elements. The model counts with an unbounded integer.
- The `Equatable` cache is one static per closed generic type; the model has one per `EquatableType`. The race between threads filling it is not modelled.
- Equatables.EquatableType: the `(TSelf) this` cast cannot fail for a well-formed subclass, so it is not modelled.
- Indexers and write-only properties are not modelled. They are members reflection returns that the member-wise engine could not read.
- The fluent Flow classes (`FilteredMappableContent`, `FilteredActionableContent` and the option/result routing types) are folded into `Clause`. A clause records whether its filter matched and the handler it offered. The typed casts `(TSpecificContent) Content` are assumed to succeed.
- Guards.RequiresAll, Guards.RequiresAny, Guards.EnsuresAll, Guards.EnsuresAny, Guards.RequiresNoNullIn: a null sequence or predicate makes `All`/`Any` throw ArgumentNullException in a debug build. The model's sequences and predicates are never null, so this path is not modelled.
- CollectionEnumerableExtensions.ForEachIndexed: the `int` index would overflow after 2^31 elements. The model counts with an unbounded integer.
- MemberwiseAsWritten.SelfEnumeratingNullMemberThrows: for a member type that enumerates itself, the items are compared with the default comparer of the member type, modelled as the virtual `Equals` of each item; a type that overrides `IEquatable<T>.Equals` differently is not modelled.
- Promises, `Try`, the repositories and the test-assertion helpers are not part of this model.

## Findings

| source | as written | input that shows it | evidently intended | confidence | as-written member | corrected member |
|---|---|---|---|---|---|---|
| src/SolidStack.Core.Equality/Internal/MemberwiseEqualityComparerFactory.cs:84 | the second operand expression converts `x`, so every member is compared with itself | two `Dummy` with `FieldA` 5 and 3 | compare the members of `x` with those of `y` | high, not executed | MemberwiseAsWritten.DifferentMembersCalledEqual | Memberwise.DifferingMemberSeparates |
| src/SolidStack.Core.Equality/Internal/MemberwiseEqualityComparerFactory.cs:92-95 | `TypeIs(y, T)` accepts instances of derived types | a `Dummy` and a `DummyChild` with equal `FieldA` | objects of different concrete types are unequal | medium, not executed | MemberwiseAsWritten.DerivedInstanceCalledEqual | Memberwise.DifferentRuntimeTypesSeparate |
| src/SolidStack.Core.Equality/Internal/MemberwiseEqualityComparerFactory.cs:147-148 | `SequenceEqual` is called with the member type as its generic argument, which no overload accepts unless the member type enumerates itself | a type with an `IEnumerable<char>` member | element-wise comparison of sequence members | high, not executed | MemberwiseAsWritten.SequenceDoubleCannotBeBuilt | Memberwise.MemberwiseEquals |
| src/SolidStack.Core.Equality/Internal/MemberwiseEqualityComparerFactory.cs:111-112 | a value-typed sequence member is passed unboxed to `GetSequenceHashCode(IEnumerable)`, whose lookup fails with InvalidOperationException | a struct member that implements `IEnumerable` | the member is boxed, compared with object.Equals (as the equality already does) and hashed with its own GetHashCode | medium, not executed | MemberwiseAsWritten.ValueTypedSequenceMemberBreaksConstruction | Memberwise.MemberwiseConsistent |
| src/SolidStack.Core.Equality/EqualityComparer.cs:76-77 | equality compares keys only, while the hash also mixes in the runtime type | a `Dummy` and a `DummyChild` with the same key | equal objects hash alike (include the type in the equality) | medium, not executed | EqualityRecipes.ByKeyAsWrittenBreaksHashContract | EqualityRecipes.ByKeyConsistent |
