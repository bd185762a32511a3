// SolidStack.Core.Guards.Guard: precondition and postcondition checks that
// throw a GuardClauseException when their condition does not hold.
module Guards {
  import opened Base
  import Linq

  /** Whether the DEBUG symbol is defined where a guard is called. Every guard
    * marked [Conditional("DEBUG")] is compiled out of release builds, so it
    * always completes there. `Requires` and `RequiresNonNull` are always on
    * and take no build. */
  datatype Build = Debug | Release

  function NullMessage(variableName: string): string
  {
    "Receiving null " + variableName + "."
  }

  function NullItemsMessage(variableName: string): string
  {
    "Receiving " + variableName + " containing one or more null items."
  }

  /** The private `Assert` every guard ends in. */
  function Assert(holds: bool, message: string): (o: Outcome)
    ensures o.Pass? <==> holds
    ensures o.Fail? ==> o.failure == GuardClause(message)
  {
    if holds then Pass else Fail(GuardClause(message))
  }

  /** `Requires`: always checked. */
  function Requires(holds: bool, message: string): (o: Outcome)
    ensures o.Pass? <==> holds
    ensures o.Fail? ==> o.failure == GuardClause(message)
  {
    Assert(holds, message)
  }

  /** `RequiresNonNull`: always checked; the message names the variable. */
  function RequiresNonNull<T>(value: Nullable<T>, variableName: string): (o: Outcome)
    ensures o.Pass? <==> value.NonNull?
    ensures o.Fail? ==> o.failure == GuardClause("Receiving null " + variableName + ".")
  {
    Requires(value.NonNull?, NullMessage(variableName))
  }

  /** `RequiresAll`: in debug builds, fails unless every element satisfies the predicate. */
  function RequiresAll<T>(build: Build, sequence: seq<T>, condition: T -> bool, message: string): (o: Outcome)
    ensures o.Pass? <==> build == Release || forall i :: 0 <= i < |sequence| ==> condition(sequence[i])
    ensures o.Fail? ==> o.failure == GuardClause(message)
  {
    if build == Release then Pass else Assert(Linq.All(sequence, condition), message)
  }

  /** `RequiresAny`: in debug builds, fails unless some element satisfies the
    * predicate, so an empty sequence fails. */
  function RequiresAny<T>(build: Build, sequence: seq<T>, condition: T -> bool, message: string): (o: Outcome)
    ensures o.Pass? <==> build == Release || exists i :: 0 <= i < |sequence| && condition(sequence[i])
    ensures o.Fail? ==> o.failure == GuardClause(message)
    ensures build == Debug && sequence == [] ==> o.Fail?
  {
    if build == Release then Pass else Requires(Linq.Any(sequence, condition), message)
  }

  /** `RequiresNoNullIn`: in debug builds, fails when some element is null. */
  function RequiresNoNullIn<T>(build: Build, sequence: seq<Nullable<T>>, variableName: string): (o: Outcome)
    ensures o.Pass? <==> build == Release || forall i :: 0 <= i < |sequence| ==> sequence[i].NonNull?
    ensures o.Fail? ==> o.failure == GuardClause("Receiving " + variableName + " containing one or more null items.")
  {
    RequiresAll(build, sequence, (item: Nullable<T>) => item.NonNull?, NullItemsMessage(variableName))
  }

  /** `Ensures`: checked in debug builds only. */
  function Ensures(build: Build, holds: bool, message: string): (o: Outcome)
    ensures o.Pass? <==> build == Release || holds
    ensures o.Fail? ==> o.failure == GuardClause(message)
  {
    if build == Release then Pass else Assert(holds, message)
  }

  /** `EnsuresAll`: in debug builds, fails unless every element satisfies the predicate. */
  function EnsuresAll<T>(build: Build, sequence: seq<T>, condition: T -> bool, message: string): (o: Outcome)
    ensures o.Pass? <==> build == Release || forall i :: 0 <= i < |sequence| ==> condition(sequence[i])
    ensures o.Fail? ==> o.failure == GuardClause(message)
  {
    if build == Release then Pass else Assert(Linq.All(sequence, condition), message)
  }

  /** `EnsuresAny`: in debug builds, fails unless some element satisfies the predicate. */
  function EnsuresAny<T>(build: Build, sequence: seq<T>, condition: T -> bool, message: string): (o: Outcome)
    ensures o.Pass? <==> build == Release || exists i :: 0 <= i < |sequence| && condition(sequence[i])
    ensures o.Fail? ==> o.failure == GuardClause(message)
  {
    if build == Release then Pass else Ensures(build, Linq.Any(sequence, condition), message)
  }

  /** `EnsuresNonNull`: in debug builds, fails on null with the caller's message. */
  function EnsuresNonNull<T>(build: Build, value: Nullable<T>, message: string): (o: Outcome)
    ensures o.Pass? <==> build == Release || value.NonNull?
    ensures o.Fail? ==> o.failure == GuardClause(message)
  {
    Ensures(build, value.NonNull?, message)
  }

  /** `EnsuresNoNullIn`: in debug builds, fails when some element is null. */
  function EnsuresNoNullIn<T>(build: Build, sequence: seq<Nullable<T>>, message: string): (o: Outcome)
    ensures o.Pass? <==> build == Release || forall i :: 0 <= i < |sequence| ==> sequence[i].NonNull?
    ensures o.Fail? ==> o.failure == GuardClause(message)
  {
    EnsuresAll(build, sequence, (item: Nullable<T>) => item.NonNull?, message)
  }

  /** On a sequence without null items the debug-only guard passes in both
    * builds, so compiling it out changes nothing for well-behaved callers. */
  lemma DebugOnlyGuardsAgreeWhenConditionHolds<T>(sequence: seq<Nullable<T>>, variableName: string)
    requires forall i :: 0 <= i < |sequence| ==> sequence[i].NonNull?
    ensures RequiresNoNullIn(Debug, sequence, variableName) == RequiresNoNullIn(Release, sequence, variableName) == Pass
  {
  }
}
