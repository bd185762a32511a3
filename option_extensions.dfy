// SolidStack.Core.Options.OptionExtensions: Map, Reduce and When over the
// Option<T> of SolidStack.Core.Options. Each tests `option is Some<T>`;
// a null option is not a Some and takes the None branch.
module OptionExtensions {
  import opened Base

  /** `option is Some<T> some`. */
  predicate IsSome<T>(option: Nullable<Option<T>>)
  {
    option.NonNull? && option.value.Some?
  }

  /** `Map(option, map)`: None stays None without calling `map`; Some v
    * becomes Some(map(v)). */
  function Map<T, U>(option: Nullable<Option<T>>, mapping: Nullable<T -> U>): (r: Result<Option<U>>)
    ensures !IsSome(option) ==> r == Ok(None)
    ensures IsSome(option) && mapping.Null? ==> r == Err(NullReference)
    ensures IsSome(option) && mapping.NonNull? ==> r == Ok(Some(mapping.value(option.value.value)))
  {
    if !IsSome(option) then Ok(None)
    else if mapping.Null? then Err(NullReference)
    else Ok(Some(mapping.value(option.value.value)))
  }

  /** `Reduce(option, whenNone)`: the content, or the fallback. */
  function Reduce<T>(option: Nullable<Option<T>>, whenNone: T): (r: T)
    ensures IsSome(option) ==> r == option.value.value
    ensures !IsSome(option) ==> r == whenNone
  {
    if IsSome(option) then option.value.value else whenNone
  }

  /** `Reduce(option, whenNone)` with a fallback factory, called only for None. */
  function ReduceWith<T>(option: Nullable<Option<T>>, whenNone: Nullable<() -> T>): (r: Result<T>)
    ensures IsSome(option) ==> r == Ok(option.value.value)
    ensures !IsSome(option) && whenNone.Null? ==> r == Err(NullReference)
    ensures !IsSome(option) && whenNone.NonNull? ==> r == Ok(whenNone.value())
  {
    if IsSome(option) then Ok(option.value.value)
    else if whenNone.Null? then Err(NullReference)
    else Ok(whenNone.value())
  }

  /** `When(option, predicate)`: keeps a Some whose content the predicate
    * accepts; the predicate is not called on None. */
  function When<T>(option: Nullable<Option<T>>, condition: Nullable<T -> bool>): (r: Result<Option<T>>)
    ensures !IsSome(option) ==> r == Ok(None)
    ensures IsSome(option) && condition.Null? ==> r == Err(NullReference)
    ensures IsSome(option) && condition.NonNull? ==>
      r.Ok? && (r.value.Some? <==> condition.value(option.value.value))
    ensures IsSome(option) && condition.NonNull? && r.value.Some? ==> r.value.value == option.value.value
  {
    if !IsSome(option) then Ok(None)
    else if condition.Null? then Err(NullReference)
    else if condition.value(option.value.value) then Ok(option.value)
    else Ok(None)
  }

  /** Mapping with the identity gives the option back (a null option as None). */
  lemma MapIdentity<T>(option: Nullable<Option<T>>)
    ensures Map(option, NonNull((x: T) => x)) == Ok(if IsSome(option) then option.value else None)
  {
  }

  /** Mapping twice is mapping once with the composition. */
  lemma MapComposes<T, U, W>(option: Nullable<Option<T>>, f: T -> U, g: U -> W)
    ensures var once := Map(option, NonNull(f)).value;
      Map(NonNull(once), NonNull(g)) == Map(option, NonNull((x: T) => g(f(x))))
  {
  }

  /** Two filters in a row are one filter with both conditions. */
  lemma WhenComposes<T>(option: Nullable<Option<T>>, p: T -> bool, q: T -> bool)
    ensures var once := When(option, NonNull(p)).value;
      When(NonNull(once), NonNull(q)) == When(option, NonNull((x: T) => p(x) && q(x)))
  {
  }

  /** Reducing a mapped option applies the map to the content, or falls back. */
  lemma ReduceAfterMap<T, U>(option: Nullable<Option<T>>, f: T -> U, whenNone: U)
    ensures Reduce(NonNull(Map(option, NonNull(f)).value), whenNone) ==
      (if IsSome(option) then f(option.value.value) else whenNone)
  {
  }

  /** The two Reduce overloads agree when the factory returns the fallback. */
  lemma ReduceOverloadsAgree<T>(option: Nullable<Option<T>>, whenNone: T)
    ensures ReduceWith(option, NonNull(() => whenNone)) == Ok(Reduce(option, whenNone))
  {
  }
}
