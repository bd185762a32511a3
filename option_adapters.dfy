// SolidStack.Core.Options.OptionAdapters: the unguarded adapters of the
// Option<T> of SolidStack.Core.Options, whose Some<T> is a class deriving
// from it. A null argument surfaces as the exception the
// framework call throws on it.
module OptionAdapters {
  import opened Base
  import Linq
  import opened Enumerators

  /** `TryFirst(sequence, predicate)`: a null sequence throws when the
    * `foreach` asks for its enumerator; a null predicate throws only when
    * there is an element to test. */
  method TryFirst<T>(sequence: Nullable<seq<T>>, condition: Nullable<T -> bool>) returns (r: Result<Option<T>>)
    ensures sequence.Null? ==> r == Err(NullReference)
    ensures sequence.NonNull? && condition.Null? ==> r == (if sequence.value == [] then Ok(None) else Err(NullReference))
    ensures sequence.NonNull? && condition.NonNull? ==> r.Ok?
    ensures sequence.NonNull? && condition.NonNull? ==>
      (r.value.None? <==> forall i :: 0 <= i < |sequence.value| ==> !condition.value(sequence.value[i]))
    ensures sequence.NonNull? && condition.NonNull? && r.value.Some? ==>
      exists i :: 0 <= i < |sequence.value| && sequence.value[i] == r.value.value && condition.value(sequence.value[i]) &&
        forall j :: 0 <= j < i ==> !condition.value(sequence.value[j])
  {
    if sequence.Null? {
      return Err(NullReference);
    }
    var items := sequence.value;
    var i := 0;
    while i < |items|
      invariant 0 <= i <= |items|
      invariant condition.NonNull? ==> forall j :: 0 <= j < i ==> !condition.value(items[j])
      invariant condition.Null? ==> i == 0
    {
      if condition.Null? {
        return Err(NullReference);
      }
      if condition.value(items[i]) {
        return Ok(Some(items[i]));
      }
      i := i + 1;
    }
    return Ok(None);
  }

  /** `TryGetValue(dictionary, key)`: `IDictionary.TryGetValue` on a null
    * dictionary throws NullReferenceException, and on a null key
    * ArgumentNullException. */
  function TryGetValue<K, V>(dictionary: Nullable<map<K, V>>, key: Nullable<K>): (r: Result<Option<V>>)
    ensures dictionary.Null? ==> r == Err(NullReference)
    ensures dictionary.NonNull? && key.Null? ==> r == Err(ArgumentNull)
    ensures dictionary.NonNull? && key.NonNull? ==> r.Ok? && (r.value.Some? <==> key.value in dictionary.value)
    ensures dictionary.NonNull? && key.NonNull? && r.value.Some? ==> r.value.value == dictionary.value[key.value]
  {
    if dictionary.Null? then Err(NullReference)
    else if key.Null? then Err(ArgumentNull)
    else if key.value in dictionary.value then Ok(Some(dictionary.value[key.value]))
    else Ok(None)
  }

  /** `TrySingle(sequence)`: the only element, or None for no element or
    * several; the IList branch and the enumerator branch agree. */
  method TrySingle<T>(sequence: Nullable<seq<T>>, isList: bool) returns (r: Result<Option<T>>)
    ensures sequence.Null? ==> r == Err(NullReference)
    ensures sequence.NonNull? ==> r.Ok? && (r.value.Some? <==> |sequence.value| == 1)
    ensures sequence.NonNull? && r.value.Some? ==> r.value.value == sequence.value[0]
  {
    if sequence.Null? {
      return Err(NullReference);
    }
    var items := sequence.value;
    if isList {
      if |items| == 0 {
        return Ok(None);
      } else if |items| == 1 {
        return Ok(Some(items[0]));
      } else {
        return Ok(None);
      }
    }
    var enumerator := new Enumerator(items);
    var moved := enumerator.MoveNext();
    if !moved {
      return Ok(None);
    }
    var result := enumerator.Current();
    moved := enumerator.MoveNext();
    if !moved {
      return Ok(Some(result));
    }
    return Ok(None);
  }

  /** `value.When(predicate)`: Some(value) exactly when the predicate accepts it. */
  function When<T>(value: T, condition: Nullable<T -> bool>): (r: Result<Option<T>>)
    ensures condition.Null? ==> r == Err(NullReference)
    ensures condition.NonNull? ==> r.Ok? && (r.value.Some? <==> condition.value(value))
    ensures condition.NonNull? && r.value.Some? ==> r.value.value == value
  {
    if condition.Null? then Err(NullReference)
    else if condition.value(value) then Ok(Some(value))
    else Ok(None)
  }
}
