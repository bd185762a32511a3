// SolidStack.Core.Flow.OptionAdapters: guarded conversions between sequences,
// dictionaries and IOption<T>. A null argument fails the always-on
// `RequiresNonNull` guard before anything else happens.
module FlowOptionAdapters {
  import opened Base
  import Linq
  import Guards
  import opened Enumerators

  /** `AsEnumerable()`: no element for None, the one value for Some. */
  function AsEnumerable<T>(option: Nullable<Option<T>>): (r: Result<seq<T>>)
    ensures option.Null? ==> r == Err(GuardClause(Guards.NullMessage("option")))
    ensures option.NonNull? ==> r.Ok? && |r.value| <= 1
    ensures option.NonNull? ==> (r.value != [] <==> option.value.Some?)
    ensures option.NonNull? && option.value.Some? ==> r.value[0] == option.value.value
  {
    var guard := Guards.RequiresNonNull(option, "option");
    if guard.Fail? then Err(guard.failure)
    else match option.value
      case Some(item) => Ok([item])
      case None => Ok([])
  }

  /** The sequence `AsEnumerable` returns gives the option back. */
  lemma AsEnumerableInverse<T>(option: Option<T>)
    ensures var items := AsEnumerable(NonNull(option)).value;
      (if items == [] then None else Some(items[0])) == option
  {
  }

  /** `TryFirst(sequence)`: an IList is indexed, anything else enumerated;
    * both yield the first element, or None when there is none. */
  method TryFirst<T>(sequence: Nullable<seq<T>>, isList: bool) returns (r: Result<Option<T>>)
    ensures sequence.Null? ==> r == Err(GuardClause(Guards.NullMessage("sequence")))
    ensures sequence.NonNull? ==> r.Ok? && (r.value.Some? <==> |sequence.value| > 0)
    ensures sequence.NonNull? && r.value.Some? ==> r.value.value == sequence.value[0]
  {
    var guard := Guards.RequiresNonNull(sequence, "sequence");
    if guard.Fail? {
      return Err(guard.failure);
    }
    var items := sequence.value;
    if isList {
      if |items| > 0 {
        return Ok(Some(items[0]));
      }
    } else {
      var enumerator := new Enumerator(items);
      var moved := enumerator.MoveNext();
      if moved {
        return Ok(Some(enumerator.Current()));
      }
    }
    return Ok(None);
  }

  /** `TryFirst(sequence, condition)`: the earliest element satisfying the
    * condition, or None when no element does. */
  method TryFirstWhere<T>(sequence: Nullable<seq<T>>, condition: Nullable<T -> bool>) returns (r: Result<Option<T>>)
    ensures sequence.Null? ==> r == Err(GuardClause(Guards.NullMessage("sequence")))
    ensures sequence.NonNull? && condition.Null? ==> r == Err(GuardClause(Guards.NullMessage("predicate")))
    ensures sequence.NonNull? && condition.NonNull? ==> r.Ok?
    ensures sequence.NonNull? && condition.NonNull? ==>
      (r.value.None? <==> forall i :: 0 <= i < |sequence.value| ==> !condition.value(sequence.value[i]))
    ensures sequence.NonNull? && condition.NonNull? && r.value.Some? ==>
      exists i :: 0 <= i < |sequence.value| && sequence.value[i] == r.value.value && condition.value(sequence.value[i]) &&
        forall j :: 0 <= j < i ==> !condition.value(sequence.value[j])
  {
    var sequenceGuard := Guards.RequiresNonNull(sequence, "sequence");
    if sequenceGuard.Fail? {
      return Err(sequenceGuard.failure);
    }
    var predicateGuard := Guards.RequiresNonNull(condition, "predicate");
    if predicateGuard.Fail? {
      return Err(predicateGuard.failure);
    }
    var items, p := sequence.value, condition.value;
    var i := 0;
    while i < |items|
      invariant 0 <= i <= |items|
      invariant forall j :: 0 <= j < i ==> !p(items[j])
    {
      if p(items[i]) {
        return Ok(Some(items[i]));
      }
      i := i + 1;
    }
    return Ok(None);
  }

  /** `TryGetValue(dictionary, key)`: Some of the stored value exactly when the key is present. */
  function TryGetValue<K, V>(dictionary: Nullable<map<K, V>>, key: Nullable<K>): (r: Result<Option<V>>)
    ensures dictionary.Null? ==> r == Err(GuardClause(Guards.NullMessage("dictionary")))
    ensures dictionary.NonNull? && key.Null? ==> r == Err(GuardClause(Guards.NullMessage("key")))
    ensures dictionary.NonNull? && key.NonNull? ==> r.Ok? && (r.value.Some? <==> key.value in dictionary.value)
    ensures dictionary.NonNull? && key.NonNull? && r.value.Some? ==> r.value.value == dictionary.value[key.value]
  {
    var dictionaryGuard := Guards.RequiresNonNull(dictionary, "dictionary");
    if dictionaryGuard.Fail? then Err(dictionaryGuard.failure)
    else
      var keyGuard := Guards.RequiresNonNull(key, "key");
      if keyGuard.Fail? then Err(keyGuard.failure)
      else if key.value in dictionary.value then Ok(Some(dictionary.value[key.value]))
      else Ok(None)
  }

  /** `TrySingle(sequence)`: the only element, or None for no element or
    * several; the IList branch and the enumerator branch agree. */
  method TrySingle<T>(sequence: Nullable<seq<T>>, isList: bool) returns (r: Result<Option<T>>)
    ensures sequence.Null? ==> r == Err(GuardClause(Guards.NullMessage("sequence")))
    ensures sequence.NonNull? ==> r.Ok? && (r.value.Some? <==> |sequence.value| == 1)
    ensures sequence.NonNull? && r.value.Some? ==> r.value.value == sequence.value[0]
  {
    var guard := Guards.RequiresNonNull(sequence, "sequence");
    if guard.Fail? {
      return Err(guard.failure);
    }
    var items := sequence.value;
    if isList {
      if |items| == 0 {
        return Ok(None);
      } else if |items| == 1 {
        return Ok(Some(items[0]));
      } else {
        return Ok(None);
      }
    }
    var enumerator := new Enumerator(items);
    var moved := enumerator.MoveNext();
    if !moved {
      return Ok(None);
    }
    var result := enumerator.Current();
    moved := enumerator.MoveNext();
    if !moved {
      return Ok(Some(result));
    }
    return Ok(None);
  }

  /** `TrySingle(sequence, condition)`: scans the whole sequence counting the
    * matches; Some exactly when one element matches. */
  method TrySingleWhere<T>(sequence: Nullable<seq<T>>, condition: Nullable<T -> bool>) returns (r: Result<Option<T>>)
    ensures sequence.Null? ==> r == Err(GuardClause(Guards.NullMessage("sequence")))
    ensures sequence.NonNull? && condition.Null? ==> r == Err(GuardClause(Guards.NullMessage("predicate")))
    ensures sequence.NonNull? && condition.NonNull? ==> r.Ok?
    ensures sequence.NonNull? && condition.NonNull? ==>
      (r.value.Some? <==> |Linq.Where(sequence.value, condition.value)| == 1)
    ensures sequence.NonNull? && condition.NonNull? && r.value.Some? ==>
      r.value.value == Linq.Where(sequence.value, condition.value)[0]
  {
    var sequenceGuard := Guards.RequiresNonNull(sequence, "sequence");
    if sequenceGuard.Fail? {
      return Err(sequenceGuard.failure);
    }
    var predicateGuard := Guards.RequiresNonNull(condition, "predicate");
    if predicateGuard.Fail? {
      return Err(predicateGuard.failure);
    }
    var items, p := sequence.value, condition.value;
    var result: Option<T> := None;
    var count := 0;
    var i := 0;
    while i < |items|
      invariant 0 <= i <= |items|
      invariant count == |Linq.Where(items[..i], p)|
      invariant result.None? <==> count == 0
      invariant count > 0 ==> result.value == Linq.Where(items[..i], p)[count - 1]
    {
      assert items[..i + 1] == items[..i] + [items[i]];
      Linq.WhereAppend(items[..i], [items[i]], p);
      if p(items[i]) {
        result := Some(items[i]);
        count := count + 1;
      }
      i := i + 1;
    }
    assert items[..i] == items;
    if count == 0 {
      return Ok(None);
    } else if count == 1 {
      return Ok(result);
    } else {
      return Ok(None);
    }
  }

  predicate IsSome<T>(option: Nullable<Option<T>>)
  {
    option.NonNull? && option.value.Some?
  }

  /** `SelectMany(option => option.AsEnumerable()).ToList()`: the values of
    * the Some options, in order; the first null option fails AsEnumerable's guard. */
  function SomeValues<T>(options: seq<Nullable<Option<T>>>): (r: Result<seq<T>>)
    ensures r.Ok? <==> forall i :: 0 <= i < |options| ==> options[i].NonNull?
    ensures r.Err? ==> r.failure == GuardClause(Guards.NullMessage("option"))
  {
    if options == [] then Ok([])
    else
      var head :- AsEnumerable(options[0]);
      var tail :- SomeValues(options[1..]);
      assert forall i :: 0 <= i < |options[1..]| ==> options[1..][i] == options[i + 1];
      Ok(head + tail)
  }

  /** Without null options, `SomeValues` is the Some options' values, in order. */
  lemma {:induction false} SomeValuesKeepsSomes<T>(options: seq<Nullable<Option<T>>>)
    requires forall i :: 0 <= i < |options| ==> options[i].NonNull?
    ensures |SomeValues(options).value| == |Linq.Where(options, IsSome)|
    ensures forall k :: 0 <= k < |SomeValues(options).value| ==>
      Linq.Where(options, IsSome)[k] == NonNull(Some(SomeValues(options).value[k]))
  {
    if options != [] {
      var tail := options[1..];
      assert forall i :: 0 <= i < |tail| ==> tail[i] == options[i + 1];
      SomeValuesKeepsSomes(tail);
      assert options == [options[0]] + tail;
      Linq.WhereAppend([options[0]], tail, IsSome);
      var head := AsEnumerable(options[0]).value;
      assert SomeValues(options).value == head + SomeValues(tail).value;
      assert Linq.Where([options[0]], IsSome) == if IsSome(options[0]) then [options[0]] else [];
    }
  }

  /** `WhereSome(sequence)`. */
  function WhereSome<T>(sequence: Nullable<seq<Nullable<Option<T>>>>): (r: Result<seq<T>>)
    ensures sequence.Null? ==> r == Err(GuardClause(Guards.NullMessage("sequence")))
    ensures sequence.NonNull? ==> r == SomeValues(sequence.value)
  {
    var guard := Guards.RequiresNonNull(sequence, "sequence");
    if guard.Fail? then Err(guard.failure) else SomeValues(sequence.value)
  }

  /** `WhereSome(sequence, selector)`: `Select` followed by `WhereSome`. */
  function WhereSomeSelect<T, U>(sequence: Nullable<seq<T>>, selector: Nullable<T -> Nullable<Option<U>>>): (r: Result<seq<U>>)
    ensures sequence.Null? ==> r == Err(GuardClause(Guards.NullMessage("sequence")))
    ensures sequence.NonNull? && selector.Null? ==> r == Err(GuardClause(Guards.NullMessage("predicate")))
    ensures sequence.NonNull? && selector.NonNull? ==> r == SomeValues(Linq.Select(sequence.value, selector.value))
  {
    var sequenceGuard := Guards.RequiresNonNull(sequence, "sequence");
    if sequenceGuard.Fail? then Err(sequenceGuard.failure)
    else
      var selectorGuard := Guards.RequiresNonNull(selector, "predicate");
      if selectorGuard.Fail? then Err(selectorGuard.failure)
      else WhereSome(NonNull(Linq.Select(sequence.value, selector.value)))
  }

  /** Keeping the Some values of a concatenation keeps each part's. */
  lemma {:induction false} SomeValuesAppend<T>(xs: seq<Nullable<Option<T>>>, ys: seq<Nullable<Option<T>>>)
    requires forall i :: 0 <= i < |xs| ==> xs[i].NonNull?
    requires forall i :: 0 <= i < |ys| ==> ys[i].NonNull?
    ensures SomeValues(xs + ys) == Ok(SomeValues(xs).value + SomeValues(ys).value)
  {
    if xs == [] {
      assert xs + ys == ys;
      var rest := SomeValues(ys);
      assert rest.Ok? && rest == Ok(rest.value);
      assert SomeValues(xs).value + rest.value == rest.value;
    } else {
      assert (xs + ys)[0] == xs[0];
      assert (xs + ys)[1..] == xs[1..] + ys;
      assert forall i :: 0 <= i < |xs[1..]| ==> xs[1..][i] == xs[i + 1];
      SomeValuesAppend(xs[1..], ys);
      var head := AsEnumerable(xs[0]).value;
      assert forall i :: 0 <= i < |xs[1..] + ys| ==> (xs[1..] + ys)[i].NonNull?;
      assert SomeValues(xs + ys) == Ok(head + SomeValues(xs[1..] + ys).value);
      assert SomeValues(xs) == Ok(head + SomeValues(xs[1..]).value);
      assert head + (SomeValues(xs[1..]).value + SomeValues(ys).value)
          == (head + SomeValues(xs[1..]).value) + SomeValues(ys).value;
    }
  }
}
