// SolidStack.Core.Collections.DictionaryExtensions: in-place insert-or-update
// and bulk removal on an IDictionary<TKey, TValue>.
module DictionaryExtensions {
  import opened Base
  import Guards
  import FlowOptionAdapters

  /** An IDictionary<TKey, TValue>: a mutable map from keys to values. */
  class Dictionary<K(==), V> {
    var items: map<K, V>

    constructor(items: map<K, V>)
      ensures this.items == items
    {
      this.items := items;
    }
  }

  /** The non-null keys of a key list. */
  function KeySet<K>(keys: seq<Nullable<K>>): set<K>
  {
    set i | 0 <= i < |keys| && keys[i].NonNull? :: keys[i].value
  }

  /** The position of the first null key, or |keys| when there is none. */
  function FirstNull<K>(keys: seq<Nullable<K>>): (n: nat)
    ensures n <= |keys|
    ensures forall i :: 0 <= i < n ==> keys[i].NonNull?
    ensures n < |keys| ==> keys[n].Null?
  {
    if keys == [] then 0
    else if keys[0].Null? then 0
    else
      assert forall i :: 0 <= i < |keys[1..]| ==> keys[1..][i] == keys[i + 1];
      1 + FirstNull(keys[1..])
  }

  /** `AddOrUpdate(source, pair)`: overwrite when the key is there, add
    * otherwise. A null key makes `ContainsKey` throw. */
  method AddOrUpdatePair<K, V>(source: Dictionary?<K, V>, key: Nullable<K>, value: V) returns (o: Outcome)
    modifies source
    ensures source == null ==> o == Fail(GuardClause(Guards.NullMessage("source")))
    ensures source != null && key.Null? ==> o == Fail(ArgumentNull)
    ensures o.Fail? && source != null ==> source.items == old(source.items)
    ensures source != null && key.NonNull? ==> o.Pass? && source.items == old(source.items)[key.value := value]
    ensures source != null && key.NonNull? ==>
      |source.items| == |old(source.items)| + (if key.value in old(source.items) then 0 else 1)
  {
    var guard := Guards.RequiresNonNull(if source == null then Null else NonNull(source), "source");
    if guard.Fail? {
      return guard;
    }
    if key.Null? {
      return Fail(ArgumentNull);
    }
    if key.value in source.items {
      assert source.items[key.value := value].Keys == source.items.Keys;
      source.items := source.items[key.value := value];
      return Pass;
    }
    assert source.items[key.value := value].Keys == source.items.Keys + {key.value};
    source.items := source.items[key.value := value];
    return Pass;
  }

  /** `AddOrUpdate(source, key, value)`: all three are guarded, then the pair overload. */
  method AddOrUpdate<K, V>(source: Dictionary?<K, V>, key: Nullable<K>, value: Nullable<V>) returns (o: Outcome)
    modifies source
    ensures source == null ==> o == Fail(GuardClause(Guards.NullMessage("source")))
    ensures source != null && key.Null? ==> o == Fail(GuardClause(Guards.NullMessage("key")))
    ensures source != null && key.NonNull? && value.Null? ==> o == Fail(GuardClause(Guards.NullMessage("value")))
    ensures o.Fail? && source != null ==> source.items == old(source.items)
    ensures source != null && key.NonNull? && value.NonNull? ==>
      o.Pass? && source.items == old(source.items)[key.value := value.value]
  {
    var sourceGuard := Guards.RequiresNonNull(if source == null then Null else NonNull(source), "source");
    if sourceGuard.Fail? {
      return sourceGuard;
    }
    var keyGuard := Guards.RequiresNonNull(key, "key");
    if keyGuard.Fail? {
      return keyGuard;
    }
    var valueGuard := Guards.RequiresNonNull(value, "value");
    if valueGuard.Fail? {
      return valueGuard;
    }
    o := AddOrUpdatePair(source, key, value.value);
  }

  /** After `AddOrUpdate`, looking the key up finds the new value. */
  lemma AddOrUpdateThenTryGetValue<K, V>(items: map<K, V>, key: K, value: V)
    ensures FlowOptionAdapters.TryGetValue(NonNull(items[key := value]), NonNull(key)) == Ok(Some(value))
  {
  }

  /** `AddOrUpdateRange(source, second)`: every pair of `second`, in turn,
    * through `AddOrUpdate(pair)`. Keys of `second` take its values; the other
    * entries are unchanged. */
  method AddOrUpdateRange<K, V>(source: Dictionary?<K, V>, second: Nullable<map<K, V>>) returns (o: Outcome)
    modifies source
    ensures second.Null? ==> o == Fail(GuardClause(Guards.NullMessage("second")))
    ensures second.NonNull? && source == null ==> o == Fail(GuardClause(Guards.NullMessage("source")))
    ensures o.Fail? && source != null ==> source.items == old(source.items)
    ensures second.NonNull? && source != null ==> o.Pass? && source.items == old(source.items) + second.value
  {
    var secondGuard := Guards.RequiresNonNull(second, "second");
    if secondGuard.Fail? {
      return secondGuard;
    }
    var sourceGuard := Guards.RequiresNonNull(if source == null then Null else NonNull(source), "source");
    if sourceGuard.Fail? {
      return sourceGuard;
    }
    var pairs := second.value;
    ghost var before := source.items;
    var remaining := pairs.Keys;
    while remaining != {}
      invariant remaining <= pairs.Keys
      invariant forall k :: k in pairs && k !in remaining ==> k in source.items && source.items[k] == pairs[k]
      invariant forall k :: k !in pairs || k in remaining ==>
        (k in source.items <==> k in before) && (k in before ==> source.items[k] == before[k])
      decreases remaining
    {
      var key :| key in remaining;
      var added := AddOrUpdatePair(source, NonNull(key), pairs[key]);
      remaining := remaining - {key};
    }
    assert source.items.Keys == (before + pairs).Keys;
    return Pass;
  }

  /** `RemoveRange(source, keys)`: `Remove` each key in turn; an absent key
    * is ignored, and a null key throws after the keys before it are gone. */
  method RemoveRange<K, V>(source: Dictionary?<K, V>, keys: Nullable<seq<Nullable<K>>>) returns (o: Outcome)
    modifies source
    ensures source == null ==> o == Fail(GuardClause(Guards.NullMessage("source")))
    ensures source != null && keys.Null? ==> o == Fail(GuardClause(Guards.NullMessage("keys")))
    ensures source != null && keys.Null? ==> source.items == old(source.items)
    ensures source != null && keys.NonNull? ==>
      (o.Pass? <==> FirstNull(keys.value) == |keys.value|) && (o.Fail? ==> o.failure == ArgumentNull)
    ensures source != null && keys.NonNull? ==>
      source.items == old(source.items) - KeySet(keys.value[..FirstNull(keys.value)])
  {
    var sourceGuard := Guards.RequiresNonNull(if source == null then Null else NonNull(source), "source");
    if sourceGuard.Fail? {
      return sourceGuard;
    }
    var keysGuard := Guards.RequiresNonNull(keys, "keys");
    if keysGuard.Fail? {
      return keysGuard;
    }
    var ks := keys.value;
    var i := 0;
    while i < |ks|
      invariant 0 <= i <= |ks|
      invariant forall j :: 0 <= j < i ==> ks[j].NonNull?
      invariant source.items == old(source.items) - KeySet(ks[..i])
    {
      if ks[i].Null? {
        assert FirstNull(ks) == i;
        return Fail(ArgumentNull);
      }
      assert KeySet(ks[..i + 1]) == KeySet(ks[..i]) + {ks[i].value} by {
        assert forall j :: 0 <= j < i ==> ks[..i + 1][j] == ks[..i][j];
      }
      source.items := source.items - {ks[i].value};
      i := i + 1;
    }
    assert FirstNull(ks) == |ks| && ks[..i] == ks;
    return Pass;
  }

  /** `RemoveRange(source, second)`: `Remove(pair)` for each pair of
    * `second`, which removes an entry only when both its key and its value
    * match. */
  method RemoveRangeOfPairs<K, V(==)>(source: Dictionary?<K, V>, second: Nullable<map<K, V>>) returns (o: Outcome)
    modifies source
    ensures source == null ==> o == Fail(GuardClause(Guards.NullMessage("source")))
    ensures source != null && second.Null? ==> o == Fail(GuardClause(Guards.NullMessage("second")))
    ensures o.Fail? && source != null ==> source.items == old(source.items)
    ensures source != null && second.NonNull? ==> o.Pass?
    ensures source != null && second.NonNull? ==>
      source.items == old(source.items) - (set k | k in second.value && k in old(source.items) && second.value[k] == old(source.items)[k])
  {
    var sourceGuard := Guards.RequiresNonNull(if source == null then Null else NonNull(source), "source");
    if sourceGuard.Fail? {
      return sourceGuard;
    }
    var secondGuard := Guards.RequiresNonNull(second, "second");
    if secondGuard.Fail? {
      return secondGuard;
    }
    var pairs := second.value;
    var remaining := pairs.Keys;
    while remaining != {}
      invariant remaining <= pairs.Keys
      invariant source.items == old(source.items) -
        (set k | k in pairs.Keys - remaining && k in old(source.items) && pairs[k] == old(source.items)[k])
      decreases remaining
    {
      var key :| key in remaining;
      if key in source.items && source.items[key] == pairs[key] {
        source.items := source.items - {key};
      }
      remaining := remaining - {key};
    }
    return Pass;
  }
}
