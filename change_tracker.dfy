// SolidStack.Persistence.DelegatingChangeTracker<T>: a list of tracked
// IChangeTracking instances, with bulk AcceptChanges and change detection.
module ChangeTracking {
  import opened Base
  import Guards

  /** A tracked IChangeTracking instance with the conventional behaviour:
    * `AcceptChanges` clears `IsChanged`. */
  class TrackedInstance {
    var isChanged: bool
    /** How many times `AcceptChanges` has run on this instance. */
    ghost var acceptCalls: nat

    constructor(isChanged: bool)
      ensures this.isChanged == isChanged && acceptCalls == 0
    {
      this.isChanged := isChanged;
      acceptCalls := 0;
    }

    method AcceptChanges()
      modifies this
      ensures !isChanged && acceptCalls == old(acceptCalls) + 1
    {
      isChanged := false;
      acceptCalls := acceptCalls + 1;
    }
  }

  /** `Where(instance => instance.IsChanged)`, enumerated: the changed
    * instances in order; a null instance throws when it is reached. */
  function ChangedIn(instances: seq<TrackedInstance?>): (r: Result<seq<TrackedInstance>>)
    reads instances
    ensures r.Ok? <==> forall i :: 0 <= i < |instances| ==> instances[i] != null
    ensures r.Err? ==> r.failure == NullReference
  {
    if instances == [] then Ok([])
    else if instances[0] == null then Err(NullReference)
    else
      assert forall i :: 0 <= i < |instances[1..]| ==> instances[1..][i] == instances[i + 1];
      match ChangedIn(instances[1..])
      case Err(f) => Err(f)
      case Ok(rest) => Ok((if instances[0].isChanged then [instances[0]] else []) + rest)
  }

  /** Detecting changes over two lists in a row detects each list's changes. */
  lemma {:induction false} ChangedInAppend(xs: seq<TrackedInstance?>, ys: seq<TrackedInstance?>)
    requires forall i :: 0 <= i < |xs| ==> xs[i] != null
    requires forall i :: 0 <= i < |ys| ==> ys[i] != null
    ensures ChangedIn(xs + ys) == Ok(ChangedIn(xs).value + ChangedIn(ys).value)
  {
    var right := ChangedIn(ys).value;
    if xs == [] {
      assert xs + ys == ys;
      assert ChangedIn(ys) == Ok(right);
      assert ChangedIn(xs).value + right == right;
    } else {
      var tail := xs[1..];
      assert forall i :: 0 <= i < |tail| ==> tail[i] == xs[i + 1];
      ChangedInAppend(tail, ys);
      var whole := xs + ys;
      assert whole[0] == xs[0] && whole[1..] == tail + ys;
      var head: seq<TrackedInstance> := if xs[0].isChanged then [xs[0]] else [];
      var rest := ChangedIn(tail).value;
      UnfoldChangedIn(xs);
      UnfoldChangedIn(whole);
      assert head + (rest + right) == (head + rest) + right;
    }
  }

  /** Without nulls, every detected instance is a tracked, changed one, and
    * every tracked, changed instance is detected. */
  lemma {:induction false} ChangedInMeaning(instances: seq<TrackedInstance?>)
    requires forall i :: 0 <= i < |instances| ==> instances[i] != null
    ensures |ChangedIn(instances).value| <= |instances|
    ensures forall k :: 0 <= k < |ChangedIn(instances).value| ==>
      ChangedIn(instances).value[k] in instances && ChangedIn(instances).value[k].isChanged
    ensures forall i :: 0 <= i < |instances| && instances[i].isChanged ==> instances[i] in ChangedIn(instances).value
  {
    if instances != [] {
      var tail := instances[1..];
      assert forall i :: 0 <= i < |tail| ==> tail[i] == instances[i + 1];
      ChangedInMeaning(tail);
      UnfoldChangedIn(instances);
    }
  }

  /** One step of `ChangedIn` on a list without nulls. */
  lemma UnfoldChangedIn(instances: seq<TrackedInstance?>)
    requires instances != [] && forall i :: 0 <= i < |instances| ==> instances[i] != null
    ensures ChangedIn(instances) ==
      Ok((if instances[0].isChanged then [instances[0]] else []) + ChangedIn(instances[1..]).value)
  {
    assert forall i :: 0 <= i < |instances[1..]| ==> instances[1..][i] == instances[i + 1];
    assert ChangedIn(instances[1..]).Ok?;
  }

  /** The position of the first null instance, or the length when there is none. */
  function FirstNull(instances: seq<TrackedInstance?>): (n: nat)
    ensures n <= |instances|
    ensures forall i :: 0 <= i < n ==> instances[i] != null
    ensures n < |instances| ==> instances[n] == null
  {
    if instances == [] || instances[0] == null then 0
    else
      assert forall i :: 0 <= i < |instances[1..]| ==> instances[1..][i] == instances[i + 1];
      1 + FirstNull(instances[1..])
  }

  class DelegatingChangeTracker {
    /** `TrackedInstances`, duplicates and (in release builds) nulls included. */
    var trackedInstances: seq<TrackedInstance?>

    constructor()
      ensures trackedInstances == []
    {
      trackedInstances := [];
    }

    /** `DetectChanges()`, enumerated. */
    function DetectChanges(): Result<seq<TrackedInstance>>
      reads this, trackedInstances
    {
      ChangedIn(trackedInstances)
    }

    /** `AcceptAllChanges()`: `List.ForEach` calls `AcceptChanges` once per
      * entry, in order, so a duplicate is accepted once per occurrence; a
      * null entry throws after the entries before it are accepted. The list
      * itself is unchanged. */
    method AcceptAllChanges() returns (o: Outcome)
      modifies trackedInstances
      ensures trackedInstances == old(trackedInstances)
      ensures var n := FirstNull(trackedInstances);
        (o.Pass? <==> n == |trackedInstances|) && (o.Fail? ==> o.failure == NullReference)
      ensures var n := FirstNull(trackedInstances);
        forall i :: 0 <= i < n ==> !trackedInstances[i].isChanged
      ensures var n := FirstNull(trackedInstances);
        forall i :: 0 <= i < |trackedInstances| && trackedInstances[i] != null ==>
          trackedInstances[i].acceptCalls == old(trackedInstances[i].acceptCalls) + multiset(trackedInstances[..n])[trackedInstances[i]]
      ensures var n := FirstNull(trackedInstances);
        forall i :: 0 <= i < |trackedInstances| && trackedInstances[i] != null && trackedInstances[i] !in trackedInstances[..n] ==>
          trackedInstances[i].isChanged == old(trackedInstances[i].isChanged)
      ensures o.Pass? ==> DetectChanges() == Ok([])
    {
      var instances := trackedInstances;
      var i := 0;
      while i < |instances|
        invariant 0 <= i <= |instances|
        invariant forall j :: 0 <= j < i ==> instances[j] != null && !instances[j].isChanged
        invariant forall k :: 0 <= k < |instances| && instances[k] != null ==>
          instances[k].acceptCalls == old(instances[k].acceptCalls) + multiset(instances[..i])[instances[k]]
        invariant forall k :: 0 <= k < |instances| && instances[k] != null && instances[k] !in instances[..i] ==>
          instances[k].isChanged == old(instances[k].isChanged)
        modifies instances
      {
        if instances[i] == null {
          assert FirstNull(instances) == i;
          return Fail(NullReference);
        }
        instances[i].AcceptChanges();
        assert instances[..i + 1] == instances[..i] + [instances[i]];
        i := i + 1;
      }
      assert instances[..i] == instances;
      assert FirstNull(instances) == |instances|;
      NothingChanged(instances);
      return Pass;
    }

    /** `Clear()`. */
    method Clear()
      modifies this
      ensures trackedInstances == []
      ensures DetectChanges() == Ok([])
    {
      trackedInstances := [];
    }

    /** `TrackRange(instances)`: a null argument makes `ToList` throw before
      * the guards run; null items are rejected in debug builds only; the
      * instances are appended in order, duplicates kept. */
    method TrackRange(build: Guards.Build, instances: Nullable<seq<TrackedInstance?>>) returns (o: Outcome)
      modifies this
      ensures instances.Null? ==> o == Fail(ArgumentNull)
      ensures instances.NonNull? ==>
        (o.Pass? <==> build == Guards.Release || forall i :: 0 <= i < |instances.value| ==> instances.value[i] != null)
      ensures o.Fail? ==> trackedInstances == old(trackedInstances)
      ensures instances.NonNull? && o.Fail? ==>
        o.failure == GuardClause(Guards.NullItemsMessage("instances"))
      ensures o.Pass? ==> trackedInstances == old(trackedInstances) + instances.value
      ensures o.Pass? && old(DetectChanges()).Ok? && ChangedIn(instances.value).Ok? ==>
        DetectChanges() == Ok(old(DetectChanges()).value + ChangedIn(instances.value).value)
    {
      if instances.Null? {
        return Fail(ArgumentNull);
      }
      var instanceList := instances.value;
      var nonNull := Guards.RequiresNonNull(NonNull(instanceList), "instances");
      var noNullIn := Guards.RequiresNoNullIn(build, Items(instanceList), "instances");
      if noNullIn.Fail? {
        return noNullIn;
      }
      ghost var before := trackedInstances;
      trackedInstances := trackedInstances + instanceList;
      if ChangedIn(before).Ok? && ChangedIn(instanceList).Ok? {
        ChangedInAppend(before, instanceList);
      }
      return Pass;
    }
  }

  /** Instance references viewed as nullable values, for the item guard. */
  function Items(instances: seq<TrackedInstance?>): (r: seq<Nullable<TrackedInstance>>)
    ensures |r| == |instances|
    ensures forall i :: 0 <= i < |instances| ==> (r[i].NonNull? <==> instances[i] != null)
  {
    seq(|instances|, i requires 0 <= i < |instances| => if instances[i] == null then Null else NonNull(instances[i]))
  }

  /** Once no instance is changed, nothing is detected. */
  lemma {:induction false} NothingChanged(instances: seq<TrackedInstance?>)
    requires forall i :: 0 <= i < |instances| ==> instances[i] != null && !instances[i].isChanged
    ensures ChangedIn(instances) == Ok([])
  {
    if instances != [] {
      assert forall i :: 0 <= i < |instances[1..]| ==> instances[1..][i] == instances[i + 1];
      NothingChanged(instances[1..]);
      UnfoldChangedIn(instances);
      var none: seq<TrackedInstance> := [];
      assert ChangedIn(instances[1..]).value == none;
      assert !instances[0].isChanged;
      assert ChangedIn(instances) == Ok(none + none);
      assert none + none == none;
    }
  }
}
