// SolidStack.Persistence.ChangeTrackerExtensions: guarded shortcuts that hand
// one instance, or an array of them, to `TrackRange`.
module ChangeTrackerExtensions {
  import opened Base
  import Guards
  import opened ChangeTracking

  function TrackerOrNull(changeTracker: DelegatingChangeTracker?): Nullable<DelegatingChangeTracker>
  {
    if changeTracker == null then Null else NonNull(changeTracker)
  }

  /** `Track(changeTracker, instance)`: both guarded, then a one-element array. */
  method Track(build: Guards.Build, changeTracker: DelegatingChangeTracker?, instance: TrackedInstance?) returns (o: Outcome)
    modifies changeTracker
    ensures changeTracker == null ==> o == Fail(GuardClause(Guards.NullMessage("changeTracker")))
    ensures changeTracker != null && instance == null ==> o == Fail(GuardClause(Guards.NullMessage("instance")))
    ensures changeTracker != null && o.Fail? ==> changeTracker.trackedInstances == old(changeTracker.trackedInstances)
    ensures changeTracker != null && instance != null ==>
      o.Pass? && changeTracker.trackedInstances == old(changeTracker.trackedInstances) + [instance]
  {
    var trackerGuard := Guards.RequiresNonNull(TrackerOrNull(changeTracker), "changeTracker");
    if trackerGuard.Fail? {
      return trackerGuard;
    }
    var instanceGuard := Guards.RequiresNonNull(if instance == null then Null else NonNull(instance), "instance");
    if instanceGuard.Fail? {
      return instanceGuard;
    }
    o := changeTracker.TrackRange(build, NonNull([instance]));
  }

  /** `TrackRange(changeTracker, params instances)`: the tracker and the array
    * are always guarded, null items in debug builds; the array is forwarded
    * unchanged. */
  method TrackRange(build: Guards.Build, changeTracker: DelegatingChangeTracker?, instances: Nullable<seq<TrackedInstance?>>) returns (o: Outcome)
    modifies changeTracker
    ensures changeTracker == null ==> o == Fail(GuardClause(Guards.NullMessage("changeTracker")))
    ensures changeTracker != null && instances.Null? ==> o == Fail(GuardClause(Guards.NullMessage("instances")))
    ensures changeTracker != null && instances.NonNull? ==>
      (o.Pass? <==> build == Guards.Release || forall i :: 0 <= i < |instances.value| ==> instances.value[i] != null)
    ensures changeTracker != null && o.Fail? ==> changeTracker.trackedInstances == old(changeTracker.trackedInstances)
    ensures changeTracker != null && o.Pass? ==>
      changeTracker.trackedInstances == old(changeTracker.trackedInstances) + instances.value
  {
    var trackerGuard := Guards.RequiresNonNull(TrackerOrNull(changeTracker), "changeTracker");
    if trackerGuard.Fail? {
      return trackerGuard;
    }
    var instancesGuard := Guards.RequiresNonNull(instances, "instances");
    if instancesGuard.Fail? {
      return instancesGuard;
    }
    var noNullIn := Guards.RequiresNoNullIn(build, Items(instances.value), "instances");
    if noNullIn.Fail? {
      return noNullIn;
    }
    o := changeTracker.TrackRange(build, instances);
  }
}
