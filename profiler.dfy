/**
 * `MemoryProfiler`: the snapshot history and the cycle report. Whatever the
 * source asks of `tracemalloc`, `gc` and `sys` arrives here as parameters.
 */
module Profiler {

  import opened Snapshots
  import CycleFilter

  /** A `weakref.ref` in the tracking table, reduced to the identity it points at. */
  datatype WeakRef = WeakRef(referent: ObjectId)

  class MemoryProfiler {
    /** The append-only history, oldest first. */
    var snapshots: seq<MemorySnapshot>
    /** Declared by the source but never filled in. */
    var trackedObjects: map<ObjectId, WeakRef>
    var trackObjects: bool

    /** `MemoryProfiler(track_objects)`: an empty history and an empty table. */
    constructor (trackObjects: bool := true)
      ensures snapshots == []
      ensures trackedObjects == map[]
      ensures this.trackObjects == trackObjects
    {
      snapshots := [];
      trackedObjects := map[];
      this.trackObjects := trackObjects;
    }

    /**
     * `takeSnapshot()`. The host's answers are the parameters:
     * `tracedCurrent, tracedPeak` from `tracemalloc.get_traced_memory()`,
     * `gcCount` from `gc.get_count()`, `liveObjects` from `gc.get_objects()`,
     * `refcount` from `sys.getrefcount(...)` and `stats` from `gc.get_stats()`.
     */
    method TakeSnapshot(tracedCurrent: nat, tracedPeak: nat, gcCount: (nat, nat, nat),
                        liveObjects: seq<ObjectId>, refcount: nat, stats: seq<GenerationStats>)
      returns (snapshot: MemorySnapshot)
      modifies this`snapshots
      ensures snapshot.timestamp == gcCount.0
      ensures snapshot.heapSize == tracedCurrent
      ensures snapshot.objectCount == |liveObjects|
      ensures snapshot.refcount == refcount
      ensures snapshot.gcCollections == TotalCollections(stats)
      ensures snapshots == old(snapshots) + [snapshot]
      ensures trackedObjects == old(trackedObjects) && trackObjects == old(trackObjects)
    {
      snapshot := MemorySnapshot(
        timestamp := gcCount.0,
        heapSize := tracedCurrent,
        objectCount := |liveObjects|,
        refcount := refcount,
        gcCollections := TotalCollections(stats));
      snapshots := snapshots + [snapshot];
    }

    /**
     * `findCircularRef()`, given the collector's garbage list after
     * `gc.collect()` and `gc.get_referrers` as `referrersOf`. It changes no
     * field of the profiler: the history and the table stay as they were.
     */
    method FindCircularRef(garbage: seq<ObjectId>, referrersOf: ObjectId -> seq<ObjectId>)
      returns (circularRefs: seq<seq<ObjectId>>)
      ensures circularRefs == CycleFilter.CircularRefs(garbage, referrersOf)
    {
      circularRefs := [];
      for i := 0 to |garbage|
        invariant circularRefs == CycleFilter.CircularRefs(garbage[..i], referrersOf)
      {
        var ob := garbage[i];
        var referrers := referrersOf(ob);
        assert garbage[..i + 1][..i] == garbage[..i];
        if ob in referrers {
          circularRefs := circularRefs + [referrers];
        }
      }
      assert garbage[..|garbage|] == garbage;
    }
  }
}
