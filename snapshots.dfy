/**
 * Point-in-time memory records and the collector statistics they summarise.
 * Object identities (Python's `id(...)`) are natural numbers here.
 */
module Snapshots {

  /** The identity of a live Python object. */
  type ObjectId = nat

  /** One entry of `gc.get_stats()`: the counters the collector keeps for one generation. */
  datatype GenerationStats = GenerationStats(collections: nat, collected: nat, uncollectable: nat)

  /**
   * The frozen dataclass `MemorySnapshot`. A datatype value can never be changed
   * after construction, which is what `frozen=True` promises.
   */
  datatype MemorySnapshot = MemorySnapshot(
    timestamp: int,
    heapSize: nat,
    objectCount: nat,
    refcount: nat,
    gcCollections: nat)

  /** `sum(s['collections'] for s in gc_stats)`: collector runs over all generations. */
  function TotalCollections(stats: seq<GenerationStats>): nat
  {
    if stats == [] then 0 else stats[0].collections + TotalCollections(stats[1..])
  }

  /** The total over a list of generations is the sum of the totals of its two parts. */
  lemma {:induction false} TotalCollectionsAppend(a: seq<GenerationStats>, b: seq<GenerationStats>)
    ensures TotalCollections(a + b) == TotalCollections(a) + TotalCollections(b)
  {
    if a == [] {
      assert a + b == b;
    } else {
      assert (a + b)[1..] == a[1..] + b;
      TotalCollectionsAppend(a[1..], b);
    }
  }

  /** No single generation has run more collections than the total reports. */
  lemma {:induction false} GenerationAtMostTotal(stats: seq<GenerationStats>, g: nat)
    requires g < |stats|
    ensures stats[g].collections <= TotalCollections(stats)
  {
    if g > 0 {
      GenerationAtMostTotal(stats[1..], g - 1);
    }
  }

  /** The total is zero exactly when no generation has been collected yet. */
  lemma {:induction false} TotalCollectionsZero(stats: seq<GenerationStats>)
    ensures TotalCollections(stats) == 0 <==> forall g :: 0 <= g < |stats| ==> stats[g].collections == 0
  {
    if stats != [] {
      TotalCollectionsZero(stats[1..]);
      assert forall g :: 1 <= g < |stats| ==> stats[g] == stats[1..][g - 1];
    }
  }
}
