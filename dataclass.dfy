/**
 * `OptimisedDataClass`: a slotted point whose coordinate sum is computed on
 * first access and cached from then on. Coordinates are integers here.
 */
module DataClass {

  import opened Wrappers

  class OptimisedDataClass {
    var x: int
    var y: int
    var z: int
    /** `_cached_sum`: `None` until `Sum` is first asked for. */
    var cachedSum: Option<int>

    constructor (x: int, y: int, z: int)
      ensures this.x == x && this.y == y && this.z == z
      ensures cachedSum == None
    {
      this.x := x;
      this.y := y;
      this.z := z;
      cachedSum := None;
    }

    /**
     * The `sum` property: the first access stores `x + y + z`; every later
     * access returns what was stored, whatever the coordinates are by then.
     * Only the cache may change.
     */
    method Sum() returns (s: int)
      modifies this`cachedSum
      ensures old(cachedSum) == None ==> s == x + y + z
      ensures old(cachedSum) != None ==> s == old(cachedSum).value
      ensures cachedSum == Some(s)
    {
      if cachedSum == None {
        cachedSum := Some(x + y + z);
      }
      s := cachedSum.value;
    }
  }

  /**
   * A fresh object answers `x + y + z`; after all three coordinates are
   * reassigned it still answers the first sum, not the new one.
   */
  method SumIsSetOnce(x: int, y: int, z: int, x': int, y': int, z': int)
    returns (first: int, second: int)
    ensures first == x + y + z
    ensures second == first
    ensures x' + y' + z' != x + y + z ==> second != x' + y' + z'
  {
    var p := new OptimisedDataClass(x, y, z);
    first := p.Sum();
    p.x, p.y, p.z := x', y', z';
    second := p.Sum();
  }
}
