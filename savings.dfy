/**
 * The slot-versus-dict estimate of `estimatedSavedMemory`: build `instances`
 * objects of each kind, add up their reported sizes and compare. The host's
 * `sys.getsizeof` is a parameter: `sizeOf(i)` is the size reported for the
 * i-th object built.
 */
module Savings {

  /** The dictionary the source returns. */
  datatype SavingsReport = SavingsReport(
    dictBased: nat,
    slotBased: nat,
    savedBytes: int,
    percentSaved: real)

  /**
   * `[cls() for _ in range(instances)]`, seen through the sizes of the objects
   * built. A negative count is an empty range in Python, so it builds nothing.
   */
  function Instantiate(instances: int, sizeOf: nat -> nat): (sizes: seq<nat>)
    ensures |sizes| == if instances > 0 then instances else 0
    ensures forall i :: 0 <= i < |sizes| ==> sizes[i] == sizeOf(i)
  {
    if instances <= 0 then [] else Instantiate(instances - 1, sizeOf) + [sizeOf(instances - 1)]
  }

  /** Python's `sum(...)` over a list of sizes. */
  function Total(sizes: seq<nat>): nat
  {
    if sizes == [] then 0 else Total(sizes[..|sizes| - 1]) + sizes[|sizes| - 1]
  }

  /**
   * `estimatedSavedMemory(classWithSlots, classWithoutSlots, instances)`:
   * `dictSizeOf` reports `sys.getsizeof(obj.__dict__)` for the objects without
   * slots, `slotSizeOf` reports `sys.getsizeof(obj)` for the objects with slots.
   */
  function EstimatedSavedMemory(slotSizeOf: nat -> nat, dictSizeOf: nat -> nat, instances: int := 1000): (r: SavingsReport)
    ensures r.savedBytes == r.dictBased - r.slotBased
    ensures r.dictBased == 0 ==> r.percentSaved == 0.0
    ensures r.dictBased > 0 ==> r.percentSaved == r.savedBytes as real / r.dictBased as real * 100.0
    ensures r.dictBased > 0 ==> r.percentSaved <= 100.0
    ensures instances <= 0 ==> r == SavingsReport(0, 0, 0, 0.0)
  {
    var dictSize := Total(Instantiate(instances, dictSizeOf));
    var slotsSize := Total(Instantiate(instances, slotSizeOf));
    var saved := dictSize - slotsSize;
    var percent := if dictSize > 0 then saved as real / dictSize as real * 100.0 else 0.0;
    assert dictSize > 0 ==> percent <= 100.0 by {
      if dictSize > 0 {
        PercentAtMostHundred(saved, dictSize);
      }
    }
    SavingsReport(dictSize, slotsSize, saved, percent)
  }

  /** Savings never exceed the dict-based total, so the share is at most 100 percent. */
  lemma PercentAtMostHundred(saved: int, total: nat)
    requires total > 0 && saved <= total
    ensures saved as real / total as real * 100.0 <= 100.0
  {
    assert saved as real / total as real <= 1.0;
  }

  /** The dict-based and slot-based totals are the sums of the per-object sizes. */
  lemma {:induction false} TotalsCountEveryInstance(slotSizeOf: nat -> nat, dictSizeOf: nat -> nat, instances: nat)
    ensures EstimatedSavedMemory(slotSizeOf, dictSizeOf, instances).dictBased == SumUpTo(dictSizeOf, instances)
    ensures EstimatedSavedMemory(slotSizeOf, dictSizeOf, instances).slotBased == SumUpTo(slotSizeOf, instances)
  {
    InstantiateTotal(dictSizeOf, instances);
    InstantiateTotal(slotSizeOf, instances);
  }

  /** sizeOf(0) + ... + sizeOf(n - 1), counted from zero up. */
  function SumUpTo(sizeOf: nat -> nat, n: nat): nat
  {
    if n == 0 then 0 else sizeOf(n - 1) + SumUpTo(sizeOf, n - 1)
  }

  /** The sizes of the objects built add up to the sum counted from zero up. */
  lemma {:induction false} InstantiateTotal(sizeOf: nat -> nat, n: nat)
    ensures Total(Instantiate(n, sizeOf)) == SumUpTo(sizeOf, n)
  {
    if n > 0 {
      InstantiateTotal(sizeOf, n - 1);
      assert Instantiate(n, sizeOf)[..n - 1] == Instantiate(n - 1, sizeOf);
    }
  }

  /** When every object of a kind has the same size, the total is count times size. */
  lemma {:induction false} UniformSize(sizeOf: nat -> nat, c: nat, n: nat)
    requires forall i :: 0 <= i < n ==> sizeOf(i) == c
    ensures SumUpTo(sizeOf, n) == n * c
  {
    if n > 0 {
      UniformSize(sizeOf, c, n - 1);
    }
  }

  /**
   * Pointwise no larger sizes give a total that is no larger; when each size
   * is strictly smaller and at least one object is built, strictly smaller.
   */
  lemma {:induction false} SumUpToMonotone(small: nat -> nat, large: nat -> nat, n: nat)
    requires forall i :: 0 <= i < n ==> small(i) <= large(i)
    ensures SumUpTo(small, n) <= SumUpTo(large, n)
    ensures n > 0 && (forall i :: 0 <= i < n ==> small(i) < large(i)) ==> SumUpTo(small, n) < SumUpTo(large, n)
  {
    if n > 0 {
      SumUpToMonotone(small, large, n - 1);
    }
  }

  /**
   * When each slotted object is non-empty and smaller than the dictionary of
   * its dict-based twin, building at least one of each saves memory, by a
   * share strictly between 0 and 100 percent.
   */
  lemma SlotsSaveMemory(slotSizeOf: nat -> nat, dictSizeOf: nat -> nat, instances: int)
    requires instances > 0
    requires forall i :: 0 <= i < instances ==> 0 < slotSizeOf(i) < dictSizeOf(i)
    ensures EstimatedSavedMemory(slotSizeOf, dictSizeOf, instances).savedBytes > 0
    ensures 0.0 < EstimatedSavedMemory(slotSizeOf, dictSizeOf, instances).percentSaved < 100.0
  {
    var r := EstimatedSavedMemory(slotSizeOf, dictSizeOf, instances);
    TotalsCountEveryInstance(slotSizeOf, dictSizeOf, instances);
    SumUpToMonotone(slotSizeOf, dictSizeOf, instances);
    assert 0 < r.slotBased < r.dictBased;
    PercentStrictlyBetween(r.slotBased, r.dictBased);
  }

  /** A non-empty slotted total below the dict-based total saves strictly between 0 and 100 percent. */
  lemma PercentStrictlyBetween(slot: nat, dict: nat)
    requires 0 < slot < dict
    ensures 0.0 < (dict - slot) as real / dict as real * 100.0 < 100.0
  {
    var q := (dict - slot) as real / dict as real;
    assert q * dict as real == (dict - slot) as real;
    assert 0.0 < q < 1.0;
  }
}
