# Memory profiler core, modelled in Dafny

This project models the bookkeeping and arithmetic of `python_memory_optimiser/profiler.py`:
the `MemoryProfiler` class (its snapshot history, its one-hop reference-cycle filter and its
slots-versus-dict savings estimate) and `OptimisedDataClass` (a slotted point whose coordinate
sum is cached on first access). Every value the source obtains from the interpreter
(`tracemalloc`, `gc`, `sys`) is a parameter of the model, so what remains is deterministic.

Files and modules:

- `wrappers.dfy` (`Wrappers`): `Option`, the stand-in for an attribute that may be `None`.
- `snapshots.dfy` (`Snapshots`): object identities, `GenerationStats` (one entry of
  `gc.get_stats()`), the frozen `MemorySnapshot` record and the collector-run total.
- `cycles.dfy` (`CycleFilter`): the filter `findCircularRef` applies, as a function, with an
  independent description of which garbage positions are kept.
- `savings.dfy` (`Savings`): `estimatedSavedMemory` as a function over per-object sizes.
- `profiler.dfy` (`Profiler`): the class `MemoryProfiler` with its constructor, `TakeSnapshot`
  (appends to the history) and `FindCircularRef` (the source's `for` loop, proved equal to
  the filter function).
- `dataclass.dfy` (`DataClass`): the class `OptimisedDataClass` and its set-once `Sum`.

How host values enter the model:

- `takeSnapshot`: the traced current and peak sizes, the `gc.get_count()` triple, the list
  `gc.get_objects()` returns, the `sys.getrefcount` sample and the `gc.get_stats()` list.
- `findCircularRef`: the garbage list left after `gc.collect()` and `gc.get_referrers` as a
  function from identity to referrer list. The identity test `ref is ob` is equality of
  identities.
- `estimatedSavedMemory`: `sys.getsizeof` as two functions from the creation index of an
  object to its reported size. For the class without slots, that is the size of its
  `__dict__`; for the class with slots, the size of the object.

Behaviour worth knowing:

- The cycle check looks one hop only, as the code does. An object is reported only when it is
  among its own referrers. A two-object cycle A -> B -> A is not reported
  (`CycleFilter.TwoCycleNotReported`), although a longer cycle is what a reader of the name
  would expect to be found.
- `instances` is a Python `int`. A negative count is an empty `range`, so nothing is built and
  every figure is zero.
- `percent_saved` is `0` when the dict-based total is `0`. Otherwise it is
  `saved / dict_based * 100`, which may be negative and is never above 100.

## Model

| member | source | states |
|---|---|---|
| `Snapshots.TotalCollectionsAppend` | python_memory_optimiser/profiler.py:38 | the collector-run total of a list of generations is the sum of the totals of its parts |
| `Snapshots.GenerationAtMostTotal` | python_memory_optimiser/profiler.py:38 | no generation's `collections` counter exceeds the total stored in the snapshot |
| `Snapshots.TotalCollectionsZero` | python_memory_optimiser/profiler.py:38 | the total is zero exactly when every generation's counter is zero |
| `Profiler.MemoryProfiler.constructor` | python_memory_optimiser/profiler.py:22-26 | a new profiler has an empty history, an empty tracking table and the `track_objects` flag as given, `true` when omitted |
| `Profiler.MemoryProfiler.TakeSnapshot` | python_memory_optimiser/profiler.py:30-41 | the snapshot's timestamp is generation 0's count, its heap size the current traced size (peak ignored), its object count the length of the live-object list, its refcount the sample, its collection count the total over all generations; the history becomes the old history with exactly this one snapshot appended, so earlier entries are unchanged; the tracking table and flag are unchanged |
| `Profiler.MemoryProfiler.FindCircularRef` | python_memory_optimiser/profiler.py:44-52 | the loop returns exactly the filter `CircularRefs` of the garbage list; it has no `modifies` clause, so the history and the tracking table are untouched |
| `CycleFilter.FlaggedIndices` | python_memory_optimiser/profiler.py:47-50 | the kept positions are increasing, within the garbage list, and include a position exactly when the object there is among its own referrers |
| `CycleFilter.CircularRefsExactly` | python_memory_optimiser/profiler.py:46-52 | the result holds one entry per self-referring garbage object, in garbage order, and that entry is the object's referrer list |
| `CycleFilter.CircularRefsBounded` | python_memory_optimiser/profiler.py:46-52 | the result is no longer than the garbage list |
| `CycleFilter.EntryHoldsItsObject` | python_memory_optimiser/profiler.py:48-51 | every returned list is the referrer list of some garbage object and contains that object |
| `CycleFilter.EveryCycleReported` | python_memory_optimiser/profiler.py:47-51 | the referrer list of every garbage object that refers to itself is in the result |
| `CycleFilter.NoneReportedIff` | python_memory_optimiser/profiler.py:46-52 | the result is empty exactly when no garbage object is among its own referrers, so empty garbage gives an empty result |
| `CycleFilter.CircularRefsAppend` | python_memory_optimiser/profiler.py:47-51 | filtering a concatenation of garbage lists concatenates the filtered parts |
| `CycleFilter.TwoCycleNotReported` | python_memory_optimiser/profiler.py:50 | any two distinct objects that are each other's only referrer are not reported by the one-hop test |
| `CycleFilter.AcyclicChainNotReported` | python_memory_optimiser/profiler.py:46-52 | a strictly acyclic chain of three distinct objects gives an empty result |
| `CycleFilter.SelfLoopReported` | python_memory_optimiser/profiler.py:47-51 | of three garbage objects of which only the first is among its own referrers, only that object's referrer list is returned |
| `Savings.Instantiate` | python_memory_optimiser/profiler.py:56 | exactly `instances` objects are built (none for a non-positive count), the i-th with the i-th reported size |
| `Savings.EstimatedSavedMemory` | python_memory_optimiser/profiler.py:54-70 | `saved_bytes` is exactly `dict_based - slot_based` (possibly negative); `percent_saved` is 0 when `dict_based` is 0 and `saved_bytes / dict_based * 100` otherwise, never above 100; a non-positive count gives all zeros; the count is 1000 when omitted |
| `Savings.TotalsCountEveryInstance` | python_memory_optimiser/profiler.py:56-61 | `dict_based` and `slot_based` are the sums of the sizes of the first `instances` objects of each kind |
| `Savings.UniformSize` | python_memory_optimiser/profiler.py:57 | when the first `n` objects of a kind report the same size, their total is `n` times that size |
| `Savings.SumUpToMonotone` | python_memory_optimiser/profiler.py:57-63 | objects that are each no larger give a total that is no larger; each strictly smaller with at least one object built gives a strictly smaller total |
| `Savings.SlotsSaveMemory` | python_memory_optimiser/profiler.py:54-70 | when every slotted object is non-empty and smaller than its dict-based twin's dictionary, at least one instance gives positive savings and a percentage strictly between 0 and 100 |
| `DataClass.OptimisedDataClass.constructor` | python_memory_optimiser/profiler.py:75-79 | the coordinates are stored as given and the cache starts empty |
| `DataClass.OptimisedDataClass.Sum` | python_memory_optimiser/profiler.py:81-85 | the first access returns and caches `x + y + z`; a later access returns the cached value unchanged; only the cache field may change |
| `DataClass.SumIsSetOnce` | python_memory_optimiser/profiler.py:75-85 | after the coordinates are reassigned, a second access still returns the first sum, not the new coordinates' sum |

## Left out

- `tracemalloc.start()` and every other call into the interpreter (`tracemalloc.get_traced_memory`, `gc.get_stats`, `gc.get_count`, `gc.get_objects`, `gc.collect`, `gc.garbage`, `gc.get_referrers`, `sys.getrefcount`, `sys.getsizeof`): their results are parameters, because they introspect the host interpreter.
- The memory reclaimed by `gc.collect()` inside `findCircularRef`: a side effect on the host heap, outside the model.
- Failures while building objects: `classWithoutSlots()` and `classWithSlots()` raise `TypeError` for a class whose constructor needs arguments, and `obj.__dict__` raises `AttributeError` for a class without a per-instance dictionary. The model assumes building and `__dict__` access succeed, so the properties of `Savings.EstimatedSavedMemory` describe the calls that return normally.
- `gc.get_referrers` as a fixed function: the source asks it once per garbage object while the loop runs, and its lists can include `gc.garbage` itself and the `referrers` lists the loop kept earlier; a collection during the loop could also lengthen `gc.garbage`. Which objects are flagged does not depend on this, because `ref is ob` looks at what `ob` itself references. The model fixes the contents of the returned lists as the function gives them.
- The weak-reference behaviour of `trackedObjects`: the code never adds an entry, so the model only keeps the table and shows it empty and unchanged.
- `OptimisedDataClass.__sizeof__` and real byte sizes: they depend on the interpreter's object layout.
- Floating point: `percent_saved` is a `real` and the coordinates and sum of `OptimisedDataClass` are integers, so rounding is not modelled.
- The `__main__` demonstration and its printing.
- `python_bytecode_optimisation/bytecode.py`: its subject is the interpreter's name-lookup cost, which is not observable behaviour, and its only computation is a floating-point square-root sum.
- Concurrency and the consistency of the sampled values: the code is single-threaded and takes no locks.
- `MemorySnapshot.timestamp`: annotated as a float in the source but filled with an integer count; the model uses an integer.
