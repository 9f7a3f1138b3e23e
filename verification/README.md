# Universal Resource Broker: a verified model

The Universal Resource Broker runs Mesos frameworks on other schedulers. Its C++ core
(`liburb` and the `stout` headers) does resource arithmetic, moves reservations and volumes
between roles, converts messages, and keeps the executor's record of updates. This Dafny
project models that core and proves what the code promises, for all inputs or over all runs.

Verify everything with `dafny verify dfyconfig.toml`.

## What is proved

**Resource pools.** A `Resources` object is a list of entries. The list refines a map from an
identity key (name, type, reservations, disk, ...) to a quantity (thousandths, a set of points,
a set of names, or a number of copies): `add` is pointwise sum, `subtract` truncated
difference, `contains` pointwise order, `==` pointwise equality, and the list stays free of
empty and of addable entries. From that follow the laws of `+`, `-` and `contains`, exactly when
RESERVE, UNRESERVE, CREATE and DESTROY succeed and what they do, conservation of all totals over
every sequence of operations, which entries `find` takes and that they make up the target, and
exactly when checkpoint replay succeeds, in whatever order. Validation is the list of its faults.
Ranges are shown to be sets of points by proving the in-place coalescing loop; the theorems on
pools take them as such sets, which the code does as long as no range ends at 2^64 - 1.

**Formats and codecs.** Resource formats before and after reservation refinement, record-IO
streams cut anywhere, Base64 as regrouped bits, version precedence with parsing and printing,
JSON containment place by place and as deletion of entries, and schema-driven protobuf to JSON
and back, with what every JSON value sets in every type of field.

**State machines.** The executor's unacknowledged updates over a linked hash map, the timer
map of the event loop under every interleaving, the LRU cache, and the breadth-first search
for process descendants. Each is compared with what the history of events says.

Code that updates state in place is a class or a method with loops, proved against a
specification function; the theorems are about these functions.

## What turned out otherwise

- `==` on set values compares item lists position by position, since the inner loop never uses
  its own index (`SetLoops.EqualLoop`, `SetLoops.OrderMatters`).
- `==` on disk sources is not symmetric; exactly when it is: `ResourceModel.SourceEqReversed`.
- `contains` does not count equal non-persistent MOUNT disks, so one compares equal to two
  (`PoolLaws.TwinMountsCompareEqual`, exact form in `PoolLaws.PoolEqMeans`).
- Totals are conserved exactly for balanced steps; creating a shared volume that is already
  there fails a CHECK (`Conservation.StepConserves`, `RoundTrips.CreateSharedTwiceAborts`).
- RESERVE then UNRESERVE loses points or names already held under the reserved key
  (`RoundTrips.HeldTwiceIsLost`); exactly when it does not: `RoundTrips.ReserveThenUnreserve`.
- Removing the last reservation of a valid resource can leave an invalid one, because UNKNOWN is
  refused only in a single reservation (`Validation.UnknownIsExposed`, exact form in
  `Validation.PopIsUsable`).
- After an UNRESERVE of such a resource `find` can return more than the target, since an invalid
  entry counts as nothing (`FindRuns.FindOnSpoiledPool`). `FindProof.FindIsSound` therefore
  assumes valid entries; which operations keep them: `FindRuns.StepKeepsSound`.
- The overlap check of ranges depends on their order (`Decoding.OverlapCheckIsExact`).
- Coalescing leaves overlapping ranges when one that ends at 2^64 - 1 is followed by another;
  exactly when it does not: `Coalescing.PassIsCanonical`. Then `==` on ranges is not equality
  of points (`Coalescing.EqualPointsNotFound`, exact form in `Coalescing.EqualityMeans`).
- `<=` on versions is not total: two spellings of one number tie (`Version.LessOrEqualIsTotal`).
- JSON containment is not transitive through doubles that stand for two integers
  (`Json.DoublesBreakTransitivity`, exact form in `Json.ContainsTransitive`).
- Cancelling a timer that was delayed twice stops only the later entry
  (`Timers.DelayedTwiceStillRuns`, exact form in `TimerRuns.CancelMeans`).
- A bad record-IO header drops the records completed in the same chunk, because the whole
  call returns an error (`RecordIO.FailureDropsRecords`, exact form in
  `RecordIO.ReturnedIsComplete`).

## Model

| member | source | states |
|---|---|---|
| `Values.AppendMissingMeans` | urb-core/source/cpp/liburb/source/values.cpp:531-549 | `+=` on set values is set union, for any lists, and makes no duplicates |
| `Values.RemoveEachMeans` | urb-core/source/cpp/liburb/source/values.cpp:552-565 | `-=` on set values takes away one occurrence for each right item; on duplicate-free lists it is set difference |
| `Values.OperatorsMeasure` | urb-core/source/cpp/liburb/source/values.cpp:93-134 | `+`, `-`, `<=` and emptiness of scalars, ranges and sets are sum, truncated difference, order and zero of the measured quantity; a scalar difference may go below zero where the quantity stops |
| `SetLoops.EqualLoop` | urb-core/source/cpp/liburb/source/values.cpp:431-453 | the nested loops of `==`, whose inner index is never used, compare the two lists position by position |
| `SetLoops.WithinLoop` | urb-core/source/cpp/liburb/source/values.cpp:456-478 | the nested loops of `<=` decide inclusion after the test of sizes |
| `SetLoops.UnionLoop` | urb-core/source/cpp/liburb/source/values.cpp:531-549 | the loop of `+=` appends the missing items |
| `SetLoops.RemoveLoop` | urb-core/source/cpp/liburb/source/values.cpp:552-565 | the loop of `-=` deletes the first equal item each time |
| `SetLoops.UnionOrder` | urb-core/source/cpp/liburb/source/values.cpp:531-549 | `+=` keeps the left list and appends the items in neither list before, in the order of the right list |
| `SetLoops.RemovalOrder` | urb-core/source/cpp/liburb/source/values.cpp:552-565 | `-=` keeps the order of the left list and, of equal items, takes as many first ones as the right list names |
| `SetLoops.OrderMatters` | urb-core/source/cpp/liburb/source/values.cpp:431-478 | two items in two orders: each list within the other, and not equal |
| `SetLoops.EqualityNeedsOrder` | urb-core/source/cpp/liburb/source/values.cpp:431-453 | for lists of the same items, `==` holds exactly when every item stands at the same place in both |
| `Values.TakeLaws` | urb-core/source/cpp/liburb/source/values.cpp:105-134 | taking twice is taking the sum; taking what is there and giving it back is the identity; giving and taking back is the identity exactly for fresh points and names |
| `Coalescing.PassKeepsPoints` | urb-core/source/cpp/liburb/source/values.cpp:154-228 | the merging pass over sorted ranges covers exactly the points of its input |
| `Coalescing.PassIsCanonical` | urb-core/source/cpp/liburb/source/values.cpp:154-228 | its result is ascending with gaps exactly when no range follows one that ends at 2^64 - 1 (copies of a lone one apart) |
| `Coalescing.WrapKeepsOverlap` | urb-core/source/cpp/liburb/source/values.cpp:178-199 | a range inside one that ends at 2^64 - 1 is kept as one of its own, because `end + 1` wraps to zero |
| `Coalescing.CoalesceSorted` | urb-core/source/cpp/liburb/source/values.cpp:154-228 | the in-place loop, which overwrites the vector it still reads, computes the pass |
| `Coalescing.PassIsLayered` | urb-core/source/cpp/liburb/source/values.cpp:154-228 | whatever the input, the result has gaps except behind a range that ends at 2^64 - 1, where the starts still ascend |
| `Coalescing.LayeredIsFixed` | urb-core/source/cpp/liburb/source/values.cpp:154-228 | coalescing leaves every such list alone, so these lists are exactly its results |
| `Coalescing.Coalesce` | urb-core/source/cpp/liburb/source/values.cpp:234-260 | for any list of ranges: same points, well-formed, canonical exactly when the sorted input has nothing after the maximum |
| `Coalescing.CanonicalIsUnique` | urb-core/source/cpp/liburb/source/values.cpp:323-352 | two canonical lists that cover the same points are the same list |
| `Coalescing.WithinMeansSubset` | urb-core/source/cpp/liburb/source/values.cpp:355-379 | `<=`, which looks for one covering range per range, is inclusion of the sets of points for every coalesced right list |
| `Coalescing.FoundMeansEqual` | urb-core/source/cpp/liburb/source/values.cpp:323-352 | the search of `==` succeeds exactly when two coalesced lists cover the same points and have the same ranges behind one that ends at 2^64 - 1 |
| `Coalescing.EqualityMeans` | urb-core/source/cpp/liburb/source/values.cpp:323-352 | the same for any two lists before coalescing; without a range after the maximum `==` is equality of points |
| `Coalescing.EqualPointsNotFound` | urb-core/source/cpp/liburb/source/values.cpp:323-352 | 0 to 2^64 - 1 alone, and with any range inside it, cover the same points and do not compare equal |
| `Coalescing.EqualityIsExactFor` | urb-core/source/cpp/liburb/source/values.cpp:323-352 | `==` with one coalesced list is equality of points, whatever the other, exactly when no range of it ends at 2^64 - 1 and starts before |
| `Decoding.CheckRanges` | urb-core/source/cpp/liburb/source/resources.cpp:789-812 | the validation loop accepts a list of ranges exactly when each start is at most its end and no later start lies in an earlier range |
| `Decoding.AcceptedMeans` | urb-core/source/cpp/liburb/source/resources.cpp:789-812 | accepted are exactly the lists in which every range covers a point and no range covers the first point of a later one |
| `Decoding.CheckItems` | urb-core/source/cpp/liburb/source/resources.cpp:813-828 | the validation loop accepts set items exactly when they are distinct |
| `Decoding.CheckValue` | urb-core/source/cpp/liburb/source/resources.cpp:775-832 | the branches on the value type accept exactly the values that can be decoded |
| `Decoding.DecodedValues` | urb-core/source/cpp/liburb/source/resources.cpp:775-832 | the values that pass are exactly the well-formed ones of 64-bit points |
| `Decoding.OverlapCheckIsExact` | urb-core/source/cpp/liburb/source/resources.cpp:789-812 | disjoint ranges are always accepted; accepted ranges are disjoint exactly when none reaches back into an earlier one, so always when they come in ascending order |
| `Decoding.OverlapAccepted` | urb-core/source/cpp/liburb/source/resources.cpp:789-812 | the ranges 5-10 and 1-7, in this order, are accepted although they overlap |
| `Decoding.ComparisonsAreSets` | urb-core/source/cpp/liburb/source/values.cpp:323-379 | on any two lists, `<=` is the order of the modelled sets of points, and `==` their equality together with equal ranges behind the maximum |
| `Decoding.UnionIsConcat` | urb-core/source/cpp/liburb/source/values.cpp:382-402 | adding ranges, which coalesces both lists into one, is the union of the modelled sets |
| `ResourceModel.SourceEqIsIdentity` | urb-core/source/cpp/liburb/source/resources.cpp:169-187 | `==` on disk sources that hold the sub-message of their type is identity |
| `ResourceModel.SourceEqReversed` | urb-core/source/cpp/liburb/source/resources.cpp:169-187 | where `left == right` holds, `right == left` holds exactly when the right source has no root that the left one lacks |
| `ResourceModel.SourceEqNotSymmetric` | urb-core/source/cpp/liburb/source/resources.cpp:169-187 | two PATH sources with `left == right` but not `right == left` |
| `ResourceModel.ResourceEqIsNormal` | urb-core/source/cpp/liburb/source/resources.cpp:197-296 | `==` on resources is identity up to volume and persistence principal |
| `ResourceModel.KeysDecide` | urb-core/source/cpp/liburb/source/resources.cpp:309-472 | `subtractable` is equality of identity keys; `addable` is that together with being shared or neither MOUNT nor persistent |
| `Pool.CombineAdds` | urb-core/source/cpp/liburb/source/resources.cpp:1197-1213 | adding two addable entries adds their amounts under the common key |
| `Pool.DifferenceTakes` | urb-core/source/cpp/liburb/source/resources.cpp:1216-1232 | subtracting one entry from another is truncated subtraction of amounts; a negative or empty rest means nothing was left |
| `Pool.EntryIncludesMeans` | urb-core/source/cpp/liburb/source/resources.cpp:1177-1194 | one entry contains another exactly when they have one key and the amount is at most as large |
| `PoolMap.AddIsSum` | urb-core/source/cpp/liburb/source/resources.cpp:1991-2020 | for every key the quantity after `add` is the sum; no entry is empty and no two entries are addable |
| `PoolMap.SubtractIsTake` | urb-core/source/cpp/liburb/source/resources.cpp:2065-2112 | for every key the quantity after `subtract`, with its swap-and-pop removal, is the truncated difference; well-formedness is kept |
| `PoolMap.AddPlaces` | urb-core/source/cpp/liburb/source/resources.cpp:1991-2010 | `add` appends, or adds to the one entry of a key that can be merged, in its place |
| `PoolMap.SubtractPlaces` | urb-core/source/cpp/liburb/source/resources.cpp:2065-2112 | `subtract` takes from the first entry of the key in its place; when nothing is left the last entry moves there |
| `PoolMap.HoldsMeans` | urb-core/source/cpp/liburb/source/resources.cpp:1883-1892 | `_contains` of one entry is "at most what the pool has under its key" |
| `PoolMap.ContainsMeans` | urb-core/source/cpp/liburb/source/resources.cpp:1282-1300 | `contains`, which subtracts as it goes, holds exactly when each key covers what is asked, where non-persistent MOUNT disks are only asked to be there |
| `PoolLaws.AddAllIsSum` | urb-core/source/cpp/liburb/source/resources.cpp:2031-2038 | `+=` of pools is pointwise sum |
| `PoolLaws.SubtractAllIsTake` | urb-core/source/cpp/liburb/source/resources.cpp:2123-2130 | `-=` of pools is pointwise truncated difference |
| `PoolLaws.PoolEqMeans` | urb-core/source/cpp/liburb/source/resources.cpp:1955-1958 | `==` of pools holds exactly when every key has the same quantity, or, for non-persistent MOUNT disks, is present in both or in neither |
| `PoolLaws.PoolEqIsSameMap` | urb-core/source/cpp/liburb/source/resources.cpp:1955-1958 | without twin MOUNT disks `==` is equality of the maps from key to quantity |
| `PoolLaws.TwinMountsCompareEqual` | urb-core/source/cpp/liburb/source/resources.cpp:1282-1300 | a pool with one MOUNT disk and a pool with two equal ones compare equal |
| `PoolLaws.ContainsReflexive` | urb-core/source/cpp/liburb/source/resources.cpp:1282-1300 | every well-formed pool contains itself |
| `PoolLaws.ContainsTransitive` | urb-core/source/cpp/liburb/source/resources.cpp:1282-1300 | containment of pools is transitive |
| `PoolLaws.AdditionCommutes` | urb-core/source/cpp/liburb/source/resources.cpp:1983-2038 | `a + b == b + a` up to the code's own `==` |
| `PoolLaws.AdditionAssociates` | urb-core/source/cpp/liburb/source/resources.cpp:1983-2038 | `(a + b) + c == a + (b + c)` up to the code's own `==` |
| `PoolLaws.SubtractThenAdd` | urb-core/source/cpp/liburb/source/resources.cpp:2057-2130 | if `a` contains `b` then `(a - b) + b == a` |
| `ResourcesClass.Resources.Add` | urb-core/source/cpp/liburb/source/resources.cpp:1991-2020 | the loop over the entries that adds one entry in place |
| `ResourcesClass.Resources.Subtract` | urb-core/source/cpp/liburb/source/resources.cpp:2065-2112 | the loop that subtracts one entry in place, with swap-and-pop |
| `ResourcesClass.Resources.ContainsEntry` | urb-core/source/cpp/liburb/source/resources.cpp:1883-1892 | the search for a containing entry |
| `ResourcesClass.Resources.Contains` | urb-core/source/cpp/liburb/source/resources.cpp:1282-1300 | the loop that subtracts what it finds from a copy |
| `ResourcesClass.Resources.ContainsResource` | urb-core/source/cpp/liburb/source/resources.cpp:1303-1309 | containment of one validated resource |
| `ResourcesClass.Resources.Equals` | urb-core/source/cpp/liburb/source/resources.cpp:1955-1958 | containment both ways |
| `ResourcesClass.Resources.AddPool` | urb-core/source/cpp/liburb/source/resources.cpp:2031-2038 | adds every entry of another pool in place |
| `ResourcesClass.Resources.SubtractPool` | urb-core/source/cpp/liburb/source/resources.cpp:2123-2130 | subtracts every entry of another pool in place |
| `ResourcesClass.Resources.PopReservation` | urb-core/source/cpp/liburb/source/resources.cpp:1452-1463 | a new pool with the last reservation of every entry removed |
| `ResourcesClass.Resources.GetTotal` | urb-core/source/cpp/liburb/source/resources.cpp:1709-1772 | the loop that adds up all values of a name and type |
| `ResourcesClass.Resources.ToUnreserved` | urb-core/source/cpp/liburb/source/resources.cpp:1466-1476 | a new pool with all reservations removed |
| `ResourcesClass.Resources.Filter` | urb-core/source/cpp/liburb/source/resources.cpp:1344-1354 | a new pool of the entries that meet a predicate |
| `ResourcesClass.Resources.Reserve` | urb-core/source/cpp/liburb/source/resources.cpp:1542-1570 | one resource of a RESERVE, on a copy of the pool |
| `ResourcesClass.Resources.Unreserve` | urb-core/source/cpp/liburb/source/resources.cpp:1571-1599 | one resource of an UNRESERVE |
| `ResourcesClass.Resources.Create` | urb-core/source/cpp/liburb/source/resources.cpp:1600-1642 | one volume of a CREATE |
| `ResourcesClass.Resources.Destroy` | urb-core/source/cpp/liburb/source/resources.cpp:1643-1689 | one volume of a DESTROY |
| `ResourcesClass.Resources.Apply` | urb-core/source/cpp/liburb/source/resources.cpp:1529-1706 | an operation is applied, rejected, or aborts on a failed CHECK of the totals |
| `ResourcesClass.Resources.Scan` | urb-core/source/cpp/liburb/source/resources.cpp:1912-1934 | one predicate pass of `find` over the candidates, with its three ways on |
| `ResourcesClass.Resources.FindTarget` | urb-core/source/cpp/liburb/source/resources.cpp:1895-1937 | the three predicate passes of `find` |
| `ResourcesClass.ApplyCheckpointed` | urb-core/source/cpp/liburb/source/resources_utils.cpp:43-91 | the loop over the checkpointed resources |
| `Totals.GetMeasures` | urb-core/source/cpp/liburb/source/resources.cpp:1709-1772 | `get<T>(name)` is the total of the values of that name and type, or nothing when there is none |
| `Totals.InsertTotals` | urb-core/source/cpp/liburb/source/resources.cpp:1709-1772 | adding an entry adds its value to the total, unless it is one more copy of a shared resource |
| `Totals.SubtractTotals` | urb-core/source/cpp/liburb/source/resources.cpp:1709-1772 | subtracting a held entry takes its value from the total, unless copies of a shared resource remain |
| `Operations.StepIsMove` | urb-core/source/cpp/liburb/source/resources.cpp:1542-1689 | a successful RESERVE, UNRESERVE, CREATE or DESTROY of one resource moves its amount from one key to another that the pool holds |
| `Outcomes.HoldsNothing` | urb-core/source/cpp/liburb/source/resources.cpp:1883-1892 | an empty resource is contained exactly when it is no exclusive disk or shared resource and the pool has something under its key |
| `Outcomes.StepOutcome` | urb-core/source/cpp/liburb/source/resources.cpp:1542-1689 | RESERVE and UNRESERVE of one resource succeed exactly when its last reservation is dynamic and the amount is there under the lowered or its own key (RESERVE of nothing always); CREATE exactly for a persistent volume whose plain disk space is there; DESTROY exactly when there is one copy; then the amount moves to the other key and nothing else changes |
| `Outcomes.StepsOutcome` | urb-core/source/cpp/liburb/source/resources.cpp:1542-1689 | the resources of an operation all succeed exactly when each is enabled on the map that those before it left, and the result is that map |
| `Outcomes.ChecksMean` | urb-core/source/cpp/liburb/source/resources.cpp:1700-1708 | the sanity checks compare the totals of cpus, gpus and ports, and those of mem and disk in whole megabytes and in being there at all |
| `Outcomes.ApplyOutcome` | urb-core/source/cpp/liburb/source/resources.cpp:1529-1711 | LAUNCH and LAUNCH_GROUP are applied and change nothing; UNKNOWN and invalid operands are errors; a change is an error exactly when one of its steps is not enabled, and otherwise gives the moved map unless a checked total differs |
| `Operations.MoveQty` | urb-core/source/cpp/liburb/source/resources.cpp:1542-1689 | for every key the quantity after such a move, and well-formedness |
| `Conservation.StepConserves` | urb-core/source/cpp/liburb/source/resources.cpp:1542-1689 | one step conserves every total exactly when it is balanced: copies of shared resources leave the pool just when they enter it |
| `Conservation.UnsharedIsBalanced` | urb-core/source/cpp/liburb/source/resources.cpp:1542-1689 | non-shared RESERVE and UNRESERVE operands, and shared volumes created while absent, are balanced |
| `Conservation.ApplyConserves` | urb-core/source/cpp/liburb/source/resources.cpp:1529-1706 | a balanced operation never fails a CHECK, and conserves every total when it is applied |
| `Conservation.RunConserves` | urb-core/source/cpp/liburb/mesos/include/mesos/resources.hpp:466-481 | over every balanced sequence of operations no CHECK fails and every total is conserved |
| `Conservation.UnsharedRunConserves` | urb-core/source/cpp/liburb/mesos/include/mesos/resources.hpp:466-481 | the same for every sequence of operations with the conditions a caller can check |
| `RoundTrips.ReserveThenUnreserve` | urb-core/source/cpp/liburb/source/resources.cpp:1542-1599 | UNRESERVE after RESERVE succeeds and gives back a pool `==` to the first exactly when the points or names were not already held under the reserved key |
| `RoundTrips.HeldTwiceIsLost` | urb-core/source/cpp/liburb/source/resources.cpp:1542-1599 | ports held both unreserved and reserved: RESERVE and UNRESERVE succeed and the pool does not come back |
| `RoundTrips.CreateThenDestroy` | urb-core/source/cpp/liburb/source/resources.cpp:1600-1689 | DESTROY after CREATE succeeds exactly when the volume was not there before, and then gives back a pool `==` to the first |
| `RoundTrips.CreateSharedTwiceAborts` | urb-core/source/cpp/liburb/source/resources.cpp:1600-1642 | in any pool, creating a shared volume of a megabyte or more that is already there fails a CHECK |
| `RoundTrips.SharedVolumeCanBeCreatedTwice` | urb-core/source/cpp/liburb/source/resources.cpp:1600-1642 | there are pools in which that happens |
| `Find.FilterSelects` | urb-core/source/cpp/liburb/source/resources.cpp:1344-1354 | a filtered pool holds exactly the accepted entries, in order; which these are for the three predicates of `find`: `FindOrder.FindIsStaged` |
| `FindProof.ScanKeeps` | urb-core/source/cpp/liburb/source/resources.cpp:1912-1934 | each predicate pass keeps found + total == pool and found + remaining == target on unreserved keys |
| `FindProof.FindIsSound` | urb-core/source/cpp/liburb/source/resources.cpp:1895-1937 | in a pool whose entries are all valid, what `find` returns for a target that is not shared is contained in the pool and, with reservations cleared, equals the target |
| `FindOrder.FindIsStaged` | urb-core/source/cpp/liburb/source/resources.cpp:1895-1937 | which entries `find` takes: the first that serves whose last reservation has the role of the target, then the first unreserved, then the first of any role; one that covers what is wanted ends the search with its reservations, another is used up; nothing is found exactly when three choices leave something wanting |
| `FindOrder.FindPrefers` | urb-core/source/cpp/liburb/source/resources.cpp:1895-1937 | a target comes whole from its own role if the first entry there covers it; when none of its role serves, from unreserved resources; when none of them serves, from any role; when nothing serves there is no result |
| `FindOrder.ScalarFallsShort` | urb-core/source/cpp/liburb/source/resources.cpp:1895-1937 | a scalar is not found exactly when the three choices together are less than it |
| `FindOrder.NothingIsFound` | urb-core/source/cpp/liburb/source/resources.cpp:1895-1937 | an empty target is found, as nothing, in every pool but the empty one |
| `FindOrder.UnitIsFound` | urb-core/source/cpp/liburb/source/resources.cpp:1895-1937 | a shared resource or an exclusive disk is found exactly when the pool has one in whatever role, and comes from one entry |
| `FindOrder.FoundIsContained` | urb-core/source/cpp/liburb/source/resources.cpp:1895-1937 | what `find` returns is contained in the pool and equals the target once reservations are cleared, for shared targets too |
| `FindRuns.CollectedIsSound` | urb-core/source/cpp/liburb/source/resources.cpp:1257-1279 | every entry of a pool built from resource messages is valid, since invalid ones are skipped |
| `FindRuns.StepKeepsSound` | urb-core/source/cpp/liburb/source/resources.cpp:1542-1689 | a step keeps all entries valid exactly unless it unreserves a non-empty stack of two reservations whose first is UNKNOWN |
| `FindRuns.RunKeepsSound` | urb-core/source/cpp/liburb/mesos/include/mesos/resources.hpp:466-481 | a sequence of applied operations goes through pools of valid entries exactly when no operand is such a stack |
| `FindRuns.FindAfterRun` | urb-core/source/cpp/liburb/source/resources.cpp:1895-1937 | what `find` returns, for any valid target, in every pool that such a sequence leads to |
| `FindRuns.UnreserveSpoils` | urb-core/source/cpp/liburb/source/resources.cpp:1571-1599 | an UNRESERVE that leaves an entry which fails validation |
| `FindRuns.FindOnSpoiledPool` | urb-core/source/cpp/liburb/source/resources.cpp:1895-1937 | in that pool `find` returns the invalid entry along with the target, and more than was asked for |
| `Checkpoint.StrippedIsPlain` | urb-core/source/cpp/liburb/source/resources_utils.cpp:26-30 | a stripped resource is valid, keeps name and value, and never needs checkpointing itself |
| `CheckpointOutcome.OriginMeans` | urb-core/source/cpp/liburb/source/resources_utils.cpp:53-78 | the key that a replay takes from: the first reservation alone when that is static and the last one dynamic, none when the first is not static, otherwise all; no persistence, the same source, never shared |
| `CheckpointOutcome.ReplayOneOutcome` | urb-core/source/cpp/liburb/source/resources_utils.cpp:48-85 | one resource is replayed exactly when it is dynamically reserved or a persistent volume and its amount is there under that key, from which it moves to its own |
| `CheckpointOutcome.ReplayOutcome` | urb-core/source/cpp/liburb/source/resources_utils.cpp:44-88 | a whole replay succeeds exactly when everything belongs in a checkpoint and under every key the agent has what all resources together take: counts up to the sum, points and names each once; these keys then have lost just that |
| `Checkpoint.ReplayQty` | urb-core/source/cpp/liburb/source/resources_utils.cpp:43-91 | replaying adds the checkpointed amounts under the keys that need checkpointing |
| `Checkpoint.ReplayContains` | urb-core/source/cpp/liburb/source/resources_utils.cpp:43-91 | after a successful replay the pool contains every checkpointed resource |
| `Checkpoint.ReplayConserves` | urb-core/source/cpp/liburb/source/resources_utils.cpp:43-91 | a successful replay conserves every total |
| `CheckpointOrder.StepsCommute` | urb-core/source/cpp/liburb/source/resources_utils.cpp:43-91 | two checkpointed resources can be replayed in either order: same success, same quantities |
| `CheckpointOrder.ReplayPermutes` | urb-core/source/cpp/liburb/source/resources_utils.cpp:43-91 | success and the resulting quantities do not depend on the order of the checkpoint |
| `CheckpointOrder.AgentReplay` | urb-core/source/cpp/liburb/source/resources_utils.cpp:43-91 | for an agent pool without shared entries: order-independent success, results `==`, totals conserved, every checkpointed resource contained |
| `Roles.SubroleTransitive` | urb-core/source/cpp/liburb/source/roles.cpp:35-41 | strict subrole is transitive |
| `Roles.SubroleMeans` | urb-core/source/cpp/liburb/source/roles.cpp:35-41 | a strict subrole is the role, a slash and anything |
| `Roles.ComponentMeans` | urb-core/source/cpp/liburb/source/roles.cpp:71-127 | a non-empty component is valid exactly when it is not `.`, `..` or `*`, does not start with a dash, and holds no character with code 9 to 13, 32 or 127 |
| `Roles.ValidRoleMeans` | urb-core/source/cpp/liburb/source/roles.cpp:71-127 | a role is valid exactly when it is `*` or all pieces between its slashes are such names |
| `Roles.ComponentsAreNonEmpty` | urb-core/source/cpp/liburb/source/roles.cpp:90-100 | the CHECK on components never fails: tokenizing yields no empty one |
| `Validation.StackDescends` | urb-core/source/cpp/liburb/source/resources.cpp:922-945 | in a valid reservation stack every later role is a strict subrole of every earlier one |
| `Faults.Validate` | urb-core/source/cpp/liburb/source/resources.cpp:769-1030 | the first fault found, in the order of the checks, and none exactly for a valid resource |
| `Faults.ValidMeans` | urb-core/source/cpp/liburb/source/resources.cpp:769-1030 | a resource is valid exactly when it shows none of the 25 faults, each stated on the fields |
| `Validation.PopIsUsable` | urb-core/source/cpp/liburb/source/resources.cpp:769-1030 | removing the last reservation of a valid resource leaves a valid one exactly unless it was the second on an UNKNOWN one |
| `Validation.UnknownIsExposed` | urb-core/source/cpp/liburb/source/resources.cpp:994-996 | a stack of an UNKNOWN and a DYNAMIC reservation is valid, and no longer after it is popped |
| `Validation.StripVolumeIsUsable` | urb-core/source/cpp/liburb/source/resources.cpp:769-1030 | removing persistence and volume of a valid resource leaves a valid resource |
| `Format.ConvertToPost` | urb-core/source/cpp/liburb/source/resources_utils.cpp:94-176 | every valid resource converts to the post-refinement format and stays valid |
| `Format.ConvertChecks` | urb-core/source/cpp/liburb/source/resources_utils.cpp:94-176 | for which resources a CHECK fails, and that a conversion changes only role, reservation and reservations |
| `Format.OldFieldsMean` | urb-core/source/cpp/liburb/source/resources_utils.cpp:97-137 | what role and reservation say afterwards: `*` for no reservation, role, principal and labels of a single one, nothing for refined ones; the list is kept for endpoints |
| `Format.NewFieldMeans` | urb-core/source/cpp/liburb/source/resources_utils.cpp:138-176 | what the list says afterwards: the same list, nothing for `*`, or one static or dynamic reservation with role, principal and labels |
| `Format.EndpointRoundTrip` | urb-core/source/cpp/liburb/source/resources_utils.cpp:94-176 | post to endpoint to post is the identity on valid resources |
| `Format.PreRoundTrip` | urb-core/source/cpp/liburb/source/resources_utils.cpp:94-176 | post to pre succeeds exactly for at most one reservation, and back is the identity exactly when a STATIC one has no principal and no labels |
| `Format.ResourceCell.ConvertFormat` | urb-core/source/cpp/liburb/source/resources_utils.cpp:94-176 | the in-place edits of one resource message |
| `Format.ConvertArray` | urb-core/source/cpp/liburb/source/resources_utils.cpp:179-196 | conversion of a list, element by element in place |
| `Format.Downgrade` | urb-core/source/cpp/liburb/source/resources_utils.cpp:411-429 | succeeds exactly when no resource has refined reservations; otherwise the list is untouched |
| `Format.OfferCell.ValidateAndNormalize` | urb-core/source/cpp/liburb/source/resources_utils.cpp:199-408 | succeeds exactly when every resource list of the operation is valid; then all are converted; on error the operation is untouched |
| `Format.NormalizedIsValidPost` | urb-core/source/cpp/liburb/source/resources_utils.cpp:199-408 | after normalization every resource is valid and in post-refinement format |
| `Strings.SplitLoop` | urb-core/source/cpp/3rdparty/stout/strings.hpp:183-211 | the loop computes the pieces between delimiters, at most a given number |
| `Strings.TokenizeLoop` | urb-core/source/cpp/3rdparty/stout/strings.hpp:138-166 | the loop computes the non-empty pieces between delimiters |
| `Strings.JoinLoop` | urb-core/source/cpp/3rdparty/stout/strings.hpp:344-357 | the loop computes the parts with the separator between them |
| `Strings.TokensAreClean` | urb-core/source/cpp/3rdparty/stout/strings.hpp:138-166 | tokens are non-empty and free of delimiters |
| `Tokens.TokensArePieces` | urb-core/source/cpp/3rdparty/stout/strings.hpp:138-166 | tokens are the non-empty pieces of a split, in order |
| `Strings.PiecesAreClean` | urb-core/source/cpp/3rdparty/stout/strings.hpp:183-212 | pieces hold no delimiter, unless a limit cut the split short, and are at most as many as the limit |
| `Strings.JoinSplit` | urb-core/source/cpp/3rdparty/stout/strings.hpp:183-211 | joining the pieces of a split, limited or not, gives the string back |
| `Strings.SplitJoin` | urb-core/source/cpp/3rdparty/stout/strings.hpp:344-357 | splitting a join of delimiter-free parts gives the parts back |
| `RecordIO.Decoder.Decode` | urb-core/source/cpp/3rdparty/stout/recordio.hpp:100-151 | the loop over the characters: new state and returned records as a function of old state and data; the CHECKs of the RECORD state hold |
| `RecordIO.Decoder.DecodeAll` | urb-core/source/cpp/3rdparty/stout/recordio.hpp:100-151 | a caller that passes chunks on one by one gets exactly the records of `Returned` |
| `RecordIO.ChunkingIsIrrelevant` | urb-core/source/cpp/3rdparty/stout/recordio.hpp:100-151 | the state, and the records completed, depend only on the bytes, not on how they are cut into chunks |
| `RecordIO.ReturnedAndLost` | urb-core/source/cpp/3rdparty/stout/recordio.hpp:100-151 | what is completed is what the calls return, followed by what the failing call loses |
| `RecordIO.ReturnedIsComplete` | urb-core/source/cpp/3rdparty/stout/recordio.hpp:100-151 | the calls return every completed record exactly when the chunk in which the decoder fails, if any, completes none |
| `RecordIO.StaysFailed` | urb-core/source/cpp/3rdparty/stout/recordio.hpp:100-151 | a failed decoder stays failed and returns nothing |
| `RecordIO.RunIsSane` | urb-core/source/cpp/3rdparty/stout/recordio.hpp:100-151 | in the RECORD state a length is set and the buffer is shorter, on every byte stream |
| `RecordIO.ReadsAll` | urb-core/source/cpp/3rdparty/stout/recordio.hpp:66-151 | decoding the encoding of any records gives them back and ends in HEADER with an empty buffer |
| `RecordIO.DecodesWhatWasEncoded` | urb-core/source/cpp/3rdparty/stout/recordio.hpp:66-151 | the calls return all values that were encoded, however the stream is cut into chunks |
| `RecordIO.Decoder.Feed` | urb-core/source/cpp/3rdparty/stout/recordio.hpp:109-147 | one character extends or ends the header or the record |
| `RecordIO.FailureDropsRecords` | urb-core/source/cpp/3rdparty/stout/recordio.hpp:100-151 | a bad header in the same chunk takes all records before it along, in a chunk of its own none |
| `Decimals.DecimalRoundTrip` | urb-core/source/cpp/3rdparty/stout/recordio.hpp:66-70 | the printed length reads back as the length |
| `Base64.EncodeLoop` | urb-core/source/cpp/3rdparty/stout/base64.hpp:43-89 | the buffered loop computes the groups of four characters and the padding |
| `Base64.DecodeLoop` | urb-core/source/cpp/3rdparty/stout/base64.hpp:92-148 | the buffered loop computes the bytes up to the padding, or fails at the first foreign character |
| `Base64.DecodeEncode` | urb-core/source/cpp/3rdparty/stout/base64.hpp:43-148 | decoding undoes encoding for every byte string and alphabet, padded or not |
| `Base64.EncodedLength` | urb-core/source/cpp/3rdparty/stout/base64.hpp:43-89 | the encoded length is a closed form of the input length |
| `Base64Bits.EncodeMeans` | urb-core/source/cpp/3rdparty/stout/base64.hpp:43-89 | the characters are the bits of the bytes in sixes, the last one filled up with zeros, and only padding follows, up to a group of four |
| `Base64Bits.DecodeMeans` | urb-core/source/cpp/3rdparty/stout/base64.hpp:92-148 | a text decodes exactly when all before its first padding character is in the alphabet, to the bits of these characters cut off at a whole byte |
| `Base64Bits.AlphabetTable` | urb-core/source/cpp/3rdparty/stout/base64.hpp:32-40 | both alphabets by position: upper case, lower case, digits, and `+` `/` or `-` `_` |
| `Base64.AlphabetsAreAlphabets` | urb-core/source/cpp/3rdparty/stout/base64.hpp:32-40 | both alphabets have 64 distinct characters that the decoder accepts |
| `Base64.AlphabetRoundTrips` | urb-core/source/cpp/3rdparty/stout/base64.hpp:159-201 | the standard and the URL-safe functions undo each other |
| `Version.LessLoop` | urb-core/source/cpp/3rdparty/stout/version.hpp:198-257 | the comparison loop decides precedence on what identifiers stand for |
| `Version.LessMeans` | urb-core/source/cpp/3rdparty/stout/version.hpp:198-257 | major, minor and patch in turn; then a prerelease before its release; then the first identifier that differs, where numbers come in order and before other identifiers, these by character code, and a longer label later |
| `Version.BeforeIsOrdered` | urb-core/source/cpp/3rdparty/stout/version.hpp:198-257 | precedence is irreflexive, asymmetric and total |
| `Version.BeforeIsTransitive` | urb-core/source/cpp/3rdparty/stout/version.hpp:198-257 | precedence is transitive |
| `Version.LessIsStrictWeakOrder` | urb-core/source/cpp/3rdparty/stout/version.hpp:198-257 | `<` is a strict weak order for any test of numeric identifiers, and ignores build labels |
| `Version.IncomparableMeans` | urb-core/source/cpp/3rdparty/stout/version.hpp:198-257 | two versions are incomparable exactly when they have the same numbers and labels that differ only in spelling equal numbers |
| `Version.LessOrEqualIsTotal` | urb-core/source/cpp/3rdparty/stout/version.hpp:264-272 | `<=` or `>=` holds exactly unless the labels are two spellings of the same numbers |
| `Version.LeadingZerosTie` | urb-core/source/cpp/3rdparty/stout/version.hpp:198-267 | 1.0.0-1 and 1.0.0-01 are neither equal nor ordered |
| `Version.ParseLabelLoop` | urb-core/source/cpp/3rdparty/stout/version.hpp:313-329 | a label is its dot-separated identifiers, all valid, or an error |
| `Version.ParseLoop` | urb-core/source/cpp/3rdparty/stout/version.hpp:58-131 | the parser fills in the three numbers step by step |
| `Version.ParsePrint` | urb-core/source/cpp/3rdparty/stout/version.hpp:58-364 | parsing a printed version gives back all five fields |
| `Version.ParsedText` | urb-core/source/cpp/3rdparty/stout/version.hpp:58-131 | what parses is one to three numbers, missing ones zero, with valid labels in their places |
| `Version.SameVersionMeans` | urb-core/source/cpp/3rdparty/stout/version.hpp:158-166 | `==` compares everything but the build label |
| `Version.IdentifiersAreWords` | urb-core/source/cpp/3rdparty/stout/version.hpp:289-310 | valid labels are exactly those of non-empty words of letters, digits and dashes |
| `Version.ParseMeans` | urb-core/source/cpp/3rdparty/stout/version.hpp:58-131 | a text parses to a version exactly when it is one to three numbers without `.`, `-` and `+` that are read, then its prerelease and build label |
| `Json.ObjectContains` | urb-core/source/cpp/3rdparty/stout/json.hpp:468-502 | the size comparison never changes the answer: objects are contained key by key |
| `Json.ContainsReflexive` | urb-core/source/cpp/3rdparty/stout/json.hpp:462-608 | every value contains itself |
| `Json.ContainsTransitive` | urb-core/source/cpp/3rdparty/stout/json.hpp:462-608 | containment carries over through a tree, whatever stands on either side, exactly when every double in it is the conversion of at most one 64-bit integer |
| `Json.SmallTransitive` | urb-core/source/cpp/3rdparty/stout/json.hpp:462-608 | so it does through trees of integers, signed and unsigned mixed, and of doubles below 2^53 |
| `Json.DoublesBreakTransitivity` | urb-core/source/cpp/3rdparty/stout/json.hpp:514-566 | 2^53 + 1 contains the double 2^53, which contains 2^53, which the first does not contain |
| `JsonPaths.ContainsMeans` | urb-core/source/cpp/3rdparty/stout/json.hpp:462-608 | one tree contains another exactly when it reaches every place of the other and has the same kind of value there, a list of the same length, an equal leaf |
| `JsonPaths.EqualPlaces` | urb-core/source/cpp/3rdparty/stout/json.hpp:611-663 | two trees are equal exactly when they reach the same places and agree at each |
| `JsonPaths.ContainsIsDeletion` | urb-core/source/cpp/3rdparty/stout/json.hpp:462-608 | one tree contains another exactly when some deletion of object entries, at any depth, leaves a tree equal to it |
| `JsonPaths.IntegerDeletion` | urb-core/source/cpp/3rdparty/stout/json.hpp:462-608 | on trees of integers what is left is the other tree itself, up to signed or unsigned storage |
| `JsonPaths.NumberEqMeans` | urb-core/source/cpp/3rdparty/stout/json.hpp:514-566 | integers are equal as numbers whichever type stores them; a double equals the integers it is the nearest double of |
| `Doubles.NearestDouble` | urb-core/source/cpp/3rdparty/stout/json.hpp:115-132 | the double of an integer is a double that no other double is nearer than, and below 2^53 the integer itself |
| `Doubles.TiesToEven` | urb-core/source/cpp/3rdparty/stout/json.hpp:115-132 | of two equally near doubles the one with the even significand is taken |
| `Json.MutualIsEqual` | urb-core/source/cpp/3rdparty/stout/json.hpp:611-663 | mutual containment holds exactly when `==` does |
| `Json.EqualMeans` | urb-core/source/cpp/3rdparty/stout/json.hpp:611-663 | on trees of integers `==` is identity up to signed or unsigned storage |
| `Protobuf.ObjectIsTyped` | urb-core/source/cpp/3rdparty/stout/protobuf.hpp:394-601 | whatever an object parses to has the message type |
| `Protobuf.MessageRoundTrip` | urb-core/source/cpp/3rdparty/stout/protobuf.hpp:839-1000 | the JSON of a message parses to the message with defaults made explicit |
| `Protobuf.ParseToJson` | urb-core/source/cpp/3rdparty/stout/protobuf.hpp:607-634 | the same for the whole parse: an initialized message comes back with its unset, defaulted, non-deprecated fields set; one that still lacks a required field is refused |
| `Protobuf.ExplicitKeeps` | urb-core/source/cpp/3rdparty/stout/protobuf.hpp:839-1000 | making defaults explicit keeps type and initialization and does not change the JSON |
| `Protobuf.PruneObject` | urb-core/source/cpp/3rdparty/stout/protobuf.hpp:394-601 | dropping unknown keys and nulls at every depth never changes a parse |
| `ProtobufFields.NumberInIntField` | urb-core/source/cpp/3rdparty/stout/protobuf.hpp:487-520 | an integer field gets the number if its range holds it, whichever integer type stores it, and of a double the part towards zero; otherwise the low bits |
| `ProtobufFields.NumberInDoubleField` | urb-core/source/cpp/3rdparty/stout/protobuf.hpp:474-479 | a double field gets a double as it is and of an integer a nearest double, which below 2^53 is the integer |
| `ProtobufFields.ValueInField` | urb-core/source/cpp/3rdparty/stout/protobuf.hpp:403-575 | what null, text, truth values, numbers and objects set in fields of the types that take them; enumerations by name, bytes from Base64 |
| `ProtobufFields.MisfitsFail` | urb-core/source/cpp/3rdparty/stout/protobuf.hpp:403-566 | text, numbers, truth values and objects fail for fields of other types, and lists for fields that are not repeated |
| `ProtobufFields.ListInField` | urb-core/source/cpp/3rdparty/stout/protobuf.hpp:528-546 | a list fails exactly with one of its elements, and adds what they add in order |
| `ProtobufFields.ObjectParsed` | urb-core/source/cpp/3rdparty/stout/protobuf.hpp:580-601 | an object fails exactly with one value of a known key, and sets exactly the known keys that have values |
| `ProtobufFields.ParseChecksRequired` | urb-core/source/cpp/3rdparty/stout/protobuf.hpp:607-634 | a parsed message is refused exactly when it, or a message at any depth inside it, lacks a required field |
| `ProtobufFields.ScalarPrinted` | urb-core/source/cpp/3rdparty/stout/protobuf.hpp:865-1000 | how each scalar type is printed |
| `ProtobufFields.MessagePrinted` | urb-core/source/cpp/3rdparty/stout/protobuf.hpp:839-1000 | the printed keys are exactly the set fields and the unset ones with a default that are not deprecated, each with its value or values |
| `ProtobufLoops.Print` | urb-core/source/cpp/3rdparty/stout/protobuf.hpp:839-1000 | the two loops of `JSON::protobuf` compute the JSON of a message |
| `ProtobufLoops.Builder.ParseObject` | urb-core/source/cpp/3rdparty/stout/protobuf.hpp:578-601 | filling a message in place gives the same message whatever the order of the keys |
| `ProtobufLoops.Builder.ParseInto` | urb-core/source/cpp/3rdparty/stout/protobuf.hpp:394-575 | the visitor sets or adds exactly the values of one JSON value |
| `ProtobufLoops.Builder.ParseElements` | urb-core/source/cpp/3rdparty/stout/protobuf.hpp:528-546 | an array adds its elements in order; nested arrays are flattened |
| `ProtobufLoops.ParseMessage` | urb-core/source/cpp/3rdparty/stout/protobuf.hpp:607-634 | an object is parsed and the required fields are checked at the end |
| `LinkedMap.RemoveIsWithout` | urb-core/source/cpp/3rdparty/stout/linkedhashmap.hpp:73-82 | erasing a key keeps exactly the other entries, in order |
| `LinkedMap.LookupAfter` | urb-core/source/cpp/3rdparty/stout/linkedhashmap.hpp:36-82 | what is found under any key after an assignment or an erasure |
| `LinkedMap.OrderOfInsertion` | urb-core/source/cpp/3rdparty/stout/linkedhashmap.hpp:23-48 | updating a key keeps its place, a new key comes last |
| `LinkedMap.LinkedHashMap.Touch` | urb-core/source/cpp/3rdparty/stout/linkedhashmap.hpp:36-48 | reading through `operator[]` inserts a missing key with a default value |
| `LinkedMap.LinkedHashMap.Set` | urb-core/source/cpp/3rdparty/stout/linkedhashmap.hpp:36-48 | assignment through `operator[]` |
| `LinkedMap.LinkedHashMap.Get` | urb-core/source/cpp/3rdparty/stout/linkedhashmap.hpp:50-56 | lookup without insertion |
| `LinkedMap.LinkedHashMap.Contains` | urb-core/source/cpp/3rdparty/stout/linkedhashmap.hpp:68-71 | membership |
| `LinkedMap.LinkedHashMap.Erase` | urb-core/source/cpp/3rdparty/stout/linkedhashmap.hpp:73-82 | erasure through the stored iterator |
| `LinkedMap.LinkedHashMap.Keys` | urb-core/source/cpp/3rdparty/stout/linkedhashmap.hpp:85-94 | keys in insertion order |
| `LinkedMap.LinkedHashMap.Values` | urb-core/source/cpp/3rdparty/stout/linkedhashmap.hpp:97-106 | values in insertion order |
| `Executor.RunAgrees` | urb-core/source/cpp/liburb/source/executor_process.cpp:302-549 | after every run the record is the updates sent and not acknowledged, in send order, and the tasks launched and not finished, in launch order |
| `Executor.ReconnectMeans` | urb-core/source/cpp/liburb/source/executor_process.cpp:349-378 | after every run a reconnect sends exactly those two lists |
| `ExecutorMessages.RunSends` | urb-core/source/cpp/liburb/source/executor_process.cpp:302-549 | the messages of every run: each update but TASK_STAGING as it is, and on a reconnect before an abort the pending updates and launched tasks |
| `Executor.OwnTask` | urb-core/source/cpp/liburb/source/executor_process.cpp:415-448 | when acknowledgements name their own task, a task is removed exactly by the acknowledgement of its TASK_FINISHED update |
| `Executor.UnknownUuid` | urb-core/source/cpp/liburb/source/executor_process.cpp:415-448 | the acknowledgement of an unknown uuid changes nothing |
| `ExecutorProcess.UrbExecutorProcess.RegisteredHandler` | urb-core/source/cpp/liburb/source/executor_process.cpp:302-321 | connects unless aborted |
| `ExecutorProcess.UrbExecutorProcess.ReregisteredHandler` | urb-core/source/cpp/liburb/source/executor_process.cpp:334-347 | connects unless aborted |
| `ExecutorProcess.UrbExecutorProcess.ReconnectHandler` | urb-core/source/cpp/liburb/source/executor_process.cpp:349-378 | sends the recorded updates and tasks unless aborted |
| `ExecutorProcess.UrbExecutorProcess.RunTaskHandler` | urb-core/source/cpp/liburb/source/executor_process.cpp:380-401 | records a new task when connected and not aborted; a duplicate fails the CHECK and changes nothing |
| `ExecutorProcess.UrbExecutorProcess.AcknowledgementHandler` | urb-core/source/cpp/liburb/source/executor_process.cpp:415-448 | drops the update and, only for TASK_FINISHED, the named task |
| `ExecutorProcess.UrbExecutorProcess.SendStatusUpdate` | urb-core/source/cpp/liburb/source/executor_process.cpp:517-549 | records and sends an update; TASK_STAGING aborts instead |
| `ExecutorProcess.UrbExecutorProcess.ShutdownHandler` | urb-core/source/cpp/liburb/source/executor_process.cpp:468-502 | marks the process aborted |
| `ExecutorProcess.UrbExecutorProcess.AbortHandler` | urb-core/source/cpp/liburb/source/executor_process.cpp:510-515 | marks the process aborted |
| `Timers.TakeMeans` | urb-core/source/cpp/liburb/source/evhelper.cpp:45-51 | a tick takes out exactly the due entries, by fire time and then insertion, and leaves exactly the later ones |
| `Timers.StepKeeps` | urb-core/source/cpp/liburb/source/evhelper.cpp:32-70 | every interleaved step keeps the invariant of map, callbacks, flags and log |
| `Timers.EveryRun` | urb-core/source/cpp/liburb/source/evhelper.cpp:32-70 | over every run an entry executes at most once and not before its fire time, and no active entry is lost |
| `Timers.InactiveNeverRuns` | urb-core/source/cpp/liburb/source/timer.hpp:65-81 | an entry whose flag was cleared is never executed afterwards, whatever follows |
| `Timers.DrainMeans` | urb-core/source/cpp/liburb/source/evhelper.cpp:57-67 | the callback loop executes the active ones of its entries, in order |
| `TimerRuns.TickOrder` | urb-core/source/cpp/liburb/source/evhelper.cpp:32-70 | between two ticks, whatever interferes, only entries the tick took out execute, by fire time and then insertion |
| `TimerRuns.CancelMeans` | urb-core/source/cpp/liburb/source/timer.hpp:76-81 | after a cancel no continuation without a new delay executes anything of the timer, exactly when no earlier entry could still execute |
| `TimerRuns.CancelStops` | urb-core/source/cpp/liburb/source/timer.hpp:40-81 | if a timer was delayed only after its last entry had executed or been cancelled, a cancel stops it |
| `TimerRuns.DisableStops` | urb-core/source/cpp/liburb/source/evhelper.cpp:37-41 | once the loop is disabled, in every run only entries that a tick had already taken out still execute |
| `Timers.DelayedTwiceStillRuns` | urb-core/source/cpp/liburb/source/timer.hpp:40-81 | a timer delayed twice and then cancelled still runs once |
| `EventLoop.EvHelper.ScheduleTimer` | urb-core/source/cpp/liburb/source/evhelper.cpp:170-183 | an entry is appended to the list of its fire time, which is created when missing |
| `EventLoop.EvHelper.Delay` | urb-core/source/cpp/liburb/source/timer.hpp:40-63 | every delay makes a new active entry and schedules it |
| `EventLoop.EvHelper.Cancel` | urb-core/source/cpp/liburb/source/timer.hpp:76-81 | clears the flag of the latest entry |
| `EventLoop.EvHelper.TakeDue` | urb-core/source/cpp/liburb/source/evhelper.cpp:33-56 | takes the due lists out, unless disabled, and computes the next timeout, which is positive |
| `EventLoop.EvHelper.ExecuteNext` | urb-core/source/cpp/liburb/source/timer.hpp:65-74 | executes one entry if it is still active, and clears its flag |
| `EventLoop.EvHelper.Shutdown` | urb-core/source/cpp/liburb/source/evhelper.cpp:189-191 | disables the loop and changes nothing else |
| `EventLoop.EvHelper.TimeoutCb` | urb-core/source/cpp/liburb/source/evhelper.cpp:32-70 | a whole tick without interference: log and remaining map |
| `Cache.RunIsLru` | urb-core/source/cpp/3rdparty/stout/cache.hpp:49-129 | after every run the keys are distinct, at most capacity many, ordered by last use, each with the value last put |
| `Cache.HitIsLatest` | urb-core/source/cpp/3rdparty/stout/cache.hpp:60-70 | a lookup misses or answers with the value last put |
| `Cache.Retained` | urb-core/source/cpp/3rdparty/stout/cache.hpp:49-129 | a key put or hit, and not erased since, is found with the value last put while fewer than capacity other keys were put or hit |
| `Cache.EvictsLeastRecent` | urb-core/source/cpp/3rdparty/stout/cache.hpp:99-129 | putting a new key into a full cache removes the key used longest ago and no other |
| `Cache.Cache.Put` | urb-core/source/cpp/3rdparty/stout/cache.hpp:49-58 | writes and uses a key; list and map stay linked |
| `Cache.Cache.Get` | urb-core/source/cpp/3rdparty/stout/cache.hpp:60-70 | answers and uses a key |
| `Cache.Cache.Erase` | urb-core/source/cpp/3rdparty/stout/cache.hpp:72-84 | removes a key and answers its value |
| `Cache.Cache.Insert` | urb-core/source/cpp/3rdparty/stout/cache.hpp:99-110 | inserts a new key, evicting first when full |
| `Cache.Cache.Use` | urb-core/source/cpp/3rdparty/stout/cache.hpp:113-120 | moves a key to the end and renews its iterator |
| `Cache.Cache.Evict` | urb-core/source/cpp/3rdparty/stout/cache.hpp:123-129 | removes the key at the front from list and map |
| `Processes.Children` | urb-core/source/cpp/3rdparty/stout/os.hpp:211-237 | terminates, also on cycles, with exactly the pids reachable in one or more steps, or exactly the direct children |
| `Processes.Search` | urb-core/source/cpp/3rdparty/stout/os.hpp:226-233 | one parent: its children not seen before are recorded and queued |

## Left out

- Values.OperatorsMeasure: scalars are integers in thousandths; the rounding of doubles to three decimals is not modelled.
- Ranges that end at 2^64 - 1 in pools: values hold sets of points, which differs from the code where coalescing leaves a range behind such a one.
- ResourceModel.KeysDecide: disk sources are assumed to hold the sub-message of their type; without it `==` is not symmetric, as `ResourceModel.SourceEqNotSymmetric` shows.
- Labels are sets of pairs, since their `==` ignores order; repeated labels are not modelled.
- Decoding.UnionIsConcat: subtraction of ranges goes through an interval-set library that is not part of this model; it is taken as difference of point sets.
- Coalescing.Coalesce: the sort is a specification (a sorted permutation), not an algorithm.
- FindProof.FindIsSound: is for targets that are not shared; `FindOrder.FoundIsContained` covers the others. `find` with several targets only repeats the single search.
- ResourcesClass.Resources.Filter: takes the three predicates that `find` uses.
- Strings.TokenizeLoop: the optional maximum number of tokens, which roles do not use, is not modelled.
- Conservation.RunConserves: runs whose unbalanced steps cancel each other out are not covered.
- Format.OfferCell.ValidateAndNormalize: operations carry only the fields that hold resources.
- RecordIO.Decoder.Decode: reading a number is any function that reads decimals below 2^64; error texts are left out here and everywhere.
- Version.ParseLoop: reading a number is any function that reads decimals below 2^32; hexadecimal and other spellings it may accept are not fixed.
- Json.ContainsTransitive: doubles are real numbers with integers rounded to the nearest, ties to even; NaN and infinities are left out.
- Protobuf.ParseToJson: no groups, extensions, oneofs or `float` fields; a `double` outside the range of an integer field, undefined in C++, keeps its low bits.
- ProtobufLoops.Builder.ParseInto: a nested message is built on its own and stored, where the code fills it in place; each key occurs once, so nothing is merged.
- LinkedMap.LinkedHashMap.Touch: iterators are node identities; the hash table is a map.
- ExecutorProcess.UrbExecutorProcess.SendStatusUpdate: uuids are given; their generation as C strings is not modelled, and sends are appended to a history. It is called through the driver, which passes updates on only while it is running.
- ExecutorProcess.UrbExecutorProcess.ShutdownHandler: the fork, the kill and the broker shutdown are left out.
- EventLoop.EvHelper.TimeoutCb: describes a tick without interference; interleavings are in `Timers.EveryRun`, `Timers.InactiveNeverRuns` and `TimerRuns.TickOrder`. The clock, locks and the libev watcher are left out.
- Cache.Cache.Put: the capacity is at least one; with capacity zero the code evicts from an empty list.
- Text parsing of resources, attributes and roles from JSON or strings, and all printing except versions.
- `pushReservation`, `allocate`, `reservations`, `createStrippedScalarQuantity` and the other one-line queries of `Resources`: easy members.
- Redis broker, channels, URL set-up, scheduler process, JNI bridges, Kubernetes adapter, fetcher and the remaining `stout` headers: input and output over libraries that are not part of this model.
