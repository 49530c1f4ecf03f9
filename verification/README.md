# Allocation registry

A Dafny model of the allocation registry of the treejer contracts. The registry holds two things. First, share splits ("allocation data"): eight basis-point shares for planter, ambassador, research, local development, insurance, treasury and two reserves. Second, a range index that binds ranges of tree ids to those splits. The model follows the behaviour that the registry's test suite (`test/allocation.js`) pins down.

- `Results`: the error kinds (`AccessDenied`, `SharesMustSumToTotal`, `AllocationNotFound`, `NoCoverageForTree`), plus `Option` and `Result`.
- `Shares`: the share record `AllocationData` and the rule that a split must sum to `TOTAL_SHARES` (10000).
- `RangeIndex`: the ordered entries `(startingTreeId, allocationDataId)`.
  - The lookup (`Floor`, `ConfigAt`) returns the entry with the greatest start at or before a tree.
  - `Assign` is the overwrite rule. Entries starting inside `[start, end]` are dropped and `(start, id)` is put in place. A restore entry `(end+1, old config at end+1)` follows only if all three hold:
    - `end+1` is at most the old high-water mark;
    - some entry covered `end+1`;
    - no entry already starts at `end+1`.
  - An assignment with `end < start` covers `[start, ..)`: it drops every entry from `start` on.
  - The high-water mark is `Bounded(n) | Unbounded`.
- `FloorSearch`: the binary search over the sorted index, proved to agree with the functional lookup.
- `Allocation`: the registry and its public operations.
  - Operations: `addAllocationData`, `allocations(i)`, `assignAllocationToTree`, `allocationToTrees(i)`, `maxAssignedIndex`, `findAllocationData`, `exists`.
  - Also: the registry invariant `Valid`, and `Replay` of a sequence of calls.
- `Scenarios`: each test of the suite replayed on the model, with the outcome the test checks.

Each operation is a pure function of the registry. A rejected call returns an error, and the caller keeps the registry it had, so nothing changes on failure. Whether the caller is a data manager is a boolean input. Events are modelled only by the value they carry: the new id, or the entry count.

## Model

| member | source | states |
|---|---|---|
| Allocation.AddAllocationData | test/allocation.js:57-145 | A caller who is not a data manager is refused, and a split whose shares do not sum to 10000 is refused. The call succeeds exactly otherwise. The new id is the number of splits stored before it, and the split reads back unchanged under that id. Earlier ids are untouched and the next id does not exist yet. The range index and the mark do not change. |
| Allocation.AssignAllocationToTree | test/allocation.js:729-757 | A caller who is not a data manager is refused, and so is an unknown allocation id; the call succeeds exactly otherwise. The returned count is the new number of entries, and the splits are untouched. The call declares its coverage with `CoverageEnd`: unbounded when `end < start`, otherwise ending at `end`. The new mark is the larger of the old mark and that coverage, so it never decreases. It becomes unbounded exactly when `end < start` or it already was. A bounded mark is at least `end`, and is either `end` or the old mark. |
| Allocation.AssignAllocationToTreeEntries | test/allocation.js:252-308 | What `allocationToTrees(i)` reads after an accepted assignment. Exactly the returned count of entries is readable. One of them is the range's own entry, and every old entry that starts outside the declared coverage is still readable. Any other readable entry is the restore entry at `end + 1`. The count grows by one, loses one per entry that started inside the coverage, and gains at most one restore entry. |
| Allocation.FindAllocationData | test/allocation.js:795-820 | The lookup fails with `NoCoverageForTree` exactly when every entry starts after the tree. |
| Allocation.Exists | test/allocation.js:760-791 | `exists(tree)` implies that some entry starts at or before the tree. On an index whose entries all name stored splits, the converse holds too. |
| Allocation.AssignMaxAssignedIndex | test/allocation.js:287-320 | The integer `maxAssignedIndex()` reads after an accepted assignment. It is 2^256-1 when `end < start`. Otherwise it is the larger of the previous reading and `end`, so 2^256-1 stays once reached. This holds for any uint256 `end`. |
| Allocation.InitialValid | test/allocation.js:760-762 | A fresh registry satisfies the invariant, has no entries and has mark 0. |
| Allocation.AddAllocationDataValid | test/allocation.js:57-76 | An accepted addition keeps the invariant, so every stored split sums to 10000. |
| Allocation.AssignAllocationToTreeValid | test/allocation.js:426-520 | An accepted assignment keeps the invariant. The entries stay strictly ascending whatever order the ranges arrive in. Every entry names stored allocation data, and no entry starts past the mark. |
| Allocation.FindAllocationDataCorrect | test/allocation.js:847-953 | On a valid registry the only lookup error is `NoCoverageForTree`. `exists` holds exactly when some entry starts at or before the tree. The result is the split of the entry with the greatest such start, and that split is well formed. |
| Allocation.AssignAllocationToTreeLookup | test/allocation.js:674-726 | Trees before the range keep their split, and trees inside it get the new one. Past a range ending below the old mark, a tree keeps its split if it had one, and otherwise gets the new one. Past a range reaching the mark, a tree gets the new one. |
| Allocation.AssignInsideCoverage | test/allocation.js:1773-2037 | Take a range ending below the mark, where the tree after its end is covered. Assigning it changes lookups only inside the range, which get the new split. |
| Allocation.ReplayValid | test/allocation.js:1224-1240 | Any sequence of accepted calls keeps the invariant. |
| Allocation.ReplayAllocations | test/allocation.js:149-219 | After a sequence of calls, the stored splits are the old ones followed by the added ones, in call order. So the ids are sequential. |
| Allocation.ReplayHighWater | test/allocation.js:287-293 | After a sequence of calls, the mark bounds every declared coverage end and the starting mark. It is equal to one of them. |
| RangeIndex.MaxBound | test/allocation.js:287-293 | The new mark is an upper bound of the old mark and of the declared coverage, and it equals one of them, so it is their maximum. |
| RangeIndex.ConfigAt | test/allocation.js:1242-1757 | The lookup fails exactly when every entry starts after the tree. Otherwise it returns the split of an entry starting at or before the tree, and every later entry starts after the tree. |
| RangeIndex.Floor | test/allocation.js:1242-1757 | The lookup position is an entry starting at or before the tree, and every later entry starts after it. There is no position exactly when every entry starts after the tree. |
| RangeIndex.LookupIsGreatestStart | test/allocation.js:1242-1757 | On a sorted index the lookup fails exactly when every entry starts after the tree. Otherwise it returns the split of the entry with the greatest start at or before the tree. |
| RangeIndex.AssignSorted | test/allocation.js:426-520 | Assignment keeps the index strictly ascending, so there are no duplicate starts. |
| RangeIndex.AssignStartsWithin | test/allocation.js:720-726 | After assignment, every entry starts at or below the new mark. |
| RangeIndex.AssignIdsBelow | test/allocation.js:729-735 | Assignment of a stored id keeps every entry pointing at stored allocation data. |
| RangeIndex.AssignEntries | test/allocation.js:674-726 | The overwrite rule at the storage level. After assignment, an entry is stored exactly when one of three holds: it is the range's own entry; it is an old entry starting outside the range; or it is the restore entry at `end + 1`. The restore entry requires `end + 1` within the old mark, no old entry starting there, and the split that `end + 1` resolved to. So no entry starts inside `(start, end]`. |
| RangeIndex.AssignIndexed | test/allocation.js:426-520 | The same, position by position: the range's own entry has a position, every old entry outside the range has a position, and every position holds one of the three kinds of entry. |
| RangeIndex.AssignCount | test/allocation.js:580-620 | The new entry count plus the number of dropped entries (those starting inside the range) is the old count plus one, plus one more when a restore entry is added. So the count grows by at most two. |
| RangeIndex.AssignLookup | test/allocation.js:674-726 | The overwrite rule, on the index: what each tree resolves to before, inside and after the range, relative to the old index. |
| FloorSearch.FindFloor | test/allocation.js:1242-1757 | The binary search reports `found` exactly when some entry starts at or before the tree. It then returns the last such position, which gives the same split as the functional lookup; otherwise the lookup fails too. |
| Scenarios.AddAllocationDataScenario | test/allocation.js:57-145 | A caller who is not a data manager is refused, and so are splits summing to 14000 and 9600. The first accepted split gets id 0 and reads back unchanged. |
| Scenarios.SequentialIdsScenario | test/allocation.js:149-219 | Four splits added in turn to a fresh registry get ids 0, 1, 2, 3. |
| Scenarios.AscendingRangesScenario | test/allocation.js:221-320 | Entry counts 1 to 4; `allocationToTrees(i)` reads `[(0,0),(1,1),(11,2),(101,3)]`; mark 1000000. After `(1000001,0,0)` the mark reads 2^256-1. |
| Scenarios.UnboundedMarkScenario | test/allocation.js:323-367 | `(10,100,0)` then `(1,0,1)` leaves the mark at 2^256-1. |
| Scenarios.DescendingRangesScenario | test/allocation.js:369-521 | Ranges assigned from the top down give the intermediate index `[(11,2),(101,3),(1000001,0)]`. They end with five ascending entries and mark 2^256-1. |
| Scenarios.GapFillingScenario | test/allocation.js:523-629 | `(11,100,2)`, `(0,0,0)`, `(1,10,1)` give `[(0,0),(1,1),(11,2)]` and mark 100; no restore entry appears. |
| Scenarios.OverlappingRangesScenario | test/allocation.js:631-727 | `(1,2,0)`, `(0,5,1)`, `(8,10,0)`, `(3,9,2)` give `[(0,1),(3,2),(10,0)]` and mark 10. |
| Scenarios.AssignRejectedScenario | test/allocation.js:729-757 | Assignment is refused for an unknown split and for a caller who is not a data manager. |
| Scenarios.ExistsScenario | test/allocation.js:760-791 | `exists(0)` is false on a fresh registry. After `(4,10,0)`, `exists` is false for tree 1 and true for trees 7 and 11. |
| Scenarios.FindUncoveredScenario | test/allocation.js:795-820 | Looking up tree 1 fails before any range and after `(3,10,0)`. |
| Scenarios.FindSingleRangeScenario | test/allocation.js:821-953 | After `(0,10,0)`, trees 10 and 100 get the split. |
| Scenarios.FindTwoRangesScenario | test/allocation.js:955-1111 | Two splits added to a fresh registry get ids 0 and 1. After `(0,10,0)` and `(1,20,1)`, tree 20 gets the second split and tree 0 the first. |
| Scenarios.PartitionAddScenario | test/allocation.js:1114-1222 | The four splits of the partition test, added to a fresh registry in turn, get ids 0 to 3. |
| Scenarios.PartitionAssignScenario | test/allocation.js:1224-1240 | Ranges assigned out of order end up as four ascending entries. |
| Scenarios.PartitionLookupLowScenario | test/allocation.js:1242-1446 | Tree 0 gets split 0, and trees 1, 5 and 10 get split 1. |
| Scenarios.PartitionLookupHighScenario | test/allocation.js:1447-1757 | Trees 11, 99 and 100 get split 2, and trees 101, 1500 and 1000000 get split 3. |
| Scenarios.PartitionAssign5 | test/allocation.js:1773-1776 | `(5000,10000,4)` inside covered trees adds the range's entry and a restore entry `(10001,3)`. |
| Scenarios.PartitionInsideScenario | test/allocation.js:1778-2037 | Then tree 4999 keeps split 3, trees 5000, 6000 and 10000 get split 4, and tree 10001 is back on split 3. |
| Scenarios.PartitionAssign6 | test/allocation.js:2053-2056 | `(4,10,5)` ends just before the entry at 11, so no restore entry is added. |
| Scenarios.PartitionAdjacentScenario | test/allocation.js:2058-2207 | Then trees 4 and 10 get split 5, and tree 11 keeps split 2. |

## Left out

- The registry's Solidity contract is not part of this model. The overwrite rule above is the one every scenario of `test/allocation.js` agrees with.
- Entries can be removed: the overlapping-ranges test (`test/allocation.js:674-726`) shows one dropped, and `Assign` drops every entry that starts inside the assigned range.
- The error for an unknown split is named `AllocationNotFound`, after the test's message name.
- Access control is the boolean `callerIsDataManager`. The access-restriction contract is not part of this model.
- Revert messages are abstracted into the `Error` datatype; the tests only check that a call is rejected.
- Events are returned values only: the new id, or the entry count.
- Gas, proxy upgradeability and deployment (`migrations/`) are left out.
- uint256 arithmetic is left out. Tree ids, ends and share sums are unbounded naturals, so `end + 1` never wraps and share sums never overflow. The only 256-bit value modelled is the 2^256-1 reading of an unbounded mark.
- RangeIndex.Assign: an assignment with `end < start` and a `start` below existing entries is observed by the tests only through the mark (`test/allocation.js:352-366`). The model chooses open-ended coverage from `start` on, which drops every later entry.
- RangeIndex.Assign: assigning a range whose start equals an existing entry's start is not exercised by any test. The model overwrites that entry, since it starts inside the range.
- The check of tree 3 at `test/allocation.js:2209-2257` re-reads a lookup taken before the later assignments, so no property is derived from it.
- The other test files (`test/tree.js`, `test/genesisTree.js`, `test/communityGifts.js`) exercise other contracts and are not part of this model.
