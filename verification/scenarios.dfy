/** The scenarios of the registry's test suite, replayed on the model: each
    lemma follows one test and proves the outcomes that test checks. The
    registries in between are named so that every call's outcome can be
    stated on its own. */
module Scenarios {
  import opened Results
  import opened Shares
  import opened RangeIndex
  import opened Allocation

  const Split0 := AllocationData(4000, 1200, 1200, 1200, 1200, 1200, 0, 0)
  const Split1 := AllocationData(3000, 2200, 1200, 1200, 1200, 1200, 0, 0)
  const Split2 := AllocationData(2000, 2200, 2200, 1200, 1200, 1200, 0, 0)
  const Split3 := AllocationData(1000, 2200, 2200, 2200, 1200, 1200, 0, 0)

  const OneSplit := Registry([Split0], [], Bounded(0))
  const TwoSplits := Registry([Split0, Split1], [], Bounded(0))
  const ThreeSplits := Registry([Split0, Split1, Split2], [], Bounded(0))
  const FourSplits := Registry([Split0, Split1, Split2, Split3], [], Bounded(0))

  /** A successful assignment whose resulting registry and entry count are
      known. */
  lemma Assigned(r: Registry, start: nat, end: nat, id: nat, r': Registry, count: nat)
    requires id < |r.allocations| && r'.allocations == r.allocations
    requires Assign(r.allocationToTrees, r.maxAssigned, start, CoverageEnd(start, end), id) == r'.allocationToTrees
    requires MaxBound(r.maxAssigned, CoverageEnd(start, end)) == r'.maxAssigned
    requires count == |r'.allocationToTrees|
    ensures AssignAllocationToTree(r, true, start, end, id) == Ok((r', count))
  {
  }

  /** A lookup whose applying entry is known: entry `k` starts at or before
      the tree and every later entry starts after it. */
  lemma Covered(r: Registry, t: nat, k: nat)
    requires k < |r.allocationToTrees| && r.allocationToTrees[k].startingTreeId <= t
    requires forall j :: k < j < |r.allocationToTrees| ==> t < r.allocationToTrees[j].startingTreeId
    requires r.allocationToTrees[k].allocationDataId < |r.allocations|
    ensures FindAllocationData(r, t) == Ok(r.allocations[r.allocationToTrees[k].allocationDataId])
  {
    FloorUnique(r.allocationToTrees, t, k);
  }

  /** A successful addition whose resulting store is known. */
  lemma Added(r: Registry, d: AllocationData, allocations: seq<AllocationData>)
    requires WellFormed(d)
    requires r.allocations + [d] == allocations
    ensures AddAllocationData(r, true, d) == Ok((Registry(allocations, r.allocationToTrees, r.maxAssigned), |r.allocations|))
  {
  }

  /** `allocationToTrees(i)` for every `i` below the count, as the tests
      read the index back in a loop. */
  lemma ReadsBack(r: Registry, expected: seq<Entry>)
    requires r.allocationToTrees == expected
    ensures forall i :: 0 <= i < |expected| ==> AllocationToTrees(r, i) == Some(expected[i])
    ensures AllocationToTrees(r, |expected|) == None
  {
  }

  /** Adding allocation data: a caller who is not a data manager is refused,
      so are splits summing to 14000 and 9600; the first accepted split gets
      id 0 and reads back unchanged. */
  lemma AddAllocationDataScenario()
    ensures AddAllocationData(Initial, false, Split0) == Err(AccessDenied)
    ensures AddAllocationData(Initial, true, AllocationData(8000, 1200, 1200, 1200, 1200, 1200, 0, 0)) == Err(SharesMustSumToTotal)
    ensures AddAllocationData(Initial, true, AllocationData(3000, 1200, 1200, 1200, 1200, 1200, 300, 300)) == Err(SharesMustSumToTotal)
    ensures AddAllocationData(Initial, true, Split0) == Ok((OneSplit, 0))
    ensures Allocations(OneSplit, 0) == Ok(Split0)
  {
    Added(Initial, Split0, OneSplit.allocations);
  }

  /** Four splits added in turn to a fresh registry get ids 0, 1, 2 and 3. */
  lemma SequentialIdsScenario()
    ensures AddAllocationData(Initial, true, Split0) == Ok((OneSplit, 0))
    ensures AddAllocationData(OneSplit, true, Split1) == Ok((TwoSplits, 1))
    ensures AddAllocationData(TwoSplits, true, Split2) == Ok((ThreeSplits, 2))
    ensures AddAllocationData(ThreeSplits, true, Split3) == Ok((FourSplits, 3))
  {
    Added(Initial, Split0, OneSplit.allocations);
    Added(OneSplit, Split1, TwoSplits.allocations);
    Added(TwoSplits, Split2, ThreeSplits.allocations);
    Added(ThreeSplits, Split3, FourSplits.allocations);
  }

  const Ascending1 := Registry(FourSplits.allocations, [Entry(0, 0)], Bounded(0))
  const Ascending2 := Registry(FourSplits.allocations, [Entry(0, 0), Entry(1, 1)], Bounded(10))
  const Ascending3 := Registry(FourSplits.allocations, [Entry(0, 0), Entry(1, 1), Entry(11, 2)], Bounded(100))
  const Ascending4 := Registry(FourSplits.allocations, [Entry(0, 0), Entry(1, 1), Entry(11, 2), Entry(101, 3)], Bounded(1000000))

  // One lemma per assignment keeps each concrete evaluation small.
  lemma AscendingStep1()
    ensures AssignAllocationToTree(FourSplits, true, 0, 0, 0) == Ok((Ascending1, 1))
  {
    Assigned(FourSplits, 0, 0, 0, Ascending1, 1);
  }

  lemma AscendingStep2()
    ensures AssignAllocationToTree(Ascending1, true, 1, 10, 1) == Ok((Ascending2, 2))
  {
    Assigned(Ascending1, 1, 10, 1, Ascending2, 2);
  }

  lemma AscendingStep3()
    ensures AssignAllocationToTree(Ascending2, true, 11, 100, 2) == Ok((Ascending3, 3))
  {
    Assigned(Ascending2, 11, 100, 2, Ascending3, 3);
  }

  lemma AscendingStep4()
    ensures AssignAllocationToTree(Ascending3, true, 101, 1000000, 3) == Ok((Ascending4, 4))
  {
    Assigned(Ascending3, 101, 1000000, 3, Ascending4, 4);
  }

  /** Ranges assigned in ascending order each append one entry; the mark is
      the last end, and an assignment whose end precedes its start makes it
      the largest uint256. */
  lemma AscendingRangesScenario()
    ensures AssignAllocationToTree(FourSplits, true, 0, 0, 0) == Ok((Ascending1, 1))
    ensures AssignAllocationToTree(Ascending1, true, 1, 10, 1) == Ok((Ascending2, 2))
    ensures AssignAllocationToTree(Ascending2, true, 11, 100, 2) == Ok((Ascending3, 3))
    ensures AssignAllocationToTree(Ascending3, true, 101, 1000000, 3) == Ok((Ascending4, 4))
    ensures forall i :: 0 <= i < 4 ==>
      AllocationToTrees(Ascending4, i) == Some([Entry(0, 0), Entry(1, 1), Entry(11, 2), Entry(101, 3)][i])
    ensures MaxAssignedIndex(Ascending4) == 1000000
    ensures AssignAllocationToTree(Ascending4, true, 1000001, 0, 0).Ok?
    ensures MaxAssignedIndex(AssignAllocationToTree(Ascending4, true, 1000001, 0, 0).value.0) == MAX_UINT256
  {
    AscendingStep1();
    AscendingStep2();
    AscendingStep3();
    AscendingStep4();
    ReadsBack(Ascending4, [Entry(0, 0), Entry(1, 1), Entry(11, 2), Entry(101, 3)]);
  }

  /** An unbounded assignment after a bounded one leaves the mark at the
      largest uint256. */
  lemma UnboundedMarkScenario()
    ensures AssignAllocationToTree(TwoSplits, true, 10, 100, 0) == Ok((Registry(TwoSplits.allocations, [Entry(10, 0)], Bounded(100)), 1))
    ensures AssignAllocationToTree(Registry(TwoSplits.allocations, [Entry(10, 0)], Bounded(100)), true, 1, 0, 1).Ok?
    ensures MaxAssignedIndex(AssignAllocationToTree(Registry(TwoSplits.allocations, [Entry(10, 0)], Bounded(100)), true, 1, 0, 1).value.0) == MAX_UINT256
  {
    Assigned(TwoSplits, 10, 100, 0, Registry(TwoSplits.allocations, [Entry(10, 0)], Bounded(100)), 1);
  }

  const Descending1 := Registry(FourSplits.allocations, [Entry(1000001, 0)], Unbounded)
  const Descending2 := Registry(FourSplits.allocations, [Entry(101, 3), Entry(1000001, 0)], Unbounded)
  const Descending3 := Registry(FourSplits.allocations, [Entry(11, 2), Entry(101, 3), Entry(1000001, 0)], Unbounded)
  const Descending4 := Registry(FourSplits.allocations, [Entry(1, 1), Entry(11, 2), Entry(101, 3), Entry(1000001, 0)], Unbounded)
  const Descending5 := Registry(FourSplits.allocations, [Entry(0, 0), Entry(1, 1), Entry(11, 2), Entry(101, 3), Entry(1000001, 0)], Unbounded)

  lemma DescendingStep1()
    ensures AssignAllocationToTree(FourSplits, true, 1000001, 0, 0) == Ok((Descending1, 1))
  {
    Assigned(FourSplits, 1000001, 0, 0, Descending1, 1);
  }

  lemma DescendingStep2()
    ensures AssignAllocationToTree(Descending1, true, 101, 1000000, 3) == Ok((Descending2, 2))
  {
    Assigned(Descending1, 101, 1000000, 3, Descending2, 2);
  }

  lemma DescendingStep3()
    ensures AssignAllocationToTree(Descending2, true, 11, 100, 2) == Ok((Descending3, 3))
  {
    Assigned(Descending2, 11, 100, 2, Descending3, 3);
  }

  lemma DescendingStep4()
    ensures AssignAllocationToTree(Descending3, true, 1, 10, 1) == Ok((Descending4, 4))
  {
    Assigned(Descending3, 1, 10, 1, Descending4, 4);
  }

  lemma DescendingStep5()
    ensures AssignAllocationToTree(Descending4, true, 0, 0, 0) == Ok((Descending5, 5))
  {
    Assigned(Descending4, 0, 0, 0, Descending5, 5);
  }

  /** Ranges assigned from the top down each insert one entry in front of the
      ones already there, since each range ends just before the next start. */
  lemma DescendingRangesScenario()
    ensures AssignAllocationToTree(FourSplits, true, 1000001, 0, 0) == Ok((Descending1, 1))
    ensures AssignAllocationToTree(Descending1, true, 101, 1000000, 3) == Ok((Descending2, 2))
    ensures AssignAllocationToTree(Descending2, true, 11, 100, 2) == Ok((Descending3, 3))
    ensures AssignAllocationToTree(Descending3, true, 1, 10, 1) == Ok((Descending4, 4))
    ensures AssignAllocationToTree(Descending4, true, 0, 0, 0) == Ok((Descending5, 5))
    ensures forall i :: 0 <= i < 5 ==>
      AllocationToTrees(Descending5, i) == Some([Entry(0, 0), Entry(1, 1), Entry(11, 2), Entry(101, 3), Entry(1000001, 0)][i])
    ensures MaxAssignedIndex(Descending5) == MAX_UINT256
  {
    DescendingStep1();
    DescendingStep2();
    DescendingStep3();
    DescendingStep4();
    DescendingStep5();
    ReadsBack(Descending5, [Entry(0, 0), Entry(1, 1), Entry(11, 2), Entry(101, 3), Entry(1000001, 0)]);
  }

  const Gap1 := Registry(FourSplits.allocations, [Entry(11, 2)], Bounded(100))
  const Gap2 := Registry(FourSplits.allocations, [Entry(0, 0), Entry(11, 2)], Bounded(100))
  const Gap3 := Registry(FourSplits.allocations, [Entry(0, 0), Entry(1, 1), Entry(11, 2)], Bounded(100))

  lemma GapStep1()
    ensures AssignAllocationToTree(FourSplits, true, 11, 100, 2) == Ok((Gap1, 1))
  {
    Assigned(FourSplits, 11, 100, 2, Gap1, 1);
  }

  lemma GapStep2()
    ensures AssignAllocationToTree(Gap1, true, 0, 0, 0) == Ok((Gap2, 2))
  {
    Assigned(Gap1, 0, 0, 0, Gap2, 2);
  }

  lemma GapStep3()
    ensures AssignAllocationToTree(Gap2, true, 1, 10, 1) == Ok((Gap3, 3))
  {
    Assigned(Gap2, 1, 10, 1, Gap3, 3);
  }

  /** A range below every stored start restores nothing, because the tree
      after it had no configuration; filling the gap afterwards keeps the
      later entry. */
  lemma GapFillingScenario()
    ensures AssignAllocationToTree(FourSplits, true, 11, 100, 2) == Ok((Gap1, 1))
    ensures AssignAllocationToTree(Gap1, true, 0, 0, 0) == Ok((Gap2, 2))
    ensures AssignAllocationToTree(Gap2, true, 1, 10, 1) == Ok((Gap3, 3))
    ensures forall i :: 0 <= i < 3 ==> AllocationToTrees(Gap3, i) == Some([Entry(0, 0), Entry(1, 1), Entry(11, 2)][i])
    ensures AllocationToTrees(Gap3, 3) == None
    ensures MaxAssignedIndex(Gap3) == 100
  {
    GapStep1();
    GapStep2();
    GapStep3();
    ReadsBack(Gap3, [Entry(0, 0), Entry(1, 1), Entry(11, 2)]);
  }

  const Overlap1 := Registry(ThreeSplits.allocations, [Entry(1, 0)], Bounded(2))
  const Overlap2 := Registry(ThreeSplits.allocations, [Entry(0, 1)], Bounded(5))
  const Overlap3 := Registry(ThreeSplits.allocations, [Entry(0, 1), Entry(8, 0)], Bounded(10))
  const Overlap4 := Registry(ThreeSplits.allocations, [Entry(0, 1), Entry(3, 2), Entry(10, 0)], Bounded(10))

  lemma OverlapStep1()
    ensures AssignAllocationToTree(ThreeSplits, true, 1, 2, 0) == Ok((Overlap1, 1))
  {
    Assigned(ThreeSplits, 1, 2, 0, Overlap1, 1);
  }

  lemma OverlapStep2()
    ensures AssignAllocationToTree(Overlap1, true, 0, 5, 1) == Ok((Overlap2, 1))
  {
    Assigned(Overlap1, 0, 5, 1, Overlap2, 1);
  }

  lemma OverlapStep3()
    ensures AssignAllocationToTree(Overlap2, true, 8, 10, 0) == Ok((Overlap3, 2))
  {
    Assigned(Overlap2, 8, 10, 0, Overlap3, 2);
  }

  lemma OverlapStep4()
    ensures AssignAllocationToTree(Overlap3, true, 3, 9, 2) == Ok((Overlap4, 3))
  {
    Assigned(Overlap3, 3, 9, 2, Overlap4, 3);
  }

  /** Overlapping ranges: a range covering an older one removes its entry,
      and a range ending inside covered trees restores the configuration of
      the tree just after it. */
  lemma OverlappingRangesScenario()
    ensures AssignAllocationToTree(ThreeSplits, true, 1, 2, 0) == Ok((Overlap1, 1))
    ensures AssignAllocationToTree(Overlap1, true, 0, 5, 1) == Ok((Overlap2, 1))
    ensures AssignAllocationToTree(Overlap2, true, 8, 10, 0) == Ok((Overlap3, 2))
    ensures AssignAllocationToTree(Overlap3, true, 3, 9, 2) == Ok((Overlap4, 3))
    ensures forall i :: 0 <= i < 3 ==> AllocationToTrees(Overlap4, i) == Some([Entry(0, 1), Entry(3, 2), Entry(10, 0)][i])
    ensures AllocationToTrees(Overlap4, 3) == None
    ensures MaxAssignedIndex(Overlap4) == 10
  {
    OverlapStep1();
    OverlapStep2();
    OverlapStep3();
    OverlapStep4();
    ReadsBack(Overlap4, [Entry(0, 1), Entry(3, 2), Entry(10, 0)]);
  }

  /** Assigning is refused for an unknown configuration and for a caller who
      is not a data manager. */
  lemma AssignRejectedScenario()
    ensures AssignAllocationToTree(Initial, true, 0, 0, 0) == Err(AllocationNotFound)
    ensures AssignAllocationToTree(OneSplit, false, 0, 0, 0) == Err(AccessDenied)
  {
  }

  /** Trees below the first start have no configuration; trees inside and
      past the only range have one. */
  lemma ExistsScenario()
    ensures !Exists(Initial, 0)
    ensures AssignAllocationToTree(OneSplit, true, 4, 10, 0) == Ok((Registry([Split0], [Entry(4, 0)], Bounded(10)), 1))
    ensures !Exists(Registry([Split0], [Entry(4, 0)], Bounded(10)), 1)
    ensures Exists(Registry([Split0], [Entry(4, 0)], Bounded(10)), 7)
    ensures Exists(Registry([Split0], [Entry(4, 0)], Bounded(10)), 11)
  {
    Assigned(OneSplit, 4, 10, 0, Registry([Split0], [Entry(4, 0)], Bounded(10)), 1);
  }

  /** Looking up a tree before any range, or below the only range, fails. */
  lemma FindUncoveredScenario()
    ensures FindAllocationData(OneSplit, 1) == Err(NoCoverageForTree)
    ensures AssignAllocationToTree(OneSplit, true, 3, 10, 0) == Ok((Registry([Split0], [Entry(3, 0)], Bounded(10)), 1))
    ensures FindAllocationData(Registry([Split0], [Entry(3, 0)], Bounded(10)), 1) == Err(NoCoverageForTree)
  {
    Assigned(OneSplit, 3, 10, 0, Registry([Split0], [Entry(3, 0)], Bounded(10)), 1);
  }

  /** A tree at the end of the only range and one far past it both get its
      configuration. */
  lemma FindSingleRangeScenario()
    ensures AssignAllocationToTree(OneSplit, true, 0, 10, 0) == Ok((Registry([Split0], [Entry(0, 0)], Bounded(10)), 1))
    ensures FindAllocationData(Registry([Split0], [Entry(0, 0)], Bounded(10)), 10) == Ok(Split0)
    ensures FindAllocationData(Registry([Split0], [Entry(0, 0)], Bounded(10)), 100) == Ok(Split0)
  {
    Assigned(OneSplit, 0, 10, 0, Registry([Split0], [Entry(0, 0)], Bounded(10)), 1);
  }

  const ReservedSplit := AllocationData(3000, 1200, 1200, 1200, 1200, 1200, 500, 500)
  const TwoRanges0 := Registry([Split0, ReservedSplit], [], Bounded(0))
  const TwoRanges1 := Registry([Split0, ReservedSplit], [Entry(0, 0)], Bounded(10))
  const TwoRanges2 := Registry([Split0, ReservedSplit], [Entry(0, 0), Entry(1, 1)], Bounded(20))

  /** A second range starting inside the first and ending past the mark takes
      over the rest of it; the tree before it keeps the first configuration. */
  lemma FindTwoRangesScenario()
    ensures AddAllocationData(Initial, true, Split0) == Ok((OneSplit, 0))
    ensures AddAllocationData(OneSplit, true, ReservedSplit) == Ok((TwoRanges0, 1))
    ensures AssignAllocationToTree(TwoRanges0, true, 0, 10, 0) == Ok((TwoRanges1, 1))
    ensures AssignAllocationToTree(TwoRanges1, true, 1, 20, 1) == Ok((TwoRanges2, 2))
    ensures FindAllocationData(TwoRanges2, 20) == Ok(ReservedSplit)
    ensures FindAllocationData(TwoRanges2, 0) == Ok(Split0)
  {
    Added(Initial, Split0, OneSplit.allocations);
    Added(OneSplit, ReservedSplit, TwoRanges0.allocations);
    Assigned(TwoRanges0, 0, 10, 0, TwoRanges1, 1);
    Assigned(TwoRanges1, 1, 20, 1, TwoRanges2, 2);
  }

  // The partition test: six splits that differ only in the planter and
  // research shares.
  const Planter80 := AllocationData(8000, 0, 2000, 0, 0, 0, 0, 0)
  const Planter60 := AllocationData(6000, 0, 4000, 0, 0, 0, 0, 0)
  const Planter40 := AllocationData(4000, 0, 6000, 0, 0, 0, 0, 0)
  const Planter20 := AllocationData(2000, 0, 8000, 0, 0, 0, 0, 0)
  const Planter10 := AllocationData(1000, 0, 9000, 0, 0, 0, 0, 0)
  const Planter5 := AllocationData(500, 0, 9500, 0, 0, 0, 0, 0)

  const FourPlanterSplits := [Planter80, Planter60, Planter40, Planter20]
  const FivePlanterSplits := [Planter80, Planter60, Planter40, Planter20, Planter10]
  const SixPlanterSplits := [Planter80, Planter60, Planter40, Planter20, Planter10, Planter5]

  const Partition0 := Registry(FourPlanterSplits, [], Bounded(0))
  const Partition1 := Registry(FourPlanterSplits, [Entry(101, 3)], Bounded(1000000))
  const Partition2 := Registry(FourPlanterSplits, [Entry(0, 0), Entry(101, 3)], Bounded(1000000))
  const Partition3 := Registry(FourPlanterSplits, [Entry(0, 0), Entry(11, 2), Entry(101, 3)], Bounded(1000000))
  const Partition4 := Registry(FourPlanterSplits, [Entry(0, 0), Entry(1, 1), Entry(11, 2), Entry(101, 3)], Bounded(1000000))
  /** After adding the fifth split. */
  const Partition4Added := Registry(FivePlanterSplits, Partition4.allocationToTrees, Bounded(1000000))
  /** After assigning the fifth split to trees 5000..10000. */
  const Partition5 := Registry(FivePlanterSplits,
    [Entry(0, 0), Entry(1, 1), Entry(11, 2), Entry(101, 3), Entry(5000, 4), Entry(10001, 3)], Bounded(1000000))
  /** After adding the sixth split. */
  const Partition5Added := Registry(SixPlanterSplits, Partition5.allocationToTrees, Bounded(1000000))
  /** After assigning the sixth split to trees 4..10. */
  const Partition6 := Registry(SixPlanterSplits,
    [Entry(0, 0), Entry(1, 1), Entry(4, 5), Entry(11, 2), Entry(101, 3), Entry(5000, 4), Entry(10001, 3)], Bounded(1000000))

  /** The four splits of the partition test, added to a fresh registry in
      turn, get ids 0 to 3. */
  lemma PartitionAddScenario()
    ensures AddAllocationData(Initial, true, Planter80) == Ok((Registry([Planter80], [], Bounded(0)), 0))
    ensures AddAllocationData(Registry([Planter80], [], Bounded(0)), true, Planter60) ==
      Ok((Registry([Planter80, Planter60], [], Bounded(0)), 1))
    ensures AddAllocationData(Registry([Planter80, Planter60], [], Bounded(0)), true, Planter40) ==
      Ok((Registry([Planter80, Planter60, Planter40], [], Bounded(0)), 2))
    ensures AddAllocationData(Registry([Planter80, Planter60, Planter40], [], Bounded(0)), true, Planter20) ==
      Ok((Partition0, 3))
  {
    Added(Initial, Planter80, [Planter80]);
    Added(Registry([Planter80], [], Bounded(0)), Planter60, [Planter80, Planter60]);
    Added(Registry([Planter80, Planter60], [], Bounded(0)), Planter40, [Planter80, Planter60, Planter40]);
    Added(Registry([Planter80, Planter60, Planter40], [], Bounded(0)), Planter20, FourPlanterSplits);
  }

  lemma PartitionStep1()
    ensures AssignAllocationToTree(Partition0, true, 101, 1000000, 3) == Ok((Partition1, 1))
  {
    Assigned(Partition0, 101, 1000000, 3, Partition1, 1);
  }

  lemma PartitionStep2()
    ensures AssignAllocationToTree(Partition1, true, 0, 0, 0) == Ok((Partition2, 2))
  {
    Assigned(Partition1, 0, 0, 0, Partition2, 2);
  }

  lemma PartitionStep3()
    ensures AssignAllocationToTree(Partition2, true, 11, 100, 2) == Ok((Partition3, 3))
  {
    Assigned(Partition2, 11, 100, 2, Partition3, 3);
  }

  lemma PartitionStep4()
    ensures AssignAllocationToTree(Partition3, true, 1, 10, 1) == Ok((Partition4, 4))
  {
    Assigned(Partition3, 1, 10, 1, Partition4, 4);
  }

  lemma PartitionAdd5()
    ensures AddAllocationData(Partition4, true, Planter10) == Ok((Partition4Added, 4))
  {
    Added(Partition4, Planter10, Partition4Added.allocations);
  }

  // The assignment of trees 5000..10000, worked out in small lemmas so that
  // each concrete evaluation stays cheap: the three parts of the result
  // (entries before the range, the restore entry, entries after the range),
  // the literal concatenation of the parts, and the join of the two.

  /** The three parts of the assignment of trees 5000..10000. */
  lemma PartitionParts5()
    ensures Below(Partition4.allocationToTrees, 5000) == Partition4.allocationToTrees
    ensures Restore(Partition4.allocationToTrees, Bounded(1000000), 10000) == [Entry(10001, 3)]
    ensures From(Partition4.allocationToTrees, 10001) == []
  {
    FloorUnique(Partition4.allocationToTrees, 10001, 3);
  }

  lemma PartitionEntries5()
    ensures Partition4.allocationToTrees + [Entry(5000, 4)] + [Entry(10001, 3)] + [] == Partition5.allocationToTrees
  {
  }

  lemma PartitionJoin5()
    ensures Assign(Partition4.allocationToTrees, Bounded(1000000), 5000, Bounded(10000), 4) == Partition5.allocationToTrees
  {
    PartitionEntries5();
    PartitionParts5();
    AssignParts(Partition4.allocationToTrees, Bounded(1000000), 5000, 10000, 4, Partition4.allocationToTrees, [Entry(10001, 3)], []);
  }

  lemma PartitionAssign5()
    ensures AssignAllocationToTree(Partition4Added, true, 5000, 10000, 4) == Ok((Partition5, 6))
  {
    PartitionJoin5();
    assert Partition4Added.allocationToTrees == Partition4.allocationToTrees;
    assert CoverageEnd(5000, 10000) == Bounded(10000);
    Assigned(Partition4Added, 5000, 10000, 4, Partition5, 6);
  }

  lemma PartitionAdd6()
    ensures AddAllocationData(Partition5, true, Planter5) == Ok((Partition5Added, 5))
  {
    Added(Partition5, Planter5, Partition5Added.allocations);
  }

  // The assignment of trees 4..10, worked out the same way, one part per
  // lemma: tree 11 already starts an entry, so nothing is restored.

  lemma PartitionBelow6()
    ensures Below(Partition5.allocationToTrees, 4) == [Entry(0, 0), Entry(1, 1)]
  {
    SplitAt(Partition5.allocationToTrees, 4, 2);
  }

  lemma PartitionRestore6()
    ensures Restore(Partition5.allocationToTrees, Bounded(1000000), 10) == []
  {
    assert Partition5.allocationToTrees[2].startingTreeId == 11;
  }

  lemma PartitionFrom6()
    ensures From(Partition5.allocationToTrees, 11) == [Entry(11, 2), Entry(101, 3), Entry(5000, 4), Entry(10001, 3)]
  {
    SplitAt(Partition5.allocationToTrees, 11, 2);
  }

  lemma PartitionJoin6()
    ensures Assign(Partition5.allocationToTrees, Bounded(1000000), 4, Bounded(10), 5) == Partition6.allocationToTrees
  {
    var below := [Entry(0, 0), Entry(1, 1)];
    var from := [Entry(11, 2), Entry(101, 3), Entry(5000, 4), Entry(10001, 3)];
    PartitionEntries6();
    PartitionBelow6();
    PartitionRestore6();
    PartitionFrom6();
    AssignParts(Partition5.allocationToTrees, Bounded(1000000), 4, 10, 5, below, [], from);
  }

  lemma PartitionEntries6()
    ensures [Entry(0, 0), Entry(1, 1)] + [Entry(4, 5)] + [] + [Entry(11, 2), Entry(101, 3), Entry(5000, 4), Entry(10001, 3)]
      == Partition6.allocationToTrees
  {
  }

  lemma PartitionAssign6()
    ensures AssignAllocationToTree(Partition5Added, true, 4, 10, 5) == Ok((Partition6, 7))
  {
    PartitionJoin6();
    assert Partition5Added.allocationToTrees == Partition5.allocationToTrees;
    assert CoverageEnd(4, 10) == Bounded(10);
    Assigned(Partition5Added, 4, 10, 5, Partition6, 7);
  }

  /** Four ranges assigned out of order, each into trees nobody covers yet,
      end up as four ascending entries. */
  lemma PartitionAssignScenario()
    ensures AssignAllocationToTree(Partition0, true, 101, 1000000, 3) == Ok((Partition1, 1))
    ensures AssignAllocationToTree(Partition1, true, 0, 0, 0) == Ok((Partition2, 2))
    ensures AssignAllocationToTree(Partition2, true, 11, 100, 2) == Ok((Partition3, 3))
    ensures AssignAllocationToTree(Partition3, true, 1, 10, 1) == Ok((Partition4, 4))
  {
    PartitionStep1();
    PartitionStep2();
    PartitionStep3();
    PartitionStep4();
  }

  /** After those four ranges, trees 0..10 get the splits as assigned. */
  lemma PartitionLookupLowScenario()
    ensures FindAllocationData(Partition4, 0) == Ok(Planter80)
    ensures FindAllocationData(Partition4, 1) == Ok(Planter60)
    ensures FindAllocationData(Partition4, 5) == Ok(Planter60)
    ensures FindAllocationData(Partition4, 10) == Ok(Planter60)
  {
    Covered(Partition4, 0, 0);
    Covered(Partition4, 1, 1);
    Covered(Partition4, 5, 1);
    Covered(Partition4, 10, 1);
  }

  /** After those four ranges, trees 11..1000000 get the splits as assigned. */
  lemma PartitionLookupHighScenario()
    ensures FindAllocationData(Partition4, 11) == Ok(Planter40)
    ensures FindAllocationData(Partition4, 99) == Ok(Planter40)
    ensures FindAllocationData(Partition4, 100) == Ok(Planter40)
    ensures FindAllocationData(Partition4, 101) == Ok(Planter20)
    ensures FindAllocationData(Partition4, 1500) == Ok(Planter20)
    ensures FindAllocationData(Partition4, 1000000) == Ok(Planter20)
  {
    Covered(Partition4, 11, 2);
    Covered(Partition4, 99, 2);
    Covered(Partition4, 100, 2);
    Covered(Partition4, 101, 3);
    Covered(Partition4, 1500, 3);
    Covered(Partition4, 1000000, 3);
  }

  /** A range inside covered trees takes them over, and the tree after its
      end goes back to the split it had before. */
  lemma PartitionInsideScenario()
    ensures FindAllocationData(Partition5, 4999) == Ok(Planter20)
    ensures FindAllocationData(Partition5, 5000) == Ok(Planter10)
    ensures FindAllocationData(Partition5, 6000) == Ok(Planter10)
    ensures FindAllocationData(Partition5, 10000) == Ok(Planter10)
    ensures FindAllocationData(Partition5, 10001) == Ok(Planter20)
  {
    Covered(Partition5, 4999, 3);
    Covered(Partition5, 5000, 4);
    Covered(Partition5, 6000, 4);
    Covered(Partition5, 10000, 4);
    Covered(Partition5, 10001, 5);
  }

  /** A range ending just before an existing entry needs no restore entry:
      the tree after it keeps its split. */
  lemma PartitionAdjacentScenario()
    ensures FindAllocationData(Partition6, 4) == Ok(Planter5)
    ensures FindAllocationData(Partition6, 10) == Ok(Planter5)
    ensures FindAllocationData(Partition6, 11) == Ok(Planter40)
  {
    Covered(Partition6, 4, 2);
    Covered(Partition6, 10, 2);
    Covered(Partition6, 11, 3);
  }
}
