/** The allocation registry: an append-only store of allocation data (share
    splits) and the range index that binds tree ids to them, with the
    high-water mark of assigned tree ids. Every operation is a pure function
    of the registry; a rejected call returns an error and leaves the caller
    holding the unchanged registry. Whether the caller is a data manager is
    an input decided by the access-control contract. */
module Allocation {
  import opened Results
  import opened Shares
  import opened RangeIndex

  /** 2^256 - 1: the value the contract reports for unbounded coverage. */
  const MAX_UINT256: nat := 0xffff_ffff_ffff_ffff_ffff_ffff_ffff_ffff_ffff_ffff_ffff_ffff_ffff_ffff_ffff_ffff

  datatype Registry = Registry(
    allocations: seq<AllocationData>,
    allocationToTrees: seq<Entry>,
    maxAssigned: Bound)

  /** A freshly deployed registry. */
  const Initial: Registry := Registry([], [], Bounded(0))

  /** What every reachable registry satisfies: stored splits are well formed,
      the index strictly ascends, every entry refers to stored allocation
      data, and no entry starts past the high-water mark. */
  ghost predicate Valid(r: Registry) {
    && (forall i :: 0 <= i < |r.allocations| ==> WellFormed(r.allocations[i]))
    && Sorted(r.allocationToTrees)
    && IdsBelow(r.allocationToTrees, |r.allocations|)
    && StartsWithin(r.allocationToTrees, r.maxAssigned)
  }

  // ---------------------------------------------------------------------
  // Configuration store

  /** The public getter `allocations(id)`. */
  function Allocations(r: Registry, id: nat): Result<AllocationData> {
    if id < |r.allocations| then Ok(r.allocations[id]) else Err(AllocationNotFound)
  }

  /** `addAllocationData`: a data manager appends a split whose shares sum to
      10000. The new allocation data gets the next sequential id, which the
      `AllocationDataAdded` event carries and is returned here. */
  function AddAllocationData(r: Registry, callerIsDataManager: bool, d: AllocationData): (res: Result<(Registry, nat)>)
    ensures !callerIsDataManager ==> res == Err(AccessDenied)
    ensures callerIsDataManager && Total(d) != TOTAL_SHARES ==> res == Err(SharesMustSumToTotal)
    ensures res.Ok? <==> callerIsDataManager && Total(d) == TOTAL_SHARES
    ensures res.Ok? ==>
      var (r', id) := res.value;
      && id == |r.allocations|
      && Allocations(r', id) == Ok(d)
      && (forall i :: 0 <= i < id ==> Allocations(r', i) == Allocations(r, i))
      && Allocations(r', id + 1).Err?
      && r'.allocationToTrees == r.allocationToTrees
      && r'.maxAssigned == r.maxAssigned
  {
    if !callerIsDataManager then Err(AccessDenied)
    else if Total(d) != TOTAL_SHARES then Err(SharesMustSumToTotal)
    else Ok((r.(allocations := r.allocations + [d]), |r.allocations|))
  }

  // ---------------------------------------------------------------------
  // Range index

  /** The public getter `allocationToTrees(i)`; out of range is `None`. */
  function AllocationToTrees(r: Registry, i: nat): Option<Entry> {
    if i < |r.allocationToTrees| then Some(r.allocationToTrees[i]) else None
  }

  /** The public getter `maxAssignedIndex`, as the contract's integer. */
  function MaxAssignedIndex(r: Registry): (v: nat)
    ensures r.maxAssigned.Unbounded? ==> v == MAX_UINT256
    ensures r.maxAssigned.Bounded? ==> v == r.maxAssigned.n
  {
    match r.maxAssigned
    case Bounded(n) => n
    case Unbounded => MAX_UINT256
  }

  /** `assignAllocationToTree(start, end, id)`: a data manager binds trees
      `[start, end]` (or `[start, ..)` when `end < start`) to existing
      allocation data `id`. The high-water mark becomes the larger of its old
      value and the range's end. The `AllocationToTreeAssigned` event's entry
      count is returned. */
  function AssignAllocationToTree(r: Registry, callerIsDataManager: bool, start: nat, end: nat, id: nat): (res: Result<(Registry, nat)>)
    ensures !callerIsDataManager ==> res == Err(AccessDenied)
    ensures callerIsDataManager && id >= |r.allocations| ==> res == Err(AllocationNotFound)
    ensures res.Ok? <==> callerIsDataManager && id < |r.allocations|
    ensures res.Ok? ==>
      var (r', count) := res.value;
      && count == |r'.allocationToTrees|
      && r'.allocations == r.allocations
      && BoundLe(r.maxAssigned, r'.maxAssigned)
      && (r'.maxAssigned.Unbounded? <==> end < start || r.maxAssigned.Unbounded?)
      && (r'.maxAssigned.Bounded? ==> end <= r'.maxAssigned.n && (r'.maxAssigned.n == end || r'.maxAssigned == r.maxAssigned))
  {
    if !callerIsDataManager then Err(AccessDenied)
    else if id >= |r.allocations| then Err(AllocationNotFound)
    else
      var coverage := CoverageEnd(start, end);
      var es := Assign(r.allocationToTrees, r.maxAssigned, start, coverage, id);
      Ok((Registry(r.allocations, es, MaxBound(r.maxAssigned, coverage)), |es|))
  }

  /** The integer `maxAssignedIndex()` reads after an accepted assignment:
      2^256 - 1 once a range is declared open-ended, otherwise the larger of
      the previous reading and the range's end. `end` is a uint256 argument. */
  lemma AssignMaxAssignedIndex(r: Registry, callerIsDataManager: bool, start: nat, end: nat, id: nat)
    requires AssignAllocationToTree(r, callerIsDataManager, start, end, id).Ok?
    requires end <= MAX_UINT256
    ensures
      var r' := AssignAllocationToTree(r, callerIsDataManager, start, end, id).value.0;
      MaxAssignedIndex(r') ==
        if end < start then MAX_UINT256
        else if MaxAssignedIndex(r) < end then end
        else MaxAssignedIndex(r)
  {
  }

  /** `findAllocationData(treeId)`: the allocation data of the entry that
      applies to the tree. */
  function FindAllocationData(r: Registry, treeId: nat): (res: Result<AllocationData>)
    ensures res == Err(NoCoverageForTree) <==>
      forall k :: 0 <= k < |r.allocationToTrees| ==> treeId < r.allocationToTrees[k].startingTreeId
  {
    match ConfigAt(r.allocationToTrees, treeId)
    case None => Err(NoCoverageForTree)
    case Some(id) => Allocations(r, id)
  }

  /** `exists(treeId)`: whether some allocation data applies to the tree. */
  function Exists(r: Registry, treeId: nat): (b: bool)
    ensures b ==> exists k :: 0 <= k < |r.allocationToTrees| && r.allocationToTrees[k].startingTreeId <= treeId
    ensures (&& IdsBelow(r.allocationToTrees, |r.allocations|)
             && exists k :: 0 <= k < |r.allocationToTrees| && r.allocationToTrees[k].startingTreeId <= treeId) ==> b
  {
    FindAllocationData(r, treeId).Ok?
  }

  // ---------------------------------------------------------------------
  // Invariant

  lemma InitialValid()
    ensures Valid(Initial) && |Initial.allocationToTrees| == 0 && MaxAssignedIndex(Initial) == 0
  {
  }

  /** Adding allocation data keeps the registry valid; only well-formed
      splits are ever stored. */
  lemma AddAllocationDataValid(r: Registry, callerIsDataManager: bool, d: AllocationData)
    requires Valid(r)
    requires AddAllocationData(r, callerIsDataManager, d).Ok?
    ensures Valid(AddAllocationData(r, callerIsDataManager, d).value.0)
  {
    var r' := AddAllocationData(r, callerIsDataManager, d).value.0;
    assert forall k :: 0 <= k < |r'.allocationToTrees| ==> r'.allocationToTrees[k].allocationDataId < |r'.allocations| by {
      assert |r'.allocations| == |r.allocations| + 1;
    }
  }

  /** Assigning a range keeps the registry valid: in particular the index
      stays strictly ascending whatever order the ranges arrive in. */
  lemma AssignAllocationToTreeValid(r: Registry, callerIsDataManager: bool, start: nat, end: nat, id: nat)
    requires Valid(r)
    requires AssignAllocationToTree(r, callerIsDataManager, start, end, id).Ok?
    ensures Valid(AssignAllocationToTree(r, callerIsDataManager, start, end, id).value.0)
  {
    var coverage := CoverageEnd(start, end);
    var es := r.allocationToTrees;
    AssignSorted(es, r.maxAssigned, start, coverage, id);
    AssignIdsBelow(es, r.maxAssigned, start, coverage, id, |r.allocations|);
    AssignStartsWithin(es, r.maxAssigned, start, coverage, id);
  }

  // ---------------------------------------------------------------------
  // Lookup

  /** On a valid registry the lookup returns the allocation data of the
      entry with the greatest start at or before the tree, and fails only
      when every entry starts after the tree. */
  lemma FindAllocationDataCorrect(r: Registry, treeId: nat)
    requires Valid(r)
    ensures FindAllocationData(r, treeId).Err? ==> FindAllocationData(r, treeId) == Err(NoCoverageForTree)
    ensures Exists(r, treeId) <==>
      exists k :: 0 <= k < |r.allocationToTrees| && r.allocationToTrees[k].startingTreeId <= treeId
    ensures Exists(r, treeId) ==>
      exists i :: 0 <= i < |r.allocationToTrees|
        && r.allocationToTrees[i].startingTreeId <= treeId
        && r.allocationToTrees[i].allocationDataId < |r.allocations|
        && FindAllocationData(r, treeId) == Ok(r.allocations[r.allocationToTrees[i].allocationDataId])
        && forall k :: 0 <= k < |r.allocationToTrees| && r.allocationToTrees[k].startingTreeId <= treeId ==>
             r.allocationToTrees[k].startingTreeId <= r.allocationToTrees[i].startingTreeId
    ensures Exists(r, treeId) ==> WellFormed(FindAllocationData(r, treeId).value)
  {
    LookupIsGreatestStart(r.allocationToTrees, treeId);
    ConfigAtStored(r.allocationToTrees, treeId, |r.allocations|);
  }

  /** What each tree resolves to after a successful assignment of
      `[start, end]` to allocation data `id`, in terms of what it resolved to
      before. Trees before the range keep their allocation data; trees in the
      range get `id`'s; trees past a range that ends below the previous
      high-water mark keep theirs, or get `id`'s if they had none; past a
      range that reaches the mark, `id`'s range is open-ended. */
  lemma AssignAllocationToTreeLookup(r: Registry, callerIsDataManager: bool, start: nat, end: nat, id: nat, treeId: nat)
    requires Valid(r)
    requires AssignAllocationToTree(r, callerIsDataManager, start, end, id).Ok?
    ensures
      var r' := AssignAllocationToTree(r, callerIsDataManager, start, end, id).value.0;
      var old_ := FindAllocationData(r, treeId);
      var new_ := FindAllocationData(r', treeId);
      && (treeId < start ==> new_ == old_)
      && (start <= treeId && (end < start || treeId <= end) ==> new_ == Ok(r.allocations[id]))
      && (start <= end < treeId && AtMost(end + 1, r.maxAssigned) ==>
            new_ == if old_.Ok? then old_ else Ok(r.allocations[id]))
      && (start <= end < treeId && !AtMost(end + 1, r.maxAssigned) ==> new_ == Ok(r.allocations[id]))
  {
    var r' := AssignAllocationToTree(r, callerIsDataManager, start, end, id).value.0;
    AssignLookup(r.allocationToTrees, r.maxAssigned, start, CoverageEnd(start, end), id, treeId);
    ConfigAtStored(r.allocationToTrees, treeId, |r.allocations|);
  }

  /** What `allocationToTrees(i)` reads after a successful assignment. The
      returned count is the number of readable entries. One of them is the
      range's own entry, every old entry that starts outside the declared
      coverage is still there, and any other entry is the restore entry at
      `end + 1`. Each entry that starts inside the coverage is dropped, and at
      most one entry is added besides the range's own. */
  lemma AssignAllocationToTreeEntries(r: Registry, callerIsDataManager: bool, start: nat, end: nat, id: nat,
                                      r': Registry, count: nat)
    requires AssignAllocationToTree(r, callerIsDataManager, start, end, id) == Ok((r', count))
    ensures
      var es := r.allocationToTrees;
      var coverage := CoverageEnd(start, end);
      && AllocationToTrees(r', count) == None
      && (exists j :: 0 <= j < count && AllocationToTrees(r', j) == Some(Entry(start, id)))
      && (forall k :: 0 <= k < |es| && Outside(es[k].startingTreeId, start, coverage) ==>
            exists j :: 0 <= j < count && AllocationToTrees(r', j) == Some(es[k]))
      && (forall j :: 0 <= j < count ==>
            && AllocationToTrees(r', j).Some?
            && var x := AllocationToTrees(r', j).value;
               || x == Entry(start, id)
               || (x in es && Outside(x.startingTreeId, start, coverage))
               || (start <= end && Restores(x, es, r.maxAssigned, end)))
      && |es| + 1 <= count + |Dropped(es, start, coverage)| <= |es| + 2
  {
    var es := r.allocationToTrees;
    var coverage := CoverageEnd(start, end);
    var a := r'.allocationToTrees;
    assert a == Assign(es, r.maxAssigned, start, coverage, id) && count == |a|;
    AssignIndexed(es, r.maxAssigned, start, coverage, id);
    AssignCount(es, r.maxAssigned, start, coverage, id);
    var i :| 0 <= i < |a| && a[i] == Entry(start, id);
    assert AllocationToTrees(r', i) == Some(Entry(start, id));
    forall k | 0 <= k < |es| && Outside(es[k].startingTreeId, start, coverage)
      ensures exists j :: 0 <= j < count && AllocationToTrees(r', j) == Some(es[k])
    {
      var j :| 0 <= j < |a| && a[j] == es[k];
      assert AllocationToTrees(r', j) == Some(es[k]);
    }
  }

  /** Assigning a range that ends inside already-covered trees below the
      high-water mark changes what a tree resolves to only inside the range. */
  lemma AssignInsideCoverage(r: Registry, callerIsDataManager: bool, start: nat, end: nat, id: nat, treeId: nat)
    requires Valid(r)
    requires AssignAllocationToTree(r, callerIsDataManager, start, end, id).Ok?
    requires start <= end && AtMost(end + 1, r.maxAssigned) && Exists(r, end + 1)
    ensures treeId < start || end < treeId ==>
      FindAllocationData(AssignAllocationToTree(r, callerIsDataManager, start, end, id).value.0, treeId) ==
        FindAllocationData(r, treeId)
    ensures start <= treeId <= end ==>
      FindAllocationData(AssignAllocationToTree(r, callerIsDataManager, start, end, id).value.0, treeId) ==
        Ok(r.allocations[id])
  {
    AssignAllocationToTreeLookup(r, callerIsDataManager, start, end, id, treeId);
    if end < treeId {
      FindAllocationDataCorrect(r, end + 1);
      FindAllocationDataCorrect(r, treeId);
    }
  }

  // ---------------------------------------------------------------------
  // Sequences of calls

  /** A call made by a data manager. */
  datatype Call =
    | AddData(data: AllocationData)
    | AssignRange(start: nat, end: nat, allocationDataId: nat)

  /** The registry after one call by a data manager. */
  function Step(r: Registry, c: Call): Result<Registry> {
    match c
    case AddData(d) =>
      (match AddAllocationData(r, true, d)
       case Ok(p) => Ok(p.0)
       case Err(e) => Err(e))
    case AssignRange(s, e, id) =>
      (match AssignAllocationToTree(r, true, s, e, id)
       case Ok(p) => Ok(p.0)
       case Err(err) => Err(err))
  }

  /** The registry after the calls in order, or the first rejection. */
  function Replay(r: Registry, calls: seq<Call>): Result<Registry>
    decreases |calls|
  {
    if |calls| == 0 then Ok(r)
    else match Step(r, calls[0])
      case Err(e) => Err(e)
      case Ok(r1) => Replay(r1, calls[1..])
  }

  /** The allocation data the calls add, in call order. */
  function AddedData(calls: seq<Call>): seq<AllocationData> {
    if |calls| == 0 then []
    else (if calls[0].AddData? then [calls[0].data] else []) + AddedData(calls[1..])
  }

  /** Any sequence of accepted calls keeps the registry valid. */
  lemma {:induction false} ReplayValid(r: Registry, calls: seq<Call>)
    requires Valid(r) && Replay(r, calls).Ok?
    ensures Valid(Replay(r, calls).value)
    decreases |calls|
  {
    if |calls| > 0 {
      var r1 := Step(r, calls[0]).value;
      match calls[0] {
        case AddData(d) => AddAllocationDataValid(r, true, d);
        case AssignRange(s, e, id) => AssignAllocationToTreeValid(r, true, s, e, id);
      }
      ReplayValid(r1, calls[1..]);
    }
  }

  /** Allocation data is append-only: accepted additions are stored in call
      order after what was there, so the k-th added split gets id
      `|r.allocations| + k`. */
  lemma {:induction false} ReplayAllocations(r: Registry, calls: seq<Call>)
    requires Replay(r, calls).Ok?
    ensures Replay(r, calls).value.allocations == r.allocations + AddedData(calls)
    decreases |calls|
  {
    if |calls| > 0 {
      var r1 := Step(r, calls[0]).value;
      ReplayAllocations(r1, calls[1..]);
      var added := if calls[0].AddData? then [calls[0].data] else [];
      assert r1.allocations == r.allocations + added;
      assert AddedData(calls) == added + AddedData(calls[1..]);
    }
  }

  /** The high-water mark after a sequence of calls is the greatest coverage
      end the assignments declared (or the starting mark): it bounds every
      declared end, it is one of them, and it never decreases. */
  lemma {:induction false} ReplayHighWater(r: Registry, calls: seq<Call>)
    requires Replay(r, calls).Ok?
    ensures BoundLe(r.maxAssigned, Replay(r, calls).value.maxAssigned)
    ensures forall k :: 0 <= k < |calls| && calls[k].AssignRange? ==>
      BoundLe(CoverageEnd(calls[k].start, calls[k].end), Replay(r, calls).value.maxAssigned)
    ensures Replay(r, calls).value.maxAssigned == r.maxAssigned ||
      exists k :: 0 <= k < |calls| && calls[k].AssignRange? &&
        Replay(r, calls).value.maxAssigned == CoverageEnd(calls[k].start, calls[k].end)
    decreases |calls|
  {
    if |calls| > 0 {
      var r1 := Step(r, calls[0]).value;
      var rest := calls[1..];
      ReplayHighWater(r1, rest);
      var m := Replay(r, calls).value.maxAssigned;
      assert BoundLe(r1.maxAssigned, m);
      forall k | 0 <= k < |calls| && calls[k].AssignRange?
        ensures BoundLe(CoverageEnd(calls[k].start, calls[k].end), m)
      {
        if k > 0 {
          assert calls[k] == rest[k - 1];
        }
      }
      if m != r.maxAssigned && m != r1.maxAssigned {
        var k :| 0 <= k < |rest| && rest[k].AssignRange? && m == CoverageEnd(rest[k].start, rest[k].end);
        assert calls[k + 1] == rest[k];
      }
    }
  }
}
