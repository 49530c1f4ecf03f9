/** The binary search the registry uses to find the entry that applies to a
    tree, proved to agree with the functional lookup of `RangeIndex`. */
module FloorSearch {
  import opened Results
  import opened RangeIndex

  /** Searches the sorted index for the entry with the greatest start at or
      before tree `t`. `found` is false exactly when no entry starts at or
      before `t`; otherwise `i` is that entry's position. */
  method FindFloor(es: seq<Entry>, t: nat) returns (found: bool, i: nat)
    requires Sorted(es)
    ensures found <==> exists k :: 0 <= k < |es| && es[k].startingTreeId <= t
    ensures found ==> i < |es| && es[i].startingTreeId <= t
    ensures found ==> forall k :: 0 <= k < |es| && es[k].startingTreeId <= t ==> k <= i
    ensures found ==> ConfigAt(es, t) == Some(es[i].allocationDataId)
    ensures !found ==> ConfigAt(es, t) == None
  {
    var lo, hi := 0, |es|;
    while lo < hi
      invariant 0 <= lo <= hi <= |es|
      invariant forall k :: 0 <= k < lo ==> es[k].startingTreeId <= t
      invariant forall k :: hi <= k < |es| ==> t < es[k].startingTreeId
      decreases hi - lo
    {
      var mid := lo + (hi - lo) / 2;
      if es[mid].startingTreeId <= t {
        lo := mid + 1;
      } else {
        hi := mid;
      }
    }
    if lo == 0 {
      found, i := false, 0;
    } else {
      found, i := true, lo - 1;
      FloorUnique(es, t, i);
    }
  }
}
