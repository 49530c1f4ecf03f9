/** The range index of the allocation registry: an ordered sequence of
    (startingTreeId, allocationDataId) entries. An entry applies from its
    starting tree id up to the tree before the next entry's start; the last
    entry is open-ended. Assigning a range overwrites the entries that start
    inside it and, where the range ends inside previously committed
    coverage, adds a restore entry so that the trees after the range keep
    their configuration. */
module RangeIndex {
  import opened Results

  datatype Entry = Entry(startingTreeId: nat, allocationDataId: nat)

  /** A tree id that may be infinite. The contract stores the unbounded case
      as 2^256 - 1; here it is a constructor of its own. */
  datatype Bound = Bounded(n: nat) | Unbounded

  /** `t <= b`, with every tree id below `Unbounded`. */
  predicate AtMost(t: nat, b: Bound) {
    b.Unbounded? || t <= b.n
  }

  /** `a <= b` on bounds. */
  predicate BoundLe(a: Bound, b: Bound) {
    b.Unbounded? || (a.Bounded? && a.n <= b.n)
  }

  /** The larger of two bounds. */
  function MaxBound(a: Bound, b: Bound): (m: Bound)
    ensures BoundLe(a, m) && BoundLe(b, m)
    ensures m == a || m == b
  {
    if BoundLe(a, b) then b else a
  }

  /** The coverage an assignment `(start, end)` declares: an end below the
      start declares unbounded coverage from the start onwards. */
  function CoverageEnd(start: nat, end: nat): (b: Bound)
    ensures b.Unbounded? <==> end < start
    ensures b.Bounded? ==> b.n == end && start <= b.n
  {
    if end < start then Unbounded else Bounded(end)
  }

  /** Starting tree ids strictly ascend in storage order: no duplicates. */
  ghost predicate Sorted(es: seq<Entry>) {
    forall i, j :: 0 <= i < j < |es| ==> es[i].startingTreeId < es[j].startingTreeId
  }

  /** Every entry starts at or below `b`. */
  ghost predicate StartsWithin(es: seq<Entry>, b: Bound) {
    forall k :: 0 <= k < |es| ==> AtMost(es[k].startingTreeId, b)
  }

  /** Every entry starts after tree `x`. */
  ghost predicate StartsAfter(es: seq<Entry>, x: nat) {
    forall k :: 0 <= k < |es| ==> x < es[k].startingTreeId
  }

  /** Every entry refers to an allocation id below `n`. */
  ghost predicate IdsBelow(es: seq<Entry>, n: nat) {
    forall k :: 0 <= k < |es| ==> es[k].allocationDataId < n
  }

  /** The index of the last entry that starts at or before tree `t`. */
  function Floor(es: seq<Entry>, t: nat): (r: Option<nat>)
    ensures r.Some? ==> r.value < |es| && es[r.value].startingTreeId <= t
    ensures r.Some? ==> forall j :: r.value < j < |es| ==> t < es[j].startingTreeId
    ensures r.None? ==> forall j :: 0 <= j < |es| ==> t < es[j].startingTreeId
  {
    if |es| == 0 then None
    else if es[|es| - 1].startingTreeId <= t then Some(|es| - 1)
    else Floor(es[..|es| - 1], t)
  }

  /** The allocation id that applies to tree `t`, if any entry covers it. */
  function ConfigAt(es: seq<Entry>, t: nat): (r: Option<nat>)
    ensures r.None? <==> forall k :: 0 <= k < |es| ==> t < es[k].startingTreeId
    ensures r.Some? ==>
      exists i :: 0 <= i < |es| && es[i].startingTreeId <= t && es[i].allocationDataId == r.value &&
        forall j :: i < j < |es| ==> t < es[j].startingTreeId
  {
    match Floor(es, t)
    case None => None
    case Some(i) => Some(es[i].allocationDataId)
  }

  /** Whether some entry starts exactly at `x`. */
  function HasStart(es: seq<Entry>, x: nat): (b: bool)
    ensures b <==> exists k :: 0 <= k < |es| && es[k].startingTreeId == x
  {
    if |es| == 0 then false
    else es[0].startingTreeId == x || HasStart(es[1..], x)
  }

  /** The entries that start before `x`, in order. */
  function Below(es: seq<Entry>, x: nat): (r: seq<Entry>)
    ensures forall k :: 0 <= k < |r| ==> r[k].startingTreeId < x
  {
    if |es| == 0 then []
    else if es[0].startingTreeId < x then [es[0]] + Below(es[1..], x)
    else Below(es[1..], x)
  }

  /** The entries that start at or after `x`, in order. */
  function From(es: seq<Entry>, x: nat): (r: seq<Entry>)
    ensures forall k :: 0 <= k < |r| ==> x <= r[k].startingTreeId
  {
    if |es| == 0 then []
    else if x <= es[0].startingTreeId then [es[0]] + From(es[1..], x)
    else From(es[1..], x)
  }

  /** The entry that keeps tree `end + 1` on its previous configuration after
      `[.., end]` is overwritten. It is added only when the assignment ends
      below the previous high-water mark, some entry covered `end + 1`, and
      no entry already starts there (that entry then survives instead). */
  function Restore(es: seq<Entry>, maxIndex: Bound, end: nat): (r: seq<Entry>)
    ensures |r| <= 1
  {
    if AtMost(end + 1, maxIndex) && !HasStart(es, end + 1) then
      match ConfigAt(es, end + 1)
      case Some(c) => [Entry(end + 1, c)]
      case None => []
    else []
  }

  /** The entries after assigning `[start, end]` to allocation `id`: entries
      starting inside the range are dropped, `(start, id)` takes their place,
      and a restore entry may follow. An unbounded range drops every entry
      from `start` onwards. */
  function Assign(es: seq<Entry>, maxIndex: Bound, start: nat, end: Bound, id: nat): seq<Entry> {
    match end
    case Unbounded => Below(es, start) + [Entry(start, id)]
    case Bounded(e) => Below(es, start) + [Entry(start, id)] + After(es, maxIndex, e)
  }

  /** What survives after a bounded range `[.., e]`: the restore entry and
      the entries that start past `e`. */
  function After(es: seq<Entry>, maxIndex: Bound, e: nat): seq<Entry> {
    Restore(es, maxIndex, e) + From(es, e + 1)
  }

  // ---------------------------------------------------------------------
  // Lookup

  /** `Floor` is determined by its contract: the last entry at or before `t`. */
  lemma FloorUnique(es: seq<Entry>, t: nat, i: nat)
    requires i < |es| && es[i].startingTreeId <= t
    requires forall j :: i < j < |es| ==> t < es[j].startingTreeId
    ensures Floor(es, t) == Some(i)
  {
  }

  /** On a sorted index the lookup returns the configuration of the entry
      with the greatest start at or before `t`, and fails exactly when every
      entry starts after `t`. */
  lemma LookupIsGreatestStart(es: seq<Entry>, t: nat)
    requires Sorted(es)
    ensures ConfigAt(es, t).None? <==> forall k :: 0 <= k < |es| ==> t < es[k].startingTreeId
    ensures ConfigAt(es, t).Some? ==>
      exists i :: 0 <= i < |es| && es[i].startingTreeId <= t && es[i].allocationDataId == ConfigAt(es, t).value &&
        forall k :: 0 <= k < |es| && es[k].startingTreeId <= t ==> es[k].startingTreeId <= es[i].startingTreeId
  {
  }

  /** Looking up in a concatenation: the later part wins when it covers `t`. */
  lemma ConfigAtAppend(a: seq<Entry>, b: seq<Entry>, t: nat)
    ensures ConfigAt(a + b, t) == if ConfigAt(b, t).Some? then ConfigAt(b, t) else ConfigAt(a, t)
  {
    var ab := a + b;
    match Floor(b, t)
    case Some(i) =>
      assert ab[|a| + i] == b[i];
      forall j | |a| + i < j < |ab| ensures t < ab[j].startingTreeId {
        assert ab[j] == b[j - |a|];
      }
      FloorUnique(ab, t, |a| + i);
    case None =>
      match Floor(a, t)
      case Some(i) =>
        assert ab[i] == a[i];
        forall j | i < j < |ab| ensures t < ab[j].startingTreeId {
          if j < |a| { assert ab[j] == a[j]; } else { assert ab[j] == b[j - |a|]; }
        }
        FloorUnique(ab, t, i);
      case None =>
        forall j | 0 <= j < |ab| ensures t < ab[j].startingTreeId {
          if j < |a| { assert ab[j] == a[j]; } else { assert ab[j] == b[j - |a|]; }
        }
    }

  /** When every entry starts at or below `x`, trees from `x` on all resolve
      like `x`. */
  lemma ConfigAtPastLast(es: seq<Entry>, x: nat, t: nat)
    requires x <= t
    requires forall k :: 0 <= k < |es| ==> es[k].startingTreeId <= x
    ensures ConfigAt(es, t) == ConfigAt(es, x)
  {
    if |es| > 0 {
      FloorUnique(es, t, |es| - 1);
      FloorUnique(es, x, |es| - 1);
    }
  }

  // ---------------------------------------------------------------------
  // Splitting a sorted index

  /** When every entry starts at or after `x`, nothing lies before `x`. */
  lemma {:induction false} AllFrom(es: seq<Entry>, x: nat)
    requires forall k :: 0 <= k < |es| ==> x <= es[k].startingTreeId
    ensures Below(es, x) == [] && From(es, x) == es
  {
    if |es| > 0 {
      AllFrom(es[1..], x);
      assert es == [es[0]] + es[1..];
    }
  }

  /** When every entry starts before `x`, nothing lies from `x` on. */
  lemma {:induction false} AllBelow(es: seq<Entry>, x: nat)
    requires forall k :: 0 <= k < |es| ==> es[k].startingTreeId < x
    ensures Below(es, x) == es && From(es, x) == []
  {
    if |es| > 0 {
      AllBelow(es[1..], x);
      assert es == [es[0]] + es[1..];
    }
  }

  /** A sorted index is the entries before `x` followed by those from `x`. */
  lemma {:induction false} SplitSorted(es: seq<Entry>, x: nat)
    requires Sorted(es)
    ensures es == Below(es, x) + From(es, x)
  {
    if |es| > 0 {
      var tail := es[1..];
      assert es == [es[0]] + tail;
      if x <= es[0].startingTreeId {
        AllFrom(es, x);
      } else {
        assert Sorted(tail);
        SplitSorted(tail, x);
        assert Below(es, x) == [es[0]] + Below(tail, x);
        assert From(es, x) == From(tail, x);
      }
    }
  }

  /** When the entries before index `k` start before `x` and the rest start
      at or after it, the split at `x` falls at `k`. */
  lemma {:induction false} SplitAt(es: seq<Entry>, x: nat, k: nat)
    requires k <= |es|
    requires forall j :: 0 <= j < k ==> es[j].startingTreeId < x
    requires forall j :: k <= j < |es| ==> x <= es[j].startingTreeId
    ensures Below(es, x) == es[..k] && From(es, x) == es[k..]
  {
    if k == 0 {
      AllFrom(es, x);
    } else {
      SplitAt(es[1..], x, k - 1);
      assert es[..k] == [es[0]] + es[1..][..k - 1];
      assert es[k..] == es[1..][k - 1..];
    }
  }

  /** On a sorted index the entries before `x` are a prefix and those from
      `x` the matching suffix. */
  lemma SplitIndices(es: seq<Entry>, x: nat)
    requires Sorted(es)
    ensures |Below(es, x)| <= |es|
    ensures Below(es, x) == es[..|Below(es, x)|]
    ensures From(es, x) == es[|Below(es, x)|..]
  {
    SplitSorted(es, x);
  }

  lemma BelowSorted(es: seq<Entry>, x: nat)
    requires Sorted(es)
    ensures Sorted(Below(es, x))
  {
    SplitIndices(es, x);
  }

  lemma FromSorted(es: seq<Entry>, x: nat)
    requires Sorted(es)
    ensures Sorted(From(es, x))
  {
    SplitIndices(es, x);
  }

  /** Joining two sorted runs whose starts are separated stays sorted. */
  lemma SortedJoin(a: seq<Entry>, b: seq<Entry>)
    requires Sorted(a) && Sorted(b)
    requires forall i, j :: 0 <= i < |a| && 0 <= j < |b| ==> a[i].startingTreeId < b[j].startingTreeId
    ensures Sorted(a + b)
  {
    var ab := a + b;
    forall i, j | 0 <= i < j < |ab| ensures ab[i].startingTreeId < ab[j].startingTreeId {
      if j < |a| {
        assert ab[i] == a[i] && ab[j] == a[j];
      } else if i < |a| {
        assert ab[i] == a[i] && ab[j] == b[j - |a|];
      } else {
        assert ab[i] == b[i - |a|] && ab[j] == b[j - |a|];
      }
    }
  }

  /** The allocation id a lookup returns is one stored in some entry. */
  lemma ConfigAtStored(es: seq<Entry>, t: nat, n: nat)
    requires IdsBelow(es, n)
    ensures ConfigAt(es, t).Some? ==> ConfigAt(es, t).value < n
  {
  }

  // ---------------------------------------------------------------------
  // Assignment

  /** A bounded assignment is the entries before the range, the range's own
      entry, the restore entry if any, and the entries after the range. */
  lemma AssignParts(es: seq<Entry>, maxIndex: Bound, start: nat, e: nat, id: nat,
                    below: seq<Entry>, restore: seq<Entry>, from: seq<Entry>)
    requires Below(es, start) == below
    requires Restore(es, maxIndex, e) == restore
    requires From(es, e + 1) == from
    ensures Assign(es, maxIndex, start, Bounded(e), id) == below + [Entry(start, id)] + restore + from
  {
  }

  /** What follows a bounded range `[.., e]` is sorted and lies past `e`. */
  lemma AfterSorted(es: seq<Entry>, maxIndex: Bound, e: nat)
    requires Sorted(es)
    ensures Sorted(After(es, maxIndex, e)) && StartsAfter(After(es, maxIndex, e), e)
  {
    var r := Restore(es, maxIndex, e);
    var f := From(es, e + 1);
    assert Sorted(f) by {
      FromSorted(es, e + 1);
    }
    assert r != [] ==> StartsAfter(f, e + 1) by {
      if r != [] {
        FromPastStart(es, e + 1);
      }
    }
    SortedJoin(r, f);
    JoinKeeps(r, f, (x: Entry) => e < x.startingTreeId);
  }

  /** When no entry starts exactly at `x`, the entries from `x` start past it. */
  lemma FromPastStart(es: seq<Entry>, x: nat)
    requires Sorted(es) && !HasStart(es, x)
    ensures StartsAfter(From(es, x), x)
  {
    var f := From(es, x);
    SplitIndices(es, x);
    forall j | 0 <= j < |f| ensures x < f[j].startingTreeId {
      assert f[j] == es[|Below(es, x)| + j];
    }
  }

  /** Assignment keeps the index strictly ascending, whatever order the
      assignments arrive in. */
  lemma AssignSorted(es: seq<Entry>, maxIndex: Bound, start: nat, end: Bound, id: nat)
    requires Sorted(es)
    requires end.Bounded? ==> start <= end.n
    ensures Sorted(Assign(es, maxIndex, start, end, id))
  {
    var b := Below(es, start);
    var n := [Entry(start, id)];
    BelowSorted(es, start);
    SortedJoin(b, n);
    if end.Bounded? {
      AfterSorted(es, maxIndex, end.n);
      SortedJoin(b + n, After(es, maxIndex, end.n));
    }
  }

  /** The parts of a sorted index keep every per-entry property `P` of the
      whole index. */
  lemma PartsKeep(es: seq<Entry>, x: nat, P: Entry -> bool)
    requires Sorted(es)
    requires forall k :: 0 <= k < |es| ==> P(es[k])
    ensures forall k :: 0 <= k < |Below(es, x)| ==> P(Below(es, x)[k])
    ensures forall k :: 0 <= k < |From(es, x)| ==> P(From(es, x)[k])
  {
    SplitIndices(es, x);
    var b := Below(es, x);
    var f := From(es, x);
    forall k | 0 <= k < |b| ensures P(b[k]) {
      assert b[k] == es[k];
    }
    forall k | 0 <= k < |f| ensures P(f[k]) {
      assert f[k] == es[|b| + k];
    }
  }

  /** A concatenation keeps a per-entry property both parts have. */
  lemma JoinKeeps(a: seq<Entry>, b: seq<Entry>, P: Entry -> bool)
    requires forall k :: 0 <= k < |a| ==> P(a[k])
    requires forall k :: 0 <= k < |b| ==> P(b[k])
    ensures forall k :: 0 <= k < |a + b| ==> P((a + b)[k])
  {
    forall k | 0 <= k < |a + b| ensures P((a + b)[k]) {
      if k < |a| { assert (a + b)[k] == a[k]; } else { assert (a + b)[k] == b[k - |a|]; }
    }
  }

  /** Every entry after the assignment starts within the new high-water mark,
      provided every entry did before. */
  lemma AssignStartsWithin(es: seq<Entry>, maxIndex: Bound, start: nat, end: Bound, id: nat)
    requires Sorted(es) && StartsWithin(es, maxIndex)
    requires end.Bounded? ==> start <= end.n
    ensures StartsWithin(Assign(es, maxIndex, start, end, id), MaxBound(maxIndex, end))
  {
    var m := MaxBound(maxIndex, end);
    var head := Below(es, start) + [Entry(start, id)];
    HeadWithin(es, maxIndex, start, id, m);
    if end.Bounded? {
      AfterWithin(es, maxIndex, end.n, m);
      WithinJoin(head, After(es, maxIndex, end.n), m);
    }
  }

  lemma HeadWithin(es: seq<Entry>, maxIndex: Bound, start: nat, id: nat, m: Bound)
    requires Sorted(es) && StartsWithin(es, maxIndex)
    requires BoundLe(maxIndex, m) && AtMost(start, m)
    ensures StartsWithin(Below(es, start) + [Entry(start, id)], m)
  {
    var P := (x: Entry) => AtMost(x.startingTreeId, m);
    PartsKeep(es, start, P);
    JoinKeeps(Below(es, start), [Entry(start, id)], P);
  }

  lemma AfterWithin(es: seq<Entry>, maxIndex: Bound, e: nat, m: Bound)
    requires Sorted(es) && StartsWithin(es, maxIndex)
    requires BoundLe(maxIndex, m)
    ensures StartsWithin(After(es, maxIndex, e), m)
  {
    var P := (x: Entry) => AtMost(x.startingTreeId, m);
    PartsKeep(es, e + 1, P);
    JoinKeeps(Restore(es, maxIndex, e), From(es, e + 1), P);
  }

  lemma WithinJoin(a: seq<Entry>, b: seq<Entry>, m: Bound)
    requires StartsWithin(a, m) && StartsWithin(b, m)
    ensures StartsWithin(a + b, m)
  {
    JoinKeeps(a, b, (x: Entry) => AtMost(x.startingTreeId, m));
  }

  /** Assignment keeps every reference below `n` when `id` is below `n`. */
  lemma AssignIdsBelow(es: seq<Entry>, maxIndex: Bound, start: nat, end: Bound, id: nat, n: nat)
    requires Sorted(es) && IdsBelow(es, n) && id < n
    ensures IdsBelow(Assign(es, maxIndex, start, end, id), n)
  {
    var head := Below(es, start) + [Entry(start, id)];
    HeadIdsBelow(es, start, id, n);
    if end.Bounded? {
      AfterIdsBelow(es, maxIndex, end.n, n);
      IdsBelowJoin(head, After(es, maxIndex, end.n), n);
    }
  }

  lemma HeadIdsBelow(es: seq<Entry>, start: nat, id: nat, n: nat)
    requires Sorted(es) && IdsBelow(es, n) && id < n
    ensures IdsBelow(Below(es, start) + [Entry(start, id)], n)
  {
    var P := (x: Entry) => x.allocationDataId < n;
    PartsKeep(es, start, P);
    JoinKeeps(Below(es, start), [Entry(start, id)], P);
  }

  lemma AfterIdsBelow(es: seq<Entry>, maxIndex: Bound, e: nat, n: nat)
    requires Sorted(es) && IdsBelow(es, n)
    ensures IdsBelow(After(es, maxIndex, e), n)
  {
    var P := (x: Entry) => x.allocationDataId < n;
    PartsKeep(es, e + 1, P);
    ConfigAtStored(es, e + 1, n);
    JoinKeeps(Restore(es, maxIndex, e), From(es, e + 1), P);
  }

  lemma IdsBelowJoin(a: seq<Entry>, b: seq<Entry>, n: nat)
    requires IdsBelow(a, n) && IdsBelow(b, n)
    ensures IdsBelow(a + b, n)
  {
    JoinKeeps(a, b, (x: Entry) => x.allocationDataId < n);
  }

  // ---------------------------------------------------------------------
  // What is stored after an assignment

  /** The entries an assignment of `[start, end]` drops: those that start
      inside the range. */
  function Dropped(es: seq<Entry>, start: nat, end: Bound): seq<Entry> {
    if |es| == 0 then []
    else if start <= es[0].startingTreeId && AtMost(es[0].startingTreeId, end) then [es[0]] + Dropped(es[1..], start, end)
    else Dropped(es[1..], start, end)
  }

  lemma {:induction false} BelowMembers(es: seq<Entry>, x: nat)
    ensures forall y :: y in Below(es, x) <==> y in es && y.startingTreeId < x
  {
    if |es| > 0 {
      BelowMembers(es[1..], x);
      assert es == [es[0]] + es[1..];
    }
  }

  lemma {:induction false} FromMembers(es: seq<Entry>, x: nat)
    ensures forall y :: y in From(es, x) <==> y in es && x <= y.startingTreeId
  {
    if |es| > 0 {
      FromMembers(es[1..], x);
      assert es == [es[0]] + es[1..];
    }
  }

  lemma {:induction false} DroppedMembers(es: seq<Entry>, start: nat, end: Bound)
    ensures forall y :: y in Dropped(es, start, end) <==>
      y in es && start <= y.startingTreeId && AtMost(y.startingTreeId, end)
  {
    if |es| > 0 {
      DroppedMembers(es[1..], start, end);
      assert es == [es[0]] + es[1..];
    }
  }

  /** Every entry starts before the range, inside it, or after it. */
  lemma {:induction false} DroppedCount(es: seq<Entry>, start: nat, end: Bound)
    requires end.Bounded? ==> start <= end.n
    ensures |Below(es, start)| + |Dropped(es, start, end)| + (if end.Bounded? then |From(es, end.n + 1)| else 0) == |es|
  {
    if |es| > 0 {
      DroppedCount(es[1..], start, end);
    }
  }

  /** Whether tree `t` lies outside the range `[start, end]`: before its
      start, or past a bounded end. */
  predicate Outside(t: nat, start: nat, end: Bound) {
    t < start || (end.Bounded? && end.n < t)
  }

  /** Whether `x` is the restore entry for a range ending at `e`: it starts
      at `e + 1`, which lies within the old high-water mark, no old entry
      starts there, and it carries the configuration `e + 1` had. */
  ghost predicate Restores(x: Entry, es: seq<Entry>, maxIndex: Bound, e: nat) {
    && x.startingTreeId == e + 1
    && AtMost(e + 1, maxIndex) && !HasStart(es, e + 1)
    && ConfigAt(es, e + 1) == Some(x.allocationDataId)
  }

  /** The stored entries after an assignment, entry by entry: the range's own
      entry, every old entry that starts outside the range, and the restore
      entry when there is one. Nothing else is stored; in particular no
      entry starts inside `(start, end]`. */
  lemma AssignEntries(es: seq<Entry>, maxIndex: Bound, start: nat, end: Bound, id: nat)
    ensures forall x :: x in Assign(es, maxIndex, start, end, id) <==>
      || x == Entry(start, id)
      || (x in es && Outside(x.startingTreeId, start, end))
      || (end.Bounded? && Restores(x, es, maxIndex, end.n))
  {
    var a := Assign(es, maxIndex, start, end, id);
    var b := Below(es, start);
    BelowMembers(es, start);
    if end.Bounded? {
      var r := Restore(es, maxIndex, end.n);
      var f := From(es, end.n + 1);
      FromMembers(es, end.n + 1);
      RestoreMembers(es, maxIndex, end.n);
      assert a == b + [Entry(start, id)] + (r + f);
      forall x ensures x in a <==> x in b || x == Entry(start, id) || x in r || x in f {
      }
    } else {
      assert a == b + [Entry(start, id)];
    }
  }

  lemma RestoreMembers(es: seq<Entry>, maxIndex: Bound, e: nat)
    ensures forall x :: x in Restore(es, maxIndex, e) <==> Restores(x, es, maxIndex, e)
  {
  }

  /** `AssignEntries` position by position: where each stored entry comes
      from, and where each surviving old entry went. */
  lemma AssignIndexed(es: seq<Entry>, maxIndex: Bound, start: nat, end: Bound, id: nat)
    ensures
      var a := Assign(es, maxIndex, start, end, id);
      && (exists j :: 0 <= j < |a| && a[j] == Entry(start, id))
      && (forall k :: 0 <= k < |es| && Outside(es[k].startingTreeId, start, end) ==>
            exists j :: 0 <= j < |a| && a[j] == es[k])
      && (forall j :: 0 <= j < |a| ==>
            || a[j] == Entry(start, id)
            || (a[j] in es && Outside(a[j].startingTreeId, start, end))
            || (end.Bounded? && Restores(a[j], es, maxIndex, end.n)))
  {
    var a := Assign(es, maxIndex, start, end, id);
    AssignEntries(es, maxIndex, start, end, id);
    assert Entry(start, id) in a;
    forall k | 0 <= k < |es| && Outside(es[k].startingTreeId, start, end)
      ensures exists j :: 0 <= j < |a| && a[j] == es[k]
    {
      assert es[k] in a;
    }
    forall j | 0 <= j < |a|
      ensures
        || a[j] == Entry(start, id)
        || (a[j] in es && Outside(a[j].startingTreeId, start, end))
        || (end.Bounded? && Restores(a[j], es, maxIndex, end.n))
    {
      assert a[j] in a;
    }
  }

  /** An assignment stores one entry more than the old index had, less the
      entries it drops, plus the restore entry if there is one; so the count
      grows by at most two. */
  lemma AssignCount(es: seq<Entry>, maxIndex: Bound, start: nat, end: Bound, id: nat)
    requires end.Bounded? ==> start <= end.n
    ensures |Assign(es, maxIndex, start, end, id)| + |Dropped(es, start, end)| ==
      |es| + 1 + (if end.Bounded? then |Restore(es, maxIndex, end.n)| else 0)
    ensures |Assign(es, maxIndex, start, end, id)| <= |es| + 2
  {
    DroppedCount(es, start, end);
    if end.Bounded? {
      assert |Assign(es, maxIndex, start, end, id)| ==
        |Below(es, start)| + 1 + |Restore(es, maxIndex, end.n)| + |From(es, end.n + 1)|;
    }
  }

  /** Trees before the range keep their configuration. */
  lemma AssignLookupBefore(es: seq<Entry>, maxIndex: Bound, start: nat, end: Bound, id: nat, t: nat)
    requires Sorted(es)
    requires end.Bounded? ==> start <= end.n
    requires t < start
    ensures ConfigAt(Assign(es, maxIndex, start, end, id), t) == ConfigAt(es, t)
  {
    HeadLookupBefore(es, start, id, t);
    if end.Bounded? {
      AfterSorted(es, maxIndex, end.n);
      AppendUncovered(Below(es, start) + [Entry(start, id)], After(es, maxIndex, end.n), t);
    }
  }

  /** Entries that all start after `t` do not change what `t` resolves to. */
  lemma AppendUncovered(a: seq<Entry>, b: seq<Entry>, t: nat)
    requires StartsAfter(b, t)
    ensures ConfigAt(a + b, t) == ConfigAt(a, t)
  {
    ConfigAtAppend(a, b, t);
  }

  /** Before `start`, the entries before `start` and the new entry resolve
      trees as the whole index did. */
  lemma HeadLookupBefore(es: seq<Entry>, start: nat, id: nat, t: nat)
    requires Sorted(es) && t < start
    ensures ConfigAt(Below(es, start) + [Entry(start, id)], t) == ConfigAt(es, t)
  {
    AppendUncovered(Below(es, start), [Entry(start, id)], t);
    SplitSorted(es, start);
    AppendUncovered(Below(es, start), From(es, start), t);
  }

  /** Trees inside the range resolve to the assigned configuration. */
  lemma AssignLookupInside(es: seq<Entry>, maxIndex: Bound, start: nat, end: Bound, id: nat, t: nat)
    requires Sorted(es)
    requires start <= t && AtMost(t, end)
    ensures ConfigAt(Assign(es, maxIndex, start, end, id), t) == Some(id)
  {
    var b := Below(es, start);
    var n := [Entry(start, id)];
    ConfigAtAppend(b, n, t);
    if end.Bounded? {
      AfterSorted(es, maxIndex, end.n);
      ConfigAtAppend(b + n, After(es, maxIndex, end.n), t);
    }
  }

  /** Trees past a bounded range keep a configuration they had when the range
      ends below the previous high-water mark; otherwise they fall to the
      assigned configuration, which is open-ended. */
  lemma AssignLookupPast(es: seq<Entry>, maxIndex: Bound, start: nat, e: nat, id: nat, t: nat)
    requires Sorted(es) && StartsWithin(es, maxIndex)
    requires start <= e < t
    ensures ConfigAt(Assign(es, maxIndex, start, Bounded(e), id), t) ==
      if AtMost(e + 1, maxIndex) && ConfigAt(es, t).Some? then ConfigAt(es, t) else Some(id)
  {
    var head := Below(es, start) + [Entry(start, id)];
    var tail := After(es, maxIndex, e);
    assert ConfigAt(head + tail, t) == if ConfigAt(tail, t).Some? then ConfigAt(tail, t) else Some(id) by {
      ConfigAtAppend(Below(es, start), [Entry(start, id)], t);
      ConfigAtAppend(head, tail, t);
    }
    assert ConfigAt(tail, t) == if AtMost(e + 1, maxIndex) then ConfigAt(es, t) else None by {
      AfterLookup(es, maxIndex, e, t);
    }
  }

  /** Past `e`, the entries that follow a bounded range resolve a tree as
      before when the range ended below the high-water mark, and cover
      nothing otherwise. */
  lemma AfterLookup(es: seq<Entry>, maxIndex: Bound, e: nat, t: nat)
    requires Sorted(es) && StartsWithin(es, maxIndex)
    requires e < t
    ensures ConfigAt(After(es, maxIndex, e), t) == if AtMost(e + 1, maxIndex) then ConfigAt(es, t) else None
  {
    var r := Restore(es, maxIndex, e);
    var f := From(es, e + 1);
    assert ConfigAt(r + f, t) == if ConfigAt(f, t).Some? then ConfigAt(f, t) else ConfigAt(r, t) by {
      ConfigAtAppend(r, f, t);
    }
    if !AtMost(e + 1, maxIndex) {
      FromBeyondMark(es, maxIndex, e + 1);
    } else {
      AfterLookupBelowMark(es, maxIndex, e, t);
    }
  }

  /** The case of `AfterLookup` for a range that ends below the mark. */
  lemma AfterLookupBelowMark(es: seq<Entry>, maxIndex: Bound, e: nat, t: nat)
    requires Sorted(es) && e < t && AtMost(e + 1, maxIndex)
    ensures ConfigAt(es, t) ==
      if ConfigAt(From(es, e + 1), t).Some? then ConfigAt(From(es, e + 1), t)
      else ConfigAt(Restore(es, maxIndex, e), t)
  {
    var f := From(es, e + 1);
    var lo := Below(es, e + 1);
    assert ConfigAt(es, t) == if ConfigAt(f, t).Some? then ConfigAt(f, t) else ConfigAt(lo, t) by {
      SplitSorted(es, e + 1);
      ConfigAtAppend(lo, f, t);
    }
    if ConfigAt(f, t).None? {
      assert ConfigAt(Restore(es, maxIndex, e), t) == ConfigAt(es, e + 1) by {
        NoStartPast(es, e, t);
        RestoreLookup(es, maxIndex, e, t);
      }
      assert ConfigAt(es, e + 1) == ConfigAt(lo, t) by {
        SplitSorted(es, e + 1);
        ConfigAtAppend(lo, f, e + 1);
        ConfigAtPastLast(lo, e + 1, t);
      }
    }
  }

  /** Nothing starts past the high-water mark. */
  lemma FromBeyondMark(es: seq<Entry>, maxIndex: Bound, x: nat)
    requires StartsWithin(es, maxIndex) && !AtMost(x, maxIndex)
    ensures From(es, x) == []
  {
    AllBelow(es, x);
  }

  /** If no entry from `e + 1` covers `t > e`, no entry starts at `e + 1`. */
  lemma NoStartPast(es: seq<Entry>, e: nat, t: nat)
    requires Sorted(es) && e < t && ConfigAt(From(es, e + 1), t).None?
    ensures !HasStart(es, e + 1)
  {
    var f := From(es, e + 1);
    var lo := Below(es, e + 1);
    SplitIndices(es, e + 1);
    forall k | 0 <= k < |es| ensures es[k].startingTreeId != e + 1 {
      if k < |lo| {
        assert es[k] == lo[k];
      } else {
        assert es[k] == f[k - |lo|];
      }
    }
  }

  /** The restore entry resolves trees past `e` to what `e + 1` resolved to. */
  lemma RestoreLookup(es: seq<Entry>, maxIndex: Bound, e: nat, t: nat)
    requires e < t && AtMost(e + 1, maxIndex) && !HasStart(es, e + 1)
    ensures ConfigAt(Restore(es, maxIndex, e), t) == ConfigAt(es, e + 1)
  {
    match ConfigAt(es, e + 1)
    case None =>
    case Some(c) =>
      FloorUnique([Entry(e + 1, c)], t, 0);
  }

  /** What each tree resolves to after assigning `[start, end]` to `id`, in
      terms of what it resolved to before:
      - trees before `start` keep their configuration;
      - trees inside the range resolve to `id`;
      - trees after a range that ends below the previous high-water mark keep
        their configuration if they had one, and otherwise resolve to `id`;
      - trees after a range that reaches the high-water mark resolve to `id`
        (the last range is open-ended). */
  lemma AssignLookup(es: seq<Entry>, maxIndex: Bound, start: nat, end: Bound, id: nat, t: nat)
    requires Sorted(es) && StartsWithin(es, maxIndex)
    requires end.Bounded? ==> start <= end.n
    ensures t < start ==>
      ConfigAt(Assign(es, maxIndex, start, end, id), t) == ConfigAt(es, t)
    ensures start <= t && AtMost(t, end) ==>
      ConfigAt(Assign(es, maxIndex, start, end, id), t) == Some(id)
    ensures end.Bounded? && end.n < t && AtMost(end.n + 1, maxIndex) ==>
      ConfigAt(Assign(es, maxIndex, start, end, id), t) ==
        if ConfigAt(es, t).Some? then ConfigAt(es, t) else Some(id)
    ensures end.Bounded? && end.n < t && !AtMost(end.n + 1, maxIndex) ==>
      ConfigAt(Assign(es, maxIndex, start, end, id), t) == Some(id)
  {
    if t < start {
      AssignLookupBefore(es, maxIndex, start, end, id, t);
    } else if AtMost(t, end) {
      AssignLookupInside(es, maxIndex, start, end, id, t);
    } else {
      AssignLookupPast(es, maxIndex, start, end.n, id, t);
    }
  }
}
