// The bad clusters of a volume: clamped to the volume, sorted and merged in
// place, and searched by halves.
module BadClusterList {
  import opened Prelude
  import opened AllocTypes

  // First cluster past the extent, saturated when it would wrap past 2^64.
  function EndOf(e: Extent): nat {
    if e.lcn > U64_MAX || e.clusters > U64_MAX || e.lcn > U64_MAX - e.clusters then U64_MAX else e.lcn + e.clusters
  }

  // An extent as the run list gives it: 64-bit numbers.
  predicate Wide(e: Extent) {
    e.lcn <= U64_MAX && e.clusters <= U64_MAX
  }

  // The cluster lies in the extent, cut at 2^64 - 1.
  predicate Names(e: Extent, x: nat) {
    e.lcn <= x < EndOf(e)
  }

  // It holds its clusters up to 2^64 - 1.
  lemma NamesMeans(e: Extent, x: nat)
    requires Wide(e)
    ensures Names(e, x) <==> e.lcn <= x < e.lcn + e.clusters && x < U64_MAX
  {
  }

  ghost predicate Listed(extents: seq<Extent>, x: nat) {
    exists i :: 0 <= i < |extents| && Names(extents[i], x)
  }

  // Sorted extents that neither overlap nor touch, none of them empty.
  predicate Merged(extents: seq<Extent>) {
    && (forall i :: 0 <= i < |extents| ==> Wide(extents[i]) && extents[i].clusters > 0 && extents[i].lcn + extents[i].clusters <= U64_MAX)
    && (forall i, j :: 0 <= i < j < |extents| ==> EndOf(extents[i]) < extents[j].lcn)
  }

  // -------------------------------------------------------------------------
  // Clamping
  // -------------------------------------------------------------------------

  // An extent clamped to the volume. cluster_count 0 clamps nothing beyond the
  // saturation.
  function Clamped(e: Extent, clusterCount: nat): Extent
    requires clusterCount == 0 || e.lcn < clusterCount
    requires Wide(e)
  {
    var end := if clusterCount != 0 then Min(EndOf(e), clusterCount) else EndOf(e);
    Extent(e.lcn, end - e.lcn)
  }

  predicate Kept(e: Extent, clusterCount: nat) {
    e.clusters != 0 && (clusterCount == 0 || e.lcn < clusterCount)
  }

  // The extents that are kept, clamped, in order.
  function ClampedAll(extents: seq<Extent>, clusterCount: nat): seq<Extent>
    requires forall i :: 0 <= i < |extents| ==> Wide(extents[i])
  {
    if extents == [] then []
    else
      var last := extents[|extents| - 1];
      assert Wide(last);
      ClampedAll(extents[..|extents| - 1], clusterCount) + if Kept(last, clusterCount) then [Clamped(last, clusterCount)] else []
  }

  // The extent loses a cluster that its run list named.
  predicate Cut(e: Extent, clusterCount: nat) {
    e.clusters != 0 && clusterCount != 0 && (e.lcn >= clusterCount || EndOf(e) > clusterCount)
  }

  lemma NothingClamped(extents: seq<Extent>, clusterCount: nat)
    requires forall i :: 0 <= i < |extents| ==> Wide(extents[i])
    ensures ClampedAll(extents[..0], clusterCount) == []
  {
  }

  lemma ClampedNext(extents: seq<Extent>, i: nat, clusterCount: nat)
    requires forall j :: 0 <= j < |extents| ==> Wide(extents[j])
    requires i < |extents|
    ensures ClampedAll(extents[..i + 1], clusterCount)
      == ClampedAll(extents[..i], clusterCount) + if Kept(extents[i], clusterCount) then [Clamped(extents[i], clusterCount)] else []
  {
    assert extents[..i + 1][..i] == extents[..i];
  }

  // Clamps every extent to clusterCount and drops the empty ones, in place. The
  // first kept extents of the array are the result.
  method ClampToVolume(extents: array<Extent>, clusterCount: nat) returns (kept: nat, clipped: bool)
    requires clusterCount <= U64_MAX
    requires forall i :: 0 <= i < extents.Length ==> Wide(extents[i])
    modifies extents
    ensures kept <= extents.Length
    ensures extents[..kept] == ClampedAll(old(extents[..]), clusterCount)
    ensures clipped <==> exists i :: 0 <= i < extents.Length && Cut(old(extents[i]), clusterCount)
  {
    hide ClampedAll;
    hide EndOf;
    kept, clipped := 0, false;
    ghost var was := extents[..];
    NothingClamped(was, clusterCount);
    for i := 0 to extents.Length
      invariant kept <= i
      invariant extents[..kept] == ClampedAll(was[..i], clusterCount)
      invariant forall j :: i <= j < extents.Length ==> extents[j] == was[j]
      invariant clipped <==> exists j :: 0 <= j < i && Cut(was[j], clusterCount)
    {
      var extent := extents[i];
      ClampedNext(was, i, clusterCount);
      if extent.clusters == 0 {
        continue;
      }
      var wrappedEnd := EndOf(extent);
      var end := wrappedEnd;
      if clusterCount != 0 {
        if extent.lcn >= clusterCount {
          clipped := true;
          assert Cut(was[i], clusterCount);
          continue;
        }
        end := Min(end, clusterCount);
      }
      clipped := clipped || end < wrappedEnd;
      assert end < wrappedEnd <==> Cut(was[i], clusterCount);
      ghost var before := extents[..kept];
      extents[kept] := Extent(extent.lcn, end - extent.lcn);
      kept := kept + 1;
      assert extents[..kept] == before + [Extent(extent.lcn, end - extent.lcn)];
    }
    assert was[..extents.Length] == was;
  }

  // What clamping keeps: the clusters of the volume, and no other. An extent it
  // keeps is empty exactly when it starts at the largest number.
  lemma {:induction false} ClampedMeans(extents: seq<Extent>, clusterCount: nat)
    requires forall i :: 0 <= i < |extents| ==> Wide(extents[i])
    requires clusterCount <= U64_MAX
    ensures forall x: nat :: Listed(ClampedAll(extents, clusterCount), x) <==> Listed(extents, x) && (clusterCount == 0 || x < clusterCount)
    ensures forall i :: 0 <= i < |ClampedAll(extents, clusterCount)| ==>
      Clean(ClampedAll(extents, clusterCount)[i])
    ensures HasEmpty(ClampedAll(extents, clusterCount)) <==> clusterCount == 0 && StartsAtTop(extents)
  {
    if extents != [] {
      var front, last := extents[..|extents| - 1], extents[|extents| - 1];
      ClampedMeans(front, clusterCount);
      var before := ClampedAll(front, clusterCount);
      assert extents == front + [last];
      ListedAdded(front, last);
      EmptyAdded(front, last);
      if Kept(last, clusterCount) {
        ListedAdded(before, Clamped(last, clusterCount));
        EmptyAdded(before, Clamped(last, clusterCount));
      } else {
        assert ClampedAll(extents, clusterCount) == before;
      }
    }
  }

  // The extent wraps nowhere, and holds a cluster unless it starts at 2^64 - 1.
  predicate Clean(e: Extent) {
    Wide(e) && e.lcn + e.clusters <= U64_MAX && (e.clusters == 0 ==> e.lcn == U64_MAX)
  }

  ghost predicate HasEmpty(extents: seq<Extent>) {
    exists i :: 0 <= i < |extents| && extents[i].clusters == 0
  }

  // Some extent of the run list starts at the largest number: no cluster of it
  // has a number.
  ghost predicate StartsAtTop(extents: seq<Extent>) {
    exists i :: 0 <= i < |extents| && extents[i].clusters != 0 && extents[i].lcn == U64_MAX
  }

  lemma ListedAdded(extents: seq<Extent>, e: Extent)
    ensures forall x: nat :: Listed(extents + [e], x) <==> Listed(extents, x) || Names(e, x)
  {
    var whole := extents + [e];
    forall x: nat ensures Listed(whole, x) <==> Listed(extents, x) || Names(e, x) {
      if Listed(extents, x) {
        var i :| 0 <= i < |extents| && Names(extents[i], x);
        assert Names(whole[i], x);
      }
      if Names(e, x) { assert Names(whole[|extents|], x); }
      if Listed(whole, x) {
        var i :| 0 <= i < |whole| && Names(whole[i], x);
        if i < |extents| { assert Names(extents[i], x); }
      }
    }
  }

  lemma EmptyAdded(extents: seq<Extent>, e: Extent)
    ensures HasEmpty(extents + [e]) <==> HasEmpty(extents) || e.clusters == 0
    ensures StartsAtTop(extents + [e]) <==> StartsAtTop(extents) || (e.clusters != 0 && e.lcn == U64_MAX)
  {
    var whole := extents + [e];
    assert forall i :: 0 <= i < |extents| ==> whole[i] == extents[i];
    assert whole[|extents|] == e;
  }

  // -------------------------------------------------------------------------
  // Sorting and merging
  // -------------------------------------------------------------------------

  predicate ByCluster(a: Extent, b: Extent) {
    a.lcn < b.lcn || (a.lcn == b.lcn && a.clusters <= b.clusters)
  }

  // Extents as the merge leaves them: sorted, apart, and none empty but one that
  // starts at the largest number.
  predicate Apart(extents: seq<Extent>) {
    && (forall i :: 0 <= i < |extents| ==> Clean(extents[i]))
    && (forall i, j :: 0 <= i < j < |extents| ==> EndOf(extents[i]) < extents[j].lcn)
  }

  lemma ByClusterOrders()
    ensures TotalPreorder(ByCluster)
  {
  }

  // Sorts the first size extents of the array, in place.
  method SortExtents(extents: array<Extent>, size: nat)
    requires size <= extents.Length
    modifies extents
    ensures extents[..size] == Sort(old(extents[..size]), ByCluster)
    ensures forall i :: size <= i < extents.Length ==> extents[i] == old(extents[i])
  {
    hide Sort;
    hide ByCluster;
    ByClusterOrders();
    ghost var was := extents[..size];
    var sorted := Sort(extents[..size], ByCluster);
    SortSorts(was, ByCluster);
    for i := 0 to size
      invariant forall j :: 0 <= j < i ==> extents[j] == sorted[j]
      invariant forall j :: size <= j < extents.Length ==> extents[j] == old(extents[j])
    {
      extents[i] := sorted[i];
    }
    assert extents[..size] == sorted;
  }

  // One extent, merged after those merged so far.
  function MergeOne(merged: seq<Extent>, e: Extent): seq<Extent>
    requires forall i :: 0 <= i < |merged| ==> Clean(merged[i])
    requires Clean(e) && (merged != [] ==> merged[|merged| - 1].lcn <= e.lcn)
  {
    if merged != [] && e.lcn <= EndOf(merged[|merged| - 1]) then
      var last := merged[|merged| - 1];
      merged[|merged| - 1 := Extent(last.lcn, Max(EndOf(last), EndOf(e)) - last.lcn)]
    else merged + [e]
  }

  // Merging one extent keeps the others apart.
  lemma MergeOneApart(merged: seq<Extent>, e: Extent)
    requires Apart(merged) && Clean(e) && (merged != [] ==> merged[|merged| - 1].lcn <= e.lcn)
    ensures Apart(MergeOne(merged, e))
    ensures MergeOne(merged, e) != [] && MergeOne(merged, e)[|MergeOne(merged, e)| - 1].lcn <= e.lcn
  {
  }

  // It adds the clusters of the extent, and no other.
  lemma MergeOneLists(merged: seq<Extent>, e: Extent)
    requires Apart(merged) && Clean(e) && (merged != [] ==> merged[|merged| - 1].lcn <= e.lcn)
    ensures forall x: nat :: Listed(MergeOne(merged, e), x) <==> Listed(merged, x) || Names(e, x)
  {
    if merged != [] && e.lcn <= EndOf(merged[|merged| - 1]) {
      var n := |merged| - 1;
      var last, grown := merged[n], MergeOne(merged, e)[n];
      assert merged == merged[..n] + [last] && MergeOne(merged, e) == merged[..n] + [grown];
      ListedAdded(merged[..n], last);
      ListedAdded(merged[..n], grown);
      assert forall x: nat :: Names(grown, x) <==> Names(last, x) || Names(e, x);
    } else {
      ListedAdded(merged, e);
    }
  }

  // An empty extent is the last one, and the cluster before it is not listed.
  lemma EmptyIsLast(merged: seq<Extent>)
    requires Apart(merged) && HasEmpty(merged)
    ensures merged[|merged| - 1].clusters == 0 && merged[|merged| - 1].lcn == U64_MAX
    ensures !Listed(merged, U64_MAX - 1)
  {
    var i :| 0 <= i < |merged| && merged[i].clusters == 0;
    assert Clean(merged[i]);
    var n := |merged| - 1;
    assert Clean(merged[n]);
    forall j | 0 <= j < |merged| ensures !Names(merged[j], U64_MAX - 1) {
      assert j < i ==> EndOf(merged[j]) < merged[i].lcn;
    }
  }

  // An empty extent is left only when the cluster before it is not listed.
  lemma MergeOneEmpty(merged: seq<Extent>, e: Extent)
    requires Apart(merged) && Clean(e) && (merged != [] ==> merged[|merged| - 1].lcn <= e.lcn)
    ensures HasEmpty(MergeOne(merged, e)) <==> (HasEmpty(merged) || e.clusters == 0) && !Listed(MergeOne(merged, e), U64_MAX - 1)
  {
    var r := MergeOne(merged, e);
    MergeOneApart(merged, e);
    if HasEmpty(r) {
      EmptyIsLast(r);
      if r == merged + [e] {
        EmptyAdded(merged, e);
      } else {
        assert merged[|merged| - 1].clusters == 0;
      }
    } else {
      if HasEmpty(merged) {
        EmptyIsLast(merged);
      } else if e.clusters == 0 {
        if r == merged + [e] {
          EmptyAdded(merged, e);
        } else {
          assert Names(r[|r| - 1], U64_MAX - 1);
        }
      }
    }
  }

  // The extents of a sorted list, merged in order.
  function MergedAll(sorted: seq<Extent>): seq<Extent>
    requires forall i :: 0 <= i < |sorted| ==> Clean(sorted[i])
    requires SortedBy(sorted, ByCluster)
    ensures Apart(MergedAll(sorted))
    ensures sorted != [] ==> MergedAll(sorted) != [] && MergedAll(sorted)[|MergedAll(sorted)| - 1].lcn <= sorted[|sorted| - 1].lcn
    ensures |MergedAll(sorted)| <= |sorted|
  {
    if sorted == [] then []
    else
      var front, last := sorted[..|sorted| - 1], sorted[|sorted| - 1];
      assert front != [] ==> ByCluster(front[|front| - 1], last);
      assert Clean(last);
      MergeOneApart(MergedAll(front), last);
      MergeOne(MergedAll(front), last)
  }

  // Merging keeps the clusters named, and leaves one empty extent at most: the
  // one at the largest number, when the cluster before it is not named.
  lemma {:induction false} MergedMeans(sorted: seq<Extent>)
    requires forall i :: 0 <= i < |sorted| ==> Clean(sorted[i])
    requires SortedBy(sorted, ByCluster)
    ensures forall x: nat :: Listed(MergedAll(sorted), x) <==> Listed(sorted, x)
    ensures HasEmpty(MergedAll(sorted)) <==> HasEmpty(sorted) && !Listed(sorted, U64_MAX - 1)
  {
    if sorted != [] {
      var front, last := sorted[..|sorted| - 1], sorted[|sorted| - 1];
      assert front != [] ==> ByCluster(front[|front| - 1], last);
      assert Clean(last);
      MergedMeans(front);
      MergeOneLists(MergedAll(front), last);
      MergeOneEmpty(MergedAll(front), last);
      assert sorted == front + [last];
      ListedAdded(front, last);
      EmptyAdded(front, last);
      var top := U64_MAX - 1;
      assert Listed(MergedAll(sorted), top) <==> Listed(sorted, top);
      if HasEmpty(front) && Listed(front, top) {
        assert Listed(sorted, top);
      }
    }
  }

  // Merges the extent read at i after the kept ones, in place.
  method PutMerged(extents: array<Extent>, kept: nat, i: nat, extent: Extent, ghost merged: seq<Extent>) returns (now: nat)
    requires kept <= i < extents.Length && Clean(extent) && extents[..kept] == merged
    requires forall j :: 0 <= j < |merged| ==> Clean(merged[j])
    requires |merged| > 0 ==> merged[|merged| - 1].lcn <= extent.lcn
    modifies extents
    ensures now <= i + 1
    ensures extents[..now] == MergeOne(merged, extent)
    ensures forall j :: i < j < extents.Length ==> extents[j] == old(extents[j])
  {
    now := kept;
    if kept != 0 {
      var last := extents[kept - 1];
      assert last == merged[kept - 1];
      var lastEnd := EndOf(last);
      // The next extent starts inside the last one or right after it.
      if extent.lcn <= lastEnd {
        extents[kept - 1] := Extent(last.lcn, Max(lastEnd, EndOf(extent)) - last.lcn);
        assert extents[..kept] == merged[kept - 1 := extents[kept - 1]];
        return;
      }
    }
    extents[kept] := extent;
    now := kept + 1;
    assert extents[..now] == merged + [extent];
  }

  // The first n extents of a sorted list, merged.
  ghost predicate MergedTo(merged: seq<Extent>, sorted: seq<Extent>, n: nat) {
    && n <= |sorted| && SortedBy(sorted, ByCluster)
    && (forall j :: 0 <= j < |sorted| ==> Clean(sorted[j]))
    && merged == MergedAll(sorted[..n])
  }

  lemma NothingMerged(sorted: seq<Extent>)
    requires forall i :: 0 <= i < |sorted| ==> Clean(sorted[i])
    requires SortedBy(sorted, ByCluster)
    ensures MergedTo([], sorted, 0)
  {
  }

  lemma MergedNext(sorted: seq<Extent>, i: nat, merged: seq<Extent>)
    requires i < |sorted| && MergedTo(merged, sorted, i)
    ensures Clean(sorted[i]) && forall j :: 0 <= j < |merged| ==> Clean(merged[j])
    ensures |merged| > 0 ==> merged[|merged| - 1].lcn <= sorted[i].lcn
    ensures MergedTo(MergeOne(merged, sorted[i]), sorted, i + 1)
  {
    assert sorted[..i + 1][..i] == sorted[..i];
    assert i > 0 ==> ByCluster(sorted[i - 1], sorted[i]);
  }

  lemma AllMerged(sorted: seq<Extent>, merged: seq<Extent>)
    requires MergedTo(merged, sorted, |sorted|)
    ensures merged == MergedAll(sorted)
  {
    assert sorted[..|sorted|] == sorted;
  }

  // Joins the extents of a sorted array that touch or overlap, in place.
  method MergeSorted(extents: array<Extent>, size: nat) returns (kept: nat)
    requires size <= extents.Length
    requires forall i :: 0 <= i < size ==> Clean(extents[i])
    requires SortedBy(extents[..size], ByCluster)
    modifies extents
    ensures kept <= size
    ensures extents[..kept] == MergedAll(old(extents[..size]))
  {
    hide MergedAll, MergeOne, Clean, ByCluster, MergedTo;
    ghost var sorted := extents[..size];
    NothingMerged(sorted);
    kept := 0;
    ghost var merged: seq<Extent> := [];
    for i := 0 to size
      invariant kept <= i && extents[..kept] == merged
      invariant MergedTo(merged, sorted, i)
      invariant forall j :: i <= j < size ==> extents[j] == sorted[j]
    {
      MergedNext(sorted, i, merged);
      kept := PutMerged(extents, kept, i, extents[i], merged);
      merged := MergeOne(merged, sorted[i]);
    }
    AllMerged(sorted, merged);
  }

  // Sorts by cluster, then joins extents that touch or overlap, in place. The
  // first kept extents of the array are the result.
  method SortAndMerge(extents: array<Extent>, size: nat) returns (kept: nat)
    requires size <= extents.Length
    requires forall i :: 0 <= i < size ==> Clean(extents[i])
    modifies extents
    ensures kept <= size
    ensures Apart(extents[..kept])
    ensures forall x: nat :: Listed(extents[..kept], x) <==> Listed(old(extents[..size]), x)
    ensures HasEmpty(extents[..kept]) <==> HasEmpty(old(extents[..size])) && !Listed(old(extents[..size]), U64_MAX - 1)
  {
    hide Sort;
    hide ByCluster;
    hide Clean;
    hide Listed;
    hide HasEmpty;
    hide MergedAll;
    ByClusterOrders();
    ghost var was := extents[..size];
    SortExtents(extents, size);
    ghost var sorted := extents[..size];
    SortSorts(was, ByCluster);
    forall i | 0 <= i < size ensures Clean(extents[i]) {
      assert extents[i] == sorted[i] && sorted[i] in was;
    }
    kept := MergeSorted(extents, size);
    MergedMeans(sorted);
    SameListed(was, sorted);
  }

  lemma SameListed(a: seq<Extent>, b: seq<Extent>)
    requires forall e :: e in a <==> e in b
    ensures forall x: nat :: Listed(a, x) <==> Listed(b, x)
    ensures HasEmpty(a) <==> HasEmpty(b)
  {
    forall x: nat ensures Listed(a, x) <==> Listed(b, x) {
      if Listed(a, x) {
        var i :| 0 <= i < |a| && Names(a[i], x);
        assert a[i] in b;
      }
      if Listed(b, x) {
        var i :| 0 <= i < |b| && Names(b[i], x);
        assert b[i] in a;
      }
    }
    if HasEmpty(a) {
      var i :| 0 <= i < |a| && a[i].clusters == 0;
      assert a[i] in b;
    }
    if HasEmpty(b) {
      var i :| 0 <= i < |b| && b[i].clusters == 0;
      assert b[i] in a;
    }
  }

  // -------------------------------------------------------------------------
  // Building the list
  // -------------------------------------------------------------------------

  datatype BadClusters = BadClusters(extents: seq<Extent>, truncated: bool)

  // Whether the run list leaves an extent that holds no cluster: no volume size
  // is known, an extent starts at the largest number, and nothing names the
  // cluster before it.
  ghost predicate LeavesEmpty(extents: seq<Extent>, clusterCount: nat) {
    clusterCount == 0 && StartsAtTop(extents) && !Listed(extents, U64_MAX - 1)
  }

  // The whole list: the clusters of the volume that the run list names.
  ghost predicate WholeList(all: seq<Extent>, extents: seq<Extent>, clusterCount: nat) {
    && Apart(all)
    && (forall x: nat :: Listed(all, x) <==> Listed(extents, x) && (clusterCount == 0 || x < clusterCount))
    // It holds no empty extent but in one corner.
    && (Merged(all) <==> !LeavesEmpty(extents, clusterCount))
  }

  // What is made of the whole list: too many extents reject it, or the lowest
  // are kept.
  predicate BuiltFrom(r: Option<BadClusters>, all: seq<Extent>, recover: bool, ceiling: nat) {
    if |all| <= ceiling then r == Some(BadClusters(all, false))
    else if recover then r == Some(BadClusters(all[..ceiling], true))
    else r.None?
  }

  // Builds the list from the extents of a run list. Without recovery, an
  // incomplete run list or too many extents reject it; with it, the lowest
  // extents are kept.
  method Build(extents: seq<Extent>, complete: bool, clusterCount: nat, recover: bool, ceiling: nat) returns (r: Option<BadClusters>)
    requires clusterCount <= U64_MAX
    requires forall i :: 0 <= i < |extents| ==> Wide(extents[i])
    ensures !complete && !recover ==> r.None?
    ensures complete || recover ==> exists all :: WholeList(all, extents, clusterCount) && BuiltFrom(r, all, recover, ceiling)
  {
    hide WholeList;
    if !complete && !recover {
      return None;
    }
    var work := new Extent[|extents|](i requires 0 <= i < |extents| => extents[i]);
    assert work[..] == extents;
    var clamped, clipped := ClampToVolume(work, clusterCount);
    ClampedMeans(extents, clusterCount);
    assert forall i :: 0 <= i < clamped ==> work[i] == work[..clamped][i];
    ghost var within := work[..clamped];
    var kept := SortAndMerge(work, clamped);
    ghost var all := work[..kept];
    WholeBuilt(extents, clusterCount, within, all);
    if kept > ceiling {
      assert all[..ceiling] == work[..ceiling];
      r := if recover then Some(BadClusters(work[..ceiling], true)) else None;
    } else {
      r := Some(BadClusters(work[..kept], false));
    }
    assert BuiltFrom(r, all, recover, ceiling);
  }

  lemma WholeBuilt(extents: seq<Extent>, clusterCount: nat, within: seq<Extent>, all: seq<Extent>)
    requires forall i :: 0 <= i < |extents| ==> Wide(extents[i])
    requires clusterCount <= U64_MAX
    requires forall x: nat :: Listed(within, x) <==> Listed(extents, x) && (clusterCount == 0 || x < clusterCount)
    requires HasEmpty(within) <==> clusterCount == 0 && StartsAtTop(extents)
    requires Apart(all)
    requires forall x: nat :: Listed(all, x) <==> Listed(within, x)
    requires HasEmpty(all) <==> HasEmpty(within) && !Listed(within, U64_MAX - 1)
    ensures WholeList(all, extents, clusterCount)
  {
    assert Merged(all) <==> !HasEmpty(all);
  }

  // -------------------------------------------------------------------------
  // Questions
  // -------------------------------------------------------------------------

  // Whether an extent holds a cluster of [first, last).
  predicate Meets(e: Extent, first: nat, last: nat) {
    first < last && EndOf(e) > first && e.lcn < last
  }

  // The extents of [begin, end) are those that meet [first, last): found by
  // halves, since sorted extents that do not overlap have sorted ends.
  method Overlapping(extents: seq<Extent>, first: nat, last: nat) returns (begin: nat, end: nat)
    requires Apart(extents)
    ensures begin <= end <= |extents|
    ensures forall i :: 0 <= i < |extents| ==> (begin <= i < end <==> Meets(extents[i], first, last))
  {
    hide Apart;
    hide EndOf;
    if first >= last {
      return 0, 0;
    }
    // The first extent that ends after first.
    var lo, hi := 0, |extents|;
    while lo < hi
      invariant 0 <= lo <= hi <= |extents|
      invariant forall i :: 0 <= i < lo ==> EndOf(extents[i]) <= first
      invariant forall i :: hi <= i < |extents| ==> EndOf(extents[i]) > first
    {
      var mid := (lo + hi) / 2;
      if EndOf(extents[mid]) <= first {
        EndsSorted(extents, mid);
        lo := mid + 1;
      } else {
        EndsSorted(extents, mid);
        hi := mid;
      }
    }
    begin := lo;
    // The first extent that starts at or after last.
    hi := |extents|;
    while lo < hi
      invariant begin <= lo <= hi <= |extents|
      invariant forall i :: begin <= i < lo ==> extents[i].lcn < last
      invariant forall i :: hi <= i < |extents| ==> extents[i].lcn >= last
    {
      var mid := (lo + hi) / 2;
      if extents[mid].lcn < last {
        EndsSorted(extents, mid);
        lo := mid + 1;
      } else {
        EndsSorted(extents, mid);
        hi := mid;
      }
    }
    end := lo;
  }

  lemma EndsSorted(extents: seq<Extent>, mid: nat)
    requires Apart(extents) && mid < |extents|
    ensures forall i :: 0 <= i < mid ==> EndOf(extents[i]) < EndOf(extents[mid]) && extents[i].lcn < extents[mid].lcn
    ensures forall i :: mid < i < |extents| ==> EndOf(extents[i]) > EndOf(extents[mid]) && extents[i].lcn > extents[mid].lcn
  {
  }

  // How many clusters of [first, last) the extents name.
  ghost function ListedCount(extents: seq<Extent>, first: nat, last: nat): nat
    decreases last
  {
    if last <= first then 0 else ListedCount(extents, first, last - 1) + if Listed(extents, last - 1) then 1 else 0
  }

  // The clusters of an extent in [first, last).
  function Overlap(e: Extent, first: nat, last: nat): nat {
    Max(0, Min(EndOf(e), last) - Max(e.lcn, first))
  }

  // An extent that names no cluster named before adds all of its own.
  lemma {:induction false} CountAdded(extents: seq<Extent>, e: Extent, first: nat, last: nat)
    requires forall x: nat :: Names(e, x) ==> !Listed(extents, x)
    ensures ListedCount(extents + [e], first, last) == ListedCount(extents, first, last) + Overlap(e, first, last)
    decreases last
  {
    if first < last {
      CountAdded(extents, e, first, last - 1);
      ListedAdded(extents, e);
    }
  }

  lemma {:induction false} CountSame(a: seq<Extent>, b: seq<Extent>, first: nat, last: nat)
    requires forall x: nat :: first <= x < last ==> (Listed(a, x) <==> Listed(b, x))
    ensures ListedCount(a, first, last) == ListedCount(b, first, last)
    decreases last
  {
    if first < last {
      CountSame(a, b, first, last - 1);
    }
  }

  lemma {:induction false} CountNone(extents: seq<Extent>, first: nat, last: nat)
    requires |extents| == 0
    ensures ListedCount(extents, first, last) == 0
    decreases last
  {
    if first < last {
      CountNone(extents, first, last - 1);
    }
  }

  // An extent of a merged list names nothing that those before it name.
  lemma NewNames(extents: seq<Extent>, begin: nat, i: nat)
    requires Apart(extents) && begin <= i < |extents|
    ensures forall x: nat :: Names(extents[i], x) ==> !Listed(extents[begin..i], x)
  {
    forall x: nat | Names(extents[i], x) ensures !Listed(extents[begin..i], x) {
      forall j | 0 <= j < i - begin ensures !Names(extents[begin..i][j], x) {
        assert extents[begin..i][j] == extents[begin + j];
      }
    }
  }

  // How many clusters of [first, last) the list names.
  method CountIn(extents: seq<Extent>, first: nat, last: nat) returns (count: nat)
    requires Apart(extents)
    ensures count == ListedCount(extents, first, last)
  {
    count := 0;
    var begin, end := Overlapping(extents, first, last);
    CountNone(extents[begin..begin], first, last);
    for i := begin to end
      invariant count == ListedCount(extents[begin..i], first, last)
    {
      var extent := extents[i];
      assert Meets(extent, first, last);
      NewNames(extents, begin, i);
      CountAdded(extents[begin..i], extent, first, last);
      assert extents[begin..i + 1] == extents[begin..i] + [extent];
      count := count + (Min(EndOf(extent), last) - Max(extent.lcn, first));
    }
    OnlyOverlapping(extents, first, last, begin, end);
    CountSame(extents[begin..end], extents, first, last);
  }

  lemma OnlyOverlapping(extents: seq<Extent>, first: nat, last: nat, begin: nat, end: nat)
    requires begin <= end <= |extents|
    requires forall i :: 0 <= i < |extents| ==> (begin <= i < end <==> Meets(extents[i], first, last))
    ensures forall x: nat :: first <= x < last ==> (Listed(extents[begin..end], x) <==> Listed(extents, x))
  {
    forall x: nat | first <= x < last ensures Listed(extents[begin..end], x) <==> Listed(extents, x) {
      if Listed(extents, x) {
        var i :| 0 <= i < |extents| && Names(extents[i], x);
        assert Meets(extents[i], first, last);
        assert extents[begin..end][i - begin] == extents[i];
      }
      if Listed(extents[begin..end], x) {
        var j :| 0 <= j < end - begin && Names(extents[begin..end][j], x);
        assert extents[begin + j] == extents[begin..end][j];
      }
    }
  }
}
