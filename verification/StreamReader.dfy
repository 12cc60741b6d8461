// Reading a non-resident, uncompressed stream into a buffer, by whole clusters.
module StreamReader {
  import opened Prelude
  import opened Media
  import opened RunEntries
  import opened RunLists
  import opened StreamBytes

  // What a bounded read comes to: a count, nothing, or a narrowing error when
  // the bytes left do not fit 32 bits.
  datatype Outcome = Got(bytes: nat) | Nothing | Thrown

  method CopyInto(buffer: array<bv8>, at: nat, bytes: seq<bv8>)
    requires at + |bytes| <= buffer.Length
    modifies buffer
    ensures SameOutside(old(buffer[..]), buffer[..], at, at + |bytes|)
    ensures buffer[at..at + |bytes|] == bytes
  {
    var k: nat := 0;
    while k < |bytes|
      invariant k <= |bytes|
      invariant forall j :: 0 <= j < buffer.Length && !(at <= j < at + k) ==> buffer[j] == old(buffer[j])
      invariant forall j :: 0 <= j < k ==> buffer[at + j] == bytes[j]
    {
      buffer[at + k] := bytes[k];
      k := k + 1;
    }
  }

  method ZeroFill(buffer: array<bv8>, lo: nat, hi: nat)
    requires lo <= hi <= buffer.Length
    modifies buffer
    ensures SameOutside(old(buffer[..]), buffer[..], lo, hi)
    ensures forall j :: lo <= j < hi ==> buffer[j] == 0
  {
    var k := lo;
    while k < hi
      invariant lo <= k <= hi
      invariant forall j :: 0 <= j < buffer.Length && !(lo <= j < k) ==> buffer[j] == old(buffer[j])
      invariant forall j :: lo <= j < k ==> buffer[j] == 0
    {
      buffer[k] := 0;
      k := k + 1;
    }
  }

  // The bytes of a run part that lies on the disk.
  lemma DiskPartShows(b: seq<bv8>, lo: nat, list: Mapping, i: nat, cs: nat, m: Medium, vcn: nat, count: nat)
    requires MappingRight(list) && i < |list.runs| && cs > 0 && count > 0
    requires Holds(list.runs[i], vcn) && Holds(list.runs[i], vcn + count - 1) && list.runs[i].lcn.Some?
    requires lo + ByteOf(count, cs) <= |b|
    requires b[lo..lo + ByteOf(count, cs)] == Bytes(m, ByteOf(PlaceIn(list.runs[i], vcn).lcn, cs), ByteOf(count, cs))
    ensures Shows(b, lo, lo + ByteOf(count, cs), list.runs, cs, m, ByteOf(vcn, cs))
  {
    hide RunByte, ByteOf, Ordered;
    var n := ByteOf(count, cs);
    var part := b[lo..lo + n];
    forall j: nat | lo <= j < lo + n ensures b[j] == RunByte(list.runs, cs, m, ByteOf(vcn, cs) + (j - lo)) {
      RunPartByte(list, i, cs, m, vcn, count, j - lo);
      assert part[j - lo] == b[j];
    }
  }

  lemma HolePartShows(b: seq<bv8>, lo: nat, list: Mapping, i: nat, cs: nat, m: Medium, vcn: nat, count: nat)
    requires MappingRight(list) && i < |list.runs| && cs > 0 && count > 0
    requires Holds(list.runs[i], vcn) && Holds(list.runs[i], vcn + count - 1) && list.runs[i].lcn.None?
    requires lo + ByteOf(count, cs) <= |b|
    requires forall j :: lo <= j < lo + ByteOf(count, cs) ==> b[j] == 0
    ensures Shows(b, lo, lo + ByteOf(count, cs), list.runs, cs, m, ByteOf(vcn, cs))
  {
    hide RunByte, ByteOf, Ordered;
    forall j: nat | lo <= j < lo + ByteOf(count, cs) ensures b[j] == RunByte(list.runs, cs, m, ByteOf(vcn, cs) + (j - lo)) {
      RunPartByte(list, i, cs, m, vcn, count, j - lo);
    }
  }

  // No byte at an LCN past the largest addressable one can be read.
  lemma TooHigh(m: Medium, lcn: nat, cs: nat, n: nat)
    requires Addressable(m) && cs > 0 && n > 0 && lcn > I64_MAX / cs
    ensures !AllReadable(m, ByteOf(lcn, cs), n)
  {
    FloorBounds(I64_MAX, cs);
    ProductMonotone(I64_MAX / cs + 1, lcn, cs);
    var x := ByteOf(lcn, cs);
    assert CanRead(m, x) ==> x <= I64_MAX;
  }

  class NonResident {
    const runs: RunList
    const medium: Medium
    const clusterSize: nat
    const realSize: nat
    const iniSize: nat

    ghost predicate Valid()
      reads runs
    {
      MappingRight(runs.Value()) && 0 < clusterSize <= U32_MAX && Addressable(medium)
    }

    constructor (list: RunList, disk: Medium, unit: nat, size: nat, initialized: nat)
      requires MappingRight(list.Value()) && 0 < unit <= U32_MAX && Addressable(disk)
      ensures Valid() && runs == list && medium == disk
      ensures clusterSize == unit && realSize == size && iniSize == initialized
    {
      runs, medium, clusterSize, realSize, iniSize := list, disk, unit, size, initialized;
    }

    // Reads clusters off the disk: all of them, or nothing.
    method ReadClusters(count: nat, startLcn: nat, offset: nat) returns (bytes: Option<seq<bv8>>)
      requires Valid() && count > 0
      ensures var n := ByteOf(count, clusterSize); bytes.Some? <==> n <= U32_MAX && AllReadable(medium, ByteOf(startLcn + offset, clusterSize), n)
      ensures bytes.Some? ==> |bytes.value| == ByteOf(count, clusterSize)
      ensures bytes.Some? ==> bytes.value == Bytes(medium, ByteOf(startLcn + offset, clusterSize), ByteOf(count, clusterSize))
    {
      hide Ordered, AllReadable;
      var maxLcn := I64_MAX / clusterSize;
      var lcn := startLcn + offset;
      ByteOfOrder(1, count, clusterSize);
      ByteOfSum(0, 0, clusterSize);
      if startLcn > maxLcn || offset > maxLcn - startLcn {
        TooHigh(medium, lcn, clusterSize, ByteOf(count, clusterSize));
        return None;
      }
      var n := count * clusterSize;
      if n > U32_MAX {
        return None;
      }
      if AllReadable(medium, lcn * clusterSize, n) {
        return Some(Bytes(medium, lcn * clusterSize, n));
      }
      return None;
    }

    // Reads clusters of one run into the buffer: off the disk, or as zeros.
    method ReadRunClusters(index: nat, vcn: nat, count: nat, buffer: array<bv8>, at: nat) returns (done: bool)
      requires Valid() && index < |runs.runs| && count > 0
      requires Holds(runs.runs[index], vcn) && Holds(runs.runs[index], vcn + count - 1) && vcn + count <= runs.clusters
      requires at + ByteOf(count, clusterSize) <= buffer.Length
      modifies buffer
      ensures var n := ByteOf(count, clusterSize); SameOutside(old(buffer[..]), buffer[..], at, at + n)
      ensures done ==> Shows(buffer[..], at, at + ByteOf(count, clusterSize), runs.runs, clusterSize, medium, ByteOf(vcn, clusterSize))
      ensures done ==> ClustersServed(runs.Value(), clusterSize, medium, vcn, count)
      ensures !done && ByteOf(count, clusterSize) <= U32_MAX ==> !ClustersServed(runs.Value(), clusterSize, medium, vcn, count)
    {
      hide Ordered, AllReadable, Bytes, Shows, ClustersServed, SameOutside, ByteOf;
      var run := runs.runs[index];
      ghost var list := runs.Value();
      RunPartServed(list, index, clusterSize, medium, vcn, count);
      SameBuffer(buffer[..], at, at + ByteOf(count, clusterSize));
      if run.lcn.None? {
        ZeroFill(buffer, at, at + ByteOf(count, clusterSize));
        HolePartShows(buffer[..], at, list, index, clusterSize, medium, vcn, count);
        return true;
      }
      var bytes := ReadClusters(count, run.lcn.value, vcn - run.startVcn);
      if bytes.None? {
        return false;
      }
      CopyInto(buffer, at, bytes.value);
      DiskPartShows(buffer[..], at, list, index, clusterSize, medium, vcn, count);
      return true;
    }

    // Reads clusters of the stream run by run. A count short of what was asked
    // says where the runs or the disk gave out.
    method ReadVirtualClusters(first: nat, clusters: nat, buffer: array<bv8>, at: nat) returns (got: Option<nat>)
      requires Valid() && clusters > 0 && at + ByteOf(clusters, clusterSize) <= buffer.Length
      modifies buffer
      ensures SameOutside(old(buffer[..]), buffer[..], at, at + ByteOf(clusters, clusterSize))
      ensures got.None? <==> first + clusters > runs.clusters
      ensures var n := ByteOf(clusters, clusterSize); got == Some(n) ==> Shows(buffer[..], at, at + n, runs.runs, clusterSize, medium, ByteOf(first, clusterSize))
      ensures got == Some(ByteOf(clusters, clusterSize)) ==> ClustersServed(runs.Value(), clusterSize, medium, first, clusters)
      ensures ClustersServed(runs.Value(), clusterSize, medium, first, clusters) && ByteOf(clusters, clusterSize) <= U32_MAX ==> got == Some(ByteOf(clusters, clusterSize))
    {
      hide Ordered, PlaceOf, Shows, ClustersServed, SameOutside, ByteOf;
      ghost var list := runs.Value();
      SameBuffer(buffer[..], at, at + ByteOf(clusters, clusterSize));
      OrderSays(runs.runs, 0, runs.clusters);
      if first + clusters > runs.clusters {
        PastEnd(list, clusterSize, medium, first, clusters);
        return None;
      }
      var vcn, left, done := first, clusters, 0;
      NothingYet(buffer[..], at, list, clusterSize, medium, first);
      while left != 0
        invariant vcn == first + done && left + done == clusters && 0 <= left && 0 <= done
        invariant SameOutside(old(buffer[..]), buffer[..], at, at + ByteOf(clusters, clusterSize))
        invariant at + ByteOf(done, clusterSize) <= buffer.Length
        invariant Shows(buffer[..], at, at + ByteOf(done, clusterSize), runs.runs, clusterSize, medium, ByteOf(first, clusterSize))
        invariant ClustersServed(list, clusterSize, medium, first, done)
        decreases left
      {
        ByteOfOrder(done, clusters, clusterSize);
        var found := runs.Find(vcn);
        ServedSplit(list, clusterSize, medium, first, done, left);
        if found.None? {
          NowhereFails(list, clusterSize, medium, vcn, left);
          break;
        }
        var run := runs.runs[found.value];
        var vcns := run.lastVcn - vcn + 1;
        var count := if left > vcns then vcns else left;
        PartFits(at, done, count, clusters, clusterSize, first);
        ServedSplit(list, clusterSize, medium, vcn, count, left - count);
        ServedSplit(list, clusterSize, medium, first, done, count);
        ghost var before := buffer[..];
        var out := at + ByteOf(done, clusterSize);
        var ok := ReadRunClusters(found.value, vcn, count, buffer, out);
        OutsideBoth(old(buffer[..]), before, buffer[..], at, at + ByteOf(clusters, clusterSize), out, out + ByteOf(count, clusterSize));
        if !ok {
          break;
        }
        ShowsBoth(before, buffer[..], at, out, out + ByteOf(count, clusterSize), runs.runs, clusterSize, medium, ByteOf(first, clusterSize));
        left, done, vcn := left - count, done + count, vcn + count;
      }
      if done < clusters { ByteOfOrder(done, clusters, clusterSize); }
      got := Some(ByteOf(done, clusterSize));
    }

    // Reads the cluster at a VCN and copies some of its bytes.
    method ReadClusterPart(vcn: nat, from: nat, buffer: array<bv8>, lo: nat, hi: nat) returns (ok: bool)
      requires Valid() && lo <= hi <= buffer.Length && from + (hi - lo) <= clusterSize
      modifies buffer
      ensures SameOutside(old(buffer[..]), buffer[..], lo, hi)
      ensures ok <==> BytesServed(runs.Value(), clusterSize, medium, ByteOf(vcn, clusterSize) + from, hi - lo)
      ensures ok ==> Shows(buffer[..], lo, hi, runs.runs, clusterSize, medium, ByteOf(vcn, clusterSize) + from)
    {
      hide Ordered, PlaceOf, RunByte, ByteOf, Served, UnitOf, UnitStart, ClustersServed;
      if lo == hi {
        return true;
      }
      PartServed(runs.Value(), clusterSize, medium, vcn, from, hi - lo);
      ByteOfSum(0, 0, clusterSize);
      var cluster := new bv8[clusterSize];
      var got := ReadVirtualClusters(vcn, 1, cluster, 0);
      if got.None? || got.value != clusterSize {
        return false;
      }
      CopyInto(buffer, lo, cluster[from..from + (hi - lo)]);
      CutShows(cluster[..], buffer[..], from, lo, hi, runs.runs, clusterSize, medium, ByteOf(vcn, clusterSize));
      return true;
    }

    // Reads the bytes before the first cluster boundary.
    method ReadLeadingPart(offset: nat, buffer: array<bv8>, lo: nat, hi: nat) returns (len: Option<nat>)
      requires Valid() && lo <= hi <= buffer.Length
      modifies buffer
      ensures SameOutside(old(buffer[..]), buffer[..], lo, hi)
      ensures len.Some? ==> lo + len.value <= hi && (offset + len.value == UnitStart(offset + len.value, clusterSize) || lo + len.value == hi)
      ensures len.Some? ==> Shows(buffer[..], lo, lo + len.value, runs.runs, clusterSize, medium, offset)
      ensures len.Some? ==> BytesServed(runs.Value(), clusterSize, medium, offset, len.value)
      ensures len.None? ==> !BytesServed(runs.Value(), clusterSize, medium, offset, hi - lo)
    {
      hide Ordered, Shows, BytesServed, ByteOf, UnitOf, UnitStart;
      var vcn, inCluster := Divided(offset, clusterSize);
      if inCluster == 0 {
        NothingRead(buffer[..], lo, runs.Value(), clusterSize, medium, offset);
        return Some(0);
      }
      var count := Min(clusterSize - inCluster, hi - lo);
      ghost var before := buffer[..];
      var ok := ReadClusterPart(vcn, inCluster, buffer, lo, lo + count);
      OutsideWider(before, buffer[..], lo, lo + count, lo, hi);
      ServedParts(runs.Value(), clusterSize, medium, offset, count, hi - lo - count);
      if !ok {
        return None;
      }
      EndsAligned(offset, inCluster, vcn, clusterSize);
      return Some(count);
    }

    // Reads from the start of a cluster: whole clusters, then part of the last.
    method ReadFromClusterStart(vcn: nat, buffer: array<bv8>, lo: nat, hi: nat) returns (ok: bool)
      requires Valid() && lo <= hi <= buffer.Length
      modifies buffer
      ensures SameOutside(old(buffer[..]), buffer[..], lo, hi)
      ensures ok ==> Shows(buffer[..], lo, hi, runs.runs, clusterSize, medium, ByteOf(vcn, clusterSize))
      ensures ok ==> BytesServed(runs.Value(), clusterSize, medium, ByteOf(vcn, clusterSize), hi - lo)
      ensures BytesServed(runs.Value(), clusterSize, medium, ByteOf(vcn, clusterSize), hi - lo) && buffer.Length <= U32_MAX ==> ok
    {
      hide Ordered, Shows, BytesServed, ByteOf, UnitOf, UnitStart, ClustersServed, SameOutside;
      ghost var list := runs.Value();
      var aligned, rest := Divided(hi - lo, clusterSize);
      var size := ByteOf(aligned, clusterSize);
      var mid := lo + size;
      SameBuffer(buffer[..], lo, hi);
      NothingRead(buffer[..], lo, list, clusterSize, medium, ByteOf(vcn, clusterSize));
      ByteOfSum(vcn, aligned, clusterSize);
      ServedParts(list, clusterSize, medium, ByteOf(vcn, clusterSize), size, rest);
      WholeServed(list, clusterSize, medium, vcn, aligned);
      if aligned != 0 {
        ghost var start := buffer[..];
        var got := ReadVirtualClusters(vcn, aligned, buffer, lo);
        OutsideWider(start, buffer[..], lo, mid, lo, hi);
        if got != Some(size) {
          return false;
        }
      } else {
        ByteOfSum(0, 0, clusterSize);
      }
      ghost var before := buffer[..];
      ok := ReadClusterPart(vcn + aligned, 0, buffer, mid, hi);
      OutsideBoth(old(buffer[..]), before, buffer[..], lo, hi, mid, hi);
      if ok {
        ShowsBoth(before, buffer[..], lo, mid, hi, runs.runs, clusterSize, medium, ByteOf(vcn, clusterSize));
      }
    }

    // Reads bytes of the stream, up to a limit.
    method ReadDataBounded(offset: nat, buffer: array<bv8>, size: nat, limit: nat) returns (read: Outcome)
      requires Valid() && size <= buffer.Length
      modifies buffer
      ensures SameOutside(old(buffer[..]), buffer[..], 0, size)
      ensures size == 0 ==> read == Got(0)
      ensures size > 0 && offset > limit ==> read.Nothing?
      ensures read.Thrown? <==> size > 0 && offset <= limit < offset + size && limit - offset > U32_MAX
      ensures read.Got? ==> read.bytes == if size == 0 then 0 else Min(size, limit - offset)
      ensures read.Got? ==> Shows(buffer[..], 0, read.bytes, runs.runs, clusterSize, medium, offset)
      ensures read.Got? ==> BytesServed(runs.Value(), clusterSize, medium, offset, read.bytes)
      ensures size > 0 && offset <= limit && buffer.Length <= U32_MAX && !read.Thrown? && BytesServed(runs.Value(), clusterSize, medium, offset, Min(size, limit - offset)) ==> read.Got?
    {
      hide Ordered, Shows, BytesServed, ByteOf, UnitOf, UnitStart, SameOutside;
      ghost var list := runs.Value();
      SameBuffer(buffer[..], 0, size);
      NothingRead(buffer[..], 0, list, clusterSize, medium, offset);
      if size == 0 {
        return Got(0);
      }
      if offset > limit {
        return Nothing;
      }
      var end := size;
      if offset + size > limit {
        if limit - offset > U32_MAX {
          return Thrown;
        }
        end := limit - offset;
      }
      var head := ReadLeadingPart(offset, buffer, 0, end);
      OutsideWider(old(buffer[..]), buffer[..], 0, end, 0, size);
      if head.None? {
        return Nothing;
      }
      ghost var before := buffer[..];
      var vcn, rest := Divided(offset + head.value, clusterSize);
      RestServed(list, clusterSize, medium, offset, head.value, end, vcn);
      var ok := ReadFromClusterStart(vcn, buffer, head.value, end);
      OutsideBoth(old(buffer[..]), before, buffer[..], 0, size, head.value, end);
      if !ok {
        return Nothing;
      }
      if head.value < end {
        ShowsBoth(before, buffer[..], 0, head.value, end, runs.runs, clusterSize, medium, offset);
      } else {
        SameShows(before, buffer[..], end, runs.runs, clusterSize, medium, offset);
      }
      return Got(end);
    }

    // A byte of the stream: that of its runs before the initialized size, and
    // zero from there to the real size.
    ghost function StreamByte(x: nat): bv8
      requires Valid()
      reads runs
    {
      if x < Min(iniSize, realSize) then RunByte(runs.runs, clusterSize, medium, x) else 0
    }

    // The bytes of a read that are before the initialized size.
    function Initialized(offset: nat, wanted: nat): nat {
      var initSize := Min(iniSize, realSize);
      if offset < initSize then Min(wanted, initSize - offset) else 0
    }

    // Reads the stream's bytes: as many as were asked for and are in it, or
    // nothing.
    method ReadData(offset: nat, buffer: array<bv8>) returns (got: Option<nat>)
      requires Valid()
      modifies buffer
      ensures buffer.Length == 0 ==> got == Some(0)
      ensures buffer.Length > 0 && offset > realSize ==> got.None?
      ensures got.Some? ==> got.value == if buffer.Length == 0 then 0 else Min(buffer.Length, realSize - offset)
      ensures got.Some? ==> forall j :: 0 <= j < got.value ==> buffer[j] == StreamByte(offset + j)
      ensures got.Some? ==> forall j :: got.value <= j < buffer.Length ==> buffer[j] == old(buffer[j])
      ensures got.Some? && buffer.Length > 0 ==> BytesServed(runs.Value(), clusterSize, medium, offset, Initialized(offset, Min(buffer.Length, realSize - offset)))
      ensures 0 < buffer.Length <= U32_MAX && offset <= realSize && BytesServed(runs.Value(), clusterSize, medium, offset, Initialized(offset, Min(buffer.Length, realSize - offset))) ==> got.Some?
    {
      hide Ordered, RunByte, ByteOf, UnitOf, UnitStart, BytesServed;
      if buffer.Length == 0 {
        return Some(0);
      }
      if offset > realSize {
        return None;
      }
      var wanted := Min(buffer.Length, realSize - offset);
      var initSize := Min(iniSize, realSize);
      var initialized := if offset < initSize then Min(wanted, initSize - offset) else 0;
      NothingRead(buffer[..], 0, runs.Value(), clusterSize, medium, offset);
      if initialized != 0 {
        var read := ReadDataBounded(offset, buffer, initialized, realSize);
        if read != Got(initialized) {
          return None;
        }
      }
      ghost var before := buffer[..];
      ZeroFill(buffer, initialized, wanted);
      forall j | 0 <= j < wanted ensures buffer[j] == StreamByte(offset + j) {
        if j < initialized { assert before[j] == buffer[..][j]; }
      }
      forall j | wanted <= j < buffer.Length ensures buffer[j] == old(buffer[j]) {
        assert before[j] == buffer[..][j];
      }
      return Some(wanted);
    }
  }

  // -------------------------------------------------------------------------
  // Steps
  // -------------------------------------------------------------------------

  // A byte count in whole clusters and the rest.
  method Divided(x: nat, cs: nat) returns (q: nat, r: nat)
    requires cs > 0
    ensures q == UnitOf(x, cs) && r == x - UnitStart(x, cs) && x == ByteOf(q, cs) + r && r < cs
  {
    q, r := x / cs, x % cs;
    UnitSplits(x, cs);
  }

  lemma EndsAligned(offset: nat, inCluster: nat, vcn: nat, cs: nat)
    requires inCluster < cs && offset == ByteOf(vcn, cs) + inCluster
    ensures UnitStart(offset + (cs - inCluster), cs) == offset + (cs - inCluster)
  {
    hide UnitOf, UnitStart, ByteOf;
    ByteOfSum(vcn, 1, cs);
    UnitIs(vcn + 1, 0, cs);
  }

  lemma SameBuffer(b: seq<bv8>, lo: nat, hi: nat)
    ensures SameOutside(b, b, lo, hi)
  {
  }

  lemma OutsideWider(a: seq<bv8>, b: seq<bv8>, lo: nat, hi: nat, from: nat, to: nat)
    requires SameOutside(a, b, lo, hi) && from <= lo && hi <= to
    ensures SameOutside(a, b, from, to)
  {
  }

  lemma NothingYet(b: seq<bv8>, at: nat, list: Mapping, cs: nat, m: Medium, vcn: nat)
    requires cs > 0 && at <= |b|
    ensures ByteOf(0, cs) == 0 && Shows(b, at, at, list.runs, cs, m, ByteOf(vcn, cs)) && ClustersServed(list, cs, m, vcn, 0)
  {
  }

  lemma NothingRead(b: seq<bv8>, at: nat, list: Mapping, cs: nat, m: Medium, x: nat)
    requires cs > 0 && at <= |b|
    ensures Shows(b, at, at, list.runs, cs, m, x) && BytesServed(list, cs, m, x, 0)
  {
  }

  lemma PastEnd(list: Mapping, cs: nat, m: Medium, vcn: nat, n: nat)
    requires n > 0 && vcn + n > list.clusters
    ensures !ClustersServed(list, cs, m, vcn, n)
  {
    var last := vcn + n - 1;
    assert !Served(list, cs, m, last);
  }

  lemma NowhereFails(list: Mapping, cs: nat, m: Medium, vcn: nat, n: nat)
    requires n > 0 && PlaceOf(list.runs, vcn).Nowhere?
    ensures !ClustersServed(list, cs, m, vcn, n)
  {
    assert !Served(list, cs, m, vcn);
  }

  // The part to read lies in the buffer, right after what was read.
  lemma PartFits(at: nat, done: nat, count: nat, clusters: nat, cs: nat, first: nat)
    requires done + count <= clusters
    ensures ByteOf(done + count, cs) == ByteOf(done, cs) + ByteOf(count, cs) && ByteOf(done + count, cs) <= ByteOf(clusters, cs)
    ensures ByteOf(first + done, cs) == ByteOf(first, cs) + ByteOf(done, cs)
    ensures ByteOf(count, cs) <= ByteOf(clusters, cs)
  {
    hide ByteOf;
    ByteOfSum(done, count, cs);
    ByteOfSum(first, done, cs);
    ByteOfOrder(done + count, clusters, cs);
  }

  // Bytes cut out of a cluster that shows the stream.
  lemma CutShows(cluster: seq<bv8>, b: seq<bv8>, from: nat, lo: nat, hi: nat, runs: seq<Entry>, cs: nat, m: Medium, x: nat)
    requires cs > 0 && lo <= hi <= |b| && from + (hi - lo) <= |cluster| == cs
    requires Shows(cluster, 0, cs, runs, cs, m, x) && b[lo..hi] == cluster[from..from + (hi - lo)]
    ensures Shows(b, lo, hi, runs, cs, m, x + from)
  {
    hide RunByte;
    var part := b[lo..hi];
    forall j: nat | lo <= j < hi ensures b[j] == RunByte(runs, cs, m, x + from + (j - lo)) {
      assert part[j - lo] == b[j];
      assert cluster[from + (j - lo)] == RunByte(runs, cs, m, x + (from + (j - lo)));
    }
  }

  lemma SameShows(a: seq<bv8>, b: seq<bv8>, n: nat, runs: seq<Entry>, cs: nat, m: Medium, x: nat)
    requires cs > 0 && n <= |a| && SameOutside(a, b, n, n) && Shows(a, 0, n, runs, cs, m, x)
    ensures Shows(b, 0, n, runs, cs, m, x)
  {
    hide RunByte;
  }

  // What is left after the leading part starts a cluster, or nothing is left.
  lemma RestServed(list: Mapping, cs: nat, m: Medium, offset: nat, head: nat, end: nat, vcn: nat)
    requires cs > 0 && head <= end && vcn == UnitOf(offset + head, cs)
    requires offset + head == UnitStart(offset + head, cs) || head == end
    ensures head < end ==> ByteOf(vcn, cs) == offset + head
    ensures BytesServed(list, cs, m, offset, end) <==> BytesServed(list, cs, m, offset, head) && BytesServed(list, cs, m, ByteOf(vcn, cs), end - head)
  {
    hide Served, UnitOf, UnitStart, ByteOf;
    UnitSplits(offset + head, cs);
    ServedParts(list, cs, m, offset, head, end - head);
  }
}
