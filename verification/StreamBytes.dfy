// The bytes of a non-resident stream, as its runs and its header give them.
module StreamBytes {
  import opened Prelude
  import opened Media
  import opened RunEntries

  // The largest 32-bit count: one disk read asks for no more bytes.
  const U32_MAX: nat := 0xFFFF_FFFF

  // The first byte of a cluster.
  function ByteOf(v: nat, cs: nat): nat {
    v * cs
  }

  lemma ByteOfSum(a: nat, b: nat, cs: nat)
    ensures ByteOf(a + b, cs) == ByteOf(a, cs) + ByteOf(b, cs)
    ensures ByteOf(0, cs) == 0 && ByteOf(1, cs) == cs
  {
  }

  lemma ByteOfOrder(a: nat, b: nat, cs: nat)
    requires a <= b
    ensures ByteOf(a, cs) <= ByteOf(b, cs)
    ensures a < b && cs > 0 ==> ByteOf(a, cs) < ByteOf(b, cs)
  {
    ProductMonotone(a, b, cs);
    if a < b { ProductMonotone(a + 1, b, cs); }
  }

  lemma UnitIs(v: nat, r: nat, cs: nat)
    requires r < cs
    ensures UnitOf(ByteOf(v, cs) + r, cs) == v && UnitStart(ByteOf(v, cs) + r, cs) == ByteOf(v, cs)
  {
    QuotientIs(ByteOf(v, cs) + r, v, cs);
  }

  // A byte is its cluster's first byte and the rest.
  lemma UnitSplits(x: nat, cs: nat)
    requires cs > 0
    ensures UnitStart(x, cs) == ByteOf(UnitOf(x, cs), cs)
    ensures UnitStart(x, cs) <= x < UnitStart(x, cs) + cs
  {
    UnitBounds(x, cs);
  }

  // A medium whose addresses are signed 64-bit values.
  ghost predicate Addressable(m: Medium) {
    forall x :: CanRead(m, x) ==> x <= I64_MAX
  }

  // A byte of the stream as its runs give it.
  function RunByte(runs: seq<Entry>, cs: nat, m: Medium, x: nat): bv8
    requires cs > 0
  {
    var place := PlaceOf(runs, UnitOf(x, cs));
    if place.Cluster? then m.byteAt(ByteOf(place.lcn, cs) + (x - UnitStart(x, cs))) else 0
  }

  // Whether a cluster of the stream can be read: some run holds it, and the disk
  // gives all its bytes if it is real.
  ghost predicate Served(list: Mapping, cs: nat, m: Medium, v: nat) {
    && v < list.clusters
    && match PlaceOf(list.runs, v)
       case Nowhere => false
       case Hole => true
       case Cluster(lcn) => AllReadable(m, ByteOf(lcn, cs), cs)
  }

  // Whether the clusters under a range of bytes can be read.
  ghost predicate BytesServed(list: Mapping, cs: nat, m: Medium, x: nat, n: nat)
    requires cs > 0
  {
    forall y: nat :: x <= y < x + n ==> Served(list, cs, m, UnitOf(y, cs))
  }

  lemma ServedParts(list: Mapping, cs: nat, m: Medium, x: nat, a: nat, b: nat)
    requires cs > 0
    ensures BytesServed(list, cs, m, x, a + b) <==> BytesServed(list, cs, m, x, a) && BytesServed(list, cs, m, x + a, b)
  {
    hide Served, UnitOf;
  }

  ghost predicate ClustersServed(list: Mapping, cs: nat, m: Medium, vcn: nat, n: nat) {
    forall w: nat :: vcn <= w < vcn + n ==> Served(list, cs, m, w)
  }

  // Whole clusters: each is served when its bytes are.
  lemma WholeServed(list: Mapping, cs: nat, m: Medium, vcn: nat, n: nat)
    requires cs > 0
    ensures BytesServed(list, cs, m, ByteOf(vcn, cs), ByteOf(n, cs)) <==> ClustersServed(list, cs, m, vcn, n)
  {
    hide Served, UnitOf, UnitStart, ByteOf;
    ByteOfSum(vcn, n, cs);
    if BytesServed(list, cs, m, ByteOf(vcn, cs), ByteOf(n, cs)) {
      forall w: nat | vcn <= w < vcn + n ensures Served(list, cs, m, w) {
        UnitIs(w, 0, cs);
        ByteOfOrder(vcn, w, cs);
        ByteOfOrder(w, vcn + n, cs);
        var y := ByteOf(w, cs) + 0;
        assert Served(list, cs, m, UnitOf(y, cs));
      }
    }
    if ClustersServed(list, cs, m, vcn, n) {
      forall y: nat | ByteOf(vcn, cs) <= y < ByteOf(vcn, cs) + ByteOf(n, cs) ensures Served(list, cs, m, UnitOf(y, cs)) {
        UnitWithin(y, vcn, n, cs);
      }
    }
  }

  lemma UnitWithin(y: nat, vcn: nat, n: nat, cs: nat)
    requires cs > 0 && ByteOf(vcn, cs) <= y < ByteOf(vcn, cs) + ByteOf(n, cs)
    ensures vcn <= UnitOf(y, cs) < vcn + n
  {
    hide UnitOf, UnitStart, ByteOf;
    UnitSplits(y, cs);
    ByteOfSum(vcn, n, cs);
    var v := UnitOf(y, cs);
    if v < vcn {
      ByteOfOrder(v + 1, vcn, cs);
      ByteOfSum(v, 1, cs);
    }
    if v >= vcn + n {
      ByteOfOrder(vcn + n, v, cs);
    }
  }

  // Part of a cluster is served when the cluster is.
  lemma PartServed(list: Mapping, cs: nat, m: Medium, vcn: nat, from: nat, n: nat)
    requires cs > 0 && n > 0 && from + n <= cs
    ensures BytesServed(list, cs, m, ByteOf(vcn, cs) + from, n) <==> ClustersServed(list, cs, m, vcn, 1)
  {
    hide Served, UnitOf, UnitStart, ByteOf;
    var x := ByteOf(vcn, cs) + from;
    forall y: nat | x <= y < x + n ensures UnitOf(y, cs) == vcn {
      UnitIs(vcn, y - ByteOf(vcn, cs), cs);
    }
    assert BytesServed(list, cs, m, x, n) ==> Served(list, cs, m, UnitOf(x, cs));
  }

  // -------------------------------------------------------------------------
  // Part of a run
  // -------------------------------------------------------------------------

  // The bytes of part of a run: those of its clusters on the disk, or zeros.
  lemma RunPartByte(list: Mapping, i: nat, cs: nat, m: Medium, vcn: nat, count: nat, k: nat)
    requires MappingRight(list) && i < |list.runs| && cs > 0 && k < ByteOf(count, cs)
    requires count > 0 && Holds(list.runs[i], vcn) && Holds(list.runs[i], vcn + count - 1)
    ensures RunByte(list.runs, cs, m, ByteOf(vcn, cs) + k) == if list.runs[i].lcn.None? then 0 else m.byteAt(ByteOf(PlaceIn(list.runs[i], vcn).lcn, cs) + k)
  {
    hide PlaceOf, Ordered, UnitOf, UnitStart, ByteOf;
    var q, r := UnitOf(k, cs), k - UnitStart(k, cs);
    UnitSplits(k, cs);
    ByteOfSum(0, 0, cs);
    UnitWithin(k, 0, count, cs);
    ByteOfSum(vcn, q, cs);
    UnitIs(vcn + q, r, cs);
    AnyPlaces(list.runs, 0, list.clusters, i, vcn + q);
    if list.runs[i].lcn.Some? {
      ByteOfSum(PlaceIn(list.runs[i], vcn).lcn, q, cs);
    }
  }

  // Part of a run is served when the disk gives all its clusters.
  lemma {:induction false} RunPartServed(list: Mapping, i: nat, cs: nat, m: Medium, vcn: nat, count: nat)
    requires MappingRight(list) && i < |list.runs| && cs > 0 && vcn + count <= list.clusters
    requires count > 0 ==> Holds(list.runs[i], vcn) && Holds(list.runs[i], vcn + count - 1)
    ensures ClustersServed(list, cs, m, vcn, count) <==> count == 0 || list.runs[i].lcn.None? || AllReadable(m, ByteOf(PlaceIn(list.runs[i], vcn).lcn, cs), ByteOf(count, cs))
  {
    hide PlaceOf, Ordered, ByteOf, AllReadable;
    if count > 0 {
      var v := vcn + count - 1;
      AnyPlaces(list.runs, 0, list.clusters, i, v);
      RunPartServed(list, i, cs, m, vcn, count - 1);
      OneMoreServed(list, cs, m, vcn, count - 1);
      if list.runs[i].lcn.Some? {
        var lcn := PlaceIn(list.runs[i], vcn).lcn;
        ByteOfSum(lcn, count - 1, cs);
        ByteOfSum(count - 1, 1, cs);
        NoneReadable(m, ByteOf(lcn, cs));
        BytesAdded(m, ByteOf(lcn, cs), ByteOf(count - 1, cs), cs);
      }
    }
  }

  lemma NoneReadable(m: Medium, x: int)
    ensures AllReadable(m, x, 0)
  {
  }

  lemma OneMoreServed(list: Mapping, cs: nat, m: Medium, vcn: nat, n: nat)
    ensures ClustersServed(list, cs, m, vcn, n + 1) <==> ClustersServed(list, cs, m, vcn, n) && Served(list, cs, m, vcn + n)
  {
    hide Served;
  }

  lemma ServedSplit(list: Mapping, cs: nat, m: Medium, vcn: nat, a: nat, b: nat)
    ensures ClustersServed(list, cs, m, vcn, a + b) <==> ClustersServed(list, cs, m, vcn, a) && ClustersServed(list, cs, m, vcn + a, b)
  {
    hide Served;
  }

  // A spliced stream has the bytes of its first part, then those of its second.
  lemma SplicedByte(a: Mapping, b: Mapping, cs: nat, m: Medium, x: nat)
    requires MappingRight(a) && MappingRight(b) && a.clusters + b.clusters <= U64_MAX && cs > 0
    ensures RunByte(Appended(a, b).runs, cs, m, x) == if x < ByteOf(a.clusters, cs) then RunByte(a.runs, cs, m, x) else RunByte(b.runs, cs, m, x - ByteOf(a.clusters, cs))
  {
    hide PlaceOf, Ordered, UnitOf, UnitStart, ByteOf, Appended;
    var v, r := UnitOf(x, cs), x - UnitStart(x, cs);
    UnitSplits(x, cs);
    AppendPlaces(a, b, v);
    if v < a.clusters {
      ByteOfOrder(v + 1, a.clusters, cs);
      ByteOfSum(v, 1, cs);
    } else {
      ByteOfOrder(a.clusters, v, cs);
      ByteOfSum(a.clusters, v - a.clusters, cs);
      UnitIs(v - a.clusters, r, cs);
    }
  }

  // -------------------------------------------------------------------------
  // What a buffer shows
  // -------------------------------------------------------------------------

  // The buffer holds, from one place to another, the bytes of the runs from x on.
  ghost predicate Shows(b: seq<bv8>, lo: nat, hi: nat, runs: seq<Entry>, cs: nat, m: Medium, x: nat)
    requires cs > 0 && hi <= |b|
  {
    forall j: nat :: lo <= j < hi ==> b[j] == RunByte(runs, cs, m, x + (j - lo))
  }

  predicate SameOutside(a: seq<bv8>, b: seq<bv8>, lo: nat, hi: nat) {
    && |a| == |b|
    && forall j :: 0 <= j < |a| && !(lo <= j < hi) ==> a[j] == b[j]
  }

  // A range is shown when two parts of it are, one written after the other.
  lemma ShowsBoth(b: seq<bv8>, now: seq<bv8>, lo: nat, mid: nat, hi: nat, runs: seq<Entry>, cs: nat, m: Medium, x: nat)
    requires cs > 0 && lo <= mid <= hi <= |b| && SameOutside(b, now, mid, hi)
    requires Shows(b, lo, mid, runs, cs, m, x) && Shows(now, mid, hi, runs, cs, m, x + (mid - lo))
    ensures Shows(now, lo, hi, runs, cs, m, x)
  {
    hide RunByte;
    forall j: nat | lo <= j < hi ensures now[j] == RunByte(runs, cs, m, x + (j - lo)) {
      if j < mid { assert b[j] == now[j]; } else { assert x + (mid - lo) + (j - mid) == x + (j - lo); }
    }
  }

  lemma OutsideBoth(a: seq<bv8>, b: seq<bv8>, c: seq<bv8>, lo: nat, hi: nat, from: nat, to: nat)
    requires SameOutside(a, b, lo, hi) && SameOutside(b, c, from, to) && lo <= from && to <= hi
    ensures SameOutside(a, c, lo, hi)
  {
  }
}
