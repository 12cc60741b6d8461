// The run list object: decoded in place, spliced with the lists that continue it,
// and asked where ranges of the stream lie.
module RunLists {
  import opened Prelude
  import opened AllocTypes
  import opened RunEntries

  // -------------------------------------------------------------------------
  // The clusters of a range
  // -------------------------------------------------------------------------

  function Consecutive(lcn: nat, n: nat): (r: seq<nat>)
    ensures |r| == n
  {
    if n == 0 then [] else Consecutive(lcn, n - 1) + [lcn + n - 1]
  }

  function ClustersOf(extents: seq<Extent>): seq<nat> {
    if |extents| == 0 then []
    else ClustersOf(extents[..|extents| - 1]) + Consecutive(extents[|extents| - 1].lcn, extents[|extents| - 1].clusters)
  }

  // The real clusters of a VCN range, one by one.
  function RealBetween(runs: seq<Entry>, from: nat, to: nat): seq<nat> {
    if to <= from then []
    else
      var place := PlaceOf(runs, to - 1);
      RealBetween(runs, from, to - 1) + if place.Cluster? then [place.lcn] else []
  }

  lemma {:induction false} RunPartAdds(runs: seq<Entry>, reach: nat, i: nat, from: nat, at: nat, n: nat)
    requires Ordered(runs, 0, reach) && i < |runs|
    requires from <= at && (n > 0 ==> Holds(runs[i], at) && Holds(runs[i], at + n - 1))
    ensures RealBetween(runs, from, at + n) == RealBetween(runs, from, at) + (if runs[i].lcn.Some? && n > 0 then Consecutive(PlaceIn(runs[i], at).lcn, n) else [])
  {
    hide Ordered, PlaceOf;
    if n > 0 {
      RunPartAdds(runs, reach, i, from, at, n - 1);
      AnyPlaces(runs, 0, reach, i, at + n - 1);
    }
  }

  ghost predicate Mapped(runs: seq<Entry>, from: nat, to: nat) {
    forall v: nat :: from <= v < to ==> !PlaceOf(runs, v).Nowhere?
  }

  predicate AllBelow(extents: seq<Extent>, maxLcn: nat) {
    forall x :: x in extents ==> x.clusters > 0 && x.lcn + x.clusters <= maxLcn
  }

  lemma ExtentAdds(extents: seq<Extent>, x: Extent, maxLcn: nat)
    ensures ClustersOf(extents + [x]) == ClustersOf(extents) + Consecutive(x.lcn, x.clusters)
    ensures AllBelow(extents, maxLcn) && x.clusters > 0 && x.lcn + x.clusters <= maxLcn ==> AllBelow(extents + [x], maxLcn)
  {
    assert (extents + [x])[..|extents|] == extents;
  }

  lemma NoneMapped(runs: seq<Entry>, first: nat, maxLcn: nat)
    ensures ClustersOf([]) == RealBetween(runs, first, first) && Mapped(runs, first, first) && AllBelow([], maxLcn)
  {
  }

  // The part of the run at vcn that is asked for reaches past the largest LCN.
  ghost predicate Blocked(runs: seq<Entry>, vcn: nat, end: nat, maxLcn: nat) {
    exists i :: 0 <= i < |runs| && Holds(runs[i], vcn) && PartTooHigh(runs[i], vcn, end, maxLcn)
  }

  predicate PartTooHigh(e: Entry, vcn: nat, end: nat, maxLcn: nat)
    requires e.startVcn <= vcn
  {
    e.lcn.Some? && PlaceIn(e, vcn).lcn + (Min(e.lastVcn + 1, end) - vcn) > maxLcn
  }

  // -------------------------------------------------------------------------
  // The walk over a range, in 64-bit arithmetic
  // -------------------------------------------------------------------------

  // The run that answers for a VCN: the first that holds it.
  function HolderOf(runs: seq<Entry>, vcn: nat): Option<Entry> {
    if |runs| == 0 then None else if Holds(runs[0], vcn) then Some(runs[0]) else HolderOf(runs[1..], vcn)
  }

  // The clusters that one step takes of a run.
  function CountOf(e: Entry, vcn: nat, end: nat): nat {
    In64(Min(In64(e.lastVcn + 1), end) - vcn)
  }

  predicate OverLimit(e: Entry, vcn: nat, count: nat, maxLcn: nat) {
    e.lcn.Some? && (e.lcn.value > maxLcn || vcn - e.startVcn > maxLcn - e.lcn.value || count > maxLcn - e.lcn.value - (vcn - e.startVcn))
  }

  datatype WalkStep = Stop | On(vcn: nat)

  // One turn of the walk that stands at a VCN.
  function Walked(runs: seq<Entry>, vcn: nat, end: nat, maxLcn: nat): WalkStep {
    if vcn >= end then Stop
    else match HolderOf(runs, vcn)
      case None => Stop
      case Some(e) =>
        var count := CountOf(e, vcn, end);
        if OverLimit(e, vcn, count, maxLcn) then Stop else On(In64(vcn + count))
  }

  // The walk stops within so many turns.
  predicate EndsWithin(runs: seq<Entry>, vcn: nat, end: nat, maxLcn: nat, turns: nat)
    decreases turns
  {
    match Walked(runs, vcn, end, maxLcn)
    case Stop => true
    case On(next) => turns > 0 && EndsWithin(runs, next, end, maxLcn, turns - 1)
  }

  ghost predicate Ends(runs: seq<Entry>, vcn: nat, end: nat, maxLcn: nat) {
    exists turns: nat :: EndsWithin(runs, vcn, end, maxLcn, turns)
  }

  // A range that is asked for starts on an empty run that has no last VCN: a
  // hole, or, from VCN 0 on, a run that the limit lets through.
  predicate Stalls(runs: seq<Entry>, first: nat, end: nat, maxLcn: nat) {
    first < end && StartsStuck(runs) && (runs[0].lcn.None? || (first == 0 && runs[0].lcn.value <= maxLcn))
  }

  // A step along a run that has a last VCN.
  lemma StepMovesOn(e: Entry, vcn: nat, end: nat)
    requires e.startVcn <= vcn <= e.lastVcn < U64_MAX && vcn < end <= U64_MAX
    ensures CountOf(e, vcn, end) == Min(e.lastVcn + 1, end) - vcn > 0 && In64(vcn + CountOf(e, vcn, end)) == Min(e.lastVcn + 1, end)
  {
    hide In64;
    Wraps(e.lastVcn + 1);
    Wraps(Min(e.lastVcn + 1, end) - vcn);
    Wraps(Min(e.lastVcn + 1, end));
  }

  // A step along one that has none: back to VCN 0, where it takes no cluster, or
  // past any limit.
  lemma StepFallsBack(e: Entry, vcn: nat, end: nat, maxLcn: nat)
    requires Stuck(e) && vcn < end <= U64_MAX && maxLcn <= U64_MAX
    ensures In64(vcn + CountOf(e, vcn, end)) == 0
    ensures OverLimit(e, vcn, CountOf(e, vcn, end), maxLcn) <==> e.lcn.Some? && (vcn > 0 || e.lcn.value > maxLcn)
  {
    hide In64;
    Wraps(U64_MAX + 1);
    Wraps(0 - vcn);
    if vcn > 0 { Wraps(U64_MAX + 1); } else { Wraps(0); }
  }

  lemma {:induction false} HolderHolds(runs: seq<Entry>, vcn: nat)
    ensures HolderOf(runs, vcn).Some? ==> HolderOf(runs, vcn).value in runs && Holds(HolderOf(runs, vcn).value, vcn)
  {
    if |runs| > 0 { HolderHolds(runs[1..], vcn); }
  }

  lemma {:induction false} FirstHolds(runs: seq<Entry>, i: nat, vcn: nat)
    requires i < |runs| && Holds(runs[i], vcn) && forall k :: 0 <= k < i ==> !Holds(runs[k], vcn)
    ensures HolderOf(runs, vcn) == Some(runs[i])
  {
    if i > 0 {
      var rest := runs[1..];
      forall k | 0 <= k < i - 1 ensures !Holds(rest[k], vcn) {
        assert rest[k] == runs[k + 1];
      }
      FirstHolds(rest, i - 1, vcn);
    }
  }

  lemma NoneHolds(runs: seq<Entry>, vcn: nat)
    requires forall k :: 0 <= k < |runs| ==> !Holds(runs[k], vcn)
    ensures HolderOf(runs, vcn).None?
  {
    HolderHolds(runs, vcn);
  }

  predicate StartsStuck(runs: seq<Entry>) {
    |runs| > 0 && Stuck(runs[0])
  }

  lemma ShapedSays(runs: seq<Entry>)
    requires Shaped(runs) && !StartsStuck(runs)
    ensures Ordered(runs, 0, U64_MAX)
  {
  }

  // What a step of the walk does on a range that does not stall.
  lemma ShapedStep(runs: seq<Entry>, e: Entry, vcn: nat, end: nat, maxLcn: nat)
    requires Shaped(runs) && HolderOf(runs, vcn) == Some(e) && vcn < end <= U64_MAX && maxLcn <= U64_MAX
    requires !Stalls(runs, vcn, end, maxLcn)
    ensures if StartsStuck(runs) then OverLimit(e, vcn, CountOf(e, vcn, end), maxLcn) else EntryRight(e) && Holds(e, vcn) && CountOf(e, vcn, end) == Min(e.lastVcn + 1, end) - vcn > 0
  {
    hide CountOf, In64, Ordered;
    if StartsStuck(runs) {
      assert e == runs[0];
      StepFallsBack(e, vcn, end, maxLcn);
    } else {
      ShapedSays(runs);
      OrderSays(runs, 0, U64_MAX);
      HolderHolds(runs, vcn);
      StepMovesOn(e, vcn, end);
    }
  }

  // Over runs in order the walk ends.
  lemma {:induction false} OrderedEnds(runs: seq<Entry>, vcn: nat, end: nat, maxLcn: nat)
    requires Ordered(runs, 0, U64_MAX) && end <= U64_MAX
    ensures EndsWithin(runs, vcn, end, maxLcn, Max(0, end - vcn))
    decreases Max(0, end - vcn)
  {
    hide Ordered, HolderOf, CountOf, In64;
    if vcn < end {
      HolderHolds(runs, vcn);
      var holder := HolderOf(runs, vcn);
      if holder.Some? {
        OrderSays(runs, 0, U64_MAX);
        StepMovesOn(holder.value, vcn, end);
        var next := Min(holder.value.lastVcn + 1, end);
        OrderedEnds(runs, next, end, maxLcn);
        EndsLater(runs, next, end, maxLcn, Max(0, end - next), end - vcn - 1);
      }
    }
  }

  lemma {:induction false} EndsLater(runs: seq<Entry>, vcn: nat, end: nat, maxLcn: nat, turns: nat, more: nat)
    requires EndsWithin(runs, vcn, end, maxLcn, turns) && turns <= more
    ensures EndsWithin(runs, vcn, end, maxLcn, more)
    decreases turns
  {
    hide Walked;
    var step := Walked(runs, vcn, end, maxLcn);
    if step.On? { EndsLater(runs, step.vcn, end, maxLcn, turns - 1, more - 1); }
  }

  // On a range that stalls it never does.
  lemma {:induction false} StalledGoesOn(runs: seq<Entry>, vcn: nat, end: nat, maxLcn: nat, turns: nat)
    requires Stalls(runs, vcn, end, maxLcn) && end <= U64_MAX && maxLcn <= U64_MAX
    ensures !EndsWithin(runs, vcn, end, maxLcn, turns)
    decreases turns
  {
    hide CountOf, In64;
    assert HolderOf(runs, vcn) == Some(runs[0]);
    StepFallsBack(runs[0], vcn, end, maxLcn);
    if turns > 0 { StalledGoesOn(runs, 0, end, maxLcn, turns - 1); }
  }

  // Over every decoded list the walk ends exactly when its range does not stall.
  lemma WalkEndsIff(bytes: seq<Byte>, bound: nat, first: nat, end: nat, maxLcn: nat)
    requires bound <= U64_MAX && first <= U64_MAX && end <= U64_MAX && maxLcn <= U64_MAX
    ensures var runs := Decoded(bytes, Cursor(0, 0), bound).runs; Ends(runs, first, end, maxLcn) <==> !Stalls(runs, first, end, maxLcn)
    ensures bound < U64_MAX ==> !Stalls(Decoded(bytes, Cursor(0, 0), bound).runs, first, end, maxLcn)
  {
    hide Decoded, EndsWithin;
    var runs := Decoded(bytes, Cursor(0, 0), bound).runs;
    DecodedShaped(bytes, Cursor(0, 0), bound);
    DecodedUsable(bytes, bound);
    ShapedEndsIff(runs, first, end, maxLcn);
  }

  lemma ShapedEndsIff(runs: seq<Entry>, first: nat, end: nat, maxLcn: nat)
    requires Shaped(runs) && end <= U64_MAX && maxLcn <= U64_MAX
    ensures Ends(runs, first, end, maxLcn) <==> !Stalls(runs, first, end, maxLcn)
  {
    if Stalls(runs, first, end, maxLcn) {
      forall turns: nat ensures !EndsWithin(runs, first, end, maxLcn, turns) {
        StalledGoesOn(runs, first, end, maxLcn, turns);
      }
    } else if StartsStuck(runs) {
      StuckStops(runs, first, end, maxLcn);
      assert EndsWithin(runs, first, end, maxLcn, 0);
    } else {
      OrderedEnds(runs, first, end, maxLcn);
    }
  }

  lemma StuckStops(runs: seq<Entry>, first: nat, end: nat, maxLcn: nat)
    requires StartsStuck(runs) && !Stalls(runs, first, end, maxLcn) && end <= U64_MAX && maxLcn <= U64_MAX
    ensures Walked(runs, first, end, maxLcn).Stop?
  {
    hide CountOf, In64;
    if first < end { StepFallsBack(runs[0], first, end, maxLcn); }
  }

  // One packed hole of no clusters under a bound of all ones: the walk over the
  // first cluster never ends.
  lemma EmptyHoleStalls(maxLcn: nat)
    requires maxLcn <= U64_MAX
    ensures var bytes: seq<Byte> := [1, 0]; Decoded(bytes, Cursor(0, 0), U64_MAX) == Decode([Entry(None, 0, 0, U64_MAX)], true)
    ensures !Ends(Decoded([1, 0], Cursor(0, 0), U64_MAX).runs, 0, 1, maxLcn)
  {
    var bytes: seq<Byte> := [1, 0];
    assert PickData(bytes) == Pick(0, None, []) by {
      var length: seq<Byte> := bytes[1..2];
      assert |length| == 1 && length[1..] == [];
      assert Unsigned(length) == 0;
      assert bytes[2..] == [];
    }
    WalkEndsIff(bytes, U64_MAX, 0, 1, maxLcn);
  }

  // -------------------------------------------------------------------------
  // Real stretches
  // -------------------------------------------------------------------------

  datatype VcnRun = VcnRun(startVcn: nat, clusters: nat)

  datatype VcnRunList = VcnRunList(runs: seq<VcnRun>, coveredClusters: nat, wellFormed: bool)

  predicate Overflows(e: Entry) {
    e.lcn.Some? && e.clusters > U64_MAX - e.lcn.value
  }

  // A run that does not wrap ends at a 64-bit number.
  lemma OverflowMeans(e: Entry)
    ensures !Overflows(e) <==> e.lcn.None? || e.lcn.value + e.clusters <= U64_MAX
  {
  }

  predicate RealRun(e: Entry, vcn: nat) {
    e.clusters > 0 && Holds(e, vcn) && e.lcn.Some? && !Overflows(e)
  }

  ghost predicate RealAt(runs: seq<Entry>, n: nat, vcn: nat)
    requires n <= |runs|
  {
    exists i :: 0 <= i < n && RealRun(runs[i], vcn)
  }

  ghost predicate AllWellFormed(runs: seq<Entry>, n: nat)
    requires n <= |runs|
  {
    forall i :: 0 <= i < n ==> runs[i].clusters > 0 && !Overflows(runs[i])
  }

  // The end of the last run that is not empty.
  ghost predicate CoveredRight(runs: seq<Entry>, n: nat, covered: nat)
    requires n <= |runs|
  {
    && (forall i :: 0 <= i < n && runs[i].clusters > 0 ==> runs[i].lastVcn < covered)
    && (covered > 0 ==> exists i :: 0 <= i < n && runs[i].clusters > 0 && runs[i].lastVcn + 1 == covered)
  }

  lemma WellFormedNone(runs: seq<Entry>)
    ensures AllWellFormed(runs, 0) && CoveredRight(runs, 0, 0)
  {
  }

  lemma WellFormedNext(runs: seq<Entry>, i: nat)
    requires i < |runs|
    ensures AllWellFormed(runs, i + 1) <==> AllWellFormed(runs, i) && runs[i].clusters > 0 && !Overflows(runs[i])
  {
  }

  // The runs that are not empty lie one after the other.
  ghost predicate NonemptyInOrder(runs: seq<Entry>) {
    && (forall i :: 0 <= i < |runs| && runs[i].clusters > 0 ==> EntryRight(runs[i]))
    && (forall i, j :: 0 <= i < j < |runs| ==> runs[i].startVcn + runs[i].clusters <= runs[j].startVcn)
  }

  lemma {:induction false} ShapedInOrder(runs: seq<Entry>)
    requires Shaped(runs)
    ensures NonemptyInOrder(runs)
  {
    hide Ordered;
    if StartsStuck(runs) {
      var rest := runs[1..];
      ShapedInOrder(rest);
      forall i | 0 <= i < |runs| && runs[i].clusters > 0 ensures EntryRight(runs[i]) {
        assert runs[i] == rest[i - 1];
      }
      forall i, j | 0 <= i < j < |runs| ensures runs[i].startVcn + runs[i].clusters <= runs[j].startVcn {
        assert runs[j] == rest[j - 1];
        if i > 0 { assert runs[i] == rest[i - 1]; }
      }
    } else {
      OrderSays(runs, 0, U64_MAX);
    }
  }

  lemma CoveredNext(runs: seq<Entry>, i: nat, covered: nat)
    requires NonemptyInOrder(runs) && i < |runs| && CoveredRight(runs, i, covered)
    ensures CoveredRight(runs, i + 1, if runs[i].clusters == 0 then covered else runs[i].lastVcn + 1)
  {
  }

  // What starts and ends a list in order.
  lemma BeforeRuns(runs: seq<Entry>, i: nat)
    requires NonemptyInOrder(runs) && i < |runs|
    ensures EndBefore(runs, i) <= runs[i].startVcn && EndBefore(runs, i) <= EndBefore(runs, i + 1)
    ensures runs[i].clusters > 0 ==> EntryRight(runs[i])
  {
  }

  predicate InStretch(r: VcnRun, vcn: nat) {
    r.startVcn <= vcn < r.startVcn + r.clusters
  }

  ghost predicate InStretches(list: seq<VcnRun>, vcn: nat) {
    exists k :: 0 <= k < |list| && InStretch(list[k], vcn)
  }

  // Stretches in order that never touch, up to a VCN.
  ghost predicate Apart(list: seq<VcnRun>, to: nat) {
    && (forall k :: 0 <= k < |list| ==> list[k].clusters > 0 && list[k].startVcn + list[k].clusters <= to)
    && (forall j, k :: 0 <= j < k < |list| ==> list[j].startVcn + list[j].clusters < list[k].startVcn)
  }

  function WithReal(list: seq<VcnRun>, e: Entry): seq<VcnRun> {
    if |list| > 0 && list[|list| - 1].startVcn + list[|list| - 1].clusters == e.startVcn then
      list[|list| - 1 := list[|list| - 1].(clusters := list[|list| - 1].clusters + e.clusters)]
    else list + [VcnRun(e.startVcn, e.clusters)]
  }

  lemma WithRealRight(list: seq<VcnRun>, e: Entry, to: nat)
    requires Apart(list, to) && to <= e.startVcn && e.clusters > 0 && EntryRight(e)
    ensures Apart(WithReal(list, e), e.startVcn + e.clusters)
    ensures forall v: nat :: InStretches(WithReal(list, e), v) <==> InStretches(list, v) || Holds(e, v)
  {
    hide WithReal, InStretches;
    WithRealApart(list, e, to);
    forall v: nat ensures InStretches(WithReal(list, e), v) <==> InStretches(list, v) || Holds(e, v) {
      WithRealHolds(list, e, v);
    }
  }

  lemma WithRealApart(list: seq<VcnRun>, e: Entry, to: nat)
    requires Apart(list, to) && to <= e.startVcn && e.clusters > 0
    ensures Apart(WithReal(list, e), e.startVcn + e.clusters)
  {
  }

  lemma WithRealHolds(list: seq<VcnRun>, e: Entry, v: nat)
    requires e.clusters > 0 && EntryRight(e) && forall k :: 0 <= k < |list| ==> list[k].clusters > 0
    ensures InStretches(WithReal(list, e), v) <==> InStretches(list, v) || Holds(e, v)
  {
    var more := WithReal(list, e);
    if InStretches(list, v) {
      var k :| 0 <= k < |list| && InStretch(list[k], v);
      assert InStretch(more[k], v);
    }
    if Holds(e, v) { assert InStretch(more[|more| - 1], v); }
    if InStretches(more, v) {
      var k :| 0 <= k < |more| && InStretch(more[k], v);
      if k < |list| && !Holds(e, v) { assert InStretch(list[k], v); }
    }
  }

  // -------------------------------------------------------------------------
  // Compression units
  // -------------------------------------------------------------------------

  // The first k clusters of a range are real, the others holes.
  ghost predicate LeadsWith(runs: seq<Entry>, first: nat, n: nat, k: nat) {
    && k <= n
    && (forall v: nat :: first <= v < first + k ==> PlaceOf(runs, v).Cluster?)
    && (forall v: nat :: first + k <= v < first + n ==> PlaceOf(runs, v).Hole?)
  }

  // How many empty runs with no last VCN the list starts with.
  function StuckCount(runs: seq<Entry>): (s: nat)
    ensures s <= |runs|
  {
    if StartsStuck(runs) then 1 + StuckCount(runs[1..]) else 0
  }

  lemma {:induction false} StuckSays(runs: seq<Entry>)
    requires Shaped(runs)
    ensures Ordered(runs[StuckCount(runs)..], 0, U64_MAX)
    ensures forall i :: 0 <= i < StuckCount(runs) ==> Stuck(runs[i])
  {
    hide Ordered;
    if StartsStuck(runs) {
      var rest := runs[1..];
      StuckSays(rest);
      assert runs[StuckCount(runs)..] == rest[StuckCount(rest)..];
      forall i | 0 <= i < StuckCount(runs) ensures Stuck(runs[i]) {
        if i > 0 { assert runs[i] == rest[i - 1]; }
      }
    } else {
      assert runs[0..] == runs;
    }
  }

  ghost predicate HoleAmong(runs: seq<Entry>, n: nat)
    requires n <= |runs|
  {
    exists i :: 0 <= i < n && runs[i].lcn.None?
  }

  ghost predicate RealAfterHole(runs: seq<Entry>, n: nat)
    requires n <= |runs|
  {
    exists i, j :: 0 <= i < j < n && runs[i].lcn.None? && runs[j].lcn.Some?
  }

  // The first k clusters of a unit are real, the others holes. Empty runs with no
  // last VCN map every VCN but 0; in the unit at VCN 0 they have no cluster, and
  // count as real runs and holes before the others.
  ghost predicate UnitLeads(runs: seq<Entry>, first: nat, n: nat, k: nat) {
    if n == 0 then k == 0
    else if first > 0 then first + n <= U64_MAX && LeadsWith(runs, first, n, k)
    else
      var s := StuckCount(runs);
      LeadsWith(runs[s..], first, n, k) && !RealAfterHole(runs, s) && (HoleAmong(runs, s) ==> k == 0)
  }

  // Over runs in order this is the plain meaning.
  lemma OrderedUnitLeads(runs: seq<Entry>, first: nat, n: nat, k: nat)
    requires Ordered(runs, 0, U64_MAX)
    ensures UnitLeads(runs, first, n, k) <==> LeadsWith(runs, first, n, k)
  {
    hide PlaceOf, Ordered;
    OrderSays(runs, 0, U64_MAX);
    assert runs[0..] == runs;
    if n > 0 && first + n > U64_MAX {
      NoneNowhere(runs, Max(first, U64_MAX));
      NoneLeads(runs, first, n, Max(first, U64_MAX));
    }
  }

  // An empty first run with no last VCN maps every unit past VCN 0.
  lemma StuckUnitLeads(runs: seq<Entry>, first: nat, n: nat)
    requires StartsStuck(runs) && first > 0 && n > 0 && first + n <= U64_MAX
    ensures UnitLeads(runs, first, n, if runs[0].lcn.Some? then n else 0)
  {
  }

  // The state of the count between two runs.
  ghost predicate Counting(runs: seq<Entry>, first: nat, n: nat, i: nat, vcn: nat, count: nat, sawHole: bool)
    requires i <= |runs|
  {
    var s := StuckCount(runs);
    var m := Min(i, s);
    && first <= vcn <= first + n && count <= vcn - first
    && if first > 0 && s > 0 then
         (vcn == first && count == 0 && !sawHole && i == 0) || (vcn == first + n && LeadsWith(runs, first, n, count))
       else
         && LeadsWith(runs[s..], first, vcn - first, count)
         && !RealAfterHole(runs, m)
         && (HoleAmong(runs, m) ==> count == 0)
         && (sawHole <==> HoleAmong(runs, m) || count < vcn - first)
         && (i < s ==> vcn == first)
         && (vcn < first + n ==> forall k :: s <= k < i ==> runs[k].lastVcn < vcn)
  }

  lemma CountingStarts(runs: seq<Entry>, first: nat, n: nat)
    ensures Counting(runs, first, n, 0, first, 0, false)
  {
  }

  lemma CountingEnds(runs: seq<Entry>, first: nat, n: nat, i: nat, count: nat, sawHole: bool)
    requires i <= |runs| && Counting(runs, first, n, i, first + n, count, sawHole) && first + n <= U64_MAX
    ensures UnitLeads(runs, first, n, count)
  {
    hide PlaceOf;
    assert runs[0..] == runs;
  }

  // One run counted.
  lemma CountingOn(runs: seq<Entry>, first: nat, n: nat, i: nat, vcn: nat, count: nat, sawHole: bool)
    requires Shaped(runs) && i < |runs| && Counting(runs, first, n, i, vcn, count, sawHole)
    requires vcn < first + n <= U64_MAX && Holds(runs[i], vcn) && (runs[i].lcn.Some? ==> !sawHole)
    ensures var take := Min(In64(runs[i].lastVcn - vcn + 1), first + n - vcn); Counting(runs, first, n, i + 1, vcn + take, if runs[i].lcn.Some? then count + take else count, sawHole || runs[i].lcn.None?)
  {
    hide PlaceOf, Ordered, LeadsWith, In64, Shaped, StuckCount, Counting, HoleAmong, RealAfterHole;
    StuckSays(runs);
    if i < StuckCount(runs) {
      CountingStuck(runs, first, n, i, vcn, count, sawHole);
    } else {
      CountingRun(runs, first, n, i, vcn, count, sawHole);
    }
  }

  // An empty run with no last VCN takes nothing at VCN 0, and else the whole unit.
  lemma CountingStuck(runs: seq<Entry>, first: nat, n: nat, i: nat, vcn: nat, count: nat, sawHole: bool)
    requires i < StuckCount(runs) && Stuck(runs[0]) && Stuck(runs[i]) && Counting(runs, first, n, i, vcn, count, sawHole)
    requires vcn < first + n <= U64_MAX && (runs[i].lcn.Some? ==> !sawHole)
    ensures var take := Min(In64(runs[i].lastVcn - vcn + 1), first + n - vcn); Counting(runs, first, n, i + 1, vcn + take, if runs[i].lcn.Some? then count + take else count, sawHole || runs[i].lcn.None?)
  {
    hide PlaceOf, LeadsWith, In64, StuckCount;
    Wraps(U64_MAX - vcn + 1);
    if first > 0 {
      JumpLeads(runs, first, n);
    } else {
      hide HoleAmong, RealAfterHole;
      StuckTurn(runs, i);
    }
  }

  // One that has a last VCN takes what it holds of the unit.
  lemma CountingRun(runs: seq<Entry>, first: nat, n: nat, i: nat, vcn: nat, count: nat, sawHole: bool)
    requires StuckCount(runs) <= i < |runs| && Ordered(runs[StuckCount(runs)..], 0, U64_MAX) && Counting(runs, first, n, i, vcn, count, sawHole)
    requires vcn < first + n <= U64_MAX && Holds(runs[i], vcn) && (runs[i].lcn.Some? ==> !sawHole)
    ensures var take := Min(In64(runs[i].lastVcn - vcn + 1), first + n - vcn); Counting(runs, first, n, i + 1, vcn + take, if runs[i].lcn.Some? then count + take else count, sawHole || runs[i].lcn.None?)
  {
    hide PlaceOf, Ordered, LeadsWith, In64, StuckCount, HoleAmong, RealAfterHole;
    var s, e := StuckCount(runs), runs[i];
    var rest := runs[s..];
    assert e == rest[i - s];
    OrderSays(rest, 0, U64_MAX);
    assert rest[i - s].lastVcn < U64_MAX;
    Wraps(e.lastVcn - vcn + 1);
    LeadsOn(rest, U64_MAX, i - s, first, vcn - first, count, Min(e.lastVcn - vcn + 1, first + n - vcn));
  }

  lemma JumpLeads(runs: seq<Entry>, first: nat, n: nat)
    requires |runs| > 0 && Stuck(runs[0]) && first > 0 && first + n <= U64_MAX
    ensures LeadsWith(runs, first, n, if runs[0].lcn.Some? then n else 0)
  {
  }

  lemma StuckTurn(runs: seq<Entry>, i: nat)
    requires i < |runs|
    ensures HoleAmong(runs, i + 1) <==> HoleAmong(runs, i) || runs[i].lcn.None?
    ensures RealAfterHole(runs, i + 1) <==> RealAfterHole(runs, i) || (HoleAmong(runs, i) && runs[i].lcn.Some?)
  {
  }

  lemma CountingPast(runs: seq<Entry>, first: nat, n: nat, i: nat, vcn: nat, count: nat, sawHole: bool)
    requires Shaped(runs) && i < |runs| && Counting(runs, first, n, i, vcn, count, sawHole)
    requires vcn < first + n <= U64_MAX && runs[i].lastVcn < vcn
    ensures Counting(runs, first, n, i + 1, vcn, count, sawHole)
  {
    hide LeadsWith, Shaped, StuckCount;
    StuckSays(runs);
  }

  lemma NoneLeads(runs: seq<Entry>, first: nat, n: nat, v: nat)
    requires first <= v < first + n && PlaceOf(runs, v).Nowhere?
    ensures forall k: nat :: !LeadsWith(runs, first, n, k)
  {
  }

  // No run is left to hold a VCN of the unit.
  lemma GapRefused(runs: seq<Entry>, first: nat, n: nat, i: nat, vcn: nat, count: nat, sawHole: bool)
    requires Shaped(runs) && i <= |runs| && Counting(runs, first, n, i, vcn, count, sawHole)
    requires vcn < first + n <= U64_MAX && (i < |runs| ==> runs[i].startVcn > vcn)
    ensures forall k: nat :: !UnitLeads(runs, first, n, k)
  {
    hide PlaceOf, Ordered, LeadsWith, Shaped, StuckCount;
    StuckSays(runs);
    var s := StuckCount(runs);
    var rest := runs[s..];
    forall k | 0 <= k < i - s ensures rest[k].lastVcn < vcn {
      assert rest[k] == runs[s + k];
    }
    GapNowhere(rest, U64_MAX, i - s, vcn);
    NoneLeads(rest, first, n, vcn);
    assert runs[0..] == runs;
  }

  // A real run comes after a hole.
  lemma LateRefused(runs: seq<Entry>, first: nat, n: nat, i: nat, vcn: nat, count: nat)
    requires Shaped(runs) && i < |runs| && Counting(runs, first, n, i, vcn, count, true)
    requires vcn < first + n <= U64_MAX && Holds(runs[i], vcn) && runs[i].lcn.Some?
    ensures forall k: nat :: !UnitLeads(runs, first, n, k)
  {
    hide PlaceOf, Ordered, Shaped, StuckCount;
    StuckSays(runs);
    var s := StuckCount(runs);
    var rest := runs[s..];
    assert runs[0..] == runs;
    if i < s {
      StuckTurn(runs, i);
      assert RealAfterHole(runs, s);
    } else {
      assert runs[i] == rest[i - s];
      AnyPlaces(rest, 0, U64_MAX, i - s, vcn);
      RealLeads(rest, first, n, vcn);
      if count < vcn - first { assert PlaceOf(rest, first + count).Hole?; }
    }
  }

  lemma RealLeads(runs: seq<Entry>, first: nat, n: nat, vcn: nat)
    requires first <= vcn < first + n && PlaceOf(runs, vcn).Cluster?
    ensures forall k: nat :: LeadsWith(runs, first, n, k) ==> k > vcn - first
  {
  }

  lemma EndRefused(runs: seq<Entry>, first: nat, n: nat, i: nat, vcn: nat, count: nat, sawHole: bool)
    requires Shaped(runs) && i <= |runs| && Counting(runs, first, n, i, vcn, count, sawHole) && first <= U64_MAX && n <= U64_MAX
    requires first + n > U64_MAX || (i == |runs| && vcn < first + n)
    ensures forall k: nat :: !UnitLeads(runs, first, n, k)
  {
    hide Shaped, Counting;
    if first + n <= U64_MAX { GapRefused(runs, first, n, i, vcn, count, sawHole); }
  }

  lemma LeadsOn(runs: seq<Entry>, reach: nat, i: nat, first: nat, n: nat, k: nat, take: nat)
    requires Ordered(runs, 0, reach) && i < |runs| && LeadsWith(runs, first, n, k) && take > 0
    requires Holds(runs[i], first + n) && Holds(runs[i], first + n + take - 1)
    requires runs[i].lcn.Some? ==> k == n
    ensures LeadsWith(runs, first, n + take, if runs[i].lcn.Some? then k + take else k)
  {
    hide Ordered, PlaceOf;
    forall v: nat | first + n <= v < first + n + take ensures PlaceOf(runs, v) == PlaceIn(runs[i], v) {
      AnyPlaces(runs, 0, reach, i, v);
    }
  }

  lemma GapNowhere(runs: seq<Entry>, reach: nat, i: nat, vcn: nat)
    requires Ordered(runs, 0, reach) && i <= |runs|
    requires forall k :: 0 <= k < i ==> runs[k].lastVcn < vcn
    requires i < |runs| ==> runs[i].startVcn > vcn
    ensures PlaceOf(runs, vcn).Nowhere?
  {
    hide Ordered, PlaceOf;
    OrderSays(runs, 0, reach);
    NoneNowhere(runs, vcn);
  }

  // -------------------------------------------------------------------------
  // The object
  // -------------------------------------------------------------------------

  class RunList {
    var runs: seq<Entry>
    var clusters: nat

    function Value(): Mapping
      reads this
    {
      Mapping(runs, clusters)
    }

    constructor (covered: nat)
      ensures Value() == Mapping([], covered)
    {
      runs, clusters := [], covered;
    }

    // Decodes one run into the list. False on a mistake, which recovery tolerates.
    method AppendDataRun(length: nat, offset: Option<int>, c: Cursor, bound: nat) returns (ok: bool, next: Cursor)
      modifies this`runs
      ensures ok == Stepped(length, offset, c, bound).Step?
      ensures ok ==> runs == old(runs) + [Stepped(length, offset, c, bound).entry] && next == Stepped(length, offset, c, bound).cursor
      ensures !ok ==> runs == old(runs)
    {
      ok, next := false, c;
      var delta := if offset.Some? then offset.value else 0;
      if delta > 0 && next.lcn > I64_MAX - delta {
        return;
      }
      next := next.(lcn := next.lcn + delta);
      if next.lcn < 0 {
        return;
      }
      if length > U64_MAX - next.vcn {
        return;
      }
      var lcn: Option<nat> := None;
      if offset.Some? {
        lcn := Some(next.lcn);
      }
      var startVcn := next.vcn;
      next := next.(vcn := next.vcn + length);
      var lastVcn := if next.vcn == 0 then U64_MAX else next.vcn - 1;
      if lastVcn > bound {
        return;
      }
      runs := runs + [Entry(lcn, length, startVcn, lastVcn)];
      ok := true;
    }

    // Decodes the bytes onto the list. A mistake is thrown, or, when recovering,
    // ends the list with the runs before it.
    method Parse(bytes: seq<Byte>, bound: nat, recover: bool) returns (thrown: bool)
      modifies this`runs
      ensures runs == old(runs) + Decoded(bytes, Cursor(0, 0), bound).runs
      ensures thrown <==> !recover && !Decoded(bytes, Cursor(0, 0), bound).clean
    {
      hide PickData, Stepped;
      var data, cursor := bytes, Cursor(0, 0);
      ghost var whole := Decoded(bytes, cursor, bound);
      thrown := false;
      while |data| > 0 && data[0] != 0
        invariant runs + Decoded(data, cursor, bound).runs == old(runs) + whole.runs
        invariant Decoded(data, cursor, bound).clean == whole.clean
        decreases |data|
      {
        Shrinks(data);
        ghost var before, rest := runs, Decoded(data, cursor, bound).runs;
        var pick := PickData(data);
        if pick.Broken? {
          return !recover;
        }
        var ok, next := AppendDataRun(pick.length, pick.offset, cursor, bound);
        if !ok {
          return !recover;
        }
        ghost var step := Stepped(pick.length, pick.offset, cursor, bound);
        data, cursor := pick.rest, next;
        assert rest == [step.entry] + Decoded(data, cursor, bound).runs;
        assert before + rest == runs + Decoded(data, cursor, bound).runs;
      }
    }

    // Appends another list's runs as the next VCN range.
    method Append(other: RunList)
      requires other != this
      modifies this
      ensures Value() == Appended(old(Value()), old(other.Value()))
    {
      var i: nat := 0;
      while i < |other.runs|
        invariant i <= |other.runs| && clusters == old(clusters)
        invariant other.runs == old(other.runs) && other.clusters == old(other.clusters)
        invariant runs == old(runs) + MovedRuns(other.runs[..i], clusters)
      {
        var run := other.runs[i];
        assert other.runs[..i + 1][..i] == other.runs[..i];
        runs := runs + [Moved(run, clusters)];
        i := i + 1;
      }
      assert other.runs[..i] == other.runs;
      clusters := In64(clusters + other.clusters);
    }

    // The first run that holds a VCN, which places it; none when it is nowhere.
    method Find(vcn: nat) returns (found: Option<nat>)
      ensures found.Some? ==> found.value < |runs| && Holds(runs[found.value], vcn) && PlaceOf(runs, vcn) == PlaceIn(runs[found.value], vcn)
      ensures found.None? <==> PlaceOf(runs, vcn).Nowhere?
      ensures HolderOf(runs, vcn) == if found.Some? then Some(runs[found.value]) else None
    {
      hide PlaceOf, HolderOf;
      NoneNowhere(runs, vcn);
      var i: nat := 0;
      while i < |runs|
        invariant i <= |runs|
        invariant forall k :: 0 <= k < i ==> !Holds(runs[k], vcn)
      {
        if vcn >= runs[i].startVcn && vcn <= runs[i].lastVcn {
          FirstPlaces(runs, i, vcn);
          FirstHolds(runs, i, vcn);
          return Some(i);
        }
        i := i + 1;
      }
      NoneHolds(runs, vcn);
      return None;
    }

    // The real clusters of a range of VCNs, as extents, on every range that does
    // not stall. The walk stops at the first VCN no run holds, and at the first
    // run that reaches past a limit; on an empty run with no last VCN, at once.
    method ExtentsBetween(first: nat, end: nat, maxLcn: nat) returns (extents: seq<Extent>, ghost stop: nat)
      requires Shaped(runs) && first <= U64_MAX && end <= U64_MAX && maxLcn <= U64_MAX
      requires !Stalls(runs, first, end, maxLcn)
      ensures first <= stop <= Max(first, end) && Walked(runs, stop, end, maxLcn).Stop?
      ensures ClustersOf(extents) == RealBetween(runs, first, stop) && Mapped(runs, first, stop)
      ensures AllBelow(extents, maxLcn)
      ensures StartsStuck(runs) ==> stop == first
      ensures stop < end ==> StartsStuck(runs) || PlaceOf(runs, stop).Nowhere? || Blocked(runs, stop, end, maxLcn)
    {
      hide PlaceOf, Ordered, Consecutive, ClustersOf, RealBetween, Mapped, AllBelow, HolderOf, In64, CountOf, Shaped;
      extents := [];
      NoneMapped(runs, first, maxLcn);
      if !StartsStuck(runs) { ShapedSays(runs); }
      var vcn := first;
      while vcn < end
        invariant first <= vcn <= Max(first, end) && (StartsStuck(runs) ==> vcn == first)
        invariant ClustersOf(extents) == RealBetween(runs, first, vcn) && Mapped(runs, first, vcn)
        invariant AllBelow(extents, maxLcn)
        decreases end - vcn
      {
        var found := Find(vcn);
        if found.None? {
          return extents, vcn;
        }
        var run := runs[found.value];
        ShapedStep(runs, run, vcn, end, maxLcn);
        var count := CountOf(run, vcn, end);
        if run.lcn.Some? {
          var skipped := vcn - run.startVcn;
          if run.lcn.value > maxLcn || skipped > maxLcn - run.lcn.value || count > maxLcn - run.lcn.value - skipped {
            assert StartsStuck(runs) || PartTooHigh(run, vcn, end, maxLcn);
            return extents, vcn;
          }
          ExtentAdds(extents, Extent(run.lcn.value + skipped, count), maxLcn);
          extents := extents + [Extent(run.lcn.value + skipped, count)];
        }
        RunPartAdds(runs, U64_MAX, found.value, first, vcn, count);
        StillMapped(runs, U64_MAX, found.value, first, vcn, vcn + count);
        vcn := vcn + count;
      }
      stop := vcn;
    }

    // The real clusters at the start of a unit, when holes alone follow them and
    // the unit is wholly mapped.
    method LeadingRealClusters(unitFirst: nat, unitClusters: nat) returns (leading: Option<nat>)
      requires Shaped(runs) && unitFirst <= U64_MAX && unitClusters <= U64_MAX
      ensures leading.Some? ==> UnitLeads(runs, unitFirst, unitClusters, leading.value)
      ensures leading.None? ==> forall k: nat :: !UnitLeads(runs, unitFirst, unitClusters, k)
    {
      hide In64, Shaped, UnitLeads, Counting;
      var unitEnd := In64(unitFirst + unitClusters);
      WrapsOnce(unitFirst + unitClusters);
      var count: nat := 0;
      var vcn, sawHole := unitFirst, false;
      CountingStarts(runs, unitFirst, unitClusters);
      var i: nat := 0;
      while i < |runs| && vcn < unitEnd
        invariant i <= |runs| && unitFirst <= vcn <= unitFirst + unitClusters
        invariant Counting(runs, unitFirst, unitClusters, i, vcn, count, sawHole)
        invariant unitEnd < unitFirst ==> vcn == unitFirst
      {
        var run := runs[i];
        if run.lastVcn >= vcn {
          if run.startVcn > vcn {
            GapRefused(runs, unitFirst, unitClusters, i, vcn, count, sawHole);
            return None;
          }
          var inRun, left := In64(run.lastVcn - vcn + 1), unitEnd - vcn;
          var take := if inRun < left then inRun else left;
          if run.lcn.Some? && sawHole {
            LateRefused(runs, unitFirst, unitClusters, i, vcn, count);
            return None;
          }
          CountingOn(runs, unitFirst, unitClusters, i, vcn, count, sawHole);
          if run.lcn.Some? {
            count := count + take;
          } else {
            sawHole := true;
          }
          vcn := vcn + take;
        } else {
          CountingPast(runs, unitFirst, unitClusters, i, vcn, count, sawHole);
        }
        i := i + 1;
      }
      if vcn != unitEnd {
        EndRefused(runs, unitFirst, unitClusters, i, vcn, count, sawHole);
        return None;
      }
      CountingEnds(runs, unitFirst, unitClusters, i, count, sawHole);
      return Some(count);
    }

    // The real stretches of the stream, in order and merged where they touch. A
    // run whose clusters wrap past 2^64 is left out.
    method RealRanges() returns (list: VcnRunList)
      requires Shaped(runs)
      ensures Apart(list.runs, EndBefore(runs, |runs|))
      ensures forall v: nat :: InStretches(list.runs, v) <==> RealAt(runs, |runs|, v)
      ensures list.wellFormed <==> AllWellFormed(runs, |runs|)
      ensures CoveredRight(runs, |runs|, list.coveredClusters)
    {
      hide Shaped, NonemptyInOrder, InStretches, WithReal, Apart, RealAt, CoveredRight, AllWellFormed;
      ShapedInOrder(runs);
      list := VcnRunList([], 0, true);
      NoStretches(runs);
      WellFormedNone(runs);
      var i: nat := 0;
      while i < |runs|
        invariant i <= |runs|
        invariant Apart(list.runs, EndBefore(runs, i))
        invariant forall v: nat :: InStretches(list.runs, v) <==> RealAt(runs, i, v)
        invariant list.wellFormed <==> AllWellFormed(runs, i)
        invariant CoveredRight(runs, i, list.coveredClusters)
      {
        var run := runs[i];
        RealNext(runs, i);
        CoveredNext(runs, i, list.coveredClusters);
        BeforeRuns(runs, i);
        WellFormedNext(runs, i);
        ApartWider(list.runs, EndBefore(runs, i), EndBefore(runs, i + 1));
        if run.clusters == 0 {
          list := list.(wellFormed := false);
        } else {
          list := list.(coveredClusters := run.lastVcn + 1);
          if run.lcn.Some? {
            if Overflows(run) {
              list := list.(wellFormed := false);
            } else {
              WithRealRight(list.runs, run, EndBefore(runs, i));
              list := list.(runs := WithReal(list.runs, run));
            }
          }
        }
        i := i + 1;
      }
    }
  }

  lemma StillMapped(runs: seq<Entry>, reach: nat, i: nat, first: nat, vcn: nat, next: nat)
    requires Ordered(runs, 0, reach) && i < |runs| && Holds(runs[i], vcn) && next <= runs[i].lastVcn + 1
    requires Mapped(runs, first, vcn)
    ensures Mapped(runs, first, next)
  {
    hide PlaceOf, Ordered;
    forall v: nat | vcn <= v < next ensures !PlaceOf(runs, v).Nowhere? {
      AnyPlaces(runs, 0, reach, i, v);
    }
  }

  // Where the runs before one end.
  function EndBefore(runs: seq<Entry>, i: nat): nat
    requires i <= |runs|
  {
    if i == 0 then 0 else runs[i - 1].startVcn + runs[i - 1].clusters
  }

  lemma NoStretches(runs: seq<Entry>)
    ensures Apart([], 0)
    ensures forall v: nat :: InStretches([], v) <==> RealAt(runs, 0, v)
  {
  }

  lemma RealNext(runs: seq<Entry>, i: nat)
    requires i < |runs|
    ensures forall v: nat :: RealAt(runs, i + 1, v) <==> RealAt(runs, i, v) || RealRun(runs[i], v)
  {
    forall v: nat ensures RealAt(runs, i + 1, v) <==> RealAt(runs, i, v) || RealRun(runs[i], v) {
      if RealAt(runs, i + 1, v) {
        var k :| 0 <= k < i + 1 && RealRun(runs[k], v);
        assert k < i || RealRun(runs[i], v);
      }
    }
  }

  lemma ApartWider(list: seq<VcnRun>, from: nat, to: nat)
    requires Apart(list, from) && from <= to
    ensures Apart(list, to)
  {
  }
}
