// Grouping the slots of $MFT into runs of one read each, and widening the runs to
// whole clusters.
module MftRuns {
  import opened Prelude

  const PER_MILLE: nat := 1000

  // A run serves the slots [begin, end) of the list it was planned from.
  datatype MftRun = MftRun(begin: nat, end: nat, firstSlot: nat, lastSlot: nat) {
    predicate Covers(x: nat) { firstSlot <= x <= lastSlot }
  }

  // A second, wider hole that a run may read across while it stays dense.
  datatype WideGap = WideGap(gapSlots: nat, minShare: nat)

  datatype RunLimits = RunLimits(maxGap: nat, maxRun: nat, wide: WideGap)

  predicate Increasing(slots: seq<nat>) {
    forall i, j :: 0 <= i < j < |slots| ==> slots[i] < slots[j]
  }

  lemma PartIncreasing(list: seq<nat>, n: nat)
    requires Increasing(list) && n <= |list|
    ensures Increasing(list[..n]) && Increasing(list[n..])
  {
  }

  // -------------------------------------------------------------------------
  // Grouping
  // -------------------------------------------------------------------------

  // The free slots between two, and how many slots lie from one to another.
  function Hole(a: int, b: int): int {
    b - a - 1
  }

  function Span(a: int, b: int): int {
    b - a + 1
  }

  // Whether enough of the slots spanned are wanted.
  predicate Dense(wanted: int, span: int, wide: WideGap) {
    wanted * PER_MILLE >= span * wide.minShare
  }

  // Whether a run that starts at begin may take the slot at index next.
  predicate MayTake(slots: seq<nat>, l: RunLimits, begin: nat, next: nat)
    requires begin < next < |slots|
  {
    var hole := Hole(slots[next - 1], slots[next]);
    var span := Span(slots[begin], slots[next]);
    && (hole <= l.maxGap || (hole <= l.wide.gapSlots && Dense(next + 1 - begin, span, l.wide)))
    && span <= Max(1, l.maxRun)
  }

  // [begin, end) may be one run.
  ghost predicate MayRun(slots: seq<nat>, l: RunLimits, begin: nat, end: nat) {
    begin < end <= |slots| && forall k :: begin < k < end ==> MayTake(slots, l, begin, k)
  }

  predicate RunIs(slots: seq<nat>, r: MftRun) {
    r.begin < r.end <= |slots| && r.firstSlot == slots[r.begin] && r.lastSlot == slots[r.end - 1]
  }

  // The runs serve the first n slots, in order, each slot in one of them.
  ghost predicate Serves(runs: seq<MftRun>, slots: seq<nat>, l: RunLimits, n: nat) {
    if runs == [] then n == 0
    else
      var last := runs[|runs| - 1];
      && last.end == n && RunIs(slots, last) && MayRun(slots, l, last.begin, last.end)
      && Serves(runs[..|runs| - 1], slots, l, last.begin)
  }

  // No run could have taken the first slot of the next one.
  ghost predicate Greedy(runs: seq<MftRun>, slots: seq<nat>, l: RunLimits) {
    forall k :: 0 <= k < |runs| - 1 ==> runs[k].begin < runs[k].end < |slots| && !MayTake(slots, l, runs[k].begin, runs[k].end)
  }

  // One more slot, taken by the last run when it may be.
  function TakeSlot(runs: seq<MftRun>, slots: seq<nat>, l: RunLimits, n: nat): seq<MftRun>
    requires n < |slots| && (runs != [] ==> runs[|runs| - 1].begin < n)
  {
    if runs != [] && MayTake(slots, l, runs[|runs| - 1].begin, n)
    then runs[..|runs| - 1] + [runs[|runs| - 1].(end := n + 1, lastSlot := slots[n])]
    else runs + [MftRun(n, n + 1, slots[n], slots[n])]
  }

  // The runs of the first n slots.
  function RunsTo(slots: seq<nat>, l: RunLimits, n: nat): (runs: seq<MftRun>)
    requires n <= |slots|
    ensures n > 0 <==> runs != []
    ensures runs != [] ==> runs[|runs| - 1].end == n && RunIs(slots, runs[|runs| - 1])
  {
    if n == 0 then [] else TakeSlot(RunsTo(slots, l, n - 1), slots, l, n - 1)
  }

  lemma ServesOneMore(runs: seq<MftRun>, slots: seq<nat>, l: RunLimits, n: nat)
    requires n < |slots| && Serves(runs, slots, l, n) && Greedy(runs, slots, l)
    requires runs != [] ==> runs[|runs| - 1].begin < n && RunIs(slots, runs[|runs| - 1])
    ensures Serves(TakeSlot(runs, slots, l, n), slots, l, n + 1) && Greedy(TakeSlot(runs, slots, l, n), slots, l)
  {
    hide MayTake;
    var taken := TakeSlot(runs, slots, l, n);
    if runs != [] && MayTake(slots, l, runs[|runs| - 1].begin, n) {
      assert taken[..|taken| - 1] == runs[..|runs| - 1];
    } else {
      assert taken[..|taken| - 1] == runs;
    }
  }

  // The runs partition the slots in order, within the bounds on holes and spans,
  // and none could have gone further.
  lemma {:induction false} RunsToServe(slots: seq<nat>, l: RunLimits, n: nat)
    requires n <= |slots|
    ensures Serves(RunsTo(slots, l, n), slots, l, n) && Greedy(RunsTo(slots, l, n), slots, l)
  {
    hide TakeSlot;
    if n > 0 {
      RunsToServe(slots, l, n - 1);
      ServesOneMore(RunsTo(slots, l, n - 1), slots, l, n - 1);
    }
  }

  // Inside a run the holes and the length keep to the limits.
  lemma {:induction false} ServedBounds(runs: seq<MftRun>, slots: seq<nat>, l: RunLimits, n: nat, k: nat, i: nat)
    requires Serves(runs, slots, l, n) && k < |runs| && runs[k].begin < i < runs[k].end
    ensures i < |slots| && slots[i] as int - slots[runs[k].begin] < Max(1, l.maxRun)
    ensures !BreaksHole(slots[i] as int - slots[i - 1] - 1, i as int + 1 - runs[k].begin, slots[i] as int - slots[runs[k].begin] + 1, l)
  {
    if k < |runs| - 1 {
      ServedBounds(runs[..|runs| - 1], slots, l, runs[|runs| - 1].begin, k, i);
    } else {
      assert MayTake(slots, l, runs[k].begin, i);
    }
  }

  // The slot after a run breaks one of them.
  lemma GreedyBounds(runs: seq<MftRun>, slots: seq<nat>, l: RunLimits, k: nat)
    requires Greedy(runs, slots, l) && k < |runs| - 1
    ensures var end, begin := runs[k].end, runs[k].begin;
      begin < end < |slots| && (slots[end] as int - slots[begin] >= Max(1, l.maxRun) || BreaksHole(slots[end] as int - slots[end - 1] - 1, end as int + 1 - begin, slots[end] as int - slots[begin] + 1, l))
  {
  }

  // The hole is too wide: for any run, or for one so sparse.
  predicate BreaksHole(hole: int, wanted: int, span: int, l: RunLimits) {
    hole > l.maxGap && (hole > l.wide.gapSlots || wanted * 1000 < span * l.wide.minShare)
  }

  // Groups sorted, distinct slots into runs of one read.
  method PlanMftRuns(slots: seq<nat>, l: RunLimits) returns (runs: seq<MftRun>)
    requires Increasing(slots)
    ensures runs == RunsTo(slots, l, |slots|)
    ensures Serves(runs, slots, l, |slots|)
  {
    hide Dense;
    hide Increasing;
    hide Serves;
    hide Greedy;
    hide Hole;
    hide Span;
    RunsToServe(slots, l, |slots|);
    var maxRun := Max(1, l.maxRun);
    runs := [];
    for index := 0 to |slots|
      invariant runs == RunsTo(slots, l, index)
    {
      var slot := slots[index];
      if runs != [] {
        var run := runs[|runs| - 1];
        var hole := Hole(run.lastSlot, slot);
        var span := Span(run.firstSlot, slot);
        var wanted := index + 1 - run.begin;
        // A narrow hole, or a wide one that the run is dense enough to cross,
        // and the run stays short.
        if (hole <= l.maxGap || (hole <= l.wide.gapSlots && Dense(wanted, span, l.wide))) && span <= maxRun {
          runs := runs[..|runs| - 1] + [run.(lastSlot := slot, end := index + 1)];
          continue;
        }
      }
      runs := runs + [MftRun(index, index + 1, slot, slot)];
    }
  }

  // A cut of the slots into runs, given by where each run ends.
  ghost predicate Cuts(ends: seq<nat>, slots: seq<nat>, l: RunLimits, n: nat) {
    if ends == [] then n == 0
    else
      var before := if |ends| == 1 then 0 else ends[|ends| - 2];
      ends[|ends| - 1] == n && MayRun(slots, l, before, n) && Cuts(ends[..|ends| - 1], slots, l, before)
  }

  // Without a wide gap, a part of what may be a run may be one.
  lemma PartMayRun(slots: seq<nat>, l: RunLimits, a: nat, d: nat, begin: nat, end: nat)
    requires Increasing(slots) && MayRun(slots, l, a, d) && a <= begin < end <= d && l.wide.gapSlots <= l.maxGap
    ensures MayRun(slots, l, begin, end)
  {
    forall k | begin < k < end ensures MayTake(slots, l, begin, k) {
      assert MayTake(slots, l, a, k);
      assert slots[begin] >= slots[a];
    }
  }

  // Within what may be one run, at most one more run starts.
  lemma {:induction false} OneMoreRun(slots: seq<nat>, l: RunLimits, from: nat, m: nat, k: nat)
    requires Increasing(slots) && MayRun(slots, l, from, m) && l.wide.gapSlots <= l.maxGap && from <= k <= m
    ensures |RunsTo(slots, l, k)| <= |RunsTo(slots, l, from)| + 1
    ensures |RunsTo(slots, l, k)| == |RunsTo(slots, l, from)| + 1 ==> LastBegin(RunsTo(slots, l, k)) >= from
    decreases k
  {
    hide MayTake;
    hide Increasing;
    if from < k {
      OneMoreRun(slots, l, from, m, k - 1);
      TakenWithin(RunsTo(slots, l, k - 1), slots, l, from, m, k - 1, |RunsTo(slots, l, from)|);
    }
  }

  function LastBegin(runs: seq<MftRun>): int {
    if runs == [] then 0 else runs[|runs| - 1].begin
  }

  lemma TakenWithin(runs: seq<MftRun>, slots: seq<nat>, l: RunLimits, from: nat, m: nat, n: nat, had: nat)
    requires Increasing(slots) && MayRun(slots, l, from, m) && l.wide.gapSlots <= l.maxGap && from <= n < m
    requires runs != [] ==> runs[|runs| - 1].begin < n
    requires |runs| <= had + 1 && (|runs| == had + 1 ==> LastBegin(runs) >= from)
    ensures |TakeSlot(runs, slots, l, n)| <= had + 1
    ensures |TakeSlot(runs, slots, l, n)| == had + 1 ==> LastBegin(TakeSlot(runs, slots, l, n)) >= from
  {
    if |runs| == had + 1 {
      PartMayRun(slots, l, from, m, runs[|runs| - 1].begin, n + 1);
    }
    hide MayTake;
  }

  // Without a wide gap, no cut of the slots into runs within the bounds has fewer
  // of them.
  lemma {:induction false} FewestRuns(slots: seq<nat>, l: RunLimits, ends: seq<nat>, n: nat)
    requires Increasing(slots) && l.wide.gapSlots <= l.maxGap
    requires n <= |slots| && Cuts(ends, slots, l, n)
    ensures |RunsTo(slots, l, n)| <= |ends|
  {
    if ends != [] {
      var before := if |ends| == 1 then 0 else ends[|ends| - 2];
      FewestRuns(slots, l, ends[..|ends| - 1], before);
      OneMoreRun(slots, l, before, n, n);
    }
  }

  // -------------------------------------------------------------------------
  // Widening
  // -------------------------------------------------------------------------

  // The first slot of the cluster of x, and its last one.
  function Aligned(x: nat, perCluster: nat): (a: nat)
    requires perCluster > 0
    ensures a <= x < a + perCluster
  {
    x - x % perCluster
  }

  lemma AlignedUnit(x: nat, perCluster: nat)
    requires perCluster > 0
    ensures Aligned(x, perCluster) == UnitStart(x, perCluster)
  {
  }

  // How clusters follow one another.
  lemma AlignedFacts(x: nat, y: nat, perCluster: nat)
    requires perCluster > 0
    ensures x <= y ==> Aligned(x, perCluster) <= Aligned(y, perCluster)
    ensures Aligned(x, perCluster) <= y < Aligned(x, perCluster) + perCluster ==> Aligned(y, perCluster) == Aligned(x, perCluster)
  {
    hide UnitStart;
    hide UnitOf;
    hide Aligned;
    AlignedUnit(x, perCluster);
    AlignedUnit(y, perCluster);
    UnitOrder(x, y, perCluster);
    if Aligned(x, perCluster) <= y < Aligned(x, perCluster) + perCluster { SameUnitStart(x, y, perCluster); }
  }

  function WidenedFirst(run: MftRun, perCluster: nat, floor: nat): nat
    requires perCluster > 0
  {
    Max(Aligned(run.firstSlot, perCluster), Min(run.firstSlot, floor))
  }

  function WidenedLast(run: MftRun, perCluster: nat): nat
    requires perCluster > 0
  {
    Aligned(run.lastSlot, perCluster) + perCluster - 1
  }

  // One more run, widened, joined to the last one when they touch or overlap.
  function Widen(widened: seq<MftRun>, run: MftRun, perCluster: nat, floor: nat): seq<MftRun>
    requires perCluster > 0
  {
    var wide := run.(firstSlot := WidenedFirst(run, perCluster, floor), lastSlot := WidenedLast(run, perCluster));
    if widened != [] && wide.firstSlot <= widened[|widened| - 1].lastSlot + 1
    then
      var previous := widened[|widened| - 1];
      widened[|widened| - 1 := previous.(lastSlot := Max(previous.lastSlot, wide.lastSlot), end := wide.end)]
    else widened + [wide]
  }

  function WidenAll(runs: seq<MftRun>, perCluster: nat, floor: nat): seq<MftRun>
    requires perCluster > 0
  {
    if runs == [] then [] else Widen(WidenAll(runs[..|runs| - 1], perCluster, floor), runs[|runs| - 1], perCluster, floor)
  }

  method WidenToClusters(runs: seq<MftRun>, perCluster: nat, floor: nat) returns (widened: seq<MftRun>)
    ensures widened == if perCluster < 2 then runs else WidenAll(runs, perCluster, floor)
  {
    if perCluster < 2 {
      return runs;
    }
    widened := [];
    for i := 0 to |runs|
      invariant widened == WidenAll(runs[..i], perCluster, floor)
    {
      assert runs[..i + 1][..i] == runs[..i];
      var run := runs[i];
      var aligned := Aligned(run.firstSlot, perCluster);
      run := run.(firstSlot := Max(aligned, Min(run.firstSlot, floor)), lastSlot := WidenedLast(run, perCluster));
      if widened != [] && run.firstSlot <= widened[|widened| - 1].lastSlot + 1 {
        var previous := widened[|widened| - 1];
        widened := widened[|widened| - 1 := previous.(lastSlot := Max(previous.lastSlot, run.lastSlot), end := run.end)];
        continue;
      }
      widened := widened + [run];
    }
    assert runs[..|runs|] == runs;
  }

  // Runs in order of their slots, that serve the first n indices.
  ghost predicate InOrder(runs: seq<MftRun>, n: nat) {
    if runs == [] then n == 0
    else
      var last := runs[|runs| - 1];
      && last.begin < last.end == n && last.firstSlot <= last.lastSlot
      && (|runs| > 1 ==> runs[|runs| - 2].lastSlot < last.firstSlot)
      && InOrder(runs[..|runs| - 1], last.begin)
  }

  // A slot lies in some run.
  ghost predicate Covered(runs: seq<MftRun>, x: nat) {
    exists k :: 0 <= k < |runs| && runs[k].Covers(x)
  }

  // A slot shares its cluster, above the floor, with a slot of a run.
  ghost predicate Reached(runs: seq<MftRun>, perCluster: nat, floor: nat, x: nat)
    requires perCluster > 0
  {
    exists k :: 0 <= k < |runs| && WidenedFirst(runs[k], perCluster, floor) <= x <= WidenedLast(runs[k], perCluster)
  }

  // A widened run: whole clusters, but for what lies below the floor.
  ghost predicate Whole(r: MftRun, perCluster: nat, floor: nat)
    requires perCluster > 0
  {
    && r.begin < r.end && r.firstSlot <= r.lastSlot
    && r.lastSlot == Aligned(r.lastSlot, perCluster) + perCluster - 1
    && (r.firstSlot == Aligned(r.firstSlot, perCluster) || r.firstSlot <= floor)
  }

  // The runs stay in order, do not touch, are whole, and serve the same indices.
  ghost predicate WidenedRight(widened: seq<MftRun>, perCluster: nat, floor: nat, n: nat)
    requires perCluster > 0
  {
    if widened == [] then n == 0
    else
      var last := widened[|widened| - 1];
      && last.end == n && Whole(last, perCluster, floor)
      && (|widened| > 1 ==> widened[|widened| - 2].lastSlot + 1 < last.firstSlot)
      && WidenedRight(widened[..|widened| - 1], perCluster, floor, last.begin)
  }

  // Each run holds the slots it serves.
  ghost predicate HoldsSlots(runs: seq<MftRun>, slots: seq<nat>) {
    forall k, i :: 0 <= k < |runs| && runs[k].begin <= i < runs[k].end && i < |slots| ==> runs[k].Covers(slots[i])
  }

  // Runs that serve sorted slots are in order and hold them.
  lemma {:induction false} ServedInOrder(runs: seq<MftRun>, slots: seq<nat>, l: RunLimits, n: nat)
    requires Serves(runs, slots, l, n) && Increasing(slots)
    ensures n <= |slots| && InOrder(runs, n) && HoldsSlots(runs, slots)
    ensures forall k :: 0 <= k < |runs| ==> runs[k].begin < |slots| && runs[k].firstSlot == slots[runs[k].begin]
  {
    hide MayRun;
    hide Increasing;
    hide HoldsSlots;
    if runs != [] {
      var last, front := runs[|runs| - 1], runs[..|runs| - 1];
      ServedInOrder(front, slots, l, last.begin);
      SlotsFollow(slots, last, front);
      assert runs == front + [last];
    } else {
      NothingHeld(runs, slots);
    }
  }

  lemma NothingHeld(runs: seq<MftRun>, slots: seq<nat>)
    requires |runs| == 0
    ensures HoldsSlots(runs, slots)
  {
  }

  lemma SlotsFollow(slots: seq<nat>, last: MftRun, front: seq<MftRun>)
    requires RunIs(slots, last) && Increasing(slots) && HoldsSlots(front, slots)
    requires front != [] ==> RunIs(slots, front[|front| - 1]) && front[|front| - 1].end == last.begin
    ensures last.firstSlot <= last.lastSlot && HoldsSlots(front + [last], slots)
    ensures front != [] ==> front[|front| - 1].lastSlot < last.firstSlot
  {
  }

  // The widened form of a run.
  lemma WidenedOne(run: MftRun, perCluster: nat, floor: nat)
    requires perCluster > 0 && run.begin < run.end && run.firstSlot <= run.lastSlot
    ensures var wide := run.(firstSlot := WidenedFirst(run, perCluster, floor), lastSlot := WidenedLast(run, perCluster));
      Whole(wide, perCluster, floor) && wide.firstSlot <= run.firstSlot && run.lastSlot <= wide.lastSlot
    ensures run.firstSlot >= floor ==> WidenedFirst(run, perCluster, floor) >= floor
  {
    hide Aligned;
    AlignedFacts(run.firstSlot, Aligned(run.firstSlot, perCluster), perCluster);
    AlignedFacts(run.lastSlot, WidenedLast(run, perCluster), perCluster);
  }

  // What the widening keeps of the runs before it.
  ghost predicate WidenedFrom(widened: seq<MftRun>, runs: seq<MftRun>, perCluster: nat, floor: nat)
    requires perCluster > 0
  {
    && (widened == [] <==> runs == [])
    && (runs != [] ==> widened[|widened| - 1].lastSlot == WidenedLast(runs[|runs| - 1], perCluster))
    && (runs != [] ==> widened[|widened| - 1].firstSlot <= WidenedFirst(runs[|runs| - 1], perCluster, floor))
    && (forall x :: Covered(widened, x) <==> Reached(runs, perCluster, floor, x))
  }

  // The widened runs are whole clusters above the floor, apart, in order; they
  // cover the clusters that the runs reach and no other.
  lemma {:induction false} WidenAllRight(runs: seq<MftRun>, perCluster: nat, floor: nat, n: nat)
    requires perCluster > 0 && InOrder(runs, n)
    ensures WidenedRight(WidenAll(runs, perCluster, floor), perCluster, floor, n)
    ensures WidenedFrom(WidenAll(runs, perCluster, floor), runs, perCluster, floor)
  {
    hide Widen;
    if runs != [] {
      var front, run := runs[..|runs| - 1], runs[|runs| - 1];
      WidenAllRight(front, perCluster, floor, run.begin);
      if front != [] {
        AlignedFacts(front[|front| - 1].lastSlot, run.lastSlot, perCluster);
        AlignedFacts(front[|front| - 1].firstSlot, run.firstSlot, perCluster);
      }
      hide Aligned;
      OneWidened(WidenAll(front, perCluster, floor), front, run, perCluster, floor);
      assert runs == front + [run];
    } else {
      NothingWidened(WidenAll(runs, perCluster, floor), runs, perCluster, floor);
    }
  }

  lemma NothingWidened(widened: seq<MftRun>, runs: seq<MftRun>, perCluster: nat, floor: nat)
    requires perCluster > 0 && |runs| == |widened| == 0
    ensures WidenedFrom(widened, runs, perCluster, floor)
  {
  }

  lemma OneWidened(widened: seq<MftRun>, front: seq<MftRun>, run: MftRun, perCluster: nat, floor: nat)
    requires perCluster > 0 && run.begin < run.end && run.firstSlot <= run.lastSlot
    requires WidenedRight(widened, perCluster, floor, run.begin) && WidenedFrom(widened, front, perCluster, floor)
    requires front != [] ==> WidenedLast(front[|front| - 1], perCluster) <= WidenedLast(run, perCluster)
    requires front != [] ==> WidenedFirst(front[|front| - 1], perCluster, floor) <= WidenedFirst(run, perCluster, floor)
    ensures WidenedRight(Widen(widened, run, perCluster, floor), perCluster, floor, run.end)
    ensures WidenedFrom(Widen(widened, run, perCluster, floor), front + [run], perCluster, floor)
  {
    hide Aligned;
    var wide := run.(firstSlot := WidenedFirst(run, perCluster, floor), lastSlot := WidenedLast(run, perCluster));
    WidenedOne(run, perCluster, floor);
    if widened != [] && wide.firstSlot <= widened[|widened| - 1].lastSlot + 1 {
      var n := |widened| - 1;
      var previous := widened[n];
      var joined := previous.(lastSlot := wide.lastSlot, end := wide.end);
      assert Widen(widened, run, perCluster, floor) == widened[n := joined];
      assert widened[n := joined][..n] == widened[..n];
      JoinedReach(widened, front, run, joined, perCluster, floor);
    } else {
      assert (widened + [wide])[..|widened|] == widened;
      AddedReach(widened, front, run, wide, perCluster, floor);
    }
  }

  lemma ReachedMore(front: seq<MftRun>, run: MftRun, perCluster: nat, floor: nat, x: nat)
    requires perCluster > 0
    ensures Reached(front + [run], perCluster, floor, x)
      <==> Reached(front, perCluster, floor, x) || WidenedFirst(run, perCluster, floor) <= x <= WidenedLast(run, perCluster)
  {
    hide WidenedFirst;
    hide WidenedLast;
    var all := front + [run];
    if Reached(front, perCluster, floor, x) {
      var k :| 0 <= k < |front| && WidenedFirst(front[k], perCluster, floor) <= x <= WidenedLast(front[k], perCluster);
      assert all[k] == front[k];
    }
    assert all[|front|] == run;
  }

  lemma AddedReach(widened: seq<MftRun>, front: seq<MftRun>, run: MftRun, wide: MftRun, perCluster: nat, floor: nat)
    requires perCluster > 0 && WidenedFrom(widened, front, perCluster, floor)
    requires wide == run.(firstSlot := WidenedFirst(run, perCluster, floor), lastSlot := WidenedLast(run, perCluster))
    ensures WidenedFrom(widened + [wide], front + [run], perCluster, floor)
  {
    hide WidenedFirst;
    hide WidenedLast;
    hide Reached;
    var all := widened + [wide];
    forall x ensures Covered(all, x) <==> Reached(front + [run], perCluster, floor, x) {
      ReachedMore(front, run, perCluster, floor, x);
      if Covered(widened, x) {
        var k :| 0 <= k < |widened| && widened[k].Covers(x);
        assert all[k].Covers(x);
      }
      if wide.Covers(x) { assert all[|widened|].Covers(x); }
    }
  }

  lemma JoinedReach(widened: seq<MftRun>, front: seq<MftRun>, run: MftRun, joined: MftRun, perCluster: nat, floor: nat)
    requires perCluster > 0 && WidenedFrom(widened, front, perCluster, floor) && widened != []
    requires var previous := widened[|widened| - 1];
      && previous.firstSlot <= previous.lastSlot <= WidenedLast(run, perCluster)
      && previous.firstSlot <= WidenedFirst(run, perCluster, floor) <= previous.lastSlot + 1
      && WidenedFirst(run, perCluster, floor) <= WidenedLast(run, perCluster)
      && joined == previous.(lastSlot := WidenedLast(run, perCluster), end := run.end)
    ensures WidenedFrom(widened[|widened| - 1 := joined], front + [run], perCluster, floor)
  {
    hide WidenedFirst;
    hide WidenedLast;
    hide Reached;
    var n := |widened| - 1;
    var all := widened[n := joined];
    forall x: nat ensures Covered(all, x) <==> Reached(front + [run], perCluster, floor, x) {
      ReachedMore(front, run, perCluster, floor, x);
      if Covered(widened, x) {
        var k :| 0 <= k < |widened| && widened[k].Covers(x);
        assert all[k].Covers(x);
      }
      if WidenedFirst(run, perCluster, floor) <= x <= WidenedLast(run, perCluster) { assert all[n].Covers(x); }
      if Covered(all, x) {
        var k :| 0 <= k < |all| && all[k].Covers(x);
        if k < n || x <= widened[n].lastSlot { assert widened[k].Covers(x); }
      }
    }
  }

  // Widening keeps every slot inside the run that serves it.
  lemma {:induction false} WidenHolds(runs: seq<MftRun>, perCluster: nat, floor: nat, n: nat, slots: seq<nat>)
    requires perCluster > 0 && InOrder(runs, n) && HoldsSlots(runs, slots) && n <= |slots|
    ensures HoldsSlots(WidenAll(runs, perCluster, floor), slots)
  {
    hide Widen;
    hide HoldsSlots;
    if runs != [] {
      var front, run := runs[..|runs| - 1], runs[|runs| - 1];
      HoldsFront(runs, slots);
      WidenHolds(front, perCluster, floor, run.begin, slots);
      WidenAllRight(front, perCluster, floor, run.begin);
      WidenedOne(run, perCluster, floor);
      if front != [] {
        AlignedFacts(front[|front| - 1].lastSlot, run.lastSlot, perCluster);
        AlignedFacts(front[|front| - 1].firstSlot, run.firstSlot, perCluster);
      }
      hide Aligned;
      OneHeld(WidenAll(front, perCluster, floor), run, perCluster, floor, slots);
    } else {
      NothingHeld(WidenAll(runs, perCluster, floor), slots);
    }
  }

  lemma HoldsFront(runs: seq<MftRun>, slots: seq<nat>)
    requires runs != [] && HoldsSlots(runs, slots)
    ensures HoldsSlots(runs[..|runs| - 1], slots)
    ensures forall i :: runs[|runs| - 1].begin <= i < runs[|runs| - 1].end && i < |slots| ==> runs[|runs| - 1].Covers(slots[i])
  {
  }

  lemma OneHeld(widened: seq<MftRun>, run: MftRun, perCluster: nat, floor: nat, slots: seq<nat>)
    requires perCluster > 0 && HoldsSlots(widened, slots)
    requires forall i :: run.begin <= i < run.end && i < |slots| ==> run.Covers(slots[i])
    requires WidenedFirst(run, perCluster, floor) <= run.firstSlot && run.lastSlot <= WidenedLast(run, perCluster)
    requires widened != [] ==> widened[|widened| - 1].end == run.begin
    requires widened != [] ==> widened[|widened| - 1].firstSlot <= WidenedFirst(run, perCluster, floor)
    ensures HoldsSlots(Widen(widened, run, perCluster, floor), slots)
  {
    hide WidenedFirst;
    hide WidenedLast;
  }

  // No run goes below the floor when no slot does.
  lemma {:induction false} NoneBelow(runs: seq<MftRun>, perCluster: nat, floor: nat)
    requires perCluster > 0 && forall k :: 0 <= k < |runs| ==> runs[k].firstSlot >= floor
    ensures forall k :: 0 <= k < |WidenAll(runs, perCluster, floor)| ==> WidenAll(runs, perCluster, floor)[k].firstSlot >= floor
  {
    if runs != [] {
      NoneBelow(runs[..|runs| - 1], perCluster, floor);
    }
  }
}
