// The standing lane: the probe runs of the held directories, the first few of
// which are kept announced to the reader, with a zone of runs worked out again
// only when it must be.
module ProbeLane {
  import opened Prelude
  import opened LanePlans

  // Most runs the plans hold in all.
  const MAX_PLANNED_RUNS: nat := 65536

  // How many unread runs, from the first, a run just read is looked for among.
  const RUN_MATCH_LOOKAHEAD: nat := 1024

  // A zone that may be topped up: that of the plans, the order and the directory
  // listed.
  ghost predicate ZoneRight(p: Plans, order: seq<nat>, zone: seq<RunRef>, chain: seq<nat>, k: nat, from: nat,
                            current: Option<nat>, stamp: nat, limit: nat) {
    && chain == Chain(p, order, current) && k <= |chain| && |zone| <= limit
    && ZoneCovers(p, zone, chain, k, from) && Stamped(p, zone, stamp)
  }

  // Every run on the lane was taken by the zone of this stamp.
  ghost predicate LaneStamped(p: Plans, stamp: nat) {
    forall r :: IsAnnounced(p, r) ==> At(p, r).stamp == stamp
  }

  // Plans that differ in states only: runs became done, or went on the lane from
  // the zone, or off it.
  ghost predicate Moved(p: Plans, q: Plans, stamp: nat) {
    && AllOnward(p, q)
    && (forall r :: Has(p, r) ==> Has(q, r) && At(q, r).stamp == At(p, r).stamp)
    && (forall r :: IsAnnounced(q, r) ==> IsAnnounced(p, r) || At(q, r).stamp == stamp)
  }

  lemma MovedTwice(p: Plans, q: Plans, r: Plans, stamp: nat)
    requires Moved(p, q, stamp) && Moved(q, r, stamp)
    ensures Moved(p, r, stamp)
  {
    OnwardTwice(p, q, r);
  }

  // The zone and the stamps hold while runs move.
  lemma ZoneHolds(p: Plans, q: Plans, order: seq<nat>, zone: seq<RunRef>, chain: seq<nat>, k: nat, from: nat,
                  current: Option<nat>, stamp: nat, limit: nat)
    requires Moved(p, q, stamp) && ZoneRight(p, order, zone, chain, k, from, current, stamp, limit)
    ensures ZoneRight(q, order, zone, chain, k, from, current, stamp, limit)
  {
    hide ZoneCovers;
    hide Chain;
    ZoneStays(p, q, zone, chain, k, from);
    ChainSame(p, q, order, current);
    OnwardLive(p, q);
    hide AllOnward;
  }

  lemma StampsHold(p: Plans, q: Plans, stamp: nat)
    requires Moved(p, q, stamp)
    ensures StampsUpTo(p, stamp) ==> StampsUpTo(q, stamp)
    ensures LaneStamped(p, stamp) ==> LaneStamped(q, stamp)
  {
    OnwardLive(p, q);
    hide AllOnward;
  }

  // A run moved: done, or off the lane, or on it from the zone.
  lemma RunMoves(p: Plans, r: RunRef, run: PlannedRun, stamp: nat)
    requires Has(p, r) && SameRun(At(p, r), run) && run.stamp == At(p, r).stamp
    requires At(p, r).state == Done ==> run.state == Done
    requires run.state == Announced ==> At(p, r).state == Announced || run.stamp == stamp
    ensures Moved(p, SetRun(p, r, run), stamp)
  {
    SetRunMeans(p, r, run);
    hide SetRun;
    hide AllOnward;
  }

  // What a run read for, and whether every record of it is held.
  predicate Holds(p: Plans, r: RunRef, held: nat -> bool)
    requires Has(p, r)
  {
    var run := At(p, r);
    forall i :: run.wantedBegin <= i < run.wantedEnd && i < |p[r.dir].wanted| ==> held(p[r.dir].wanted[i])
  }

  // They are the records of its part of the list.
  lemma HoldsMeans(p: Plans, r: RunRef, held: nat -> bool)
    requires Has(p, r) && At(p, r).wantedBegin <= At(p, r).wantedEnd <= |p[r.dir].wanted|
    ensures Holds(p, r, held) <==> forall x :: x in p[r.dir].wanted[At(p, r).wantedBegin..At(p, r).wantedEnd] ==> held(x)
  {
    var run, wanted := At(p, r), p[r.dir].wanted;
    var part := wanted[run.wantedBegin..run.wantedEnd];
    assert forall i :: run.wantedBegin <= i < run.wantedEnd ==> part[i - run.wantedBegin] == wanted[i];
  }

  // The run is on the lane or needs not be; or a run on the lane, which a
  // withdrawal could not tell from it, keeps it waiting.
  ghost predicate Served(p: Plans, r: RunRef, apart: nat) {
    Has(p, r) && (At(p, r).state != Waiting || exists o :: IsAnnounced(p, o) && Overlaps(At(p, o), At(p, r), apart))
  }

  // A plan as the planner makes it.
  ghost predicate NewPlan(plan: Plan) {
    && PlanRight(plan) && plan.cursor == 0
    && (forall i :: 0 <= i < |plan.runs| ==> plan.runs[i].state == Waiting && plan.runs[i].stamp == 0)
  }

  // The first run near the cursor that holds what was read.
  predicate HoldsRead(run: PlannedRun, firstSlot: nat, count: nat) {
    run.state != Done && run.firstSlot <= firstSlot && firstSlot + count <= run.firstSlot + run.count
  }

  // It is unread, and has every slot that was read.
  lemma HoldsReadMeans(run: PlannedRun, firstSlot: nat, count: nat)
    requires count > 0
    ensures HoldsRead(run, firstSlot, count) <==> run.state != Done && forall x: nat :: firstSlot <= x < firstSlot + count ==> InRun(run, x)
  {
    if forall x: nat :: firstSlot <= x < firstSlot + count ==> InRun(run, x) {
      assert InRun(run, firstSlot) && InRun(run, firstSlot + count - 1);
    }
  }

  predicate FirstRead(plan: Plan, firstSlot: nat, count: nat, index: nat) {
    && plan.cursor <= index < |plan.runs| && index < plan.cursor + RUN_MATCH_LOOKAHEAD
    && HoldsRead(plan.runs[index], firstSlot, count)
    && (forall i :: plan.cursor <= i < index ==> !HoldsRead(plan.runs[i], firstSlot, count))
  }

  // Only runs of the zone's stamp joined, and nothing else changed.
  ghost predicate Restamped(p: Plans, q: Plans, stamp: nat) {
    && SameStates(p, q)
    && (forall r :: Has(p, r) ==> Has(q, r) && (At(q, r).stamp == At(p, r).stamp || At(q, r).stamp == stamp))
  }

  lemma RestampedMore(p: Plans, q: Plans, r: RunRef, run: PlannedRun, stamp: nat)
    requires Restamped(p, q, stamp) && Has(q, r) && run == At(q, r).(stamp := stamp)
    ensures Restamped(p, SetRun(q, r, run), stamp)
  {
    SetRunMeans(q, r, run);
    StatesKept(q, SetRun(q, r, run), r, run);
    SameStatesTwice(p, q, SetRun(q, r, run));
    SameStatesLive(p, q);
    hide SetRun;
    hide SameStates;
  }

  // The runs that the first part of the order adds to a fresh walk.
  lemma {:induction false} RefsAppended(p: Plans, chain: seq<nat>, d: nat, k: nat, from: nat)
    requires k <= |chain| && (k == |chain| ==> from == 0)
    ensures Refs(p, chain + [d], k, from) == Refs(p, chain, k, from) + RunsFrom(d, 0, RunCount(p, d))
    decreases |chain| - k
  {
    var whole := chain + [d];
    if k < |chain| {
      RefsAppended(p, chain, d, k + 1, 0);
      assert whole[k] == chain[k];
      AssociateRefs(RunsFrom(chain[k], from, RunCount(p, chain[k])), Refs(p, chain, k + 1, 0), RunsFrom(d, 0, RunCount(p, d)));
    } else {
      assert Refs(p, whole, k, from) == RunsFrom(d, 0, RunCount(p, d)) + Refs(p, whole, k + 1, 0);
      assert Refs(p, whole, k + 1, 0) == [];
      assert Refs(p, chain, k, from) == [];
    }
  }

  lemma TakeTwice(a: seq<RunRef>, b: seq<RunRef>, n: nat)
    ensures Take(Take(a, n) + b, n) == Take(a + b, n)
  {
  }

  lemma {:induction false} ElementsAtMost(a: seq<RunRef>)
    ensures |set r | r in a| <= |a|
  {
    if a != [] {
      var front := a[..|a| - 1];
      ElementsAtMost(front);
      assert (set r | r in a) == (set r | r in front) + {a[|a| - 1]};
    }
  }

  lemma {:induction false} ElementsOfDistinct(a: seq<RunRef>)
    requires forall i, j :: 0 <= i < j < |a| ==> a[i] != a[j]
    ensures |set r | r in a| == |a|
  {
    if a != [] {
      var front := a[..|a| - 1];
      ElementsOfDistinct(front);
      assert (set r | r in a) == (set r | r in front) + {a[|a| - 1]};
    }
  }

  // Different runs, all in the zone, are no more than it holds.
  lemma NoMoreThan(a: seq<RunRef>, zone: seq<RunRef>)
    requires forall i, j :: 0 <= i < j < |a| ==> a[i] != a[j]
    requires forall i :: 0 <= i < |a| ==> a[i] in zone
    ensures |a| <= |zone|
  {
    ElementsOfDistinct(a);
    ElementsAtMost(zone);
    SmallerSet(set r | r in a, set r | r in zone);
  }

  // A plan's cursor past runs that are done.
  lemma CursorMoves(p: Plans, dir: nat, cursor: nat, announced: seq<RunRef>, standing: set<Range>, apart: nat, stamp: nat)
    requires dir in p && cursor <= |p[dir].runs| && PlansRight(p) && OnLane(p, announced, standing, apart) && AllAnnounced(p, announced)
    requires forall i :: 0 <= i < cursor ==> p[dir].runs[i].state == Done
    ensures var q := p[dir := p[dir].(cursor := cursor)];
      PlansRight(q) && OnLane(q, announced, standing, apart) && AllAnnounced(q, announced) && Moved(p, q, stamp)
  {
    var q := p[dir := p[dir].(cursor := cursor)];
    forall r ensures (Has(q, r) <==> Has(p, r)) && (Has(p, r) ==> At(q, r) == At(p, r)) {
    }
    assert forall r :: IsAnnounced(q, r) <==> IsAnnounced(p, r);
    SameRanges(p, q, standing);
    forall d | d in q ensures PlanRight(q[d]) {
      assert PlanRight(p[d]);
    }
  }

  // A plan added, none of its runs on the lane.
  lemma PlanJoins(p: Plans, dir: nat, plan: Plan, announced: seq<RunRef>, standing: set<Range>, apart: nat, stamp: nat)
    requires dir !in p && NewPlan(plan)
    requires PlansRight(p) && OnLane(p, announced, standing, apart) && AllAnnounced(p, announced) && StampsUpTo(p, stamp)
    ensures var q := p[dir := plan];
      PlansRight(q) && OnLane(q, announced, standing, apart) && AllAnnounced(q, announced) && StampsUpTo(q, stamp)
  {
    var q := p[dir := plan];
    forall r ensures IsAnnounced(q, r) <==> IsAnnounced(p, r) {
    }
    forall x ensures IsRangeOn(q, x) <==> IsRangeOn(p, x) {
      if IsRangeOn(q, x) {
        var o :| IsAnnounced(q, o) && RangeOf(At(q, o)) == x;
        assert IsAnnounced(p, o) && RangeOf(At(p, o)) == x;
      }
      if IsRangeOn(p, x) {
        var o :| IsAnnounced(p, o) && RangeOf(At(p, o)) == x;
        assert IsAnnounced(q, o) && RangeOf(At(q, o)) == x;
      }
    }
  }

  // A plan dropped, none of its runs on the lane.
  lemma PlanLeaves(p: Plans, dir: nat, announced: seq<RunRef>, standing: set<Range>, apart: nat, stamp: nat)
    requires dir in p && forall i :: 0 <= i < |p[dir].runs| ==> p[dir].runs[i].state == Done
    requires PlansRight(p) && OnLane(p, announced, standing, apart) && AllAnnounced(p, announced) && StampsUpTo(p, stamp)
    ensures var q := p - {dir};
      PlansRight(q) && OnLane(q, announced, standing, apart) && AllAnnounced(q, announced) && StampsUpTo(q, stamp)
  {
    var q := p - {dir};
    forall r ensures IsAnnounced(q, r) <==> IsAnnounced(p, r) {
    }
    forall x ensures IsRangeOn(q, x) <==> IsRangeOn(p, x) {
      if IsRangeOn(q, x) {
        var o :| IsAnnounced(q, o) && RangeOf(At(q, o)) == x;
        assert IsAnnounced(p, o) && RangeOf(At(p, o)) == x;
      }
      if IsRangeOn(p, x) {
        var o :| IsAnnounced(p, o) && RangeOf(At(p, o)) == x;
        assert IsAnnounced(q, o) && RangeOf(At(q, o)) == x;
      }
    }
  }

  // With no plan, nothing is on the lane.
  lemma NothingOn(standing: set<Range>, apart: nat, stamp: nat)
    requires standing == {}
    ensures PlansRight(map[]) && OnLane(map[], [], standing, apart) && StampsUpTo(map[], stamp) && TotalRuns(map[]) == 0
  {
  }

  // A zone worked out from the start may be filled.
  lemma ZoneStarts(p: Plans, order: seq<nat>, current: Option<nat>, stamp: nat, limit: nat)
    requires PlansRight(p) && StampsUpTo(p, stamp)
    ensures Filling(p, [], Chain(p, order, current), 0, 0, stamp + 1, limit)
  {
    ChainIn(p, order, current);
    NewZone(p, Chain(p, order, current));
  }

  // A zone without its runs that are done may be filled further.
  lemma ZoneGoesOn(p: Plans, order: seq<nat>, zone: seq<RunRef>, chain: seq<nat>, k: nat, from: nat, current: Option<nat>, stamp: nat, limit: nat)
    requires PlansRight(p) && StampsUpTo(p, stamp) && ZoneRight(p, order, zone, chain, k, from, current, stamp, limit)
    ensures Filling(p, Live(p, zone), chain, k, from, stamp, limit)
  {
    hide Live, Chain;
    hide PlanRight;
    hide Unread;
    hide Refs;
    ChainIn(p, order, current);
    LiveHolds(p, zone);
    LiveLater(p, p, zone);
    var live := Live(p, zone);
    forall i | 0 <= i < |live| ensures IsLive(p, live[i]) && At(p, live[i]).stamp == stamp {
      assert live[i] in live;
    }
  }

  // A run that was served is served while others join the lane or are done.
  lemma ServedStays(p: Plans, q: Plans, o: RunRef, r: RunRef, run: PlannedRun, apart: nat)
    requires Served(p, o, apart) && Has(p, r) && q == SetRun(p, r, run) && SameRun(At(p, r), run)
    requires At(p, r).state == Waiting && run.state != Waiting
    ensures Served(q, o, apart)
  {
    SetRunMeans(p, r, run);
    hide SetRun;
    if At(p, o).state == Waiting && o != r {
      var a :| IsAnnounced(p, a) && Overlaps(At(p, a), At(p, o), apart);
      assert IsAnnounced(q, a) && Overlaps(At(q, a), At(q, o), apart);
    }
  }

  // The order after the stack changed: its first directories, then those still
  // planned that sank below them.
  function NewOrder(p: Plans, order: seq<nat>, upcoming: seq<nat>, readAheadDirs: nat): seq<nat> {
    var top := upcoming[..Min(|upcoming|, readAheadDirs)];
    top + Sunk(p, order, top)
  }

  function Sunk(p: Plans, order: seq<nat>, top: seq<nat>): seq<nat> {
    if order == [] then []
    else
      var last := order[|order| - 1];
      Sunk(p, order[..|order| - 1], top) + if last in p && last !in top then [last] else []
  }

  // The new order is the first upcoming directories, then exactly those of the old
  // order that are planned and not among them, in the old order.
  ghost predicate OrderMeans(p: Plans, before: seq<nat>, upcoming: seq<nat>, readAheadDirs: nat, order: seq<nat>) {
    var n := Min(|upcoming|, readAheadDirs);
    && n <= |order| && (forall i :: 0 <= i < n ==> order[i] == upcoming[i])
    && (forall i :: n <= i < |order| ==> order[i] in before && order[i] in p && !Among(upcoming, n, order[i]))
    && (forall d :: d in before && d in p ==> d in order)
    && (forall i, j :: n <= i < j < |order| ==> ComesBefore(before, order[i], order[j]))
  }

  // A directory is among the first n.
  predicate Among(list: seq<nat>, n: nat, d: nat) {
    exists i :: 0 <= i < n && i < |list| && list[i] == d
  }

  lemma {:induction false} SunkMeans(p: Plans, order: seq<nat>, top: seq<nat>)
    ensures forall d :: d in Sunk(p, order, top) <==> d in order && d in p && d !in top
    ensures InOrderOf(Sunk(p, order, top), order)
  {
    if order != [] {
      var n := |order| - 1;
      var front, before, sunk := order[..n], Sunk(p, order[..n], top), Sunk(p, order, top);
      SunkMeans(p, front, top);
      forall a, b | 0 <= a < b < |sunk| ensures ComesBefore(order, sunk[a], sunk[b]) {
        if b < |before| {
          assert ComesBefore(front, before[a], before[b]);
          var m, k :| 0 <= m < k < |front| && front[m] == before[a] && front[k] == before[b];
          assert order[m] == sunk[a] && order[k] == sunk[b];
        } else {
          assert before[a] in before;
          var m :| 0 <= m < n && order[m] == sunk[a];
          assert order[n] == sunk[b];
        }
      }
    }
  }

  lemma NewOrderMeans(p: Plans, before: seq<nat>, upcoming: seq<nat>, readAheadDirs: nat)
    ensures OrderMeans(p, before, upcoming, readAheadDirs, NewOrder(p, before, upcoming, readAheadDirs))
  {
    hide Sunk, ComesBefore;
    var n := Min(|upcoming|, readAheadDirs);
    var top := upcoming[..n];
    var sunk, order := Sunk(p, before, top), NewOrder(p, before, upcoming, readAheadDirs);
    SunkMeans(p, before, top);
    forall i | n <= i < |order| ensures order[i] in before && order[i] in p && !Among(upcoming, n, order[i]) {
      assert order[i] == sunk[i - n] && sunk[i - n] in sunk;
      assert forall m :: 0 <= m < n ==> top[m] == upcoming[m];
    }
    forall d | d in before && d in p ensures d in order {
      assert d in top || d in sunk;
    }
    forall i, j | n <= i < j < |order| ensures ComesBefore(before, order[i], order[j]) {
      assert order[i] == sunk[i - n] && order[j] == sunk[j - n];
    }
  }

  // The ranges that the runs [from, end) of a directory have on the lane.
  function RangesIn(p: Plans, dir: nat, from: nat, end: nat): set<Range>
    requires dir in p && end <= |p[dir].runs|
  {
    set i | from <= i < end && p[dir].runs[i].state == Announced :: RangeOf(p[dir].runs[i])
  }

  lemma RangesMore(p: Plans, dir: nat, from: nat, i: nat)
    requires dir in p && from <= i < |p[dir].runs|
    ensures RangesIn(p, dir, from, i + 1)
      == RangesIn(p, dir, from, i) + if p[dir].runs[i].state == Announced then {RangeOf(p[dir].runs[i])} else {}
    ensures RangesIn(p, dir, from, from) == {}
  {
  }

  class ProbeLane {
    // How many runs are kept announced; how far apart; whether the lane is in use.
    const laneRuns: nat
    const apart: nat
    const on: bool
    // Whether a read takes the very bytes of a range (no block cache).
    const readsRanges: bool
    var plans: Plans
    var order: seq<nat>
    // The first runs not done, and where they stopped in the chain of plans.
    var zone: seq<RunRef>
    var chain: seq<nat>
    var chainPlan: nat
    var chainRun: nat
    var zoneClean: bool
    var zoneCurrent: Option<nat>
    var zoneStamp: nat
    // The runs on the lane, in the order they were announced.
    var announced: seq<RunRef>
    var plannedRuns: nat
    var attached: bool
    // The ranges that the reader's standing lane holds.
    ghost var standing: set<Range>

    // The plans, the lane and the counts, whatever the zone.
    ghost predicate LaneRight()
      reads this
    {
      && PlansRight(plans) && OnLane(plans, announced, standing, apart) && StampsUpTo(plans, zoneStamp)
    }

    ghost predicate Valid()
      reads this
    {
      && (on ==> laneRuns > 0) && (!on ==> plans == map[])
      && LaneRight() && AllAnnounced(plans, announced)
      && plannedRuns == TotalRuns(plans) <= MAX_PLANNED_RUNS
      && ZoneValid()
    }

    // The zone is right, or forgotten; and every run on the lane is in it.
    ghost predicate ZoneValid()
      reads this
    {
      if zoneClean
      then ZoneRight(plans, order, zone, chain, chainPlan, chainRun, zoneCurrent, zoneStamp, 2 * laneRuns) && LaneStamped(plans, zoneStamp)
      else zone == [] && chain == []
    }

    constructor (laneRuns: nat, apart: nat, readAheadBytes: nat, rawCallback: bool, readsRanges: bool)
      ensures Valid() && plans == map[] && announced == [] && standing == {} && !attached
      ensures on <==> laneRuns != 0 && readAheadBytes != 0 && !rawCallback
      ensures this.laneRuns == laneRuns && this.apart == apart && this.readsRanges == readsRanges
    {
      this.laneRuns, this.apart, this.readsRanges := laneRuns, apart, readsRanges;
      on := laneRuns != 0 && readAheadBytes != 0 && !rawCallback;
      plans, order, zone, chain, chainPlan, chainRun := map[], [], [], [], 0, 0;
      zoneClean, zoneCurrent, zoneStamp, announced, plannedRuns := false, None, 0, [], 0;
      attached, standing := false, {};
    }

    method ForgetZone()
      modifies this`zone, this`chain, this`zoneClean
      ensures !zoneClean && zone == [] && chain == []
    {
      zoneClean, zone, chain := false, [], [];
    }

    // Drops from announced the runs that are not on the lane any more.
    method ForgetUnannounced()
      requires LaneRight()
      modifies this`announced
      ensures LaneRight() && AllAnnounced(plans, announced)
    {
      ForgetKeeps(plans, announced, standing, apart);
      hide OnLane;
      var kept: seq<RunRef>, all := [], announced;
      for i := 0 to |all|
        invariant kept == StillAnnounced(plans, all[..i]) && plans == old(plans)
      {
        assert all[..i + 1][..i] == all[..i];
        if IsAnnounced(plans, all[i]) {
          kept := kept + [all[i]];
        }
      }
      assert all[..|all|] == all;
      announced := kept;
    }

    // Takes a run off the lane, into another state. The reader is told to withdraw
    // its range, unless a read took that range whole.
    method TakeOff(r: RunRef, state: RunState, whole: bool)
      requires LaneRight() && IsAnnounced(plans, r) && state != Announced
      modifies this`plans, this`standing
      ensures LaneRight() && plans == SetRun(old(plans), r, At(old(plans), r).(state := state))
      ensures standing == old(standing) - {RangeOf(At(old(plans), r))}
    {
      var run := At(plans, r).(state := state);
      TakenOff(plans, announced, standing, apart, r, run);
      SetRunMeans(plans, r, run);
      hide OnLane;
      hide SetRun;
      standing := if whole then standing - {RangeOf(run)} else Withdrawn(standing, run, apart);
      plans := SetRun(plans, r, run);
    }

    // Marks a run done. An announced run that the read did not take whole is
    // withdrawn.
    method RetireRun(r: RunRef, read: bool, firstSlot: nat, count: nat)
      requires LaneRight() && Has(plans, r)
      modifies this`plans, this`standing
      ensures LaneRight() && plans == SetRun(old(plans), r, At(old(plans), r).(state := Done))
      ensures standing == old(standing) - if old(At(plans, r).state) == Announced then {RangeOf(old(At(plans, r)))} else {}
    {
      hide OnLane;
      var run := At(plans, r);
      if run.state == Announced {
        TakeOff(r, Done, readsRanges && read && run.firstSlot == firstSlot && run.count == count);
      } else {
        LaneStays(plans, announced, standing, apart, r, run.(state := Done));
        SetRunMeans(plans, r, run.(state := Done));
        hide SetRun;
        plans := SetRun(plans, r, run.(state := Done));
      }
    }

    // Marks the runs [from, end) of a plan done.
    method RetireRuns(dir: nat, from: nat, end: nat, read: Option<nat>, firstSlot: nat, count: nat)
      requires LaneRight() && dir in plans && from <= end <= |plans[dir].runs|
      modifies this`plans, this`standing
      ensures LaneRight() && Moved(old(plans), plans, zoneStamp)
      ensures standing == old(standing) - RangesIn(old(plans), dir, from, end)
      ensures forall d :: d in plans ==> plans[d].cursor == old(plans)[d].cursor
      ensures forall i :: from <= i < end ==> At(plans, RunRef(dir, i)).state == Done
      ensures forall r :: Has(plans, r) && (r.dir != dir || r.index < from || end <= r.index) ==> At(plans, r) == At(old(plans), r)
    {
      hide OnLane;
      hide SetRun;
      hide AllOnward;
      hide PlansRight;
      NothingMoved(plans, zoneStamp);
      for i := from to end
        invariant LaneRight() && Moved(old(plans), plans, zoneStamp)
        invariant standing == old(standing) - RangesIn(old(plans), dir, from, i)
        invariant plans.Keys == old(plans).Keys && forall r :: Has(plans, r) <==> Has(old(plans), r)
        invariant forall d :: d in plans ==> plans[d].cursor == old(plans)[d].cursor
        invariant forall j :: from <= j < i ==> At(plans, RunRef(dir, j)).state == Done
        invariant forall r :: Has(plans, r) && (r.dir != dir || r.index < from || i <= r.index) ==> At(plans, r) == At(old(plans), r)
      {
        var r := RunRef(dir, i);
        assert Has(old(plans), r);
        ghost var before := plans;
        RangesMore(old(plans), dir, from, i);
        RetireRun(r, read == Some(i), firstSlot, count);
        ghost var run := At(before, r).(state := Done);
        SetRunMeans(before, r, run);
        RunMoves(before, r, run, zoneStamp);
        MovedTwice(old(plans), before, plans, zoneStamp);
        SameKeys(before, plans);
      }
    }

    // Takes the runs after the zone in the chain, up to the limit.
    method TopUpZone()
      requires LaneRight() && AllAnnounced(plans, announced)
      requires Filling(plans, zone, chain, chainPlan, chainRun, zoneStamp, 2 * laneRuns)
      modifies this`zone, this`chainPlan, this`chainRun, this`plans
      ensures LaneRight() && AllAnnounced(plans, announced) && Restamped(old(plans), plans, zoneStamp)
      ensures Filling(plans, zone, chain, chainPlan, chainRun, zoneStamp, 2 * laneRuns)
      ensures |zone| == 2 * laneRuns || chainPlan >= |chain|
    {
      hide OnLane;
      hide SetRun;
      hide AllAnnounced;
      hide Filling;
      hide Restamped;
      FillingMeans(plans, zone, chain, chainPlan, chainRun, zoneStamp, 2 * laneRuns);
      RestampedNone(plans, zoneStamp);
      while |zone| < 2 * laneRuns && chainPlan < |chain|
        invariant LaneRight() && AllAnnounced(plans, announced) && Restamped(old(plans), plans, zoneStamp)
        invariant Filling(plans, zone, chain, chainPlan, chainRun, zoneStamp, 2 * laneRuns)
        invariant |zone| <= 2 * laneRuns && chainPlan <= |chain|
        decreases |chain| - chainPlan, if chainPlan < |chain| then Max(0, RunCount(plans, chain[chainPlan]) - chainRun) else 0
      {
        PassCursor(plans, zone, chain, chainPlan, chainRun, zoneStamp, 2 * laneRuns);
        var dir := chain[chainPlan];
        // The runs before the cursor are done, and so are those it jumped over.
        chainRun := Max(chainRun, plans[dir].cursor);
        if chainRun >= |plans[dir].runs| {
          PassPlan(plans, zone, chain, chainPlan, chainRun, zoneStamp, 2 * laneRuns);
          chainPlan, chainRun := chainPlan + 1, 0;
          continue;
        }
        var r := RunRef(dir, chainRun);
        if At(plans, r).state != Done {
          var run := At(plans, r).(stamp := zoneStamp);
          StampRun(plans, zone, chain, chainPlan, chainRun, zoneStamp, 2 * laneRuns, run);
          LaneStays(plans, announced, standing, apart, r, run);
          RestampedMore(old(plans), plans, r, run, zoneStamp);
          FillingMeans(SetRun(plans, r, run), zone + [r], chain, chainPlan, chainRun + 1, zoneStamp, 2 * laneRuns);
          plans := SetRun(plans, r, run);
          zone := zone + [r];
        } else {
          PassRun(plans, zone, chain, chainPlan, chainRun, zoneStamp, 2 * laneRuns);
        }
        chainRun := chainRun + 1;
      }
    }

    // The plans the zone is taken from, for the directory being listed.
    method ChainOf(current: Option<nat>) returns (c: seq<nat>)
      ensures c == Chain(plans, order, current) && ChainMeans(plans, order, current, c)
    {
      hide ChainMeans, Planned;
      ChainIsMeant(plans, order, current);
      NonePlanned(plans, order, current);
      c := if current.Some? && current.value in plans then [current.value] else [];
      ghost var head := c;
      for i := 0 to |order|
        invariant c == head + Planned(plans, order[..i], current)
      {
        PlannedMore(plans, order, i, current);
        if Some(order[i]) != current && order[i] in plans {
          c := c + [order[i]];
        }
      }
      assert order[..|order|] == order;
    }

    // Works the zone out from the start, for the directory being listed.
    method RebuildZone(current: Option<nat>)
      requires LaneRight() && AllAnnounced(plans, announced)
      modifies this`zone, this`chain, this`chainPlan, this`chainRun, this`zoneClean, this`zoneCurrent, this`zoneStamp, this`plans
      ensures LaneRight() && AllAnnounced(plans, announced) && Restamped(old(plans), plans, zoneStamp)
      ensures zoneClean && zoneCurrent == current && chain == Chain(old(plans), order, current)
      ensures ChainMeans(old(plans), order, current, chain)
      ensures Filling(plans, zone, chain, chainPlan, chainRun, zoneStamp, 2 * laneRuns)
      ensures |zone| == 2 * laneRuns || chainPlan >= |chain|
    {
      hide ChainMeans;
      hide OnLane;
      hide AllAnnounced;
      hide Filling;
      hide Restamped;
      ZoneStarts(plans, order, current, zoneStamp, 2 * laneRuns);
      ForgetZone();
      zoneStamp := zoneStamp + 1;
      chainPlan, chainRun := 0, 0;
      chain := ChainOf(current);
      FillingMeans(plans, zone, chain, chainPlan, chainRun, zoneStamp, 2 * laneRuns);
      zoneCurrent, zoneClean := current, true;
      TopUpZone();
    }

    // Drops from the zone the runs that are done.
    method DropDone()
      modifies this`zone
      ensures zone == Live(plans, old(zone))
    {
      var kept: seq<RunRef>, all := [], zone;
      for i := 0 to |all|
        invariant kept == Live(plans, all[..i])
      {
        assert all[..i + 1][..i] == all[..i];
        if IsLive(plans, all[i]) {
          kept := kept + [all[i]];
        }
      }
      assert all[..|all|] == all;
      zone := kept;
    }

    // Adds the unread runs of a directory to a fresh walk of the plans.
    method Walk(first: seq<RunRef>, dir: nat, limit: nat) returns (more: seq<RunRef>)
      requires PlansRight(plans) && |first| <= limit
      ensures |more| <= limit && more == Take(first + Live(plans, RunsFrom(dir, 0, RunCount(plans, dir))), limit)
    {
      hide Live;
      hide RunsFrom;
      more := first;
      if dir !in plans {
        NothingFrom(plans, dir, 0);
        assert first + [] == first;
        return;
      }
      var n := |plans[dir].runs|;
      assert PlanRight(plans[dir]);
      ghost var whole := first + Live(plans, RunsFrom(dir, 0, n));
      NoneLive(plans, dir, 0, plans[dir].cursor, n);
      var i := plans[dir].cursor;
      while i < n && |more| < limit
        invariant plans[dir].cursor <= i <= n && |more| <= limit
        invariant more + Live(plans, RunsFrom(dir, i, n)) == whole
      {
        var r := RunRef(dir, i);
        NextLive(plans, more, r, n, whole);
        if At(plans, r).state != Done {
          more := more + [r];
        }
        i := i + 1;
      }
      if i == n {
        NothingFrom(plans, dir, n);
        assert more + [] == more;
      }
      assert whole[..|more|] == more;
    }

    // The walk of one more directory, if it has a plan.
    method WalkNext(first: seq<RunRef>, ghost walked: seq<nat>, dir: nat, limit: nat) returns (more: seq<RunRef>, ghost now: seq<nat>)
      requires PlansRight(plans) && first == Take(Unread(plans, walked), limit)
      ensures now == walked + if dir in plans then [dir] else []
      ensures more == Take(Unread(plans, now), limit)
    {
      hide Live;
      hide Unread;
      hide PlansRight;
      more := Walk(first, dir, limit);
      if dir in plans {
        WalkedMore(plans, walked, dir, limit);
        now := walked + [dir];
      } else {
        NothingFrom(plans, dir, 0);
        TakeAgain(Unread(plans, walked), limit);
        now := walked;
      }
    }

    // Whether the zone is what a fresh walk of the plans gives, and, without a
    // rebuild, no run of the lane left it.
    method VerifyZone(current: Option<nat>, rebuilt: bool) returns (same: bool)
      requires PlansRight(plans) && (forall i :: 0 <= i < |announced| ==> Has(plans, announced[i]))
      ensures same == (zone == Take(Unread(plans, Chain(plans, order, current)), 2 * laneRuns) && (rebuilt || InZoneNow()))
      ensures same ==> ZoneMeans(plans, order, current, zone, 2 * laneRuns)
    {
      hide ZoneMeans, Planned;
      NonePlanned(plans, order, current);
      hide Live;
      hide Unread;
      hide PlansRight;
      hide Take;
      var limit := 2 * laneRuns;
      var first: seq<RunRef> := [];
      ghost var walked: seq<nat> := [];
      NothingWalked(plans, limit);
      if current.Some? {
        first, walked := WalkNext(first, walked, current.value, limit);
      }
      ghost var head := walked;
      for i := 0 to |order|
        invariant walked == head + Planned(plans, order[..i], current)
        invariant first == Take(Unread(plans, walked), limit)
      {
        PlannedMore(plans, order, i, current);
        if Some(order[i]) != current {
          first, walked := WalkNext(first, walked, order[i], limit);
        }
      }
      assert order[..|order|] == order;
      assert walked == Chain(plans, order, current);
      same := first == zone;
      for i := 0 to |announced|
        invariant same == (first == zone && (rebuilt || forall j :: 0 <= j < i ==> At(plans, announced[j]).stamp == zoneStamp))
      {
        same := same && (rebuilt || At(plans, announced[i]).stamp == zoneStamp);
      }
      FirstAreZone(plans, order, current, limit);
    }

    // Every run on the lane has the stamp of the zone.
    predicate InZoneNow()
      requires forall i :: 0 <= i < |announced| ==> Has(plans, announced[i])
      reads this
    {
      forall i :: 0 <= i < |announced| ==> At(plans, announced[i]).stamp == zoneStamp
    }

    // Withdraws the announced runs that the last rebuild left out of the zone.
    method WithdrawLeftOut()
      requires LaneRight() && AllAnnounced(plans, announced)
      modifies this`plans, this`standing, this`announced
      ensures LaneRight() && AllAnnounced(plans, announced)
      ensures Moved(old(plans), plans, zoneStamp) && LaneStamped(plans, zoneStamp)
      ensures forall d :: d in plans ==> plans[d].cursor == old(plans)[d].cursor
      ensures forall r :: IsLive(plans, r) <==> IsLive(old(plans), r)
    {
      hide OnLane;
      hide SetRun;
      hide AllOnward;
      hide PlansRight;
      var all := announced;
      ListedHas(plans, announced, standing, apart);
      NothingMoved(plans, zoneStamp);
      for i := 0 to |all|
        invariant LaneRight() && announced == all && Moved(old(plans), plans, zoneStamp)
        invariant plans.Keys == old(plans).Keys && forall r :: Has(plans, r) <==> Has(old(plans), r)
        invariant forall d :: d in plans ==> plans[d].cursor == old(plans)[d].cursor
        invariant forall r :: IsLive(plans, r) <==> IsLive(old(plans), r)
        invariant forall j :: i <= j < |all| ==> IsAnnounced(plans, all[j])
        invariant forall j :: 0 <= j < i ==> IsAnnounced(plans, all[j]) ==> At(plans, all[j]).stamp == zoneStamp
      {
        var r := all[i];
        if At(plans, r).stamp != zoneStamp {
          ghost var before := plans;
          ghost var run := At(plans, r).(state := Waiting);
          TakeOff(r, Waiting, false);
          SetRunMeans(before, r, run);
          RunMoves(before, r, run, zoneStamp);
          MovedTwice(old(plans), before, plans, zoneStamp);
          SameKeys(before, plans);
        }
      }
      AllListed(plans, announced, standing, apart);
      assert LaneStamped(plans, zoneStamp);
      ForgetUnannounced();
    }

    // The run at one place of the zone goes on the lane, unless its records are
    // held, or a run on the lane overlaps it.
    method AnnounceRun(r: RunRef, held: nat -> bool, keeps: bool)
      requires LaneRight() && AllAnnounced(plans, announced)
      requires Has(plans, r) && At(plans, r).stamp == zoneStamp
      modifies this`plans, this`standing, this`announced
      ensures LaneRight() && AllAnnounced(plans, announced)
      ensures Moved(old(plans), plans, zoneStamp) && Served(plans, r, apart)
      ensures forall o :: Served(old(plans), o, apart) ==> Served(plans, o, apart)
      // A run whose records are all held is not read, and any other is unread.
      ensures At(plans, r).state == Done <==> At(old(plans), r).state == Done || (At(old(plans), r).state == Waiting && keeps && Holds(old(plans), r, held))
      ensures forall o :: Has(plans, o) && o != r ==> At(plans, o) == At(old(plans), o)
    {
      hide OnLane;
      hide SetRun;
      hide AllOnward;
      hide PlansRight;
      NothingMoved(plans, zoneStamp);
      var run := At(plans, r);
      if run.state != Waiting {
        return;
      }
      if keeps && Holds(plans, r, held) {
        Serves(plans, r, run.(state := Done), apart);
        LaneStays(plans, announced, standing, apart, r, run.(state := Done));
        SetRunMeans(plans, r, run.(state := Done));
        RunMoves(plans, r, run.(state := Done), zoneStamp);
        plans := SetRun(plans, r, run.(state := Done));
        return;
      }
      if exists i :: 0 <= i < |announced| && Overlaps(At(plans, announced[i]), run, apart) {
        return;
      }
      Serves(plans, r, run.(state := Announced), apart);
      PutOn(plans, announced, standing, apart, r, run.(state := Announced));
      SetRunMeans(plans, r, run.(state := Announced));
      RunMoves(plans, r, run.(state := Announced), zoneStamp);
      plans, announced := SetRun(plans, r, run.(state := Announced)), announced + [r];
      standing := standing + {RangeOf(run)};
    }

    // Announces the first runs of the zone that wait.
    method AnnounceZone(held: nat -> bool, keeps: bool)
      requires LaneRight() && AllAnnounced(plans, announced) && Stamped(plans, zone, zoneStamp)
      modifies this`plans, this`standing, this`announced
      ensures LaneRight() && AllAnnounced(plans, announced) && Moved(old(plans), plans, zoneStamp)
      ensures forall i :: 0 <= i < |zone| && i < laneRuns ==> Served(plans, zone[i], apart)
      ensures forall o :: Has(plans, o) && o !in zone ==> At(plans, o) == At(old(plans), o)
    {
      hide OnLane;
      hide AllOnward;
      hide PlansRight;
      hide AllAnnounced;
      hide Served;
      NothingMoved(plans, zoneStamp);
      var target := Min(|zone|, laneRuns);
      for i := 0 to target
        invariant LaneRight() && AllAnnounced(plans, announced) && Moved(old(plans), plans, zoneStamp)
        invariant forall j :: 0 <= j < |zone| ==> Has(plans, zone[j]) && At(plans, zone[j]).stamp == zoneStamp
        invariant forall j :: 0 <= j < i ==> Served(plans, zone[j], apart)
        invariant forall o :: Has(plans, o) && o !in zone ==> Has(old(plans), o) && At(plans, o) == At(old(plans), o)
      {
        ghost var before := plans;
        AnnounceRun(zone[i], held, keeps);
        MovedTwice(old(plans), before, plans, zoneStamp);
        MovedHas(before, plans, zoneStamp);
      }
    }

    // The zone of the directory being listed: worked out again when the plans, the
    // order or that directory changed, and otherwise carried on.
    method WorkOutZone(current: Option<nat>) returns (rebuilt: bool)
      requires LaneRight() && AllAnnounced(plans, announced) && ZoneValid()
      modifies this`plans, this`zone, this`chain, this`chainPlan, this`chainRun, this`zoneClean, this`zoneCurrent, this`zoneStamp
      ensures LaneRight() && AllAnnounced(plans, announced) && Restamped(old(plans), plans, zoneStamp)
      ensures zoneClean && zoneCurrent == current && chain == Chain(old(plans), order, current)
      ensures Filling(plans, zone, chain, chainPlan, chainRun, zoneStamp, 2 * laneRuns)
      ensures |zone| == 2 * laneRuns || chainPlan >= |chain|
      ensures !rebuilt ==> LaneStamped(plans, zoneStamp)
    {
      hide OnLane;
      hide AllAnnounced;
      hide Filling;
      hide Restamped;
      hide ZoneRight;
      hide LaneStamped;
      hide Chain;
      rebuilt := !zoneClean || current != zoneCurrent;
      if rebuilt {
        RebuildZone(current);
      } else {
        ZoneGoesOn(plans, order, zone, chain, chainPlan, chainRun, current, zoneStamp, 2 * laneRuns);
        RightChain(plans, order, zone, chain, chainPlan, chainRun, current, zoneStamp, 2 * laneRuns);
        DropDone();
        TopUpZone();
        RestampedLane(old(plans), plans, zoneStamp);
      }
    }

    // What a refill leaves: the zone is the first unread runs of the plans it
    // started with; what is on the lane is in the zone; and the first runs of the
    // zone are on the lane, or done, or kept waiting by one that overlaps them.
    ghost predicate Refilled(before: Plans, current: Option<nat>)
      reads this
    {
      && zoneClean && zoneCurrent == current
      && zone == Take(Unread(before, Chain(before, order, current)), 2 * laneRuns)
      && ZoneMeans(before, order, current, zone, 2 * laneRuns)
      && |announced| <= 2 * laneRuns && (forall i :: 0 <= i < |announced| ==> announced[i] in zone)
      && (forall i :: 0 <= i < |zone| && i < laneRuns ==> Served(plans, zone[i], apart))
    }

    // Makes the lane hold the first runs not read yet. reference is the directory
    // that the listing is at.
    method Refill(reference: Option<nat>, held: nat -> bool, keeps: bool)
      requires Valid()
      modifies this`plans, this`zone, this`chain, this`chainPlan, this`chainRun, this`zoneClean, this`zoneCurrent, this`zoneStamp
      modifies this`announced, this`standing
      ensures Valid() && AllOnward(old(plans), plans)
      ensures on && old(plans) != map[] ==> Refilled(old(plans), if attached then reference else None)
    {
      hide Chain;
      hide Take;
      hide ZoneMeans;
      hide OnLane;
      hide AllOnward;
      hide PlansRight;
      hide AllAnnounced;
      hide Filling;
      hide Restamped;
      hide ZoneRight;
      hide Stamped;
      hide StampsUpTo;
      hide LaneStamped;
      hide Unread;
      hide Moved;
      hide Served;
      if !on || plans == map[] {
        NothingOnward(plans);
        return;
      }
      var current := if attached then reference else None;
      FirstAreZone(plans, order, current, 2 * laneRuns);
      var rebuilt := WorkOutZone(current);
      ghost var filled := plans;
      ZoneIsFresh(old(plans), plans, order, zone, chain, chainPlan, chainRun, current, zoneStamp, 2 * laneRuns);
      // The zone never differs from a fresh one.
      AnnouncedStamped(plans, announced, zoneStamp);
      var same := VerifyZone(current, rebuilt);
      assert same;
      Settle(rebuilt, held, keeps);
      ZoneHolds(filled, plans, order, zone, chain, chainPlan, chainRun, current, zoneStamp, 2 * laneRuns);
      LaneInZone(plans, announced, standing, apart, zone, zoneStamp);
      RefillOnward(old(plans), filled, plans, zoneStamp);
    }

    // Withdraws what a rebuild left out of the zone, and announces its first runs.
    method Settle(rebuilt: bool, held: nat -> bool, keeps: bool)
      requires LaneRight() && AllAnnounced(plans, announced) && Stamped(plans, zone, zoneStamp)
      requires rebuilt || LaneStamped(plans, zoneStamp)
      modifies this`plans, this`standing, this`announced
      ensures LaneRight() && AllAnnounced(plans, announced) && Moved(old(plans), plans, zoneStamp)
      ensures Stamped(plans, zone, zoneStamp) && LaneStamped(plans, zoneStamp)
      ensures forall i :: 0 <= i < |zone| && i < laneRuns ==> Served(plans, zone[i], apart)
    {
      hide OnLane;
      hide PlansRight;
      hide AllAnnounced;
      hide Stamped;
      hide StampsUpTo;
      hide LaneStamped;
      hide Moved;
      hide Served;
      // The runs that left the zone are withdrawn, and may come back.
      if rebuilt {
        WithdrawLeftOut();
      } else {
        NothingMoved(plans, zoneStamp);
      }
      ghost var before := plans;
      StampedMoves(old(plans), before, zone, zoneStamp);
      AnnounceZone(held, keeps);
      MovedTwice(old(plans), before, plans, zoneStamp);
      StampsHold(before, plans, zoneStamp);
      StampedMoves(old(plans), plans, zone, zoneStamp);
    }

    // Follows the directory being listed.
    method Attach()
      requires Valid()
      modifies this`attached, this`zone, this`chain, this`zoneClean
      ensures Valid() && attached && !zoneClean
    {
      attached := true;
      ForgetZone();
    }

    // Withdraws every announced run, forgets every plan and lets go of the
    // listing.
    method Detach()
      requires Valid()
      modifies this
      ensures Valid() && plans == map[] && announced == [] && standing == {} && !attached
    {
      hide AllOnward;
      ListedHas(plans, announced, standing, apart);
      for i := 0 to |announced|
        invariant plans == old(plans) && announced == old(announced) && order == old(order) && zoneStamp == old(zoneStamp)
        invariant forall x :: x in standing ==> x in old(standing) && forall j :: 0 <= j < i ==> !RangesOverlap(x, RangeOf(At(plans, announced[j])), apart)
      {
        standing := Withdrawn(standing, At(plans, announced[i]), apart);
      }
      AllWithdrawn(plans, announced, old(standing), apart, standing);
      announced := [];
      ForgetZone();
      plans, plannedRuns := map[], 0;
      attached := false;
      NothingOn(standing, apart, zoneStamp);
    }

    // Plans the runs of a directory, unless they do not fit: plan is what the
    // planner gives, if anything.
    method PlanRunsOf(directory: nat, plan: Option<Plan>)
      requires Valid()
      requires plan.Some? ==> NewPlan(plan.value)
      modifies this`plans, this`plannedRuns, this`zone, this`chain, this`zoneClean
      ensures Valid()
      ensures plans ==
        if on && directory !in old(plans) && plan.Some? && plan.value.runs != [] && old(plannedRuns) + |plan.value.runs| <= MAX_PLANNED_RUNS
        then old(plans)[directory := plan.value] else old(plans)
    {
      hide OnLane;
      hide PlansRight;
      hide AllAnnounced;
      hide ZoneRight;
      hide PlanRight;
      if !on || directory in plans || plan.None? {
        return;
      }
      if plan.value.runs == [] || plannedRuns + |plan.value.runs| > MAX_PLANNED_RUNS {
        return;
      }
      PlanJoins(plans, directory, plan.value, announced, standing, apart, zoneStamp);
      plannedRuns := plannedRuns + |plan.value.runs|;
      plans := plans[directory := plan.value];
      TotalWithout(plans, directory);
      assert plans - {directory} == old(plans);
      ForgetZone();
    }

    // Withdraws the unread runs of a directory and forgets its plan.
    method Release(directory: nat)
      requires Valid()
      modifies this`plans, this`plannedRuns, this`zone, this`chain, this`zoneClean, this`announced, this`standing
      ensures Valid() && plans.Keys == old(plans).Keys - {directory}
      ensures forall d :: d in plans ==> plans[d] == old(plans)[d]
      ensures directory !in old(plans) ==> plans == old(plans)
      // Only its own ranges leave the reader.
      ensures standing == old(standing)
        - if directory in old(plans) then RangesIn(old(plans), directory, 0, |old(plans)[directory].runs|) else {}
    {
      hide RangesIn;
      hide TotalRuns;
      hide StampsUpTo;
      hide OnLane;
      hide PlansRight;
      hide AllAnnounced;
      hide ZoneRight;
      hide PlanRight;
      if directory !in plans {
        return;
      }
      RetireRuns(directory, 0, |plans[directory].runs|, None, 0, 0);
      ForgetUnannounced();
      Retired(old(plans), plans, directory);
      plannedRuns := plannedRuns - |plans[directory].runs|;
      PlanLeaves(plans, directory, announced, standing, apart, zoneStamp);
      plans := plans - {directory};
      ForgetZone();
    }

    // The run of a plan that the probes just read, near its cursor.
    method FindReadRun(plan: Plan, firstSlot: nat, count: nat) returns (found: Option<nat>)
      requires plan.cursor <= |plan.runs|
      ensures found.Some? ==> FirstRead(plan, firstSlot, count, found.value)
      ensures found.None? ==> forall i :: 0 <= i < |plan.runs| ==> !FirstRead(plan, firstSlot, count, i)
    {
      var end := Min(|plan.runs|, plan.cursor + RUN_MATCH_LOOKAHEAD);
      for index := plan.cursor to end
        invariant forall i :: plan.cursor <= i < index ==> !HoldsRead(plan.runs[i], firstSlot, count)
      {
        if HoldsRead(plan.runs[index], firstSlot, count) {
          return Some(index);
        }
      }
      return None;
    }

    // Moves the cursor of a plan past the runs that are done.
    method MoveCursor(dir: nat, from: nat)
      requires LaneRight() && AllAnnounced(plans, announced) && dir in plans && from <= |plans[dir].runs|
      requires forall i :: 0 <= i < from ==> plans[dir].runs[i].state == Done
      modifies this`plans
      ensures LaneRight() && AllAnnounced(plans, announced) && Moved(old(plans), plans, zoneStamp)
    {
      hide OnLane;
      hide PlansRight;
      hide AllAnnounced;
      hide Moved;
      hide StampsUpTo;
      var cursor := from;
      var runs := plans[dir].runs;
      while cursor < |runs| && runs[cursor].state == Done
        invariant from <= cursor <= |runs|
        invariant forall i :: 0 <= i < cursor ==> runs[i].state == Done
      {
        cursor := cursor + 1;
      }
      CursorMoves(plans, dir, cursor, announced, standing, apart, zoneStamp);
      StampsHold(plans, plans[dir := plans[dir].(cursor := cursor)], zoneStamp);
      plans := plans[dir := plans[dir].(cursor := cursor)];
    }

    // Marks the runs up to the one read done: those before it were not needed.
    method MarkRead(dir: nat, index: nat, firstSlot: nat, count: nat)
      requires Valid() && dir in plans && plans[dir].cursor <= index < |plans[dir].runs|
      modifies this`plans, this`announced, this`standing
      ensures Valid() && AllOnward(old(plans), plans)
      ensures forall i :: 0 <= i <= index ==> Has(plans, RunRef(dir, i)) && At(plans, RunRef(dir, i)).state == Done
    {
      hide OnLane;
      hide AllAnnounced;
      hide ZoneRight;
      hide LaneStamped;
      hide PlanRight;
      hide AllOnward;
      hide PlansRight;
      hide StampsUpTo;
      BeforeCursor(plans, dir);
      RetireRuns(dir, plans[dir].cursor, index + 1, Some(index), firstSlot, count);
      ghost var retired := plans;
      ForgetUnannounced();
      DoneUpTo(old(plans), plans, dir, old(plans)[dir].cursor, index);
      MoveCursor(dir, index + 1);
      MovedTwice(old(plans), retired, plans, zoneStamp);
      MovedValid(old(plans), retired, plans, order, zone, chain, chainPlan, chainRun, zoneCurrent, zoneStamp, 2 * laneRuns, dir, index, zoneClean);
    }

    // The probes have read a run. reference is the directory that the listing is
    // at.
    method RunRead(firstSlot: nat, count: nat, reference: Option<nat>, held: nat -> bool, keeps: bool)
      requires Valid()
      modifies this`plans, this`zone, this`chain, this`chainPlan, this`chainRun, this`zoneClean, this`zoneCurrent, this`zoneStamp
      modifies this`announced, this`standing
      ensures Valid() && AllOnward(old(plans), plans)
      // The run that was read, and those before it, are done.
      ensures on && attached && reference.Some? && reference.value in old(plans) ==>
        forall index: nat, i: nat :: FirstRead(old(plans)[reference.value], firstSlot, count, index) && i <= index ==>
          Has(plans, RunRef(reference.value, i)) && At(plans, RunRef(reference.value, i)).state == Done
    {
      hide OnLane;
      hide AllAnnounced;
      hide ZoneRight;
      hide LaneStamped;
      hide AllOnward;
      NothingOnward(plans);
      if !on || !attached || reference.None? || reference.value !in plans {
        return;
      }
      hide PlansRight;
      hide Refilled;
      var dir := reference.value;
      BeforeCursor(plans, dir);
      var found := FindReadRun(plans[dir], firstSlot, count);
      if found.None? {
        return;
      }
      MarkRead(dir, found.value, firstSlot, count);
      ghost var marked := plans;
      Refill(reference, held, keeps);
      StaysDone(old(plans), marked, plans, dir, found.value);
      OnlyFirst(old(plans)[dir], firstSlot, count, found.value);
    }

    // The stack of the listing changed: the lane follows its first directories.
    method Reorder(upcoming: seq<nat>, readAheadDirs: nat, reference: Option<nat>, held: nat -> bool, keeps: bool)
      requires Valid()
      modifies this
      ensures Valid() && AllOnward(old(plans), plans) && attached == old(attached)
      ensures order == NewOrder(old(plans), old(order), upcoming, readAheadDirs)
      ensures OrderMeans(old(plans), old(order), upcoming, readAheadDirs, order)
      ensures on && old(plans) != map[] ==> Refilled(old(plans), if attached then reference else None)
    {
      hide OnLane;
      hide AllAnnounced;
      hide ZoneRight;
      hide LaneStamped;
      hide AllOnward;
      hide PlansRight;
      hide OrderMeans;
      NewOrderMeans(plans, order, upcoming, readAheadDirs);
      var window := Min(|upcoming|, readAheadDirs);
      var next := upcoming[..window];
      var all, planned := order, plans;
      ghost var top := next;
      for i := 0 to |all|
        invariant next == top + Sunk(planned, all[..i], top)
        invariant Valid() && plans == planned && order == old(order) && attached == old(attached)
      {
        assert all[..i + 1][..i] == all[..i];
        if all[i] in planned && all[i] !in upcoming[..window] {
          next := next + [all[i]];
        }
      }
      assert all[..|all|] == all;
      ForgetZone();
      order := next;
      Refill(reference, held, keeps);
    }
  }

  lemma FillingMeans(p: Plans, zone: seq<RunRef>, chain: seq<nat>, k: nat, from: nat, stamp: nat, limit: nat)
    requires Filling(p, zone, chain, k, from, stamp, limit)
    ensures PlansRight(p) && StampsUpTo(p, stamp) && |zone| <= limit && k <= |chain|
  {
  }

  lemma RestampedNone(p: Plans, stamp: nat)
    ensures Restamped(p, p, stamp)
  {
  }

  lemma ListedHas(p: Plans, announced: seq<RunRef>, standing: set<Range>, apart: nat)
    requires OnLane(p, announced, standing, apart)
    ensures forall i :: 0 <= i < |announced| ==> Has(p, announced[i])
    ensures forall i, j :: 0 <= i < j < |announced| ==> announced[i] != announced[j]
  {
  }

  lemma AllListed(p: Plans, announced: seq<RunRef>, standing: set<Range>, apart: nat)
    requires OnLane(p, announced, standing, apart)
    ensures forall r :: IsAnnounced(p, r) ==> r in announced
  {
  }

  lemma NothingFrom(p: Plans, dir: nat, from: nat)
    requires from >= RunCount(p, dir)
    ensures Live(p, RunsFrom(dir, from, RunCount(p, dir))) == []
  {
  }

  // The next run of a walk, taken if it is not done.
  lemma NextLive(p: Plans, more: seq<RunRef>, r: RunRef, n: nat, whole: seq<RunRef>)
    requires r.dir in p && n == |p[r.dir].runs| && r.index < n
    requires more + Live(p, RunsFrom(r.dir, r.index, n)) == whole
    ensures (if IsLive(p, r) then more + [r] else more) + Live(p, RunsFrom(r.dir, r.index + 1, n)) == whole
  {
    hide Live;
    var rest := RunsFrom(r.dir, r.index + 1, n);
    NextRun(r.dir, r.index, n);
    hide RunsFrom;
    LiveAdded(p, [r], rest);
    LiveOne(p, r);
    AssociateRefs(more, Live(p, [r]), Live(p, rest));
    if !IsLive(p, r) { assert [] + Live(p, rest) == Live(p, rest); }
  }

  lemma NothingWalked(p: Plans, limit: nat)
    ensures [] == Take(Unread(p, []), limit)
  {
  }

  lemma TakeAgain(a: seq<RunRef>, limit: nat)
    ensures Take(Take(a, limit) + [], limit) == Take(a, limit)
  {
    assert Take(a, limit) + [] == Take(a, limit);
  }

  // One more plan walked.
  lemma WalkedMore(p: Plans, walked: seq<nat>, dir: nat, limit: nat)
    ensures Take(Take(Unread(p, walked), limit) + Live(p, RunsFrom(dir, 0, RunCount(p, dir))), limit)
      == Take(Unread(p, walked + [dir]), limit)
  {
    RefsAppended(p, walked, dir, 0, 0);
    LiveAdded(p, Refs(p, walked, 0, 0), RunsFrom(dir, 0, RunCount(p, dir)));
    TakeTwice(Unread(p, walked), Live(p, RunsFrom(dir, 0, RunCount(p, dir))), limit);
  }

  // A run that leaves the waiting ones is served, and those served stay so.
  lemma Serves(p: Plans, r: RunRef, run: PlannedRun, apart: nat)
    requires Has(p, r) && SameRun(At(p, r), run) && At(p, r).state == Waiting && run.state != Waiting
    ensures Served(SetRun(p, r, run), r, apart)
    ensures forall o :: Served(p, o, apart) ==> Served(SetRun(p, r, run), o, apart)
  {
    SetRunMeans(p, r, run);
    forall o | Served(p, o, apart) ensures Served(SetRun(p, r, run), o, apart) {
      ServedStays(p, SetRun(p, r, run), o, r, run, apart);
    }
  }

  lemma MovedHas(p: Plans, q: Plans, stamp: nat)
    requires Moved(p, q, stamp)
    ensures forall r :: Has(p, r) <==> Has(q, r)
    ensures forall r :: Has(p, r) ==> At(q, r).stamp == At(p, r).stamp
  {
    OnwardLive(p, q);
  }

  lemma NothingOnward(p: Plans)
    ensures AllOnward(p, p)
  {
  }

  lemma RightChain(p: Plans, order: seq<nat>, zone: seq<RunRef>, chain: seq<nat>, k: nat, from: nat,
                   current: Option<nat>, stamp: nat, limit: nat)
    requires ZoneRight(p, order, zone, chain, k, from, current, stamp, limit)
    ensures chain == Chain(p, order, current)
  {
  }

  lemma RestampedLane(p: Plans, q: Plans, stamp: nat)
    requires Restamped(p, q, stamp)
    ensures LaneStamped(p, stamp) ==> LaneStamped(q, stamp)
  {
    SameStatesLive(p, q);
  }

  // The zone filled is the first unread runs of the plans before and after.
  lemma ZoneIsFresh(p: Plans, q: Plans, order: seq<nat>, zone: seq<RunRef>, chain: seq<nat>, k: nat, from: nat,
                    current: Option<nat>, stamp: nat, limit: nat)
    requires Restamped(p, q, stamp) && Filling(q, zone, chain, k, from, stamp, limit) && chain == Chain(p, order, current)
    requires |zone| == limit || k >= |chain|
    ensures zone == Take(Unread(p, Chain(p, order, current)), limit) == Take(Unread(q, Chain(q, order, current)), limit) && |zone| <= limit
    ensures ZoneRight(q, order, zone, chain, k, from, current, stamp, limit) && PlansRight(q) && Stamped(q, zone, stamp)
  {
    hide Stamped;
    hide ZoneCovers;
    hide PlanRight;
    hide Unread;
    hide Chain;
    ZoneIsFirst(q, zone, chain, k, from, limit);
    UnreadSame(p, q, chain);
    ChainSame(p, q, order, current);
  }

  lemma AnnouncedStamped(p: Plans, announced: seq<RunRef>, stamp: nat)
    requires AllAnnounced(p, announced)
    ensures forall i :: 0 <= i < |announced| ==> Has(p, announced[i])
    ensures LaneStamped(p, stamp) ==> forall i :: 0 <= i < |announced| ==> At(p, announced[i]).stamp == stamp
  {
  }

  lemma StampedMoves(p: Plans, q: Plans, zone: seq<RunRef>, stamp: nat)
    requires Moved(p, q, stamp) && Stamped(p, zone, stamp)
    ensures Stamped(q, zone, stamp)
  {
    OnwardLive(p, q);
    hide AllOnward;
  }

  // What is on the lane is in the zone, and no more than it holds.
  lemma LaneInZone(p: Plans, announced: seq<RunRef>, standing: set<Range>, apart: nat, zone: seq<RunRef>, stamp: nat)
    requires OnLane(p, announced, standing, apart) && AllAnnounced(p, announced) && LaneStamped(p, stamp) && Stamped(p, zone, stamp)
    ensures |announced| <= |zone| && forall i :: 0 <= i < |announced| ==> announced[i] in zone
  {
    forall i | 0 <= i < |announced| ensures announced[i] in zone {
      assert IsAnnounced(p, announced[i]);
    }
    NoMoreThan(announced, zone);
  }

  lemma RefillOnward(p: Plans, q: Plans, r: Plans, stamp: nat)
    requires Restamped(p, q, stamp) && Moved(q, r, stamp)
    ensures AllOnward(p, r) && p.Keys == r.Keys && TotalRuns(p) == TotalRuns(r)
  {
    OnwardTwice(p, q, r);
    TotalOnward(p, r);
  }

  // With every announced run withdrawn, the reader holds nothing.
  lemma AllWithdrawn(p: Plans, announced: seq<RunRef>, standing: set<Range>, apart: nat, left: set<Range>)
    requires PlansRight(p) && OnLane(p, announced, standing, apart)
    requires forall x :: x in left ==> x in standing && forall j :: 0 <= j < |announced| ==> !RangesOverlap(x, RangeOf(At(p, announced[j])), apart)
    ensures left == {}
  {
    forall x | x in standing ensures exists j :: 0 <= j < |announced| && RangesOverlap(x, RangeOf(At(p, announced[j])), apart) {
      assert IsRangeOn(p, x);
      var o :| IsAnnounced(p, o) && RangeOf(At(p, o)) == x;
      assert o in announced && PlanRight(p[o.dir]);
      var j :| 0 <= j < |announced| && announced[j] == o;
      assert RangesOverlap(x, RangeOf(At(p, announced[j])), apart);
    }
    assert forall x :: x !in left;
  }

  lemma BeforeCursor(p: Plans, dir: nat)
    requires PlansRight(p) && dir in p
    ensures p[dir].cursor <= |p[dir].runs| && forall i :: 0 <= i < p[dir].cursor ==> p[dir].runs[i].state == Done
  {
    assert PlanRight(p[dir]);
  }

  lemma DoneUpTo(p: Plans, q: Plans, dir: nat, cursor: nat, index: nat)
    requires AllOnward(p, q) && dir in p && cursor <= index < |p[dir].runs|
    requires forall i :: 0 <= i < cursor ==> p[dir].runs[i].state == Done
    requires forall i :: cursor <= i < index + 1 ==> Has(q, RunRef(dir, i)) && At(q, RunRef(dir, i)).state == Done
    ensures dir in q && |q[dir].runs| == |p[dir].runs| && forall i :: 0 <= i < index + 1 ==> q[dir].runs[i].state == Done
  {
    assert Onward(p[dir], q[dir]);
    forall i | 0 <= i < index + 1 ensures q[dir].runs[i].state == Done {
      if i >= cursor { assert At(q, RunRef(dir, i)).state == Done; }
    }
  }

  // A directory whose runs were all retired, and the others as they were.
  lemma Retired(p: Plans, q: Plans, dir: nat)
    requires AllOnward(p, q) && dir in p
    requires forall d :: d in q ==> q[d].cursor == p[d].cursor
    requires forall i :: 0 <= i < |p[dir].runs| ==> Has(q, RunRef(dir, i)) && At(q, RunRef(dir, i)).state == Done
    requires forall r :: Has(q, r) && r.dir != dir ==> Has(p, r) && At(q, r) == At(p, r)
    ensures dir in q && q.Keys == p.Keys && forall d :: d in q - {dir} ==> (q - {dir})[d] == p[d]
    ensures |q[dir].runs| == |p[dir].runs| && forall i :: 0 <= i < |q[dir].runs| ==> q[dir].runs[i].state == Done
    ensures TotalRuns(p) == |q[dir].runs| + TotalRuns(q - {dir})
  {
    assert Onward(p[dir], q[dir]);
    TotalOnward(p, q);
    TotalWithout(q, dir);
    forall d | d in q && d != dir ensures q[d] == p[d] {
      assert Onward(p[d], q[d]);
      forall i | 0 <= i < |q[d].runs| ensures q[d].runs[i] == p[d].runs[i] {
        assert Has(q, RunRef(d, i)) && At(q, RunRef(d, i)) == At(p, RunRef(d, i));
      }
    }
    forall i | 0 <= i < |q[dir].runs| ensures q[dir].runs[i].state == Done {
      assert Has(q, RunRef(dir, i));
    }
  }

  // What held of the zone and the counts holds after a run was read.
  lemma MovedValid(p: Plans, q: Plans, r: Plans, order: seq<nat>, zone: seq<RunRef>, chain: seq<nat>, k: nat, from: nat,
                   current: Option<nat>, stamp: nat, limit: nat, dir: nat, index: nat, clean: bool)
    requires Moved(p, r, stamp) && Moved(q, r, stamp) && dir in q && index < |q[dir].runs|
    requires forall i :: 0 <= i < index + 1 ==> q[dir].runs[i].state == Done
    requires clean ==> ZoneRight(p, order, zone, chain, k, from, current, stamp, limit) && LaneStamped(p, stamp)
    ensures clean ==> ZoneRight(r, order, zone, chain, k, from, current, stamp, limit) && LaneStamped(r, stamp)
    ensures AllOnward(p, r) && TotalRuns(p) == TotalRuns(r) && (p == map[] <==> r == map[])
    ensures forall i :: 0 <= i <= index ==> Has(r, RunRef(dir, i)) && At(r, RunRef(dir, i)).state == Done
  {
    hide ZoneRight;
    if clean {
      ZoneHolds(p, r, order, zone, chain, k, from, current, stamp, limit);
      StampsHold(p, r, stamp);
    }
    TotalOnward(p, r);
    assert Onward(q[dir], r[dir]);
  }

  lemma StaysDone(p: Plans, q: Plans, r: Plans, dir: nat, index: nat)
    requires AllOnward(p, q) && AllOnward(q, r)
    requires forall i :: 0 <= i <= index ==> Has(q, RunRef(dir, i)) && At(q, RunRef(dir, i)).state == Done
    ensures AllOnward(p, r)
    ensures forall i: nat :: i <= index ==> Has(r, RunRef(dir, i)) && At(r, RunRef(dir, i)).state == Done
  {
    OnwardTwice(p, q, r);
    forall i: nat | i <= index ensures Has(r, RunRef(dir, i)) && At(r, RunRef(dir, i)).state == Done {
      assert Has(q, RunRef(dir, i)) && Onward(q[dir], r[dir]);
    }
  }

  // One run at most is the first that holds what was read.
  lemma OnlyFirst(plan: Plan, firstSlot: nat, count: nat, index: nat)
    requires FirstRead(plan, firstSlot, count, index)
    ensures forall i: nat :: FirstRead(plan, firstSlot, count, i) ==> i == index
  {
  }

  lemma NothingMoved(p: Plans, stamp: nat)
    ensures Moved(p, p, stamp)
  {
  }

  lemma SameKeys(p: Plans, q: Plans)
    requires AllOnward(p, q)
    ensures p.Keys == q.Keys
  {
  }
}
