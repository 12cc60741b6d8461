// The planner of the standing lane: from the groups of records that a walk will
// probe, the runs of $MFT that the prober will read, in its order.
module RunPlanner {
  import opened Prelude
  import opened MftRuns
  import opened ProbeRuns
  import SlotCover
  import RecordSet
  import LanePlans
  import ProbeLane

  // A planned run, as the slots it reads.
  function IntervalOf(run: LanePlans.PlannedRun): Interval {
    SlotCover.Interval(run.firstSlot, if run.count > 0 then run.firstSlot + run.count - 1 else run.firstSlot)
  }

  function IntervalsPlanned(runs: seq<LanePlans.PlannedRun>): seq<Interval> {
    seq(|runs|, k requires 0 <= k < |runs| => IntervalOf(runs[k]))
  }

  // Every run of a plan holds the records it reads for.
  ghost predicate HoldsWanted(plan: LanePlans.Plan) {
    forall k, i :: 0 <= k < |plan.runs| && plan.runs[k].wantedBegin <= i < plan.runs[k].wantedEnd && i < |plan.wanted| ==>
      IntervalOf(plan.runs[k]).Holds(plan.wanted[i])
  }

  // A plan under way.
  ghost predicate PlanSoFar(plan: LanePlans.Plan, ran: seq<Interval>) {
    ProbeLane.NewPlan(plan) && HoldsWanted(plan) && IntervalsPlanned(plan.runs) == ran
  }

  // The records of a group that are still to probe, known from then on.
  method TakeUnprobed(group: seq<nat>, known: RecordSet.RecordSet, t: Tuning) returns (pending: seq<nat>)
    requires known.Valid() && forall i :: 0 <= i < |group| ==> group[i] <= U64_MAX
    modifies known, known.slots
    ensures known.Valid() && (known.slots == old(known.slots) || fresh(known.slots))
    ensures pending == Pending(group, Forgetting(t, old(known.Contents())))
    ensures known.Contents() == Forgetting(t, old(known.Contents())) + SetOf(pending)
  {
    hide Pending;
    hide Taken;
    hide Sort;
    hide SetOf;
    hide RecordSet.TableRight;
    hide RecordSet.Records;
    var size := known.Size();
    if size >= t.maxKnown {
      known.Clear();
    }
    ghost var had := known.Contents();
    assert had == Forgetting(t, old(known.Contents()));
    pending := [];
    NothingTaken(group, had);
    for i := 0 to |group|
      invariant known.Valid() && (known.slots == old(known.slots) || fresh(known.slots))
      invariant Taken(pending, group, i, had) && known.Contents() == had + SetOf(pending)
    {
      var isNew := known.Insert(group[i]);
      TakenMore(pending, group, i, had, known.Contents(), isNew);
      if isNew {
        pending := pending + [group[i]];
      }
    }
    TakenAll(pending, group, had);
    pending := Sort(pending, AtMost);
  }

  // The records of the first i of a group that were not known, each once.
  ghost predicate Taken(pending: seq<nat>, group: seq<nat>, i: nat, had: set<nat>) {
    && i <= |group|
    && (forall x :: x in pending <==> x in group[..i] && x !in had)
    && (forall j, k :: 0 <= j < k < |pending| ==> pending[j] != pending[k])
  }

  lemma NothingTaken(group: seq<nat>, had: set<nat>)
    ensures Taken([], group, 0, had) && SetOf([]) == {}
  {
  }

  lemma TakenMore(pending: seq<nat>, group: seq<nat>, i: nat, had: set<nat>, contents: set<nat>, isNew: bool)
    requires i < |group| && Taken(pending, group, i, had) && contents == had + SetOf(pending) + {group[i]}
    requires isNew <==> group[i] !in had + SetOf(pending)
    ensures var next := if isNew then pending + [group[i]] else pending;
      Taken(next, group, i + 1, had) && contents == had + SetOf(next)
  {
    assert group[..i + 1] == group[..i] + [group[i]];
  }

  lemma TakenAll(pending: seq<nat>, group: seq<nat>, had: set<nat>)
    requires Taken(pending, group, |group|, had)
    ensures Sort(pending, AtMost) == Pending(group, had)
    ensures SetOf(Sort(pending, AtMost)) == SetOf(pending)
  {
    var sorted := Sort(pending, AtMost);
    var differ := (a: nat, b: nat) => a != b;
    assert group[..|group|] == group;
    AtMostOrders();
    SortSorts(pending, AtMost);
    SortPairwise(pending, AtMost, differ);
    forall i, j | 0 <= i < j < |sorted| ensures sorted[i] < sorted[j] {
      assert AtMost(sorted[i], sorted[j]) && differ(sorted[i], sorted[j]);
    }
    PendingHolds(group, had);
    SameIncreasing(sorted, Pending(group, had));
  }

  class RunPlanner {
    const rules: Rules
    const tuning: Tuning
    // The records that the window or the memo holds.
    const held: nat -> bool

    constructor (rules: Rules, tuning: Tuning, held: nat -> bool)
      ensures this.rules == rules && this.tuning == tuning && this.held == held
    {
      this.rules, this.tuning, this.held := rules, tuning, held;
    }

    // The records of a chunk that the runs planned so far do not cover.
    method Uncovered(chunk: seq<nat>, covered: SlotCover.SlotCover, ghost ran: seq<Interval>) returns (toRead: seq<nat>)
      requires covered.Valid()
      requires rules.keeps ==> forall x: nat :: SlotCover.Covers(covered.intervals, x) <==> SlotCover.Covers(ran, x)
      ensures toRead == ToRead(chunk, rules, FoundWith(held, ran))
    {
      toRead := [];
      if !rules.mapped {
        return;
      }
      var alone := FirstMapped(chunk, rules);
      var rest := chunk[alone..];
      for i := 0 to |rest|
        invariant toRead == NotFound(rest[..i], KeptFound(rules, FoundWith(held, ran)))
      {
        assert rest[..i + 1][..i] == rest[..i];
        var found := covered.Contains(rest[i]);
        if !(rules.keeps && (found || held(rest[i]))) {
          toRead := toRead + [rest[i]];
        }
      }
      assert rest[..|rest|] == rest;
    }

    // Appends the runs of a chunk to the plan.
    method AppendRuns(plan: LanePlans.Plan, runs: seq<MftRun>, toRead: seq<nat>, ghost ran: seq<Interval>)
      returns (r: LanePlans.Plan)
      requires PlanSoFar(plan, ran) && Sized(runs, |toRead|) && HoldsSlots(runs, toRead)
      ensures PlanSoFar(r, ran + IntervalsOf(runs))
    {
      r := plan;
      NoRuns(plan, runs, ran);
      for k := 0 to |runs|
        invariant PlanSoFar(r, ran + IntervalsOf(runs[..k]))
      {
        var run := runs[k];
        var begin := |r.wanted|;
        var wanted := r.wanted + toRead[run.begin..run.end];
        var planned := LanePlans.PlannedRun(run.firstSlot, run.lastSlot - run.firstSlot + 1, 0, begin, |wanted|, LanePlans.Waiting);
        RunAppended(r, run, toRead, planned, ran + IntervalsOf(runs[..k]));
        assert ran + IntervalsOf(runs[..k]) + [SlotCover.Interval(run.firstSlot, run.lastSlot)] == ran + IntervalsOf(runs[..k + 1]);
        r := LanePlans.Plan(r.runs + [planned], wanted, 0);
      }
      assert runs[..|runs|] == runs;
    }

    // The runs that the probes of the groups will make.
    method PlanOf(groups: seq<seq<nat>>) returns (plan: LanePlans.Plan)
      requires forall g, i :: 0 <= g < |groups| && 0 <= i < |groups[g]| ==> groups[g][i] <= U64_MAX
      ensures ProbeLane.NewPlan(plan) && HoldsWanted(plan)
      ensures IntervalsPlanned(plan.runs) == AfterGroups(groups, tuning, rules, held).ran
      // They read the records of each group that must be read, round by round, in
      // whole clusters.
      ensures GroupsRead(groups, tuning, rules, held, IntervalsPlanned(plan.runs)) && AllWhole(IntervalsPlanned(plan.runs), rules)
    {
      hide GroupsRead, AllWhole, AfterGroups, AfterGroup, Forgetting;
      NoGroups(groups, tuning, rules, held);
      hide PlanSoFar;
      hide AfterRounds;
      hide Pending;
      hide SetOf;
      hide RecordSet.TableRight;
      hide RecordSet.Records;
      hide SlotCover.Apart;
      NothingCovered();
      hide SlotCover.Covers;
      var covered := new SlotCover.SlotCover();
      var known := new RecordSet.RecordSet();
      ghost var p := Probing({}, []);
      plan := LanePlans.Plan([], [], 0);
      NothingPlanned();
      for g := 0 to |groups|
        invariant known.Valid() && fresh(known) && fresh(known.slots) && fresh(covered) && covered.Valid()
        invariant p == AfterGroups(groups[..g], tuning, rules, held)
        invariant known.Contents() == p.known && PlanSoFar(plan, p.ran)
        invariant rules.keeps ==> forall x: nat :: SlotCover.Covers(covered.intervals, x) <==> SlotCover.Covers(p.ran, x)
      {
        NextGroups(groups, g, tuning, rules, held);
        var pending := TakeUnprobed(groups[g], known, tuning);
        PendingHolds(groups[g], Forgetting(tuning, p.known));
        ghost var ran;
        plan, ran := PlanRounds(pending, covered, plan, p.ran);
        p := Probing(Forgetting(tuning, p.known) + SetOf(pending), ran);
      }
      assert groups[..|groups|] == groups;
      PlanDone(plan, p.ran);
      GroupsAreRead(groups, tuning, rules, held);
      GroupsAreWhole(groups, tuning, rules, held, p.ran);
    }

    // The runs of the records still to probe, round by round.
    method PlanRounds(pending: seq<nat>, covered: SlotCover.SlotCover, before: LanePlans.Plan, ghost had: seq<Interval>)
      returns (plan: LanePlans.Plan, ghost ran: seq<Interval>)
      requires Increasing(pending) && covered.Valid() && PlanSoFar(before, had)
      requires rules.keeps ==> forall x: nat :: SlotCover.Covers(covered.intervals, x) <==> SlotCover.Covers(had, x)
      modifies covered
      ensures covered.Valid() && PlanSoFar(plan, ran) && ran == AfterRounds(pending, RoundOf(tuning), rules, held, had)
      ensures rules.keeps ==> forall x: nat :: SlotCover.Covers(covered.intervals, x) <==> SlotCover.Covers(ran, x)
    {
      hide PlanSoFar;
      hide SlotCover.Covers;
      hide SlotCover.Apart;
      hide RunsFor;
      hide ToRead;
      var round := RoundOf(tuning);
      plan, ran := before, had;
      var left := pending;
      while left != []
        invariant Increasing(left) && covered.Valid() && PlanSoFar(plan, ran)
        invariant rules.keeps ==> forall x: nat :: SlotCover.Covers(covered.intervals, x) <==> SlotCover.Covers(ran, x)
        invariant AfterRounds(pending, round, rules, held, had) == AfterRounds(left, round, rules, held, ran)
        decreases |left|
      {
        var n := Min(round, |left|);
        var chunk := left[..n];
        PartIncreasing(left, n);
        var toRead := Uncovered(chunk, covered, ran);
        ChunkRunsRight(chunk, rules, FoundWith(held, ran));
        var runs := PlanRuns(toRead, rules);
        plan := AppendRuns(plan, runs, toRead, ran);
        if rules.keeps {
          WideRuns(runs, |toRead|);
          covered.Add(IntervalsOf(runs));
          CoversBoth(ran, IntervalsOf(runs));
        }
        ran := ran + IntervalsOf(runs);
        left := left[n..];
      }
    }
  }

  lemma NoGroups(groups: seq<seq<nat>>, t: Tuning, rules: Rules, held: nat -> bool)
    ensures AfterGroups(groups[..0], t, rules, held) == Probing({}, [])
  {
  }

  lemma NextGroups(groups: seq<seq<nat>>, g: nat, t: Tuning, rules: Rules, held: nat -> bool)
    requires g < |groups|
    ensures var before := AfterGroups(groups[..g], t, rules, held);
      var pending := Pending(groups[g], Forgetting(t, before.known));
      AfterGroups(groups[..g + 1], t, rules, held) == Probing(Forgetting(t, before.known) + SetOf(pending), AfterRounds(pending, RoundOf(t), rules, held, before.ran))
  {
    assert groups[..g + 1][..g] == groups[..g];
  }

  lemma NothingCovered()
    ensures forall x: nat :: !SlotCover.Covers([], x)
  {
  }

  lemma NothingPlanned()
    ensures PlanSoFar(LanePlans.Plan([], [], 0), [])
  {
  }

  lemma PlanDone(plan: LanePlans.Plan, ran: seq<Interval>)
    requires PlanSoFar(plan, ran)
    ensures ProbeLane.NewPlan(plan) && HoldsWanted(plan) && IntervalsPlanned(plan.runs) == ran
  {
  }

  lemma NoRuns(plan: LanePlans.Plan, runs: seq<MftRun>, ran: seq<Interval>)
    requires PlanSoFar(plan, ran)
    ensures PlanSoFar(plan, ran + IntervalsOf(runs[..0]))
  {
    assert ran + IntervalsOf(runs[..0]) == ran;
  }

  lemma RunAppended(plan: LanePlans.Plan, run: MftRun, toRead: seq<nat>, planned: LanePlans.PlannedRun, ran: seq<Interval>)
    requires PlanSoFar(plan, ran) && run.begin < run.end <= |toRead| && run.firstSlot <= run.lastSlot
    requires forall i :: run.begin <= i < run.end ==> run.Covers(toRead[i])
    requires planned == LanePlans.PlannedRun(run.firstSlot, run.lastSlot - run.firstSlot + 1, 0, |plan.wanted|,
                                             |plan.wanted| + (run.end - run.begin), LanePlans.Waiting)
    ensures PlanSoFar(LanePlans.Plan(plan.runs + [planned], plan.wanted + toRead[run.begin..run.end], 0),
                      ran + [SlotCover.Interval(run.firstSlot, run.lastSlot)])
  {
    var next := LanePlans.Plan(plan.runs + [planned], plan.wanted + toRead[run.begin..run.end], 0);
    assert LanePlans.PlanRight(plan);
    forall k, i | 0 <= k < |next.runs| && next.runs[k].wantedBegin <= i < next.runs[k].wantedEnd && i < |next.wanted|
      ensures IntervalOf(next.runs[k]).Holds(next.wanted[i])
    {
      if k < |plan.runs| {
        assert next.runs[k] == plan.runs[k] && next.wanted[i] == plan.wanted[i];
      } else {
        assert next.wanted[i] == toRead[run.begin + (i - |plan.wanted|)];
      }
    }
    assert IntervalsPlanned(next.runs) == IntervalsPlanned(plan.runs) + [IntervalOf(planned)];
  }

  lemma WideRuns(runs: seq<MftRun>, n: nat)
    requires Sized(runs, n)
    ensures forall k :: 0 <= k < |runs| ==> IntervalsOf(runs)[k].first <= IntervalsOf(runs)[k].last
  {
  }

  lemma CoversBoth(a: seq<Interval>, b: seq<Interval>)
    ensures forall x: nat :: SlotCover.Covers(a + b, x) <==> SlotCover.Covers(a, x) || SlotCover.Covers(b, x)
  {
    SlotCover.CoversSame(a + b, a, b);
  }
}
