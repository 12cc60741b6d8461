// The reads of $MFT that the probes of a list of groups of records make: what the
// planner must foretell, and the prober then reads.
module ProbeRuns {
  import opened Prelude
  import opened MftRuns
  import SlotCover

  type Interval = SlotCover.Interval

  // What decides the reads of a chunk. Records below firstMapped, and all of them
  // when $MFT is not mapped, are probed alone.
  datatype Rules = Rules(mapped: bool, keeps: bool, limits: RunLimits, slotsPerCluster: nat, firstMapped: nat)

  // How the groups are taken: records in a round, and in the memo.
  datatype Tuning = Tuning(maxChunk: nat, maxKnown: nat)

  // The leading records that are probed alone.
  function Alone(chunk: seq<nat>, rules: Rules): (n: nat)
    ensures n <= |chunk|
  {
    if chunk == [] || (rules.mapped && chunk[0] >= rules.firstMapped) then 0 else 1 + Alone(chunk[1..], rules)
  }

  // The records of a list that are not found, in order.
  function NotFound(records: seq<nat>, found: nat -> bool): seq<nat> {
    if records == [] then []
    else NotFound(records[..|records| - 1], found) + if found(records[|records| - 1]) then [] else [records[|records| - 1]]
  }

  // What is found, when the runs are kept.
  function KeptFound(rules: Rules, found: nat -> bool): nat -> bool {
    (x: nat) => rules.keeps && found(x)
  }

  function KnownTo(known: set<nat>): nat -> bool {
    (x: nat) => x in known
  }

  // The records of a chunk that are read in runs.
  function ToRead(chunk: seq<nat>, rules: Rules, found: nat -> bool): seq<nat> {
    if rules.mapped then NotFound(chunk[Alone(chunk, rules)..], KeptFound(rules, found)) else []
  }

  // The runs that read a list of records, widened to clusters when they are kept.
  function RunsFor(toRead: seq<nat>, rules: Rules): seq<MftRun> {
    var runs := RunsTo(toRead, rules.limits, |toRead|);
    if rules.slotsPerCluster >= 2 then WidenAll(runs, rules.slotsPerCluster, rules.firstMapped) else runs
  }

  method PlanRuns(toRead: seq<nat>, rules: Rules) returns (runs: seq<MftRun>)
    requires Increasing(toRead)
    ensures runs == RunsFor(toRead, rules)
    ensures (forall i :: 0 <= i < |toRead| ==> toRead[i] >= rules.firstMapped) ==> ListRead(IntervalsOf(runs), toRead, rules)
  {
    if forall i :: 0 <= i < |toRead| ==> toRead[i] >= rules.firstMapped { ListIsRead(toRead, rules); }
    runs := PlanMftRuns(toRead, rules.limits);
    // A run that is kept is kept whole: the disk reads its clusters anyway.
    if rules.slotsPerCluster >= 2 {
      runs := WidenToClusters(runs, rules.slotsPerCluster, rules.firstMapped);
    }
  }

  method FirstMapped(chunk: seq<nat>, rules: Rules) returns (alone: nat)
    ensures alone == Alone(chunk, rules)
  {
    alone := 0;
    while alone < |chunk| && (!rules.mapped || chunk[alone] < rules.firstMapped)
      invariant alone <= |chunk|
      invariant Alone(chunk, rules) == alone + Alone(chunk[alone..], rules)
    {
      assert chunk[alone..][1..] == chunk[alone + 1..];
      alone := alone + 1;
    }
  }

  lemma {:induction false} NotFoundHolds(records: seq<nat>, found: nat -> bool)
    ensures forall x :: x in NotFound(records, found) <==> x in records && !found(x)
    ensures Increasing(records) ==> Increasing(NotFound(records, found))
  {
    if records != [] {
      var front, last := records[..|records| - 1], records[|records| - 1];
      NotFoundHolds(front, found);
      assert records == front + [last];
      if Increasing(records) {
        assert Increasing(front);
        var kept := NotFound(front, found);
        assert forall i :: 0 <= i < |kept| ==> kept[i] in kept;
      }
    }
  }

  lemma {:induction false} NotFoundSame(records: seq<nat>, f: nat -> bool, g: nat -> bool)
    requires forall x :: f(x) == g(x)
    ensures NotFound(records, f) == NotFound(records, g)
  {
    if records != [] {
      NotFoundSame(records[..|records| - 1], f, g);
    }
  }

  lemma {:induction false} AloneBelow(chunk: seq<nat>, rules: Rules)
    requires Increasing(chunk) && rules.mapped
    ensures forall i :: Alone(chunk, rules) <= i < |chunk| ==> chunk[i] >= rules.firstMapped
  {
    if chunk != [] && chunk[0] < rules.firstMapped {
      var rest := chunk[1..];
      assert forall i, j :: 0 <= i < j < |rest| ==> rest[i] == chunk[i + 1] && rest[j] == chunk[j + 1];
      AloneBelow(rest, rules);
      assert forall i :: 0 < i < |chunk| ==> chunk[i] == rest[i - 1];
    }
  }

  // The runs of a chunk hold every record they read for, and none reads a slot
  // that has a fixed address.
  lemma ChunkRunsRight(chunk: seq<nat>, rules: Rules, found: nat -> bool)
    requires Increasing(chunk)
    ensures var toRead := ToRead(chunk, rules, found); var runs := RunsFor(toRead, rules);
      && Increasing(toRead) && HoldsSlots(runs, toRead) && Sized(runs, |toRead|)
      && (forall k :: 0 <= k < |runs| ==> runs[k].firstSlot >= rules.firstMapped)
  {
    hide RunsTo;
    hide WidenAll;
    hide HoldsSlots;
    hide Increasing;
    hide Sized;
    hide InOrder;
    hide WidenedRight;
    hide Serves;
    hide Greedy;
    hide Covered;
    hide Reached;
    hide WidenedFrom;
    hide ToRead;
    var toRead := ToRead(chunk, rules, found);
    var plain := RunsTo(toRead, rules.limits, |toRead|);
    ToReadRight(chunk, rules, found);
    RunsToServe(toRead, rules.limits, |toRead|);
    ServedInOrder(plain, toRead, rules.limits, |toRead|);
    InOrderSized(plain, |toRead|);
    if rules.slotsPerCluster >= 2 {
      WidenHolds(plain, rules.slotsPerCluster, rules.firstMapped, |toRead|, toRead);
      WidenAllRight(plain, rules.slotsPerCluster, rules.firstMapped, |toRead|);
      WidenedSized(WidenAll(plain, rules.slotsPerCluster, rules.firstMapped), rules.slotsPerCluster, rules.firstMapped, |toRead|);
      NoneBelow(plain, rules.slotsPerCluster, rules.firstMapped);
    }
  }

  lemma ToReadRight(chunk: seq<nat>, rules: Rules, found: nat -> bool)
    requires Increasing(chunk)
    ensures Increasing(ToRead(chunk, rules, found))
    ensures forall i :: 0 <= i < |ToRead(chunk, rules, found)| ==> ToRead(chunk, rules, found)[i] >= rules.firstMapped
  {
    if rules.mapped {
      var rest := chunk[Alone(chunk, rules)..];
      AloneBelow(chunk, rules);
      var f := KeptFound(rules, found);
      NotFoundHolds(rest, f);
      var toRead := NotFound(rest, f);
      assert ToRead(chunk, rules, found) == toRead;
      forall i | 0 <= i < |toRead| ensures toRead[i] >= rules.firstMapped {
        assert toRead[i] in toRead;
      }
    }
  }

  // Each run reads at least one slot, for at least one record.
  ghost predicate Sized(runs: seq<MftRun>, n: nat) {
    forall k :: 0 <= k < |runs| ==> runs[k].begin < runs[k].end <= n && runs[k].firstSlot <= runs[k].lastSlot
  }

  lemma {:induction false} InOrderSized(runs: seq<MftRun>, n: nat)
    requires InOrder(runs, n)
    ensures Sized(runs, n)
  {
    if runs != [] {
      InOrderSized(runs[..|runs| - 1], runs[|runs| - 1].begin);
    }
  }

  lemma {:induction false} WidenedSized(runs: seq<MftRun>, perCluster: nat, floor: nat, n: nat)
    requires perCluster > 0 && WidenedRight(runs, perCluster, floor, n)
    ensures Sized(runs, n)
  {
    if runs != [] {
      WidenedSized(runs[..|runs| - 1], perCluster, floor, runs[|runs| - 1].begin);
    }
  }

  // -------------------------------------------------------------------------
  // The records of a group that are still to probe
  // -------------------------------------------------------------------------

  // A sorted list without its repeats.
  function Unique(sorted: seq<nat>): seq<nat> {
    if |sorted| < 2 then sorted
    else
      var n := |sorted| - 1;
      Unique(sorted[..n]) + if sorted[n] == sorted[n - 1] then [] else [sorted[n]]
  }

  predicate AtMost(a: nat, b: nat) {
    a <= b
  }

  // The records of a group that are not known, sorted, each once.
  function Pending(group: seq<nat>, known: set<nat>): seq<nat> {
    Unique(Sort(NotFound(group, KnownTo(known)), AtMost))
  }

  lemma {:induction false} UniqueHolds(sorted: seq<nat>)
    requires SortedBy(sorted, AtMost)
    ensures Increasing(Unique(sorted)) && (forall x :: x in Unique(sorted) <==> x in sorted)
    ensures sorted != [] ==> Unique(sorted) != [] && Unique(sorted)[|Unique(sorted)| - 1] == sorted[|sorted| - 1]
  {
    if |sorted| >= 2 {
      var n := |sorted| - 1;
      var front := sorted[..n];
      assert AtMost(sorted[n - 1], sorted[n]);
      UniqueHolds(front);
      assert sorted == front + [sorted[n]];
      LastIsMost(Unique(front));
      hide Unique;
    }
  }

  lemma LastIsMost(list: seq<nat>)
    requires Increasing(list)
    ensures forall i :: 0 <= i < |list| ==> list[i] <= list[|list| - 1]
  {
  }

  lemma PendingHolds(group: seq<nat>, known: set<nat>)
    ensures Increasing(Pending(group, known))
    ensures forall x :: x in Pending(group, known) <==> x in group && x !in known
  {
    var unknown := NotFound(group, KnownTo(known));
    NotFoundHolds(group, KnownTo(known));
    AtMostOrders();
    SortSorts(unknown, AtMost);
    UniqueHolds(Sort(unknown, AtMost));
  }

  lemma AtMostOrders()
    ensures TotalPreorder(AtMost)
  {
  }

  lemma FirstIn(b: seq<nat>)
    ensures |b| > 0 ==> b[0] in b
  {
  }

  // Two sorted lists of the same distinct numbers are the same list.
  lemma {:induction false} SameIncreasing(a: seq<nat>, b: seq<nat>)
    requires Increasing(a) && Increasing(b) && forall x :: x in a <==> x in b
    ensures a == b
  {
    if a == [] {
      FirstIn(b);
    } else {
      assert a[|a| - 1] in b;
      var m, n := |a| - 1, |b| - 1;
      assert b[n] in a;
      assert a[m] == b[n];
      var front, rest := a[..m], b[..n];
      forall x ensures x in front <==> x in rest {
        assert x in front ==> x in a && x != a[m];
        assert x in rest ==> x in b && x != b[n];
        assert x in a && x != a[m] ==> x in front;
        assert x in b && x != b[n] ==> x in rest;
      }
      SameIncreasing(front, rest);
    }
  }

  // -------------------------------------------------------------------------
  // The reads of all the groups
  // -------------------------------------------------------------------------

  // Where a walk stands: the records probed, and the runs read, in order.
  datatype Probing = Probing(known: set<nat>, ran: seq<Interval>)

  function IntervalsOf(runs: seq<MftRun>): seq<Interval> {
    seq(|runs|, k requires 0 <= k < |runs| => SlotCover.Interval(runs[k].firstSlot, runs[k].lastSlot))
  }

  // The records found without a read: those held at the start, and those of the
  // runs read since.
  function FoundWith(held: nat -> bool, ran: seq<Interval>): nat -> bool {
    (x: nat) => held(x) || SlotCover.Covers(ran, x)
  }

  // The runs of a chunk, after those read before.
  function AfterChunk(chunk: seq<nat>, rules: Rules, held: nat -> bool, ran: seq<Interval>): seq<Interval> {
    ran + IntervalsOf(RunsFor(ToRead(chunk, rules, FoundWith(held, ran)), rules))
  }

  // The runs of a list of records taken round by round. A round finds the runs of
  // the rounds before it, not its own.
  ghost function AfterRounds(pending: seq<nat>, round: nat, rules: Rules, held: nat -> bool, ran: seq<Interval>): seq<Interval>
    requires round > 0
    decreases |pending|
  {
    if pending == [] then ran
    else
      var n := Min(round, |pending|);
      AfterRounds(pending[n..], round, rules, held, AfterChunk(pending[..n], rules, held, ran))
  }

  function RoundOf(t: Tuning): (n: nat)
    ensures n > 0
  {
    Max(1, t.maxChunk)
  }

  // At least one record, and no more than asked for.
  lemma RoundMeans(t: Tuning, n: nat)
    ensures n > 0 ==> (n <= RoundOf(t) <==> n <= t.maxChunk || n == 1)
  {
  }

  function Forgetting(t: Tuning, known: set<nat>): set<nat> {
    if |known| >= t.maxKnown then {} else known
  }

  function SetOf(list: seq<nat>): set<nat> {
    set x | x in list
  }

  // One group probed.
  ghost function AfterGroup(group: seq<nat>, t: Tuning, rules: Rules, held: nat -> bool, p: Probing): Probing {
    var known := Forgetting(t, p.known);
    var pending := Pending(group, known);
    Probing(known + SetOf(pending), AfterRounds(pending, RoundOf(t), rules, held, p.ran))
  }

  ghost function AfterGroups(groups: seq<seq<nat>>, t: Tuning, rules: Rules, held: nat -> bool): Probing {
    if groups == [] then Probing({}, [])
    else AfterGroup(groups[|groups| - 1], t, rules, held, AfterGroups(groups[..|groups| - 1], t, rules, held))
  }

  // -------------------------------------------------------------------------
  // What the reads of a chunk are
  // -------------------------------------------------------------------------

  // A record of the chunk that is read in a run.
  predicate IsRead(x: nat, chunk: seq<nat>, rules: Rules, held: nat -> bool, had: seq<Interval>) {
    rules.mapped && x in chunk && x >= rules.firstMapped && !(rules.keeps && (held(x) || SlotCover.Covers(had, x)))
  }

  ghost predicate ReadList(toRead: seq<nat>, chunk: seq<nat>, rules: Rules, held: nat -> bool, had: seq<Interval>) {
    Increasing(toRead) && forall x :: x in toRead <==> IsRead(x, chunk, rules, held, had)
  }

  // The run ends with a cluster, and starts with one or at the first slot that is
  // mapped.
  predicate WholeClusters(r: Interval, perCluster: nat, floor: nat)
    requires perCluster > 0
  {
    r.first <= r.last && (r.last + 1) % perCluster == 0 && (r.first % perCluster == 0 || r.first == floor)
  }

  // The slot is mapped, and in a cluster that one of the runs reaches.
  ghost predicate InCluster(runs: seq<MftRun>, x: nat, perCluster: nat, floor: nat)
    requires perCluster > 0
  {
    x >= floor && exists k :: 0 <= k < |runs| && runs[k].firstSlot / perCluster <= x / perCluster <= runs[k].lastSlot / perCluster
  }

  // The runs as they are read: their own slots, or, with two slots or more in a
  // cluster, the whole clusters that they reach, in runs that never touch.
  ghost predicate ReadAs(batch: seq<Interval>, runs: seq<MftRun>, rules: Rules) {
    var c := rules.slotsPerCluster;
    && (forall k :: 0 <= k < |batch| ==> batch[k].first >= rules.firstMapped)
    && if c < 2 then |batch| == |runs| && forall k :: 0 <= k < |runs| ==> batch[k].first == runs[k].firstSlot && batch[k].last == runs[k].lastSlot
       else
         && (forall k :: 0 <= k < |batch| ==> WholeClusters(batch[k], c, rules.firstMapped))
         && (forall j, k :: 0 <= j < k < |batch| ==> batch[j].last + 1 < batch[k].first)
         && (forall x: nat :: SlotCover.Covers(batch, x) <==> InCluster(runs, x, c, rules.firstMapped))
  }

  // The reads of a chunk: its records that must be read, grouped within the
  // limits, no group able to take the next record, and widened.
  ghost predicate ChunkRead(batch: seq<Interval>, chunk: seq<nat>, rules: Rules, held: nat -> bool, had: seq<Interval>) {
    exists toRead :: ReadList(toRead, chunk, rules, held, had) && ListRead(batch, toRead, rules)
  }

  ghost predicate ListRead(batch: seq<Interval>, toRead: seq<nat>, rules: Rules) {
    exists runs :: Grouped(toRead, runs, rules.limits) && ReadAs(batch, runs, rules)
  }

  ghost predicate Grouped(toRead: seq<nat>, runs: seq<MftRun>, limits: RunLimits) {
    Serves(runs, toRead, limits, |toRead|) && Greedy(runs, toRead, limits)
  }

  lemma {:induction false} AloneAll(chunk: seq<nat>, rules: Rules)
    requires rules.mapped
    ensures forall i :: 0 <= i < Alone(chunk, rules) ==> chunk[i] < rules.firstMapped
  {
    if chunk != [] && chunk[0] < rules.firstMapped {
      AloneAll(chunk[1..], rules);
      assert forall i :: 0 < i < |chunk| ==> chunk[i] == chunk[1..][i - 1];
    }
  }

  lemma ToReadMeans(chunk: seq<nat>, rules: Rules, held: nat -> bool, had: seq<Interval>)
    requires Increasing(chunk)
    ensures ReadList(ToRead(chunk, rules, FoundWith(held, had)), chunk, rules, held, had)
  {
    hide Increasing, FoundWith;
    ToReadRight(chunk, rules, FoundWith(held, had));
    if rules.mapped {
      AloneAll(chunk, rules);
      AloneBelow(chunk, rules);
      RestMeans(chunk, Alone(chunk, rules), rules.firstMapped);
      NotFoundHolds(chunk[Alone(chunk, rules)..], KeptFound(rules, FoundWith(held, had)));
      FoundMeans(held, had);
    }
  }

  lemma FoundMeans(held: nat -> bool, had: seq<Interval>)
    ensures forall x :: FoundWith(held, had)(x) <==> held(x) || SlotCover.Covers(had, x)
  {
  }

  lemma RestMeans(chunk: seq<nat>, n: nat, floor: nat)
    requires n <= |chunk| && (forall i :: 0 <= i < n ==> chunk[i] < floor) && forall i :: n <= i < |chunk| ==> chunk[i] >= floor
    ensures forall x :: x in chunk[n..] <==> x in chunk && x >= floor
  {
    var rest := chunk[n..];
    forall x ensures x in rest <==> x in chunk && x >= floor {
      if x in chunk && x >= floor {
        var i :| 0 <= i < |chunk| && chunk[i] == x;
        assert rest[i - n] == x;
      }
      if x in rest {
        var i :| 0 <= i < |rest| && rest[i] == x;
        assert chunk[n + i] == x;
      }
    }
  }

  // Widened runs are read as whole clusters.
  lemma {:induction false} WidenedReads(widened: seq<MftRun>, perCluster: nat, floor: nat, n: nat)
    requires perCluster > 0 && WidenedRight(widened, perCluster, floor, n)
    requires forall k :: 0 <= k < |widened| ==> widened[k].firstSlot >= floor
    ensures forall k :: 0 <= k < |widened| ==> WholeClusters(IntervalsOf(widened)[k], perCluster, floor)
    ensures forall j, k :: 0 <= j < k < |widened| ==> widened[j].lastSlot + 1 < widened[k].firstSlot
  {
    if widened != [] {
      var m := |widened| - 1;
      var front, last := widened[..m], widened[m];
      WidenedReads(front, perCluster, floor, last.begin);
      OneWhole(last, perCluster, floor);
      forall k | 0 <= k < |widened| ensures WholeClusters(IntervalsOf(widened)[k], perCluster, floor) {
        if k < m { assert IntervalsOf(widened)[k] == IntervalsOf(front)[k]; }
      }
      forall j, k | 0 <= j < k < |widened| ensures widened[j].lastSlot + 1 < widened[k].firstSlot {
        if k == m && j < m - 1 { assert front[j].lastSlot + 1 < front[m - 1].firstSlot && widened[m - 1] == front[m - 1]; }
        if k < m { assert front[j] == widened[j] && front[k] == widened[k]; }
      }
    }
  }

  lemma OneWhole(r: MftRun, perCluster: nat, floor: nat)
    requires perCluster > 0 && Whole(r, perCluster, floor) && r.firstSlot >= floor
    ensures WholeClusters(SlotCover.Interval(r.firstSlot, r.lastSlot), perCluster, floor)
  {
    hide Aligned;
    AlignedEnds(r.lastSlot, perCluster);
    AlignedEnds(r.firstSlot, perCluster);
  }

  lemma AlignedEnds(x: nat, perCluster: nat)
    requires perCluster > 0
    ensures Aligned(x, perCluster) % perCluster == 0 && (Aligned(x, perCluster) + perCluster) % perCluster == 0
    ensures Aligned(x, perCluster) == x / perCluster * perCluster
  {
    AlignedUnit(x, perCluster);
    MultipleOf(x / perCluster, perCluster);
    MultipleOf(x / perCluster + 1, perCluster);
  }

  lemma MultipleOf(q: nat, perCluster: nat)
    requires perCluster > 0
    ensures (q * perCluster) % perCluster == 0
  {
    QuotientIs(q * perCluster, q, perCluster);
    FloorRest(q * perCluster, perCluster);
  }

  lemma FloorRest(x: nat, perCluster: nat)
    requires perCluster > 0
    ensures x == x / perCluster * perCluster + x % perCluster
  {
  }

  // What the widened runs cover, by cluster numbers.
  lemma ReachedCluster(runs: seq<MftRun>, perCluster: nat, floor: nat, x: nat)
    requires perCluster > 0 && forall k :: 0 <= k < |runs| ==> runs[k].firstSlot >= floor
    ensures Reached(runs, perCluster, floor, x) <==> InCluster(runs, x, perCluster, floor)
  {
    forall k | 0 <= k < |runs|
      ensures WidenedFirst(runs[k], perCluster, floor) <= x <= WidenedLast(runs[k], perCluster) <==> x >= floor && runs[k].firstSlot / perCluster <= x / perCluster <= runs[k].lastSlot / perCluster
    {
      WidenedHolds(runs[k], perCluster, floor, x);
    }
    hide WidenedFirst, WidenedLast;
  }

  lemma WidenedHolds(run: MftRun, perCluster: nat, floor: nat, x: nat)
    requires perCluster > 0 && run.firstSlot >= floor
    ensures WidenedFirst(run, perCluster, floor) <= x <= WidenedLast(run, perCluster) <==> x >= floor && run.firstSlot / perCluster <= x / perCluster <= run.lastSlot / perCluster
  {
    hide Aligned;
    AlignedEnds(run.firstSlot, perCluster);
    AlignedEnds(run.lastSlot, perCluster);
    FloorBounds(x, perCluster);
    QuotientOrder(run.firstSlot / perCluster, x, x / perCluster, perCluster);
    QuotientOrder(run.lastSlot / perCluster, x, x / perCluster, perCluster);
  }

  lemma CoveredIntervals(runs: seq<MftRun>, x: nat)
    ensures SlotCover.Covers(IntervalsOf(runs), x) <==> Covered(runs, x)
  {
    var intervals := IntervalsOf(runs);
    if SlotCover.Covers(intervals, x) {
      var k :| 0 <= k < |intervals| && intervals[k].Holds(x);
      assert runs[k].Covers(x);
    }
    if Covered(runs, x) {
      var k :| 0 <= k < |runs| && runs[k].Covers(x);
      assert intervals[k].Holds(x);
    }
  }

  // The runs of a list of mapped records are its reads.
  lemma ListIsRead(toRead: seq<nat>, rules: Rules)
    requires Increasing(toRead) && forall i :: 0 <= i < |toRead| ==> toRead[i] >= rules.firstMapped
    ensures ListRead(IntervalsOf(RunsFor(toRead, rules)), toRead, rules)
  {
    hide RunsTo, WidenAll, HoldsSlots, Increasing, InOrder, WidenedRight, Serves, Greedy, Reached, Covered, InCluster, WholeClusters, SlotCover.Covers, WidenedFrom;
    var plain, c, floor := RunsTo(toRead, rules.limits, |toRead|), rules.slotsPerCluster, rules.firstMapped;
    var runs := RunsFor(toRead, rules);
    RunsToServe(toRead, rules.limits, |toRead|);
    ServedInOrder(plain, toRead, rules.limits, |toRead|);
    if c >= 2 {
      WidenAllRight(plain, c, floor, |toRead|);
      NoneBelow(plain, c, floor);
      WidenedReads(runs, c, floor, |toRead|);
      CoversSame(runs, plain, c, floor);
    }
    assert ReadAs(IntervalsOf(runs), plain, rules);
    assert Grouped(toRead, plain, rules.limits);
  }

  // The runs of a chunk are its reads.
  lemma ChunkIsRead(chunk: seq<nat>, rules: Rules, held: nat -> bool, had: seq<Interval>)
    requires Increasing(chunk)
    ensures ChunkRead(IntervalsOf(RunsFor(ToRead(chunk, rules, FoundWith(held, had)), rules)), chunk, rules, held, had)
  {
    hide ToRead, RunsFor, ListRead, ReadList, Increasing;
    ToReadMeans(chunk, rules, held, had);
    ToReadRight(chunk, rules, FoundWith(held, had));
    ListIsRead(ToRead(chunk, rules, FoundWith(held, had)), rules);
  }

  // The runs read since were those of a chunk.
  ghost predicate ReadSince(before: seq<Interval>, ran: seq<Interval>, chunk: seq<nat>, rules: Rules, held: nat -> bool, had: seq<Interval>) {
    |before| <= |ran| && ran[..|before|] == before && ChunkRead(ran[|before|..], chunk, rules, held, had)
  }

  lemma ChunkReadSince(before: seq<Interval>, chunk: seq<nat>, rules: Rules, held: nat -> bool, had: seq<Interval>)
    requires Increasing(chunk)
    ensures ReadSince(before, before + IntervalsOf(RunsFor(ToRead(chunk, rules, FoundWith(held, had)), rules)), chunk, rules, held, had)
  {
    hide ToRead, RunsFor, ChunkRead, Increasing;
    ChunkIsRead(chunk, rules, held, had);
    var more := IntervalsOf(RunsFor(ToRead(chunk, rules, FoundWith(held, had)), rules));
    assert (before + more)[|before|..] == more;
  }

  lemma CoversSame(widened: seq<MftRun>, runs: seq<MftRun>, perCluster: nat, floor: nat)
    requires perCluster > 0 && WidenedFrom(widened, runs, perCluster, floor) && forall k :: 0 <= k < |runs| ==> runs[k].firstSlot >= floor
    ensures forall x: nat :: SlotCover.Covers(IntervalsOf(widened), x) <==> InCluster(runs, x, perCluster, floor)
  {
    hide SlotCover.Covers, Covered, Reached, InCluster;
    forall x: nat ensures SlotCover.Covers(IntervalsOf(widened), x) <==> InCluster(runs, x, perCluster, floor) {
      CoveredIntervals(widened, x);
      ReachedCluster(runs, perCluster, floor, x);
    }
  }

  // The reads of a list of records taken round by round.
  ghost predicate RoundsRead(pending: seq<nat>, round: nat, rules: Rules, held: nat -> bool, had: seq<Interval>, ran: seq<Interval>)
    requires round > 0
    decreases |pending|
  {
    if pending == [] then ran == had
    else exists batch :: NextRound(batch, pending, round, rules, held, had, ran)
  }

  ghost predicate NextRound(batch: seq<Interval>, pending: seq<nat>, round: nat, rules: Rules, held: nat -> bool, had: seq<Interval>, ran: seq<Interval>)
    requires round > 0 && pending != []
    decreases |pending|, 0
  {
    var n := Min(round, |pending|);
    ChunkRead(batch, pending[..n], rules, held, had) && RoundsRead(pending[n..], round, rules, held, had + batch, ran)
  }

  lemma {:induction false} RoundsAreRead(pending: seq<nat>, round: nat, rules: Rules, held: nat -> bool, had: seq<Interval>)
    requires round > 0 && Increasing(pending)
    ensures RoundsRead(pending, round, rules, held, had, AfterRounds(pending, round, rules, held, had))
    decreases |pending|
  {
    hide Increasing, ChunkRead, RunsFor, ToRead;
    if pending != [] {
      var n := Min(round, |pending|);
      PartIncreasing(pending, n);
      ChunkIsRead(pending[..n], rules, held, had);
      var batch := IntervalsOf(RunsFor(ToRead(pending[..n], rules, FoundWith(held, had)), rules));
      RoundsAreRead(pending[n..], round, rules, held, had + batch);
      assert NextRound(batch, pending, round, rules, held, had, AfterRounds(pending, round, rules, held, had));
    }
  }

  // And of all the groups, in order.
  ghost predicate GroupsRead(groups: seq<seq<nat>>, t: Tuning, rules: Rules, held: nat -> bool, ran: seq<Interval>)
    decreases |groups|, 1
  {
    if groups == [] then ran == []
    else exists had :: NextGroup(had, groups, t, rules, held, ran)
  }

  ghost predicate NextGroup(had: seq<Interval>, groups: seq<seq<nat>>, t: Tuning, rules: Rules, held: nat -> bool, ran: seq<Interval>)
    requires groups != []
    decreases |groups|, 0
  {
    var front := groups[..|groups| - 1];
    var known := Forgetting(t, AfterGroups(front, t, rules, held).known);
    GroupsRead(front, t, rules, held, had) && RoundsRead(Pending(groups[|groups| - 1], known), RoundOf(t), rules, held, had, ran)
  }

  lemma {:induction false} GroupsAreRead(groups: seq<seq<nat>>, t: Tuning, rules: Rules, held: nat -> bool)
    ensures GroupsRead(groups, t, rules, held, AfterGroups(groups, t, rules, held).ran)
  {
    hide AfterRounds, RoundsRead, Pending, Increasing;
    if groups != [] {
      var front, last := groups[..|groups| - 1], groups[|groups| - 1];
      var before := AfterGroups(front, t, rules, held);
      GroupsAreRead(front, t, rules, held);
      PendingHolds(last, Forgetting(t, before.known));
      RoundsAreRead(Pending(last, Forgetting(t, before.known)), RoundOf(t), rules, held, before.ran);
      assert NextGroup(before.ran, groups, t, rules, held, AfterGroups(groups, t, rules, held).ran);
    }
  }

  // With two slots or more in a cluster, every read is of whole clusters.
  ghost predicate AllWhole(ran: seq<Interval>, rules: Rules) {
    rules.slotsPerCluster >= 2 ==> forall k :: 0 <= k < |ran| ==> WholeClusters(ran[k], rules.slotsPerCluster, rules.firstMapped)
  }

  lemma {:induction false} RoundsAreWhole(pending: seq<nat>, round: nat, rules: Rules, held: nat -> bool, had: seq<Interval>, ran: seq<Interval>)
    requires round > 0 && AllWhole(had, rules) && RoundsRead(pending, round, rules, held, had, ran)
    ensures AllWhole(ran, rules)
    decreases |pending|
  {
    hide Grouped, ReadList, WholeClusters;
    if pending != [] {
      var batch :| NextRound(batch, pending, round, rules, held, had, ran);
      RoundsAreWhole(pending[Min(round, |pending|)..], round, rules, held, had + batch, ran);
    }
  }

  lemma {:induction false} GroupsAreWhole(groups: seq<seq<nat>>, t: Tuning, rules: Rules, held: nat -> bool, ran: seq<Interval>)
    requires GroupsRead(groups, t, rules, held, ran)
    ensures AllWhole(ran, rules)
  {
    hide RoundsRead, Pending, AllWhole;
    if groups != [] {
      var had :| NextGroup(had, groups, t, rules, held, ran);
      var front := groups[..|groups| - 1];
      GroupsAreWhole(front, t, rules, held, had);
      RoundsAreWhole(Pending(groups[|groups| - 1], Forgetting(t, AfterGroups(front, t, rules, held).known)), RoundOf(t), rules, held, had, ran);
    } else {
      NoneWhole(ran, rules);
    }
  }

  lemma NoneWhole(ran: seq<Interval>, rules: Rules)
    requires |ran| == 0
    ensures AllWhole(ran, rules)
  {
  }

  // A record that is read has its whole cluster read, as far as it is mapped.
  lemma ClusterRead(batch: seq<Interval>, chunk: seq<nat>, rules: Rules, held: nat -> bool, had: seq<Interval>, record: nat, x: nat)
    requires ChunkRead(batch, chunk, rules, held, had) && IsRead(record, chunk, rules, held, had) && rules.slotsPerCluster >= 2
    requires x >= rules.firstMapped && x / rules.slotsPerCluster == record / rules.slotsPerCluster
    ensures SlotCover.Covers(batch, x)
  {
    hide SlotCover.Covers, WholeClusters, Increasing, Greedy, Serves, HoldsSlots, InOrder;
    var toRead: seq<nat> :| ReadList(toRead, chunk, rules, held, had) && ListRead(batch, toRead, rules);
    var runs: seq<MftRun> :| Grouped(toRead, runs, rules.limits) && ReadAs(batch, runs, rules);
    ServedInOrder(runs, toRead, rules.limits, |toRead|);
    var i :| 0 <= i < |toRead| && toRead[i] == record;
    var k := ServedBy(runs, toRead, rules.limits, |toRead|, i);
    ServedHolds(runs, toRead, k, i);
    QuotientMonotone(runs[k].firstSlot, record, rules.slotsPerCluster);
    QuotientMonotone(record, runs[k].lastSlot, rules.slotsPerCluster);
  }

  lemma ServedHolds(runs: seq<MftRun>, slots: seq<nat>, k: nat, i: nat)
    requires HoldsSlots(runs, slots) && k < |runs| && runs[k].begin <= i < runs[k].end && i < |slots|
    ensures runs[k].Covers(slots[i])
  {
  }

  lemma {:induction false} ServedBy(runs: seq<MftRun>, slots: seq<nat>, l: RunLimits, n: nat, i: nat) returns (k: nat)
    requires Serves(runs, slots, l, n) && i < n
    ensures k < |runs| && runs[k].begin <= i < runs[k].end
  {
    k := |runs| - 1;
    if i < runs[k].begin { k := ServedBy(runs[..k], slots, l, runs[k].begin, i); }
  }
}
