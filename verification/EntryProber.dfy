// The prober of a directory walk: a memo of what each record named by an entry
// is, filled group by group with few reads of $MFT, which are the ones the
// planner foretells.
module EntryProber {
  import opened Prelude
  import opened MftRuns
  import opened ProbeRuns
  import SlotCover

  // What the probe of a record finds.
  datatype NamedState = NamedState(parsed: bool, deleted: bool, sequence: nat)

  // What a walk asks of its prober.
  datatype Ask = Probe(group: seq<nat>) | TakeOne(record: nat)

  function GroupsOf(asks: seq<Ask>): seq<seq<nat>> {
    if asks == [] then []
    else
      var last := asks[|asks| - 1];
      GroupsOf(asks[..|asks| - 1]) + if last.Probe? then [last.group] else []
  }

  // Each record taken is in the memo when it is taken.
  ghost predicate TakesHit(asks: seq<Ask>, t: Tuning, rules: Rules, held: nat -> bool) {
    asks == [] || (
      var front, last := asks[..|asks| - 1], asks[|asks| - 1];
      TakesHit(front, t, rules, held)
      && (last.TakeOne? ==> last.record in AfterGroups(GroupsOf(front), t, rules, held).known))
  }

  class EntryProber {
    const rules: Rules
    const tuning: Tuning
    // What the medium says of a record.
    const stateOf: nat -> NamedState
    // The records the store held at the start, and whether the reads succeed.
    const held: nat -> bool
    const readOk: Interval -> bool
    var known: map<nat, NamedState>
    // The runs read, in order, and those that the store keeps.
    var ran: seq<Interval>
    var kept: seq<Interval>

    // The memo agrees with the medium; with no failed read, the store keeps every
    // run.
    ghost predicate Valid()
      reads this
    {
      && (forall r :: r in known ==> known[r] == stateOf(r))
      && (AllRead() ==> kept == if rules.keeps then ran else [])
    }

    ghost predicate AllRead() {
      forall run :: readOk(run)
    }

    constructor (rules: Rules, tuning: Tuning, stateOf: nat -> NamedState, held: nat -> bool, readOk: Interval -> bool)
      ensures Valid() && known == map[] && ran == []
      ensures this.rules == rules && this.tuning == tuning && this.stateOf == stateOf && this.held == held && this.readOk == readOk
    {
      this.rules, this.tuning, this.stateOf, this.held, this.readOk := rules, tuning, stateOf, held, readOk;
      known, ran, kept := map[], [], [];
    }

    // Probes one record into the memo.
    method ProbeOne(record: nat)
      requires Valid()
      modifies this`known
      ensures Valid() && known.Keys == old(known).Keys + {record}
    {
      known := known[record := stateOf(record)];
    }

    // Probes the records [from, end) of a list into the memo.
    method ProbeAll(records: seq<nat>, from: nat, end: nat)
      requires Valid() && from <= end <= |records|
      modifies this`known
      ensures Valid() && known.Keys == old(known).Keys + SetOf(records[from..end])
    {
      NoRecords(records, from);
      for i := from to end
        invariant Valid() && known.Keys == old(known).Keys + SetOf(records[from..i])
      {
        ProbeOne(records[i]);
        assert records[from..i + 1] == records[from..i] + [records[i]];
      }
    }

    // The records of a chunk that the store does not give; those it gives are
    // probed from its bytes.
    method Unheld(chunk: seq<nat>, alone: nat) returns (toRead: seq<nat>)
      requires Valid() && rules.mapped && alone == Alone(chunk, rules)
      modifies this`known
      ensures Valid() && toRead == ToRead(chunk, rules, FoundWith(held, kept))
      ensures known.Keys + SetOf(toRead) == old(known).Keys + SetOf(chunk[alone..])
    {
      hide SetOf;
      hide SlotCover.Covers;
      hide FoundWith;
      var rest := chunk[alone..];
      var found := FoundWith(held, kept);
      toRead := [];
      NothingRead(rest, old(known).Keys);
      for i := 0 to |rest|
        invariant Valid()
        invariant toRead == NotFound(rest[..i], KeptFound(rules, found))
        invariant known.Keys + SetOf(toRead) == old(known).Keys + SetOf(rest[..i])
      {
        assert rest[..i + 1] == rest[..i] + [rest[i]] && rest[..i + 1][..i] == rest[..i];
        OneMoreOf(rest[..i], rest[i]);
        OneMoreOf(toRead, rest[i]);
        if rules.keeps && found(rest[i]) {
          ProbeOne(rest[i]);
        } else {
          toRead := toRead + [rest[i]];
        }
      }
      assert rest[..|rest|] == rest;
    }

    // Reads one run, and probes the records it reads for.
    method ReadRun(run: MftRun, toRead: seq<nat>)
      requires Valid() && run.begin <= run.end <= |toRead|
      modifies this`known, this`ran, this`kept
      ensures Valid() && ran == old(ran) + IntervalsOf([run])
      ensures known.Keys == old(known).Keys + SetOf(toRead[run.begin..run.end])
    {
      var slots := SlotCover.Interval(run.firstSlot, run.lastSlot);
      assert IntervalsOf([run]) == [slots];
      var read := readOk(slots);
      if read && rules.keeps {
        kept := kept + [slots];
      }
      ran := ran + [slots];
      ProbeAll(toRead, run.begin, run.end);
    }

    // Probes the sorted, distinct records of a chunk: plans the reads, then makes
    // them.
    method ProbeChunk(chunk: seq<nat>)
      requires Valid() && Increasing(chunk)
      modifies this`known, this`ran, this`kept
      ensures Valid() && known.Keys == old(known).Keys + SetOf(chunk)
      // The reads are those of the plan.
      ensures AllRead() ==> ran == AfterChunk(chunk, rules, held, old(ran))
      // Failed or not, they read the records that are not found, in whole clusters.
      ensures ReadSince(old(ran), ran, chunk, rules, held, old(kept))
    {
      hide ReadSince;
      ChunkReadSince(ran, chunk, rules, held, kept);
      hide SetOf;
      hide RunsFor;
      hide ToRead;
      hide Increasing;
      hide Alone;
      var alone := FirstMapped(chunk, rules);
      var toRead: seq<nat>, runs: seq<MftRun> := [], [];
      if rules.mapped {
        toRead := Unheld(chunk, alone);
        ChunkRunsRight(chunk, rules, FoundWith(held, kept));
        runs := PlanRuns(toRead, rules);
        RunsCoverAll(toRead, rules);
      } else {
        NothingMapped(chunk, rules, FoundWith(held, ran));
        NoRecords(chunk, alone);
        NoneMapped(chunk, rules);
      }
      SameFound(chunk, rules, held, kept, ran, AllRead());
      ghost var unheld := known.Keys;
      ProbeAll(chunk, 0, alone);
      ReadRuns(runs, toRead);
      SplitAt(chunk, alone);
      KeysAddUp(old(known).Keys, unheld, SetOf(chunk[alone..]), SetOf(toRead), SetOf(chunk[0..alone]));
    }

    // Reads the runs of a chunk, and probes the records they serve.
    method ReadRuns(runs: seq<MftRun>, toRead: seq<nat>)
      requires Valid() && Tiles(runs, |toRead|) && Served(runs, toRead) == SetOf(toRead)
      modifies this`known, this`ran, this`kept
      ensures Valid() && ran == old(ran) + IntervalsOf(runs)
      ensures known.Keys == old(known).Keys + SetOf(toRead)
    {
      hide SetOf;
      hide Tiles;
      NoIntervals(runs, ran);
      NoServed(runs, toRead, known.Keys);
      for k := 0 to |runs|
        invariant Valid() && ran == old(ran) + IntervalsOf(runs[..k])
        invariant known.Keys == old(known).Keys + Served(runs[..k], toRead)
      {
        assert runs[..k + 1] == runs[..k] + [runs[k]] && runs[..k + 1][..k] == runs[..k];
        TilesBounds(runs, |toRead|, k);
        ReadRun(runs[k], toRead);
        assert old(ran) + IntervalsOf(runs[..k]) + IntervalsOf([runs[k]]) == old(ran) + IntervalsOf(runs[..k + 1]);
      }
      assert runs[..|runs|] == runs;
    }

    // Probes the records of a group that the memo does not hold, in rounds.
    method ProbeGroup(records: seq<nat>)
      requires Valid()
      modifies this
      ensures Valid() && known.Keys == Forgetting(tuning, old(known).Keys) + SetOf(Pending(records, Forgetting(tuning, old(known).Keys)))
      ensures AllRead() ==> Probing(known.Keys, ran) == AfterGroup(records, tuning, rules, held, Probing(old(known).Keys, old(ran)))
    {
      hide SetOf;
      hide AfterChunk;
      hide Increasing;
      hide Sort;
      hide Unique;
      hide NotFound;
      KeysCount(known);
      if |known| >= tuning.maxKnown {
        known := map[];
      }
      assert known.Keys == Forgetting(tuning, old(known).Keys);
      var pending := Unknown(records);
      ghost var start := known.Keys;
      PendingHolds(records, start);
      ProbeRounds(pending);
    }

    // Probes sorted, distinct records, round by round.
    method ProbeRounds(pending: seq<nat>)
      requires Valid() && Increasing(pending)
      modifies this`known, this`ran, this`kept
      ensures Valid() && known.Keys == old(known).Keys + SetOf(pending)
      ensures AllRead() ==> ran == AfterRounds(pending, RoundOf(tuning), rules, held, old(ran))
    {
      hide SetOf;
      hide AfterChunk;
      hide Increasing;
      var round := RoundOf(tuning);
      var left := pending;
      while left != []
        invariant Valid() && Increasing(left)
        invariant known.Keys + SetOf(left) == old(known).Keys + SetOf(pending)
        invariant AllRead() ==> AfterRounds(pending, round, rules, held, old(ran)) == AfterRounds(left, round, rules, held, ran)
        decreases |left|
      {
        var n := Min(round, |left|);
        PartIncreasing(left, n);
        SplitAt(left, n);
        ProbeChunk(left[..n]);
        left := left[n..];
      }
      NoneLeft(known.Keys);
    }

    // The records that the memo does not hold, sorted, each once.
    method Unknown(records: seq<nat>) returns (pending: seq<nat>)
      ensures pending == Pending(records, known.Keys)
    {
      pending := [];
      for i := 0 to |records|
        invariant pending == NotFound(records[..i], KnownTo(known.Keys))
      {
        assert records[..i + 1][..i] == records[..i];
        if records[i] !in known {
          pending := pending + [records[i]];
        }
      }
      assert records[..|records|] == records;
      pending := Unique(Sort(pending, AtMost));
    }

    // The state of a record, probed now when the memo does not hold it.
    method Take(record: nat) returns (state: NamedState)
      requires Valid()
      modifies this
      ensures Valid() && state == stateOf(record)
      ensures record in old(known) ==> known == old(known) && ran == old(ran) && kept == old(kept)
      ensures known.Keys == old(known).Keys + {record}
    {
      if record !in known {
        ProbeChunk([record]);
      }
      assert record in [record];
      return known[record];
    }

    // A walk over the groups and the entries of a directory.
    method Walk(asks: seq<Ask>)
      requires Valid() && known == map[] && ran == []
      modifies this
      ensures Valid()
      // With no failed read, and no record missed when it is taken, the runs read
      // are those foretold for the groups alone.
      ensures AllRead() && TakesHit(asks, tuning, rules, held) ==> Probing(known.Keys, ran) == AfterGroups(GroupsOf(asks), tuning, rules, held)
      ensures AllRead() && TakesHit(asks, tuning, rules, held) ==> GroupsRead(GroupsOf(asks), tuning, rules, held, ran) && AllWhole(ran, rules)
    {
      hide AfterGroup, GroupsRead, AllWhole;
      GroupsAreRead(GroupsOf(asks), tuning, rules, held);
      GroupsAreWhole(GroupsOf(asks), tuning, rules, held, AfterGroups(GroupsOf(asks), tuning, rules, held).ran);
      for i := 0 to |asks|
        invariant Valid()
        invariant AllRead() && TakesHit(asks[..i], tuning, rules, held) ==> Probing(known.Keys, ran) == AfterGroups(GroupsOf(asks[..i]), tuning, rules, held)
      {
        NextAsk(asks, i, tuning, rules, held);
        match asks[i]
        case Probe(group) => ProbeGroup(group);
        case TakeOne(record) =>
          var state := Take(record);
      }
      assert asks[..|asks|] == asks;
    }
  }

  lemma NextAsk(asks: seq<Ask>, i: nat, t: Tuning, rules: Rules, held: nat -> bool)
    requires i < |asks|
    ensures TakesHit(asks[..i + 1], t, rules, held) ==> TakesHit(asks[..i], t, rules, held)
    ensures TakesHit(asks[..i + 1], t, rules, held) && asks[i].TakeOne? ==>
      asks[i].record in AfterGroups(GroupsOf(asks[..i]), t, rules, held).known && GroupsOf(asks[..i + 1]) == GroupsOf(asks[..i])
    ensures asks[i].Probe? ==>
      AfterGroups(GroupsOf(asks[..i + 1]), t, rules, held)
      == AfterGroup(asks[i].group, t, rules, held, AfterGroups(GroupsOf(asks[..i]), t, rules, held))
  {
    hide AfterGroup;
    assert asks[..i + 1][..i] == asks[..i];
    if asks[i].Probe? {
      var groups := GroupsOf(asks[..i + 1]);
      assert groups[..|groups| - 1] == GroupsOf(asks[..i]);
    } else {
      assert GroupsOf(asks[..i]) + [] == GroupsOf(asks[..i]);
    }
  }

  // -------------------------------------------------------------------------
  // When the memo forgets
  // -------------------------------------------------------------------------

  ghost function RecordsIn(groups: seq<seq<nat>>): set<nat> {
    if groups == [] then {} else RecordsIn(groups[..|groups| - 1]) + SetOf(groups[|groups| - 1])
  }

  // While the records met before the last group are fewer than the memo may hold,
  // it holds every record met.
  lemma {:induction false} NothingForgotten(groups: seq<seq<nat>>, t: Tuning, rules: Rules, held: nat -> bool)
    requires groups != [] ==> |RecordsIn(groups[..|groups| - 1])| < t.maxKnown
    ensures AfterGroups(groups, t, rules, held).known == RecordsIn(groups)
  {
    hide AfterRounds;
    hide Pending;
    if groups != [] {
      var front, last := groups[..|groups| - 1], groups[|groups| - 1];
      if front != [] {
        FewerIn(front);
      }
      NothingForgotten(front, t, rules, held);
      PendingAdds(last, RecordsIn(front));
      hide SetOf;
    }
  }

  lemma PendingAdds(group: seq<nat>, known: set<nat>)
    ensures known + SetOf(Pending(group, known)) == known + SetOf(group)
  {
    PendingHolds(group, known);
    hide Pending;
  }

  lemma FewerIn(groups: seq<seq<nat>>)
    requires groups != []
    ensures |RecordsIn(groups[..|groups| - 1])| <= |RecordsIn(groups)|
  {
    SmallerSet(RecordsIn(groups[..|groups| - 1]), RecordsIn(groups));
  }

  // Each record taken was named by a group before.
  ghost predicate TakesNamed(asks: seq<Ask>) {
    asks == [] || (
      var front, last := asks[..|asks| - 1], asks[|asks| - 1];
      TakesNamed(front) && (last.TakeOne? ==> last.record in RecordsIn(GroupsOf(front))))
  }

  // A walk that names fewer records than the memo may hold reads what the planner
  // foretells.
  lemma {:induction false} SmallWalkHits(asks: seq<Ask>, t: Tuning, rules: Rules, held: nat -> bool)
    requires TakesNamed(asks) && |RecordsIn(GroupsOf(asks))| < t.maxKnown
    ensures TakesHit(asks, t, rules, held)
  {
    if asks != [] {
      var front, last := asks[..|asks| - 1], asks[|asks| - 1];
      var groups := GroupsOf(asks);
      if last.Probe? {
        assert groups[..|groups| - 1] == GroupsOf(front);
        FewerIn(groups);
      } else {
        assert GroupsOf(front) + [] == GroupsOf(front);
      }
      SmallWalkHits(front, t, rules, held);
      if GroupsOf(front) != [] { FewerIn(GroupsOf(front)); }
      NothingForgotten(GroupsOf(front), t, rules, held);
    }
  }

  // A memo of one record forgets what it held when it takes a group.
  lemma OnlyTheLast(groups: seq<seq<nat>>, record: nat, t: Tuning, rules: Rules, held: nat -> bool)
    requires groups != [] && groups[|groups| - 1] == [record] && t.maxKnown == 1
    requires AfterGroups(groups[..|groups| - 1], t, rules, held).known == {} || |AfterGroups(groups[..|groups| - 1], t, rules, held).known| == 1
    ensures AfterGroups(groups, t, rules, held).known == {record}
  {
    hide AfterRounds;
    hide Pending;
    PendingHolds([record], {});
    var pending := Pending([record], {});
    assert SetOf(pending) == {record};
  }

  // The bound cannot be dropped: with room for one record, the first of two groups
  // is forgotten, and missed when it is taken.
  lemma ForgottenIsMissed(first: nat, second: nat, rules: Rules, held: nat -> bool)
    requires first != second
    ensures !TakesHit([Probe([first]), Probe([second]), TakeOne(first)], Tuning(1, 1), rules, held)
  {
    hide AfterGroups;
    var t := Tuning(1, 1);
    var asks := [Probe([first]), Probe([second]), TakeOne(first)];
    var one, two := [[first]], [[first], [second]];
    assert two[..1] == one && one[..0] == [];
    NothingForgotten(one[..0], t, rules, held);
    OnlyTheLast(one, first, t, rules, held);
    OnlyTheLast(two, second, t, rules, held);
    TwoGroups(asks[..2], first, second);
  }

  lemma TwoGroups(asks: seq<Ask>, first: nat, second: nat)
    requires |asks| == 2 && asks[0] == Probe([first]) && asks[1] == Probe([second])
    ensures GroupsOf(asks) == [[first], [second]]
  {
    assert asks[..1][..0] == [] && GroupsOf(asks[..1]) == [[first]];
  }

  // -------------------------------------------------------------------------
  // The records a chunk probes
  // -------------------------------------------------------------------------

  lemma NoRecords(records: seq<nat>, at: nat)
    requires at <= |records|
    ensures SetOf(records[at..at]) == {}
  {
  }

  lemma OneMoreOf(list: seq<nat>, x: nat)
    ensures SetOf(list + [x]) == SetOf(list) + {x}
  {
  }

  lemma KeysAddUp(k0: set<nat>, k1: set<nat>, rest: set<nat>, toRead: set<nat>, alone: set<nat>)
    requires k1 + toRead == k0 + rest
    ensures k1 + alone + toRead == k0 + (alone + rest)
  {
    assert k1 + alone + toRead == (k1 + toRead) + alone;
  }

  lemma NoneLeft(keys: set<nat>)
    ensures keys + SetOf([]) == keys
  {
  }

  lemma KeysCount(known: map<nat, NamedState>)
    ensures |known.Keys| == |known|
  {
  }

  lemma NothingRead(rest: seq<nat>, keys: set<nat>)
    ensures keys + SetOf([]) == keys + SetOf(rest[..0])
  {
  }

  lemma SplitAt(records: seq<nat>, at: nat)
    requires at <= |records|
    ensures SetOf(records) == SetOf(records[0..at]) + SetOf(records[at..])
    ensures records[..at] == records[0..at]
  {
    assert records == records[0..at] + records[at..];
  }

  // The records that runs serve.
  ghost function Served(runs: seq<MftRun>, toRead: seq<nat>): set<nat> {
    if runs == [] then {}
    else
      var last := runs[|runs| - 1];
      Served(runs[..|runs| - 1], toRead) + if last.begin <= last.end <= |toRead| then SetOf(toRead[last.begin..last.end]) else {}
  }

  // The runs serve the first n places, in order.
  ghost predicate Tiles(runs: seq<MftRun>, n: nat) {
    if runs == [] then n == 0
    else
      var last := runs[|runs| - 1];
      last.begin < last.end == n && Tiles(runs[..|runs| - 1], last.begin)
  }

  lemma {:induction false} TilesServe(runs: seq<MftRun>, toRead: seq<nat>, n: nat)
    requires Tiles(runs, n) && n <= |toRead|
    ensures Served(runs, toRead) == SetOf(toRead[..n])
  {
    if runs != [] {
      var last := runs[|runs| - 1];
      TilesServe(runs[..|runs| - 1], toRead, last.begin);
      assert toRead[..n] == toRead[..last.begin] + toRead[last.begin..n];
    }
  }

  lemma {:induction false} TilesBounds(runs: seq<MftRun>, n: nat, k: nat)
    requires Tiles(runs, n) && k < |runs|
    ensures runs[k].begin < runs[k].end <= n
  {
    if k < |runs| - 1 {
      TilesBounds(runs[..|runs| - 1], runs[|runs| - 1].begin, k);
    }
  }

  lemma {:induction false} InOrderTiles(runs: seq<MftRun>, n: nat)
    requires InOrder(runs, n)
    ensures Tiles(runs, n)
  {
    if runs != [] {
      InOrderTiles(runs[..|runs| - 1], runs[|runs| - 1].begin);
    }
  }

  lemma {:induction false} WidenedTiles(runs: seq<MftRun>, perCluster: nat, floor: nat, n: nat)
    requires perCluster > 0 && WidenedRight(runs, perCluster, floor, n)
    ensures Tiles(runs, n)
  {
    if runs != [] {
      WidenedTiles(runs[..|runs| - 1], perCluster, floor, runs[|runs| - 1].begin);
    }
  }

  // The runs of a list of records serve all of it.
  lemma RunsCoverAll(toRead: seq<nat>, rules: Rules)
    requires Increasing(toRead)
    ensures Tiles(RunsFor(toRead, rules), |toRead|) && Served(RunsFor(toRead, rules), toRead) == SetOf(toRead)
  {
    hide RunsTo;
    hide WidenAll;
    hide Increasing;
    hide Tiles;
    hide Served;
    hide InOrder;
    hide WidenedRight;
    hide HoldsSlots;
    hide Serves;
    hide Greedy;
    hide WidenedFrom;
    var plain := RunsTo(toRead, rules.limits, |toRead|);
    RunsToServe(toRead, rules.limits, |toRead|);
    ServedInOrder(plain, toRead, rules.limits, |toRead|);
    InOrderTiles(plain, |toRead|);
    if rules.slotsPerCluster >= 2 {
      WidenAllRight(plain, rules.slotsPerCluster, rules.firstMapped, |toRead|);
      WidenedTiles(WidenAll(plain, rules.slotsPerCluster, rules.firstMapped), rules.slotsPerCluster, rules.firstMapped, |toRead|);
    }
    TilesServe(RunsFor(toRead, rules), toRead, |toRead|);
    assert toRead[..|toRead|] == toRead;
  }

  lemma NothingMapped(chunk: seq<nat>, rules: Rules, found: nat -> bool)
    requires !rules.mapped
    ensures ToRead(chunk, rules, found) == [] && RunsFor([], rules) == [] && Tiles([], 0)
    ensures Served([], []) == SetOf([]) == SetOf(chunk[|chunk|..])
  {
  }

  lemma {:induction false} NoneMapped(chunk: seq<nat>, rules: Rules)
    requires !rules.mapped
    ensures Alone(chunk, rules) == |chunk|
  {
    if chunk != [] {
      NoneMapped(chunk[1..], rules);
    }
  }

  // With no failed read, the store finds what the runs read.
  lemma SameFound(chunk: seq<nat>, rules: Rules, held: nat -> bool, kept: seq<Interval>, ran: seq<Interval>, all: bool)
    requires all ==> kept == if rules.keeps then ran else []
    ensures all ==> ToRead(chunk, rules, FoundWith(held, kept)) == ToRead(chunk, rules, FoundWith(held, ran))
  {
    if all && rules.mapped {
      NotFoundSame(chunk[Alone(chunk, rules)..], KeptFound(rules, FoundWith(held, kept)), KeptFound(rules, FoundWith(held, ran)));
    }
  }

  lemma NoIntervals(runs: seq<MftRun>, ran: seq<Interval>)
    ensures ran + IntervalsOf(runs[..0]) == ran
  {
  }

  lemma NoServed(runs: seq<MftRun>, toRead: seq<nat>, keys: set<nat>)
    ensures keys + Served(runs[..0], toRead) == keys
  {
  }
}
