// The plans of the standing lane as values: their runs, named by directory and
// place, the unread runs of a chain of plans, and what it means for a list of
// runs to be on the lane.
module LanePlans {
  import opened Prelude

  datatype RunState = Waiting | Announced | Done

  // A probe run of a plan. The records it reads for are wanted[wantedBegin..wantedEnd].
  datatype PlannedRun = PlannedRun(firstSlot: nat, count: nat, stamp: nat, wantedBegin: nat, wantedEnd: nat, state: RunState)

  // The probe runs of one directory, in the order they are read. Those before
  // cursor are Done.
  datatype Plan = Plan(runs: seq<PlannedRun>, wanted: seq<nat>, cursor: nat)

  type Plans = map<nat, Plan>

  // A run of a plan, as the lane points to it.
  datatype RunRef = RunRef(dir: nat, index: nat)

  predicate Has(p: Plans, r: RunRef) {
    r.dir in p && r.index < |p[r.dir].runs|
  }

  function At(p: Plans, r: RunRef): PlannedRun
    requires Has(p, r)
  {
    p[r.dir].runs[r.index]
  }

  predicate IsLive(p: Plans, r: RunRef) {
    Has(p, r) && At(p, r).state != Done
  }

  predicate IsAnnounced(p: Plans, r: RunRef) {
    Has(p, r) && At(p, r).state == Announced
  }

  ghost predicate PlanRight(plan: Plan) {
    && plan.cursor <= |plan.runs|
    && (forall i :: 0 <= i < |plan.runs| ==> plan.runs[i].count > 0 && plan.runs[i].wantedBegin <= plan.runs[i].wantedEnd <= |plan.wanted|)
    && (forall i :: 0 <= i < plan.cursor ==> plan.runs[i].state == Done)
  }

  ghost predicate PlansRight(p: Plans) {
    forall d :: d in p ==> PlanRight(p[d])
  }

  // The run at r, replaced.
  function SetRun(p: Plans, r: RunRef, run: PlannedRun): Plans
    requires Has(p, r)
  {
    p[r.dir := p[r.dir].(runs := p[r.dir].runs[r.index := run])]
  }

  // The same runs of the same plans, whatever their states and stamps.
  predicate SameRun(a: PlannedRun, b: PlannedRun) {
    a.firstSlot == b.firstSlot && a.count == b.count && a.wantedBegin == b.wantedBegin && a.wantedEnd == b.wantedEnd
  }

  predicate SameRuns(a: Plan, b: Plan) {
    && |a.runs| == |b.runs| && a.wanted == b.wanted
    && (forall i :: 0 <= i < |a.runs| ==> SameRun(a.runs[i], b.runs[i]))
  }

  // A run that is done stays done.
  predicate Onward(a: Plan, b: Plan) {
    && SameRuns(a, b)
    && (forall i :: 0 <= i < |a.runs| && a.runs[i].state == Done ==> b.runs[i].state == Done)
  }

  predicate AllOnward(p: Plans, q: Plans) {
    p.Keys == q.Keys && forall d :: d in p ==> Onward(p[d], q[d])
  }

  lemma OnwardTwice(p: Plans, q: Plans, r: Plans)
    requires AllOnward(p, q) && AllOnward(q, r)
    ensures AllOnward(p, r)
  {
    forall d | d in p ensures Onward(p[d], r[d]) {
      assert Onward(p[d], q[d]) && Onward(q[d], r[d]);
      forall i | 0 <= i < |p[d].runs| ensures SameRun(p[d].runs[i], r[d].runs[i]) {
        assert SameRun(p[d].runs[i], q[d].runs[i]) && SameRun(q[d].runs[i], r[d].runs[i]);
      }
    }
  }

  // One run changed, its place and size kept.
  lemma SetRunMeans(p: Plans, r: RunRef, run: PlannedRun)
    requires Has(p, r) && SameRun(At(p, r), run) && (At(p, r).state == Done ==> run.state == Done)
    ensures var q := SetRun(p, r, run);
      && AllOnward(p, q)
      && (forall o: RunRef :: Has(q, o) <==> Has(p, o))
      && (forall o: RunRef :: Has(p, o) ==> At(q, o) == if o == r then run else At(p, o))
      && (PlansRight(p) ==> PlansRight(q))
      && (forall d :: d in p ==> q[d].cursor == p[d].cursor)
  {
    var q := SetRun(p, r, run);
    hide PlanRight;
    if PlansRight(p) {
      SetRunRight(p[r.dir], r.index, run);
    }
  }

  lemma SetRunRight(plan: Plan, i: nat, run: PlannedRun)
    requires i < |plan.runs| && PlanRight(plan) && SameRun(plan.runs[i], run) && (plan.runs[i].state == Done ==> run.state == Done)
    ensures PlanRight(plan.(runs := plan.runs[i := run]))
  {
  }

  // -------------------------------------------------------------------------
  // The runs of a chain of plans
  // -------------------------------------------------------------------------

  function RunsFrom(dir: nat, from: nat, n: nat): seq<RunRef>
    decreases n - from
  {
    if from >= n then [] else [RunRef(dir, from)] + RunsFrom(dir, from + 1, n)
  }

  function RunCount(p: Plans, dir: nat): nat {
    if dir in p then |p[dir].runs| else 0
  }

  // The runs of the chain from run from of plan k on, in order.
  function Refs(p: Plans, chain: seq<nat>, k: nat, from: nat): seq<RunRef>
    decreases |chain| - k
  {
    if k >= |chain| then [] else RunsFrom(chain[k], from, RunCount(p, chain[k])) + Refs(p, chain, k + 1, 0)
  }

  // Those of a list that are not done, in order.
  function Live(p: Plans, refs: seq<RunRef>): seq<RunRef> {
    if refs == [] then [] else Live(p, refs[..|refs| - 1]) + if IsLive(p, refs[|refs| - 1]) then [refs[|refs| - 1]] else []
  }

  // The unread runs of the chain, as a fresh walk meets them.
  function Unread(p: Plans, chain: seq<nat>): seq<RunRef> {
    Live(p, Refs(p, chain, 0, 0))
  }

  function Take(refs: seq<RunRef>, n: nat): seq<RunRef> {
    if |refs| <= n then refs else refs[..n]
  }

  lemma {:induction false} LiveAdded(p: Plans, a: seq<RunRef>, b: seq<RunRef>)
    ensures Live(p, a + b) == Live(p, a) + Live(p, b)
  {
    if b == [] {
      assert a + b == a;
    } else {
      LiveAdded(p, a, b[..|b| - 1]);
      assert (a + b)[..|a + b| - 1] == a + b[..|b| - 1];
    }
  }

  lemma {:induction false} LiveHolds(p: Plans, a: seq<RunRef>)
    ensures forall r :: r in Live(p, a) <==> r in a && IsLive(p, r)
    ensures |Live(p, a)| <= |a|
  {
    if a != [] {
      LiveHolds(p, a[..|a| - 1]);
      assert a == a[..|a| - 1] + [a[|a| - 1]];
    }
  }

  // Filtering by what is live later makes what was live before no matter.
  lemma {:induction false} LiveLater(p: Plans, q: Plans, a: seq<RunRef>)
    requires forall r :: IsLive(q, r) ==> IsLive(p, r)
    ensures Live(q, Live(p, a)) == Live(q, a)
  {
    if a != [] {
      var front, last := a[..|a| - 1], a[|a| - 1];
      LiveLater(p, q, front);
      LiveAdded(q, Live(p, front), if IsLive(p, last) then [last] else []);
      LiveOne(q, last);
    }
  }

  lemma LiveOne(p: Plans, r: RunRef)
    ensures Live(p, [r]) == if IsLive(p, r) then [r] else []
    ensures Live(p, []) == []
  {
    assert [r][..0] == [];
  }

  lemma {:induction false} LiveSame(p: Plans, q: Plans, a: seq<RunRef>)
    requires forall r :: IsLive(q, r) <==> IsLive(p, r)
    ensures Live(q, a) == Live(p, a)
  {
    if a != [] {
      LiveSame(p, q, a[..|a| - 1]);
    }
  }

  lemma {:induction false} AllLive(p: Plans, a: seq<RunRef>)
    requires forall k :: 0 <= k < |a| ==> IsLive(p, a[k])
    ensures Live(p, a) == a
  {
    if a != [] {
      AllLive(p, a[..|a| - 1]);
      assert a == a[..|a| - 1] + [a[|a| - 1]];
    }
  }

  lemma {:induction false} NoneLive(p: Plans, dir: nat, from: nat, to_: nat, n: nat)
    requires dir in p && from <= to_ <= n && n == |p[dir].runs|
    requires forall i :: from <= i < to_ ==> p[dir].runs[i].state == Done
    ensures Live(p, RunsFrom(dir, from, n)) == Live(p, RunsFrom(dir, to_, n))
    decreases to_ - from
  {
    if from < to_ {
      NoneLive(p, dir, from + 1, to_, n);
      LiveAdded(p, [RunRef(dir, from)], RunsFrom(dir, from + 1, n));
      LiveOne(p, RunRef(dir, from));
      assert RunsFrom(dir, from, n) == [RunRef(dir, from)] + RunsFrom(dir, from + 1, n);
    }
  }

  lemma {:induction false} RefsSame(p: Plans, q: Plans, chain: seq<nat>, k: nat, from: nat)
    requires forall d :: RunCount(p, d) == RunCount(q, d)
    ensures Refs(p, chain, k, from) == Refs(q, chain, k, from)
    decreases |chain| - k
  {
    if k < |chain| {
      RefsSame(p, q, chain, k + 1, 0);
    }
  }

  lemma {:induction false} RunsFromHolds(p: Plans, dir: nat, from: nat, n: nat)
    requires n == RunCount(p, dir)
    ensures forall r :: r in RunsFrom(dir, from, n) ==> Has(p, r)
    decreases n - from
  {
    if from < n {
      RunsFromHolds(p, dir, from + 1, n);
    }
  }

  lemma {:induction false} RefsHold(p: Plans, chain: seq<nat>, k: nat, from: nat)
    ensures forall r :: r in Refs(p, chain, k, from) ==> Has(p, r)
    decreases |chain| - k
  {
    if k < |chain| {
      RefsHold(p, chain, k + 1, 0);
      RunsFromHolds(p, chain[k], from, RunCount(p, chain[k]));
    }
  }

  // The plans a zone is taken from: that of the directory being listed, then
  // those of the order.
  function Chain(p: Plans, order: seq<nat>, current: Option<nat>): seq<nat> {
    (if current.Some? && current.value in p then [current.value] else []) + Planned(p, order, current)
  }

  function Planned(p: Plans, order: seq<nat>, current: Option<nat>): seq<nat> {
    if order == [] then []
    else
      var last := order[|order| - 1];
      Planned(p, order[..|order| - 1], current) + if Some(last) != current && last in p then [last] else []
  }

  lemma PlannedMore(p: Plans, order: seq<nat>, i: nat, current: Option<nat>)
    requires i < |order|
    ensures Planned(p, order[..i + 1], current) == Planned(p, order[..i], current) + if Some(order[i]) != current && order[i] in p then [order[i]] else []
  {
    assert order[..i + 1][..i] == order[..i];
  }

  lemma NonePlanned(p: Plans, order: seq<nat>, current: Option<nat>)
    ensures Planned(p, order[..0], current) == []
  {
  }

  lemma {:induction false} PlannedIn(p: Plans, order: seq<nat>, current: Option<nat>)
    ensures forall d :: d in Planned(p, order, current) ==> d in p
  {
    if order != [] {
      PlannedIn(p, order[..|order| - 1], current);
    }
  }

  lemma {:induction false} PlannedSame(p: Plans, q: Plans, order: seq<nat>, current: Option<nat>)
    requires p.Keys == q.Keys
    ensures Planned(p, order, current) == Planned(q, order, current)
  {
    if order != [] {
      PlannedSame(p, q, order[..|order| - 1], current);
      assert order[|order| - 1] in p <==> order[|order| - 1] in q;
    }
  }

  lemma ChainSame(p: Plans, q: Plans, order: seq<nat>, current: Option<nat>)
    requires p.Keys == q.Keys
    ensures Chain(p, order, current) == Chain(q, order, current)
  {
    PlannedSame(p, q, order, current);
    assert current.Some? ==> (current.value in p <==> current.value in q);
  }

  // -------------------------------------------------------------------------
  // What a chain and its first runs are
  // -------------------------------------------------------------------------

  // One value stands before another in a list.
  ghost predicate ComesBefore(list: seq<nat>, x: nat, y: nat) {
    exists m, n :: 0 <= m < n < |list| && list[m] == x && list[n] == y
  }

  // The directory being listed starts the chain exactly when it has a plan, and
  // is nowhere else in it. The rest are the planned directories of the order, in
  // its order.
  ghost predicate ChainMeans(p: Plans, order: seq<nat>, current: Option<nat>, chain: seq<nat>) {
    && (forall d :: d in chain <==> d in p && (Some(d) == current || d in order))
    && (current.Some? && current.value in p ==> |chain| > 0 && chain[0] == current.value && forall a :: 0 < a < |chain| ==> chain[a] != current.value)
    && (forall a, b :: 0 <= a < b < |chain| && Some(chain[a]) != current ==> ComesBefore(order, chain[a], chain[b]))
  }

  // What stands before in one list does in the other.
  ghost predicate InOrderOf(list: seq<nat>, order: seq<nat>) {
    forall a, b :: 0 <= a < b < |list| ==> ComesBefore(order, list[a], list[b])
  }

  lemma {:induction false} PlannedMeans(p: Plans, order: seq<nat>, current: Option<nat>)
    ensures forall d :: d in Planned(p, order, current) <==> d in p && Some(d) != current && d in order
    ensures InOrderOf(Planned(p, order, current), order)
  {
    if order != [] {
      var n := |order| - 1;
      var front, before := order[..n], Planned(p, order[..n], current);
      PlannedMeans(p, front, current);
      var c := Planned(p, order, current);
      forall a, b | 0 <= a < b < |c| ensures ComesBefore(order, c[a], c[b]) {
        if b < |before| {
          assert ComesBefore(front, before[a], before[b]);
          assert c[a] == before[a] && c[b] == before[b];
          var m, k :| 0 <= m < k < |front| && front[m] == c[a] && front[k] == c[b];
          assert order[m] == c[a] && order[k] == c[b];
        } else {
          assert before[a] in before;
          var m :| 0 <= m < n && order[m] == c[a];
          assert order[n] == c[b];
        }
      }
    }
  }

  lemma ChainIsMeant(p: Plans, order: seq<nat>, current: Option<nat>)
    ensures ChainMeans(p, order, current, Chain(p, order, current))
  {
    hide Planned, ComesBefore;
    PlannedMeans(p, order, current);
    var rest, chain := Planned(p, order, current), Chain(p, order, current);
    if current.Some? && current.value in p {
      assert chain == [current.value] + rest;
      forall a | 0 < a < |chain| ensures chain[a] != current.value {
        assert chain[a] == rest[a - 1] && rest[a - 1] in rest;
      }
      forall a, b | 0 <= a < b < |chain| && Some(chain[a]) != current ensures ComesBefore(order, chain[a], chain[b]) {
        assert chain[a] == rest[a - 1] && chain[b] == rest[b - 1];
      }
    } else {
      assert chain == rest;
    }
  }

  // One run is read before another: in one directory by place, else that of the
  // directory being listed, else by the order.
  ghost predicate Precedes(order: seq<nat>, current: Option<nat>, r: RunRef, s: RunRef) {
    || (r.dir == s.dir && r.index < s.index)
    || (Some(s.dir) != current && (Some(r.dir) == current || ComesBefore(order, r.dir, s.dir)))
  }

  // An unread run of the directory being listed or of one of the order.
  predicate MayRead(p: Plans, order: seq<nat>, current: Option<nat>, r: RunRef) {
    && r.dir in p && r.index < |p[r.dir].runs| && p[r.dir].runs[r.index].state != Done
    && (Some(r.dir) == current || r.dir in order)
  }

  // The zone holds unread runs in the order they are read, and leaves one out only
  // when it is full of earlier ones.
  ghost predicate ZoneOrdered(p: Plans, order: seq<nat>, current: Option<nat>, zone: seq<RunRef>, limit: nat) {
    && |zone| <= limit
    && (forall i :: 0 <= i < |zone| ==> MayRead(p, order, current, zone[i]))
    && (forall i, j :: 0 <= i < j < |zone| ==> Precedes(order, current, zone[i], zone[j]))
    && (forall r :: MayRead(p, order, current, r) && r !in zone ==> |zone| == limit && forall i :: 0 <= i < |zone| ==> Precedes(order, current, zone[i], r))
  }

  predicate FirstUnread(p: Plans, dir: nat, index: nat) {
    && dir in p && index < |p[dir].runs| && p[dir].runs[index].state != Done
    && (forall i :: 0 <= i < index ==> p[dir].runs[i].state == Done)
  }

  // And the first unread run of the directory being listed is at its head.
  ghost predicate ZoneMeans(p: Plans, order: seq<nat>, current: Option<nat>, zone: seq<RunRef>, limit: nat) {
    && ZoneOrdered(p, order, current, zone, limit)
    && (forall index: nat :: current.Some? && limit > 0 && FirstUnread(p, current.value, index) ==> |zone| > 0 && zone[0] == RunRef(current.value, index))
  }

  // One run stands before another in a chain.
  ghost predicate Earlier(chain: seq<nat>, r: RunRef, s: RunRef) {
    (r.dir == s.dir && r.index < s.index) || ComesBefore(chain, r.dir, s.dir)
  }

  lemma {:induction false} RunsFromMeans(dir: nat, from: nat, n: nat)
    ensures |RunsFrom(dir, from, n)| == Max(0, n - from)
    ensures forall i :: 0 <= i < |RunsFrom(dir, from, n)| ==> RunsFrom(dir, from, n)[i] == RunRef(dir, from + i)
    decreases n - from
  {
    if from < n { RunsFromMeans(dir, from + 1, n); }
  }

  lemma {:induction false} RefsMean(p: Plans, chain: seq<nat>, k: nat, from: nat)
    requires k <= |chain|
    ensures RefsIn(chain, k, Refs(p, chain, k, from)) && RefsOrdered(chain, Refs(p, chain, k, from))
    decreases |chain| - k
  {
    hide RunsFrom;
    assert k == |chain| ==> Refs(p, chain, k, from) == [];
    if k < |chain| {
      var n, here, rest := RunCount(p, chain[k]), RunsFrom(chain[k], from, RunCount(p, chain[k])), Refs(p, chain, k + 1, 0);
      RunsFromMeans(chain[k], from, n);
      RefsMean(p, chain, k + 1, 0);
      var refs := Refs(p, chain, k, from);
      assert refs == here + rest;
      forall i | 0 <= i < |refs| ensures InChain(chain, k, refs[i].dir) {
        if i < |here| { assert refs[i] == here[i]; } else { assert refs[i] == rest[i - |here|] && InChain(chain, k + 1, rest[i - |here|].dir); }
      }
      forall i, j | 0 <= i < j < |refs| ensures Earlier(chain, refs[i], refs[j]) {
        if i >= |here| {
          assert refs[i] == rest[i - |here|] && refs[j] == rest[j - |here|] && Earlier(chain, rest[i - |here|], rest[j - |here|]);
        } else if j >= |here| {
          assert refs[i] == here[i] && refs[j] == rest[j - |here|] && InChain(chain, k + 1, rest[j - |here|].dir);
        } else {
          assert refs[i] == here[i] && refs[j] == here[j];
        }
      }
    }
  }

  ghost predicate RefsIn(chain: seq<nat>, k: nat, refs: seq<RunRef>) {
    forall i :: 0 <= i < |refs| ==> InChain(chain, k, refs[i].dir)
  }

  ghost predicate RefsOrdered(chain: seq<nat>, refs: seq<RunRef>) {
    forall i, j :: 0 <= i < j < |refs| ==> Earlier(chain, refs[i], refs[j])
  }

  predicate InChain(chain: seq<nat>, k: nat, dir: nat) {
    exists a :: k <= a < |chain| && chain[a] == dir
  }

  lemma {:induction false} RefsHoldAll(p: Plans, chain: seq<nat>, k: nat, a: nat, r: RunRef)
    requires k <= a < |chain| && chain[a] == r.dir && Has(p, r)
    ensures r in Refs(p, chain, k, 0)
    decreases a - k
  {
    hide RunsFrom;
    RunsFromMeans(chain[k], 0, RunCount(p, chain[k]));
    if k < a {
      RefsHoldAll(p, chain, k + 1, a, r);
    } else {
      assert RunsFrom(chain[k], 0, RunCount(p, chain[k]))[r.index] == r;
    }
  }

  lemma {:induction false} LiveOrdered(p: Plans, refs: seq<RunRef>, chain: seq<nat>)
    requires RefsOrdered(chain, refs)
    ensures RefsOrdered(chain, Live(p, refs))
  {
    hide Earlier;
    if refs != [] {
      var n := |refs| - 1;
      var front := refs[..n];
      LiveOrdered(p, front, chain);
      LiveHolds(p, front);
      var before, live := Live(p, front), Live(p, refs);
      forall i, j | 0 <= i < j < |live| ensures Earlier(chain, live[i], live[j]) {
        if j == |before| {
          assert live[i] == before[i] && before[i] in before;
          var m :| 0 <= m < n && refs[m] == before[i];
        } else {
          assert live[i] == before[i] && live[j] == before[j];
        }
      }
    }
  }

  // What stands earlier in the chain is read before.
  lemma EarlierPrecedes(p: Plans, order: seq<nat>, current: Option<nat>, chain: seq<nat>, r: RunRef, s: RunRef)
    requires ChainMeans(p, order, current, chain) && Earlier(chain, r, s) && r.dir in chain && s.dir in chain
    ensures Precedes(order, current, r, s)
  {
    if !(r.dir == s.dir && r.index < s.index) {
      var a, b :| 0 <= a < b < |chain| && chain[a] == r.dir && chain[b] == s.dir;
      assert chain[b] in chain;
    }
  }

  // The first unread runs of a chain are a zone.
  lemma FirstAreZone(p: Plans, order: seq<nat>, current: Option<nat>, limit: nat)
    ensures ZoneMeans(p, order, current, Take(Unread(p, Chain(p, order, current)), limit), limit)
  {
    hide ZoneOrdered, Take, Chain, Unread;
    var zone := Take(Unread(p, Chain(p, order, current)), limit);
    FirstAreOrdered(p, order, current, limit);
    forall index: nat | current.Some? && limit > 0 && FirstUnread(p, current.value, index) ensures |zone| > 0 && zone[0] == RunRef(current.value, index) {
      ListedFirst(p, order, current.value, zone, limit, index);
    }
  }

  lemma FirstAreOrdered(p: Plans, order: seq<nat>, current: Option<nat>, limit: nat)
    ensures ZoneOrdered(p, order, current, Take(Unread(p, Chain(p, order, current)), limit), limit)
  {
    hide Chain, Live, Refs, Precedes, Earlier;
    var chain := Chain(p, order, current);
    var refs := Refs(p, chain, 0, 0);
    var unread := Live(p, refs);
    ChainIsMeant(p, order, current);
    RefsMean(p, chain, 0, 0);
    LiveHolds(p, refs);
    LiveOrdered(p, refs, chain);
    forall i | 0 <= i < |unread| ensures MayRead(p, order, current, unread[i]) && unread[i].dir in chain {
      assert unread[i] in unread;
      var m :| 0 <= m < |refs| && refs[m] == unread[i];
      assert InChain(chain, 0, refs[m].dir);
    }
    forall i, j | 0 <= i < j < |unread| ensures Precedes(order, current, unread[i], unread[j]) {
      EarlierPrecedes(p, order, current, chain, unread[i], unread[j]);
    }
    forall r | MayRead(p, order, current, r) ensures r in unread {
      assert r.dir in chain;
      var a :| 0 <= a < |chain| && chain[a] == r.dir;
      RefsHoldAll(p, chain, 0, a, r);
    }
    TakenZone(p, order, current, unread, limit);
  }

  lemma TakePrefix(refs: seq<RunRef>, limit: nat)
    ensures forall i :: 0 <= i < |Take(refs, limit)| ==> refs[i] in Take(refs, limit)
  {
    var taken := Take(refs, limit);
    forall i | 0 <= i < |taken| ensures refs[i] in taken {
      assert taken[i] == refs[i];
    }
  }

  lemma TakenZone(p: Plans, order: seq<nat>, current: Option<nat>, unread: seq<RunRef>, limit: nat)
    requires forall i :: 0 <= i < |unread| ==> MayRead(p, order, current, unread[i])
    requires forall i, j :: 0 <= i < j < |unread| ==> Precedes(order, current, unread[i], unread[j])
    requires forall r :: MayRead(p, order, current, r) ==> r in unread
    ensures ZoneOrdered(p, order, current, Take(unread, limit), limit)
  {
    hide Precedes, MayRead;
    var zone := Take(unread, limit);
    forall r | MayRead(p, order, current, r) && r !in zone
      ensures |zone| == limit && forall i :: 0 <= i < |zone| ==> Precedes(order, current, zone[i], r)
    {
      var m :| 0 <= m < |unread| && unread[m] == r;
      TakePrefix(unread, limit);
    }
  }

  lemma NonePrecedes(p: Plans, order: seq<nat>, current: nat, r: RunRef, index: nat)
    requires MayRead(p, order, Some(current), r) && current in p && index < |p[current].runs|
    requires forall i :: 0 <= i < index ==> p[current].runs[i].state == Done
    ensures !Precedes(order, Some(current), r, RunRef(current, index))
  {
  }

  // An unread run of the directory being listed comes first.
  lemma ListedFirst(p: Plans, order: seq<nat>, current: nat, zone: seq<RunRef>, limit: nat, index: nat)
    requires ZoneOrdered(p, order, Some(current), zone, limit) && limit > 0
    requires FirstUnread(p, current, index)
    ensures |zone| > 0 && zone[0] == RunRef(current, index)
  {
    var r := RunRef(current, index);
    assert MayRead(p, order, Some(current), r);
    assert r in zone ==> zone != [];
    var first := zone[0];
    NonePrecedes(p, order, current, first, index);
    if r in zone {
      var j :| 0 <= j < |zone| && zone[j] == r;
    }
  }

  // -------------------------------------------------------------------------
  // The zone
  // -------------------------------------------------------------------------

  // The live runs of the zone, then those of the chain from where the zone
  // stopped, are all the unread runs of the chain.
  ghost predicate ZoneCovers(p: Plans, zone: seq<RunRef>, chain: seq<nat>, k: nat, from: nat) {
    Live(p, zone) + Live(p, Refs(p, chain, k, from)) == Unread(p, chain)
  }

  // While runs become done, the zone covers what it covered.
  lemma ZoneStays(p: Plans, q: Plans, zone: seq<RunRef>, chain: seq<nat>, k: nat, from: nat)
    requires ZoneCovers(p, zone, chain, k, from) && AllOnward(p, q)
    ensures ZoneCovers(q, zone, chain, k, from)
  {
    OnwardLive(p, q);
    var rest, all := Refs(p, chain, k, from), Refs(p, chain, 0, 0);
    RefsSame(p, q, chain, k, from);
    RefsSame(p, q, chain, 0, 0);
    LiveLater(p, q, zone);
    LiveLater(p, q, rest);
    LiveLater(p, q, all);
    LiveAdded(q, Live(p, zone), Live(p, rest));
  }

  lemma OnwardLive(p: Plans, q: Plans)
    requires AllOnward(p, q)
    ensures forall d :: RunCount(p, d) == RunCount(q, d)
    ensures forall r :: Has(p, r) <==> Has(q, r)
    ensures forall r :: IsLive(q, r) ==> IsLive(p, r)
  {
    forall d ensures RunCount(p, d) == RunCount(q, d) {
      if d in p { assert Onward(p[d], q[d]); }
    }
    forall r ensures Has(p, r) <==> Has(q, r) {
      assert RunCount(p, r.dir) == RunCount(q, r.dir);
    }
    forall r | IsLive(q, r) ensures IsLive(p, r) {
      assert Onward(p[r.dir], q[r.dir]);
    }
  }

  // A zone of live runs that stopped at its limit, or at the end of the chain,
  // is the first unread runs of the chain.
  lemma ZoneIsFirst(p: Plans, zone: seq<RunRef>, chain: seq<nat>, k: nat, from: nat, limit: nat)
    requires ZoneCovers(p, zone, chain, k, from) && |zone| <= limit
    requires forall i :: 0 <= i < |zone| ==> IsLive(p, zone[i])
    requires |zone| == limit || k >= |chain|
    ensures zone == Take(Unread(p, chain), limit)
  {
    AllLive(p, zone);
    var rest := Live(p, Refs(p, chain, k, from));
    assert zone + rest == Unread(p, chain);
    if k >= |chain| {
      assert Refs(p, chain, k, from) == [];
      assert zone + rest == zone;
    } else {
      assert (zone + rest)[..limit] == zone;
    }
  }

  // The chain position past a plan that has no run left.
  lemma NextPlan(p: Plans, zone: seq<RunRef>, chain: seq<nat>, k: nat, from: nat)
    requires ZoneCovers(p, zone, chain, k, from) && k < |chain| && from >= RunCount(p, chain[k])
    ensures ZoneCovers(p, zone, chain, k + 1, 0)
  {
    assert Refs(p, chain, k, from) == Refs(p, chain, k + 1, 0);
  }

  // The chain position past the runs before the cursor.
  lemma SkipDone(p: Plans, zone: seq<RunRef>, chain: seq<nat>, k: nat, from: nat, at: nat)
    requires ZoneCovers(p, zone, chain, k, from) && k < |chain| && chain[k] in p && PlanRight(p[chain[k]])
    requires at == Max(from, p[chain[k]].cursor)
    ensures ZoneCovers(p, zone, chain, k, at)
  {
    var n := RunCount(p, chain[k]);
    var tail := Refs(p, chain, k + 1, 0);
    if from < at {
      NoneLive(p, chain[k], from, at, n);
    }
    LiveAdded(p, RunsFrom(chain[k], from, n), tail);
    LiveAdded(p, RunsFrom(chain[k], at, n), tail);
  }

  // The next run of the chain taken, if it is live.
  lemma TakeRun(p: Plans, zone: seq<RunRef>, chain: seq<nat>, k: nat, from: nat)
    requires ZoneCovers(p, zone, chain, k, from) && k < |chain| && from < RunCount(p, chain[k])
    ensures var r := RunRef(chain[k], from);
      ZoneCovers(p, if IsLive(p, r) then zone + [r] else zone, chain, k, from + 1)
  {
    hide Live;
    hide Refs;
    hide Unread;
    var r := RunRef(chain[k], from);
    var tail := Refs(p, chain, k, from + 1);
    NextRef(p, chain, k, from);
    LiveAdded(p, [r], tail);
    LiveOne(p, r);
    LiveAdded(p, zone, [r]);
    AssociateRefs(Live(p, zone), Live(p, [r]), Live(p, tail));
    if !IsLive(p, r) { assert Live(p, zone) + [] == Live(p, zone); }
  }

  lemma NextRef(p: Plans, chain: seq<nat>, k: nat, from: nat)
    requires k < |chain| && from < RunCount(p, chain[k])
    ensures Refs(p, chain, k, from) == [RunRef(chain[k], from)] + Refs(p, chain, k, from + 1)
  {
    var r, n, tail := RunRef(chain[k], from), RunCount(p, chain[k]), Refs(p, chain, k + 1, 0);
    var more := RunsFrom(chain[k], from + 1, n);
    NextRun(chain[k], from, n);
    hide RunsFrom;
    AssociateRefs([r], more, tail);
  }

  lemma NextRun(dir: nat, from: nat, n: nat)
    requires from < n
    ensures RunsFrom(dir, from, n) == [RunRef(dir, from)] + RunsFrom(dir, from + 1, n)
  {
  }

  lemma AssociateRefs(a: seq<RunRef>, b: seq<RunRef>, c: seq<RunRef>)
    ensures a + b + c == a + (b + c)
  {
  }

  // A zone built from the start covers the whole chain.
  lemma NewZone(p: Plans, chain: seq<nat>)
    ensures ZoneCovers(p, [], chain, 0, 0)
  {
    assert Live(p, []) == [];
  }

  // -------------------------------------------------------------------------
  // The lane
  // -------------------------------------------------------------------------

  // The reader could take the two runs for overlapping ranges: each is grown by
  // apart slots on both sides.
  predicate Overlaps(a: PlannedRun, b: PlannedRun, apart: nat) {
    a.firstSlot < b.firstSlot + b.count + apart && b.firstSlot < a.firstSlot + a.count + apart
  }

  // They are taken for apart when more than so many slots lie from each slot of one
  // to each of the other.
  lemma ApartMeans(a: PlannedRun, b: PlannedRun, apart: nat)
    requires a.count > 0 && b.count > 0
    ensures !Overlaps(a, b, apart) <==> forall x: nat, y: nat :: InRun(a, x) && InRun(b, y) ==> FurtherThan(x, y, apart)
  {
    if forall x: nat, y: nat :: InRun(a, x) && InRun(b, y) ==> FurtherThan(x, y, apart) {
      assert InRun(a, a.firstSlot) && InRun(b, b.firstSlot) && InRun(a, a.firstSlot + a.count - 1) && InRun(b, b.firstSlot + b.count - 1);
      MiddleOf(a, b, apart);
    }
  }

  // Where two runs overlap, some slots of them are close.
  lemma MiddleOf(a: PlannedRun, b: PlannedRun, apart: nat)
    requires a.count > 0 && b.count > 0
    ensures Overlaps(a, b, apart) ==> exists x: nat, y: nat :: InRun(a, x) && InRun(b, y) && !FurtherThan(x, y, apart)
  {
    if Overlaps(a, b, apart) {
      var x := Max(a.firstSlot, Min(b.firstSlot, a.firstSlot + a.count - 1));
      var y := Max(b.firstSlot, Min(x, b.firstSlot + b.count - 1));
      assert InRun(a, x) && InRun(b, y) && !FurtherThan(x, y, apart);
    }
  }

  predicate InRun(run: PlannedRun, x: nat) {
    run.firstSlot <= x < run.firstSlot + run.count
  }

  predicate FurtherThan(x: nat, y: nat, apart: nat) {
    x > y + apart || y > x + apart
  }

  // A range that the reader's standing lane holds.
  datatype Range = Range(firstSlot: nat, count: nat)

  function RangeOf(run: PlannedRun): Range {
    Range(run.firstSlot, run.count)
  }

  predicate RangesOverlap(a: Range, b: Range, apart: nat) {
    a.firstSlot < b.firstSlot + b.count + apart && b.firstSlot < a.firstSlot + a.count + apart
  }

  // A withdrawal takes every range that overlaps its own.
  function Withdrawn(standing: set<Range>, run: PlannedRun, apart: nat): set<Range> {
    set x | x in standing && !RangesOverlap(x, RangeOf(run), apart)
  }

  // announced lists every run that is on the lane, each once; those runs are
  // apart, and the reader holds their ranges and no other.
  ghost predicate OnLane(p: Plans, announced: seq<RunRef>, standing: set<Range>, apart: nat) {
    ListsThem(p, announced) && KeptApart(p, apart) && Stands(p, standing)
  }

  ghost predicate ListsThem(p: Plans, announced: seq<RunRef>) {
    && (forall i :: 0 <= i < |announced| ==> Has(p, announced[i]))
    && (forall i, j :: 0 <= i < j < |announced| ==> announced[i] != announced[j])
    && (forall r :: IsAnnounced(p, r) ==> r in announced)
  }

  ghost predicate KeptApart(p: Plans, apart: nat) {
    forall q, r :: IsAnnounced(p, q) && IsAnnounced(p, r) && q != r ==> !Overlaps(At(p, q), At(p, r), apart)
  }

  ghost predicate Stands(p: Plans, standing: set<Range>) {
    forall x :: x in standing <==> IsRangeOn(p, x)
  }

  ghost predicate IsRangeOn(p: Plans, x: Range) {
    exists r :: IsAnnounced(p, r) && RangeOf(At(p, r)) == x
  }

  predicate InRange(r: Range, x: nat) {
    r.firstSlot <= x < r.firstSlot + r.count
  }

  // The slots that the reader is told of are those of the runs on the lane.
  lemma LaneSlots(p: Plans, announced: seq<RunRef>, standing: set<Range>, apart: nat, x: nat)
    requires OnLane(p, announced, standing, apart)
    ensures (exists r :: r in standing && InRange(r, x)) <==> exists o :: IsAnnounced(p, o) && InRun(At(p, o), x)
  {
    if r :| r in standing && InRange(r, x) {
      var o :| IsAnnounced(p, o) && RangeOf(At(p, o)) == r;
      assert InRun(At(p, o), x);
    }
    if o :| IsAnnounced(p, o) && InRun(At(p, o), x) {
      assert IsRangeOn(p, RangeOf(At(p, o))) && InRange(RangeOf(At(p, o)), x);
    }
  }

  // Every run listed is on the lane.
  ghost predicate AllAnnounced(p: Plans, announced: seq<RunRef>) {
    forall i :: 0 <= i < |announced| ==> IsAnnounced(p, announced[i])
  }

  // Which runs are on the lane after one of them changed.
  lemma AnnouncedAfter(p: Plans, r: RunRef, run: PlannedRun)
    requires Has(p, r) && SameRun(At(p, r), run) && (At(p, r).state == Done ==> run.state == Done)
    ensures var q := SetRun(p, r, run);
      && (forall o :: Has(q, o) <==> Has(p, o))
      && (forall o :: IsAnnounced(q, o) <==> if o == r then run.state == Announced else IsAnnounced(p, o))
      && (forall o :: IsAnnounced(q, o) ==> At(q, o) == if o == r then run else At(p, o))
      && (forall o :: Has(p, o) ==> RangeOf(At(q, o)) == RangeOf(At(p, o)))
  {
    SetRunMeans(p, r, run);
    hide SetRun;
  }

  // A run taken off the lane: its range leaves the reader, and no other does.
  lemma TakenOff(p: Plans, announced: seq<RunRef>, standing: set<Range>, apart: nat, r: RunRef, run: PlannedRun)
    requires PlansRight(p) && OnLane(p, announced, standing, apart)
    requires IsAnnounced(p, r) && SameRun(At(p, r), run) && run.state != Announced
    ensures Withdrawn(standing, run, apart) == standing - {RangeOf(run)}
    ensures OnLane(SetRun(p, r, run), announced, standing - {RangeOf(run)}, apart)
  {
    hide SetRun;
    hide PlanRight;
    AnnouncedAfter(p, r, run);
    OnlyItsRange(p, standing, apart, r, run);
    RangeLeaves(p, standing, apart, r, SetRun(p, r, run));
  }

  lemma OnlyItsRange(p: Plans, standing: set<Range>, apart: nat, r: RunRef, run: PlannedRun)
    requires PlansRight(p) && KeptApart(p, apart) && Stands(p, standing)
    requires IsAnnounced(p, r) && SameRun(At(p, r), run)
    ensures Withdrawn(standing, run, apart) == standing - {RangeOf(run)}
  {
    assert PlanRight(p[r.dir]);
    forall x | x in standing ensures x == RangeOf(run) <==> RangesOverlap(x, RangeOf(run), apart) {
      assert IsRangeOn(p, x);
      var o :| IsAnnounced(p, o) && RangeOf(At(p, o)) == x;
      if o != r { assert !Overlaps(At(p, o), At(p, r), apart); }
    }
  }

  lemma RangeLeaves(p: Plans, standing: set<Range>, apart: nat, r: RunRef, q: Plans)
    requires PlansRight(p) && KeptApart(p, apart) && Stands(p, standing) && IsAnnounced(p, r)
    requires forall o :: IsAnnounced(q, o) <==> IsAnnounced(p, o) && o != r
    requires forall o :: IsAnnounced(q, o) ==> At(q, o) == At(p, o)
    ensures Stands(q, standing - {RangeOf(At(p, r))})
  {
    assert PlanRight(p[r.dir]);
    forall x ensures x in standing && x != RangeOf(At(p, r)) <==> IsRangeOn(q, x) {
      if x in standing && x != RangeOf(At(p, r)) {
        assert IsRangeOn(p, x);
        var o :| IsAnnounced(p, o) && RangeOf(At(p, o)) == x;
        assert IsAnnounced(q, o);
      }
      if IsRangeOn(q, x) {
        var o :| IsAnnounced(q, o) && RangeOf(At(q, o)) == x;
        assert IsAnnounced(p, o) && !Overlaps(At(p, o), At(p, r), apart);
        assert IsRangeOn(p, x);
        assert PlanRight(p[o.dir]);
      }
    }
  }

  // A run put on the lane, apart from those on it.
  lemma PutOn(p: Plans, announced: seq<RunRef>, standing: set<Range>, apart: nat, r: RunRef, run: PlannedRun)
    requires OnLane(p, announced, standing, apart) && AllAnnounced(p, announced)
    requires Has(p, r) && At(p, r).state == Waiting && run == At(p, r).(state := Announced)
    requires forall i :: 0 <= i < |announced| ==> !Overlaps(At(p, announced[i]), At(p, r), apart)
    ensures var q := SetRun(p, r, run);
      OnLane(q, announced + [r], standing + {RangeOf(run)}, apart) && AllAnnounced(q, announced + [r])
  {
    hide SetRun;
    AnnouncedAfter(p, r, run);
    var q := SetRun(p, r, run);
    var list, now := announced + [r], standing + {RangeOf(run)};
    ListedMore(p, announced, r, q);
    ApartMore(p, announced, apart, r, q, run);
    RangeJoins(p, standing, r, q, run);
  }

  lemma ListedMore(p: Plans, announced: seq<RunRef>, r: RunRef, q: Plans)
    requires ListsThem(p, announced) && AllAnnounced(p, announced) && Has(p, r) && !IsAnnounced(p, r)
    requires forall o :: Has(q, o) <==> Has(p, o)
    requires forall o :: IsAnnounced(q, o) <==> o == r || IsAnnounced(p, o)
    ensures ListsThem(q, announced + [r]) && AllAnnounced(q, announced + [r])
  {
    assert forall i :: 0 <= i < |announced| ==> IsAnnounced(p, announced[i]);
  }

  lemma ApartMore(p: Plans, announced: seq<RunRef>, apart: nat, r: RunRef, q: Plans, run: PlannedRun)
    requires ListsThem(p, announced) && KeptApart(p, apart) && Has(p, r) && SameRun(At(p, r), run)
    requires forall o :: IsAnnounced(q, o) <==> o == r || IsAnnounced(p, o)
    requires forall o :: IsAnnounced(q, o) ==> At(q, o) == if o == r then run else At(p, o)
    requires forall i :: 0 <= i < |announced| ==> !Overlaps(At(p, announced[i]), At(p, r), apart)
    ensures KeptApart(q, apart)
  {
    forall a, b | IsAnnounced(q, a) && IsAnnounced(q, b) && a != b ensures !Overlaps(At(q, a), At(q, b), apart) {
      if a == r {
        assert b in announced;
      } else if b == r {
        assert a in announced;
      }
    }
  }

  lemma RangeJoins(p: Plans, standing: set<Range>, r: RunRef, q: Plans, run: PlannedRun)
    requires Stands(p, standing) && !IsAnnounced(p, r)
    requires forall o :: Has(q, o) <==> Has(p, o)
    requires forall o :: IsAnnounced(q, o) <==> o == r || IsAnnounced(p, o)
    requires forall o :: IsAnnounced(q, o) ==> At(q, o) == if o == r then run else At(p, o)
    ensures Stands(q, standing + {RangeOf(run)})
  {
    forall x ensures x in standing || x == RangeOf(run) <==> IsRangeOn(q, x) {
      if x in standing {
        assert IsRangeOn(p, x);
        var o :| IsAnnounced(p, o) && RangeOf(At(p, o)) == x;
        assert IsAnnounced(q, o);
      }
      if x == RangeOf(run) { assert IsAnnounced(q, r) && RangeOf(At(q, r)) == x; }
      if IsRangeOn(q, x) {
        var o :| IsAnnounced(q, o) && RangeOf(At(q, o)) == x;
        if o != r { assert IsRangeOn(p, x); }
      }
    }
  }

  // A run that is not on the lane changes its state, or its stamp, and stays off
  // it; one that is on it keeps its place.
  lemma LaneStays(p: Plans, announced: seq<RunRef>, standing: set<Range>, apart: nat, r: RunRef, run: PlannedRun)
    requires OnLane(p, announced, standing, apart) && Has(p, r) && SameRun(At(p, r), run)
    requires run.state == Announced <==> At(p, r).state == Announced
    requires At(p, r).state == Done ==> run.state == Done
    ensures OnLane(SetRun(p, r, run), announced, standing, apart)
    ensures AllAnnounced(p, announced) ==> AllAnnounced(SetRun(p, r, run), announced)
  {
    hide SetRun;
    AnnouncedAfter(p, r, run);
    SameRanges(p, SetRun(p, r, run), standing);
  }

  lemma SameRanges(p: Plans, q: Plans, standing: set<Range>)
    requires Stands(p, standing)
    requires forall o :: IsAnnounced(q, o) <==> IsAnnounced(p, o)
    requires forall o :: Has(q, o) <==> Has(p, o)
    requires forall o :: Has(p, o) ==> RangeOf(At(q, o)) == RangeOf(At(p, o))
    ensures Stands(q, standing)
  {
    forall x ensures IsRangeOn(q, x) <==> IsRangeOn(p, x) {
      if IsRangeOn(q, x) {
        var o :| IsAnnounced(q, o) && RangeOf(At(q, o)) == x;
        assert IsAnnounced(p, o);
      }
      if IsRangeOn(p, x) {
        var o :| IsAnnounced(p, o) && RangeOf(At(p, o)) == x;
        assert IsAnnounced(q, o);
      }
    }
  }

  // The runs of a list that are still announced.
  function StillAnnounced(p: Plans, announced: seq<RunRef>): seq<RunRef> {
    if announced == [] then []
    else
      var last := announced[|announced| - 1];
      StillAnnounced(p, announced[..|announced| - 1]) + if IsAnnounced(p, last) then [last] else []
  }

  lemma {:induction false} StillHolds(p: Plans, announced: seq<RunRef>)
    requires forall i, j :: 0 <= i < j < |announced| ==> announced[i] != announced[j]
    ensures var s := StillAnnounced(p, announced);
      && (forall r :: r in s <==> r in announced && IsAnnounced(p, r))
      && (forall i, j :: 0 <= i < j < |s| ==> s[i] != s[j])
      && AllAnnounced(p, s)
  {
    if announced != [] {
      var front, last := announced[..|announced| - 1], announced[|announced| - 1];
      StillHolds(p, front);
      assert announced == front + [last];
      assert last !in front;
    }
  }

  lemma ForgetKeeps(p: Plans, announced: seq<RunRef>, standing: set<Range>, apart: nat)
    requires OnLane(p, announced, standing, apart)
    ensures OnLane(p, StillAnnounced(p, announced), standing, apart) && AllAnnounced(p, StillAnnounced(p, announced))
  {
    StillHolds(p, announced);
  }

  // -------------------------------------------------------------------------
  // Stamps, cursors and counts
  // -------------------------------------------------------------------------

  // The zone's runs are live and stamped; a live run with its stamp is in it.
  ghost predicate Stamped(p: Plans, zone: seq<RunRef>, stamp: nat) {
    && (forall i :: 0 <= i < |zone| ==> Has(p, zone[i]) && At(p, zone[i]).stamp == stamp)
    && (forall r :: IsLive(p, r) && At(p, r).stamp == stamp ==> r in zone)
  }

  ghost predicate StampsUpTo(p: Plans, stamp: nat) {
    forall r :: Has(p, r) ==> At(p, r).stamp <= stamp
  }

  predicate AllIn(p: Plans, chain: seq<nat>) {
    forall i :: 0 <= i < |chain| ==> chain[i] in p
  }

  lemma ChainIn(p: Plans, order: seq<nat>, current: Option<nat>)
    ensures AllIn(p, Chain(p, order, current))
  {
    PlannedIn(p, order, current);
    forall i | 0 <= i < |Chain(p, order, current)| ensures Chain(p, order, current)[i] in p {
      assert Chain(p, order, current)[i] in Chain(p, order, current);
    }
  }

  // A zone being filled from the chain.
  ghost predicate Filling(p: Plans, zone: seq<RunRef>, chain: seq<nat>, k: nat, from: nat, stamp: nat, limit: nat) {
    && PlansRight(p) && AllIn(p, chain) && k <= |chain| && |zone| <= limit
    && (forall i :: 0 <= i < |zone| ==> IsLive(p, zone[i]))
    && ZoneCovers(p, zone, chain, k, from) && Stamped(p, zone, stamp) && StampsUpTo(p, stamp)
  }

  // Two plans that differ in nothing but stamps.
  predicate SameStates(p: Plans, q: Plans) {
    && AllOnward(p, q)
    && (forall d :: d in p ==> SameState(p[d], q[d]))
  }

  predicate SameState(a: Plan, b: Plan) {
    && a.cursor == b.cursor && |a.runs| == |b.runs|
    && (forall i :: 0 <= i < |a.runs| ==> b.runs[i].state == a.runs[i].state)
  }

  lemma SameStatesLive(p: Plans, q: Plans)
    requires SameStates(p, q)
    ensures forall r :: Has(p, r) <==> Has(q, r)
    ensures forall r :: Has(p, r) ==> At(p, r).state == At(q, r).state
    ensures forall r :: IsLive(p, r) <==> IsLive(q, r)
    ensures forall d :: RunCount(p, d) == RunCount(q, d)
  {
    OnwardLive(p, q);
    forall r | Has(p, r) ensures At(p, r).state == At(q, r).state {
      assert SameState(p[r.dir], q[r.dir]);
    }
  }

  lemma UnreadSame(p: Plans, q: Plans, chain: seq<nat>)
    requires SameStates(p, q)
    ensures Unread(p, chain) == Unread(q, chain)
  {
    SameStatesLive(p, q);
    RefsSame(p, q, chain, 0, 0);
    LiveSame(p, q, Refs(p, chain, 0, 0));
  }

  lemma SameStatesTwice(p: Plans, q: Plans, r: Plans)
    requires SameStates(p, q) && SameStates(q, r)
    ensures SameStates(p, r)
  {
    OnwardTwice(p, q, r);
  }

  // A run of the chain joins the zone, stamped.
  lemma StampRun(p: Plans, zone: seq<RunRef>, chain: seq<nat>, k: nat, from: nat, stamp: nat, limit: nat, run: PlannedRun)
    requires Filling(p, zone, chain, k, from, stamp, limit) && |zone| < limit
    requires k < |chain| && from < RunCount(p, chain[k])
    requires var r := RunRef(chain[k], from); IsLive(p, r) && run == At(p, r).(stamp := stamp)
    ensures var r := RunRef(chain[k], from); var q := SetRun(p, r, run);
      && Filling(q, zone + [r], chain, k, from + 1, stamp, limit) && SameStates(p, q)
      && (forall o :: Has(q, o) <==> Has(p, o))
      && (forall o :: Has(p, o) ==> At(q, o) == if o == r then run else At(p, o))
  {
    hide SetRun;
    hide PlansRight;
    hide ZoneCovers;
    hide Stamped;
    hide StampsUpTo;
    var r := RunRef(chain[k], from);
    var q := SetRun(p, r, run);
    TakeRun(p, zone, chain, k, from);
    SetRunMeans(p, r, run);
    ZoneStays(p, q, zone + [r], chain, k, from + 1);
    StatesKept(p, q, r, run);
    SameStatesLive(p, q);
    OneMoreStamped(p, q, zone, stamp, r, run);
  }

  lemma OneMoreStamped(p: Plans, q: Plans, zone: seq<RunRef>, stamp: nat, r: RunRef, run: PlannedRun)
    requires Stamped(p, zone, stamp) && StampsUpTo(p, stamp) && Has(p, r) && run.stamp == stamp && run.state == At(p, r).state
    requires forall o :: Has(q, o) <==> Has(p, o)
    requires forall o :: Has(p, o) ==> At(q, o) == if o == r then run else At(p, o)
    ensures Stamped(q, zone + [r], stamp) && StampsUpTo(q, stamp)
  {
    forall o | IsLive(q, o) && At(q, o).stamp == stamp ensures o in zone + [r] {
      if o != r { assert IsLive(p, o); }
    }
  }

  lemma StatesKept(p: Plans, q: Plans, r: RunRef, run: PlannedRun)
    requires Has(p, r) && q == SetRun(p, r, run) && AllOnward(p, q) && run.state == At(p, r).state
    ensures SameStates(p, q)
  {
  }

  // The next run of the chain is done: it is passed over.
  lemma PassRun(p: Plans, zone: seq<RunRef>, chain: seq<nat>, k: nat, from: nat, stamp: nat, limit: nat)
    requires Filling(p, zone, chain, k, from, stamp, limit)
    requires k < |chain| && from < RunCount(p, chain[k]) && !IsLive(p, RunRef(chain[k], from))
    ensures Filling(p, zone, chain, k, from + 1, stamp, limit)
  {
    TakeRun(p, zone, chain, k, from);
  }

  lemma PassPlan(p: Plans, zone: seq<RunRef>, chain: seq<nat>, k: nat, from: nat, stamp: nat, limit: nat)
    requires Filling(p, zone, chain, k, from, stamp, limit) && k < |chain| && from >= RunCount(p, chain[k])
    ensures Filling(p, zone, chain, k + 1, 0, stamp, limit)
  {
    NextPlan(p, zone, chain, k, from);
  }

  lemma PassCursor(p: Plans, zone: seq<RunRef>, chain: seq<nat>, k: nat, from: nat, stamp: nat, limit: nat)
    requires Filling(p, zone, chain, k, from, stamp, limit) && k < |chain|
    ensures chain[k] in p && Filling(p, zone, chain, k, Max(from, p[chain[k]].cursor), stamp, limit)
  {
    SkipDone(p, zone, chain, k, from, Max(from, p[chain[k]].cursor));
  }

  // The runs of all the plans.
  ghost function TotalRuns(p: Plans): nat {
    if p == map[] then 0
    else
      var d :| d in p;
      |p[d].runs| + TotalRuns(p - {d})
  }

  lemma {:induction false} TotalWithout(p: Plans, d: nat)
    requires d in p
    ensures TotalRuns(p) == |p[d].runs| + TotalRuns(p - {d})
    decreases |p|
  {
    var e :| e in p && TotalRuns(p) == |p[e].runs| + TotalRuns(p - {e});
    if e != d {
      TotalWithout(p - {e}, d);
      TotalWithout(p - {d}, e);
      assert p - {e} - {d} == p - {d} - {e};
    }
  }

  lemma {:induction false} TotalSame(p: Plans, q: Plans)
    requires p.Keys == q.Keys && forall d :: d in p ==> |p[d].runs| == |q[d].runs|
    ensures TotalRuns(p) == TotalRuns(q)
    decreases |p|
  {
    if p != map[] {
      var d :| d in p;
      TotalWithout(p, d);
      TotalWithout(q, d);
      assert (p - {d}).Keys == (q - {d}).Keys;
      TotalSame(p - {d}, q - {d});
    } else {
      assert q == map[];
    }
  }

  lemma TotalOnward(p: Plans, q: Plans)
    requires AllOnward(p, q)
    ensures TotalRuns(p) == TotalRuns(q)
  {
    forall d | d in p ensures |p[d].runs| == |q[d].runs| {
      assert Onward(p[d], q[d]);
    }
    TotalSame(p, q);
  }
}
