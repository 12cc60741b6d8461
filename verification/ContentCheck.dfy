// The content check of the clusters presumed intact: which of them are read, in
// which reads, and how what they show splits the stretches.
module ContentCheck {
  import opened Prelude
  import opened AllocTypes
  import opened ClusterSweep

  datatype CheckMode = Sample | Full

  // What the bytes of one cluster look like.
  datatype ClusterContent = Zeros | Metadata | Data

  // A part of one stretch that the content check looks at.
  datatype CheckTarget = CheckTarget(lcn: nat, clusters: nat, index: nat, offset: nat)

  // What the content check found for clusters of one stretch.
  datatype CheckEdit = CheckEdit(index: nat, offset: nat, clusters: nat, condition: ClusterCondition) {
    predicate Holds(i: nat, o: nat) { index == i && offset <= o < offset + clusters }
  }

  // One read: the targets [firstTarget, firstTarget + targetCount).
  datatype CheckRead = CheckRead(firstTarget: nat, targetCount: nat, lcn: nat, clusters: nat)

  function Verdict(content: ClusterContent): ClusterCondition {
    match content
    case Zeros => Zeroed
    case Metadata => OverwrittenByMetadata
    case Data => IntactChecked
  }

  // -------------------------------------------------------------------------
  // Targets
  // -------------------------------------------------------------------------

  // The stretch may be read: presumed intact, and not ciphertext.
  predicate Readable(s: Resolved, encrypted: set<nat>) {
    s.condition == Intact && s.account !in encrypted
  }

  // The target is a part of a readable stretch.
  predicate TargetOf(t: CheckTarget, resolved: seq<Resolved>, encrypted: set<nat>) {
    && t.index < |resolved| && Readable(resolved[t.index], encrypted)
    && t.clusters > 0 && t.offset + t.clusters <= resolved[t.index].clusters
    && t.lcn == resolved[t.index].lcn + t.offset
  }

  // Two targets share no cluster of a stretch.
  predicate TargetsApart(t: CheckTarget, u: CheckTarget) {
    t.index != u.index || t.offset + t.clusters <= u.offset || u.offset + u.clusters <= t.offset
  }

  ghost predicate Targeted(targets: seq<CheckTarget>, i: nat, o: nat) {
    exists k :: 0 <= k < |targets| && targets[k].index == i && targets[k].offset <= o < targets[k].offset + targets[k].clusters
  }

  lemma TargetedMore(was: seq<CheckTarget>, target: CheckTarget, o: nat)
    requires Targeted(was, target.index, o) || target.offset <= o < target.offset + target.clusters
    ensures Targeted(was + [target], target.index, o)
  {
    var targets := was + [target];
    if Targeted(was, target.index, o) {
      var k :| 0 <= k < |was| && was[k].index == target.index && was[k].offset <= o < was[k].offset + was[k].clusters;
      assert targets[k] == was[k];
    } else {
      assert targets[|was|] == target;
    }
  }

  // Appends a stretch as targets no longer than one read.
  method Cut(before: seq<CheckTarget>, resolved: seq<Resolved>, index: nat, perRead: nat, ghost encrypted: set<nat>)
    returns (targets: seq<CheckTarget>)
    requires perRead > 0 && index < |resolved| && Readable(resolved[index], encrypted)
    requires forall k :: 0 <= k < |before| ==> before[k].index < index
    requires Pairwise(before, TargetsApart)
    ensures |before| <= |targets| && targets[..|before|] == before
    ensures forall k :: |before| <= k < |targets| ==> TargetOf(targets[k], resolved, encrypted) && targets[k].index == index && targets[k].clusters <= perRead
    ensures Pairwise(targets, TargetsApart)
    ensures forall o: nat :: o < resolved[index].clusters ==> Targeted(targets, index, o)
  {
    hide Targeted;
    targets := before;
    var stretch := resolved[index];
    var done := 0;
    while done < stretch.clusters
      invariant |before| <= |targets| && targets[..|before|] == before
      invariant forall k :: |before| <= k < |targets| ==> TargetOf(targets[k], resolved, encrypted) && targets[k].index == index
      invariant forall k :: |before| <= k < |targets| ==> targets[k].clusters <= perRead && targets[k].offset + targets[k].clusters <= done
      invariant Pairwise(targets, TargetsApart)
      invariant forall o: nat :: o < done && o < stretch.clusters ==> Targeted(targets, index, o)
      decreases stretch.clusters - done
    {
      ghost var was := targets;
      var target := CheckTarget(stretch.lcn + done, Min(perRead, stretch.clusters - done), index, done);
      targets := targets + [target];
      forall o: nat | o < done + perRead && o < stretch.clusters ensures Targeted(targets, index, o) {
        TargetedMore(was, target, o);
      }
      done := done + perRead;
    }
  }

  // What a sample looks at: for each account, the first cluster of its readable
  // stretch with the lowest VCN.
  predicate LowestOf(resolved: seq<Resolved>, encrypted: set<nat>, account: nat, i: nat, n: nat)
    requires n <= |resolved|
  {
    && i < n && Readable(resolved[i], encrypted) && resolved[i].account == account
    && (forall j :: 0 <= j < n && Readable(resolved[j], encrypted) && resolved[j].account == account ==> resolved[i].vcn <= resolved[j].vcn)
  }

  predicate TakesAccount(t: CheckTarget, resolved: seq<Resolved>, account: nat) {
    t.index < |resolved| && resolved[t.index].account == account
  }

  predicate SampleTarget(t: CheckTarget, resolved: seq<Resolved>, encrypted: set<nat>) {
    && TargetOf(t, resolved, encrypted) && t.clusters == 1 && t.offset == 0
    && LowestOf(resolved, encrypted, resolved[t.index].account, t.index, |resolved|)
  }

  // Parts of readable stretches that share no cluster. A full check looks at every
  // cluster of every readable stretch, a sample at one of each account that has a
  // readable stretch.
  ghost predicate ChosenFor(targets: seq<CheckTarget>, resolved: seq<Resolved>, encrypted: set<nat>, mode: CheckMode, perRead: nat) {
    && (forall k :: 0 <= k < |targets| ==> TargetOf(targets[k], resolved, encrypted) && targets[k].clusters <= perRead)
    && Pairwise(targets, TargetsApart)
    && (mode == Full ==> AllTargeted(targets, resolved, encrypted))
    && (mode == Sample ==> Sampled(targets, resolved, encrypted))
  }

  ghost predicate AllTargeted(targets: seq<CheckTarget>, resolved: seq<Resolved>, encrypted: set<nat>) {
    forall i, o: nat :: 0 <= i < |resolved| && Readable(resolved[i], encrypted) && o < resolved[i].clusters ==> Targeted(targets, i, o)
  }

  ghost predicate Sampled(targets: seq<CheckTarget>, resolved: seq<Resolved>, encrypted: set<nat>) {
    && (forall k :: 0 <= k < |targets| ==> SampleTarget(targets[k], resolved, encrypted))
    && (forall i :: 0 <= i < |resolved| && Readable(resolved[i], encrypted) ==> exists k :: 0 <= k < |targets| && TakesAccount(targets[k], resolved, resolved[i].account))
  }

  // The parts of the stretches to read.
  method ChooseTargets(resolved: seq<Resolved>, encrypted: set<nat>, mode: CheckMode, perRead: nat) returns (targets: seq<CheckTarget>)
    requires perRead > 0
    requires forall i :: 0 <= i < |resolved| ==> resolved[i].clusters > 0
    ensures ChosenFor(targets, resolved, encrypted, mode, perRead)
  {
    if mode == Full {
      targets := ChooseAll(resolved, encrypted, perRead);
    } else {
      targets := ChooseLowest(resolved, encrypted);
    }
  }

  method ChooseAll(resolved: seq<Resolved>, encrypted: set<nat>, perRead: nat) returns (targets: seq<CheckTarget>)
    requires perRead > 0
    ensures forall k :: 0 <= k < |targets| ==> TargetOf(targets[k], resolved, encrypted) && targets[k].clusters <= perRead
    ensures Pairwise(targets, TargetsApart)
    ensures forall i, o: nat :: 0 <= i < |resolved| && Readable(resolved[i], encrypted) && o < resolved[i].clusters ==> Targeted(targets, i, o)
  {
    targets := [];
    for i := 0 to |resolved|
      invariant forall k :: 0 <= k < |targets| ==> TargetOf(targets[k], resolved, encrypted) && targets[k].clusters <= perRead && targets[k].index < i
      invariant Pairwise(targets, TargetsApart)
      invariant forall j, o: nat :: 0 <= j < i && Readable(resolved[j], encrypted) && o < resolved[j].clusters ==> Targeted(targets, j, o)
    {
      if Readable(resolved[i], encrypted) {
        ghost var before := targets;
        targets := Cut(targets, resolved, i, perRead, encrypted);
        forall j, o: nat | 0 <= j < i && Readable(resolved[j], encrypted) && o < resolved[j].clusters ensures Targeted(targets, j, o) {
          assert Targeted(before, j, o);
          var k :| 0 <= k < |before| && before[k].index == j && before[k].offset <= o < before[k].offset + before[k].clusters;
          assert targets[k] == before[k];
        }
        forall k | 0 <= k < |targets| ensures TargetOf(targets[k], resolved, encrypted) && targets[k].clusters <= perRead && targets[k].index < i + 1 {
          if k < |before| { assert targets[k] == before[k]; }
        }
      }
    }
  }

  // The readable stretch of each account with the lowest VCN.
  method LowestStretches(resolved: seq<Resolved>, encrypted: set<nat>) returns (lowest: map<nat, nat>)
    ensures forall a :: a in lowest ==> LowestOf(resolved, encrypted, a, lowest[a], |resolved|)
    ensures forall j :: 0 <= j < |resolved| && Readable(resolved[j], encrypted) ==> resolved[j].account in lowest
  {
    lowest := map[];
    for i := 0 to |resolved|
      invariant forall a :: a in lowest ==> LowestOf(resolved, encrypted, a, lowest[a], i)
      invariant forall j :: 0 <= j < i && Readable(resolved[j], encrypted) ==> resolved[j].account in lowest
    {
      var stretch := resolved[i];
      if Readable(stretch, encrypted) {
        if stretch.account !in lowest || resolved[lowest[stretch.account]].vcn > stretch.vcn {
          lowest := lowest[stretch.account := i];
        }
      }
    }
  }

  method ChooseLowest(resolved: seq<Resolved>, encrypted: set<nat>) returns (targets: seq<CheckTarget>)
    requires forall i :: 0 <= i < |resolved| ==> resolved[i].clusters > 0
    ensures forall k :: 0 <= k < |targets| ==> SampleTarget(targets[k], resolved, encrypted)
    ensures Pairwise(targets, TargetsApart)
    ensures forall i :: 0 <= i < |resolved| && Readable(resolved[i], encrypted) ==>
      exists k :: 0 <= k < |targets| && TakesAccount(targets[k], resolved, resolved[i].account)
  {
    hide LowestOf;
    hide Readable;
    var lowest := LowestStretches(resolved, encrypted);
    targets := [];
    ghost var taken: seq<nat> := [];
    var left := lowest.Keys;
    while left != {}
      invariant left <= lowest.Keys && |taken| == |targets|
      invariant forall k :: 0 <= k < |targets| ==> taken[k] in lowest && taken[k] !in left && targets[k] == FirstCluster(resolved, lowest[taken[k]])
      invariant forall k, l :: 0 <= k < l < |taken| ==> taken[k] != taken[l]
      invariant forall a :: a in lowest.Keys && a !in left ==> a in taken
      decreases |left|
    {
      var account :| account in left;
      targets := targets + [FirstCluster(resolved, lowest[account])];
      taken := taken + [account];
      left := left - {account};
    }
    LowestChosen(resolved, encrypted, lowest, taken, targets);
  }

  lemma LowestChosen(resolved: seq<Resolved>, encrypted: set<nat>, lowest: map<nat, nat>, taken: seq<nat>, targets: seq<CheckTarget>)
    requires forall i :: 0 <= i < |resolved| ==> resolved[i].clusters > 0
    requires forall a :: a in lowest ==> LowestOf(resolved, encrypted, a, lowest[a], |resolved|)
    requires forall j :: 0 <= j < |resolved| && Readable(resolved[j], encrypted) ==> resolved[j].account in lowest
    requires |taken| == |targets|
    requires forall k :: 0 <= k < |targets| ==> taken[k] in lowest && targets[k] == FirstCluster(resolved, lowest[taken[k]])
    requires forall k, l :: 0 <= k < l < |taken| ==> taken[k] != taken[l]
    requires forall a :: a in lowest ==> a in taken
    ensures forall k :: 0 <= k < |targets| ==> SampleTarget(targets[k], resolved, encrypted)
    ensures Pairwise(targets, TargetsApart)
    ensures forall i :: 0 <= i < |resolved| && Readable(resolved[i], encrypted) ==>
      exists k :: 0 <= k < |targets| && TakesAccount(targets[k], resolved, resolved[i].account)
  {
    forall k | 0 <= k < |targets| ensures SampleTarget(targets[k], resolved, encrypted) && TakesAccount(targets[k], resolved, taken[k]) {
      assert LowestOf(resolved, encrypted, taken[k], lowest[taken[k]], |resolved|);
    }
    forall i | 0 <= i < |resolved| && Readable(resolved[i], encrypted)
      ensures exists k :: 0 <= k < |targets| && TakesAccount(targets[k], resolved, resolved[i].account)
    {
      var k :| 0 <= k < |taken| && taken[k] == resolved[i].account;
      assert TakesAccount(targets[k], resolved, resolved[i].account);
    }
    forall k, l | 0 <= k < |targets| && 0 <= l < |targets| && k != l ensures TargetsApart(targets[k], targets[l]) {
      assert taken[k] != taken[l];
      assert TakesAccount(targets[k], resolved, taken[k]) && TakesAccount(targets[l], resolved, taken[l]);
    }
  }

  function FirstCluster(resolved: seq<Resolved>, i: nat): CheckTarget {
    CheckTarget(if i < |resolved| then resolved[i].lcn else 0, 1, i, 0)
  }

  // -------------------------------------------------------------------------
  // Reads
  // -------------------------------------------------------------------------

  predicate ByAddress(t: CheckTarget, u: CheckTarget) {
    t.lcn < u.lcn || (t.lcn == u.lcn && t.index <= u.index)
  }

  // The read holds every cluster of each of its targets.
  predicate ReadHolds(read: CheckRead, targets: seq<CheckTarget>) {
    && read.targetCount > 0 && read.firstTarget + read.targetCount <= |targets|
    && (forall t :: read.firstTarget <= t < read.firstTarget + read.targetCount ==>
          read.lcn <= targets[t].lcn && targets[t].lcn + targets[t].clusters <= read.lcn + read.clusters)
  }

  // The read ends where one of its targets ends.
  ghost predicate EndsWithTarget(read: CheckRead, targets: seq<CheckTarget>) {
    exists t :: read.firstTarget <= t < read.firstTarget + read.targetCount && t < |targets|
      && targets[t].lcn + targets[t].clusters == read.lcn + read.clusters
  }

  // The reads take the targets in order, each target in one read.
  predicate ReadsPartition(plan: seq<CheckRead>, n: nat) {
    if plan == [] then n == 0
    else
      var last := plan[|plan| - 1];
      last.firstTarget + last.targetCount == n && ReadsPartition(plan[..|plan| - 1], last.firstTarget)
  }

  lemma GrownEnds(last: CheckRead, grown: CheckRead, targets: seq<CheckTarget>, i: nat)
    requires i < |targets| && EndsWithTarget(last, targets) && last.firstTarget + last.targetCount == i
    requires last.lcn <= targets[i].lcn
    requires grown == last.(targetCount := last.targetCount + 1,
                            clusters := Max(last.lcn + last.clusters, targets[i].lcn + targets[i].clusters) - last.lcn)
    ensures EndsWithTarget(grown, targets)
  {
    if grown.clusters == last.clusters {
      var t :| last.firstTarget <= t < last.firstTarget + last.targetCount && t < |targets|
        && targets[t].lcn + targets[t].clusters == last.lcn + last.clusters;
      assert targets[t].lcn + targets[t].clusters == grown.lcn + grown.clusters;
    } else {
      assert targets[i].lcn + targets[i].clusters == grown.lcn + grown.clusters;
    }
  }

  // Where the targets from first up to n end.
  function EndTo(targets: seq<CheckTarget>, first: nat, n: nat): nat
    requires n <= |targets|
  {
    if n <= first then 0 else Max(EndTo(targets, first, n - 1), targets[n - 1].lcn + targets[n - 1].clusters)
  }

  // The read starts and ends with its targets, and each of them starts at most a
  // gap past the end of those before it.
  predicate ReadsAcross(read: CheckRead, targets: seq<CheckTarget>, maxGap: nat)
    requires ReadHolds(read, targets)
  {
    var first, n := read.firstTarget, read.firstTarget + read.targetCount;
    && read.lcn == targets[first].lcn && read.lcn + read.clusters == EndTo(targets, first, n)
    && (forall t :: first < t < n ==> targets[t].lcn <= EndTo(targets, first, t) + maxGap)
  }

  ghost predicate ReadRight(read: CheckRead, targets: seq<CheckTarget>, maxClusters: nat, maxGap: nat) {
    ReadHolds(read, targets) && read.clusters <= maxClusters && EndsWithTarget(read, targets) && ReadsAcross(read, targets, maxGap)
  }

  // The target after the read's own starts past a gap, or makes it too long.
  predicate CannotGrow(read: CheckRead, targets: seq<CheckTarget>, maxClusters: nat, maxGap: nat) {
    var i, end := read.firstTarget + read.targetCount, read.lcn + read.clusters;
    i < |targets| ==> targets[i].lcn > end + maxGap || Max(end, targets[i].lcn + targets[i].clusters) - read.lcn > maxClusters
  }

  // The reads of sorted targets: two neighbours share one exactly when the gap
  // and the length of a read allow it.
  ghost predicate PlanRight(plan: seq<CheckRead>, targets: seq<CheckTarget>, n: nat, maxClusters: nat, maxGap: nat) {
    && ReadsPartition(plan, n)
    && (forall r :: 0 <= r < |plan| ==> ReadRight(plan[r], targets, maxClusters, maxGap))
    && (forall r :: 0 <= r < |plan| - 1 ==> CannotGrow(plan[r], targets, maxClusters, maxGap))
  }

  // Takes the target at i into the last read, when it fits, or into a new one.
  method TakeTarget(before: seq<CheckRead>, targets: seq<CheckTarget>, i: nat, maxClusters: nat, maxGap: nat) returns (plan: seq<CheckRead>)
    requires i < |targets| && targets[i].clusters <= maxClusters
    requires PlanRight(before, targets, i, maxClusters, maxGap)
    requires before != [] ==> before[|before| - 1].lcn <= targets[i].lcn
    ensures PlanRight(plan, targets, i + 1, maxClusters, maxGap) && plan != [] && plan[|plan| - 1].lcn <= targets[i].lcn
  {
    hide PlanRight, CannotGrow, ReadRight;
    var target := targets[i];
    var targetEnd := target.lcn + target.clusters;
    if before != [] {
      var last := before[|before| - 1];
      var lastEnd := last.lcn + last.clusters;
      var newEnd := Max(lastEnd, targetEnd);
      if target.lcn <= lastEnd + maxGap && newEnd - last.lcn <= maxClusters {
        var grown := last.(clusters := newEnd - last.lcn, targetCount := last.targetCount + 1);
        plan := before[|before| - 1 := grown];
        LastRead(before, targets, i, maxClusters, maxGap);
        GrownRight(last, grown, targets, i, maxClusters, maxGap);
        PlanGrown(before, targets, i, maxClusters, maxGap, grown);
        return;
      }
      LastRead(before, targets, i, maxClusters, maxGap);
      LastCannotGrow(last, targets, i, maxClusters, maxGap);
    }
    plan := before + [CheckRead(i, 1, target.lcn, target.clusters)];
    OneRight(plan[|before|], targets, i, maxClusters, maxGap);
    PlanAdded(before, targets, i, maxClusters, maxGap, plan[|before|]);
  }

  lemma LastRead(plan: seq<CheckRead>, targets: seq<CheckTarget>, n: nat, maxClusters: nat, maxGap: nat)
    requires PlanRight(plan, targets, n, maxClusters, maxGap) && plan != []
    ensures var last := plan[|plan| - 1]; ReadRight(last, targets, maxClusters, maxGap) && last.firstTarget + last.targetCount == n
  {
    hide ReadRight, CannotGrow;
  }

  lemma LastCannotGrow(last: CheckRead, targets: seq<CheckTarget>, i: nat, maxClusters: nat, maxGap: nat)
    requires i < |targets| && last.firstTarget + last.targetCount == i
    requires targets[i].lcn > last.lcn + last.clusters + maxGap || Max(last.lcn + last.clusters, targets[i].lcn + targets[i].clusters) - last.lcn > maxClusters
    ensures CannotGrow(last, targets, maxClusters, maxGap)
  {
  }

  lemma PlanGrown(before: seq<CheckRead>, targets: seq<CheckTarget>, i: nat, maxClusters: nat, maxGap: nat, grown: CheckRead)
    requires PlanRight(before, targets, i, maxClusters, maxGap) && before != [] && ReadRight(grown, targets, maxClusters, maxGap)
    requires grown.firstTarget == before[|before| - 1].firstTarget && grown.targetCount == before[|before| - 1].targetCount + 1
    ensures PlanRight(before[|before| - 1 := grown], targets, i + 1, maxClusters, maxGap)
  {
    hide ReadRight, CannotGrow;
    var plan := before[|before| - 1 := grown];
    assert plan[..|plan| - 1] == before[..|before| - 1];
  }

  lemma PlanAdded(before: seq<CheckRead>, targets: seq<CheckTarget>, i: nat, maxClusters: nat, maxGap: nat, read: CheckRead)
    requires PlanRight(before, targets, i, maxClusters, maxGap) && ReadRight(read, targets, maxClusters, maxGap)
    requires read.firstTarget == i && read.targetCount == 1
    requires before != [] ==> CannotGrow(before[|before| - 1], targets, maxClusters, maxGap)
    ensures PlanRight(before + [read], targets, i + 1, maxClusters, maxGap)
  {
    hide ReadRight, CannotGrow;
    assert (before + [read])[..|before|] == before;
  }

  lemma GrownRight(last: CheckRead, grown: CheckRead, targets: seq<CheckTarget>, i: nat, maxClusters: nat, maxGap: nat)
    requires i < |targets| && last.firstTarget + last.targetCount == i && ReadRight(last, targets, maxClusters, maxGap)
    requires last.lcn <= targets[i].lcn <= last.lcn + last.clusters + maxGap
    requires grown == last.(targetCount := last.targetCount + 1,
                            clusters := Max(last.lcn + last.clusters, targets[i].lcn + targets[i].clusters) - last.lcn)
    requires grown.clusters <= maxClusters
    ensures ReadRight(grown, targets, maxClusters, maxGap)
  {
    GrownEnds(last, grown, targets, i);
    hide EndsWithTarget, ReadsAcross, ReadHolds;
    GrownHolds(last, grown, targets, i);
    GrownAcross(last, grown, targets, i, maxGap);
  }

  lemma GrownHolds(last: CheckRead, grown: CheckRead, targets: seq<CheckTarget>, i: nat)
    requires i < |targets| && last.firstTarget + last.targetCount == i && ReadHolds(last, targets) && last.lcn <= targets[i].lcn
    requires grown == last.(targetCount := last.targetCount + 1,
                            clusters := Max(last.lcn + last.clusters, targets[i].lcn + targets[i].clusters) - last.lcn)
    ensures ReadHolds(grown, targets)
  {
  }

  lemma GrownAcross(last: CheckRead, grown: CheckRead, targets: seq<CheckTarget>, i: nat, maxGap: nat)
    requires i < |targets| && last.firstTarget + last.targetCount == i && ReadHolds(last, targets) && ReadHolds(grown, targets)
    requires ReadsAcross(last, targets, maxGap) && targets[i].lcn <= last.lcn + last.clusters + maxGap
    requires grown == last.(targetCount := last.targetCount + 1,
                            clusters := Max(last.lcn + last.clusters, targets[i].lcn + targets[i].clusters) - last.lcn)
    ensures ReadsAcross(grown, targets, maxGap)
  {
    hide EndTo, ReadHolds;
    EndToNext(targets, last.firstTarget, i);
  }

  lemma EndToNext(targets: seq<CheckTarget>, first: nat, i: nat)
    requires first <= i < |targets|
    ensures EndTo(targets, first, i + 1) == Max(EndTo(targets, first, i), targets[i].lcn + targets[i].clusters)
  {
  }

  lemma OneRight(read: CheckRead, targets: seq<CheckTarget>, i: nat, maxClusters: nat, maxGap: nat)
    requires i < |targets| && targets[i].clusters <= maxClusters && read == CheckRead(i, 1, targets[i].lcn, targets[i].clusters)
    ensures ReadRight(read, targets, maxClusters, maxGap)
  {
    assert EndTo(targets, i, i) == 0;
    assert EndTo(targets, i, i + 1) == targets[i].lcn + targets[i].clusters;
    assert targets[i].lcn + targets[i].clusters == read.lcn + read.clusters;
  }

  // Groups the sorted targets into reads: a gap of at most maxGap clusters is
  // read across, and no read is longer than maxClusters.
  method PlanReads(targets: seq<CheckTarget>, maxClusters: nat, maxGap: nat) returns (plan: seq<CheckRead>)
    requires SortedBy(targets, ByAddress)
    requires forall k :: 0 <= k < |targets| ==> targets[k].clusters <= maxClusters
    ensures PlanRight(plan, targets, |targets|, maxClusters, maxGap)
  {
    plan := [];
    for i := 0 to |targets|
      invariant PlanRight(plan, targets, i, maxClusters, maxGap)
      invariant plan != [] && i < |targets| ==> plan[|plan| - 1].lcn <= targets[i].lcn
    {
      assert i + 1 < |targets| ==> ByAddress(targets[i], targets[i + 1]);
      plan := TakeTarget(plan, targets, i, maxClusters, maxGap);
    }
  }

  // The clusters of the reads that come back.
  function ClustersOf(plan: seq<CheckRead>, maxLcn: nat, readOk: (nat, nat) -> bool): nat {
    if plan == [] then 0
    else
      var last := plan[|plan| - 1];
      ClustersOf(plan[..|plan| - 1], maxLcn, readOk) + if Addressable(last, maxLcn) && readOk(last.lcn, last.clusters) then last.clusters else 0
  }

  lemma ClustersOfNext(plan: seq<CheckRead>, r: nat, maxLcn: nat, readOk: (nat, nat) -> bool)
    requires r < |plan|
    ensures ClustersOf(plan[..r + 1], maxLcn, readOk) == ClustersOf(plan[..r], maxLcn, readOk) + if Addressable(plan[r], maxLcn) && readOk(plan[r].lcn, plan[r].clusters) then plan[r].clusters else 0
  {
    assert plan[..r + 1][..r] == plan[..r];
  }

  // The clusters [from, to) of the disk all give that condition.
  ghost predicate Looks(from: nat, to: nat, condition: ClusterCondition, contentAt: nat -> ClusterContent) {
    forall x: nat :: from <= x < to ==> LooksLike(contentAt(x), condition)
  }

  // What a cluster of a condition holds.
  predicate LooksLike(content: ClusterContent, condition: ClusterCondition) {
    && (content.Zeros? <==> condition == Zeroed)
    && (content.Metadata? <==> condition == OverwrittenByMetadata)
    && (content.Data? <==> condition == IntactChecked)
  }

  // A read may be made exactly when the last byte address of it, and the end,
  // fit 63 bits.
  lemma AddressFits(read: CheckRead, clusterSize: nat)
    requires clusterSize > 0
    ensures Addressable(read, UnitOf(I64_MAX, clusterSize)) <==> (read.lcn + read.clusters) * clusterSize <= I64_MAX
  {
    hide UnitOf;
    UnitOrder(I64_MAX, I64_MAX, clusterSize);
    var end, maxLcn := read.lcn + read.clusters, UnitOf(I64_MAX, clusterSize);
    MaxUnit(clusterSize);
    if end <= maxLcn {
      ProductMonotone(end, maxLcn, clusterSize);
    } else {
      ProductMonotone(maxLcn + 1, end, clusterSize);
    }
  }

  lemma MaxUnit(clusterSize: nat)
    requires clusterSize > 0
    ensures UnitOf(I64_MAX, clusterSize) * clusterSize <= I64_MAX < (UnitOf(I64_MAX, clusterSize) + 1) * clusterSize
  {
    FloorBounds(I64_MAX, clusterSize);
  }

  // No cluster of a target has an edit yet.
  predicate Untouched(edits: seq<CheckEdit>, target: CheckTarget) {
    forall k :: 0 <= k < |edits| ==>
      (edits[k].index != target.index
       || edits[k].offset + edits[k].clusters <= target.offset || target.offset + target.clusters <= edits[k].offset)
  }

  // The edit is a part of a readable stretch, and tells what its clusters hold.
  ghost predicate EditRight(e: CheckEdit, resolved: seq<Resolved>, encrypted: set<nat>, contentAt: nat -> ClusterContent) {
    && e.index < |resolved| && resolved[e.index].condition == Intact && resolved[e.index].account !in encrypted
    && e.clusters > 0 && e.offset + e.clusters <= resolved[e.index].clusters
    && Looks(resolved[e.index].lcn + e.offset, resolved[e.index].lcn + e.offset + e.clusters, e.condition, contentAt)
  }

  // Two edits share no cluster of a stretch.
  predicate EditsApart(e: CheckEdit, f: CheckEdit) {
    e.index != f.index || e.offset + e.clusters <= f.offset || f.offset + f.clusters <= e.offset
  }

  ghost predicate Edited(edits: seq<CheckEdit>, i: nat, o: nat) {
    exists k :: 0 <= k < |edits| && edits[k].Holds(i, o)
  }

  // The edit lies in the target.
  predicate EditIn(e: CheckEdit, t: CheckTarget) {
    e.index == t.index && t.offset <= e.offset && e.offset + e.clusters <= t.offset + t.clusters
  }

  // Classifies the clusters of a target, which buffer holds from firstLcn on,
  // and appends one edit per run of clusters that look alike.
  method Classify(target: CheckTarget, firstLcn: nat, buffer: seq<ClusterContent>, before: seq<CheckEdit>,
                  ghost resolved: seq<Resolved>, ghost encrypted: set<nat>, ghost contentAt: nat -> ClusterContent)
    returns (edits: seq<CheckEdit>)
    requires TargetOf(target, resolved, encrypted)
    requires firstLcn <= target.lcn && target.lcn + target.clusters <= firstLcn + |buffer|
    requires forall k :: 0 <= k < |buffer| ==> buffer[k] == contentAt(firstLcn + k)
    requires Pairwise(before, EditsApart)
    requires Untouched(before, target)
    ensures |before| <= |edits| && edits[..|before|] == before
    ensures forall k :: |before| <= k < |edits| ==> EditRight(edits[k], resolved, encrypted, contentAt) && EditIn(edits[k], target)
    ensures Pairwise(edits, EditsApart)
    ensures forall o :: target.offset <= o < target.offset + target.clusters ==> Edited(edits, target.index, o)
  {
    edits := before;
    var runCondition: Option<ClusterCondition> := None;
    var runStart := 0;
    for c := 0 to target.clusters
      invariant runStart <= c && (c > 0 ==> runCondition.Some? && runStart < c)
      invariant runCondition.None? <==> c == 0
      invariant runCondition.Some? ==> Looks(target.lcn + runStart, target.lcn + c, runCondition.value, contentAt)
      invariant |before| <= |edits| && edits[..|before|] == before
      invariant forall k :: |before| <= k < |edits| ==> EditRight(edits[k], resolved, encrypted, contentAt) && EditIn(edits[k], target)
      invariant forall k :: |before| <= k < |edits| ==> edits[k].offset + edits[k].clusters <= target.offset + runStart
      invariant Pairwise(edits, EditsApart)
      invariant forall o :: target.offset <= o < target.offset + runStart ==> Edited(edits, target.index, o)
    {
      var condition := Verdict(buffer[target.lcn + c - firstLcn]);
      if runCondition != Some(condition) {
        if runCondition.Some? {
          edits := CloseRun(edits, before, target, runStart, c, runCondition.value, resolved, encrypted, contentAt);
        }
        runCondition := Some(condition);
        runStart := c;
      }
    }
    edits := CloseRun(edits, before, target, runStart, target.clusters, runCondition.value, resolved, encrypted, contentAt);
  }

  // Appends the edit of the run [from, to) of a target.
  method CloseRun(was: seq<CheckEdit>, ghost before: seq<CheckEdit>, target: CheckTarget, from: nat, to: nat, condition: ClusterCondition,
                  ghost resolved: seq<Resolved>, ghost encrypted: set<nat>, ghost contentAt: nat -> ClusterContent)
    returns (edits: seq<CheckEdit>)
    requires TargetOf(target, resolved, encrypted) && from < to <= target.clusters
    requires Looks(target.lcn + from, target.lcn + to, condition, contentAt)
    requires |before| <= |was| && was[..|before|] == before
    requires Untouched(before, target)
    requires forall k :: |before| <= k < |was| ==> EditRight(was[k], resolved, encrypted, contentAt) && EditIn(was[k], target)
    requires forall k :: |before| <= k < |was| ==> was[k].offset + was[k].clusters <= target.offset + from
    requires Pairwise(was, EditsApart)
    requires forall o :: target.offset <= o < target.offset + from ==> Edited(was, target.index, o)
    ensures |before| <= |edits| && edits[..|before|] == before
    ensures forall k :: |before| <= k < |edits| ==> EditRight(edits[k], resolved, encrypted, contentAt) && EditIn(edits[k], target)
    ensures forall k :: |before| <= k < |edits| ==> edits[k].offset + edits[k].clusters <= target.offset + to
    ensures Pairwise(edits, EditsApart)
    ensures forall o :: target.offset <= o < target.offset + to ==> Edited(edits, target.index, o)
  {
    var edit := CheckEdit(target.index, target.offset + from, to - from, condition);
    edits := was + [edit];
    forall k | 0 <= k < |was| ensures EditsApart(was[k], edit) && EditsApart(edit, was[k]) {
      if k < |before| { assert was[k] == before[k]; }
    }
    forall o | target.offset <= o < target.offset + to ensures Edited(edits, target.index, o) {
      if o < target.offset + from {
        assert Edited(was, target.index, o);
        var k :| 0 <= k < |was| && was[k].Holds(target.index, o);
        assert edits[k].Holds(target.index, o);
      } else {
        assert edits[|was|].Holds(target.index, o);
      }
    }
  }

  // A byte address MUST fit 63 bits.
  predicate Addressable(read: CheckRead, maxLcn: nat) {
    read.lcn <= maxLcn && read.clusters <= maxLcn - read.lcn
  }

  // Every target of the first n ones lies in a read that came back.
  ghost predicate AllServed(plan: seq<CheckRead>, maxLcn: nat, readOk: (nat, nat) -> bool) {
    forall r :: 0 <= r < |plan| ==> Addressable(plan[r], maxLcn) && readOk(plan[r].lcn, plan[r].clusters)
  }

  // No edit touches a target from n on.
  predicate LaterUntouched(edits: seq<CheckEdit>, targets: seq<CheckTarget>, n: nat) {
    forall t :: n <= t < |targets| ==> Untouched(edits, targets[t])
  }

  // Makes the reads, in order, and classifies every cluster of every target. A
  // read that fails leaves its targets as they were.
  method ReadAll(targets: seq<CheckTarget>, plan: seq<CheckRead>, maxLcn: nat, readOk: (nat, nat) -> bool, contentAt: nat -> ClusterContent,
                 ghost resolved: seq<Resolved>, ghost encrypted: set<nat>)
    returns (edits: seq<CheckEdit>, clustersRead: nat)
    requires Pairwise(targets, TargetsApart)
    requires forall k :: 0 <= k < |targets| ==> TargetOf(targets[k], resolved, encrypted)
    requires ReadsPartition(plan, |targets|)
    requires forall r :: 0 <= r < |plan| ==> ReadHolds(plan[r], targets)
    ensures forall k :: 0 <= k < |edits| ==> EditRight(edits[k], resolved, encrypted, contentAt)
    ensures Pairwise(edits, EditsApart)
    ensures AllServed(plan, maxLcn, readOk) ==> forall i, o: nat :: Targeted(targets, i, o) ==> Edited(edits, i, o)
    ensures clustersRead == ClustersOf(plan, maxLcn, readOk)
  {
    hide ClustersOf;
    NoneRead(maxLcn, readOk);
    edits, clustersRead := [], 0;
    ghost var done: nat := 0;
    assert plan[..|plan|] == plan;
    for r := 0 to |plan|
      invariant done <= |targets| && ReadsPartition(plan[..r], done)
      invariant clustersRead == ClustersOf(plan[..r], maxLcn, readOk)
      invariant forall k :: 0 <= k < |edits| ==> EditRight(edits[k], resolved, encrypted, contentAt)
      invariant Pairwise(edits, EditsApart)
      invariant LaterUntouched(edits, targets, done)
      invariant AllServed(plan, maxLcn, readOk) ==> TargetsEdited(edits, targets, done)
    {
      PartitionNext(plan, r, done, |targets|);
      ClustersOfNext(plan, r, maxLcn, readOk);
      var read := plan[r];
      done := done + read.targetCount;
      if Addressable(read, maxLcn) && readOk(read.lcn, read.clusters) {
        var buffer := seq(read.clusters, k requires 0 <= k < read.clusters => contentAt(read.lcn + k));
        clustersRead := clustersRead + read.clusters;
        edits := ClassifyRead(targets, read, buffer, edits, contentAt, resolved, encrypted);
      }
    }
    assert plan[..|plan|] == plan;
    PartitionUnique(plan, done, |targets|);
  }

  lemma NoneRead(maxLcn: nat, readOk: (nat, nat) -> bool)
    ensures ClustersOf([], maxLcn, readOk) == 0
  {
  }

  // Every cluster of the first n targets has an edit.
  ghost predicate TargetsEdited(edits: seq<CheckEdit>, targets: seq<CheckTarget>, n: nat) {
    forall t, o: nat :: 0 <= t < n && t < |targets| && targets[t].offset <= o < targets[t].offset + targets[t].clusters ==>
      Edited(edits, targets[t].index, o)
  }

  lemma {:induction false} PartitionUnique(plan: seq<CheckRead>, n: nat, m: nat)
    requires ReadsPartition(plan, n) && ReadsPartition(plan, m)
    ensures n == m
  {
  }

  // The read at r takes the targets after those of the reads before it.
  lemma {:induction false} PartitionNext(plan: seq<CheckRead>, r: nat, done: nat, n: nat)
    requires ReadsPartition(plan, n) && r < |plan| && ReadsPartition(plan[..r], done)
    ensures plan[r].firstTarget == done && done + plan[r].targetCount <= n
    ensures ReadsPartition(plan[..r + 1], done + plan[r].targetCount)
  {
    var front := plan[..|plan| - 1];
    assert plan[..r + 1][..r] == plan[..r];
    if r == |plan| - 1 {
      PartitionUnique(front, done, plan[r].firstTarget);
    } else {
      assert front[..r] == plan[..r];
      PartitionNext(front, r, done, plan[|plan| - 1].firstTarget);
    }
  }

  // Classifies the targets of one read.
  method ClassifyRead(targets: seq<CheckTarget>, read: CheckRead, buffer: seq<ClusterContent>, before: seq<CheckEdit>,
                      ghost contentAt: nat -> ClusterContent, ghost resolved: seq<Resolved>, ghost encrypted: set<nat>)
    returns (edits: seq<CheckEdit>)
    requires Pairwise(targets, TargetsApart)
    requires forall k :: 0 <= k < |targets| ==> TargetOf(targets[k], resolved, encrypted)
    requires ReadHolds(read, targets)
    requires |buffer| == read.clusters && forall k :: 0 <= k < |buffer| ==> buffer[k] == contentAt(read.lcn + k)
    requires forall k :: 0 <= k < |before| ==> EditRight(before[k], resolved, encrypted, contentAt)
    requires Pairwise(before, EditsApart) && LaterUntouched(before, targets, read.firstTarget)
    ensures forall k :: 0 <= k < |edits| ==> EditRight(edits[k], resolved, encrypted, contentAt)
    ensures Pairwise(edits, EditsApart)
    ensures LaterUntouched(edits, targets, read.firstTarget + read.targetCount)
    ensures TargetsEdited(before, targets, read.firstTarget) ==> TargetsEdited(edits, targets, read.firstTarget + read.targetCount)
  {
    edits := before;
    for t := read.firstTarget to read.firstTarget + read.targetCount
      invariant forall k :: 0 <= k < |edits| ==> EditRight(edits[k], resolved, encrypted, contentAt)
      invariant Pairwise(edits, EditsApart)
      invariant LaterUntouched(edits, targets, t)
      invariant TargetsEdited(before, targets, read.firstTarget) ==> TargetsEdited(edits, targets, t)
    {
      ghost var was := edits;
      edits := Classify(targets[t], read.lcn, buffer, edits, resolved, encrypted, contentAt);
      ClassifiedOneMore(was, edits, targets, t);
    }
  }

  lemma ClassifiedOneMore(was: seq<CheckEdit>, edits: seq<CheckEdit>, targets: seq<CheckTarget>, t: nat)
    requires t < |targets| && Pairwise(targets, TargetsApart)
    requires |was| <= |edits| && edits[..|was|] == was
    requires forall k :: |was| <= k < |edits| ==> EditIn(edits[k], targets[t])
    requires LaterUntouched(was, targets, t)
    requires forall o :: targets[t].offset <= o < targets[t].offset + targets[t].clusters ==> Edited(edits, targets[t].index, o)
    ensures LaterUntouched(edits, targets, t + 1)
    ensures TargetsEdited(was, targets, t) ==> TargetsEdited(edits, targets, t + 1)
  {
    forall u | t + 1 <= u < |targets| ensures Untouched(edits, targets[u]) {
      assert Untouched(was, targets[u]) && TargetsApart(targets[t], targets[u]);
      forall k | 0 <= k < |edits|
        ensures edits[k].index != targets[u].index
          || edits[k].offset + edits[k].clusters <= targets[u].offset || targets[u].offset + targets[u].clusters <= edits[k].offset
      {
        if k < |was| { assert edits[k] == was[k]; }
      }
    }
    if TargetsEdited(was, targets, t) {
      forall u, o: nat | 0 <= u < t + 1 && u < |targets| && targets[u].offset <= o < targets[u].offset + targets[u].clusters
        ensures Edited(edits, targets[u].index, o)
      {
        if u < t {
          assert Edited(was, targets[u].index, o);
          var k :| 0 <= k < |was| && was[k].Holds(targets[u].index, o);
          assert edits[k].Holds(targets[u].index, o);
        }
      }
    }
  }

  // -------------------------------------------------------------------------
  // Splitting the stretches
  // -------------------------------------------------------------------------

  // One cluster of a stretch.
  datatype StretchCell = StretchCell(lcn: nat, vcn: nat, account: nat, condition: ClusterCondition)

  function CellsOf(s: Resolved): seq<StretchCell> {
    seq(s.clusters, o requires 0 <= o < s.clusters => StretchCell(s.lcn + o, s.vcn + o, s.account, s.condition))
  }

  function AllCells(resolved: seq<Resolved>): seq<StretchCell> {
    if resolved == [] then [] else AllCells(resolved[..|resolved| - 1]) + CellsOf(resolved[|resolved| - 1])
  }

  // The clusters of stretch i, those with an edit judged by their content.
  ghost function CheckedCells(s: Resolved, i: nat, edits: seq<CheckEdit>, contentAt: nat -> ClusterContent): seq<StretchCell> {
    seq(s.clusters, o requires 0 <= o < s.clusters =>
      StretchCell(s.lcn + o, s.vcn + o, s.account, if Edited(edits, i, o) then Verdict(contentAt(s.lcn + o)) else s.condition))
  }

  ghost function AllChecked(resolved: seq<Resolved>, n: nat, edits: seq<CheckEdit>, contentAt: nat -> ClusterContent): seq<StretchCell>
    requires n <= |resolved|
  {
    if n == 0 then [] else AllChecked(resolved, n - 1, edits, contentAt) + CheckedCells(resolved[n - 1], n - 1, edits, contentAt)
  }

  predicate ByPlace(e: CheckEdit, f: CheckEdit) {
    e.index < f.index || (e.index == f.index && e.offset <= f.offset)
  }

  lemma PartCellsAdded(before: seq<Resolved>, part: Resolved)
    ensures AllCells(before + [part]) == AllCells(before) + CellsOf(part)
  {
    assert (before + [part])[..|before|] == before;
  }

  // Appends the part [offset, offset + clusters) of a stretch, unless it is
  // empty. cells are the checked cells of the stretch.
  method Emit(before: seq<Resolved>, stretch: Resolved, offset: nat, clusters: nat, condition: ClusterCondition,
              ghost base: seq<StretchCell>, ghost cells: seq<StretchCell>)
    returns (result: seq<Resolved>)
    requires offset + clusters <= stretch.clusters == |cells|
    requires forall o :: offset <= o < offset + clusters ==> cells[o] == StretchCell(stretch.lcn + o, stretch.vcn + o, stretch.account, condition)
    requires AllCells(before) == base + cells[..offset]
    requires forall k :: 0 <= k < |before| ==> before[k].clusters > 0
    ensures AllCells(result) == base + cells[..offset + clusters]
    ensures forall k :: 0 <= k < |result| ==> result[k].clusters > 0
  {
    result := before;
    if clusters != 0 {
      var part := Resolved(stretch.lcn + offset, stretch.vcn + offset, clusters, stretch.account, condition);
      result := before + [part];
      assert CellsOf(part) == cells[offset..offset + clusters];
      hide CellsOf;
      PartCellsAdded(before, part);
      SliceJoined(base, cells, offset, offset + clusters);
    }
  }

  // The edits of a sorted list from edit on belong to stretch i or a later one,
  // and start at done or after in it.
  predicate EditsFrom(edits: seq<CheckEdit>, edit: nat, i: nat, done: nat) {
    && edit <= |edits|
    && (forall k :: edit <= k < |edits| ==> edits[k].index > i || (edits[k].index == i && edits[k].offset >= done))
    && (forall k :: 0 <= k < edit ==> edits[k].index < i || (edits[k].index == i && edits[k].offset + edits[k].clusters <= done))
  }

  // Splits one stretch at the edges of its edits.
  method ApplyTo(before: seq<Resolved>, resolved: seq<Resolved>, i: nat, edits: seq<CheckEdit>, first: nat,
                 ghost encrypted: set<nat>, ghost contentAt: nat -> ClusterContent)
    returns (result: seq<Resolved>, edit: nat)
    requires i < |resolved| && SortedBy(edits, ByPlace) && Pairwise(edits, EditsApart)
    requires forall k :: 0 <= k < |edits| ==> EditRight(edits[k], resolved, encrypted, contentAt)
    requires EditsFrom(edits, first, i, 0)
    requires forall k :: 0 <= k < |before| ==> before[k].clusters > 0
    ensures AllCells(result) == AllCells(before) + CheckedCells(resolved[i], i, edits, contentAt)
    ensures EditsFrom(edits, edit, i + 1, 0)
    ensures forall k :: 0 <= k < |result| ==> result[k].clusters > 0
  {
    hide AllCells;
    var stretch := resolved[i];
    ghost var cells := CheckedCells(stretch, i, edits, contentAt);
    result, edit := before, first;
    var done: nat := 0;
    while edit < |edits| && edits[edit].index == i
      invariant EditsFrom(edits, edit, i, done) && done <= stretch.clusters
      invariant AllCells(result) == AllCells(before) + cells[..done]
      invariant forall k :: 0 <= k < |result| ==> result[k].clusters > 0
      decreases |edits| - edit
    {
      var found := edits[edit];
      assert EditRight(found, resolved, encrypted, contentAt);
      UneditedBetween(edits, edit, i, done, found.offset);
      result := Emit(result, stretch, done, found.offset - done, stretch.condition, AllCells(before), cells);
      forall o | found.offset <= o < found.offset + found.clusters ensures Edited(edits, i, o) {
        assert edits[edit].Holds(i, o);
      }
      result := Emit(result, stretch, found.offset, found.clusters, found.condition, AllCells(before), cells);
      done := found.offset + found.clusters;
      forall k | edit + 1 <= k < |edits| ensures edits[k].index > i || (edits[k].index == i && edits[k].offset >= done) {
        assert ByPlace(edits[edit], edits[k]) && EditsApart(edits[edit], edits[k]);
        assert EditRight(edits[k], resolved, encrypted, contentAt);
      }
      edit := edit + 1;
    }
    UneditedBetween(edits, edit, i, done, stretch.clusters);
    result := Emit(result, stretch, done, stretch.clusters - done, stretch.condition, AllCells(before), cells);
    assert cells[..stretch.clusters] == cells;
    forall k | edit <= k < |edits| ensures edits[k].index > i {
      assert k == edit || ByPlace(edits[edit], edits[k]);
    }
  }

  lemma UneditedBetween(edits: seq<CheckEdit>, edit: nat, i: nat, done: nat, to: nat)
    requires SortedBy(edits, ByPlace) && EditsFrom(edits, edit, i, done)
    requires edit < |edits| && edits[edit].index == i ==> to <= edits[edit].offset
    ensures forall o: nat :: done <= o < to ==> !Edited(edits, i, o)
  {
    forall o: nat | done <= o < to ensures !Edited(edits, i, o) {
      forall k | 0 <= k < |edits| ensures !edits[k].Holds(i, o) {
        if k > edit {
          assert ByPlace(edits[edit], edits[k]);
        }
      }
    }
  }

  // Splits the stretches that edits touch, and gives the clusters of each edit
  // its condition. The others stay as they were.
  method Apply(resolved: seq<Resolved>, unsorted: seq<CheckEdit>, ghost encrypted: set<nat>, ghost contentAt: nat -> ClusterContent)
    returns (result: seq<Resolved>)
    requires Pairwise(unsorted, EditsApart)
    requires forall k :: 0 <= k < |unsorted| ==> EditRight(unsorted[k], resolved, encrypted, contentAt)
    ensures AllCells(result) == AllChecked(resolved, |resolved|, unsorted, contentAt)
    ensures forall k :: 0 <= k < |result| ==> result[k].clusters > 0
  {
    var edits := Sort(unsorted, ByPlace);
    SortSorts(unsorted, ByPlace);
    SortPairwise(unsorted, ByPlace, EditsApart);
    forall k | 0 <= k < |edits| ensures EditRight(edits[k], resolved, encrypted, contentAt) {
      assert edits[k] in unsorted;
    }
    result := [];
    var edit := 0;
    for i := 0 to |resolved|
      invariant EditsFrom(edits, edit, i, 0)
      invariant AllCells(result) == AllChecked(resolved, i, edits, contentAt)
      invariant forall k :: 0 <= k < |result| ==> result[k].clusters > 0
    {
      result, edit := ApplyTo(result, resolved, i, edits, edit, encrypted, contentAt);
    }
    SameEdits(resolved, |resolved|, unsorted, edits, contentAt);
  }

  lemma {:induction false} SameEdits(resolved: seq<Resolved>, n: nat, edits: seq<CheckEdit>, sorted: seq<CheckEdit>, contentAt: nat -> ClusterContent)
    requires n <= |resolved|
    requires forall e :: e in edits <==> e in sorted
    ensures AllChecked(resolved, n, sorted, contentAt) == AllChecked(resolved, n, edits, contentAt)
  {
    if n > 0 {
      SameEdits(resolved, n - 1, edits, sorted, contentAt);
      var i: nat := n - 1;
      forall o: nat ensures Edited(edits, i, o) <==> Edited(sorted, i, o) {
        if Edited(edits, i, o) {
          var k :| 0 <= k < |edits| && edits[k].Holds(i, o);
          assert edits[k] in sorted;
        }
        if Edited(sorted, i, o) {
          var k :| 0 <= k < |sorted| && sorted[k].Holds(i, o);
          assert sorted[k] in edits;
        }
      }
    }
  }

  // -------------------------------------------------------------------------
  // The whole check
  // -------------------------------------------------------------------------

  // What the check reads with: the bytes of a cluster and of the longest read
  // and gap, and what the medium answers.
  datatype CheckRules = CheckRules(clusterSize: nat, maxReadBytes: nat, maxGapBytes: nat)

  // The stretches after the check are those before it, split, with the edits.
  ghost predicate Checked(resolved: seq<Resolved>, result: seq<Resolved>, encrypted: set<nat>, edits: seq<CheckEdit>,
                          contentAt: nat -> ClusterContent)
  {
    && AllCells(result) == AllChecked(resolved, |resolved|, edits, contentAt)
    && (forall k :: 0 <= k < |edits| ==> EditRight(edits[k], resolved, encrypted, contentAt))
    && (forall k :: 0 <= k < |result| ==> result[k].clusters > 0)
  }

  lemma {:induction false} NothingEdited(resolved: seq<Resolved>, n: nat, edits: seq<CheckEdit>, contentAt: nat -> ClusterContent)
    requires n <= |resolved| && |edits| == 0
    ensures AllChecked(resolved, n, edits, contentAt) == AllCells(resolved[..n])
  {
    if n > 0 {
      NothingEdited(resolved, n - 1, edits, contentAt);
      assert resolved[..n][..n - 1] == resolved[..n - 1];
      assert CheckedCells(resolved[n - 1], n - 1, edits, contentAt) == CellsOf(resolved[n - 1]);
    }
  }

  // The medium answers every read, and no stretch lies past what it can address.
  ghost predicate Answering(resolved: seq<Resolved>, encrypted: set<nat>, clusterSize: nat, readOk: (nat, nat) -> bool) {
    && clusterSize > 0
    && (forall lcn, n :: readOk(lcn, n))
    && (forall i :: 0 <= i < |resolved| && Readable(resolved[i], encrypted) ==> resolved[i].End() <= UnitOf(I64_MAX, clusterSize))
  }

  // The targets, by address.
  method SortTargets(chosen: seq<CheckTarget>, perRead: nat, ghost mode: CheckMode, ghost resolved: seq<Resolved>, ghost encrypted: set<nat>)
    returns (targets: seq<CheckTarget>)
    requires ChosenFor(chosen, resolved, encrypted, mode, perRead)
    ensures SortedBy(targets, ByAddress) && ChosenFor(targets, resolved, encrypted, mode, perRead)
  {
    targets := Sort(chosen, ByAddress);
    SortSorts(chosen, ByAddress);
    SortPairwise(chosen, ByAddress, TargetsApart);
    forall k | 0 <= k < |targets| ensures targets[k] in chosen {
    }
    if mode == Full { AllStillTargeted(chosen, targets, resolved, encrypted); }
    if mode == Sample { StillSampled(chosen, targets, resolved, encrypted); }
  }

  lemma AllStillTargeted(chosen: seq<CheckTarget>, targets: seq<CheckTarget>, resolved: seq<Resolved>, encrypted: set<nat>)
    requires (forall t :: t in targets <==> t in chosen) && AllTargeted(chosen, resolved, encrypted)
    ensures AllTargeted(targets, resolved, encrypted)
  {
    forall i, o: nat | 0 <= i < |resolved| && Readable(resolved[i], encrypted) && o < resolved[i].clusters ensures Targeted(targets, i, o) {
      SameTargets(chosen, targets, i, o);
    }
  }

  lemma StillSampled(chosen: seq<CheckTarget>, targets: seq<CheckTarget>, resolved: seq<Resolved>, encrypted: set<nat>)
    requires (forall t :: t in targets <==> t in chosen) && Sampled(chosen, resolved, encrypted)
    ensures Sampled(targets, resolved, encrypted)
  {
    forall k | 0 <= k < |targets| ensures SampleTarget(targets[k], resolved, encrypted) {
      assert targets[k] in chosen;
    }
    forall i | 0 <= i < |resolved| && Readable(resolved[i], encrypted)
      ensures exists k :: 0 <= k < |targets| && TakesAccount(targets[k], resolved, resolved[i].account)
    {
      var k :| 0 <= k < |chosen| && TakesAccount(chosen[k], resolved, resolved[i].account);
      assert chosen[k] in targets;
      var j :| 0 <= j < |targets| && targets[j] == chosen[k];
    }
  }

  // The longest read, in clusters, and the gap a read goes across.
  function PerRead(rules: CheckRules): (n: nat)
    requires rules.clusterSize > 0
    ensures n > 0
  {
    Max(1, rules.maxReadBytes / rules.clusterSize)
  }

  function MaxGap(rules: CheckRules): nat
    requires rules.clusterSize > 0
  {
    rules.maxGapBytes / rules.clusterSize
  }

  // So many clusters came back of the reads that targets chosen for the mode take.
  ghost predicate ReadsCounted(resolved: seq<Resolved>, encrypted: set<nat>, mode: CheckMode, rules: CheckRules, readOk: (nat, nat) -> bool, clustersRead: nat)
    requires rules.clusterSize > 0
  {
    exists targets, plan :: PlannedFor(targets, plan, resolved, encrypted, mode, rules) && clustersRead == ClustersOf(plan, UnitOf(I64_MAX, rules.clusterSize), readOk)
  }

  ghost predicate PlannedFor(targets: seq<CheckTarget>, plan: seq<CheckRead>, resolved: seq<Resolved>, encrypted: set<nat>, mode: CheckMode, rules: CheckRules)
    requires rules.clusterSize > 0
  {
    && SortedBy(targets, ByAddress) && ChosenFor(targets, resolved, encrypted, mode, PerRead(rules))
    && PlanRight(plan, targets, |targets|, PerRead(rules), MaxGap(rules))
  }

  // Reads the chosen targets and splits the stretches by what they hold.
  method CheckChosen(chosen: seq<CheckTarget>, resolved: seq<Resolved>, mode: CheckMode, rules: CheckRules,
                     readOk: (nat, nat) -> bool, contentAt: nat -> ClusterContent, ghost encrypted: set<nat>)
    returns (result: seq<Resolved>, clustersRead: nat, ghost edits: seq<CheckEdit>)
    requires rules.clusterSize > 0 && ChosenFor(chosen, resolved, encrypted, mode, PerRead(rules))
    ensures Checked(resolved, result, encrypted, edits, contentAt)
    ensures ReadsCounted(resolved, encrypted, mode, rules, readOk, clustersRead)
    ensures mode == Full && Answering(resolved, encrypted, rules.clusterSize, readOk) ==> AllJudged(resolved, encrypted, edits)
  {
    hide UnitOf, Targeted, Edited, TargetOf, EditRight, ReadRight, CannotGrow, ClustersOf, PerRead, MaxGap, Sampled;
    var targets := SortTargets(chosen, PerRead(rules), mode, resolved, encrypted);
    var plan := PlanReads(targets, PerRead(rules), MaxGap(rules));
    ReadsHold(plan, targets, PerRead(rules), MaxGap(rules));
    var maxLcn := UnitOf(I64_MAX, rules.clusterSize);
    var found;
    found, clustersRead := ReadAll(targets, plan, maxLcn, readOk, contentAt, resolved, encrypted);
    result := Apply(resolved, found, encrypted, contentAt);
    edits := found;
    if Answering(resolved, encrypted, rules.clusterSize, readOk) {
      ServedWhole(targets, plan, maxLcn, readOk, resolved, encrypted);
    }
    assert PlannedFor(targets, plan, resolved, encrypted, mode, rules);
  }

  lemma ReadsHold(plan: seq<CheckRead>, targets: seq<CheckTarget>, maxClusters: nat, maxGap: nat)
    requires forall r :: 0 <= r < |plan| ==> ReadRight(plan[r], targets, maxClusters, maxGap)
    ensures forall r :: 0 <= r < |plan| ==> ReadHolds(plan[r], targets) && EndsWithTarget(plan[r], targets)
  {
  }

  // Replaces the readable stretches that the check could read by the stretches
  // it found, and tells how many clusters it read. Only a cluster presumed
  // intact, of a stream that is not encrypted, changes, and it takes the
  // condition that its own content gives it. A full check over a medium that
  // answers every read judges all of them.
  method Check(resolved: seq<Resolved>, encrypted: set<nat>, mode: CheckMode, rules: CheckRules,
               readOk: (nat, nat) -> bool, contentAt: nat -> ClusterContent)
    returns (result: seq<Resolved>, clustersRead: nat, ghost edits: seq<CheckEdit>)
    requires forall i :: 0 <= i < |resolved| ==> resolved[i].clusters > 0
    ensures Checked(resolved, result, encrypted, edits, contentAt)
    ensures if rules.clusterSize == 0 then result == resolved && clustersRead == 0 else ReadsCounted(resolved, encrypted, mode, rules, readOk, clustersRead)
    ensures mode == Full && Answering(resolved, encrypted, rules.clusterSize, readOk) ==> AllJudged(resolved, encrypted, edits)
  {
    hide PerRead;
    if rules.clusterSize == 0 {
      result, clustersRead, edits := Unchecked(resolved, encrypted, contentAt);
      return;
    }
    var chosen := ChooseTargets(resolved, encrypted, mode, PerRead(rules));
    if chosen == [] {
      if mode == Full { NothingTargeted(chosen, resolved, encrypted); }
      result, clustersRead, edits := Unchecked(resolved, encrypted, contentAt);
      NoneRead(UnitOf(I64_MAX, rules.clusterSize), readOk);
      assert PlannedFor(chosen, [], resolved, encrypted, mode, rules);
      return;
    }
    result, clustersRead, edits := CheckChosen(chosen, resolved, mode, rules, readOk, contentAt, encrypted);
  }

  ghost predicate AllJudged(resolved: seq<Resolved>, encrypted: set<nat>, edits: seq<CheckEdit>) {
    forall i, o: nat :: 0 <= i < |resolved| && resolved[i].condition == Intact && resolved[i].account !in encrypted && o < resolved[i].clusters ==> Edited(edits, i, o)
  }

  // Nothing is read: the stretches stay as they are.
  method Unchecked(resolved: seq<Resolved>, ghost encrypted: set<nat>, ghost contentAt: nat -> ClusterContent)
    returns (result: seq<Resolved>, clustersRead: nat, ghost edits: seq<CheckEdit>)
    requires forall i :: 0 <= i < |resolved| ==> resolved[i].clusters > 0
    ensures result == resolved && clustersRead == 0
    ensures Checked(resolved, result, encrypted, edits, contentAt)
  {
    result, clustersRead, edits := resolved, 0, [];
    assert resolved[..|resolved|] == resolved;
    NothingEdited(resolved, |resolved|, edits, contentAt);
  }

  lemma NothingTargeted(chosen: seq<CheckTarget>, resolved: seq<Resolved>, encrypted: set<nat>)
    requires |chosen| == 0
    requires forall i :: 0 <= i < |resolved| ==> resolved[i].clusters > 0
    requires AllTargeted(chosen, resolved, encrypted)
    ensures forall i :: 0 <= i < |resolved| ==> !Readable(resolved[i], encrypted)
  {
    forall i | 0 <= i < |resolved| ensures !Readable(resolved[i], encrypted) {
      assert !Targeted(chosen, i, 0);
    }
  }

  lemma SameTargets(chosen: seq<CheckTarget>, targets: seq<CheckTarget>, i: nat, o: nat)
    requires forall t :: t in targets <==> t in chosen
    requires Targeted(chosen, i, o)
    ensures Targeted(targets, i, o)
  {
    var k :| 0 <= k < |chosen| && chosen[k].index == i && chosen[k].offset <= o < chosen[k].offset + chosen[k].clusters;
    assert chosen[k] in targets;
    var j :| 0 <= j < |targets| && targets[j] == chosen[k];
  }

  lemma ServedWhole(targets: seq<CheckTarget>, plan: seq<CheckRead>, maxLcn: nat, readOk: (nat, nat) -> bool,
                    resolved: seq<Resolved>, encrypted: set<nat>)
    requires forall lcn, n :: readOk(lcn, n)
    requires forall i :: 0 <= i < |resolved| && Readable(resolved[i], encrypted) ==> resolved[i].End() <= maxLcn
    requires forall k :: 0 <= k < |targets| ==> TargetOf(targets[k], resolved, encrypted)
    requires forall r :: 0 <= r < |plan| ==> EndsWithTarget(plan[r], targets)
    ensures AllServed(plan, maxLcn, readOk)
  {
    forall r | 0 <= r < |plan| ensures Addressable(plan[r], maxLcn) {
      var t :| plan[r].firstTarget <= t < plan[r].firstTarget + plan[r].targetCount && t < |targets|
        && targets[t].lcn + targets[t].clusters == plan[r].lcn + plan[r].clusters;
      assert TargetOf(targets[t], resolved, encrypted);
    }
  }
}
