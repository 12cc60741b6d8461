// The sweep in LCN order over the claims of a scan: what every cluster of every
// concerned stream is worth, judged against all the other claims that cover it.
module ClusterSweep {
  import opened Prelude
  import opened AllocTypes
  import opened ClaimInventory

  // A stretch of one stream that the sweep settled.
  datatype Resolved = Resolved(lcn: nat, vcn: nat, clusters: nat, account: nat, condition: ClusterCondition) {
    function End(): nat { lcn + clusters }
  }

  // A claim that covers the stretch being judged.
  datatype Active = Active(lcn: nat, vcn: nat, end: nat, lsn: nat, owner: nat, account: Option<nat>,
                           freed: bool, unwritten: bool)

  // What the other claimants of a cluster say of a claim.
  datatype Rivals = Rivals(liveWritten: bool, liveAny: bool, freedLater: bool, freedUnordered: bool) {
    // The condition the rivals impose on a freed claim, if any.
    function Verdict(): Option<ClusterCondition> {
      if liveWritten then Some(ClusterCondition.ReallocatedWritten)
      else if liveAny then Some(ClusterCondition.ReallocatedUnwritten)
      else if freedLater then Some(ClusterCondition.OverwrittenThenFreed)
      else if freedUnordered then Some(ClusterCondition.Contested)
      else None
    }
  }

  // -------------------------------------------------------------------------
  // What a cluster is worth, said of the claims alone
  // -------------------------------------------------------------------------

  predicate ClaimOf(inv: Inventory, i: nat) {
    && i < |inv.claims|
    && inv.claims[i].stream < |inv.streams|
    && inv.streams[inv.claims[i].stream].owner < |inv.owners|
  }

  function StreamRefOf(inv: Inventory, i: nat): StreamRef
    requires ClaimOf(inv, i)
  {
    inv.streams[inv.claims[i].stream]
  }

  function OwnerOf(inv: Inventory, i: nat): Owner
    requires ClaimOf(inv, i)
  {
    inv.owners[StreamRefOf(inv, i).owner]
  }

  predicate Covers(inv: Inventory, i: nat, x: nat) {
    ClaimOf(inv, i) && inv.claims[i].lcn <= x < inv.claims[i].End()
  }

  // Claim j covers cluster x too, for another record.
  predicate Rival(inv: Inventory, i: nat, j: nat, x: nat)
    requires ClaimOf(inv, i)
  {
    Covers(inv, j, x) && StreamRefOf(inv, j).owner != StreamRefOf(inv, i).owner
  }

  // A live record claims the cluster.
  ghost predicate ClaimedLive(inv: Inventory, i: nat, x: nat)
    requires ClaimOf(inv, i)
  {
    exists j: nat :: Rival(inv, i, j, x) && !OwnerOf(inv, j).freed
  }

  // A live record claims the cluster within its valid data length.
  ghost predicate ClaimedLiveWritten(inv: Inventory, i: nat, x: nat)
    requires ClaimOf(inv, i)
  {
    exists j: nat :: Rival(inv, i, j, x) && !OwnerOf(inv, j).freed && !inv.claims[j].Unwritten()
  }

  // Nothing orders the two records when a sequence number is missing, or when
  // they are equal.
  predicate Unordered(a: nat, b: nat) {
    a == b || a == 0 || b == 0
  }

  // A record freed later claims the cluster within its valid data length.
  ghost predicate ClaimedFreedLater(inv: Inventory, i: nat, x: nat)
    requires ClaimOf(inv, i)
  {
    exists j: nat :: Rival(inv, i, j, x) && OwnerOf(inv, j).freed && !inv.claims[j].Unwritten()
      && !Unordered(OwnerOf(inv, j).lsn, OwnerOf(inv, i).lsn) && OwnerOf(inv, j).lsn > OwnerOf(inv, i).lsn
  }

  // A freed record that nothing orders with the claim's claims the cluster.
  ghost predicate ClaimedFreedUnordered(inv: Inventory, i: nat, x: nat)
    requires ClaimOf(inv, i)
  {
    exists j: nat :: Rival(inv, i, j, x) && OwnerOf(inv, j).freed && !inv.claims[j].Unwritten()
      && Unordered(OwnerOf(inv, j).lsn, OwnerOf(inv, i).lsn)
  }

  // The first rule that matches, as the enumeration of the conditions lists
  // them: for a freed record, then for a live one.
  ghost function ConditionAt(inv: Inventory, i: nat, x: nat, state: ClusterState): ClusterCondition
    requires ClaimOf(inv, i)
  {
    if state == ClusterState.OutOfRange then ClusterCondition.Invalid
    else if state == ClusterState.Bad then ClusterCondition.Bad
    else if OwnerOf(inv, i).freed then
      if inv.claims[i].Unwritten() then NeverWritten
      else if ClaimedLiveWritten(inv, i, x) then ReallocatedWritten
      else if ClaimedLive(inv, i, x) then ReallocatedUnwritten
      else if ClaimedFreedLater(inv, i, x) then OverwrittenThenFreed
      else if ClaimedFreedUnordered(inv, i, x) then Contested
      else match state
        case Allocated => AllocatedUnknownOwner
        case Unknown => ClusterCondition.Unknown
        case _ => Intact
    else if ClaimedLive(inv, i, x) then CrossLinked
    else match state
      case Free => FreeButClaimed
      case Unknown => ClusterCondition.Unknown
      case _ => Consistent
  }

  // A cluster is presumed intact for one record at most.
  lemma IntactIsExclusive(inv: Inventory, i: nat, j: nat, x: nat, si: ClusterState, sj: ClusterState)
    requires Covers(inv, i, x) && Covers(inv, j, x)
    requires ConditionAt(inv, i, x, si) == Intact && ConditionAt(inv, j, x, sj) == Intact
    ensures StreamRefOf(inv, i).owner == StreamRefOf(inv, j).owner
  {
    var differ := StreamRefOf(inv, i).owner != StreamRefOf(inv, j).owner;
    assert differ ==> Rival(inv, i, j, x) && Rival(inv, j, i, x);
    assert !ClaimedFreedUnordered(inv, i, x) && !ClaimedFreedLater(inv, i, x) && !ClaimedFreedLater(inv, j, x);
  }

  // A cluster that is consistent for a live record, or presumed intact for a
  // freed one, is claimed by no other live record.
  lemma SoundForOneLiveRecord(inv: Inventory, i: nat, j: nat, x: nat, state: ClusterState)
    requires Covers(inv, i, x) && Covers(inv, j, x) && !OwnerOf(inv, j).freed
    requires ConditionAt(inv, i, x, state) == Consistent || ConditionAt(inv, i, x, state) == Intact
    ensures StreamRefOf(inv, i).owner == StreamRefOf(inv, j).owner
  {
    assert StreamRefOf(inv, i).owner != StreamRefOf(inv, j).owner ==> Rival(inv, i, j, x);
  }

  // -------------------------------------------------------------------------
  // The decisions
  // -------------------------------------------------------------------------

  // What the claims of active say of claim, its own record aside.
  ghost predicate Surveyed(r: Rivals, claim: Active, active: seq<Active>) {
    && (r.liveAny <==> exists k :: 0 <= k < |active| && active[k].owner != claim.owner && !active[k].freed)
    && (r.liveWritten <==>
        exists k :: 0 <= k < |active| && active[k].owner != claim.owner && !active[k].freed && !active[k].unwritten)
    && (r.freedUnordered <==>
        exists k :: 0 <= k < |active| && active[k].owner != claim.owner && active[k].freed && !active[k].unwritten
          && Unordered(active[k].lsn, claim.lsn))
    && (r.freedLater <==>
        exists k :: 0 <= k < |active| && active[k].owner != claim.owner && active[k].freed && !active[k].unwritten
          && !Unordered(active[k].lsn, claim.lsn) && active[k].lsn > claim.lsn)
  }

  // The claimants of active other than claim's own record, as Rivals.
  method SurveyRivals(claim: Active, active: seq<Active>) returns (r: Rivals)
    ensures Surveyed(r, claim, active)
  {
    r := Rivals(false, false, false, false);
    for n := 0 to |active|
      invariant r.liveAny <==> exists k :: 0 <= k < n && active[k].owner != claim.owner && !active[k].freed
      invariant r.liveWritten <==>
        exists k :: 0 <= k < n && active[k].owner != claim.owner && !active[k].freed && !active[k].unwritten
      invariant r.freedUnordered <==>
        exists k :: 0 <= k < n && active[k].owner != claim.owner && active[k].freed && !active[k].unwritten
          && Unordered(active[k].lsn, claim.lsn)
      invariant r.freedLater <==>
        exists k :: 0 <= k < n && active[k].owner != claim.owner && active[k].freed && !active[k].unwritten
          && !Unordered(active[k].lsn, claim.lsn) && active[k].lsn > claim.lsn
    {
      var other := active[n];
      if other.owner == claim.owner {
        continue;
      }
      if !other.freed {
        r := r.(liveAny := true, liveWritten := r.liveWritten || !other.unwritten);
      } else if !other.unwritten {
        if other.lsn == claim.lsn || other.lsn == 0 || claim.lsn == 0 {
          r := r.(freedUnordered := true);
        } else if other.lsn > claim.lsn {
          r := r.(freedLater := true);
        }
      }
    }
  }

  // The condition the bitmap alone settles for any claim.
  function UnreachableCondition(state: ClusterState): Option<ClusterCondition> {
    match state
    case OutOfRange => Some(ClusterCondition.Invalid)
    case Bad => Some(ClusterCondition.Bad)
    case _ => None
  }

  // active lists, in any order, the claims that cover cluster x; ids tells which
  // claim each of them is.
  ghost predicate Listed(inv: Inventory, active: seq<Active>, ids: seq<nat>, x: nat) {
    && |ids| == |active|
    && (forall k :: 0 <= k < |ids| ==> ClaimOf(inv, ids[k]) && active[k] == ActiveOf(inv, ids[k]) && Covers(inv, ids[k], x))
    && (forall j: nat :: Covers(inv, j, x) ==> j in ids)
  }

  function ActiveOf(inv: Inventory, i: nat): Active
    requires ClaimOf(inv, i)
  {
    var c := inv.claims[i];
    Active(c.lcn, c.vcn, c.End(), OwnerOf(inv, i).lsn, StreamRefOf(inv, i).owner, StreamRefOf(inv, i).account,
           OwnerOf(inv, i).freed, c.Unwritten())
  }

  // The same list holds for every cluster of [pos, end).
  ghost predicate ListedOver(inv: Inventory, active: seq<Active>, ids: seq<nat>, pos: nat, end: nat)
    decreases end
  {
    pos >= end || (Listed(inv, active, ids, end - 1) && ListedOver(inv, active, ids, pos, end - 1))
  }

  lemma {:induction false} ListedAt(inv: Inventory, active: seq<Active>, ids: seq<nat>, pos: nat, end: nat, x: nat)
    requires ListedOver(inv, active, ids, pos, end) && pos <= x < end
    ensures Listed(inv, active, ids, x)
    decreases end
  {
    if x < end - 1 {
      ListedAt(inv, active, ids, pos, end - 1, x);
    }
  }

  // Claims listed as active, seen as rivals.
  lemma RivalsListed(inv: Inventory, active: seq<Active>, ids: seq<nat>, x: nat, at: nat)
    requires Listed(inv, active, ids, x) && at < |ids|
    ensures forall k :: 0 <= k < |ids| && active[k].owner != active[at].owner ==> Rival(inv, ids[at], ids[k], x)
    ensures forall j: nat :: Rival(inv, ids[at], j, x) ==>
      exists k :: 0 <= k < |ids| && ids[k] == j && active[k] == ActiveOf(inv, j) && active[k].owner != active[at].owner
  {
    forall j: nat | Rival(inv, ids[at], j, x)
      ensures exists k :: 0 <= k < |ids| && ids[k] == j && active[k] == ActiveOf(inv, j) && active[k].owner != active[at].owner
    {
      var k :| 0 <= k < |ids| && ids[k] == j;
    }
  }

  // The survey of the active claims answers for all the claims of the scan.
  lemma RivalsSeen(inv: Inventory, active: seq<Active>, ids: seq<nat>, x: nat, at: nat, r: Rivals)
    requires Listed(inv, active, ids, x) && at < |ids| && Surveyed(r, active[at], active)
    ensures r.liveAny <==> ClaimedLive(inv, ids[at], x)
    ensures r.liveWritten <==> ClaimedLiveWritten(inv, ids[at], x)
    ensures r.freedLater <==> ClaimedFreedLater(inv, ids[at], x)
    ensures r.freedUnordered <==> ClaimedFreedUnordered(inv, ids[at], x)
  {
    RivalsListed(inv, active, ids, x, at);
  }

  lemma ListedClaim(inv: Inventory, active: seq<Active>, ids: seq<nat>, x: nat, at: nat)
    requires Listed(inv, active, ids, x) && at < |active|
    ensures at < |ids| && ClaimOf(inv, ids[at]) && active[at] == ActiveOf(inv, ids[at])
  {
  }

  // The condition of a cluster of a freed stream, claimed by active[at], while
  // the claims in active cover it and the bitmap says state.
  method FreedCondition(inv: Inventory, active: seq<Active>, ghost ids: seq<nat>, at: nat, state: ClusterState, ghost x: nat)
    returns (condition: ClusterCondition)
    requires Listed(inv, active, ids, x) && at < |active| && active[at].freed
    ensures at < |ids| && ClaimOf(inv, ids[at]) && condition == ConditionAt(inv, ids[at], x, state)
  {
    hide Listed;
    hide Surveyed;
    hide ClaimedLive;
    hide ClaimedLiveWritten;
    hide ClaimedFreedLater;
    hide ClaimedFreedUnordered;
    ListedClaim(inv, active, ids, x, at);
    var claim := active[at];
    if UnreachableCondition(state).Some? {
      return UnreachableCondition(state).value;
    }
    if claim.unwritten {
      return NeverWritten;
    }
    var rivals := SurveyRivals(claim, active);
    RivalsSeen(inv, active, ids, x, at, rivals);
    if rivals.Verdict().Some? {
      return rivals.Verdict().value;
    }
    if state == ClusterState.Allocated {
      return AllocatedUnknownOwner;
    }
    if state == ClusterState.Unknown {
      return ClusterCondition.Unknown;
    }
    return Intact;
  }

  // The condition of a cluster of a live stream, as FreedCondition does.
  method LiveCondition(inv: Inventory, active: seq<Active>, ghost ids: seq<nat>, at: nat, state: ClusterState, ghost x: nat)
    returns (condition: ClusterCondition)
    requires Listed(inv, active, ids, x) && at < |active| && !active[at].freed
    ensures at < |ids| && ClaimOf(inv, ids[at]) && condition == ConditionAt(inv, ids[at], x, state)
  {
    var claim := active[at];
    if UnreachableCondition(state).Some? {
      return UnreachableCondition(state).value;
    }
    RivalsListed(inv, active, ids, x, at);
    var crossLinked := exists k :: 0 <= k < |active| && active[k].owner != claim.owner && !active[k].freed;
    assert crossLinked <==> ClaimedLive(inv, ids[at], x);
    if crossLinked {
      return CrossLinked;
    }
    if state == ClusterState.Free {
      return FreeButClaimed;
    }
    if state == ClusterState.Unknown {
      return ClusterCondition.Unknown;
    }
    return Consistent;
  }

  // Over a range where the same claims cover every cluster, the condition
  // depends on the state alone.
  lemma ConditionIsConstant(inv: Inventory, i: nat, x: nat, y: nat, state: ClusterState)
    requires ClaimOf(inv, i)
    requires forall j: nat :: Covers(inv, j, x) <==> Covers(inv, j, y)
    ensures ConditionAt(inv, i, x, state) == ConditionAt(inv, i, y, state)
  {
    assert forall j: nat :: Rival(inv, i, j, x) <==> Rival(inv, i, j, y);
  }

  // -------------------------------------------------------------------------
  // The stretches of one claim
  // -------------------------------------------------------------------------

  // The stretches that come from claim i, in order. from gives the claim of each.
  ghost function StretchesOf(resolved: seq<Resolved>, from: seq<nat>, i: nat): seq<Resolved>
    requires |from| == |resolved|
  {
    if resolved == [] then []
    else
      var n := |resolved| - 1;
      StretchesOf(resolved[..n], from[..n], i) + if from[n] == i then [resolved[n]] else []
  }

  lemma StretchAdded(resolved: seq<Resolved>, from: seq<nat>, s: Resolved, i: nat, j: nat)
    requires |from| == |resolved|
    ensures StretchesOf(resolved + [s], from + [i], j) == StretchesOf(resolved, from, j) + if i == j then [s] else []
  {
    assert (resolved + [s])[..|resolved|] == resolved && (from + [i])[..|from|] == from;
  }

  lemma LastStretchChanged(resolved: seq<Resolved>, from: seq<nat>, s: Resolved, j: nat)
    requires |from| == |resolved| > 0
    ensures var n := |resolved| - 1;
      StretchesOf(resolved[n := s], from, j) == StretchesOf(resolved[..n], from[..n], j) + if from[n] == j then [s] else []
  {
    var n := |resolved| - 1;
    assert resolved[n := s][..n] == resolved[..n];
  }

  predicate Concerned(inv: Inventory, i: nat) {
    ClaimOf(inv, i) && StreamRefOf(inv, i).account.Some?
  }

  // The stretch is at the claim's own VCNs, and each of its clusters has the
  // condition that all the claims of the scan and the bitmap give it.
  ghost predicate StretchRight(inv: Inventory, i: nat, s: Resolved, stateAt: nat -> ClusterState)
    requires Concerned(inv, i)
  {
    && s.clusters > 0
    && s.account == StreamRefOf(inv, i).account.value
    && inv.claims[i].lcn <= s.lcn
    && s.vcn == inv.claims[i].vcn + (s.lcn - inv.claims[i].lcn)
    && (forall x :: s.lcn <= x < s.End() ==> s.condition == ConditionAt(inv, i, x, stateAt(x)))
  }

  // The stretches tile [first, end) in order, with no gap, and are right.
  ghost predicate Settled(stretches: seq<Resolved>, inv: Inventory, i: nat, first: nat, end: nat, stateAt: nat -> ClusterState)
    requires Concerned(inv, i)
  {
    if stretches == [] then first == end
    else
      var last := stretches[|stretches| - 1];
      && last.End() == end
      && StretchRight(inv, i, last, stateAt)
      && Settled(stretches[..|stretches| - 1], inv, i, first, last.lcn, stateAt)
  }

  function StretchClusters(stretches: seq<Resolved>): nat {
    if stretches == [] then 0 else StretchClusters(stretches[..|stretches| - 1]) + stretches[|stretches| - 1].clusters
  }

  lemma {:induction false} SettledClusters(stretches: seq<Resolved>, inv: Inventory, i: nat, first: nat, end: nat, stateAt: nat -> ClusterState)
    requires Concerned(inv, i) && Settled(stretches, inv, i, first, end, stateAt)
    ensures first <= end && StretchClusters(stretches) == end - first
  {
    if stretches != [] {
      SettledClusters(stretches[..|stretches| - 1], inv, i, first, stretches[|stretches| - 1].lcn, stateAt);
    }
  }

  // -------------------------------------------------------------------------
  // The sweep
  // -------------------------------------------------------------------------

  predicate ClaimsByLcn(claims: seq<Claim>) {
    forall i, j :: 0 <= i < j < |claims| ==> claims[i].lcn <= claims[j].lcn
  }

  // What a sweep asks of its inventory: references that resolve, and claims that
  // hold a cluster.
  predicate Sweepable(inv: Inventory) {
    forall i :: 0 <= i < |inv.claims| ==> ClaimOf(inv, i) && inv.claims[i].Clusters() > 0
  }

  // How the volume answers for the state of its clusters: runs that tile the
  // range asked for.
  ghost predicate Answers(stateRuns: (nat, nat) -> seq<ClusterRun>, stateAt: nat -> ClusterState) {
    forall first: nat, clusters: nat :: RunsTile(stateRuns(first, clusters), first, first + clusters, stateAt)
  }

  // How far claim i is settled when the sweep stands at pos, next being the
  // first claim it has not met.
  function SettledTo(inv: Inventory, i: nat, next: nat, pos: nat): nat
    requires ClaimOf(inv, i)
  {
    if i < next then Min(pos, inv.claims[i].End()) else inv.claims[i].lcn
  }

  // Claim i is settled from its first cluster to end, if it is concerned.
  ghost predicate ClaimSettled(inv: Inventory, resolved: seq<Resolved>, from: seq<nat>, i: nat, end: nat, stateAt: nat -> ClusterState)
    requires |from| == |resolved|
  {
    Concerned(inv, i) ==> Settled(StretchesOf(resolved, from, i), inv, i, inv.claims[i].lcn, end, stateAt)
  }

  // Every concerned claim is settled as far as the sweep went, and the others
  // gave nothing.
  ghost predicate Progress(inv: Inventory, resolved: seq<Resolved>, from: seq<nat>, next: nat, pos: nat, stateAt: nat -> ClusterState) {
    && |from| == |resolved|
    && (forall i: nat :: ClaimOf(inv, i) ==> ClaimSettled(inv, resolved, from, i, SettledTo(inv, i, next, pos), stateAt))
    && (forall i: nat :: !Concerned(inv, i) ==> StretchesOf(resolved, from, i) == [])
  }

  // The stretches of a whole sweep: those of each concerned claim tile it
  // exactly, at its own VCNs, and every cluster has the condition that all the
  // claims of the scan give it. No other claim has a stretch.
  ghost predicate SweptWhole(inv: Inventory, resolved: seq<Resolved>, from: seq<nat>, stateAt: nat -> ClusterState) {
    && |from| == |resolved|
    && (forall i: nat :: Concerned(inv, i) ==>
          Settled(StretchesOf(resolved, from, i), inv, i, inv.claims[i].lcn, inv.claims[i].End(), stateAt))
    && (forall i: nat :: !Concerned(inv, i) ==> StretchesOf(resolved, from, i) == [])
  }

  // No claim ends past it.
  function EndOfClaims(claims: seq<Claim>): nat {
    if claims == [] then 0 else Max(EndOfClaims(claims[..|claims| - 1]), claims[|claims| - 1].End())
  }

  lemma {:induction false} ClaimEndsBefore(claims: seq<Claim>, i: nat)
    requires i < |claims|
    ensures claims[i].End() <= EndOfClaims(claims)
  {
    if i < |claims| - 1 {
      ClaimEndsBefore(claims[..|claims| - 1], i);
    }
  }

  // The claims of a list that end after pos, in order.
  ghost function Lasting(inv: Inventory, ids: seq<nat>, pos: nat): seq<nat>
    requires forall k :: 0 <= k < |ids| ==> ids[k] < |inv.claims|
  {
    if ids == [] then []
    else
      var n := |ids| - 1;
      Lasting(inv, ids[..n], pos) + if inv.claims[ids[n]].End() > pos then [ids[n]] else []
  }

  lemma {:induction false} LastingMeans(inv: Inventory, ids: seq<nat>, pos: nat)
    requires forall k :: 0 <= k < |ids| ==> ids[k] < |inv.claims|
    ensures forall i: nat :: i in Lasting(inv, ids, pos) <==> i in ids && inv.claims[i].End() > pos
  {
    if ids != [] {
      var n := |ids| - 1;
      LastingMeans(inv, ids[..n], pos);
      assert ids == ids[..n] + [ids[n]];
    }
  }

  // The claims in active, told apart, each met before next.
  ghost predicate Paired(inv: Inventory, active: seq<Active>, ids: seq<nat>, next: nat) {
    && |ids| == |active|
    && (forall k :: 0 <= k < |ids| ==> ids[k] < next && ClaimOf(inv, ids[k]) && active[k] == ActiveOf(inv, ids[k]))
    && (forall k, l :: 0 <= k < l < |ids| ==> ids[k] != ids[l])
  }

  // The claims kept among the first k: those that end after pos.
  ghost predicate KeptSoFar(inv: Inventory, active: seq<Active>, ids: seq<nat>, k: nat, pos: nat,
                            kept: seq<Active>, keptIds: seq<nat>, next: nat) {
    && Paired(inv, active, ids, next) && k <= |ids|
    && Paired(inv, kept, keptIds, next)
    && keptIds == Lasting(inv, ids[..k], pos)
  }

  lemma NothingKept(inv: Inventory, active: seq<Active>, ids: seq<nat>, pos: nat, next: nat)
    requires Paired(inv, active, ids, next)
    ensures KeptSoFar(inv, active, ids, 0, pos, [], [], next)
  {
  }

  lemma PairedAt(inv: Inventory, active: seq<Active>, ids: seq<nat>, k: nat, next: nat)
    requires Paired(inv, active, ids, next) && k < |active|
    ensures |ids| == |active| && ids[k] < next && ClaimOf(inv, ids[k]) && active[k] == ActiveOf(inv, ids[k])
    ensures active[k].end == inv.claims[ids[k]].End()
    ensures ids[k] !in ids[..k]
  {
  }

  lemma PairedMore(inv: Inventory, active: seq<Active>, ids: seq<nat>, i: nat, next: nat)
    requires Paired(inv, active, ids, next) && i < next && ClaimOf(inv, i) && i !in ids
    ensures Paired(inv, active + [ActiveOf(inv, i)], ids + [i], next)
  {
    hide ActiveOf;
  }

  lemma PairedInRange(inv: Inventory, active: seq<Active>, ids: seq<nat>, next: nat)
    requires Paired(inv, active, ids, next)
    ensures forall k :: 0 <= k < |ids| ==> ids[k] < |inv.claims|
  {
    hide ActiveOf;
  }

  lemma KeepNext(inv: Inventory, active: seq<Active>, ids: seq<nat>, k: nat, pos: nat, kept: seq<Active>, keptIds: seq<nat>, next: nat)
    requires KeptSoFar(inv, active, ids, k, pos, kept, keptIds, next) && k < |active|
    ensures k < |ids| && ids[k] < |inv.claims| && active[k].end == inv.claims[ids[k]].End()
    ensures KeptSoFar(inv, active, ids, k + 1, pos, if active[k].end > pos then kept + [active[k]] else kept,
                      if active[k].end > pos then keptIds + [ids[k]] else keptIds, next)
  {
    hide Paired;
    hide ActiveOf;
    PairedInRange(inv, active, ids, next);
    LastingMeans(inv, ids[..k], pos);
    PairedAt(inv, active, ids, k, next);
    assert ids[..k + 1][..k] == ids[..k];
    if active[k].end > pos {
      PairedMore(inv, kept, keptIds, ids[k], next);
    }
  }

  lemma AllKept(inv: Inventory, active: seq<Active>, ids: seq<nat>, pos: nat, kept: seq<Active>, keptIds: seq<nat>, next: nat)
    requires KeptSoFar(inv, active, ids, |active|, pos, kept, keptIds, next)
    ensures |ids| == |active| && Paired(inv, active, ids, next)
    ensures Paired(inv, kept, keptIds, next)
    ensures forall i: nat :: i in keptIds <==> i in ids && inv.claims[i].End() > pos
  {
    assert ids[..|active|] == ids;
    LastingMeans(inv, ids, pos);
  }

  // Where no claim covers the position, it may move up to the next claim.
  lemma AtJump(inv: Inventory, active: seq<Active>, ids: seq<nat>, next: nat, pos: nat)
    requires ActiveAtPos(inv, active, ids, next, pos) && |ids| == 0 && next < |inv.claims| && ClaimsByLcn(inv.claims)
    ensures inv.claims[next].lcn >= pos && ActiveAtPos(inv, active, ids, next, inv.claims[next].lcn)
    ensures forall i: nat :: i < next && inv.claims[i].End() > pos ==> i in ids
  {
  }

  // The active claims are those that cover the position.
  ghost predicate ActiveAtPos(inv: Inventory, active: seq<Active>, ids: seq<nat>, next: nat, pos: nat) {
    && Paired(inv, active, ids, next) && next <= |inv.claims|
    && (forall k :: 0 <= k < |ids| ==> Covers(inv, ids[k], pos))
    && (forall i: nat :: i < next && inv.claims[i].End() > pos ==> i in ids)
    && (forall i: nat :: next <= i < |inv.claims| ==> inv.claims[i].lcn >= pos)
  }

  lemma AtStart(inv: Inventory, active: seq<Active>, ids: seq<nat>)
    requires |ids| == |active| == 0
    ensures ActiveAtPos(inv, active, ids, 0, 0)
  {
  }

  lemma AtEnd(inv: Inventory, active: seq<Active>, ids: seq<nat>, next: nat, pos: nat)
    requires ActiveAtPos(inv, active, ids, next, pos) && next == |inv.claims|
    ensures forall i: nat :: i < next && inv.claims[i].End() > pos ==> i in ids
  {
  }

  lemma AtMeans(inv: Inventory, active: seq<Active>, ids: seq<nat>, next: nat, pos: nat)
    requires ActiveAtPos(inv, active, ids, next, pos)
    ensures Paired(inv, active, ids, next) && next <= |inv.claims| && |ids| == |active|
    ensures forall k :: 0 <= k < |ids| ==> inv.claims[ids[k]].lcn <= pos < inv.claims[ids[k]].End()
  {
  }

  // A claim that starts at the position joins those that cover it.
  lemma NextAt(inv: Inventory, active: seq<Active>, ids: seq<nat>, next: nat, pos: nat)
    requires ActiveAtPos(inv, active, ids, next, pos)
    requires ClaimOf(inv, next) && inv.claims[next].lcn <= pos && inv.claims[next].Clusters() > 0
    ensures inv.claims[next].lcn == pos
    ensures ActiveAtPos(inv, active + [ActiveOf(inv, next)], ids + [next], next + 1, pos)
  {
    hide ActiveOf;
  }

  // Without the claims that end at end, those that cover it are left.
  lemma AfterDrop(inv: Inventory, before: seq<Active>, ids: seq<nat>, after: seq<Active>, left: seq<nat>, next: nat, pos: nat, end: nat)
    requires ActiveAtPos(inv, before, ids, next, pos) && pos <= end && ClaimsByLcn(inv.claims)
    requires next < |inv.claims| ==> end <= inv.claims[next].lcn
    requires Paired(inv, after, left, next)
    requires forall i: nat :: i in left <==> i in ids && inv.claims[i].End() > end
    ensures ActiveAtPos(inv, after, left, next, end)
  {
    assert forall i: nat :: i in ids ==> Covers(inv, i, pos);
    assert forall i: nat :: next < i < |inv.claims| ==> inv.claims[next].lcn <= inv.claims[i].lcn;
  }

  lemma ActiveAt(inv: Inventory, active: seq<Active>, ids: seq<nat>, x: nat, at: nat)
    requires Listed(inv, active, ids, x) && at < |ids|
    ensures at < |active| && ClaimOf(inv, ids[at]) && active[at] == ActiveOf(inv, ids[at]) && Covers(inv, ids[at], x)
  {
  }

  class Sweeper {
    const inv: Inventory
    const stateRuns: (nat, nat) -> seq<ClusterRun>
    ghost const stateAt: nat -> ClusterState
    var active: seq<Active>
    // The claim behind each active one.
    ghost var ids: seq<nat>
    var resolved: seq<Resolved>
    // The claim behind each stretch.
    ghost var from: seq<nat>

    constructor (inv: Inventory, stateRuns: (nat, nat) -> seq<ClusterRun>, ghost stateAt: nat -> ClusterState)
      ensures this.inv == inv && this.stateRuns == stateRuns && this.stateAt == stateAt
      ensures active == [] && ids == [] && resolved == [] && from == []
    {
      this.inv, this.stateRuns, this.stateAt := inv, stateRuns, stateAt;
      active, ids, resolved, from := [], [], [], [];
    }

    ghost predicate ActiveValid(next: nat)
      reads this
    {
      Paired(inv, active, ids, next)
    }

    // The active claims are those that cover the position.
    ghost predicate At(next: nat, pos: nat)
      reads this
    {
      ActiveAtPos(inv, active, ids, next, pos)
    }

    method ConditionOf(at: nat, state: ClusterState, ghost x: nat) returns (condition: ClusterCondition)
      requires Listed(inv, active, ids, x) && at < |active|
      ensures condition == ConditionAt(inv, ids[at], x, state)
    {
      if active[at].freed {
        condition := FreedCondition(inv, active, ids, at, state, x);
      } else {
        condition := LiveCondition(inv, active, ids, at, state, x);
      }
    }

    // Adds a stretch of claim i.
    method Push(ghost i: nat, added: Resolved, ghost first: nat)
      requires |from| == |resolved| && Concerned(inv, i)
      requires Settled(StretchesOf(resolved, from, i), inv, i, first, added.lcn, stateAt)
      requires StretchRight(inv, i, added, stateAt)
      modifies this`resolved, this`from
      ensures |from| == |resolved| > 0 && from[|from| - 1] == i
      ensures Settled(StretchesOf(resolved, from, i), inv, i, first, added.End(), stateAt)
      ensures forall j: nat :: j != i ==> StretchesOf(resolved, from, j) == old(StretchesOf(resolved, from, j))
    {
      forall j: nat
        ensures StretchesOf(resolved + [added], from + [i], j) == StretchesOf(resolved, from, j) + if i == j then [added] else []
      {
        StretchAdded(resolved, from, added, i, j);
      }
      ghost var before := StretchesOf(resolved, from, i);
      assert (before + [added])[..|before|] == before;
      resolved := resolved + [added];
      from := from + [i];
    }

    // Lengthens the last stretch, one of claim i, by a run of its condition.
    method GrowLast(ghost i: nat, run: ClusterRun, ghost first: nat)
      requires |from| == |resolved| > 0 && from[|from| - 1] == i && Concerned(inv, i)
      requires run.clusters > 0 && resolved[|resolved| - 1].End() == run.lcn
      requires Settled(StretchesOf(resolved, from, i), inv, i, first, run.lcn, stateAt)
      requires forall x :: run.lcn <= x < run.lcn + run.clusters ==>
        ConditionAt(inv, i, x, stateAt(x)) == resolved[|resolved| - 1].condition
      modifies this`resolved
      ensures |from| == |resolved|
      ensures Settled(StretchesOf(resolved, from, i), inv, i, first, run.lcn + run.clusters, stateAt)
      ensures forall j: nat :: j != i ==> StretchesOf(resolved, from, j) == old(StretchesOf(resolved, from, j))
    {
      ghost var n := |resolved| - 1;
      var last := resolved[|resolved| - 1];
      var grown := last.(clusters := last.clusters + run.clusters);
      forall j: nat
        ensures StretchesOf(resolved[n := grown], from, j)
          == StretchesOf(resolved[..n], from[..n], j) + if i == j then [grown] else []
        ensures StretchesOf(resolved, from, j)
          == StretchesOf(resolved[..n], from[..n], j) + if i == j then [last] else []
      {
        LastStretchChanged(resolved, from, grown, j);
      }
      SettledGrown(StretchesOf(resolved, from, i), StretchesOf(resolved[n := grown], from, i), inv, i, first, run, stateAt);
      resolved := resolved[|resolved| - 1 := grown];
    }

    // Judges one run for a concerned claim: lengthens its last stretch, or adds
    // one.
    method JudgeRun(at: nat, ghost pos: nat, ghost end: nat, run: ClusterRun, last: Option<nat>) returns (now: Option<nat>)
      requires |from| == |resolved|
      requires at < |active| && |ids| == |active| && Concerned(inv, ids[at])
      requires ListedOver(inv, active, ids, pos, end)
      requires pos <= run.lcn && run.lcn + run.clusters <= end && run.clusters > 0
      requires forall x :: run.lcn <= x < run.lcn + run.clusters ==> stateAt(x) == run.state
      requires last.Some? ==> last.value == |resolved| - 1 && from[last.value] == ids[at]
      requires Settled(StretchesOf(resolved, from, ids[at]), inv, ids[at], inv.claims[ids[at]].lcn, run.lcn, stateAt)
      modifies this`resolved, this`from
      ensures |from| == |resolved|
      ensures now.Some? && now.value == |resolved| - 1 && from[now.value] == ids[at]
      ensures Settled(StretchesOf(resolved, from, ids[at]), inv, ids[at], inv.claims[ids[at]].lcn, run.lcn + run.clusters, stateAt)
      ensures forall j: nat :: j != ids[at] ==> StretchesOf(resolved, from, j) == old(StretchesOf(resolved, from, j))
    {
      hide StretchesOf;
      hide Settled;
      hide ConditionAt;
      ghost var i := ids[at];
      ListedAt(inv, active, ids, pos, end, run.lcn);
      ActiveAt(inv, active, ids, run.lcn, at);
      var claim := active[at];
      var condition := ConditionOf(at, run.state, run.lcn);
      RunIsOneCondition(inv, active, ids, i, pos, end, run, stateAt);
      hide Listed;
      hide ListedOver;
      if last.Some? && resolved[last.value].condition == condition && resolved[last.value].End() == run.lcn {
        GrowLast(i, run, inv.claims[i].lcn);
        now := last;
      } else {
        Push(i, Resolved(run.lcn, claim.vcn + (run.lcn - claim.lcn), run.clusters, claim.account.value, condition), inv.claims[i].lcn);
        now := Some(|resolved| - 1);
      }
    }

    // Judges [pos, end) for one concerned claim.
    method JudgeClaim(at: nat, ghost pos: nat, ghost end: nat, runs: seq<ClusterRun>)
      requires |from| == |resolved|
      requires at < |active| && |ids| == |active| && Concerned(inv, ids[at])
      requires ListedOver(inv, active, ids, pos, end)
      requires RunsTile(runs, pos, end, stateAt)
      requires Settled(StretchesOf(resolved, from, ids[at]), inv, ids[at], inv.claims[ids[at]].lcn, pos, stateAt)
      modifies this`resolved, this`from
      ensures |from| == |resolved|
      ensures Settled(StretchesOf(resolved, from, ids[at]), inv, ids[at], inv.claims[ids[at]].lcn, end, stateAt)
      ensures forall j: nat :: j != ids[at] ==> StretchesOf(resolved, from, j) == old(StretchesOf(resolved, from, j))
    {
      if runs == [] {
        return;
      }
      hide StretchesOf;
      hide Settled;
      hide ListedOver;
      hide RunsTile;
      var last: Option<nat> := None;
      ghost var reached := pos;
      RunsTileAt(runs, pos, end, stateAt, 0);
      for r := 0 to |runs|
        invariant |from| == |resolved|
        invariant reached == if r == 0 then pos else runs[r - 1].lcn + runs[r - 1].clusters
        invariant Settled(StretchesOf(resolved, from, ids[at]), inv, ids[at], inv.claims[ids[at]].lcn, reached, stateAt)
        invariant forall j: nat :: j != ids[at] ==> StretchesOf(resolved, from, j) == old(StretchesOf(resolved, from, j))
        invariant last.Some? ==> last.value == |resolved| - 1 && from[last.value] == ids[at]
      {
        RunsTileAt(runs, pos, end, stateAt, r);
        last := JudgeRun(at, pos, end, runs[r], last);
        reached := runs[r].lcn + runs[r].clusters;
      }
      RunsTileAt(runs, pos, end, stateAt, |runs| - 1);
    }

    // Judges [pos, end), over which the set of claims is constant, for each
    // concerned claim. The bitmap is asked only when one needs it.
    method Judge(next: nat, pos: nat, end: nat)
      requires ActiveValid(next)
      requires |from| == |resolved| && pos <= end
      requires ListedOver(inv, active, ids, pos, end)
      requires Answers(stateRuns, stateAt)
      requires forall k :: 0 <= k < |ids| ==> ClaimSettled(inv, resolved, from, ids[k], pos, stateAt)
      modifies this`resolved, this`from
      ensures |from| == |resolved|
      ensures forall k :: 0 <= k < |ids| ==> ClaimSettled(inv, resolved, from, ids[k], end, stateAt)
      ensures forall j: nat :: j !in ids || !Concerned(inv, j) ==> StretchesOf(resolved, from, j) == old(StretchesOf(resolved, from, j))
    {
      if forall k :: 0 <= k < |active| ==> active[k].account.None? {
        assert forall k :: 0 <= k < |ids| ==> !Concerned(inv, ids[k]);
        return;
      }
      var runs := stateRuns(pos, end - pos);
      assert RunsTile(runs, pos, pos + (end - pos), stateAt);
      for at := 0 to |active|
        invariant |from| == |resolved|
        invariant forall k :: 0 <= k < |ids| ==> ClaimSettled(inv, resolved, from, ids[k], if k < at then end else pos, stateAt)
        invariant forall j: nat :: j !in ids || !Concerned(inv, j) ==> StretchesOf(resolved, from, j) == old(StretchesOf(resolved, from, j))
      {
        ghost var before, beforeFrom := resolved, from;
        if active[at].account.Some? {
          assert ClaimSettled(inv, resolved, from, ids[at], pos, stateAt);
          JudgeClaim(at, pos, end, runs);
        }
        forall k | 0 <= k < |ids|
          ensures ClaimSettled(inv, resolved, from, ids[k], if k < at + 1 then end else pos, stateAt)
        {
          assert ClaimSettled(inv, before, beforeFrom, ids[k], if k < at then end else pos, stateAt);
          if k == at {
            assert active[at].account.None? ==> !Concerned(inv, ids[at]);
          } else {
            assert ids[k] != ids[at];
          }
        }
      }
    }

    // Adds claim next to the claims that cover the current position.
    method Enter(next: nat)
      requires ClaimOf(inv, next)
      modifies this`active, this`ids
      ensures ids == old(ids) + [next] && active == old(active) + [ActiveOf(inv, next)]
    {
      var claim := inv.claims[next];
      var stream := inv.streams[claim.stream];
      var owner := inv.owners[stream.owner];
      active := active + [Active(claim.lcn, claim.vcn, claim.lcn + claim.Clusters(), owner.lsn, stream.owner,
                                 stream.account, owner.freed, claim.Unwritten())];
      ids := ids + [next];
    }

    // The first cluster where the set of covering claims can change.
    method NextEnd(next: nat, pos: nat) returns (end: nat)
      requires ActiveValid(next) && next <= |inv.claims| && active != []
      requires Sweepable(inv)
      requires forall k :: 0 <= k < |ids| ==> inv.claims[ids[k]].lcn <= pos < inv.claims[ids[k]].End() <= U64_MAX
      requires next < |inv.claims| ==> inv.claims[next].lcn > pos
      ensures pos < end
      ensures forall k :: 0 <= k < |ids| ==> end <= inv.claims[ids[k]].End()
      ensures next < |inv.claims| ==> end <= inv.claims[next].lcn
      ensures end <= inv.claims[ids[0]].End()
    {
      end := U64_MAX;
      assert inv.claims[ids[0]].End() <= U64_MAX;
      for k := 0 to |active|
        invariant pos < end
        invariant forall j :: 0 <= j < k ==> end <= inv.claims[ids[j]].End()
      {
        end := Min(end, active[k].end);
      }
      if next < |inv.claims| {
        end := Min(end, inv.claims[next].lcn);
      }
    }

    // Drops the claims that end at pos or before.
    method DropEnded(next: nat, pos: nat)
      requires ActiveValid(next)
      modifies this`active, this`ids
      ensures ActiveValid(next)
      ensures forall i: nat :: i in ids <==> i in old(ids) && inv.claims[i].End() > pos
    {
      hide KeptSoFar;
      hide Lasting;
      var kept: seq<Active>, all := [], active;
      ghost var keptIds: seq<nat>, allIds := [], ids;
      NothingKept(inv, all, allIds, pos, next);
      for k := 0 to |all|
        invariant KeptSoFar(inv, all, allIds, k, pos, kept, keptIds, next)
      {
        KeepNext(inv, all, allIds, k, pos, kept, keptIds, next);
        if all[k].end > pos {
          kept := kept + [all[k]];
          keptIds := keptIds + [allIds[k]];
        }
      }
      AllKept(inv, all, allIds, pos, kept, keptIds, next);
      active, ids := kept, keptIds;
    }

    // Enters every claim that starts at pos.
    method EnterAll(first: nat, pos: nat) returns (next: nat)
      requires At(first, pos)
      requires Sweepable(inv) && ClaimsByLcn(inv.claims)
      requires Progress(inv, resolved, from, first, pos, stateAt)
      modifies this`active, this`ids
      ensures first <= next && At(next, pos)
      ensures Progress(inv, resolved, from, next, pos, stateAt)
      ensures next < |inv.claims| ==> inv.claims[next].lcn > pos
      ensures first < |inv.claims| && inv.claims[first].lcn <= pos ==> next > first
      ensures active != [] || (next == first && old(active) == [])
    {
      hide Progress;
      hide ActiveOf;
      hide ActiveAtPos;
      next := first;
      while next < |inv.claims| && inv.claims[next].lcn <= pos
        invariant first <= next && At(next, pos)
        invariant Progress(inv, resolved, from, next, pos, stateAt)
        invariant active != [] || (next == first && old(active) == [])
      {
        assert ClaimOf(inv, next) && inv.claims[next].Clusters() > 0;
        NextAt(inv, active, ids, next, pos);
        EnterKeepsProgress(inv, resolved, from, next, pos, stateAt);
        Enter(next);
        next := next + 1;
      }
    }

    // Judges the stretch from pos to where the set of claims first changes, and
    // drops the claims that end there.
    method Step(next: nat, pos: nat) returns (end: nat)
      requires At(next, pos) && active != []
      requires next < |inv.claims| ==> inv.claims[next].lcn > pos
      requires Sweepable(inv) && ClaimsByLcn(inv.claims) && Answers(stateRuns, stateAt)
      requires forall i :: 0 <= i < |inv.claims| ==> inv.claims[i].End() <= U64_MAX
      requires Progress(inv, resolved, from, next, pos, stateAt)
      modifies this
      ensures pos < end <= EndOfClaims(inv.claims)
      ensures At(next, end)
      ensures Progress(inv, resolved, from, next, end, stateAt)
    {
      hide Progress;
      hide Answers;
      hide ActiveAtPos;
      hide Paired;
      AtMeans(inv, active, ids, next, pos);
      end := NextEnd(next, pos);
      ClaimEndsBefore(inv.claims, ids[0]);
      JudgeTo(next, pos, end);
      ghost var before, listed := active, ids;
      DropEnded(next, end);
      AfterDrop(inv, before, listed, active, ids, next, pos, end);
    }

    // Judges [pos, end), and every active claim is settled to end.
    method JudgeTo(next: nat, pos: nat, end: nat)
      requires At(next, pos) && pos <= end
      requires ClaimsByLcn(inv.claims) && Answers(stateRuns, stateAt)
      requires forall k :: 0 <= k < |ids| ==> end <= inv.claims[ids[k]].End()
      requires next < |inv.claims| ==> end <= inv.claims[next].lcn
      requires Progress(inv, resolved, from, next, pos, stateAt)
      modifies this`resolved, this`from
      ensures Progress(inv, resolved, from, next, end, stateAt)
    {
      CoverIsConstant(inv, active, ids, next, pos, end);
      forall k | 0 <= k < |ids| ensures ClaimSettled(inv, resolved, from, ids[k], pos, stateAt) {
        assert SettledTo(inv, ids[k], next, pos) == pos;
      }
      ghost var before, beforeFrom := resolved, from;
      Judge(next, pos, end);
      JudgeKeepsProgress(inv, before, beforeFrom, resolved, from, ids, next, pos, end, stateAt);
    }

    // Judges every stretch of every concerned stream. The claims MUST be sorted
    // by lcn.
    method Run() returns (r: seq<Resolved>, ghost origin: seq<nat>)
      requires active == [] && ids == [] && resolved == [] && from == []
      requires Sweepable(inv) && ClaimsByLcn(inv.claims) && Answers(stateRuns, stateAt)
      requires forall i :: 0 <= i < |inv.claims| ==> inv.claims[i].End() <= U64_MAX
      modifies this
      ensures SweptWhole(inv, r, origin, stateAt)
    {
      hide Progress;
      var next, pos := 0, 0;
      NothingSwept(inv, resolved, from, stateAt);
      AtStart(inv, active, ids);
      hide ActiveAtPos;
      while next < |inv.claims| || active != []
        invariant At(next, pos) && pos <= EndOfClaims(inv.claims)
        invariant Progress(inv, resolved, from, next, pos, stateAt)
        decreases EndOfClaims(inv.claims) - pos
      {
        AtMeans(inv, active, ids, next, pos);
        if active == [] {
          AtJump(inv, active, ids, next, pos);
          JumpKeepsProgress(inv, resolved, from, ids, next, pos, stateAt);
          ClaimEndsBefore(inv.claims, next);
          assert ClaimOf(inv, next);
          pos := inv.claims[next].lcn;
        }
        next := EnterAll(next, pos);
        pos := Step(next, pos);
      }
      r, origin := resolved, from;
      AtEnd(inv, active, ids, next, pos);
      AllSettled(inv, resolved, from, ids, next, pos, stateAt);
    }
  }

  lemma NothingSwept(inv: Inventory, resolved: seq<Resolved>, from: seq<nat>, stateAt: nat -> ClusterState)
    requires resolved == [] && from == []
    ensures Progress(inv, resolved, from, 0, 0, stateAt)
  {
  }

  lemma AllSettled(inv: Inventory, resolved: seq<Resolved>, from: seq<nat>, ids: seq<nat>, next: nat, pos: nat, stateAt: nat -> ClusterState)
    requires Progress(inv, resolved, from, next, pos, stateAt)
    requires next == |inv.claims| && ids == []
    requires forall i: nat :: i < next && inv.claims[i].End() > pos ==> i in ids
    ensures SweptWhole(inv, resolved, from, stateAt)
  {
    forall i: nat | Concerned(inv, i)
      ensures Settled(StretchesOf(resolved, from, i), inv, i, inv.claims[i].lcn, inv.claims[i].End(), stateAt)
    {
      assert ClaimSettled(inv, resolved, from, i, SettledTo(inv, i, next, pos), stateAt);
      assert SettledTo(inv, i, next, pos) == inv.claims[i].End();
    }
  }

  lemma EnterKeepsProgress(inv: Inventory, resolved: seq<Resolved>, from: seq<nat>, next: nat, pos: nat, stateAt: nat -> ClusterState)
    requires Progress(inv, resolved, from, next, pos, stateAt)
    requires ClaimOf(inv, next) && inv.claims[next].lcn == pos
    ensures Progress(inv, resolved, from, next + 1, pos, stateAt)
  {
    forall i: nat | ClaimOf(inv, i)
      ensures ClaimSettled(inv, resolved, from, i, SettledTo(inv, i, next + 1, pos), stateAt)
    {
      assert SettledTo(inv, i, next + 1, pos) == SettledTo(inv, i, next, pos);
    }
  }

  // With no claim active, the sweep may jump to the next one.
  lemma JumpKeepsProgress(inv: Inventory, resolved: seq<Resolved>, from: seq<nat>, ids: seq<nat>, next: nat, pos: nat, stateAt: nat -> ClusterState)
    requires Progress(inv, resolved, from, next, pos, stateAt)
    requires ids == [] && next < |inv.claims| && inv.claims[next].lcn >= pos
    requires forall i: nat :: i < next && i < |inv.claims| && inv.claims[i].End() > pos ==> i in ids
    ensures Progress(inv, resolved, from, next, inv.claims[next].lcn, stateAt)
  {
    forall i: nat | ClaimOf(inv, i)
      ensures ClaimSettled(inv, resolved, from, i, SettledTo(inv, i, next, inv.claims[next].lcn), stateAt)
    {
      assert SettledTo(inv, i, next, inv.claims[next].lcn) == SettledTo(inv, i, next, pos);
    }
  }

  lemma JudgeKeepsProgress(inv: Inventory, before: seq<Resolved>, beforeFrom: seq<nat>, resolved: seq<Resolved>, from: seq<nat>,
                           ids: seq<nat>, next: nat, pos: nat, end: nat, stateAt: nat -> ClusterState)
    requires Progress(inv, before, beforeFrom, next, pos, stateAt) && |from| == |resolved| && pos <= end
    requires forall k :: 0 <= k < |ids| ==> ids[k] < next && ClaimOf(inv, ids[k]) && end <= inv.claims[ids[k]].End()
    requires forall i: nat :: i < next && i < |inv.claims| && inv.claims[i].End() > pos ==> i in ids
    requires forall k :: 0 <= k < |ids| ==> ClaimSettled(inv, resolved, from, ids[k], end, stateAt)
    requires forall j: nat :: j !in ids || !Concerned(inv, j) ==> StretchesOf(resolved, from, j) == StretchesOf(before, beforeFrom, j)
    ensures Progress(inv, resolved, from, next, end, stateAt)
  {
    forall i: nat | ClaimOf(inv, i)
      ensures ClaimSettled(inv, resolved, from, i, SettledTo(inv, i, next, end), stateAt)
    {
      if i in ids {
        assert SettledTo(inv, i, next, end) == end;
      } else {
        assert SettledTo(inv, i, next, end) == SettledTo(inv, i, next, pos);
        assert ClaimSettled(inv, before, beforeFrom, i, SettledTo(inv, i, next, pos), stateAt);
      }
    }
  }

  // Until the first end or start after pos, the same claims cover every cluster.
  lemma {:induction false} CoverIsConstant(inv: Inventory, active: seq<Active>, ids: seq<nat>, next: nat, pos: nat, end: nat)
    requires ClaimsByLcn(inv.claims) && next <= |inv.claims| && |ids| == |active|
    requires forall k :: 0 <= k < |ids| ==> ClaimOf(inv, ids[k]) && active[k] == ActiveOf(inv, ids[k])
    requires forall k :: 0 <= k < |ids| ==> Covers(inv, ids[k], pos) && end <= inv.claims[ids[k]].End()
    requires forall i: nat :: i < next && inv.claims[i].End() > pos ==> i in ids
    requires next < |inv.claims| ==> end <= inv.claims[next].lcn
    ensures ListedOver(inv, active, ids, pos, end)
    decreases end
  {
    if pos < end {
      CoverIsConstant(inv, active, ids, next, pos, end - 1);
      assert forall i: nat :: next < i < |inv.claims| ==> inv.claims[next].lcn <= inv.claims[i].lcn;
      forall j: nat | Covers(inv, j, end - 1) ensures j in ids {
      }
    }
  }

  // Over a run, one claim has one condition.
  lemma RunIsOneCondition(inv: Inventory, active: seq<Active>, ids: seq<nat>, i: nat, pos: nat, end: nat, run: ClusterRun,
                          stateAt: nat -> ClusterState)
    requires ClaimOf(inv, i)
    requires ListedOver(inv, active, ids, pos, end)
    requires pos <= run.lcn && run.lcn + run.clusters <= end && run.clusters > 0
    requires forall x :: run.lcn <= x < run.lcn + run.clusters ==> stateAt(x) == run.state
    ensures forall x :: run.lcn <= x < run.lcn + run.clusters ==>
      ConditionAt(inv, i, x, stateAt(x)) == ConditionAt(inv, i, run.lcn, run.state)
  {
    forall x | run.lcn <= x < run.lcn + run.clusters
      ensures ConditionAt(inv, i, x, stateAt(x)) == ConditionAt(inv, i, run.lcn, run.state)
    {
      ListedAt(inv, active, ids, pos, end, x);
      ListedAt(inv, active, ids, pos, end, run.lcn);
      assert forall j: nat :: Covers(inv, j, x) <==> Covers(inv, j, run.lcn);
      ConditionIsConstant(inv, i, x, run.lcn, run.state);
    }
  }

  // The last stretch of a claim, lengthened by a run of the same condition.
  lemma SettledGrown(before: seq<Resolved>, after: seq<Resolved>, inv: Inventory, i: nat, first: nat, run: ClusterRun,
                     stateAt: nat -> ClusterState)
    requires Concerned(inv, i) && run.clusters > 0
    requires before != [] && |after| == |before|
    requires after == before[..|before| - 1] + [before[|before| - 1].(clusters := before[|before| - 1].clusters + run.clusters)]
    requires before[|before| - 1].End() == run.lcn
    requires Settled(before, inv, i, first, run.lcn, stateAt)
    requires forall x :: run.lcn <= x < run.lcn + run.clusters ==>
      ConditionAt(inv, i, x, stateAt(x)) == before[|before| - 1].condition
    ensures Settled(after, inv, i, first, run.lcn + run.clusters, stateAt)
  {
    assert after[..|after| - 1] == before[..|before| - 1];
  }
}
