// The claims of a scan: which clusters each stream of each record holds, cut
// where the stream stops being written, and the account of the concerned ones.
module ClaimInventory {
  import opened Prelude
  import opened AllocTypes

  // Clusters one claim holds at most: the count shares its word with a flag.
  const MAX_CLAIM_CLUSTERS: nat := 0x7FFF_FFFF
  const CLAIM_UNWRITTEN_BIT: nat := 0x8000_0000

  const U32_MAX: nat := 0xFFFF_FFFF

  // One run of real clusters of one stream. The word packs the cluster count in
  // its low 31 bits and the flag of a part that was never written above them.
  datatype Claim = Claim(lcn: nat, vcn: nat, clustersAndFlags: nat, stream: nat) {
    function Clusters(): nat { clustersAndFlags % CLAIM_UNWRITTEN_BIT }
    predicate Unwritten() { clustersAndFlags / CLAIM_UNWRITTEN_BIT % 2 == 1 }
    function End(): nat { lcn + Clusters() }
  }

  // A concerned stream, besides its claims.
  datatype AccountStream = AccountStream(
    name: string,
    dataSize: nat,
    initializedSize: nat,
    unitClusters: nat,
    span: nat,
    realClusters: nat,
    sparse: seq<VcnRange>,
    invalid: seq<VcnRange>,
    encrypted: bool,
    ownerDense: nat)

  function NewAccount(name: string): AccountStream {
    AccountStream(name, 0, 0, 0, 0, 0, [], [], false, 0)
  }

  // The claims of one record. Streams are local: indices of streamAccount, which
  // gives the account of a stream, if it has one.
  datatype RecordClaims = RecordClaims(
    record: nat,
    lsn: nat,
    freed: bool,
    claims: seq<Claim>,
    streamAccount: seq<Option<nat>>,
    accounts: seq<AccountStream>)

  datatype Owner = Owner(lsn: nat, record: nat, freed: bool)

  datatype StreamRef = StreamRef(owner: nat, account: Option<nat>)

  // Every claim of a scan.
  datatype Inventory = Inventory(
    claims: seq<Claim>,
    streams: seq<StreamRef>,
    owners: seq<Owner>,
    accounts: seq<AccountStream>,
    concernedRecords: seq<nat>)

  // One non-resident attribute of a record, as its collection meets it.
  datatype AttributeRuns = AttributeRuns(isData: bool, isBadList: bool, name: string, layout: StreamLayout)

  // -------------------------------------------------------------------------
  // What the sums mean
  // -------------------------------------------------------------------------

  function RunClusters(runs: seq<LayoutRun>): nat {
    if runs == [] then 0 else RunClusters(runs[..|runs| - 1]) + runs[|runs| - 1].clusters
  }

  function RangeClusters(ranges: seq<VcnRange>): nat {
    if ranges == [] then 0 else RangeClusters(ranges[..|ranges| - 1]) + ranges[|ranges| - 1].clusters
  }

  function ClaimClusters(claims: seq<Claim>): nat {
    if claims == [] then 0 else ClaimClusters(claims[..|claims| - 1]) + claims[|claims| - 1].Clusters()
  }

  // The clusters that the claims of the streams of account a hold.
  function ClaimedBy(claims: seq<Claim>, accountOf: seq<Option<nat>>, a: nat): nat
    requires forall i :: 0 <= i < |claims| ==> claims[i].stream < |accountOf|
  {
    if claims == [] then 0
    else
      var last := claims[|claims| - 1];
      ClaimedBy(claims[..|claims| - 1], accountOf, a)
      + if accountOf[last.stream] == Some(a) then last.Clusters() else 0
  }

  // Everything an account says of a stream: real, hole or without an address.
  function Covered(account: AccountStream): nat {
    account.realClusters + RangeClusters(account.sparse) + RangeClusters(account.invalid)
  }

  // -------------------------------------------------------------------------
  // Well-formedness
  // -------------------------------------------------------------------------

  // The runs of a layout end at the covered end at the latest.
  predicate LayoutValid(layout: StreamLayout) {
    forall i :: 0 <= i < |layout.runs| ==> RunWithin(layout.runs[i], layout.coveredEnd)
  }

  // A claim holds a cluster at least, and its clusters have 64-bit numbers.
  predicate ClaimValid(c: Claim) {
    c.Clusters() > 0 && c.End() <= U64_MAX
  }

  // The claim holds a part of the run at the run's own addresses, all of it on
  // one side of the initialized size, which its flag tells.
  predicate ClaimOfRun(c: Claim, run: LayoutRun, initialized: nat) {
    && ClaimValid(c)
    && run.lcn.Some?
    && run.vcn <= c.vcn && c.vcn + c.Clusters() <= run.vcn + run.clusters
    && c.lcn == run.lcn.value + (c.vcn - run.vcn)
    && (if c.Unwritten() then initialized <= c.vcn else c.vcn + c.Clusters() <= initialized)
  }

  predicate RangesWithin(ranges: seq<VcnRange>, span: nat) {
    forall i :: 0 <= i < |ranges| ==> ranges[i].vcn + ranges[i].clusters <= span
  }

  predicate AccountWithin(account: AccountStream) {
    RangesWithin(account.sparse, account.span) && RangesWithin(account.invalid, account.span)
  }

  // The claims name streams, the streams name accounts, each account counts the
  // clusters its claims hold, and nothing an account holds lies past its span.
  ghost predicate ClaimsBalance(claims: seq<Claim>, accountOf: seq<Option<nat>>, accounts: seq<AccountStream>) {
    && (forall i :: 0 <= i < |claims| ==> ClaimValid(claims[i]) && claims[i].stream < |accountOf|)
    && (forall s :: 0 <= s < |accountOf| && accountOf[s].Some? ==> accountOf[s].value < |accounts|)
    && (forall a :: 0 <= a < |accounts| ==> ClaimedBy(claims, accountOf, a) == accounts[a].realClusters)
    && (forall a :: 0 <= a < |accounts| ==> AccountWithin(accounts[a]))
    && (forall i :: 0 <= i < |claims| && accountOf[claims[i].stream].Some? ==>
          claims[i].vcn + claims[i].Clusters() <= accounts[accountOf[claims[i].stream].value].span)
  }

  ghost predicate RecordValid(r: RecordClaims) {
    ClaimsBalance(r.claims, r.streamAccount, r.accounts)
  }

  function AccountsOf(streams: seq<StreamRef>): seq<Option<nat>> {
    seq(|streams|, i requires 0 <= i < |streams| => streams[i].account)
  }

  ghost predicate InventoryValid(inv: Inventory) {
    && ClaimsBalance(inv.claims, AccountsOf(inv.streams), inv.accounts)
    && (forall s :: 0 <= s < |inv.streams| ==> inv.streams[s].owner < |inv.owners|)
    && (forall a :: 0 <= a < |inv.accounts| ==> inv.accounts[a].ownerDense < |inv.concernedRecords|)
  }

  // -------------------------------------------------------------------------
  // What becomes of each cluster of a run
  // -------------------------------------------------------------------------

  // Claimed at an LCN, as written or not; a hole; or without a usable address.
  datatype Fate = Claimed(lcn: nat, unwritten: bool) | Hole | Lost

  predicate RunHolds(run: LayoutRun, vcn: nat) {
    run.vcn <= vcn < run.vcn + run.clusters
  }

  // A run that ends past 2^64 has no usable address. Of any other, the clusters
  // below the initialized size, and those from it on, are claimed, as many of
  // each as one claim holds.
  function FateIn(run: LayoutRun, initialized: nat, vcn: nat): Fate
    requires RunHolds(run, vcn)
  {
    if run.lcn.None? then Hole
    else if run.lcn.value + run.clusters > U64_MAX then Lost
    else
      var unwritten := vcn >= initialized;
      var start := if unwritten then Max(run.vcn, initialized) else run.vcn;
      if vcn - start < MAX_CLAIM_CLUSTERS then Claimed(run.lcn.value + (vcn - run.vcn), unwritten) else Lost
  }

  // How many runs give a VCN that fate.
  function FateCount(runs: seq<LayoutRun>, initialized: nat, vcn: nat, fate: Fate): nat {
    if runs == [] then 0
    else FateCount(runs[..|runs| - 1], initialized, vcn, fate) + RunFate(runs[|runs| - 1], initialized, vcn, fate)
  }

  function RunFate(run: LayoutRun, initialized: nat, vcn: nat, fate: Fate): nat {
    if RunHolds(run, vcn) && FateIn(run, initialized, vcn) == fate then 1 else 0
  }

  // The claim holds the VCN, and says that of it.
  predicate Tells(c: Claim, vcn: nat, fate: Fate) {
    c.vcn <= vcn < c.vcn + c.Clusters() && fate == Claimed(c.lcn + (vcn - c.vcn), c.Unwritten())
  }

  // How many claims of a stream say that of a VCN.
  function ClaimCount(claims: seq<Claim>, stream: nat, vcn: nat, fate: Fate): nat {
    if claims == [] then 0
    else
      var last := claims[|claims| - 1];
      ClaimCount(claims[..|claims| - 1], stream, vcn, fate) + if last.stream == stream && Tells(last, vcn, fate) then 1 else 0
  }

  // How many ranges hold a VCN.
  function RangeCount(ranges: seq<VcnRange>, vcn: nat): nat {
    if ranges == [] then 0
    else
      var last := ranges[|ranges| - 1];
      RangeCount(ranges[..|ranges| - 1], vcn) + if last.vcn <= vcn < last.vcn + last.clusters then 1 else 0
  }

  // The claims of the runs went from out to claims: each VCN is claimed as often,
  // and as, the runs say, by that stream alone.
  ghost predicate ClaimsTell(out: seq<Claim>, claims: seq<Claim>, stream: nat, runs: seq<LayoutRun>, initialized: nat) {
    forall s: nat, vcn: nat, fate: Fate :: fate.Claimed? ==>
      ClaimCount(claims, s, vcn, fate) == ClaimCount(out, s, vcn, fate) + if s == stream then FateCount(runs, initialized, vcn, fate) else 0
  }

  // The account took the holes of the runs as holes, and what is lost of them as
  // invalid.
  ghost predicate AccountTells(before: Option<AccountStream>, after: Option<AccountStream>, runs: seq<LayoutRun>, initialized: nat) {
    && before.Some? == after.Some?
    && (before.Some? ==> forall vcn: nat :: RangeCount(after.value.sparse, vcn) == RangeCount(before.value.sparse, vcn) + FateCount(runs, initialized, vcn, Hole))
    && (before.Some? ==> forall vcn: nat :: RangeCount(after.value.invalid, vcn) == RangeCount(before.value.invalid, vcn) + FateCount(runs, initialized, vcn, Lost))
  }

  lemma ClaimCountAdded(claims: seq<Claim>, c: Claim, stream: nat, vcn: nat, fate: Fate)
    ensures ClaimCount(claims + [c], stream, vcn, fate) == ClaimCount(claims, stream, vcn, fate) + if c.stream == stream && Tells(c, vcn, fate) then 1 else 0
  {
    assert (claims + [c])[..|claims|] == claims;
  }

  lemma RangeCountAdded(ranges: seq<VcnRange>, r: VcnRange, vcn: nat)
    ensures RangeCount(ranges + [r], vcn) == RangeCount(ranges, vcn) + if r.vcn <= vcn < r.vcn + r.clusters then 1 else 0
  {
    assert (ranges + [r])[..|ranges|] == ranges;
  }

  lemma FateOfOne(run: LayoutRun, initialized: nat, vcn: nat, fate: Fate)
    ensures FateCount([run], initialized, vcn, fate) == RunFate(run, initialized, vcn, fate)
  {
    assert FateCount([run][..0], initialized, vcn, fate) == 0;
  }

  // Some runs, then one more.
  lemma TellOneMore(out: seq<Claim>, middle: seq<Claim>, claims: seq<Claim>, stream: nat, runs: seq<LayoutRun>, i: nat, initialized: nat,
                    before: Option<AccountStream>, between: Option<AccountStream>, after: Option<AccountStream>)
    requires i < |runs|
    requires ClaimsTell(out, middle, stream, runs[..i], initialized) && ClaimsTell(middle, claims, stream, [runs[i]], initialized)
    requires AccountTells(before, between, runs[..i], initialized) && AccountTells(between, after, [runs[i]], initialized)
    ensures ClaimsTell(out, claims, stream, runs[..i + 1], initialized) && AccountTells(before, after, runs[..i + 1], initialized)
  {
    hide ClaimCount, RangeCount, RunFate;
    forall vcn: nat, fate: Fate
      ensures FateCount(runs[..i + 1], initialized, vcn, fate) == FateCount(runs[..i], initialized, vcn, fate) + FateCount([runs[i]], initialized, vcn, fate)
    {
      FateOfOne(runs[i], initialized, vcn, fate);
      assert runs[..i + 1][..i] == runs[..i];
    }
    hide FateCount;
  }

  // -------------------------------------------------------------------------
  // Cutting runs into claims
  // -------------------------------------------------------------------------

  ghost predicate ClaimOfLayout(c: Claim, runs: seq<LayoutRun>, initialized: nat) {
    exists i :: 0 <= i < |runs| && ClaimOfRun(c, runs[i], initialized)
  }

  // claims is out with claims of stream added, each a part of one of runs.
  ghost predicate Extends(claims: seq<Claim>, out: seq<Claim>, stream: nat, runs: seq<LayoutRun>, initialized: nat) {
    && |out| <= |claims| && claims[..|out|] == out
    && (forall k :: |out| <= k < |claims| ==> claims[k].stream == stream && ClaimOfLayout(claims[k], runs, initialized))
  }

  // The account after the claims of clusters clusters went from out to claims:
  // every cluster is real, a hole or invalid, the real ones are the claims', and
  // nothing else of the account changed.
  ghost predicate Noted(before: Option<AccountStream>, after: Option<AccountStream>,
                        out: seq<Claim>, claims: seq<Claim>, clusters: nat)
  {
    && before.Some? == after.Some?
    && (before.Some? ==>
          var b, a := before.value, after.value;
          && Covered(a) == Covered(b) + clusters
          && a.realClusters == b.realClusters + ClaimClusters(claims) - ClaimClusters(out)
          && a == b.(realClusters := a.realClusters, sparse := a.sparse, invalid := a.invalid)
          && (AccountWithin(b) ==> AccountWithin(a)))
  }

  // A layout's run as AppendClaims takes it: 64-bit addresses, inside span.
  predicate RunWithin(run: LayoutRun, span: nat) {
    run.vcn + run.clusters <= span && (run.lcn.Some? ==> run.lcn.value <= U64_MAX)
  }

  lemma RangeAdded(ranges: seq<VcnRange>, r: VcnRange)
    ensures RangeClusters(ranges + [r]) == RangeClusters(ranges) + r.clusters
  {
    assert (ranges + [r])[..|ranges|] == ranges;
  }

  lemma ClaimAdded(claims: seq<Claim>, c: Claim)
    ensures ClaimClusters(claims + [c]) == ClaimClusters(claims) + c.Clusters()
  {
    assert (claims + [c])[..|claims|] == claims;
  }

  // The claims of a part: none, or one that holds it as far as a claim can.
  ghost predicate PartClaimed(out: seq<Claim>, claims: seq<Claim>, stream: nat, lcn: nat, vcn: nat, clusters: nat, unwritten: bool) {
    if clusters == 0 then claims == out
    else
      && |claims| == |out| + 1 && claims[..|out|] == out
      && var c := claims[|out|];
         && c.lcn == lcn && c.vcn == vcn && c.stream == stream && c.Unwritten() == unwritten
         && c.Clusters() == Min(clusters, MAX_CLAIM_CLUSTERS)
  }

  // What is left of a part longer than a claim holds.
  function Rest(vcn: nat, clusters: nat): seq<VcnRange> {
    if clusters <= MAX_CLAIM_CLUSTERS then [] else [VcnRange(vcn + MAX_CLAIM_CLUSTERS, clusters - MAX_CLAIM_CLUSTERS)]
  }

  // Appends the claim of one run part to out. A part longer than a claim holds
  // is cut: what is left is noted in the account, when the stream has one.
  method AppendPart(out: seq<Claim>, stream: nat, lcn: nat, vcn: nat, clusters: nat, unwritten: bool,
                    account: Option<AccountStream>)
    returns (claims: seq<Claim>, noted: Option<AccountStream>)
    requires account.Some? ==> vcn + clusters <= account.value.span
    ensures PartClaimed(out, claims, stream, lcn, vcn, clusters, unwritten)
    ensures Noted(account, noted, out, claims, clusters)
    // What no claim holds is invalid, and nothing is a hole.
    ensures account.Some? ==> noted.value.sparse == account.value.sparse
    ensures account.Some? ==> noted.value.invalid == account.value.invalid + Rest(vcn, clusters)
  {
    claims, noted := out, account;
    if clusters == 0 {
      return;
    }
    var held := Min(clusters, MAX_CLAIM_CLUSTERS);
    var c := Claim(lcn, vcn, held + if unwritten then CLAIM_UNWRITTEN_BIT else 0, stream);
    claims := out + [c];
    ClaimAdded(out, c);
    if account.Some? {
      noted := Some(account.value.(realClusters := account.value.realClusters + held));
      if clusters > held {
        RangeAdded(account.value.invalid, VcnRange(vcn + held, clusters - held));
        noted := Some(noted.value.(invalid := noted.value.invalid + [VcnRange(vcn + held, clusters - held)]));
      }
    }
  }

  // Appends what one run gives: its claims, cut where the stream's initialized
  // size falls, or a note in the account of a hole or of a run that overflows
  // 64 bits.
  method AppendRun(run: LayoutRun, initialized: nat, stream: nat, out: seq<Claim>, account: Option<AccountStream>)
    returns (claims: seq<Claim>, noted: Option<AccountStream>)
    requires account.Some? ==> RunWithin(run, account.value.span)
    requires run.lcn.Some? ==> run.lcn.value <= U64_MAX
    ensures Extends(claims, out, stream, [run], initialized)
    ensures Noted(account, noted, out, claims, run.clusters)
    ensures ClaimsTell(out, claims, stream, [run], initialized) && AccountTells(account, noted, [run], initialized)
  {
    hide ClaimsTell, AccountTells, Extends, Noted, PartClaimed, Rest;
    claims, noted := out, account;
    if run.lcn.None? || run.clusters > U64_MAX - run.lcn.value {
      UnclaimedRun(run, initialized, stream, out, account);
      UnclaimedNoted(run, initialized, stream, out, account);
    }
    if run.lcn.None? {
      if account.Some? {
        noted := Some(account.value.(sparse := account.value.sparse + [VcnRange(run.vcn, run.clusters)]));
      }
      return;
    }
    if run.clusters > U64_MAX - run.lcn.value {
      if account.Some? {
        noted := Some(account.value.(invalid := account.value.invalid + [VcnRange(run.vcn, run.clusters)]));
      }
      return;
    }
    // The run's VCNs before the initialized size were written, the others
    // never.
    var runEnd := run.vcn + run.clusters;
    var writtenEnd := Min(Max(initialized, run.vcn), runEnd);
    claims, noted := AppendPart(out, stream, run.lcn.value, run.vcn, writtenEnd - run.vcn, false, account);
    ghost var written, first := claims, noted;
    NotedSpan(account, first, out, written, writtenEnd - run.vcn);
    claims, noted := AppendPart(claims, stream, run.lcn.value + (writtenEnd - run.vcn), writtenEnd, runEnd - writtenEnd, true, noted);
    ClaimedRun(run, initialized, stream, out, written, claims, account, noted);
    RunExtends(run, initialized, stream, out, written, claims);
    NotedTwice(account, first, noted, out, written, claims, writtenEnd - run.vcn, runEnd - writtenEnd);
  }

  lemma NotedSpan(before: Option<AccountStream>, after: Option<AccountStream>, out: seq<Claim>, claims: seq<Claim>, clusters: nat)
    requires Noted(before, after, out, claims, clusters)
    ensures before.Some? == after.Some? && (before.Some? ==> after.value.span == before.value.span)
  {
  }

  lemma NotedTwice(before: Option<AccountStream>, between: Option<AccountStream>, after: Option<AccountStream>,
                   out: seq<Claim>, middle: seq<Claim>, claims: seq<Claim>, a: nat, b: nat)
    requires Noted(before, between, out, middle, a) && Noted(between, after, middle, claims, b)
    ensures Noted(before, after, out, claims, a + b)
  {
    hide Covered, AccountWithin, ClaimClusters;
  }

  lemma UnclaimedNoted(run: LayoutRun, initialized: nat, stream: nat, out: seq<Claim>, account: Option<AccountStream>)
    requires account.Some? ==> RunWithin(run, account.value.span)
    ensures Extends(out, out, stream, [run], initialized)
    ensures account.None? ==> Noted(account, account, out, out, run.clusters)
    ensures account.Some? ==> Noted(account, Some(account.value.(sparse := account.value.sparse + [VcnRange(run.vcn, run.clusters)])), out, out, run.clusters)
    ensures account.Some? ==> Noted(account, Some(account.value.(invalid := account.value.invalid + [VcnRange(run.vcn, run.clusters)])), out, out, run.clusters)
  {
    if account.Some? {
      RangeAdded(account.value.sparse, VcnRange(run.vcn, run.clusters));
      RangeAdded(account.value.invalid, VcnRange(run.vcn, run.clusters));
    }
  }

  // The claims of a run's two parts are parts of it.
  lemma RunExtends(run: LayoutRun, initialized: nat, stream: nat, out: seq<Claim>, written: seq<Claim>, claims: seq<Claim>)
    requires run.lcn.Some? && run.lcn.value + run.clusters <= U64_MAX
    requires var w := Min(Max(initialized, run.vcn), run.vcn + run.clusters) - run.vcn;
      && PartClaimed(out, written, stream, run.lcn.value, run.vcn, w, false)
      && PartClaimed(written, claims, stream, run.lcn.value + w, run.vcn + w, run.clusters - w, true)
    ensures Extends(claims, out, stream, [run], initialized)
  {
    assert claims[..|out|] == written[..|out|];
    forall k | |out| <= k < |claims| ensures claims[k].stream == stream && ClaimOfLayout(claims[k], [run], initialized) {
      if k < |written| { assert claims[k] == written[k]; }
      assert ClaimOfRun(claims[k], [run][0], initialized);
    }
  }

  // A hole, or a run that ends past 2^64, noted when there is an account.
  lemma UnclaimedRun(run: LayoutRun, initialized: nat, stream: nat, out: seq<Claim>, account: Option<AccountStream>)
    requires run.lcn.None? || run.lcn.value + run.clusters > U64_MAX
    ensures ClaimsTell(out, out, stream, [run], initialized)
    ensures account.None? ==> AccountTells(account, account, [run], initialized)
    ensures account.Some? && run.lcn.None? ==> AccountTells(account, Some(account.value.(sparse := account.value.sparse + [VcnRange(run.vcn, run.clusters)])), [run], initialized)
    ensures account.Some? && run.lcn.Some? ==> AccountTells(account, Some(account.value.(invalid := account.value.invalid + [VcnRange(run.vcn, run.clusters)])), [run], initialized)
  {
    hide FateCount, ClaimCount, RangeCount;
    forall vcn: nat, fate: Fate ensures FateCount([run], initialized, vcn, fate) == RunFate(run, initialized, vcn, fate) {
      FateOfOne(run, initialized, vcn, fate);
    }
    if account.Some? {
      forall vcn: nat
        ensures RangeCount(account.value.sparse + [VcnRange(run.vcn, run.clusters)], vcn) == RangeCount(account.value.sparse, vcn) + if RunHolds(run, vcn) then 1 else 0
        ensures RangeCount(account.value.invalid + [VcnRange(run.vcn, run.clusters)], vcn) == RangeCount(account.value.invalid, vcn) + if RunHolds(run, vcn) then 1 else 0
      {
        RangeCountAdded(account.value.sparse, VcnRange(run.vcn, run.clusters), vcn);
        RangeCountAdded(account.value.invalid, VcnRange(run.vcn, run.clusters), vcn);
      }
    }
  }

  lemma PartCount(out: seq<Claim>, claims: seq<Claim>, stream: nat, lcn: nat, vcn: nat, clusters: nat, unwritten: bool, s: nat, v: nat, fate: Fate)
    requires PartClaimed(out, claims, stream, lcn, vcn, clusters, unwritten)
    ensures ClaimCount(claims, s, v, fate) == ClaimCount(out, s, v, fate)
      + if s == stream && vcn <= v < vcn + Min(clusters, MAX_CLAIM_CLUSTERS) && fate == Claimed(lcn + (v - vcn), unwritten) then 1 else 0
  {
    if clusters > 0 {
      assert claims == out + [claims[|out|]];
      ClaimCountAdded(out, claims[|out|], s, v, fate);
    }
  }

  lemma RestCount(ranges: seq<VcnRange>, vcn: nat, clusters: nat, v: nat)
    ensures RangeCount(ranges + Rest(vcn, clusters), v) == RangeCount(ranges, v) + if vcn + MAX_CLAIM_CLUSTERS <= v < vcn + clusters then 1 else 0
  {
    if clusters <= MAX_CLAIM_CLUSTERS {
      assert ranges + [] == ranges;
    } else {
      RangeCountAdded(ranges, VcnRange(vcn + MAX_CLAIM_CLUSTERS, clusters - MAX_CLAIM_CLUSTERS), v);
    }
  }

  // A run with an address, cut where the initialized size falls.
  lemma ClaimedRun(run: LayoutRun, initialized: nat, stream: nat, out: seq<Claim>, written: seq<Claim>, claims: seq<Claim>,
                   account: Option<AccountStream>, noted: Option<AccountStream>)
    requires run.lcn.Some? && run.lcn.value + run.clusters <= U64_MAX && account.Some? == noted.Some?
    requires var w := Min(Max(initialized, run.vcn), run.vcn + run.clusters) - run.vcn;
      && PartClaimed(out, written, stream, run.lcn.value, run.vcn, w, false)
      && PartClaimed(written, claims, stream, run.lcn.value + w, run.vcn + w, run.clusters - w, true)
      && (account.Some? ==> noted.value.sparse == account.value.sparse)
      && (account.Some? ==> noted.value.invalid == account.value.invalid + Rest(run.vcn, w) + Rest(run.vcn + w, run.clusters - w))
    ensures ClaimsTell(out, claims, stream, [run], initialized) && AccountTells(account, noted, [run], initialized)
  {
    hide FateCount, ClaimCount, RangeCount, PartClaimed, Rest;
    var w: nat := Min(Max(initialized, run.vcn), run.vcn + run.clusters) - run.vcn;
    forall vcn: nat, fate: Fate ensures FateCount([run], initialized, vcn, fate) == RunFate(run, initialized, vcn, fate) {
      FateOfOne(run, initialized, vcn, fate);
    }
    forall s: nat, vcn: nat, fate: Fate | fate.Claimed?
      ensures ClaimCount(claims, s, vcn, fate) == ClaimCount(out, s, vcn, fate) + if s == stream then FateCount([run], initialized, vcn, fate) else 0
    {
      PartCount(out, written, stream, run.lcn.value, run.vcn, w, false, s, vcn, fate);
      PartCount(written, claims, stream, run.lcn.value + w, run.vcn + w, run.clusters - w, true, s, vcn, fate);
    }
    if account.Some? {
      forall vcn: nat ensures RangeCount(noted.value.invalid, vcn) == RangeCount(account.value.invalid, vcn) + FateCount([run], initialized, vcn, Lost) {
        RestCount(account.value.invalid, run.vcn, w, vcn);
        RestCount(account.value.invalid + Rest(run.vcn, w), run.vcn + w, run.clusters - w, vcn);
      }
    }
  }

  lemma ExtendsOneMore(claims: seq<Claim>, middle: seq<Claim>, out: seq<Claim>, stream: nat,
                       runs: seq<LayoutRun>, i: nat, initialized: nat)
    requires i < |runs|
    requires Extends(middle, out, stream, runs[..i], initialized)
    requires Extends(claims, middle, stream, [runs[i]], initialized)
    ensures Extends(claims, out, stream, runs[..i + 1], initialized)
  {
    var now := runs[..i + 1];
    assert claims[..|out|] == middle[..|out|];
    forall k | |out| <= k < |claims|
      ensures claims[k].stream == stream && ClaimOfLayout(claims[k], now, initialized)
    {
      if k < |middle| {
        assert claims[k] == middle[k];
        var j :| 0 <= j < i && ClaimOfRun(middle[k], runs[..i][j], initialized);
        assert now[j] == runs[..i][j];
      } else {
        assert ClaimOfRun(claims[k], [runs[i]][0], initialized);
        assert now[i] == runs[i];
      }
    }
  }

  lemma NothingTold(out: seq<Claim>, stream: nat, initialized: nat, account: Option<AccountStream>, none: seq<LayoutRun>)
    requires |none| == 0
    ensures ClaimsTell(out, out, stream, none, initialized) && AccountTells(account, account, none, initialized)
  {
    assert forall vcn: nat, fate: Fate :: FateCount(none, initialized, vcn, fate) == 0;
  }

  // Appends the claims of every run of layout to out. Each claim is a part of a
  // run, at the run's own addresses, and each cluster of each run ends up real,
  // a hole or invalid.
  method AppendClaims(layout: StreamLayout, stream: nat, out: seq<Claim>, account: Option<AccountStream>)
    returns (claims: seq<Claim>, noted: Option<AccountStream>)
    requires LayoutValid(layout)
    requires account.Some? ==> layout.coveredEnd <= account.value.span
    ensures Extends(claims, out, stream, layout.runs, layout.initializedClusters)
    ensures Noted(account, noted, out, claims, RunClusters(layout.runs))
    ensures ClaimsTell(out, claims, stream, layout.runs, layout.initializedClusters) && AccountTells(account, noted, layout.runs, layout.initializedClusters)
  {
    hide ClaimsTell, AccountTells;
    claims, noted := out, account;
    NothingTold(out, stream, layout.initializedClusters, account, layout.runs[..0]);
    for i := 0 to |layout.runs|
      invariant Extends(claims, out, stream, layout.runs[..i], layout.initializedClusters)
      invariant Noted(account, noted, out, claims, RunClusters(layout.runs[..i]))
      invariant ClaimsTell(out, claims, stream, layout.runs[..i], layout.initializedClusters)
      invariant AccountTells(account, noted, layout.runs[..i], layout.initializedClusters)
    {
      var run := layout.runs[i];
      assert layout.runs[..i + 1][..i] == layout.runs[..i];
      ghost var middle, between := claims, noted;
      claims, noted := AppendRun(run, layout.initializedClusters, stream, claims, noted);
      ExtendsOneMore(claims, middle, out, stream, layout.runs, i, layout.initializedClusters);
      TellOneMore(out, middle, claims, stream, layout.runs, i, layout.initializedClusters, account, between, noted);
    }
    assert layout.runs[..|layout.runs|] == layout.runs;
  }

  // -------------------------------------------------------------------------
  // The claims of one record
  // -------------------------------------------------------------------------

  // What a part of a stream says of its sizes. The first part describes the
  // stream; a continuation has no initialized size.
  function TakeSizes(layout: StreamLayout, account: AccountStream): (r: AccountStream)
    ensures r.span >= account.span && r.span >= layout.declaredClusters && r.span >= layout.coveredEnd
    ensures Covered(r) == Covered(account) && r.name == account.name && r.ownerDense == account.ownerDense
    ensures AccountWithin(account) ==> AccountWithin(r)
  {
    var firstPart := layout.initializedClusters != U64_MAX;
    var sized :=
      if firstPart || account.span == 0 then
        account.(dataSize := layout.dataSize, initializedSize := layout.initializedSize,
                 unitClusters := layout.unitClusters, encrypted := layout.encrypted)
      else account;
    sized.(span := Max(account.span, Max(layout.declaredClusters, layout.coveredEnd)))
  }

  // The clusters of the runs of the $DATA parts named name.
  function DataClusters(attributes: seq<AttributeRuns>, name: string): nat {
    if attributes == [] then 0
    else
      var last := attributes[|attributes| - 1];
      DataClusters(attributes[..|attributes| - 1], name)
      + if last.isData && !last.isBadList && last.name == name then RunClusters(last.layout.runs) else 0
  }

  lemma {:induction false} ClaimedByWider(claims: seq<Claim>, accountOf: seq<Option<nat>>, more: seq<Option<nat>>, a: nat)
    requires forall i :: 0 <= i < |claims| ==> claims[i].stream < |accountOf|
    ensures ClaimedBy(claims, accountOf + more, a) == ClaimedBy(claims, accountOf, a)
  {
    if claims != [] {
      ClaimedByWider(claims[..|claims| - 1], accountOf, more, a);
    }
  }

  // Claims added to one stream change the account of that stream alone, by the
  // clusters they hold.
  lemma {:induction false} ClaimedByGrows(claims: seq<Claim>, out: seq<Claim>, stream: nat, accountOf: seq<Option<nat>>, a: nat)
    requires forall i :: 0 <= i < |claims| ==> claims[i].stream < |accountOf|
    requires |out| <= |claims| && claims[..|out|] == out
    requires forall k :: |out| <= k < |claims| ==> claims[k].stream == stream
    requires stream < |accountOf|
    ensures ClaimedBy(claims, accountOf, a) == ClaimedBy(out, accountOf, a)
      + if accountOf[stream] == Some(a) then ClaimClusters(claims) - ClaimClusters(out) else 0
  {
    if |claims| == |out| {
      assert claims == out;
    } else {
      var front := claims[..|claims| - 1];
      assert front[..|out|] == out;
      ClaimedByGrows(front, out, stream, accountOf, a);
    }
  }

  // A new stream, without an account, takes nothing away from the balance.
  lemma BalanceNewStream(claims: seq<Claim>, accountOf: seq<Option<nat>>, accounts: seq<AccountStream>)
    requires ClaimsBalance(claims, accountOf, accounts)
    ensures ClaimsBalance(claims, accountOf + [None], accounts)
  {
    forall a | 0 <= a < |accounts|
      ensures ClaimedBy(claims, accountOf + [None], a) == accounts[a].realClusters
    {
      ClaimedByWider(claims, accountOf, [None], a);
    }
  }

  // A new account, and the stream it describes.
  lemma BalanceNewAccount(claims: seq<Claim>, accountOf: seq<Option<nat>>, accounts: seq<AccountStream>, name: string)
    requires ClaimsBalance(claims, accountOf, accounts)
    ensures ClaimsBalance(claims, accountOf + [Some(|accounts|)], accounts + [NewAccount(name)])
  {
    var more := [Some(|accounts|)];
    forall a | 0 <= a <= |accounts|
      ensures ClaimedBy(claims, accountOf + more, a) == (accounts + [NewAccount(name)])[a].realClusters
    {
      ClaimedByWider(claims, accountOf, more, a);
      if a == |accounts| {
        ClaimedByNobody(claims, accountOf, a);
      }
    }
  }

  lemma {:induction false} ClaimedByNobody(claims: seq<Claim>, accountOf: seq<Option<nat>>, a: nat)
    requires forall i :: 0 <= i < |claims| ==> claims[i].stream < |accountOf|
    requires forall s :: 0 <= s < |accountOf| ==> accountOf[s] != Some(a)
    ensures ClaimedBy(claims, accountOf, a) == 0
  {
    if claims != [] {
      ClaimedByNobody(claims[..|claims| - 1], accountOf, a);
    }
  }

  // Claims of a stream without an account keep the balance.
  lemma BalanceUncounted(claims: seq<Claim>, out: seq<Claim>, stream: nat, runs: seq<LayoutRun>, initialized: nat,
                         accountOf: seq<Option<nat>>, accounts: seq<AccountStream>)
    requires ClaimsBalance(out, accountOf, accounts)
    requires Extends(claims, out, stream, runs, initialized)
    requires stream < |accountOf| && accountOf[stream].None?
    ensures ClaimsBalance(claims, accountOf, accounts)
  {
    forall i | 0 <= i < |claims|
      ensures ClaimValid(claims[i]) && claims[i].stream < |accountOf|
      ensures accountOf[claims[i].stream].Some? ==>
                claims[i].vcn + claims[i].Clusters() <= accounts[accountOf[claims[i].stream].value].span
    {
      if i < |out| { assert claims[i] == out[i]; }
    }
    forall a | 0 <= a < |accounts|
      ensures ClaimedBy(claims, accountOf, a) == accounts[a].realClusters
    {
      ClaimedByGrows(claims, out, stream, accountOf, a);
    }
  }

  // Claims of a stream with an account keep the balance, once the account has
  // taken the sizes of the layout and noted its runs.
  lemma BalanceCounted(claims: seq<Claim>, out: seq<Claim>, stream: nat, layout: StreamLayout,
                       accountOf: seq<Option<nat>>, accounts: seq<AccountStream>, noted: AccountStream)
    requires ClaimsBalance(out, accountOf, accounts) && LayoutValid(layout)
    requires Extends(claims, out, stream, layout.runs, layout.initializedClusters)
    requires stream < |accountOf| && accountOf[stream].Some?
    requires Noted(Some(TakeSizes(layout, accounts[accountOf[stream].value])), Some(noted), out, claims, RunClusters(layout.runs))
    ensures ClaimsBalance(claims, accountOf, accounts[accountOf[stream].value := noted])
  {
    var at := accountOf[stream].value;
    forall i | 0 <= i < |claims|
      ensures ClaimValid(claims[i]) && claims[i].stream < |accountOf|
      ensures accountOf[claims[i].stream].Some? ==>
                claims[i].vcn + claims[i].Clusters() <= accounts[at := noted][accountOf[claims[i].stream].value].span
    {
      if i < |out| { assert claims[i] == out[i]; }
    }
    forall a | 0 <= a < |accounts|
      ensures ClaimedBy(claims, accountOf, a) == accounts[at := noted][a].realClusters
    {
      ClaimedByGrows(claims, out, stream, accountOf, a);
    }
  }

  // Each account has a stream of its own, and a name of its own.
  ghost predicate NamesOwned(accounts: seq<AccountStream>, accountStream: seq<nat>, accountOf: seq<Option<nat>>) {
    && |accountStream| == |accounts|
    && (forall a :: 0 <= a < |accounts| ==> accountStream[a] < |accountOf| && accountOf[accountStream[a]] == Some(a))
    && (forall a, b :: 0 <= a < b < |accounts| ==> accounts[a].name != accounts[b].name)
  }

  // The account of every name met so far covers all the runs of its parts.
  ghost predicate NamesCovered(accounts: seq<AccountStream>, attributes: seq<AttributeRuns>) {
    && (forall a :: 0 <= a < |accounts| ==> Covered(accounts[a]) == DataClusters(attributes, accounts[a].name))
    && (forall i :: 0 <= i < |attributes| && attributes[i].isData && !attributes[i].isBadList ==>
          exists a :: 0 <= a < |accounts| && accounts[a].name == attributes[i].name)
  }

  lemma {:induction false} UnseenName(attributes: seq<AttributeRuns>, name: string)
    requires forall i :: 0 <= i < |attributes| && attributes[i].isData && !attributes[i].isBadList ==> attributes[i].name != name
    ensures DataClusters(attributes, name) == 0
  {
    if attributes != [] {
      UnseenName(attributes[..|attributes| - 1], name);
    }
  }

  // -------------------------------------------------------------------------
  // Whose each cluster is, within a record
  // -------------------------------------------------------------------------

  // How many claims of the streams of an account, or of the streams without one,
  // say that of a VCN.
  function CountBy(claims: seq<Claim>, accountOf: seq<Option<nat>>, account: Option<nat>, vcn: nat, fate: Fate): nat {
    if claims == [] then 0
    else
      var last := claims[|claims| - 1];
      CountBy(claims[..|claims| - 1], accountOf, account, vcn, fate)
      + if last.stream < |accountOf| && accountOf[last.stream] == account && Tells(last, vcn, fate) then 1 else 0
  }

  // How many runs of the parts of a stream give a VCN that fate: the parts of the
  // $DATA stream of a name, or every other attribute but the bad cluster list.
  // Only a concerned record tells its $DATA streams apart.
  function PartFates(attributes: seq<AttributeRuns>, name: Option<string>, concerned: bool, vcn: nat, fate: Fate): nat {
    if attributes == [] then 0
    else
      var last := attributes[|attributes| - 1];
      PartFates(attributes[..|attributes| - 1], name, concerned, vcn, fate)
      + if PartOf(last, name, concerned) then FateCount(last.layout.runs, last.layout.initializedClusters, vcn, fate) else 0
  }

  predicate PartOf(a: AttributeRuns, name: Option<string>, concerned: bool) {
    !(a.isData && a.isBadList) && name == if concerned && a.isData then Some(a.name) else None
  }

  // Each VCN of each attribute is claimed as its runs say, by the account of its
  // name or by none; the accounts list the holes and what is lost.
  ghost predicate Told(claims: seq<Claim>, accountOf: seq<Option<nat>>, accounts: seq<AccountStream>, concerned: bool, met: seq<AttributeRuns>) {
    && (forall vcn: nat, fate: Fate :: fate.Claimed? ==> CountBy(claims, accountOf, None, vcn, fate) == PartFates(met, None, concerned, vcn, fate))
    && (forall a, vcn: nat, fate: Fate :: 0 <= a < |accounts| && fate.Claimed? ==> CountBy(claims, accountOf, Some(a), vcn, fate) == PartFates(met, Some(accounts[a].name), concerned, vcn, fate))
    && (forall a, vcn: nat :: 0 <= a < |accounts| ==> RangeCount(accounts[a].sparse, vcn) == PartFates(met, Some(accounts[a].name), concerned, vcn, Hole))
    && (forall a, vcn: nat :: 0 <= a < |accounts| ==> RangeCount(accounts[a].invalid, vcn) == PartFates(met, Some(accounts[a].name), concerned, vcn, Lost))
  }

  lemma PartFatesMore(met: seq<AttributeRuns>, a: AttributeRuns, name: Option<string>, concerned: bool, vcn: nat, fate: Fate)
    ensures PartFates(met + [a], name, concerned, vcn, fate) == PartFates(met, name, concerned, vcn, fate) + if PartOf(a, name, concerned) then FateCount(a.layout.runs, a.layout.initializedClusters, vcn, fate) else 0
  {
    assert (met + [a])[..|met|] == met;
  }

  lemma {:induction false} CountByWider(claims: seq<Claim>, accountOf: seq<Option<nat>>, more: seq<Option<nat>>, account: Option<nat>, vcn: nat, fate: Fate)
    requires forall i :: 0 <= i < |claims| ==> claims[i].stream < |accountOf|
    ensures CountBy(claims, accountOf + more, account, vcn, fate) == CountBy(claims, accountOf, account, vcn, fate)
  {
    if claims != [] { CountByWider(claims[..|claims| - 1], accountOf, more, account, vcn, fate); }
  }

  lemma {:induction false} CountByNobody(claims: seq<Claim>, accountOf: seq<Option<nat>>, account: Option<nat>, vcn: nat, fate: Fate)
    requires forall s :: 0 <= s < |accountOf| ==> accountOf[s] != account
    ensures CountBy(claims, accountOf, account, vcn, fate) == 0
  {
    if claims != [] { CountByNobody(claims[..|claims| - 1], accountOf, account, vcn, fate); }
  }

  lemma {:induction false} CountByGrows(claims: seq<Claim>, out: seq<Claim>, stream: nat, accountOf: seq<Option<nat>>, account: Option<nat>, vcn: nat, fate: Fate)
    requires |out| <= |claims| && claims[..|out|] == out && stream < |accountOf|
    requires forall k :: |out| <= k < |claims| ==> claims[k].stream == stream
    ensures CountBy(claims, accountOf, account, vcn, fate) == CountBy(out, accountOf, account, vcn, fate)
      + if accountOf[stream] == account then ClaimCount(claims, stream, vcn, fate) - ClaimCount(out, stream, vcn, fate) else 0
  {
    if |claims| == |out| {
      assert claims == out;
    } else {
      var front := claims[..|claims| - 1];
      assert front[..|out|] == out;
      CountByGrows(front, out, stream, accountOf, account, vcn, fate);
    }
  }

  // A new stream without an account.
  lemma ToldNewStream(claims: seq<Claim>, accountOf: seq<Option<nat>>, accounts: seq<AccountStream>, concerned: bool, met: seq<AttributeRuns>)
    requires Told(claims, accountOf, accounts, concerned, met) && forall i :: 0 <= i < |claims| ==> claims[i].stream < |accountOf|
    ensures Told(claims, accountOf + [None], accounts, concerned, met)
  {
    forall account: Option<nat>, vcn: nat, fate: Fate ensures CountBy(claims, accountOf + [None], account, vcn, fate) == CountBy(claims, accountOf, account, vcn, fate) {
      CountByWider(claims, accountOf, [None], account, vcn, fate);
    }
    hide CountBy, PartFates, RangeCount;
  }

  // A new account, of a name no part had.
  lemma ToldNewAccount(claims: seq<Claim>, accountOf: seq<Option<nat>>, accounts: seq<AccountStream>, met: seq<AttributeRuns>, name: string)
    requires Told(claims, accountOf, accounts, true, met) && forall i :: 0 <= i < |claims| ==> claims[i].stream < |accountOf|
    requires forall s :: 0 <= s < |accountOf| ==> accountOf[s] != Some(|accounts|)
    requires forall i :: 0 <= i < |met| && met[i].isData && !met[i].isBadList ==> met[i].name != name
    ensures Told(claims, accountOf + [Some(|accounts|)], accounts + [NewAccount(name)], true, met)
  {
    var more := [Some(|accounts|)];
    forall account: Option<nat>, vcn: nat, fate: Fate ensures CountBy(claims, accountOf + more, account, vcn, fate) == CountBy(claims, accountOf, account, vcn, fate) {
      CountByWider(claims, accountOf, more, account, vcn, fate);
    }
    forall vcn: nat, fate: Fate
      ensures CountBy(claims, accountOf, Some(|accounts|), vcn, fate) == 0 && PartFates(met, Some(name), true, vcn, fate) == 0
    {
      CountByNobody(claims, accountOf, Some(|accounts|), vcn, fate);
      NoPart(met, name, vcn, fate);
    }
    assert forall vcn: nat :: RangeCount(NewAccount(name).sparse, vcn) == 0 && RangeCount(NewAccount(name).invalid, vcn) == 0;
    hide CountBy, PartFates, RangeCount;
  }

  lemma {:induction false} NoPart(met: seq<AttributeRuns>, name: string, vcn: nat, fate: Fate)
    requires forall i :: 0 <= i < |met| && met[i].isData && !met[i].isBadList ==> met[i].name != name
    ensures PartFates(met, Some(name), true, vcn, fate) == 0
  {
    if met != [] { NoPart(met[..|met| - 1], name, vcn, fate); }
  }

  // The claims of a part of no account.
  lemma ToldUncounted(out: seq<Claim>, claims: seq<Claim>, stream: nat, accountOf: seq<Option<nat>>, accounts: seq<AccountStream>,
                      concerned: bool, met: seq<AttributeRuns>, a: AttributeRuns)
    requires Told(out, accountOf, accounts, concerned, met) && PartOf(a, None, concerned)
    requires stream < |accountOf| && accountOf[stream] == None
    requires Extends(claims, out, stream, a.layout.runs, a.layout.initializedClusters)
    requires ClaimsTell(out, claims, stream, a.layout.runs, a.layout.initializedClusters)
    ensures Told(claims, accountOf, accounts, concerned, met + [a])
  {
    hide CountBy, PartFates, RangeCount, ClaimCount, FateCount;
    forall account: Option<nat>, vcn: nat, fate: Fate | fate.Claimed?
      ensures CountBy(claims, accountOf, account, vcn, fate) == CountBy(out, accountOf, account, vcn, fate) + if account == None then FateCount(a.layout.runs, a.layout.initializedClusters, vcn, fate) else 0
    {
      CountByGrows(claims, out, stream, accountOf, account, vcn, fate);
    }
    forall name: Option<string>, vcn: nat, fate: Fate
      ensures PartFates(met + [a], name, concerned, vcn, fate) == PartFates(met, name, concerned, vcn, fate) + if name == None then FateCount(a.layout.runs, a.layout.initializedClusters, vcn, fate) else 0
    {
      PartFatesMore(met, a, name, concerned, vcn, fate);
    }
  }

  // The claims of a part of the stream that an account follows.
  lemma ToldCounted(out: seq<Claim>, claims: seq<Claim>, stream: nat, accountOf: seq<Option<nat>>, accounts: seq<AccountStream>, at: nat,
                    noted: AccountStream, met: seq<AttributeRuns>, a: AttributeRuns)
    requires Told(out, accountOf, accounts, true, met) && at < |accounts| && PartOf(a, Some(accounts[at].name), true)
    requires forall b, c :: 0 <= b < c < |accounts| ==> accounts[b].name != accounts[c].name
    requires stream < |accountOf| && accountOf[stream] == Some(at) && noted.name == accounts[at].name
    requires Extends(claims, out, stream, a.layout.runs, a.layout.initializedClusters)
    requires ClaimsTell(out, claims, stream, a.layout.runs, a.layout.initializedClusters)
    requires AccountTells(Some(TakeSizes(a.layout, accounts[at])), Some(noted), a.layout.runs, a.layout.initializedClusters)
    ensures Told(claims, accountOf, accounts[at := noted], true, met + [a])
  {
    hide CountBy, PartFates, RangeCount, ClaimCount, FateCount;
    var runs, initialized := a.layout.runs, a.layout.initializedClusters;
    forall account: Option<nat>, vcn: nat, fate: Fate | fate.Claimed?
      ensures CountBy(claims, accountOf, account, vcn, fate) == CountBy(out, accountOf, account, vcn, fate) + if account == Some(at) then FateCount(runs, initialized, vcn, fate) else 0
    {
      CountByGrows(claims, out, stream, accountOf, account, vcn, fate);
    }
    forall name: Option<string>, vcn: nat, fate: Fate
      ensures PartFates(met + [a], name, true, vcn, fate) == PartFates(met, name, true, vcn, fate) + if name == Some(accounts[at].name) then FateCount(runs, initialized, vcn, fate) else 0
    {
      PartFatesMore(met, a, name, true, vcn, fate);
    }
    assert forall b :: 0 <= b < |accounts| && b != at ==> accounts[b].name != accounts[at].name;
  }

  // The bad cluster list adds nothing.
  lemma ToldSame(claims: seq<Claim>, accountOf: seq<Option<nat>>, accounts: seq<AccountStream>, concerned: bool, met: seq<AttributeRuns>, a: AttributeRuns)
    requires Told(claims, accountOf, accounts, concerned, met) && a.isData && a.isBadList
    ensures Told(claims, accountOf, accounts, concerned, met + [a])
  {
    forall name: Option<string>, vcn: nat, fate: Fate ensures PartFates(met + [a], name, concerned, vcn, fate) == PartFates(met, name, concerned, vcn, fate) {
      PartFatesMore(met, a, name, concerned, vcn, fate);
    }
    hide CountBy, PartFates, RangeCount;
  }

  // -------------------------------------------------------------------------
  // The sizes of a stream
  // -------------------------------------------------------------------------

  // What an account knows of its stream besides its runs.
  datatype StreamSizes = StreamSizes(dataSize: nat, initializedSize: nat, unitClusters: nat, encrypted: bool)

  function SizesOf(account: AccountStream): StreamSizes {
    StreamSizes(account.dataSize, account.initializedSize, account.unitClusters, account.encrypted)
  }

  function LayoutSizes(layout: StreamLayout): StreamSizes {
    StreamSizes(layout.dataSize, layout.initializedSize, layout.unitClusters, layout.encrypted)
  }

  // The layouts of the parts of the $DATA stream of a name.
  function DataParts(attributes: seq<AttributeRuns>, name: string): seq<StreamLayout> {
    if attributes == [] then []
    else
      var last := attributes[|attributes| - 1];
      DataParts(attributes[..|attributes| - 1], name) + if PartOf(last, Some(name), true) then [last.layout] else []
  }

  // An account that took the sizes of some parts.
  function Taken(parts: seq<StreamLayout>): AccountStream {
    if parts == [] then NewAccount("") else TakeSizes(parts[|parts| - 1], Taken(parts[..|parts| - 1]))
  }

  // The furthest end that parts declare or cover.
  function SpanOf(parts: seq<StreamLayout>): nat {
    if parts == [] then 0
    else Max(SpanOf(parts[..|parts| - 1]), Max(parts[|parts| - 1].declaredClusters, parts[|parts| - 1].coveredEnd))
  }

  predicate IsContinuation(layout: StreamLayout) {
    layout.initializedClusters == U64_MAX
  }

  // The sizes are those of the last part that is no continuation, once it or an
  // earlier part spans a cluster, wherever continuations come.
  lemma {:induction false} SizesOfFirstPart(parts: seq<StreamLayout>, f: nat)
    requires f < |parts| && !IsContinuation(parts[f]) && SpanOf(parts[..f + 1]) > 0
    requires forall i :: f < i < |parts| ==> IsContinuation(parts[i])
    ensures SizesOf(Taken(parts)) == LayoutSizes(parts[f]) && Taken(parts).span == SpanOf(parts) > 0
  {
    hide Covered, AccountWithin;
    SpanTaken(parts);
    SpanTaken(parts[..|parts| - 1]);
    if f < |parts| - 1 {
      var front := parts[..|parts| - 1];
      assert front[..f + 1] == parts[..f + 1];
      SizesOfFirstPart(front, f);
    } else {
      assert parts[..f + 1] == parts;
    }
  }

  lemma {:induction false} SpanTaken(parts: seq<StreamLayout>)
    ensures Taken(parts).span == SpanOf(parts)
  {
    hide Covered, AccountWithin;
    if parts != [] { SpanTaken(parts[..|parts| - 1]); }
  }

  // Each account has the sizes and the span of the parts of its name.
  ghost predicate Sized(accounts: seq<AccountStream>, met: seq<AttributeRuns>) {
    forall a :: 0 <= a < |accounts| ==> SizedAs(accounts[a], Taken(DataParts(met, accounts[a].name)))
  }

  predicate SizedAs(a: AccountStream, b: AccountStream) {
    SizesOf(a) == SizesOf(b) && a.span == b.span
  }

  lemma DataPartsMore(met: seq<AttributeRuns>, a: AttributeRuns, name: string)
    ensures DataParts(met + [a], name) == DataParts(met, name) + if PartOf(a, Some(name), true) then [a.layout] else []
  {
    assert (met + [a])[..|met|] == met;
  }

  lemma SizedSame(accounts: seq<AccountStream>, met: seq<AttributeRuns>, a: AttributeRuns)
    requires Sized(accounts, met) && !(a.isData && !a.isBadList)
    ensures Sized(accounts, met + [a])
  {
    forall b | 0 <= b < |accounts| ensures SizedAs(accounts[b], Taken(DataParts(met + [a], accounts[b].name))) {
      DataPartsMore(met, a, accounts[b].name);
      assert DataParts(met, accounts[b].name) + [] == DataParts(met, accounts[b].name);
    }
  }

  lemma SizedOneMore(accounts: seq<AccountStream>, at: nat, noted: AccountStream, met: seq<AttributeRuns>, a: AttributeRuns)
    requires Sized(accounts, met) && at < |accounts| && PartOf(a, Some(accounts[at].name), true)
    requires forall b, c :: 0 <= b < c < |accounts| ==> accounts[b].name != accounts[c].name
    requires noted.name == accounts[at].name && SizedAs(noted, TakeSizes(a.layout, accounts[at]))
    ensures Sized(accounts[at := noted], met + [a])
  {
    hide Taken, TakeSizes, DataParts;
    forall b | 0 <= b < |accounts| ensures SizedAs(accounts[at := noted][b], Taken(DataParts(met + [a], accounts[b].name))) {
      var parts := DataParts(met, accounts[b].name);
      DataPartsMore(met, a, accounts[b].name);
      assert b != at ==> accounts[b].name != accounts[at].name;
      if b == at { TakenMore(parts, a.layout, accounts[at]); } else { assert parts + [] == parts; }
    }
  }

  lemma TakenMore(parts: seq<StreamLayout>, layout: StreamLayout, account: AccountStream)
    requires SizedAs(account, Taken(parts))
    ensures SizedAs(TakeSizes(layout, account), Taken(parts + [layout]))
  {
    hide TakeSizes, SizedAs;
    var more := parts + [layout];
    assert more[..|parts|] == parts && more[|parts|] == layout;
    SizedAlike(layout, account, Taken(parts));
  }

  lemma SizedAlike(layout: StreamLayout, a: AccountStream, b: AccountStream)
    requires SizedAs(a, b)
    ensures SizedAs(TakeSizes(layout, a), TakeSizes(layout, b))
  {
    hide Covered, AccountWithin;
  }

  lemma SizedNewAccount(accounts: seq<AccountStream>, met: seq<AttributeRuns>, name: string)
    requires Sized(accounts, met)
    requires forall i :: 0 <= i < |met| && met[i].isData && !met[i].isBadList ==> met[i].name != name
    ensures Sized(accounts + [NewAccount(name)], met)
  {
    NoDataParts(met, name);
  }

  lemma {:induction false} NoDataParts(met: seq<AttributeRuns>, name: string)
    requires forall i :: 0 <= i < |met| && met[i].isData && !met[i].isBadList ==> met[i].name != name
    ensures DataParts(met, name) == []
  {
    if met != [] { NoDataParts(met[..|met| - 1], name); }
  }

  // A layout that the record only claims, as an attribute of no stream.
  function ClaimedOnly(layouts: seq<StreamLayout>): (r: seq<AttributeRuns>)
    ensures |r| == |layouts|
  {
    seq(|layouts|, i requires 0 <= i < |layouts| => AttributeRuns(false, false, "", layouts[i]))
  }

  // The claims of a record as far as they are collected. accountStream gives the
  // stream of each account.
  datatype Collection = Collection(
    claims: seq<Claim>,
    streamAccount: seq<Option<nat>>,
    accounts: seq<AccountStream>,
    accountStream: seq<nat>)

  ghost predicate CollectionValid(c: Collection, met: seq<AttributeRuns>) {
    && ClaimsBalance(c.claims, c.streamAccount, c.accounts)
    && NamesOwned(c.accounts, c.accountStream, c.streamAccount)
    && NamesCovered(c.accounts, met) && Sized(c.accounts, met)
  }

  // Collects an attribute that no account follows: a new stream of its own.
  method CollectUncounted(c: Collection, layout: StreamLayout) returns (r: Collection)
    requires LayoutValid(layout)
    requires ClaimsBalance(c.claims, c.streamAccount, c.accounts)
    requires NamesOwned(c.accounts, c.accountStream, c.streamAccount)
    ensures ClaimsBalance(r.claims, r.streamAccount, r.accounts)
    ensures NamesOwned(r.accounts, r.accountStream, r.streamAccount)
    ensures r.accounts == c.accounts
    ensures Extends(r.claims, c.claims, |c.streamAccount|, layout.runs, layout.initializedClusters)
    ensures r.streamAccount == c.streamAccount + [None] && r.accountStream == c.accountStream
    ensures ClaimsTell(c.claims, r.claims, |c.streamAccount|, layout.runs, layout.initializedClusters)
  {
    hide ClaimsTell;
    BalanceNewStream(c.claims, c.streamAccount, c.accounts);
    var streamAccount := c.streamAccount + [None];
    var claims, _ := AppendClaims(layout, |c.streamAccount|, c.claims, None);
    BalanceUncounted(claims, c.claims, |c.streamAccount|, layout.runs, layout.initializedClusters, streamAccount, c.accounts);
    r := Collection(claims, streamAccount, c.accounts, c.accountStream);
  }

  // Collects a part of a concerned stream, into the account of its name.
  method CollectCounted(c: Collection, attribute: AttributeRuns, ghost met: seq<AttributeRuns>) returns (r: Collection)
    requires LayoutValid(attribute.layout) && attribute.isData && !attribute.isBadList
    requires CollectionValid(c, met) && Told(c.claims, c.streamAccount, c.accounts, true, met)
    ensures CollectionValid(r, met + [attribute]) && Told(r.claims, r.streamAccount, r.accounts, true, met + [attribute])
  {
    hide Told, ClaimsTell, AccountTells, Sized, NamesCovered;
    var layout := attribute.layout;
    var accounts, streamAccount, accountStream, at := StreamOf(attribute.name, c.claims, c.accounts, c.streamAccount, c.accountStream, met);
    var stream := accountStream[at];
    var claims, noted := AppendClaims(layout, stream, c.claims, Some(TakeSizes(layout, accounts[at])));
    BalanceCounted(claims, c.claims, stream, layout, streamAccount, accounts, noted.value);
    CoveredOneMore(accounts, accounts[at := noted.value], met, attribute, at);
    ToldCounted(c.claims, claims, stream, streamAccount, accounts, at, noted.value, met, attribute);
    SizedOneMore(accounts, at, noted.value, met, attribute);
    r := Collection(claims, streamAccount, accounts[at := noted.value], accountStream);
  }

  // What the collection keeps after each attribute.
  ghost predicate Collecting(c: Collection, concerned: bool, met: seq<AttributeRuns>) {
    && ClaimsBalance(c.claims, c.streamAccount, c.accounts)
    && NamesOwned(c.accounts, c.accountStream, c.streamAccount)
    && (if concerned then NamesCovered(c.accounts, met) && Sized(c.accounts, met) else c.accounts == [])
    && Told(c.claims, c.streamAccount, c.accounts, concerned, met)
  }

  // Collects one attribute. The bad cluster list names clusters, and owns none.
  method CollectAttribute(c: Collection, attribute: AttributeRuns, concerned: bool, ghost met: seq<AttributeRuns>)
    returns (r: Collection)
    requires LayoutValid(attribute.layout)
    requires Collecting(c, concerned, met)
    ensures Collecting(r, concerned, met + [attribute])
    ensures attribute.isData && attribute.isBadList ==> r == c
  {
    hide Told, ClaimsTell, NamesCovered, Sized;
    if concerned && attribute.isData && !attribute.isBadList {
      r := CollectCounted(c, attribute, met);
      return;
    }
    if concerned {
      CoveredSame(c.accounts, met, attribute);
      SizedSame(c.accounts, met, attribute);
    }
    r := c;
    if attribute.isData && attribute.isBadList {
      ToldSame(c.claims, c.streamAccount, c.accounts, concerned, met, attribute);
    } else {
      ToldNewStream(c.claims, c.streamAccount, c.accounts, concerned, met);
      r := CollectUncounted(c, attribute.layout);
      ToldUncounted(c.claims, r.claims, |c.streamAccount|, r.streamAccount, c.accounts, concerned, met, attribute);
    }
  }

  predicate NothingCollected(c: Collection) {
    |c.claims| == 0 && |c.streamAccount| == 0 && |c.accounts| == 0 && |c.accountStream| == 0
  }

  lemma NothingCollectedYet(c: Collection, concerned: bool, met: seq<AttributeRuns>)
    requires NothingCollected(c) && |met| == 0
    ensures Collecting(c, concerned, met)
  {
  }

  method StartCollection() returns (c: Collection)
    ensures NothingCollected(c)
  {
    c := Collection([], [], [], []);
  }

  // Collects every attribute in order.
  method CollectAttributes(attributes: seq<AttributeRuns>, concerned: bool) returns (c: Collection)
    requires forall i :: 0 <= i < |attributes| ==> LayoutValid(attributes[i].layout)
    ensures Collecting(c, concerned, attributes)
  {
    c := StartCollection();
    NothingCollectedYet(c, concerned, attributes[..0]);
    for i := 0 to |attributes|
      invariant Collecting(c, concerned, attributes[..i])
    {
      assert attributes[..i + 1] == attributes[..i] + [attributes[i]];
      c := CollectAttribute(c, attributes[i], concerned, attributes[..i]);
    }
    assert attributes[..|attributes|] == attributes;
  }

  // Collects the claims of a record: the clusters of every non-resident
  // attribute, the bad cluster list left out, then those of the layouts the
  // record only claims. With concerned, each $DATA stream gets an account, one
  // for all the parts that share its name.
  method CollectClaims(record: nat, lsn: nat, freed: bool, concerned: bool,
                       attributes: seq<AttributeRuns>, claimedLayouts: seq<StreamLayout>)
    returns (r: RecordClaims)
    requires forall i :: 0 <= i < |attributes| ==> LayoutValid(attributes[i].layout)
    requires forall i :: 0 <= i < |claimedLayouts| ==> LayoutValid(claimedLayouts[i])
    ensures RecordValid(r)
    ensures r.record == record && r.lsn == lsn && r.freed == freed
    ensures if concerned then NamesCovered(r.accounts, attributes) && Sized(r.accounts, attributes) else r.accounts == []
    // Each cluster of each of them is claimed, once for each run that holds it, by
    // a stream of the account of its name, or of none.
    ensures Told(r.claims, r.streamAccount, r.accounts, concerned, attributes + ClaimedOnly(claimedLayouts))
  {
    hide Told, ClaimsTell, NamesCovered, Sized;
    var c := CollectAttributes(attributes, concerned);
    ghost var all := ClaimedOnly(claimedLayouts);
    assert attributes + all[..0] == attributes;
    for i := 0 to |claimedLayouts|
      invariant ClaimsBalance(c.claims, c.streamAccount, c.accounts) && NamesOwned(c.accounts, c.accountStream, c.streamAccount)
      invariant if concerned then NamesCovered(c.accounts, attributes) && Sized(c.accounts, attributes) else c.accounts == []
      invariant Told(c.claims, c.streamAccount, c.accounts, concerned, attributes + all[..i])
    {
      ghost var before, met := c, attributes + all[..i];
      ToldNewStream(c.claims, c.streamAccount, c.accounts, concerned, met);
      c := CollectUncounted(c, claimedLayouts[i]);
      ToldUncounted(before.claims, c.claims, |before.streamAccount|, c.streamAccount, c.accounts, concerned, met, all[i]);
      assert attributes + all[..i + 1] == met + [all[i]];
    }
    assert all[..|claimedLayouts|] == all;
    r := RecordClaims(record, lsn, freed, c.claims, c.streamAccount, c.accounts);
  }

  lemma CoveredSame(accounts: seq<AccountStream>, met: seq<AttributeRuns>, attribute: AttributeRuns)
    requires !attribute.isData || attribute.isBadList
    requires NamesCovered(accounts, met)
    ensures NamesCovered(accounts, met + [attribute])
  {
    assert (met + [attribute])[..|met|] == met;
    forall k | 0 <= k < |met + [attribute]| && (met + [attribute])[k].isData && !(met + [attribute])[k].isBadList
      ensures exists a :: 0 <= a < |accounts| && accounts[a].name == (met + [attribute])[k].name
    {
      assert (met + [attribute])[k] == met[k];
    }
  }

  lemma CoveredOneMore(before: seq<AccountStream>, accounts: seq<AccountStream>, met: seq<AttributeRuns>, attribute: AttributeRuns, at: nat)
    requires at < |before|
    requires attribute.isData && !attribute.isBadList && before[at].name == attribute.name
    requires forall a, b :: 0 <= a < b < |before| ==> before[a].name != before[b].name
    requires NamesCovered(before, met)
    requires |accounts| == |before| && accounts == before[at := accounts[at]] && accounts[at].name == before[at].name
    requires Covered(accounts[at]) == Covered(before[at]) + RunClusters(attribute.layout.runs)
    ensures NamesCovered(accounts, met + [attribute])
  {
    var now := met + [attribute];
    assert now[..|met|] == met;
    forall k | 0 <= k < |now| && now[k].isData && !now[k].isBadList
      ensures exists a :: 0 <= a < |accounts| && accounts[a].name == now[k].name
    {
      if k < |met| {
        assert now[k] == met[k];
        var a :| 0 <= a < |before| && before[a].name == now[k].name;
        assert accounts[a].name == now[k].name;
      } else {
        assert accounts[at].name == now[k].name;
      }
    }
    forall a | 0 <= a < |accounts| ensures Covered(accounts[a]) == DataClusters(now, accounts[a].name) {
      assert a != at ==> before[a].name != before[at].name;
    }
  }

  // The stream of the account named name, both made when first met.
  method StreamOf(name: string, ghost claims: seq<Claim>, accounts: seq<AccountStream>,
                  streamAccount: seq<Option<nat>>, accountStream: seq<nat>, ghost attributes: seq<AttributeRuns>)
    returns (accounts': seq<AccountStream>, streamAccount': seq<Option<nat>>, accountStream': seq<nat>, at: nat)
    requires ClaimsBalance(claims, streamAccount, accounts)
    requires NamesOwned(accounts, accountStream, streamAccount) && NamesCovered(accounts, attributes)
    requires Told(claims, streamAccount, accounts, true, attributes) && Sized(accounts, attributes)
    ensures ClaimsBalance(claims, streamAccount', accounts') && Told(claims, streamAccount', accounts', true, attributes) && Sized(accounts', attributes)
    ensures NamesOwned(accounts', accountStream', streamAccount') && NamesCovered(accounts', attributes)
    ensures at < |accounts'| && accounts'[at].name == name
  {
    hide Told, Sized;
    for i := 0 to |accounts|
      invariant forall a :: 0 <= a < i ==> accounts[a].name != name
    {
      if accounts[i].name == name {
        return accounts, streamAccount, accountStream, i;
      }
    }
    BalanceNewAccount(claims, streamAccount, accounts, name);
    UnseenName(attributes, name);
    ToldNewAccount(claims, streamAccount, accounts, attributes, name);
    SizedNewAccount(accounts, attributes, name);
    accounts' := accounts + [NewAccount(name)];
    streamAccount' := streamAccount + [Some(|accounts|)];
    accountStream' := accountStream + [|streamAccount|];
    at := |accounts|;
    assert accounts'[|accounts|].name == name;
    forall i | 0 <= i < |attributes| && attributes[i].isData && !attributes[i].isBadList
      ensures exists a :: 0 <= a < |accounts'| && accounts'[a].name == attributes[i].name
    {
      var a :| 0 <= a < |accounts| && accounts[a].name == attributes[i].name;
      assert accounts'[a].name == attributes[i].name;
    }
  }

  // -------------------------------------------------------------------------
  // Adding a record to the inventory
  // -------------------------------------------------------------------------

  function Rebased(claims: seq<Claim>, base: nat): seq<Claim> {
    seq(|claims|, i requires 0 <= i < |claims| => claims[i].(stream := claims[i].stream + base))
  }

  // Adds one record. A record number that does not fit 32 bits is left out.
  function Add(inv: Inventory, record: RecordClaims): Inventory {
    if record.record > U32_MAX || (record.claims == [] && record.accounts == []) then inv
    else
      var owner := |inv.owners|;
      var dense := if record.accounts == [] then 0 else |inv.concernedRecords|;
      Inventory(
        inv.claims + Rebased(record.claims, |inv.streams|),
        inv.streams + seq(|record.streamAccount|, i requires 0 <= i < |record.streamAccount| =>
          StreamRef(owner, if record.streamAccount[i].None? then None else Some(|inv.accounts| + record.streamAccount[i].value))),
        inv.owners + [Owner(record.lsn, record.record, record.freed)],
        inv.accounts + seq(|record.accounts|, i requires 0 <= i < |record.accounts| => record.accounts[i].(ownerDense := dense)),
        inv.concernedRecords + if record.accounts == [] then [] else [record.record])
  }

  // The claims of a record added after others: an account is owed by the claims
  // of its own record only.
  lemma {:induction false} ClaimedByAdded(claims: seq<Claim>, accountOf: seq<Option<nat>>, added: seq<Claim>, addedOf: seq<Option<nat>>,
                                          accounts: nat, a: nat, all: seq<Option<nat>>)
    requires forall i :: 0 <= i < |claims| ==> claims[i].stream < |accountOf|
    requires forall i :: 0 <= i < |added| ==> added[i].stream < |addedOf|
    requires forall s :: 0 <= s < |accountOf| && accountOf[s].Some? ==> accountOf[s].value < accounts
    requires |all| == |accountOf| + |addedOf| && all[..|accountOf|] == accountOf
    requires forall s :: 0 <= s < |addedOf| ==>
      all[|accountOf| + s] == if addedOf[s].None? then None else Some(accounts + addedOf[s].value)
    ensures forall i :: 0 <= i < |claims| + |added| ==> (claims + Rebased(added, |accountOf|))[i].stream < |all|
    ensures ClaimedBy(claims + Rebased(added, |accountOf|), all, a)
      == if a < accounts then ClaimedBy(claims, accountOf, a) else ClaimedBy(added, addedOf, a - accounts)
  {
    hide ClaimedBy;
    var base := |accountOf|;
    if added == [] {
      NoneClaimed(added, addedOf, a - accounts);
      assert claims + Rebased(added, base) == claims;
      assert all == accountOf + all[base..];
      ClaimedByWider(claims, accountOf, all[base..], a);
      if a >= accounts { ClaimedByNobody(claims, accountOf, a); }
    } else {
      var front, last := added[..|added| - 1], added[|added| - 1];
      var before, moved := claims + Rebased(front, base), last.(stream := last.stream + base);
      assert claims + Rebased(added, base) == before + [moved];
      assert added == front + [last];
      ClaimedByAdded(claims, accountOf, front, addedOf, accounts, a, all);
      var of := addedOf[last.stream];
      assert all[base + last.stream] == if of.None? then None else Some(accounts + of.value);
      ClaimedByMore(before, moved, all, a);
      if a < accounts { ClaimedByNobodyAbove(addedOf, of, accounts, a); } else { ClaimedByMore(front, last, addedOf, a - accounts); }
    }
  }

  lemma NoneClaimed(none: seq<Claim>, accountOf: seq<Option<nat>>, a: int)
    requires |none| == 0
    ensures a >= 0 ==> ClaimedBy(none, accountOf, a) == 0
  {
  }

  lemma ClaimedByMore(claims: seq<Claim>, c: Claim, accountOf: seq<Option<nat>>, a: nat)
    requires c.stream < |accountOf| && forall i :: 0 <= i < |claims| ==> claims[i].stream < |accountOf|
    ensures forall i :: 0 <= i < |claims + [c]| ==> (claims + [c])[i].stream < |accountOf|
    ensures ClaimedBy(claims + [c], accountOf, a) == ClaimedBy(claims, accountOf, a) + if accountOf[c.stream] == Some(a) then c.Clusters() else 0
  {
    assert (claims + [c])[..|claims|] == claims;
  }

  lemma ClaimedByNobodyAbove(addedOf: seq<Option<nat>>, of: Option<nat>, accounts: nat, a: nat)
    requires a < accounts
    ensures of.Some? ==> Some(accounts + of.value) != Some(a)
  {
  }

  // The inventory stays balanced: after any number of records, each account
  // counts exactly the clusters that its claims hold.
  lemma AddKeepsValid(inv: Inventory, record: RecordClaims)
    requires InventoryValid(inv) && RecordValid(record)
    ensures InventoryValid(Add(inv, record))
  {
    if record.record > U32_MAX || (record.claims == [] && record.accounts == []) {
      return;
    }
    hide ClaimedBy;
    hide AccountWithin;
    hide AccountsOf;
    var r := Add(inv, record);
    AddedClaims(inv, record);
    forall a | 0 <= a < |r.accounts|
      ensures ClaimedBy(r.claims, AccountsOf(r.streams), a) == r.accounts[a].realClusters && AccountWithin(r.accounts[a])
    {
      AddedAccount(inv, record, a);
    }
    AddedOwners(inv, record);
    hide Add;
  }

  // An account still counts the clusters of its own claims.
  lemma AddedAccount(inv: Inventory, record: RecordClaims, a: nat)
    requires InventoryValid(inv) && RecordValid(record)
    requires record.record <= U32_MAX && (record.claims != [] || record.accounts != [])
    requires a < |Add(inv, record).accounts|
    ensures var r := Add(inv, record);
      ClaimedBy(r.claims, AccountsOf(r.streams), a) == r.accounts[a].realClusters && AccountWithin(r.accounts[a])
  {
    hide ClaimedBy;
    var r := Add(inv, record);
    var accountOf, all := AccountsOf(inv.streams), AccountsOf(r.streams);
    assert all[..|accountOf|] == accountOf;
    ClaimedByAdded(inv.claims, accountOf, record.claims, record.streamAccount, |inv.accounts|, a, all);
  }

  lemma AddedOwners(inv: Inventory, record: RecordClaims)
    requires InventoryValid(inv)
    requires record.record <= U32_MAX && (record.claims != [] || record.accounts != [])
    ensures var r := Add(inv, record);
      && (forall s :: 0 <= s < |r.streams| ==> r.streams[s].owner < |r.owners|)
      && (forall a :: 0 <= a < |r.accounts| ==> r.accounts[a].ownerDense < |r.concernedRecords|)
  {
    hide ClaimsBalance;
  }

  lemma AddedClaims(inv: Inventory, record: RecordClaims)
    requires InventoryValid(inv) && RecordValid(record)
    requires record.record <= U32_MAX && (record.claims != [] || record.accounts != [])
    ensures var r := Add(inv, record);
      var all := AccountsOf(r.streams);
      && (forall i :: 0 <= i < |r.claims| ==> ClaimValid(r.claims[i]) && r.claims[i].stream < |all|)
      && (forall s :: 0 <= s < |all| && all[s].Some? ==> all[s].value < |r.accounts|)
      && (forall i :: 0 <= i < |r.claims| && all[r.claims[i].stream].Some? ==>
            r.claims[i].vcn + r.claims[i].Clusters() <= r.accounts[all[r.claims[i].stream].value].span)
  {
    hide ClaimedBy, ClaimsBalance, Add;
    var r := Add(inv, record);
    AddedStreams(inv, record);
    forall i | 0 <= i < |r.claims|
      ensures ClaimValid(r.claims[i]) && r.claims[i].stream < |AccountsOf(r.streams)|
      ensures AccountsOf(r.streams)[r.claims[i].stream].Some? ==>
                r.claims[i].vcn + r.claims[i].Clusters() <= r.accounts[AccountsOf(r.streams)[r.claims[i].stream].value].span
    {
      AddedClaim(inv, record, i);
    }
  }

  lemma AddedStreams(inv: Inventory, record: RecordClaims)
    requires InventoryValid(inv) && RecordValid(record)
    requires record.record <= U32_MAX && (record.claims != [] || record.accounts != [])
    ensures var r := Add(inv, record); forall s :: 0 <= s < |AccountsOf(r.streams)| && AccountsOf(r.streams)[s].Some? ==> AccountsOf(r.streams)[s].value < |r.accounts|
  {
    hide ClaimedBy, AccountWithin;
    var r := Add(inv, record);
    var accountOf, all := AccountsOf(inv.streams), AccountsOf(r.streams);
    forall s | 0 <= s < |all| ensures all[s].Some? ==> all[s].value < |r.accounts| {
      if s < |accountOf| { assert all[s] == accountOf[s]; }
      else { var of := record.streamAccount[s - |accountOf|]; }
    }
  }

  lemma AddedClaim(inv: Inventory, record: RecordClaims, i: nat)
    requires InventoryValid(inv) && RecordValid(record)
    requires record.record <= U32_MAX && (record.claims != [] || record.accounts != [])
    requires i < |Add(inv, record).claims|
    ensures var r := Add(inv, record); var all := AccountsOf(r.streams); var c := r.claims[i]; ClaimValid(c) && c.stream < |all| && (all[c.stream].Some? ==> all[c.stream].value < |r.accounts| && c.vcn + c.Clusters() <= r.accounts[all[c.stream].value].span)
  {
    hide ClaimedBy, AccountWithin;
    var r := Add(inv, record);
    var accountOf, all := AccountsOf(inv.streams), AccountsOf(r.streams);
    if i < |inv.claims| {
      assert r.claims[i] == inv.claims[i];
      assert all[r.claims[i].stream] == accountOf[r.claims[i].stream];
    } else {
      var c := record.claims[i - |inv.claims|];
      assert r.claims[i] == c.(stream := c.stream + |inv.streams|);
      var of := record.streamAccount[c.stream];
      assert of.Some? ==> r.accounts[|inv.accounts| + of.value].span == record.accounts[of.value].span;
    }
  }

  const EMPTY_INVENTORY := Inventory([], [], [], [], [])

  // The inventory of a scan: its records, added in order.
  function InventoryOf(records: seq<RecordClaims>): Inventory {
    if records == [] then EMPTY_INVENTORY
    else Add(InventoryOf(records[..|records| - 1]), records[|records| - 1])
  }

  lemma {:induction false} InventoryOfIsValid(records: seq<RecordClaims>)
    requires forall i :: 0 <= i < |records| ==> RecordValid(records[i])
    ensures InventoryValid(InventoryOf(records))
  {
    if records != [] {
      InventoryOfIsValid(records[..|records| - 1]);
      AddKeepsValid(InventoryOf(records[..|records| - 1]), records[|records| - 1]);
    }
  }

  // -------------------------------------------------------------------------
  // Whose each claim of the inventory is
  // -------------------------------------------------------------------------

  // The record is one the inventory takes.
  predicate Kept(r: RecordClaims) {
    r.record <= U32_MAX && (r.claims != [] || r.accounts != [])
  }

  // The account at b is the record's own at a, for the concerned record at dense.
  predicate AccountIs(inv: Inventory, b: nat, record: RecordClaims, a: nat, dense: nat) {
    && b < |inv.accounts| && a < |record.accounts|
    && inv.accounts[b] == record.accounts[a].(ownerDense := dense)
    && dense < |inv.concernedRecords| && inv.concernedRecords[dense] == record.record
  }

  // The claim at i is the record's own at k, under the record's facts, for the
  // owner of that index. Its account is the one the record gave it: the record's
  // accounts start at b.
  predicate ClaimIs(inv: Inventory, i: nat, record: RecordClaims, k: nat, owner: nat, dense: nat, b: nat) {
    && i < |inv.claims| && k < |record.claims| && record.claims[k].stream < |record.streamAccount|
    && inv.claims[i].stream < |inv.streams|
    && inv.claims[i].(stream := 0) == record.claims[k].(stream := 0)
    && inv.streams[inv.claims[i].stream].owner == owner < |inv.owners|
    && inv.owners[owner].lsn == record.lsn && inv.owners[owner].record == record.record && inv.owners[owner].freed == record.freed
    && AccountKept(inv, inv.streams[inv.claims[i].stream].account, record, record.streamAccount[record.claims[k].stream], dense, b)
  }

  predicate AccountKept(inv: Inventory, account: Option<nat>, record: RecordClaims, local: Option<nat>, dense: nat, b: nat) {
    if local.None? then account.None? else account == Some(b + local.value) && AccountIs(inv, b + local.value, record, local.value, dense)
  }

  predicate AddedClaimIs(inv: Inventory, record: RecordClaims, k: nat) {
    ClaimIs(Add(inv, record), |inv.claims| + k, record, k, |inv.owners|, |inv.concernedRecords|, |inv.accounts|)
  }

  predicate AddedAccountIs(inv: Inventory, record: RecordClaims, a: nat) {
    AccountIs(Add(inv, record), |inv.accounts| + a, record, a, |inv.concernedRecords|)
  }

  // Adding a record gives its claims and accounts its own facts.
  lemma AddTells(inv: Inventory, record: RecordClaims)
    requires RecordValid(record) && Kept(record)
    ensures var r := Add(inv, record); |r.claims| == |inv.claims| + |record.claims| && |r.accounts| == |inv.accounts| + |record.accounts| && |r.owners| == |inv.owners| + 1 && |r.concernedRecords| == |inv.concernedRecords| + if record.accounts == [] then 0 else 1
    ensures forall k :: 0 <= k < |record.claims| ==> AddedClaimIs(inv, record, k)
    ensures forall a :: 0 <= a < |record.accounts| ==> AddedAccountIs(inv, record, a)
  {
    hide ClaimedBy, AccountWithin;
    var r := Add(inv, record);
    forall k | 0 <= k < |record.claims| ensures AddedClaimIs(inv, record, k) {
      var c := record.claims[k];
      assert r.claims[|inv.claims| + k] == c.(stream := c.stream + |inv.streams|);
      assert r.streams[|inv.streams| + c.stream].owner == |inv.owners|;
      var local := record.streamAccount[c.stream];
      if local.Some? { assert AccountIs(r, |inv.accounts| + local.value, record, local.value, |inv.concernedRecords|); }
    }
  }

  // And takes none of theirs from the claims and accounts before.
  lemma AddKeeps(inv: Inventory, other: RecordClaims, i: nat, record: RecordClaims, k: nat, owner: nat, dense: nat, b: nat)
    ensures ClaimIs(inv, i, record, k, owner, dense, b) ==> ClaimIs(Add(inv, other), i, record, k, owner, dense, b)
    ensures AccountIs(inv, i, record, k, dense) ==> AccountIs(Add(inv, other), i, record, k, dense)
  {
    if ClaimIs(inv, i, record, k, owner, dense, b) {
      var local := record.streamAccount[record.claims[k].stream];
      if local.Some? {
        assert AccountIs(inv, b + local.value, record, local.value, dense);
        assert AccountIs(Add(inv, other), b + local.value, record, local.value, dense);
      }
    }
  }

  // What the records before the one at n brought.
  datatype Brought = Brought(claims: nat, accounts: nat, owners: nat, concerned: nat)

  function BroughtBy(records: seq<RecordClaims>, n: nat): Brought
    requires n <= |records|
  {
    if n == 0 then Brought(0, 0, 0, 0)
    else
      var r, b := records[n - 1], BroughtBy(records, n - 1);
      if !Kept(r) then b
      else Brought(b.claims + |r.claims|, b.accounts + |r.accounts|, b.owners + 1, b.concerned + if r.accounts == [] then 0 else 1)
  }

  lemma {:induction false} BroughtFront(records: seq<RecordClaims>, m: nat, n: nat)
    requires n <= m <= |records|
    ensures BroughtBy(records[..m], n) == BroughtBy(records, n)
  {
    if n > 0 { BroughtFront(records, m, n - 1); }
  }

  // The claims and accounts of an inventory are those of its records, in order,
  // each under its record's facts, one owner for each record.
  lemma {:induction false} InventoryTells(records: seq<RecordClaims>)
    requires forall j :: 0 <= j < |records| ==> RecordValid(records[j])
    ensures var inv := InventoryOf(records); Brought(|inv.claims|, |inv.accounts|, |inv.owners|, |inv.concernedRecords|) == BroughtBy(records, |records|)
    ensures forall j, k :: 0 <= j < |records| && Kept(records[j]) && 0 <= k < |records[j].claims| ==> OwnClaim(records, j, k)
    ensures forall j, a :: 0 <= j < |records| && Kept(records[j]) && 0 <= a < |records[j].accounts| ==> OwnAccount(records, j, a)
  {
    hide Add, ClaimIs, AccountIs, RecordValid;
    if records != [] {
      var n := |records| - 1;
      var front, last := records[..n], records[n];
      InventoryTells(front);
      forall m: nat | m <= n ensures BroughtBy(front, m) == BroughtBy(records, m) {
        BroughtFront(records, n, m);
      }
      if Kept(last) { AddTells(InventoryOf(front), last); } else { NotKept(InventoryOf(front), last); }
      forall j, k | 0 <= j < |records| && Kept(records[j]) && 0 <= k < |records[j].claims| ensures OwnClaim(records, j, k) {
        if j == n {
          assert AddedClaimIs(InventoryOf(front), last, k);
        } else {
          assert records[j] == front[j] && OwnClaim(front, j, k);
          var b := BroughtBy(records, j);
          AddKeeps(InventoryOf(front), last, b.claims + k, records[j], k, b.owners, b.concerned, b.accounts);
        }
      }
      forall j, a | 0 <= j < |records| && Kept(records[j]) && 0 <= a < |records[j].accounts| ensures OwnAccount(records, j, a) {
        if j == n {
          assert AddedAccountIs(InventoryOf(front), last, a);
        } else {
          assert records[j] == front[j] && OwnAccount(front, j, a);
          var b := BroughtBy(records, j);
          AddKeeps(InventoryOf(front), last, b.accounts + a, records[j], a, b.owners, b.concerned, b.accounts);
        }
      }
    }
  }

  predicate OwnClaim(records: seq<RecordClaims>, j: nat, k: nat)
    requires j < |records|
  {
    var b := BroughtBy(records, j);
    ClaimIs(InventoryOf(records), b.claims + k, records[j], k, b.owners, b.concerned, b.accounts)
  }

  predicate OwnAccount(records: seq<RecordClaims>, j: nat, a: nat)
    requires j < |records|
  {
    var b := BroughtBy(records, j);
    AccountIs(InventoryOf(records), b.accounts + a, records[j], a, b.concerned)
  }

  lemma NotKept(inv: Inventory, record: RecordClaims)
    requires !Kept(record)
    ensures Add(inv, record) == inv
  {
  }

  // Every claim of an inventory is one of some record's.
  lemma {:induction false} ClaimOrigin(records: seq<RecordClaims>, n: nat, i: nat) returns (j: nat, k: nat)
    requires n <= |records| && i < BroughtBy(records, n).claims
    ensures j < n && Kept(records[j]) && k < |records[j].claims| && i == BroughtBy(records, j).claims + k
  {
    var before := BroughtBy(records, n - 1).claims;
    if i < before {
      j, k := ClaimOrigin(records, n - 1, i);
    } else {
      j, k := n - 1, i - before;
    }
  }
}
