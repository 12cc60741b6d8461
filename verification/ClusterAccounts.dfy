// The account of every concerned record, from the claims of a scan: the sweep,
// the content check and the assembly, and what the whole conserves.
module ClusterAccounts {
  import opened Prelude
  import opened AllocTypes
  import opened ClaimInventory
  import opened ClusterPieces
  import opened ClusterTally
  import opened ClusterSweep
  import opened ContentCheck
  import opened Assembler

  // The order of the sweep.
  predicate ClaimOrder(a: Claim, b: Claim) {
    a.lcn < b.lcn || (a.lcn == b.lcn
      && (a.stream < b.stream || (a.stream == b.stream
        && (a.vcn < b.vcn || (a.vcn == b.vcn && a.clustersAndFlags <= b.clustersAndFlags)))))
  }

  function Sorted(inv: Inventory): Inventory {
    inv.(claims := Sort(inv.claims, ClaimOrder))
  }

  // -------------------------------------------------------------------------
  // Sorting keeps the balance
  // -------------------------------------------------------------------------

  lemma {:induction false} ClaimedByPlaced(claims: seq<Claim>, c: Claim, accountOf: seq<Option<nat>>, a: nat)
    requires forall i :: 0 <= i < |claims| ==> claims[i].stream < |accountOf|
    requires c.stream < |accountOf|
    ensures forall i :: 0 <= i < |Place(claims, c, ClaimOrder)| ==> Place(claims, c, ClaimOrder)[i].stream < |accountOf|
    ensures ClaimedBy(Place(claims, c, ClaimOrder), accountOf, a)
      == ClaimedBy(claims, accountOf, a) + if accountOf[c.stream] == Some(a) then c.Clusters() else 0
  {
    if claims == [] || ClaimOrder(claims[|claims| - 1], c) {
      assert (claims + [c])[..|claims|] == claims;
    } else {
      var front, last := claims[..|claims| - 1], claims[|claims| - 1];
      ClaimedByPlaced(front, c, accountOf, a);
      var placed := Place(front, c, ClaimOrder);
      assert (placed + [last])[..|placed|] == placed;
    }
  }

  lemma {:induction false} ClaimedBySorted(claims: seq<Claim>, accountOf: seq<Option<nat>>, a: nat)
    requires forall i :: 0 <= i < |claims| ==> claims[i].stream < |accountOf|
    ensures forall i :: 0 <= i < |Sort(claims, ClaimOrder)| ==> Sort(claims, ClaimOrder)[i].stream < |accountOf|
    ensures ClaimedBy(Sort(claims, ClaimOrder), accountOf, a) == ClaimedBy(claims, accountOf, a)
  {
    if claims != [] {
      ClaimedBySorted(claims[..|claims| - 1], accountOf, a);
      ClaimedByPlaced(Sort(claims[..|claims| - 1], ClaimOrder), claims[|claims| - 1], accountOf, a);
    }
  }

  // A sorted inventory is one the sweep takes, with the same balance.
  lemma SortedIsReady(inv: Inventory)
    requires InventoryValid(inv)
    ensures InventoryValid(Sorted(inv)) && Sweepable(Sorted(inv)) && ClaimsByLcn(Sorted(inv).claims) && Assemblable(Sorted(inv))
    ensures forall i :: 0 <= i < |Sorted(inv).claims| ==> Sorted(inv).claims[i].End() <= U64_MAX
  {
    var r := Sorted(inv);
    SortSorts(inv.claims, ClaimOrder);
    var accountOf := AccountsOf(inv.streams);
    forall i | 0 <= i < |r.claims|
      ensures ClaimValid(r.claims[i]) && r.claims[i].stream < |accountOf|
      ensures accountOf[r.claims[i].stream].Some? ==>
                r.claims[i].vcn + r.claims[i].Clusters() <= r.accounts[accountOf[r.claims[i].stream].value].span
    {
      assert r.claims[i] in inv.claims;
    }
    forall a | 0 <= a < |r.accounts| ensures ClaimedBy(r.claims, accountOf, a) == r.accounts[a].realClusters {
      ClaimedBySorted(inv.claims, accountOf, a);
    }
  }

  // -------------------------------------------------------------------------
  // The sweep conserves the clusters of each account
  // -------------------------------------------------------------------------

  // The clusters of the stretches of one account.
  function StretchTotal(resolved: seq<Resolved>, account: nat): nat {
    if resolved == [] then 0
    else
      var last := resolved[|resolved| - 1];
      StretchTotal(resolved[..|resolved| - 1], account) + if last.account == account then last.clusters else 0
  }

  // The clusters of the stretches that come from the first n claims of account.
  ghost function OriginTotal(inv: Inventory, resolved: seq<Resolved>, from: seq<nat>, account: nat, n: nat): nat
    requires |from| == |resolved|
  {
    if n == 0 then 0
    else
      OriginTotal(inv, resolved, from, account, n - 1) + OriginShare(inv, resolved, from, account, n - 1)
  }

  // The clusters of the stretches that come from claim i, if it is account's.
  ghost function OriginShare(inv: Inventory, resolved: seq<Resolved>, from: seq<nat>, account: nat, i: nat): nat
    requires |from| == |resolved|
  {
    if Concerned(inv, i) && StreamRefOf(inv, i).account == Some(account) then StretchClusters(StretchesOf(resolved, from, i)) else 0
  }

  lemma OriginShareAdded(inv: Inventory, resolved: seq<Resolved>, from: seq<nat>, account: nat, i: nat)
    requires |from| == |resolved| > 0
    ensures var k := |resolved| - 1;
      OriginShare(inv, resolved, from, account, i) == OriginShare(inv, resolved[..k], from[..k], account, i)
      + if from[k] == i && Concerned(inv, i) && StreamRefOf(inv, i).account == Some(account) then resolved[k].clusters else 0
  {
    OwnClustersAdded(resolved, from, i);
  }

  // Each stretch comes from a concerned claim, of its own account.
  ghost predicate OriginsRight(inv: Inventory, resolved: seq<Resolved>, from: seq<nat>, n: nat) {
    && |from| == |resolved|
    && (forall k :: 0 <= k < |from| ==> OriginRight(inv, resolved[k], from[k], n))
  }

  predicate OriginRight(inv: Inventory, s: Resolved, i: nat, n: nat) {
    i < n && Concerned(inv, i) && StreamRefOf(inv, i).account == Some(s.account) && s.clusters > 0
  }

  lemma {:induction false} OriginTotalAdded(inv: Inventory, resolved: seq<Resolved>, from: seq<nat>, account: nat, n: nat)
    requires |from| == |resolved| > 0
    ensures var k := |resolved| - 1;
      OriginTotal(inv, resolved, from, account, n) == OriginTotal(inv, resolved[..k], from[..k], account, n)
      + if from[k] < n && Concerned(inv, from[k]) && StreamRefOf(inv, from[k]).account == Some(account) then resolved[k].clusters else 0
  {
    if n > 0 {
      OriginTotalAdded(inv, resolved, from, account, n - 1);
      OriginShareAdded(inv, resolved, from, account, n - 1);
    }
  }

  lemma OwnClustersAdded(resolved: seq<Resolved>, from: seq<nat>, i: nat)
    requires |from| == |resolved| > 0
    ensures var k := |resolved| - 1;
      StretchClusters(StretchesOf(resolved, from, i))
      == StretchClusters(StretchesOf(resolved[..k], from[..k], i)) + if from[k] == i then resolved[k].clusters else 0
  {
    var k := |resolved| - 1;
    var before := StretchesOf(resolved[..k], from[..k], i);
    if from[k] == i {
      assert (before + [resolved[k]])[..|before|] == before;
    } else {
      assert before + [] == before;
    }
  }

  lemma {:induction false} TotalsAgree(inv: Inventory, resolved: seq<Resolved>, from: seq<nat>, account: nat, n: nat)
    requires OriginsRight(inv, resolved, from, n)
    ensures StretchTotal(resolved, account) == OriginTotal(inv, resolved, from, account, n)
  {
    if |resolved| == 0 {
      NoOrigin(inv, resolved, from, account, n);
    } else {
      var k := |resolved| - 1;
      TotalsAgree(inv, resolved[..k], from[..k], account, n);
      OriginTotalAdded(inv, resolved, from, account, n);
    }
  }

  lemma {:induction false} NoOrigin(inv: Inventory, resolved: seq<Resolved>, from: seq<nat>, account: nat, n: nat)
    requires |from| == |resolved| == 0
    ensures OriginTotal(inv, resolved, from, account, n) == 0
  {
    if n > 0 {
      NoOrigin(inv, resolved, from, account, n - 1);
    }
  }

  // A stretch is among those of its claim.
  lemma {:induction false} AmongItsOwn(resolved: seq<Resolved>, from: seq<nat>, k: nat)
    requires |from| == |resolved| && k < |resolved|
    ensures resolved[k] in StretchesOf(resolved, from, from[k])
  {
    var n := |resolved| - 1;
    if k < n {
      AmongItsOwn(resolved[..n], from[..n], k);
    }
  }

  lemma {:induction false} SettledEach(stretches: seq<Resolved>, inv: Inventory, i: nat, first: nat, end: nat, stateAt: nat -> ClusterState, k: nat)
    requires Concerned(inv, i) && Settled(stretches, inv, i, first, end, stateAt) && k < |stretches|
    ensures StretchRight(inv, i, stretches[k], stateAt)
    ensures first <= stretches[k].lcn && stretches[k].End() <= end
  {
    var n := |stretches| - 1;
    SettledClusters(stretches[..n], inv, i, first, stretches[n].lcn, stateAt);
    if k < n {
      SettledEach(stretches[..n], inv, i, first, stretches[n].lcn, stateAt, k);
    }
  }

  // What a whole sweep says of each stretch by itself: it lies in the claim it
  // comes from, at its VCNs, and its clusters have the condition of that claim.
  lemma SweptStretch(inv: Inventory, resolved: seq<Resolved>, from: seq<nat>, stateAt: nat -> ClusterState, k: nat)
    requires SweptWhole(inv, resolved, from, stateAt) && k < |resolved|
    ensures Concerned(inv, from[k]) && StretchRight(inv, from[k], resolved[k], stateAt)
    ensures resolved[k].End() <= inv.claims[from[k]].End()
  {
    AmongItsOwn(resolved, from, k);
    var i := from[k];
    var own := StretchesOf(resolved, from, i);
    assert Concerned(inv, i);
    var j :| 0 <= j < |own| && own[j] == resolved[k];
    SettledEach(own, inv, i, inv.claims[i].lcn, inv.claims[i].End(), stateAt, j);
  }

  // Two stretches that presume one cluster intact are of one record.
  lemma IntactForOneRecord(inv: Inventory, resolved: seq<Resolved>, from: seq<nat>, stateAt: nat -> ClusterState, k: nat, l: nat, x: nat)
    requires SweptWhole(inv, resolved, from, stateAt) && k < |resolved| && l < |resolved|
    requires resolved[k].lcn <= x < resolved[k].End() && resolved[l].lcn <= x < resolved[l].End()
    requires resolved[k].condition == Intact && resolved[l].condition == Intact
    ensures Concerned(inv, from[k]) && Concerned(inv, from[l])
    ensures StreamRefOf(inv, from[k]).owner == StreamRefOf(inv, from[l]).owner
  {
    SweptStretch(inv, resolved, from, stateAt, k);
    SweptStretch(inv, resolved, from, stateAt, l);
    IntactIsExclusive(inv, from[k], from[l], x, stateAt(x), stateAt(x));
  }

  lemma {:induction false} OriginIsClaimed(inv: Inventory, resolved: seq<Resolved>, from: seq<nat>, stateAt: nat -> ClusterState, account: nat, n: nat)
    requires InventoryValid(inv) && Sweepable(inv) && SweptWhole(inv, resolved, from, stateAt)
    requires n <= |inv.claims|
    ensures forall i :: 0 <= i < n ==> inv.claims[..n][i].stream < |AccountsOf(inv.streams)|
    ensures OriginTotal(inv, resolved, from, account, n) == ClaimedBy(inv.claims[..n], AccountsOf(inv.streams), account)
  {
    if n > 0 {
      OriginIsClaimed(inv, resolved, from, stateAt, account, n - 1);
      assert inv.claims[..n][..n - 1] == inv.claims[..n - 1];
      assert ClaimOf(inv, n - 1);
      if Concerned(inv, n - 1) {
        SettledClusters(StretchesOf(resolved, from, n - 1), inv, n - 1, inv.claims[n - 1].lcn, inv.claims[n - 1].End(), stateAt);
      }
    }
  }

  // The stretches of an account hold exactly the clusters that its claims hold.
  lemma SweepConserves(inv: Inventory, resolved: seq<Resolved>, from: seq<nat>, stateAt: nat -> ClusterState, account: nat)
    requires InventoryValid(inv) && Sweepable(inv) && SweptWhole(inv, resolved, from, stateAt)
    requires account < |inv.accounts|
    ensures StretchTotal(resolved, account) == inv.accounts[account].realClusters
  {
    forall k | 0 <= k < |from|
      ensures OriginRight(inv, resolved[k], from[k], |inv.claims|)
    {
      SweptStretch(inv, resolved, from, stateAt, k);
    }
    TotalsAgree(inv, resolved, from, account, |inv.claims|);
    OriginIsClaimed(inv, resolved, from, stateAt, account, |inv.claims|);
    assert inv.claims[..|inv.claims|] == inv.claims;
  }

  // -------------------------------------------------------------------------
  // The content check conserves them
  // -------------------------------------------------------------------------

  function AccountCells(cells: seq<StretchCell>, account: nat): nat {
    if cells == [] then 0
    else AccountCells(cells[..|cells| - 1], account) + if cells[|cells| - 1].account == account then 1 else 0
  }

  lemma {:induction false} AccountCellsAdded(a: seq<StretchCell>, b: seq<StretchCell>, account: nat)
    ensures AccountCells(a + b, account) == AccountCells(a, account) + AccountCells(b, account)
  {
    if b == [] {
      assert a + b == a;
    } else {
      AccountCellsAdded(a, b[..|b| - 1], account);
      assert (a + b)[..|a + b| - 1] == a + b[..|b| - 1];
    }
  }

  lemma {:induction false} AccountCellsOfOne(cells: seq<StretchCell>, own: nat, account: nat)
    requires forall o :: 0 <= o < |cells| ==> cells[o].account == own
    ensures AccountCells(cells, account) == if own == account then |cells| else 0
  {
    if cells != [] {
      AccountCellsOfOne(cells[..|cells| - 1], own, account);
    }
  }

  lemma {:induction false} TotalIsCells(resolved: seq<Resolved>, account: nat)
    ensures StretchTotal(resolved, account) == AccountCells(AllCells(resolved), account)
  {
    if resolved != [] {
      var front, last := resolved[..|resolved| - 1], resolved[|resolved| - 1];
      TotalIsCells(front, account);
      AccountCellsAdded(AllCells(front), CellsOf(last), account);
      AccountCellsOfOne(CellsOf(last), last.account, account);
    }
  }

  lemma {:induction false} CheckedTotal(resolved: seq<Resolved>, n: nat, edits: seq<CheckEdit>, contentAt: nat -> ClusterContent, account: nat)
    requires n <= |resolved|
    ensures AccountCells(AllChecked(resolved, n, edits, contentAt), account) == StretchTotal(resolved[..n], account)
  {
    if n > 0 {
      CheckedTotal(resolved, n - 1, edits, contentAt, account);
      assert resolved[..n][..n - 1] == resolved[..n - 1];
      var cells := CheckedCells(resolved[n - 1], n - 1, edits, contentAt);
      AccountCellsAdded(AllChecked(resolved, n - 1, edits, contentAt), cells, account);
      AccountCellsOfOne(cells, resolved[n - 1].account, account);
    }
  }

  lemma CheckConserves(resolved: seq<Resolved>, result: seq<Resolved>, encrypted: set<nat>, edits: seq<CheckEdit>,
                       contentAt: nat -> ClusterContent, account: nat)
    requires Checked(resolved, result, encrypted, edits, contentAt)
    ensures StretchTotal(result, account) == StretchTotal(resolved, account)
  {
    TotalIsCells(result, account);
    CheckedTotal(resolved, |resolved|, edits, contentAt, account);
    assert resolved[..|resolved|] == resolved;
  }

  lemma {:induction false} SomeStretch(resolved: seq<Resolved>, account: nat)
    requires StretchTotal(resolved, account) > 0
    ensures exists i :: 0 <= i < |resolved| && resolved[i].account == account
  {
    var n := |resolved| - 1;
    if resolved[n].account != account {
      SomeStretch(resolved[..n], account);
      var i :| 0 <= i < |resolved[..n]| && resolved[..n][i].account == account;
      assert resolved[i].account == account;
    }
  }

  lemma {:induction false} OwnStretch(resolved: seq<Resolved>, i: nat)
    requires i < |resolved| && resolved[i].clusters > 0
    ensures StretchTotal(resolved, resolved[i].account) > 0
  {
    var n := |resolved| - 1;
    if i < n {
      OwnStretch(resolved[..n], i);
    }
  }

  lemma CheckKeepsAccounts(resolved: seq<Resolved>, result: seq<Resolved>, encrypted: set<nat>, edits: seq<CheckEdit>,
                           contentAt: nat -> ClusterContent, i: nat)
    requires Checked(resolved, result, encrypted, edits, contentAt) && i < |result|
    ensures exists j :: 0 <= j < |resolved| && resolved[j].account == result[i].account
  {
    OwnStretch(result, i);
    CheckConserves(resolved, result, encrypted, edits, contentAt, result[i].account);
    SomeStretch(resolved, result[i].account);
  }

  // -------------------------------------------------------------------------
  // The assembly conserves them
  // -------------------------------------------------------------------------

  lemma {:induction false} PiecesOfStretches(resolved: seq<Resolved>, account: nat, f: ClusterCondition -> nat)
    requires forall c :: f(c) == CountPieces(StretchPieces(resolved, account), c)
    ensures Total(f) == StretchTotal(resolved, account)
  {
    hide CountPieces, StretchPieces, SumTo;
    if |resolved| == 0 {
      forall c ensures f(c) == 0 { NoPiecesCounted(resolved, account, c); }
      SumOfNone(f, CONDITION_COUNT);
    } else {
      var front, last := resolved[..|resolved| - 1], resolved[|resolved| - 1];
      var g: ClusterCondition -> nat := c => CountPieces(StretchPieces(front, account), c);
      PiecesOfStretches(front, account, g);
      var more := if last.account == account then last.clusters else 0;
      assert resolved == front + [last];
      forall c ensures f(c) == g(c) + if c == last.condition then more else 0 {
        StretchCounted(front, last, account, c);
      }
      SumGrows(g, f, last.condition, more, CONDITION_COUNT);
    }
  }

  lemma NoPiecesCounted(resolved: seq<Resolved>, account: nat, c: ClusterCondition)
    requires |resolved| == 0
    ensures CountPieces(StretchPieces(resolved, account), c) == 0
  {
  }

  lemma StretchCounted(front: seq<Resolved>, last: Resolved, account: nat, c: ClusterCondition)
    ensures CountPieces(StretchPieces(front + [last], account), c) == CountPieces(StretchPieces(front, account), c) + if last.account == account && c == last.condition then last.clusters else 0
  {
    hide CountPieces, StretchPieces;
    StretchPieceAdded(front, last, account);
    if last.account == account {
      CountPiecesAdded(StretchPieces(front, account), [PieceOf(last)], c);
      OnePiece(PieceOf(last), c);
    } else {
      assert StretchPieces(front, account) + [] == StretchPieces(front, account);
    }
  }

  // The clusters with an address of a stream's final map are its stretches'.
  lemma FinalAddressed(stream: AccountStream, resolved: seq<Resolved>, account: nat)
    ensures Addressed(FinalCells(stream, StretchPieces(resolved, account))) == StretchTotal(resolved, account)
  {
    var pieces := StretchPieces(resolved, account);
    var complete := Complete(stream, pieces);
    if stream.unitClusters != 0 {
      MarkingKeepsAddressed(Cells(complete), DamagedUnits(complete, stream.unitClusters));
    }
    var f: ClusterCondition -> nat := c => CountCells(Cells(complete), c);
    TotalIsAddressed(Cells(complete), f);
    forall c ensures f(c) == CountPieces(pieces, c) {
      CountPiecesCountsCells(complete, c);
      CompleteCount(stream, pieces, c);
    }
    PiecesOfStretches(resolved, account, f);
  }

  // A stream is counted whole: every cluster it spans, or every one it covers
  // when it covers more.
  lemma StreamConserved(stream: AccountStream, resolved: seq<Resolved>, account: nat, f: ClusterCondition -> nat)
    requires StretchTotal(resolved, account) == stream.realClusters
    requires forall c :: f(c) == StreamCount(stream, StretchPieces(resolved, account), c)
    ensures Total(f) == Max(stream.span, Covered(stream))
  {
    hide CountCells;
    hide FinalCells;
    hide StretchTotal;
    hide Addressed;
    hide StretchPieces;
    hide RangeClusters;
    hide CountPieces;
    hide SumTo;
    var pieces := StretchPieces(resolved, account);
    var cells := FinalCells(stream, pieces);
    var sparse, invalid := RangeClusters(stream.sparse), RangeClusters(stream.invalid) + Missing(stream);
    var g: ClusterCondition -> nat := c => CountCells(cells, c);
    var h: ClusterCondition -> nat := c => CountCells(cells, c) + if c == Sparse then sparse else 0;
    FinalAddressed(stream, resolved, account);
    TotalIsAddressed(cells, g);
    SumGrows(g, h, Sparse, sparse, CONDITION_COUNT);
    SumGrows(h, f, ClusterCondition.Invalid, invalid, CONDITION_COUNT);
  }

  // What the streams of an owner span or cover, the larger for each.
  function OwnerClusters(inv: Inventory, owner: nat, n: nat): nat
    requires n <= |inv.accounts|
  {
    if n == 0 then 0
    else
      OwnerClusters(inv, owner, n - 1)
      + if inv.accounts[n - 1].ownerDense == owner then Max(inv.accounts[n - 1].span, Covered(inv.accounts[n - 1])) as nat else 0
  }

  // The tally of a record counts every cluster of every stream exactly once.
  lemma {:induction false} TallyConserved(inv: Inventory, resolved: seq<Resolved>, owner: nat, n: nat, f: ClusterCondition -> nat)
    requires n <= |inv.accounts|
    requires forall a :: 0 <= a < |inv.accounts| ==> StretchTotal(resolved, a) == inv.accounts[a].realClusters
    requires forall c :: f(c) == OwnerCount(inv, resolved, |inv.accounts|, owner, c, n)
    ensures Total(f) == OwnerClusters(inv, owner, n)
  {
    hide StreamCount;
    hide StretchTotal;
    hide StretchPieces;
    hide SumTo;
    hide Covered;
    if n == 0 {
      SumOfNone(f, CONDITION_COUNT);
    } else {
      var a := n - 1;
      var stream := inv.accounts[a];
      var before: ClusterCondition -> nat := c => OwnerCount(inv, resolved, |inv.accounts|, owner, c, a);
      TallyConserved(inv, resolved, owner, a, before);
      if stream.ownerDense == owner {
        var own: ClusterCondition -> nat := c => StreamCount(stream, StretchPieces(resolved, a), c);
        StreamConserved(stream, resolved, a, own);
        SumOfSums(before, own, f, CONDITION_COUNT);
      } else {
        SumGrows(before, f, Sparse, 0, CONDITION_COUNT);
      }
    }
  }

  // -------------------------------------------------------------------------
  // The whole account
  // -------------------------------------------------------------------------

  // What a result of the account is: the clusters of each record by condition,
  // counted from the stretches, and in all as many as its streams span or cover.
  ghost predicate AccountRight(inv: Inventory, level: AccountLevel, resolved: seq<Resolved>, results: seq<ClusterAccount>) {
    && ResultsRight(inv, level, resolved, |inv.accounts|, results)
    && (forall d :: 0 <= d < |results| ==> Total(c => results[d].tally.Count(c)) == OwnerClusters(inv, d, |inv.accounts|))
  }

  // The accounts are those of such results that have something to report, in
  // order.
  ghost predicate AccountsRight(inv: Inventory, level: AccountLevel, resolved: seq<Resolved>, accounts: seq<OwnerAccount>) {
    exists results :: AccountRight(inv, level, resolved, results) && Reports(inv, results, accounts)
  }

  ghost predicate Reports(inv: Inventory, results: seq<ClusterAccount>, accounts: seq<OwnerAccount>) {
    |results| == |inv.concernedRecords| && accounts == Reporting(inv, results, |results|)
  }

  // Assembles the accounts of every record.
  method AssembleAll(inv: Inventory, level: AccountLevel, resolved: seq<Resolved>) returns (accounts: seq<OwnerAccount>)
    requires Assemblable(inv)
    requires forall i :: 0 <= i < |resolved| ==> resolved[i].account < |inv.accounts|
    requires forall a :: 0 <= a < |inv.accounts| ==> StretchTotal(resolved, a) == inv.accounts[a].realClusters
    ensures AccountsRight(inv, level, resolved, accounts)
  {
    var assembler := new Assembler(inv, level);
    for i := 0 to |resolved|
      invariant assembler.inv == inv && assembler.level == level
      invariant assembler.Valid(0) && assembler.added == resolved[..i]
    {
      assembler.Add(resolved[i]);
      assert resolved[..i + 1] == resolved[..i] + [resolved[i]];
    }
    assert resolved[..|resolved|] == resolved;
    accounts := assembler.Finish();
    ghost var results := assembler.results;
    forall d | 0 <= d < |results| ensures Total(c => results[d].tally.Count(c)) == OwnerClusters(inv, d, |inv.accounts|) {
      TallyConserved(inv, resolved, d, |inv.accounts|, c => results[d].tally.Count(c));
    }
    assert AccountRight(inv, level, resolved, results) && Reports(inv, results, accounts);
  }

  // What the stretches of an account are: those of the sweep, in which every
  // cluster of every concerned claim is judged against all the claims, split by
  // the content check when there is one. A full one over a medium that answers
  // judges every cluster it may read.
  ghost predicate JudgedRight(inv: Inventory, mode: Option<CheckMode>, rules: CheckRules, stateAt: nat -> ClusterState,
                              readOk: (nat, nat) -> bool, contentAt: nat -> ClusterContent,
                              swept: seq<Resolved>, from: seq<nat>, checked: seq<Resolved>, edits: seq<CheckEdit>) {
    && SweptWhole(Sorted(inv), swept, from, stateAt)
    && (mode.None? ==> checked == swept)
    && (mode.Some? ==> Checked(swept, checked, Encrypted(inv), edits, contentAt))
    && (mode == Some(Full) && Answering(swept, Encrypted(inv), rules.clusterSize, readOk) ==> AllJudged(swept, Encrypted(inv), edits))
    && (mode.Some? ==> PlainOnly(inv, swept, edits))
  }

  // No cluster of an encrypted stream is judged by its bytes.
  ghost predicate PlainOnly(inv: Inventory, swept: seq<Resolved>, edits: seq<CheckEdit>) {
    forall k :: 0 <= k < |edits| ==> edits[k].index < |swept| && !IsEncrypted(inv, swept[edits[k].index].account)
  }

  predicate IsEncrypted(inv: Inventory, account: nat) {
    account < |inv.accounts| && inv.accounts[account].encrypted
  }

  lemma CheckedPlain(inv: Inventory, swept: seq<Resolved>, checked: seq<Resolved>, edits: seq<CheckEdit>, contentAt: nat -> ClusterContent)
    requires Checked(swept, checked, Encrypted(inv), edits, contentAt)
    ensures PlainOnly(inv, swept, edits)
  {
    hide AllCells, AllChecked;
  }

  // The accounts count such stretches, and every cluster once.
  ghost predicate WholeAccount(inv: Inventory, level: AccountLevel, mode: Option<CheckMode>, rules: CheckRules, stateAt: nat -> ClusterState,
                               readOk: (nat, nat) -> bool, contentAt: nat -> ClusterContent, accounts: seq<OwnerAccount>) {
    exists swept, from, checked, edits ::
      JudgedRight(inv, mode, rules, stateAt, readOk, contentAt, swept, from, checked, edits) && AccountsRight(Sorted(inv), level, checked, accounts)
  }

  method AccountClusters(inv: Inventory, level: AccountLevel, mode: Option<CheckMode>, rules: CheckRules,
                         stateRuns: (nat, nat) -> seq<ClusterRun>, ghost stateAt: nat -> ClusterState,
                         readOk: (nat, nat) -> bool, contentAt: nat -> ClusterContent)
    returns (accounts: seq<OwnerAccount>)
    requires InventoryValid(inv) && Answers(stateRuns, stateAt)
    ensures WholeAccount(inv, level, mode, rules, stateAt, readOk, contentAt, accounts)
  {
    var sorted := Sorted(inv);
    SortedIsReady(inv);
    var sweeper := new Sweeper(sorted, stateRuns, stateAt);
    ghost var from;
    var resolved;
    resolved, from := sweeper.Run();
    ghost var swept := resolved;
    ghost var edits: seq<CheckEdit> := [];
    forall i | 0 <= i < |resolved| ensures resolved[i].clusters > 0 && resolved[i].account < |sorted.accounts| {
      SweptStretch(sorted, resolved, from, stateAt, i);
      var stream := sorted.claims[from[i]].stream;
      assert AccountsOf(sorted.streams)[stream] == Some(resolved[i].account);
    }
    if mode.Some? {
      var clustersRead;
      resolved, clustersRead, edits := Check(resolved, Encrypted(inv), mode.value, rules, readOk, contentAt);
      CheckedPlain(inv, swept, resolved, edits, contentAt);
    }
    ghost var checked := resolved;
    forall i | 0 <= i < |resolved| ensures resolved[i].account < |sorted.accounts| {
      if mode.Some? { CheckKeepsAccounts(swept, checked, Encrypted(inv), edits, contentAt, i); }
    }
    forall a | 0 <= a < |sorted.accounts| ensures StretchTotal(checked, a) == sorted.accounts[a].realClusters {
      SweepConserves(sorted, swept, from, stateAt, a);
      if mode.Some? { CheckConserves(swept, checked, Encrypted(inv), edits, contentAt, a); }
    }
    accounts := AssembleAll(sorted, level, resolved);
    assert JudgedRight(inv, mode, rules, stateAt, readOk, contentAt, swept, from, checked, edits);
  }

  // The accounts of the encrypted streams.
  function Encrypted(inv: Inventory): set<nat> {
    set a | 0 <= a < |inv.accounts| && inv.accounts[a].encrypted
  }
}
