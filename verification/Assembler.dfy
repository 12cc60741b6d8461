// Builds the account of every concerned record from the stretches the sweep
// settled, and from what each stream says of its holes and invalid ranges.
module Assembler {
  import opened Prelude
  import opened AllocTypes
  import opened ClaimInventory
  import opened ClusterPieces
  import opened ClusterTally
  import opened ClusterSweep

  datatype AccountLevel = Counts | CountsAndMap

  // The cluster map of one stream, in file order.
  datatype StreamClusterMap = StreamClusterMap(name: string, dataSize: nat, initializedSize: nat, pieces: seq<ClusterPiece>)

  // The account of one entry, over all its streams.
  datatype ClusterAccount = ClusterAccount(tally: Tally, streams: seq<StreamClusterMap>)

  datatype OwnerAccount = OwnerAccount(record: nat, account: ClusterAccount)

  // -------------------------------------------------------------------------
  // What an account counts, said of the stretches alone
  // -------------------------------------------------------------------------

  function PieceOf(s: Resolved): ClusterPiece {
    ClusterPiece(s.vcn, s.clusters, Some(s.lcn), s.condition)
  }

  // The stretches of one account, as pieces.
  function StretchPieces(resolved: seq<Resolved>, account: nat): seq<ClusterPiece> {
    if resolved == [] then []
    else
      var last := resolved[|resolved| - 1];
      StretchPieces(resolved[..|resolved| - 1], account) + if last.account == account then [PieceOf(last)] else []
  }

  function UnaddressedPieces(ranges: seq<VcnRange>, condition: ClusterCondition): seq<ClusterPiece> {
    if ranges == [] then []
    else
      var last := ranges[|ranges| - 1];
      UnaddressedPieces(ranges[..|ranges| - 1], condition) + [ClusterPiece(last.vcn, last.clusters, None, condition)]
  }

  predicate ByFirstVcn(p: ClusterPiece, q: ClusterPiece) {
    p.firstVcn <= q.firstVcn
  }

  // The pieces of a stream in VCN order: the settled stretches, its holes and
  // invalid ranges, and an Invalid piece for each gap left in [0, span).
  function Complete(stream: AccountStream, pieces: seq<ClusterPiece>): seq<ClusterPiece> {
    FilledTo(Sort(pieces + UnaddressedPieces(stream.sparse, Sparse) + UnaddressedPieces(stream.invalid, ClusterCondition.Invalid),
                  ByFirstVcn),
             stream.span)
  }

  // A stretch of the account holds the cluster, at that VCN and LCN, so judged.
  ghost predicate InStretch(resolved: seq<Resolved>, account: nat, c: Cell) {
    exists i, k: nat :: 0 <= i < |resolved| && StretchHas(resolved[i], account, c, k)
  }

  predicate StretchHas(s: Resolved, account: nat, c: Cell, k: nat) {
    s.account == account && k < s.clusters && c == Cell(s.vcn + k, Some(s.lcn + k), s.condition)
  }

  // The clusters with an address of the whole map are those of the stretches of
  // the account, each at its own VCN and LCN.
  lemma CompleteHolds(stream: AccountStream, resolved: seq<Resolved>, account: nat, c: Cell)
    requires c.lcn.Some?
    ensures c in Cells(Complete(stream, StretchPieces(resolved, account))) <==> InStretch(resolved, account, c)
  {
    hide Cells, FilledTo, Sort;
    var pieces := StretchPieces(resolved, account);
    var holes, lost := UnaddressedPieces(stream.sparse, Sparse), UnaddressedPieces(stream.invalid, ClusterCondition.Invalid);
    var sorted := Sort(pieces + holes + lost, ByFirstVcn);
    var complete := FilledTo(sorted, stream.span);
    FirstVcnOrders();
    SortSorts(pieces + holes + lost, ByFirstVcn);
    if c in Cells(complete) {
      var i :| 0 <= i < |Cells(complete)| && Cells(complete)[i] == c;
      var k := PieceOfCell(complete, i);
      FilledKeeps(sorted, stream.span, complete[k]);
      NoAddress(stream.sparse, Sparse, complete[k]);
      NoAddress(stream.invalid, ClusterCondition.Invalid, complete[k]);
      var j := StretchOf(resolved, account, complete[k]);
      assert StretchHas(resolved[j], account, c, c.vcn - resolved[j].vcn);
    }
    if InStretch(resolved, account, c) {
      var j, n: nat :| 0 <= j < |resolved| && StretchHas(resolved[j], account, c, n);
      PieceIn(resolved, account, j);
      FilledKeeps(sorted, stream.span, PieceOf(resolved[j]));
      var k :| 0 <= k < |complete| && complete[k] == PieceOf(resolved[j]);
      var i := CellOfPiece(complete, k, c.vcn);
    }
  }

  // Its holes are those of the sparse ranges.
  lemma CompleteHoles(stream: AccountStream, resolved: seq<Resolved>, account: nat, v: nat)
    ensures Cell(v, None, Sparse) in Cells(Complete(stream, StretchPieces(resolved, account))) <==> exists r :: r in stream.sparse && r.vcn <= v < r.vcn + r.clusters
  {
    hide Cells, Complete;
    var complete, c := Complete(stream, StretchPieces(resolved, account)), Cell(v, None, Sparse);
    if c in Cells(complete) {
      var i :| 0 <= i < |Cells(complete)| && Cells(complete)[i] == c;
      var k := PieceOfCell(complete, i);
      HolePieces(stream, resolved, account, complete[k]);
    }
    if r :| r in stream.sparse && r.vcn <= v < r.vcn + r.clusters {
      var p := ClusterPiece(r.vcn, r.clusters, None, Sparse);
      HolePieces(stream, resolved, account, p);
      var k :| 0 <= k < |complete| && complete[k] == p;
      var i := CellOfPiece(complete, k, v);
    }
  }

  lemma HolePieces(stream: AccountStream, resolved: seq<Resolved>, account: nat, p: ClusterPiece)
    requires p.lcn.None? && p.condition == Sparse
    ensures p in Complete(stream, StretchPieces(resolved, account)) <==> VcnRange(p.firstVcn, p.clusters) in stream.sparse
  {
    hide FilledTo, Sort, StretchPieces, UnaddressedPieces;
    var pieces := StretchPieces(resolved, account);
    var all := pieces + UnaddressedPieces(stream.sparse, Sparse) + UnaddressedPieces(stream.invalid, ClusterCondition.Invalid);
    FirstVcnOrders();
    SortSorts(all, ByFirstVcn);
    FilledKeepsHole(Sort(all, ByFirstVcn), stream.span, p);
    if p in pieces { var j := StretchOf(resolved, account, p); }
    RangeOfPiece(stream.sparse, Sparse, p);
    RangeOfPiece(stream.invalid, ClusterCondition.Invalid, p);
  }

  lemma FilledKeepsHole(pieces: seq<ClusterPiece>, span: nat, p: ClusterPiece)
    requires p.condition == Sparse
    ensures p in FilledTo(pieces, span) <==> p in pieces
  {
    FilledKeeps(pieces, span, p);
  }

  lemma {:induction false} RangeOfPiece(ranges: seq<VcnRange>, condition: ClusterCondition, p: ClusterPiece)
    ensures p in UnaddressedPieces(ranges, condition) <==> p.lcn.None? && p.condition == condition && VcnRange(p.firstVcn, p.clusters) in ranges
  {
    if ranges != [] {
      RangeOfPiece(ranges[..|ranges| - 1], condition, p);
      assert ranges == ranges[..|ranges| - 1] + [ranges[|ranges| - 1]];
    }
  }

  lemma FirstVcnOrders()
    ensures TotalPreorder(ByFirstVcn)
  {
  }

  lemma {:induction false} NoAddress(ranges: seq<VcnRange>, condition: ClusterCondition, p: ClusterPiece)
    requires p.lcn.Some?
    ensures p !in UnaddressedPieces(ranges, condition)
  {
    if ranges != [] { NoAddress(ranges[..|ranges| - 1], condition, p); }
  }

  lemma {:induction false} StretchOf(resolved: seq<Resolved>, account: nat, p: ClusterPiece) returns (j: nat)
    requires p in StretchPieces(resolved, account)
    ensures j < |resolved| && resolved[j].account == account && p == PieceOf(resolved[j])
  {
    j := |resolved| - 1;
    if !(resolved[j].account == account && p == PieceOf(resolved[j])) { j := StretchOf(resolved[..j], account, p); }
  }

  lemma {:induction false} PieceIn(resolved: seq<Resolved>, account: nat, j: nat)
    requires j < |resolved| && resolved[j].account == account
    ensures PieceOf(resolved[j]) in StretchPieces(resolved, account)
  {
    if j < |resolved| - 1 { PieceIn(resolved[..|resolved| - 1], account, j); }
  }

  // The clusters of a stream, those of its broken units lost.
  ghost function FinalCells(stream: AccountStream, pieces: seq<ClusterPiece>): seq<Cell> {
    var complete := Complete(stream, pieces);
    if stream.unitClusters == 0 then Cells(complete)
    else MarkCells(Cells(complete), DamagedUnits(complete, stream.unitClusters))
  }

  // Of the final clusters of a compressed stream, exactly those of a unit that is
  // not whole are lost; of another stream, none.
  lemma FinalUnits(stream: AccountStream, pieces: seq<ClusterPiece>)
    ensures stream.unitClusters == 0 ==> FinalCells(stream, pieces) == Cells(Complete(stream, pieces))
    ensures stream.unitClusters > 0 ==> UnitsMarked(Cells(Complete(stream, pieces)), FinalCells(stream, pieces), stream.unitClusters)
  {
    if stream.unitClusters > 0 { MarkedUnits(Complete(stream, pieces), stream.unitClusters); }
  }

  // The addressed clusters among the first n that end under a condition: those of
  // it in whole units, and the others as they were or lost.
  ghost function EndsAs(cells: seq<Cell>, unit: nat, c: ClusterCondition, n: nat): nat
    requires unit > 0 && n <= |cells|
  {
    if n == 0 then 0
    else EndsAs(cells, unit, c, n - 1) + if cells[n - 1].lcn.Some? && CellMarked(cells[n - 1], UnitWhole(cells, cells[n - 1].vcn, unit)).condition == c then 1 else 0
  }

  // A compressed stream counts its clusters so.
  lemma UnitCounted(stream: AccountStream, pieces: seq<ClusterPiece>, c: ClusterCondition)
    requires stream.unitClusters > 0
    ensures var cells := Cells(Complete(stream, pieces)); UnitCount(stream, pieces, c) == EndsAs(cells, stream.unitClusters, c, |cells|)
  {
    var cells, final := Cells(Complete(stream, pieces)), FinalCells(stream, pieces);
    FinalUnits(stream, pieces);
    MarkedCounted(cells, final, stream.unitClusters, c, |cells|);
    assert final[..|cells|] == final;
  }

  lemma {:induction false} MarkedCounted(cells: seq<Cell>, final: seq<Cell>, unit: nat, c: ClusterCondition, n: nat)
    requires unit > 0 && UnitsMarked(cells, final, unit) && n <= |cells|
    ensures CountCells(final[..n], c) == EndsAs(cells, unit, c, n)
  {
    hide UnitWhole;
    if n > 0 {
      MarkedCounted(cells, final, unit, c, n - 1);
      assert final[..n][..n - 1] == final[..n - 1];
    }
  }

  // What no run, hole or invalid range of a stream covers.
  function Missing(stream: AccountStream): nat {
    if stream.span > Covered(stream) then stream.span - Covered(stream) else 0
  }

  // The clusters that a stream counts under condition c: those of its map that
  // have an address, its holes, and what it says is invalid or missing.
  ghost function StreamCount(stream: AccountStream, pieces: seq<ClusterPiece>, c: ClusterCondition): nat {
    CountCells(FinalCells(stream, pieces), c)
    + (if c == Sparse then RangeClusters(stream.sparse) else 0)
    + (if c == ClusterCondition.Invalid then RangeClusters(stream.invalid) + Missing(stream) else 0)
  }

  // The part of it that is counted as the stretches come: a compressed stream
  // waits until its broken units are known.
  ghost function EarlyCount(stream: AccountStream, pieces: seq<ClusterPiece>, c: ClusterCondition): nat {
    if stream.unitClusters == 0 then CountPieces(pieces, c) else 0
  }

  // The part that waited.
  ghost function UnitCount(stream: AccountStream, pieces: seq<ClusterPiece>, c: ClusterCondition): nat {
    if stream.unitClusters == 0 then 0 else CountCells(FinalCells(stream, pieces), c)
  }

  // What the first n streams of owner count once the first done are finished.
  ghost function OwnerCount(inv: Inventory, resolved: seq<Resolved>, done: nat, owner: nat, c: ClusterCondition, n: nat): nat
    requires n <= |inv.accounts|
  {
    if n == 0 then 0
    else
      var a := n - 1;
      var stream := inv.accounts[a];
      OwnerCount(inv, resolved, done, owner, c, a)
      + if stream.ownerDense != owner then 0
        else if a < done then StreamCount(stream, StretchPieces(resolved, a), c)
        else EarlyCount(stream, StretchPieces(resolved, a), c)
  }

  lemma StretchPieceAdded(resolved: seq<Resolved>, s: Resolved, account: nat)
    ensures StretchPieces(resolved + [s], account) == StretchPieces(resolved, account) + if s.account == account then [PieceOf(s)] else []
  {
    assert (resolved + [s])[..|resolved|] == resolved;
  }

  lemma EarlyCountAdded(stream: AccountStream, resolved: seq<Resolved>, s: Resolved, a: nat, c: ClusterCondition)
    ensures EarlyCount(stream, StretchPieces(resolved + [s], a), c) == EarlyCount(stream, StretchPieces(resolved, a), c)
      + if s.account == a && stream.unitClusters == 0 && s.condition == c then s.clusters else 0
  {
    StretchPieceAdded(resolved, s, a);
    if s.account == a {
      CountPiecesAdded(StretchPieces(resolved, a), [PieceOf(s)], c);
      OnePiece(PieceOf(s), c);
    } else {
      assert StretchPieces(resolved, a) + [] == StretchPieces(resolved, a);
    }
  }

  lemma {:induction false} OwnerCountAdded(inv: Inventory, resolved: seq<Resolved>, s: Resolved, owner: nat, c: ClusterCondition, n: nat)
    requires n <= |inv.accounts| && s.account < |inv.accounts|
    ensures OwnerCount(inv, resolved + [s], 0, owner, c, n) == OwnerCount(inv, resolved, 0, owner, c, n)
      + if s.account < n && inv.accounts[s.account].ownerDense == owner && inv.accounts[s.account].unitClusters == 0 && s.condition == c
        then s.clusters else 0
  {
    if n > 0 {
      var a := n - 1;
      OwnerCountAdded(inv, resolved, s, owner, c, a);
      EarlyCountAdded(inv.accounts[a], resolved, s, a, c);
    }
  }

  lemma OnePiece(p: ClusterPiece, c: ClusterCondition)
    ensures CountPieces([p], c) == if p.lcn.Some? && p.condition == c then p.clusters else 0
  {
    var none: seq<ClusterPiece> := [p][..0];
    assert [p][..|[p]| - 1] == none;
    assert CountPieces(none, c) == 0;
  }

  lemma {:induction false} OwnerCountFinished(inv: Inventory, resolved: seq<Resolved>, done: nat, owner: nat, c: ClusterCondition, n: nat)
    requires n <= |inv.accounts| && done < |inv.accounts|
    ensures OwnerCount(inv, resolved, done + 1, owner, c, n) == OwnerCount(inv, resolved, done, owner, c, n)
      + if done < n && inv.accounts[done].ownerDense == owner
        then StreamCount(inv.accounts[done], StretchPieces(resolved, done), c) - EarlyCount(inv.accounts[done], StretchPieces(resolved, done), c)
        else 0
  {
    if n > 0 {
      OwnerCountFinished(inv, resolved, done, owner, c, n - 1);
    }
  }

  lemma {:induction false} UnaddressedCount(ranges: seq<VcnRange>, condition: ClusterCondition, c: ClusterCondition)
    ensures CountPieces(UnaddressedPieces(ranges, condition), c) == 0
  {
    if ranges != [] {
      var last := ranges[|ranges| - 1];
      UnaddressedCount(ranges[..|ranges| - 1], condition, c);
      CountPiecesAdded(UnaddressedPieces(ranges[..|ranges| - 1], condition), [ClusterPiece(last.vcn, last.clusters, None, condition)], c);
      OnePiece(ClusterPiece(last.vcn, last.clusters, None, condition), c);
    }
  }

  // Completing the map of a stream counts its stretches and nothing else.
  lemma CompleteCount(stream: AccountStream, pieces: seq<ClusterPiece>, c: ClusterCondition)
    ensures CountPieces(Complete(stream, pieces), c) == CountPieces(pieces, c)
  {
    var sparse, invalid := UnaddressedPieces(stream.sparse, Sparse), UnaddressedPieces(stream.invalid, ClusterCondition.Invalid);
    FilledToCount(Sort(pieces + sparse + invalid, ByFirstVcn), stream.span, c);
    SortedCount(pieces + sparse + invalid, ByFirstVcn, c);
    CountPiecesAdded(pieces + sparse, invalid, c);
    CountPiecesAdded(pieces, sparse, c);
    UnaddressedCount(stream.sparse, Sparse, c);
    UnaddressedCount(stream.invalid, ClusterCondition.Invalid, c);
  }

  // An uncompressed stream counts each stretch under its own condition.
  lemma PlainCount(stream: AccountStream, pieces: seq<ClusterPiece>, c: ClusterCondition)
    requires stream.unitClusters == 0
    ensures CountCells(FinalCells(stream, pieces), c) == CountPieces(pieces, c)
  {
    CountPiecesCountsCells(Complete(stream, pieces), c);
    CompleteCount(stream, pieces, c);
  }

  lemma CompleteIsSorted(stream: AccountStream, pieces: seq<ClusterPiece>)
    ensures ByVcn(Complete(stream, pieces))
  {
    var all := pieces + UnaddressedPieces(stream.sparse, Sparse) + UnaddressedPieces(stream.invalid, ClusterCondition.Invalid);
    SortSorts(all, ByFirstVcn);
    FilledToIsRight(Sort(all, ByFirstVcn), stream.span);
  }

  // -------------------------------------------------------------------------
  // The assembler
  // -------------------------------------------------------------------------

  // What an assembly asks of its inventory: every account has an owner.
  predicate Assemblable(inv: Inventory) {
    forall a :: 0 <= a < |inv.accounts| ==> inv.accounts[a].ownerDense < |inv.concernedRecords|
  }

  predicate NeedsPieces(level: AccountLevel, stream: AccountStream) {
    level == CountsAndMap || stream.unitClusters != 0
  }

  // The accounts of an owner, in order, among the first n.
  function OwnerStreams(inv: Inventory, owner: nat, n: nat): seq<nat>
    requires n <= |inv.accounts|
  {
    if n == 0 then []
    else OwnerStreams(inv, owner, n - 1) + if inv.accounts[n - 1].ownerDense == owner then [n - 1] else []
  }

  // The map of a stream: its clusters, with no two neighbours left to join.
  ghost predicate MapRight(stream: AccountStream, pieces: seq<ClusterPiece>, m: StreamClusterMap) {
    && m.name == stream.name && m.dataSize == stream.dataSize && m.initializedSize == stream.initializedSize
    && MapCells(Cells(m.pieces)) == MapCells(FinalCells(stream, pieces))
    && (forall k :: 0 <= k < |m.pieces| - 1 ==> !Joins(m.pieces[k], m.pieces[k + 1]))
  }

  // The map of a stream added after the others, when the level wants one.
  ghost predicate MapAppended(stream: AccountStream, pieces: seq<ClusterPiece>, level: AccountLevel,
                              before: seq<StreamClusterMap>, after: seq<StreamClusterMap>)
  {
    if level == CountsAndMap
    then |after| == |before| + 1 && after[..|before|] == before && MapRight(stream, pieces, after[|before|])
    else after == before
  }

  ghost predicate MapOf(inv: Inventory, resolved: seq<Resolved>, a: nat, m: StreamClusterMap) {
    a < |inv.accounts| && MapRight(inv.accounts[a], StretchPieces(resolved, a), m)
  }

  ghost predicate MapsRight(inv: Inventory, resolved: seq<Resolved>, maps: seq<StreamClusterMap>, streams: seq<nat>) {
    && |maps| == |streams|
    && (forall k :: 0 <= k < |maps| ==> MapOf(inv, resolved, streams[k], maps[k]))
  }

  // The results once the first done streams are finished.
  ghost predicate ResultsRight(inv: Inventory, level: AccountLevel, resolved: seq<Resolved>, done: nat, results: seq<ClusterAccount>) {
    && done <= |inv.accounts|
    && |results| == |inv.concernedRecords|
    && (forall d :: 0 <= d < |results| ==> results[d].tally.Valid())
    && (forall d, c :: 0 <= d < |results| ==>
          results[d].tally.Count(c) == OwnerCount(inv, resolved, done, d, c, |inv.accounts|))
    && (forall d :: 0 <= d < |results| ==>
          if level == CountsAndMap then MapsRight(inv, resolved, results[d].streams, OwnerStreams(inv, d, done))
          else results[d].streams == [])
  }

  // The pieces kept for the streams that need them and are not finished.
  ghost predicate KeptRight(inv: Inventory, level: AccountLevel, resolved: seq<Resolved>, done: nat, kept: map<nat, seq<ClusterPiece>>) {
    forall a :: done <= a < |inv.accounts| && NeedsPieces(level, inv.accounts[a]) ==>
      (if a in kept then kept[a] else []) == StretchPieces(resolved, a)
  }

  class Assembler {
    const inv: Inventory
    const level: AccountLevel
    var results: seq<ClusterAccount>
    // The pieces of the streams that need them.
    var kept: map<nat, seq<ClusterPiece>>
    // The stretches added so far.
    ghost var added: seq<Resolved>

    ghost predicate Valid(done: nat)
      reads this
    {
      && Assemblable(inv)
      && ResultsRight(inv, level, added, done, results)
      && KeptRight(inv, level, added, done, kept)
    }

    constructor (inv: Inventory, level: AccountLevel)
      requires Assemblable(inv)
      ensures this.inv == inv && this.level == level && added == [] && Valid(0)
    {
      this.inv, this.level := inv, level;
      results := seq(|inv.concernedRecords|, _ => ClusterAccount(NO_CLUSTERS, []));
      kept := map[];
      added := [];
      new;
      NothingAdded(inv, level, added, results);
    }

    // Counts a settled stretch, or keeps it as a piece of its stream's map.
    method Add(stretch: Resolved)
      requires Valid(0) && stretch.account < |inv.accounts|
      modifies this
      ensures Valid(0) && added == old(added) + [stretch]
    {
      var stream := inv.accounts[stretch.account];
      var owner := stream.ownerDense;
      ghost var before := results;
      // A compressed stream is counted from its pieces, once its broken units
      // are known.
      if stream.unitClusters == 0 {
        results := results[owner := results[owner].(tally := results[owner].tally.Add(stretch.condition, stretch.clusters))];
      }
      ResultsAdded(inv, level, added, before, results, stretch);
      ghost var keptBefore := kept;
      if NeedsPieces(level, stream) {
        var pieces := if stretch.account in kept then kept[stretch.account] else [];
        kept := kept[stretch.account := pieces + [PieceOf(stretch)]];
      }
      KeptAdded(inv, level, added, keptBefore, kept, stretch);
      added := added + [stretch];
    }

    // The pieces of a stream that cover [0, span) in VCN order.
    method CompletePieces(account: nat) returns (r: seq<ClusterPiece>)
      requires Valid(account) && account < |inv.accounts| && NeedsPieces(level, inv.accounts[account])
      modifies this`kept
      ensures r == Complete(inv.accounts[account], StretchPieces(added, account))
      ensures kept == old(kept) - {account}
    {
      var stream := inv.accounts[account];
      var pieces := if account in kept then kept[account] else [];
      kept := kept - {account};
      var sparse := Unaddressed(stream.sparse, Sparse);
      var invalid := Unaddressed(stream.invalid, ClusterCondition.Invalid);
      var all := pieces + sparse + invalid;
      var sorted := Sort(all, ByFirstVcn);
      SortSorts(all, ByFirstVcn);
      r := FillGaps(sorted, stream.span);
    }

    // Counts the addressed clusters of a stream that keeps its pieces, and builds
    // its map when the level wants one.
    method FinishPieces(account: nat, before: ClusterAccount) returns (after: ClusterAccount)
      requires Valid(account) && account < |inv.accounts| && NeedsPieces(level, inv.accounts[account])
      requires before.tally.Valid()
      modifies this`kept
      ensures kept == old(kept) - {account}
      ensures after.tally.Valid()
      ensures forall c :: after.tally.Count(c) == before.tally.Count(c) + UnitCount(inv.accounts[account], StretchPieces(added, account), c)
      ensures MapAppended(inv.accounts[account], StretchPieces(added, account), level, before.streams, after.streams)
    {
      var stream := inv.accounts[account];
      ghost var kept' := StretchPieces(added, account);
      CompleteIsSorted(stream, kept');
      var pieces := CompletePieces(account);
      after := before;
      if stream.unitClusters != 0 {
        pieces := MarkUnits(pieces, stream.unitClusters);
        var tally := AddAddressed(before.tally, pieces);
        forall c ensures CountPieces(pieces, c) == CountCells(FinalCells(stream, kept'), c) {
          CountPiecesCountsCells(pieces, c);
        }
        after := after.(tally := tally);
      }
      assert Cells(pieces) == FinalCells(stream, kept');
      if level == CountsAndMap {
        var merged := Merge(pieces);
        after := after.(streams := before.streams + [StreamClusterMap(stream.name, stream.dataSize, stream.initializedSize, merged)]);
      }
    }

    // Adds the holes and invalid ranges of a stream to the tally, and builds its
    // map when the level wants one.
    method FinishStream(account: nat)
      requires Valid(account) && account < |inv.accounts|
      modifies this`results, this`kept
      ensures Valid(account + 1)
    {
      hide MapAppended;
      hide UnitCount;
      hide StretchPieces;
      hide OwnerCount;
      hide MapsRight;
      hide RangeClusters;
      var stream := inv.accounts[account];
      var owner := stream.ownerDense;
      ghost var before := results;
      var sparse := SumOf(stream.sparse);
      var invalid := SumOf(stream.invalid);
      // What no run, hole or invalid range covers is lost: a cut run list, or a
      // part of the stream that is missing.
      var covered := stream.realClusters + sparse + invalid;
      var missing := if stream.span > covered then stream.span - covered else 0;
      var tally := results[owner].tally.Add(Sparse, sparse).Add(ClusterCondition.Invalid, invalid + missing);
      var result := results[owner].(tally := tally);
      if NeedsPieces(level, stream) {
        result := FinishPieces(account, result);
      } else {
        NoPieces(stream, StretchPieces(added, account), level, result.streams);
      }
      results := results[owner := result];
      StreamFinished(inv, level, added, account, before, results);
    }

    // Finishes every stream, and returns the accounts of the records that have
    // clusters to count, in order.
    method Finish() returns (accounts: seq<OwnerAccount>)
      requires Valid(0)
      modifies this`results, this`kept
      ensures Valid(|inv.accounts|)
      // A record is left out only when it has no cluster and no map.
      ensures |results| == |inv.concernedRecords| && accounts == Reporting(inv, results, |results|)
    {
      for i := 0 to |inv.accounts|
        invariant Valid(i)
      {
        FinishStream(i);
      }
      accounts := Reported(inv, results);
    }
  }

  // No cluster counted, and no map.
  ghost predicate Silent(a: ClusterAccount) {
    a.tally.Valid() && (forall c :: a.tally.Count(c) == 0) && a.streams == []
  }

  // The accounts of the records that have a cluster counted or a map, in order.
  ghost function Reporting(inv: Inventory, results: seq<ClusterAccount>, n: nat): seq<OwnerAccount>
    requires n <= |results| == |inv.concernedRecords|
  {
    if n == 0 then []
    else Reporting(inv, results, n - 1) + if Silent(results[n - 1]) then [] else [OwnerAccount(inv.concernedRecords[n - 1], results[n - 1])]
  }

  method Reported(inv: Inventory, results: seq<ClusterAccount>) returns (accounts: seq<OwnerAccount>)
    requires |results| == |inv.concernedRecords|
    requires forall d :: 0 <= d < |results| ==> results[d].tally.Valid()
    ensures accounts == Reporting(inv, results, |results|)
  {
    accounts := [];
    for i := 0 to |results|
      invariant accounts == Reporting(inv, results, i)
    {
      EmptyCountsNothing(results[i].tally);
      if !(results[i].tally.Empty() && results[i].streams == []) {
        accounts := accounts + [OwnerAccount(inv.concernedRecords[i], results[i])];
      }
    }
  }

  lemma EmptyCountsNothing(t: Tally)
    requires t.Valid()
    ensures t.Empty() <==> forall c :: t.Count(c) == 0
  {
    if forall c :: t.Count(c) == 0 {
      forall i | 0 <= i < |t.counts| ensures t.counts[i] == 0 {
        assert t.Count(At(i)) == 0;
      }
    }
  }

  // The clusters of the ranges.
  method SumOf(ranges: seq<VcnRange>) returns (sum: nat)
    ensures sum == RangeClusters(ranges)
  {
    sum := 0;
    for i := 0 to |ranges|
      invariant sum == RangeClusters(ranges[..i])
    {
      assert ranges[..i + 1][..i] == ranges[..i];
      sum := sum + ranges[i].clusters;
    }
    assert ranges[..|ranges|] == ranges;
  }

  // The ranges as pieces without an address.
  method Unaddressed(ranges: seq<VcnRange>, condition: ClusterCondition) returns (pieces: seq<ClusterPiece>)
    ensures pieces == UnaddressedPieces(ranges, condition)
  {
    pieces := [];
    for i := 0 to |ranges|
      invariant pieces == UnaddressedPieces(ranges[..i], condition)
    {
      assert ranges[..i + 1][..i] == ranges[..i];
      pieces := pieces + [ClusterPiece(ranges[i].vcn, ranges[i].clusters, None, condition)];
    }
    assert ranges[..|ranges|] == ranges;
  }

  // Counts the pieces that have an address.
  method AddAddressed(before: Tally, pieces: seq<ClusterPiece>) returns (tally: Tally)
    requires before.Valid()
    ensures tally.Valid()
    ensures forall c :: tally.Count(c) == before.Count(c) + CountPieces(pieces, c)
  {
    tally := before;
    for i := 0 to |pieces|
      invariant tally.Valid()
      invariant forall c :: tally.Count(c) == before.Count(c) + CountPieces(pieces[..i], c)
    {
      assert pieces[..i + 1][..i] == pieces[..i];
      if pieces[i].lcn.Some? {
        tally := tally.Add(pieces[i].condition, pieces[i].clusters);
      }
    }
    assert pieces[..|pieces|] == pieces;
  }

  // A stream without pieces has no map, and its units count nothing.
  lemma NoPieces(stream: AccountStream, pieces: seq<ClusterPiece>, level: AccountLevel, maps: seq<StreamClusterMap>)
    requires !NeedsPieces(level, stream)
    ensures forall c :: UnitCount(stream, pieces, c) == 0
    ensures MapAppended(stream, pieces, level, maps, maps)
  {
  }

  // A stream that is finished added its count to its owner's, and its map.
  lemma StreamFinished(inv: Inventory, level: AccountLevel, resolved: seq<Resolved>, done: nat,
                       before: seq<ClusterAccount>, after: seq<ClusterAccount>)
    requires done < |inv.accounts| && Assemblable(inv)
    requires ResultsRight(inv, level, resolved, done, before)
    requires var owner := inv.accounts[done].ownerDense;
      var stream, pieces := inv.accounts[done], StretchPieces(resolved, done);
      && |after| == |before| && after == before[owner := after[owner]]
      && after[owner].tally.Valid()
      && (forall c :: after[owner].tally.Count(c) == before[owner].tally.Count(c)
            + (if c == Sparse then RangeClusters(stream.sparse) else 0)
            + (if c == ClusterCondition.Invalid then RangeClusters(stream.invalid) + Missing(stream) else 0)
            + UnitCount(stream, pieces, c))
      && MapAppended(stream, pieces, level, before[owner].streams, after[owner].streams)
    ensures ResultsRight(inv, level, resolved, done + 1, after)
  {
    hide StretchPieces;
    hide OwnerCount;
    hide RangeClusters;
    hide CountPieces;
    hide FinalCells;
    hide CountCells;
    var stream, pieces := inv.accounts[done], StretchPieces(resolved, done);
    forall d, c | 0 <= d < |after|
      ensures after[d].tally.Count(c) == OwnerCount(inv, resolved, done + 1, d, c, |inv.accounts|)
    {
      OwnerCountFinished(inv, resolved, done, d, c, |inv.accounts|);
      if stream.unitClusters == 0 {
        PlainCount(stream, pieces, c);
      }
    }
    forall d | 0 <= d < |after|
      ensures if level == CountsAndMap then MapsRight(inv, resolved, after[d].streams, OwnerStreams(inv, d, done + 1))
              else after[d].streams == []
    {
      if level == CountsAndMap {
        assert MapsRight(inv, resolved, before[d].streams, OwnerStreams(inv, d, done));
        if d == stream.ownerDense {
          assert MapOf(inv, resolved, done, after[d].streams[|after[d].streams| - 1]);
        }
      }
    }
  }

  lemma NothingAdded(inv: Inventory, level: AccountLevel, resolved: seq<Resolved>, results: seq<ClusterAccount>)
    requires |resolved| == 0 && |results| == |inv.concernedRecords|
    requires forall d :: 0 <= d < |results| ==> results[d] == ClusterAccount(NO_CLUSTERS, [])
    ensures ResultsRight(inv, level, resolved, 0, results)
  {
    forall d, c | 0 <= d < |results| ensures OwnerCount(inv, resolved, 0, d, c, |inv.accounts|) == 0 {
      NothingCounted(inv, resolved, d, c, |inv.accounts|);
    }
  }

  lemma {:induction false} NothingCounted(inv: Inventory, resolved: seq<Resolved>, owner: nat, c: ClusterCondition, n: nat)
    requires |resolved| == 0 && n <= |inv.accounts|
    ensures OwnerCount(inv, resolved, 0, owner, c, n) == 0
  {
    if n > 0 {
      NothingCounted(inv, resolved, owner, c, n - 1);
    }
  }

  lemma ResultsAdded(inv: Inventory, level: AccountLevel, resolved: seq<Resolved>, before: seq<ClusterAccount>, after: seq<ClusterAccount>, s: Resolved)
    requires Assemblable(inv) && s.account < |inv.accounts|
    requires ResultsRight(inv, level, resolved, 0, before)
    requires var stream := inv.accounts[s.account];
      var owner := stream.ownerDense;
      after == if stream.unitClusters == 0 then before[owner := before[owner].(tally := before[owner].tally.Add(s.condition, s.clusters))]
               else before
    ensures ResultsRight(inv, level, resolved + [s], 0, after)
  {
    forall d, c | 0 <= d < |after|
      ensures after[d].tally.Count(c) == OwnerCount(inv, resolved + [s], 0, d, c, |inv.accounts|)
    {
      OwnerCountAdded(inv, resolved, s, d, c, |inv.accounts|);
    }
    forall d | 0 <= d < |after|
      ensures after[d].streams == before[d].streams == []
    {
      if level == CountsAndMap {
        assert MapsRight(inv, resolved, before[d].streams, OwnerStreams(inv, d, 0));
      }
    }
  }

  lemma KeptAdded(inv: Inventory, level: AccountLevel, resolved: seq<Resolved>, before: map<nat, seq<ClusterPiece>>,
                  after: map<nat, seq<ClusterPiece>>, s: Resolved)
    requires s.account < |inv.accounts|
    requires KeptRight(inv, level, resolved, 0, before)
    requires after == if NeedsPieces(level, inv.accounts[s.account])
                      then before[s.account := (if s.account in before then before[s.account] else []) + [PieceOf(s)]]
                      else before
    ensures KeptRight(inv, level, resolved + [s], 0, after)
  {
    forall a | 0 <= a < |inv.accounts| && NeedsPieces(level, inv.accounts[a])
      ensures (if a in after then after[a] else []) == StretchPieces(resolved + [s], a)
    {
      StretchPieceAdded(resolved, s, a);
    }
  }
}
