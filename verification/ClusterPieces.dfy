// The pieces of a stream's cluster map: compression units that break, gaps that
// no piece covers, and neighbours that join. A list of pieces means the list of
// its clusters, one cell each.
module ClusterPieces {
  import opened Prelude
  import opened AllocTypes

  // One stretch of a stream's cluster map.
  datatype ClusterPiece = ClusterPiece(firstVcn: nat, clusters: nat, lcn: Option<nat>, condition: ClusterCondition) {
    function End(): nat { firstVcn + clusters }
    predicate Holds(v: nat) { firstVcn <= v < firstVcn + clusters }
  }

  // One cluster of a stream.
  datatype Cell = Cell(vcn: nat, lcn: Option<nat>, condition: ClusterCondition)

  function Shift(lcn: Option<nat>, k: nat): Option<nat> {
    if lcn.None? then None else Some(lcn.value + k)
  }

  function PieceCells(p: ClusterPiece): seq<Cell> {
    seq(p.clusters, k requires 0 <= k < p.clusters => Cell(p.firstVcn + k, Shift(p.lcn, k), p.condition))
  }

  function Cells(pieces: seq<ClusterPiece>): seq<Cell> {
    if pieces == [] then [] else Cells(pieces[..|pieces| - 1]) + PieceCells(pieces[|pieces| - 1])
  }

  lemma CellsAdded(pieces: seq<ClusterPiece>, p: ClusterPiece)
    ensures Cells(pieces + [p]) == Cells(pieces) + PieceCells(p)
  {
    assert (pieces + [p])[..|pieces|] == pieces;
  }

  predicate ByVcn(pieces: seq<ClusterPiece>) {
    forall i, j :: 0 <= i < j < |pieces| ==> pieces[i].firstVcn <= pieces[j].firstVcn
  }

  // -------------------------------------------------------------------------
  // Compression units
  // -------------------------------------------------------------------------

  // Whether a cluster of this condition is lost with its unit when the unit
  // breaks: it was fine, or it was a hole of the unit.
  predicate LostWhenUnitBreaks(c: ClusterCondition) {
    c.Intact? || c.IntactChecked? || c.Consistent? || c.Sparse?
  }

  predicate SameUnit(v: nat, w: nat, unit: nat)
    requires unit > 0
  {
    UnitOf(v, unit) == UnitOf(w, unit)
  }

  // Some piece holds a damaged cluster in the unit of v.
  ghost predicate DamagedUnit(pieces: seq<ClusterPiece>, unit: nat, v: nat)
    requires unit > 0
  {
    exists k, w: nat :: 0 <= k < |pieces| && IsDamaged(pieces[k].condition) && pieces[k].Holds(w) && SameUnit(v, w, unit)
  }

  // Every cluster in the unit of v reads as the file wrote it.
  ghost predicate UnitWhole(cells: seq<Cell>, v: nat, unit: nat)
    requires unit > 0
  {
    forall j :: 0 <= j < |cells| && SameUnit(v, cells[j].vcn, unit) ==> cells[j].condition in {Intact, IntactChecked, Consistent, Sparse, NeverWritten}
  }

  // A unit that is not whole loses what was fine in it, and its holes.
  ghost predicate UnitsMarked(before: seq<Cell>, after: seq<Cell>, unit: nat)
    requires unit > 0
  {
    && |after| == |before|
    && (forall i :: 0 <= i < |before| ==> after[i] == CellMarked(before[i], UnitWhole(before, before[i].vcn, unit)))
  }

  function CellMarked(c: Cell, whole: bool): Cell {
    if whole || c.condition !in {Intact, IntactChecked, Consistent, Sparse} then c else c.(condition := LostWithUnit)
  }

  function CellAt(p: ClusterPiece, w: nat): Cell
    requires p.Holds(w)
  {
    Cell(w, Shift(p.lcn, w - p.firstVcn), p.condition)
  }

  lemma {:induction false} CellOfPiece(pieces: seq<ClusterPiece>, k: nat, w: nat) returns (i: nat)
    requires k < |pieces| && pieces[k].Holds(w)
    ensures i < |Cells(pieces)| && Cells(pieces)[i] == CellAt(pieces[k], w)
  {
    var n := |pieces| - 1;
    if k < n {
      i := CellOfPiece(pieces[..n], k, w);
    } else {
      i := |Cells(pieces[..n])| + (w - pieces[n].firstVcn);
    }
  }

  lemma {:induction false} PieceOfCell(pieces: seq<ClusterPiece>, i: nat) returns (k: nat)
    requires i < |Cells(pieces)|
    ensures k < |pieces| && pieces[k].Holds(Cells(pieces)[i].vcn) && Cells(pieces)[i] == CellAt(pieces[k], Cells(pieces)[i].vcn)
  {
    var n := |pieces| - 1;
    if i < |Cells(pieces[..n])| {
      k := PieceOfCell(pieces[..n], i);
    } else {
      k := n;
    }
  }

  // A unit holds a damaged cluster exactly when it is not whole.
  lemma WholeIff(pieces: seq<ClusterPiece>, unit: nat, v: nat)
    requires unit > 0
    ensures DamagedUnit(pieces, unit, v) <==> !UnitWhole(Cells(pieces), v, unit)
  {
    hide Cells, UnitOf;
    var cells := Cells(pieces);
    if DamagedUnit(pieces, unit, v) {
      var k, w: nat :| 0 <= k < |pieces| && IsDamaged(pieces[k].condition) && pieces[k].Holds(w) && SameUnit(v, w, unit);
      var i := CellOfPiece(pieces, k, w);
      assert SameUnit(v, cells[i].vcn, unit);
    }
    if !UnitWhole(cells, v, unit) {
      var j :| 0 <= j < |cells| && SameUnit(v, cells[j].vcn, unit) && cells[j].condition !in {Intact, IntactChecked, Consistent, Sparse, NeverWritten};
      var k := PieceOfCell(pieces, j);
      assert IsDamaged(pieces[k].condition) && pieces[k].Holds(cells[j].vcn);
    }
  }

  // Marking the cells of the damaged units is marking the units that are not whole.
  lemma MarkedUnits(pieces: seq<ClusterPiece>, unit: nat)
    requires unit > 0
    ensures UnitsMarked(Cells(pieces), MarkCells(Cells(pieces), DamagedUnits(pieces, unit)), unit)
  {
    hide UnitWhole, DamagedUnit, Cells;
    forall v: nat ensures DamagedUnit(pieces, unit, v) <==> !UnitWhole(Cells(pieces), v, unit) {
      WholeIff(pieces, unit, v);
    }
  }

  predicate InRange(r: VcnRange, v: nat) {
    r.vcn <= v < r.vcn + r.clusters
  }

  ghost predicate InRanges(ranges: seq<VcnRange>, v: nat) {
    exists i :: 0 <= i < |ranges| && InRange(ranges[i], v)
  }

  // Sorted ranges that neither overlap nor touch.
  predicate Apart(ranges: seq<VcnRange>) {
    && (forall i :: 0 <= i < |ranges| ==> ranges[i].clusters > 0)
    && (forall i, j :: 0 <= i < j < |ranges| ==> ranges[i].vcn + ranges[i].clusters < ranges[j].vcn)
  }

  // The units that a piece touches, as one range of VCNs.
  lemma UnitsOfPiece(p: ClusterPiece, unit: nat, v: nat)
    requires unit > 0 && p.clusters > 0
    ensures UnitStart(p.firstVcn, unit) <= v < UnitStart(p.firstVcn + p.clusters - 1, unit) + unit
      <==> exists w: nat :: p.Holds(w) && SameUnit(v, w, unit)
  {
    hide UnitOf;
    hide UnitStart;
    var first, last := p.firstVcn, p.firstVcn + p.clusters - 1;
    UnitOrder(v, first, unit);
    UnitOrder(v, last, unit);
    UnitOrder(first, last, unit);
    UnitOrder(first, v, unit);
    UnitOrder(last, v, unit);
    if UnitOf(first, unit) <= UnitOf(v, unit) <= UnitOf(last, unit) {
      var w := if v < first then first else if v > last then last else v;
      assert p.Holds(w) && SameUnit(v, w, unit);
    }
    forall w: nat | p.Holds(w) && SameUnit(v, w, unit)
      ensures UnitOf(first, unit) <= UnitOf(v, unit) <= UnitOf(last, unit)
    {
      UnitOrder(first, w, unit);
      UnitOrder(w, last, unit);
    }
  }

  // Adds the units [first, end) to the ranges: joined to the last one when they
  // overlap or touch it.
  method JoinRange(before: seq<VcnRange>, first: nat, end: nat) returns (broken: seq<VcnRange>)
    requires Apart(before) && first < end
    requires before != [] ==> before[|before| - 1].vcn <= first
    ensures Apart(broken) && broken != []
    ensures broken[|broken| - 1].vcn <= first
    ensures forall v: nat :: InRanges(broken, v) <==> InRanges(before, v) || first <= v < end
  {
    if before != [] && first <= before[|before| - 1].vcn + before[|before| - 1].clusters {
      var back := before[|before| - 1];
      var joinedEnd := Max(end, back.vcn + back.clusters);
      broken := before[|before| - 1 := back.(clusters := joinedEnd - back.vcn)];
      LastRangeGrown(before, broken, first, end);
    } else {
      broken := before + [VcnRange(first, end - first)];
      RangeAppended(before, VcnRange(first, end - first));
    }
  }

  // The units of a compressed stream that hold a cluster in a state that breaks
  // them, as ranges of VCNs, sorted and merged. pieces MUST be sorted by VCN.
  method BrokenUnits(pieces: seq<ClusterPiece>, unit: nat) returns (broken: seq<VcnRange>)
    requires unit > 0 && ByVcn(pieces)
    ensures Apart(broken)
    ensures forall v: nat :: InRanges(broken, v) <==> DamagedUnit(pieces, unit, v)
    ensures forall v: nat :: InRanges(broken, v) <==> !UnitWhole(Cells(pieces), v, unit)
  {
    hide UnitStart;
    hide UnitWhole;
    broken := [];
    NothingBroken(pieces, unit);
    for n := 0 to |pieces|
      invariant Apart(broken)
      invariant broken != [] && n < |pieces| ==> broken[|broken| - 1].vcn <= UnitStart(pieces[n].firstVcn, unit)
      invariant forall v: nat :: InRanges(broken, v) <==> DamagedUnit(pieces[..n], unit, v)
    {
      var piece := pieces[n];
      if n + 1 < |pieces| {
        UnitOrder(piece.firstVcn, pieces[n + 1].firstVcn, unit);
      }
      if IsDamaged(piece.condition) && piece.clusters != 0 {
        var lastVcn := piece.firstVcn + piece.clusters - 1;
        UnitOrder(piece.firstVcn, lastVcn, unit);
        var first := UnitStart(piece.firstVcn, unit);
        var end := UnitStart(lastVcn, unit) + unit;
        DamagedAdds(pieces, n, unit, first, end);
        ghost var before := broken;
        broken := JoinRange(broken, first, end);
        forall v: nat ensures InRanges(broken, v) <==> DamagedUnit(pieces[..n + 1], unit, v) {
          assert InRanges(before, v) <==> DamagedUnit(pieces[..n], unit, v);
        }
      } else {
        UndamagedAdds(pieces, n, unit);
      }
    }
    assert pieces[..|pieces|] == pieces;
    forall v: nat ensures InRanges(broken, v) <==> !UnitWhole(Cells(pieces), v, unit) {
      WholeIff(pieces, unit, v);
    }
  }

  lemma NothingBroken(pieces: seq<ClusterPiece>, unit: nat)
    requires unit > 0
    ensures forall v: nat :: !InRanges([], v) && !DamagedUnit(pieces[..0], unit, v)
  {
  }

  lemma UndamagedAdds(pieces: seq<ClusterPiece>, n: nat, unit: nat)
    requires unit > 0 && n < |pieces|
    requires !IsDamaged(pieces[n].condition) || pieces[n].clusters == 0
    ensures forall v: nat :: DamagedUnit(pieces[..n + 1], unit, v) <==> DamagedUnit(pieces[..n], unit, v)
  {
    forall v: nat ensures DamagedUnit(pieces[..n + 1], unit, v) <==> DamagedUnit(pieces[..n], unit, v) {
      if DamagedUnit(pieces[..n + 1], unit, v) {
        var k, w: nat :| 0 <= k < n + 1 && IsDamaged(pieces[..n + 1][k].condition) && pieces[..n + 1][k].Holds(w) && SameUnit(v, w, unit);
        assert pieces[..n][k] == pieces[..n + 1][k];
      }
      if DamagedUnit(pieces[..n], unit, v) {
        var k, w: nat :| 0 <= k < n && IsDamaged(pieces[..n][k].condition) && pieces[..n][k].Holds(w) && SameUnit(v, w, unit);
        assert pieces[..n][k] == pieces[..n + 1][k];
      }
    }
  }

  lemma DamagedAdds(pieces: seq<ClusterPiece>, n: nat, unit: nat, first: nat, end: nat)
    requires unit > 0 && n < |pieces|
    requires IsDamaged(pieces[n].condition) && pieces[n].clusters > 0
    requires first == UnitStart(pieces[n].firstVcn, unit)
    requires end == UnitStart(pieces[n].firstVcn + pieces[n].clusters - 1, unit) + unit
    ensures forall v: nat :: DamagedUnit(pieces[..n + 1], unit, v) <==> DamagedUnit(pieces[..n], unit, v) || first <= v < end
  {
    forall v: nat ensures DamagedUnit(pieces[..n + 1], unit, v) <==> DamagedUnit(pieces[..n], unit, v) || first <= v < end {
      UnitsOfPiece(pieces[n], unit, v);
      if DamagedUnit(pieces[..n + 1], unit, v) {
        var k, w: nat :| 0 <= k < n + 1 && IsDamaged(pieces[..n + 1][k].condition) && pieces[..n + 1][k].Holds(w) && SameUnit(v, w, unit);
        if k < n { assert pieces[..n][k] == pieces[..n + 1][k]; }
      }
      if DamagedUnit(pieces[..n], unit, v) {
        var k, w: nat :| 0 <= k < n && IsDamaged(pieces[..n][k].condition) && pieces[..n][k].Holds(w) && SameUnit(v, w, unit);
        assert pieces[..n][k] == pieces[..n + 1][k];
      }
      if first <= v < end {
        var w: nat :| pieces[n].Holds(w) && SameUnit(v, w, unit);
        assert pieces[..n + 1][n] == pieces[n];
      }
    }
  }

  lemma LastRangeGrown(before: seq<VcnRange>, after: seq<VcnRange>, first: nat, end: nat)
    requires before != [] && Apart(before)
    requires var back := before[|before| - 1];
      && back.vcn <= first <= back.vcn + back.clusters && first < end
      && after == before[|before| - 1 := back.(clusters := Max(end, back.vcn + back.clusters) - back.vcn)]
    ensures Apart(after)
    ensures forall v: nat :: InRanges(after, v) <==> InRanges(before, v) || first <= v < end
  {
    var n := |before| - 1;
    forall v: nat ensures InRanges(after, v) <==> InRanges(before, v) || first <= v < end {
      if InRanges(before, v) {
        var i :| 0 <= i < |before| && InRange(before[i], v);
        assert InRange(after[i], v);
      }
      if first <= v < end { assert InRange(after[n], v); }
      if InRanges(after, v) {
        var i :| 0 <= i < |after| && InRange(after[i], v);
        assert i < n ==> InRange(before[i], v);
        assert i == n ==> InRange(before[n], v) || first <= v < end;
      }
    }
  }

  lemma RangeAppended(before: seq<VcnRange>, r: VcnRange)
    ensures forall v: nat :: InRanges(before + [r], v) <==> InRanges(before, v) || InRange(r, v)
  {
    forall v: nat ensures InRanges(before + [r], v) <==> InRanges(before, v) || InRange(r, v) {
      if InRanges(before, v) {
        var i :| 0 <= i < |before| && InRange(before[i], v);
        assert InRange((before + [r])[i], v);
      }
      if InRange(r, v) { assert InRange((before + [r])[|before|], v); }
    }
  }

  // A cell, marked as lost when its unit is broken and it was fine.
  ghost function MarkCell(c: Cell, broken: iset<nat>): Cell {
    if c.vcn in broken && LostWhenUnitBreaks(c.condition) then c.(condition := LostWithUnit) else c
  }

  ghost function MarkCells(cells: seq<Cell>, broken: iset<nat>): seq<Cell> {
    seq(|cells|, k requires 0 <= k < |cells| => MarkCell(cells[k], broken))
  }

  ghost function RangeSet(ranges: seq<VcnRange>): iset<nat> {
    iset v: nat | InRanges(ranges, v)
  }

  ghost function DamagedUnits(pieces: seq<ClusterPiece>, unit: nat): iset<nat>
    requires unit > 0
  {
    iset v: nat | DamagedUnit(pieces, unit, v)
  }

  // The part [from, to) of a piece, all of it inside a broken range or all of it
  // outside.
  function PartOf(piece: ClusterPiece, from: nat, to: nat, inside: bool): ClusterPiece
    requires piece.firstVcn <= from <= to
  {
    ClusterPiece(from, to - from, Shift(piece.lcn, from - piece.firstVcn),
                 if inside && LostWhenUnitBreaks(piece.condition) then LostWithUnit else piece.condition)
  }

  lemma PartCells(piece: ClusterPiece, from: nat, to: nat, inside: bool, broken: iset<nat>)
    requires piece.firstVcn <= from <= to <= piece.End()
    requires forall v: nat :: from <= v < to ==> (v in broken <==> inside)
    ensures PieceCells(PartOf(piece, from, to, inside))
      == MarkCells(PieceCells(piece), broken)[from - piece.firstVcn..to - piece.firstVcn]
  {
    var part := PartOf(piece, from, to, inside);
    var cells := MarkCells(PieceCells(piece), broken);
    forall k | 0 <= k < to - from
      ensures PieceCells(part)[k] == cells[from - piece.firstVcn + k]
    {
      assert cells[from - piece.firstVcn + k] == MarkCell(PieceCells(piece)[from - piece.firstVcn + k], broken);
    }
  }

  // Appends the part [from, to) of a piece, unless it is empty. cells are the
  // marked cells of the whole piece, and base the cells before it.
  method Emit(result: seq<ClusterPiece>, piece: ClusterPiece, from: nat, to: nat, inside: bool,
              ghost broken: iset<nat>, ghost base: seq<Cell>, ghost cells: seq<Cell>)
    returns (r: seq<ClusterPiece>)
    requires piece.firstVcn <= from <= piece.End() && to <= piece.End()
    requires forall v: nat :: from <= v < to ==> (v in broken <==> inside)
    requires cells == MarkCells(PieceCells(piece), broken) && |cells| == piece.clusters
    requires Cells(result) == base + cells[..from - piece.firstVcn]
    requires forall k :: 0 <= k < |result| ==> result[k].clusters > 0
    ensures Cells(r) == base + cells[..Max(from, to) - piece.firstVcn]
    ensures forall k :: 0 <= k < |r| ==> r[k].clusters > 0
  {
    hide Cells;
    hide PieceCells;
    hide MarkCells;
    r := result;
    if to <= from {
      return;
    }
    var part := PartOf(piece, from, to, inside);
    r := result + [part];
    CellsAdded(result, part);
    PartCells(piece, from, to, inside, broken);
    SliceJoined(base, cells, from - piece.firstVcn, to - piece.firstVcn);
  }

  // Splits pieces, sorted by VCN, at the edges of the broken ranges, and marks
  // as lost with their unit the parts inside them that were fine. Every cluster
  // keeps its VCN and its LCN.
  method MarkBrokenUnits(pieces: seq<ClusterPiece>, broken: seq<VcnRange>) returns (result: seq<ClusterPiece>)
    requires ByVcn(pieces) && Apart(broken)
    ensures Cells(result) == MarkCells(Cells(pieces), RangeSet(broken))
    ensures forall k :: 0 <= k < |result| ==> result[k].clusters > 0
  {
    hide Cells;
    hide MarkCells;
    hide RangeSet;
    result := [];
    var at := 0;
    ghost var marks := RangeSet(broken);
    NothingMarked(pieces, marks);
    for n := 0 to |pieces|
      invariant Cells(result) == MarkCells(Cells(pieces[..n]), marks)
      invariant forall k :: 0 <= k < |result| ==> result[k].clusters > 0
      invariant at <= |broken|
      invariant n < |pieces| ==> forall j :: 0 <= j < at ==> broken[j].vcn + broken[j].clusters <= pieces[n].firstVcn
    {
      var piece := pieces[n];
      while at < |broken| && broken[at].vcn + broken[at].clusters <= piece.firstVcn
        invariant at <= |broken|
        invariant forall j :: 0 <= j < at ==> broken[j].vcn + broken[j].clusters <= piece.firstVcn
      {
        at := at + 1;
      }
      result := MarkPiece(result, piece, broken, at);
      MarkedAdded(pieces, n, marks);
    }
    assert pieces[..|pieces|] == pieces;
  }

  lemma NothingMarked(pieces: seq<ClusterPiece>, marks: iset<nat>)
    ensures Cells([]) == MarkCells(Cells(pieces[..0]), marks)
  {
    assert pieces[..0] == [];
  }

  lemma MarkedAdded(pieces: seq<ClusterPiece>, n: nat, marks: iset<nat>)
    requires n < |pieces|
    ensures MarkCells(Cells(pieces[..n + 1]), marks) == MarkCells(Cells(pieces[..n]), marks) + MarkCells(PieceCells(pieces[n]), marks)
  {
    hide Cells;
    hide PieceCells;
    assert pieces[..n + 1] == pieces[..n] + [pieces[n]];
    CellsAdded(pieces[..n], pieces[n]);
  }

  lemma CellCount(piece: ClusterPiece, marks: iset<nat>)
    ensures |MarkCells(PieceCells(piece), marks)| == piece.clusters
  {
  }

  // Splits one piece at the edges of the ranges from at on.
  method MarkPiece(before: seq<ClusterPiece>, piece: ClusterPiece, broken: seq<VcnRange>, at: nat) returns (result: seq<ClusterPiece>)
    requires Apart(broken) && at <= |broken|
    requires forall j :: 0 <= j < at ==> broken[j].vcn + broken[j].clusters <= piece.firstVcn
    requires at < |broken| ==> broken[at].vcn + broken[at].clusters > piece.firstVcn
    requires forall k :: 0 <= k < |before| ==> before[k].clusters > 0
    ensures Cells(result) == Cells(before) + MarkCells(PieceCells(piece), RangeSet(broken))
    ensures forall k :: 0 <= k < |result| ==> result[k].clusters > 0
  {
    hide Cells;
    hide RangeSet;
    CellCount(piece, RangeSet(broken));
    hide PieceCells;
    hide MarkCells;
    result := before;
    var vcn := piece.firstVcn;
    var end := piece.End();
    ghost var marks := RangeSet(broken);
    ghost var cells := MarkCells(PieceCells(piece), marks);
    var i := at;
    while i < |broken| && vcn < end
      invariant at <= i <= |broken|
      invariant piece.firstVcn <= vcn <= end
      invariant forall j :: 0 <= j < i ==> broken[j].vcn + broken[j].clusters <= vcn || vcn == end
      invariant i < |broken| && vcn < end ==> broken[i].vcn + broken[i].clusters > vcn
      invariant Cells(result) == Cells(before) + cells[..vcn - piece.firstVcn]
      invariant forall k :: 0 <= k < |result| ==> result[k].clusters > 0
    {
      var from := broken[i].vcn;
      var to := from + broken[i].clusters;
      if from >= end {
        break;
      }
      OutsideUntil(broken, i, vcn, Min(from, end));
      result := Emit(result, piece, vcn, Min(from, end), false, marks, Cells(before), cells);
      vcn := Max(vcn, from);
      InsideUntil(broken, i, vcn, Min(to, end));
      result := Emit(result, piece, vcn, Min(to, end), true, marks, Cells(before), cells);
      vcn := Min(to, end);
      i := i + 1;
    }
    OutsideUntil(broken, i, vcn, end);
    result := Emit(result, piece, vcn, end, false, marks, Cells(before), cells);
    assert cells[..end - piece.firstVcn] == cells;
  }

  lemma InsideUntil(broken: seq<VcnRange>, i: nat, vcn: nat, to: nat)
    requires i < |broken| && broken[i].vcn <= vcn && to <= broken[i].vcn + broken[i].clusters
    ensures forall v: nat :: vcn <= v < to ==> v in RangeSet(broken)
  {
    forall v: nat | vcn <= v < to ensures v in RangeSet(broken) {
      assert InRange(broken[i], v);
    }
  }

  // Between the ranges passed and the next one, no VCN is in a range.
  lemma OutsideUntil(broken: seq<VcnRange>, i: nat, vcn: nat, to: nat)
    requires Apart(broken) && i <= |broken|
    requires forall j :: 0 <= j < i ==> broken[j].vcn + broken[j].clusters <= vcn || vcn >= to
    requires i < |broken| ==> to <= broken[i].vcn || vcn >= to
    ensures forall v: nat :: vcn <= v < to ==> v !in RangeSet(broken)
  {
    forall v: nat | vcn <= v < to ensures v !in RangeSet(broken) {
      forall j | 0 <= j < |broken| ensures !InRange(broken[j], v) {
      }
    }
  }

  // Marking the broken units loses exactly the clusters that were fine, or
  // holes, in a unit where some piece holds a damaged cluster. Every cluster
  // keeps its VCN and its LCN.
  method MarkUnits(pieces: seq<ClusterPiece>, unit: nat) returns (result: seq<ClusterPiece>)
    requires unit > 0 && ByVcn(pieces)
    ensures Cells(result) == MarkCells(Cells(pieces), DamagedUnits(pieces, unit))
    ensures UnitsMarked(Cells(pieces), Cells(result), unit)
    ensures forall k :: 0 <= k < |result| ==> result[k].clusters > 0
  {
    var broken := BrokenUnits(pieces, unit);
    result := MarkBrokenUnits(pieces, broken);
    assert RangeSet(broken) == DamagedUnits(pieces, unit);
    MarkedUnits(pieces, unit);
  }

  // -------------------------------------------------------------------------
  // Gaps
  // -------------------------------------------------------------------------

  // The first VCN past every piece.
  function EndOf(pieces: seq<ClusterPiece>): nat {
    if pieces == [] then 0 else Max(EndOf(pieces[..|pieces| - 1]), pieces[|pieces| - 1].End())
  }

  function Gap(from: nat, to: nat): ClusterPiece
    requires from <= to
  {
    ClusterPiece(from, to - from, None, ClusterCondition.Invalid)
  }

  // The pieces, with an Invalid one before each that leaves a gap.
  function Filled(pieces: seq<ClusterPiece>): seq<ClusterPiece> {
    if pieces == [] then []
    else
      var front := pieces[..|pieces| - 1];
      var piece := pieces[|pieces| - 1];
      Filled(front) + (if piece.firstVcn > EndOf(front) then [Gap(EndOf(front), piece.firstVcn)] else []) + [piece]
  }

  function FilledTo(pieces: seq<ClusterPiece>, span: nat): seq<ClusterPiece> {
    Filled(pieces) + if span > EndOf(pieces) then [Gap(EndOf(pieces), span)] else []
  }

  // Filling the gaps neither adds nor takes a piece with an address, or a hole.
  lemma {:induction false} FilledKeeps(pieces: seq<ClusterPiece>, span: nat, p: ClusterPiece)
    requires p.lcn.Some? || p.condition == Sparse
    ensures p in Filled(pieces) <==> p in pieces
    ensures p in FilledTo(pieces, span) <==> p in pieces
  {
    if pieces != [] {
      var front := pieces[..|pieces| - 1];
      FilledKeeps(front, span, p);
      assert p in pieces <==> p in front || p == pieces[|pieces| - 1];
    }
  }

  ghost predicate Held(pieces: seq<ClusterPiece>, v: nat) {
    exists k :: 0 <= k < |pieces| && pieces[k].Holds(v)
  }

  // A piece without an address, over VCNs that no piece holds.
  ghost predicate FreeGap(g: ClusterPiece, pieces: seq<ClusterPiece>) {
    g.condition == ClusterCondition.Invalid && g.lcn.None? && forall v: nat :: g.Holds(v) ==> !Held(pieces, v)
  }

  // Adds an Invalid piece wherever pieces, sorted by VCN, leave a gap in
  // [0, span).
  method FillGaps(pieces: seq<ClusterPiece>, span: nat) returns (filled: seq<ClusterPiece>)
    requires ByVcn(pieces)
    ensures filled == FilledTo(pieces, span)
    ensures ByVcn(filled)
    // Every VCN up to the span and up to the last piece is held, and no other.
    ensures forall v: nat :: Held(filled, v) <==> v < Max(span, EndOf(pieces))
    // What was added holds only what no piece holds, without an address.
    ensures forall k :: 0 <= k < |filled| ==> filled[k] in pieces || FreeGap(filled[k], pieces)
  {
    filled := [];
    var at := 0;
    for n := 0 to |pieces|
      invariant filled == Filled(pieces[..n]) && at == EndOf(pieces[..n])
    {
      var piece := pieces[n];
      assert pieces[..n + 1][..n] == pieces[..n];
      if piece.firstVcn > at {
        filled := filled + [Gap(at, piece.firstVcn)];
      }
      filled := filled + [piece];
      at := Max(at, piece.End());
    }
    assert pieces[..|pieces|] == pieces;
    if span > at {
      filled := filled + [Gap(at, span)];
    }
    FilledToIsRight(pieces, span);
  }

  // Past the end of every piece, and between the pieces met and the next one,
  // nothing is held.
  lemma {:induction false} EndIsPast(pieces: seq<ClusterPiece>, k: nat)
    requires k < |pieces|
    ensures pieces[k].End() <= EndOf(pieces)
  {
    if k < |pieces| - 1 {
      EndIsPast(pieces[..|pieces| - 1], k);
    }
  }

  lemma GapIsFree(pieces: seq<ClusterPiece>, at: nat, to: nat)
    requires at == EndOf(pieces) && at <= to
    ensures forall v: nat :: Gap(at, to).Holds(v) ==> !Held(pieces, v)
  {
    forall k | 0 <= k < |pieces| ensures pieces[k].End() <= at {
      EndIsPast(pieces, k);
    }
  }

  lemma HeldAdded(pieces: seq<ClusterPiece>, p: ClusterPiece)
    ensures forall v: nat :: Held(pieces + [p], v) <==> Held(pieces, v) || p.Holds(v)
  {
    var whole := pieces + [p];
    forall v: nat ensures Held(whole, v) <==> Held(pieces, v) || p.Holds(v) {
      if Held(pieces, v) {
        var k :| 0 <= k < |pieces| && pieces[k].Holds(v);
        assert whole[k].Holds(v);
      }
      if p.Holds(v) { assert whole[|pieces|].Holds(v); }
      if Held(whole, v) {
        var k :| 0 <= k < |whole| && whole[k].Holds(v);
        if k < |pieces| { assert pieces[k].Holds(v); }
      }
    }
  }

  // The filled pieces hold every VCN up to the end of the last piece.
  lemma {:induction false} FilledHolds(pieces: seq<ClusterPiece>)
    requires ByVcn(pieces)
    ensures forall v: nat :: Held(Filled(pieces), v) <==> v < EndOf(pieces)
  {
    if pieces != [] {
      var front, piece := pieces[..|pieces| - 1], pieces[|pieces| - 1];
      FilledHolds(front);
      var at := EndOf(front);
      var gapped := if piece.firstVcn > at then Filled(front) + [Gap(at, piece.firstVcn)] else Filled(front);
      if piece.firstVcn > at { HeldAdded(Filled(front), Gap(at, piece.firstVcn)); }
      HeldAdded(gapped, piece);
      assert Filled(pieces) == gapped + [piece];
    }
  }

  ghost predicate PieceOrGap(p: ClusterPiece, pieces: seq<ClusterPiece>) {
    p in pieces || (FreeGap(p, pieces) && pieces != [] && p.End() <= pieces[|pieces| - 1].firstVcn)
  }

  // What was added is sorted with the pieces.
  lemma {:induction false} FilledSorted(pieces: seq<ClusterPiece>)
    requires ByVcn(pieces)
    ensures ByVcn(Filled(pieces))
    ensures pieces != [] ==> forall k :: 0 <= k < |Filled(pieces)| ==> Filled(pieces)[k].firstVcn <= pieces[|pieces| - 1].firstVcn
  {
    if pieces != [] {
      var front, piece := pieces[..|pieces| - 1], pieces[|pieces| - 1];
      FilledSorted(front);
      if front != [] {
        assert front[|front| - 1].firstVcn <= piece.firstVcn;
        EndIsPast(front, |front| - 1);
      }
    }
  }

  // What was added is free, and before the last piece.
  lemma {:induction false} FilledGaps(pieces: seq<ClusterPiece>)
    requires ByVcn(pieces)
    ensures forall k :: 0 <= k < |Filled(pieces)| ==> PieceOrGap(Filled(pieces)[k], pieces)
  {
    if pieces != [] {
      var front, piece := pieces[..|pieces| - 1], pieces[|pieces| - 1];
      FilledGaps(front);
      var at := EndOf(front);
      forall p | p in Filled(pieces) ensures PieceOrGap(p, pieces) {
        if p in Filled(front) {
          var k :| 0 <= k < |Filled(front)| && Filled(front)[k] == p;
          GapStaysGap(p, pieces);
        } else if piece.firstVcn > at && p == Gap(at, piece.firstVcn) {
          GapIsFree(front, at, piece.firstVcn);
          StillFree(p, pieces);
        }
      }
    }
  }

  lemma GapStaysGap(p: ClusterPiece, pieces: seq<ClusterPiece>)
    requires ByVcn(pieces) && pieces != [] && PieceOrGap(p, pieces[..|pieces| - 1])
    ensures PieceOrGap(p, pieces)
  {
    var front := pieces[..|pieces| - 1];
    if p !in front {
      assert front[|front| - 1].firstVcn <= pieces[|pieces| - 1].firstVcn;
      StillFree(p, pieces);
    }
  }

  lemma FilledToIsRight(pieces: seq<ClusterPiece>, span: nat)
    requires ByVcn(pieces)
    ensures ByVcn(FilledTo(pieces, span))
    ensures forall v: nat :: Held(FilledTo(pieces, span), v) <==> v < Max(span, EndOf(pieces))
    ensures forall k :: 0 <= k < |FilledTo(pieces, span)| ==> FilledTo(pieces, span)[k] in pieces || FreeGap(FilledTo(pieces, span)[k], pieces)
  {
    hide Filled, Held, EndOf;
    FilledHolds(pieces);
    FilledSorted(pieces);
    FilledGaps(pieces);
    var at := EndOf(pieces);
    if pieces != [] { EndIsPast(pieces, |pieces| - 1); }
    if span > at {
      HeldAdded(Filled(pieces), Gap(at, span));
      GapIsFree(pieces, at, span);
      assert FilledTo(pieces, span) == Filled(pieces) + [Gap(at, span)];
    } else {
      assert FilledTo(pieces, span) == Filled(pieces);
    }
  }

  // A gap before the last piece is free of it too.
  lemma StillFree(g: ClusterPiece, pieces: seq<ClusterPiece>)
    requires pieces != [] && FreeGap(g, pieces[..|pieces| - 1]) && g.End() <= pieces[|pieces| - 1].firstVcn
    ensures FreeGap(g, pieces)
  {
    var front := pieces[..|pieces| - 1];
    forall v: nat | g.Holds(v) ensures !Held(pieces, v) {
      assert !Held(front, v);
      forall j | 0 <= j < |pieces| ensures !pieces[j].Holds(v) {
        if j < |front| { assert pieces[j] == front[j]; }
      }
    }
  }

  // -------------------------------------------------------------------------
  // Neighbours that join
  // -------------------------------------------------------------------------

  // A cluster of the merged map: a piece may span several fragments, so only
  // whether a cluster has an address is kept.
  datatype MapCell = MapCell(vcn: nat, addressed: bool, condition: ClusterCondition)

  function MapCells(cells: seq<Cell>): seq<MapCell> {
    seq(|cells|, k requires 0 <= k < |cells| => MapCell(cells[k].vcn, cells[k].lcn.Some?, cells[k].condition))
  }

  predicate Joins(last: ClusterPiece, next: ClusterPiece) {
    last.condition == next.condition && last.End() == next.firstVcn && last.lcn.Some? == next.lcn.Some?
  }

  // Two pieces join exactly when one piece shows the clusters of both.
  lemma JoinsIff(p: ClusterPiece, q: ClusterPiece)
    requires p.clusters > 0 && q.clusters > 0
    ensures Joins(p, q) <==> exists r: ClusterPiece :: MapCells(PieceCells(r)) == MapCells(PieceCells(p)) + MapCells(PieceCells(q))
  {
    if Joins(p, q) {
      var r := p.(clusters := p.clusters + q.clusters);
      assert MapCells(PieceCells(r)) == MapCells(PieceCells(p)) + MapCells(PieceCells(q));
    }
    if r: ClusterPiece :| MapCells(PieceCells(r)) == MapCells(PieceCells(p)) + MapCells(PieceCells(q)) {
      var cells := MapCells(PieceCells(r));
      assert cells[p.clusters - 1] == MapCells(PieceCells(p))[p.clusters - 1];
      assert cells[p.clusters] == MapCells(PieceCells(q))[0];
    }
  }

  // Joins each piece to the one before it when they touch in the file, share a
  // condition, and both have an address or both have none. No cluster changes,
  // and no two neighbours are left that could join.
  method Merge(pieces: seq<ClusterPiece>) returns (merged: seq<ClusterPiece>)
    ensures MapCells(Cells(merged)) == MapCells(Cells(pieces))
    ensures forall k :: 0 <= k < |merged| - 1 ==> !Joins(merged[k], merged[k + 1])
  {
    hide Cells;
    hide MapCells;
    merged := [];
    NothingMerged(pieces);
    for n := 0 to |pieces|
      invariant MapCells(Cells(merged)) == MapCells(Cells(pieces[..n]))
      invariant forall k :: 0 <= k < |merged| - 1 ==> !Joins(merged[k], merged[k + 1])
    {
      var piece := pieces[n];
      assert pieces[..n + 1] == pieces[..n] + [piece];
      PieceAdded(pieces[..n], piece);
      PieceAdded(merged, piece);
      if merged != [] && Joins(merged[|merged| - 1], piece) {
        var front, last := merged[..|merged| - 1], merged[|merged| - 1];
        var joined := last.(clusters := last.clusters + piece.clusters);
        assert merged == front + [last];
        PieceJoined(front, last, piece, joined);
        merged := front + [joined];
      } else {
        merged := merged + [piece];
      }
    }
    assert pieces[..|pieces|] == pieces;
  }

  lemma NothingMerged(pieces: seq<ClusterPiece>)
    ensures MapCells(Cells([])) == MapCells(Cells(pieces[..0]))
  {
    assert pieces[..0] == [];
  }

  lemma PieceAdded(pieces: seq<ClusterPiece>, piece: ClusterPiece)
    ensures MapCells(Cells(pieces + [piece])) == MapCells(Cells(pieces)) + MapCells(PieceCells(piece))
  {
    CellsAdded(pieces, piece);
    MapCellsAdded(Cells(pieces), PieceCells(piece));
  }

  // Joining a piece to the last one gives the clusters of both.
  lemma PieceJoined(front: seq<ClusterPiece>, last: ClusterPiece, piece: ClusterPiece, joined: ClusterPiece)
    requires Joins(last, piece) && joined == last.(clusters := last.clusters + piece.clusters)
    ensures MapCells(Cells(front + [joined])) == MapCells(Cells(front + [last])) + MapCells(PieceCells(piece))
  {
    var cells := MapCells(Cells(front));
    assert MapCells(Cells(front + [joined])) == cells + MapCells(PieceCells(joined)) by { PieceAdded(front, joined); }
    assert MapCells(Cells(front + [last])) == cells + MapCells(PieceCells(last)) by { PieceAdded(front, last); }
    CellsJoined(last, piece, joined);
    Associate(cells, MapCells(PieceCells(last)), MapCells(PieceCells(piece)), MapCells(PieceCells(joined)));
  }

  lemma Associate(a: seq<MapCell>, b: seq<MapCell>, c: seq<MapCell>, d: seq<MapCell>)
    requires d == b + c
    ensures a + d == a + b + c
  {
  }

  lemma CellsJoined(last: ClusterPiece, piece: ClusterPiece, joined: ClusterPiece)
    requires Joins(last, piece) && joined == last.(clusters := last.clusters + piece.clusters)
    ensures MapCells(PieceCells(joined)) == MapCells(PieceCells(last)) + MapCells(PieceCells(piece))
  {
  }

  lemma MapCellsAdded(a: seq<Cell>, b: seq<Cell>)
    ensures MapCells(a + b) == MapCells(a) + MapCells(b)
  {
  }
}
