// Counters of clusters by condition, and what they count in a list of cells.
module ClusterTally {
  import opened Prelude
  import opened AllocTypes
  import opened ClusterPieces

  // The number of values of ClusterCondition.
  const CONDITION_COUNT: nat := 18

  // The place of a condition in the counters.
  function Index(c: ClusterCondition): (i: nat)
    ensures i < CONDITION_COUNT
  {
    match c
    case Invalid => 0
    case Bad => 1
    case NeverWritten => 2
    case ReallocatedWritten => 3
    case ReallocatedUnwritten => 4
    case OverwrittenThenFreed => 5
    case Contested => 6
    case AllocatedUnknownOwner => 7
    case Unknown => 8
    case Intact => 9
    case LostWithUnit => 10
    case Consistent => 11
    case FreeButClaimed => 12
    case CrossLinked => 13
    case Sparse => 14
    case Zeroed => 15
    case OverwrittenByMetadata => 16
    case IntactChecked => 17
  }

  datatype Tally = Tally(counts: seq<nat>) {
    predicate Valid() { |counts| == CONDITION_COUNT }

    function Count(c: ClusterCondition): nat
      requires Valid()
    {
      counts[Index(c)]
    }

    // Adds clusters to the counter of condition, and to no other.
    function Add(condition: ClusterCondition, clusters: nat): (t: Tally)
      requires Valid()
      ensures t.Valid()
      ensures forall c :: t.Count(c) == Count(c) + if c == condition then clusters else 0
    {
      Tally(counts[Index(condition) := counts[Index(condition)] + clusters])
    }

    predicate Empty()
      requires Valid()
    {
      forall i :: 0 <= i < |counts| ==> counts[i] == 0
    }
  }

  const NO_CLUSTERS := Tally(seq(CONDITION_COUNT, _ => 0))

  // The sum of f over the conditions whose place is below n.
  function SumTo(f: ClusterCondition -> nat, n: nat): nat
    requires n <= CONDITION_COUNT
  {
    if n == 0 then 0 else SumTo(f, n - 1) + f(At(n - 1))
  }

  function Total(f: ClusterCondition -> nat): nat {
    SumTo(f, CONDITION_COUNT)
  }

  // The condition at a place of the counters.
  function At(i: nat): (c: ClusterCondition)
    requires i < CONDITION_COUNT
    ensures Index(c) == i
  {
    match i
    case 0 => ClusterCondition.Invalid
    case 1 => ClusterCondition.Bad
    case 2 => NeverWritten
    case 3 => ReallocatedWritten
    case 4 => ReallocatedUnwritten
    case 5 => OverwrittenThenFreed
    case 6 => Contested
    case 7 => AllocatedUnknownOwner
    case 8 => ClusterCondition.Unknown
    case 9 => Intact
    case 10 => LostWithUnit
    case 11 => Consistent
    case 12 => FreeButClaimed
    case 13 => CrossLinked
    case 14 => Sparse
    case 15 => Zeroed
    case 16 => OverwrittenByMetadata
    case _ => IntactChecked
  }

  lemma OnePlaceEach(c: ClusterCondition, d: ClusterCondition)
    ensures Index(c) == Index(d) <==> c == d
  {
  }

  // The clusters with an address, of one condition.
  function CountCells(cells: seq<Cell>, c: ClusterCondition): nat {
    if cells == [] then 0
    else
      var last := cells[|cells| - 1];
      CountCells(cells[..|cells| - 1], c) + if last.lcn.Some? && last.condition == c then 1 else 0
  }

  // The clusters with an address.
  function Addressed(cells: seq<Cell>): nat {
    if cells == [] then 0
    else Addressed(cells[..|cells| - 1]) + if cells[|cells| - 1].lcn.Some? then 1 else 0
  }

  lemma {:induction false} SumGrows(f: ClusterCondition -> nat, g: ClusterCondition -> nat, at: ClusterCondition, more: nat, n: nat)
    requires forall c :: g(c) == f(c) + if c == at then more else 0
    requires n <= CONDITION_COUNT
    ensures SumTo(g, n) == SumTo(f, n) + if Index(at) < n then more else 0
  {
    if n > 0 {
      SumGrows(f, g, at, more, n - 1);
      OnePlaceEach(At(n - 1), at);
    }
  }

  lemma {:induction false} SumOfSums(f: ClusterCondition -> nat, g: ClusterCondition -> nat, h: ClusterCondition -> nat, n: nat)
    requires forall c :: h(c) == f(c) + g(c)
    requires n <= CONDITION_COUNT
    ensures SumTo(h, n) == SumTo(f, n) + SumTo(g, n)
  {
    if n > 0 {
      SumOfSums(f, g, h, n - 1);
    }
  }

  lemma {:induction false} SumOfNone(f: ClusterCondition -> nat, n: nat)
    requires forall c :: f(c) == 0
    requires n <= CONDITION_COUNT
    ensures SumTo(f, n) == 0
  {
    if n > 0 {
      SumOfNone(f, n - 1);
    }
  }

  // Each cluster with an address is counted under one condition.
  lemma {:induction false} TotalIsAddressed(cells: seq<Cell>, f: ClusterCondition -> nat)
    requires forall c :: f(c) == CountCells(cells, c)
    ensures Total(f) == Addressed(cells)
  {
    if |cells| == 0 {
      SumOfNone(f, CONDITION_COUNT);
    } else {
      var front, last := cells[..|cells| - 1], cells[|cells| - 1];
      var g: ClusterCondition -> nat := c => CountCells(front, c);
      TotalIsAddressed(front, g);
      SumGrows(g, f, last.condition, if last.lcn.Some? then 1 else 0, CONDITION_COUNT);
    }
  }

  // Marking changes conditions, never whether a cluster has an address.
  lemma {:induction false} MarkingKeepsAddressed(cells: seq<Cell>, broken: iset<nat>)
    ensures Addressed(MarkCells(cells, broken)) == Addressed(cells)
  {
    if cells != [] {
      var n := |cells| - 1;
      MarkingKeepsAddressed(cells[..n], broken);
      assert MarkCells(cells, broken)[..n] == MarkCells(cells[..n], broken);
    }
  }

  lemma {:induction false} CountCellsAdded(a: seq<Cell>, b: seq<Cell>, c: ClusterCondition)
    ensures CountCells(a + b, c) == CountCells(a, c) + CountCells(b, c)
  {
    if b == [] {
      assert a + b == a;
    } else {
      var n := |b| - 1;
      CountCellsAdded(a, b[..n], c);
      assert (a + b)[..|a + b| - 1] == a + b[..n];
    }
  }

  lemma {:induction false} CountPiece(p: ClusterPiece, c: ClusterCondition)
    ensures CountCells(PieceCells(p), c) == if p.lcn.Some? && p.condition == c then p.clusters else 0
    decreases p.clusters
  {
    if p.clusters > 0 {
      var shorter := p.(clusters := p.clusters - 1);
      CountPiece(shorter, c);
      assert PieceCells(p)[..p.clusters - 1] == PieceCells(shorter);
    }
  }

  // The clusters of the pieces with an address, of one condition.
  function CountPieces(pieces: seq<ClusterPiece>, c: ClusterCondition): nat {
    if pieces == [] then 0
    else
      var last := pieces[|pieces| - 1];
      CountPieces(pieces[..|pieces| - 1], c) + if last.lcn.Some? && last.condition == c then last.clusters else 0
  }

  lemma {:induction false} CountPiecesCountsCells(pieces: seq<ClusterPiece>, c: ClusterCondition)
    ensures CountPieces(pieces, c) == CountCells(Cells(pieces), c)
  {
    if pieces != [] {
      CountPiecesCountsCells(pieces[..|pieces| - 1], c);
      CountPiece(pieces[|pieces| - 1], c);
      CountCellsAdded(Cells(pieces[..|pieces| - 1]), PieceCells(pieces[|pieces| - 1]), c);
    }
  }

  lemma {:induction false} CountPiecesAdded(a: seq<ClusterPiece>, b: seq<ClusterPiece>, c: ClusterCondition)
    ensures CountPieces(a + b, c) == CountPieces(a, c) + CountPieces(b, c)
  {
    if b == [] {
      assert a + b == a;
    } else {
      CountPiecesAdded(a, b[..|b| - 1], c);
      assert (a + b)[..|a + b| - 1] == a + b[..|b| - 1];
    }
  }

  lemma {:induction false} PlacedCount(pieces: seq<ClusterPiece>, p: ClusterPiece, leq: (ClusterPiece, ClusterPiece) -> bool, c: ClusterCondition)
    ensures CountPieces(Place(pieces, p, leq), c) == CountPieces(pieces + [p], c)
  {
    CountPiecesAdded(pieces, [p], c);
    if pieces == [] || leq(pieces[|pieces| - 1], p) {
    } else {
      var front, last := pieces[..|pieces| - 1], pieces[|pieces| - 1];
      PlacedCount(front, p, leq, c);
      CountPiecesAdded(front, [p], c);
      CountPiecesAdded(Place(front, p, leq), [last], c);
      CountPiecesAdded(front, [last], c);
      assert front + [last] == pieces;
    }
  }

  // Sorting and filling change no count of clusters with an address.
  lemma {:induction false} SortedCount(pieces: seq<ClusterPiece>, leq: (ClusterPiece, ClusterPiece) -> bool, c: ClusterCondition)
    ensures CountPieces(Sort(pieces, leq), c) == CountPieces(pieces, c)
  {
    if pieces != [] {
      var front, last := pieces[..|pieces| - 1], pieces[|pieces| - 1];
      SortedCount(front, leq, c);
      PlacedCount(Sort(front, leq), last, leq, c);
      CountPiecesAdded(Sort(front, leq), [last], c);
      CountPiecesAdded(front, [last], c);
      assert front + [last] == pieces;
    }
  }

  lemma {:induction false} FilledCount(pieces: seq<ClusterPiece>, c: ClusterCondition)
    ensures CountPieces(Filled(pieces), c) == CountPieces(pieces, c)
  {
    hide EndOf;
    if pieces != [] {
      var front, last := pieces[..|pieces| - 1], pieces[|pieces| - 1];
      FilledCount(front, c);
      if last.firstVcn > EndOf(front) {
        var gap := Gap(EndOf(front), last.firstVcn);
        CountPiecesAdded(Filled(front) + [gap], [last], c);
        CountPiecesAdded(Filled(front), [gap], c);
      } else {
        CountPiecesAdded(Filled(front), [last], c);
        assert Filled(pieces) == Filled(front) + [last];
      }
      CountPiecesAdded(front, [last], c);
      assert front + [last] == pieces;
    }
  }

  lemma FilledToCount(pieces: seq<ClusterPiece>, span: nat, c: ClusterCondition)
    ensures CountPieces(FilledTo(pieces, span), c) == CountPieces(pieces, c)
  {
    FilledCount(pieces, c);
    if span > EndOf(pieces) {
      CountPiecesAdded(Filled(pieces), [Gap(EndOf(pieces), span)], c);
    } else {
      assert FilledTo(pieces, span) == Filled(pieces);
    }
  }
}
