// The bits of the cluster bitmap: counting them by bytes under a mask, and
// cutting them into runs.
module BitmapBits {
  import opened Prelude
  import opened AllocTypes

  // Bit k of a byte, the lowest first.
  predicate Bit(b: bv8, k: nat)
    requires k < 8
  {
    match k
    case 0 => b & 1 != 0
    case 1 => b & 2 != 0
    case 2 => b & 4 != 0
    case 3 => b & 8 != 0
    case 4 => b & 16 != 0
    case 5 => b & 32 != 0
    case 6 => b & 64 != 0
    case _ => b & 128 != 0
  }

  // The lowest n bits set: 2^n - 1.
  function LowMask(n: nat): bv8
    requires n <= 8
  {
    match n
    case 0 => 0
    case 1 => 1
    case 2 => 3
    case 3 => 7
    case 4 => 15
    case 5 => 31
    case 6 => 63
    case 7 => 127
    case _ => 255
  }

  function BitCount(b: bv8, k: nat): nat
    requires k < 8
  {
    if Bit(b, k) then 1 else 0
  }

  // The set bits of a byte.
  function PopCount(b: bv8): nat {
    BitCount(b, 0) + BitCount(b, 1) + BitCount(b, 2) + BitCount(b, 3)
    + BitCount(b, 4) + BitCount(b, 5) + BitCount(b, 6) + BitCount(b, 7)
  }

  lemma MaskedBelow(b: bv8, n: nat, k: nat)
    requires n <= 8 && k < 8
    ensures Bit(b & LowMask(n), k) <==> Bit(b, k) && k < n
  {
  }

  lemma MaskedFrom(b: bv8, from: nat, k: nat)
    requires from <= 8 && k < 8
    ensures Bit(b & !LowMask(from), k) <==> Bit(b, k) && from <= k
  {
  }

  // Masking keeps bits [from, n) and clears the others.
  lemma MaskedBit(b: bv8, from: nat, n: nat, k: nat)
    requires from <= 8 && n <= 8 && k < 8
    ensures Bit(b & LowMask(n) & !LowMask(from), k) <==> Bit(b, k) && from <= k < n
  {
    hide Bit;
    MaskedBelow(b, n, k);
    MaskedFrom(b & LowMask(n), from, k);
  }

  // Bit i of a list of bytes.
  predicate BitAt(bytes: seq<bv8>, i: nat)
    requires i / 8 < |bytes|
  {
    Bit(bytes[i / 8], i % 8)
  }

  // The set bits among bits [first, last).
  function CountBits(bytes: seq<bv8>, first: nat, last: nat): nat
    requires last <= 8 * |bytes|
    decreases last
  {
    if last <= first then 0 else CountBits(bytes, first, last - 1) + if BitAt(bytes, last - 1) then 1 else 0
  }

  lemma {:induction false} CountBitsSplit(bytes: seq<bv8>, first: nat, middle: nat, last: nat)
    requires first <= middle <= last <= 8 * |bytes|
    ensures CountBits(bytes, first, last) == CountBits(bytes, first, middle) + CountBits(bytes, middle, last)
    decreases last
  {
    if middle < last {
      CountBitsSplit(bytes, first, middle, last - 1);
    }
  }

  // The set bits [from, n) of one byte, counted one by one.
  function CountInByte(b: bv8, from: nat, n: nat): nat
    requires n <= 8
    decreases n
  {
    if n <= from then 0 else CountInByte(b, from, n - 1) + BitCount(b, n - 1)
  }

  // The masked byte has as many set bits.
  lemma MaskedCount(b: bv8, from: nat, n: nat)
    requires from <= 8 && n <= 8
    ensures PopCount(b & LowMask(n) & !LowMask(from)) == CountInByte(b, from, n)
  {
    var m := b & LowMask(n) & !LowMask(from);
    forall k: nat | k < 8 ensures BitCount(m, k) == if from <= k < n then BitCount(b, k) else 0 {
      MaskedBit(b, from, n, k);
    }
    CountKept(b, m, from, n, 8);
    AllInByte(m);
  }

  lemma {:induction false} CountKept(b: bv8, m: bv8, from: nat, n: nat, end: nat)
    requires n <= 8 && end <= 8
    requires forall k: nat :: k < 8 ==> BitCount(m, k) == if from <= k < n then BitCount(b, k) else 0
    ensures CountInByte(m, 0, end) == CountInByte(b, from, Min(n, end))
    decreases end
  {
    if end > 0 {
      CountKept(b, m, from, n, end - 1);
    }
  }

  lemma AllInByte(m: bv8)
    ensures CountInByte(m, 0, 8) == PopCount(m)
  {
    assert CountInByte(m, 0, 2) == BitCount(m, 0) + BitCount(m, 1);
    assert CountInByte(m, 0, 4) == CountInByte(m, 0, 2) + BitCount(m, 2) + BitCount(m, 3);
    assert CountInByte(m, 0, 6) == CountInByte(m, 0, 4) + BitCount(m, 4) + BitCount(m, 5);
    assert CountInByte(m, 0, 8) == CountInByte(m, 0, 6) + BitCount(m, 6) + BitCount(m, 7);
  }

  lemma {:induction false} CountInOneByte(bytes: seq<bv8>, at: nat, from: nat, n: nat)
    requires at < |bytes| && from <= n <= 8
    ensures CountBits(bytes, 8 * at + from, 8 * at + n) == CountInByte(bytes[at], from, n)
    decreases n
  {
    if from < n {
      CountInOneByte(bytes, at, from, n - 1);
      assert (8 * at + n - 1) / 8 == at && (8 * at + n - 1) % 8 == n - 1;
    }
  }

  // The masked byte counts the bits of the range that it holds.
  lemma OneByteCounted(bytes: seq<bv8>, bit: nat, next: nat, from: nat, n: nat)
    requires bit < next <= 8 * |bytes| && from == bit % 8 && from <= n <= 8 && next == bit / 8 * 8 + n
    ensures PopCount(bytes[bit / 8] & LowMask(n) & !LowMask(from)) == CountBits(bytes, bit, next)
  {
    MaskedCount(bytes[bit / 8], from, n);
    CountInOneByte(bytes, bit / 8, from, n);
  }

  // Set bits among bits [first, last) of bytes, byte by byte.
  method CountSet(bytes: seq<bv8>, first: nat, last: nat) returns (set_: nat)
    requires last <= 8 * |bytes|
    ensures set_ == CountBits(bytes, first, last)
  {
    set_ := 0;
    var bit := first;
    while bit < last
      invariant first <= bit && (bit <= last || bit == first)
      invariant set_ == CountBits(bytes, first, Min(bit, last))
      decreases last - bit
    {
      var byteIndex := bit / 8;
      var from := bit % 8;
      var byteEnd := (byteIndex + 1) * 8;
      var next := Min(last, byteEnd);
      var n := next - byteIndex * 8;
      set_ := set_ + PopCount(bytes[byteIndex] & LowMask(n) & !LowMask(from));
      OneByteCounted(bytes, bit, next, from, n);
      CountBitsSplit(bytes, first, bit, next);
      bit := next;
    }
  }

  // -------------------------------------------------------------------------
  // Runs
  // -------------------------------------------------------------------------

  // n clusters of one state.
  function Same(state: ClusterState, n: nat): seq<ClusterState> {
    seq(n, _ => state)
  }

  // The runs are nonempty, start at first with no gap, and spell states, one
  // state for each cluster.
  ghost predicate Spelled(runs: seq<ClusterRun>, first: nat, states: seq<ClusterState>) {
    if runs == [] then states == []
    else
      var last := runs[|runs| - 1];
      && 0 < last.clusters <= |states|
      && last.lcn == first + |states| - last.clusters
      && states[|states| - last.clusters..] == Same(last.state, last.clusters)
      && Spelled(runs[..|runs| - 1], first, states[..|states| - last.clusters])
  }

  // No run could be joined to the next one.
  predicate Maximal(runs: seq<ClusterRun>) {
    forall k :: 0 <= k < |runs| - 1 ==> runs[k].state != runs[k + 1].state
  }

  // Runs that spell states tile their range.
  lemma {:induction false} SpelledTiles(runs: seq<ClusterRun>, first: nat, states: seq<ClusterState>, stateAt: nat -> ClusterState)
    requires Spelled(runs, first, states)
    requires forall x: nat :: first <= x < first + |states| ==> stateAt(x) == states[x - first]
    ensures RunsTile(runs, first, first + |states|, stateAt)
  {
    if runs != [] {
      var last := runs[|runs| - 1];
      var front := states[..|states| - last.clusters];
      SpelledTiles(runs[..|runs| - 1], first, front, stateAt);
      forall x: nat | last.lcn <= x < first + |states| ensures stateAt(x) == last.state {
        assert states[|states| - last.clusters..][x - last.lcn] == states[x - first];
      }
    }
  }

  // Appends the run [lcn, lcn + clusters) to runs, joined to the last one when it
  // has the same state and ends where this one starts.
  method AppendRun(before: seq<ClusterRun>, lcn: nat, clusters: nat, state: ClusterState,
                   ghost first: nat, ghost states: seq<ClusterState>)
    returns (runs: seq<ClusterRun>)
    requires Spelled(before, first, states) && Maximal(before)
    requires lcn == first + |states|
    ensures Spelled(runs, first, states + Same(state, clusters)) && Maximal(runs)
  {
    runs := before;
    if clusters == 0 {
      assert states + Same(state, 0) == states;
      return;
    }
    ghost var whole := states + Same(state, clusters);
    if before != [] {
      var last := before[|before| - 1];
      if last.state == state && last.lcn + last.clusters == lcn {
        runs := before[|before| - 1 := last.(clusters := last.clusters + clusters)];
        RunGrown(before, runs, clusters, first, states);
        return;
      }
    }
    runs := before + [ClusterRun(lcn, clusters, state)];
    RunPushed(before, ClusterRun(lcn, clusters, state), first, states);
    SpelledEnds(before, first, states);
  }

  lemma RunPushed(before: seq<ClusterRun>, run: ClusterRun, first: nat, states: seq<ClusterState>)
    requires Spelled(before, first, states) && run.clusters > 0 && run.lcn == first + |states|
    ensures Spelled(before + [run], first, states + Same(run.state, run.clusters))
  {
    var whole := states + Same(run.state, run.clusters);
    assert (before + [run])[..|before|] == before;
    assert whole[|whole| - run.clusters..] == Same(run.state, run.clusters);
    assert whole[..|whole| - run.clusters] == states;
  }

  lemma RunGrown(before: seq<ClusterRun>, after: seq<ClusterRun>, clusters: nat, first: nat, states: seq<ClusterState>)
    requires Spelled(before, first, states) && before != []
    requires var last := before[|before| - 1];
      after == before[|before| - 1 := last.(clusters := last.clusters + clusters)]
    ensures Spelled(after, first, states + Same(before[|before| - 1].state, clusters))
  {
    var last := before[|before| - 1];
    var whole := states + Same(last.state, clusters);
    var n := last.clusters + clusters;
    assert after[..|after| - 1] == before[..|before| - 1];
    assert whole[..|whole| - n] == states[..|states| - last.clusters];
    var tail := states[|states| - last.clusters..];
    assert whole[|whole| - n..] == tail + Same(last.state, clusters);
    assert tail + Same(last.state, clusters) == Same(last.state, n);
  }

  // The last run ends where the spelling ends.
  lemma SpelledEnds(runs: seq<ClusterRun>, first: nat, states: seq<ClusterState>)
    requires Spelled(runs, first, states)
    ensures runs != [] ==> runs[|runs| - 1].lcn + runs[|runs| - 1].clusters == first + |states|
  {
  }

  // The state of bit i of bytes.
  function StateOfBit(bytes: seq<bv8>, i: nat): ClusterState
    requires i / 8 < |bytes|
  {
    if BitAt(bytes, i) then Allocated else ClusterState.Free
  }

  // The states of bits [first, last).
  function StatesOfBits(bytes: seq<bv8>, first: nat, last: nat): seq<ClusterState>
    requires first <= last <= 8 * |bytes|
  {
    seq(last - first, k requires 0 <= k < last - first => StateOfBit(bytes, first + k))
  }

  // A byte with all its bits set, or none, settles its eight bits at once.
  lemma WholeByte(b: bv8, set_: bool, k: nat)
    requires k < 8 && b == if set_ then 0xFF else 0
    ensures Bit(b, k) == set_
  {
  }

  // The first bit after bit that differs from it, looked for a byte at a time
  // where it can.
  method EndOfRun(bytes: seq<bv8>, bit: nat, last: nat, set_: bool) returns (end: nat)
    requires bit < last <= 8 * |bytes| && set_ == BitAt(bytes, bit)
    ensures bit < end <= last
    ensures forall i :: bit <= i < end ==> BitAt(bytes, i) == set_
    ensures end < last ==> BitAt(bytes, end) != set_
  {
    var whole: bv8 := if set_ then 0xFF else 0;
    end := bit + 1;
    while end < last
      invariant bit < end <= last
      invariant forall i :: bit <= i < end ==> BitAt(bytes, i) == set_
    {
      if end % 8 == 0 && last - end >= 8 && bytes[end / 8] == whole {
        forall i | end <= i < end + 8 ensures BitAt(bytes, i) == set_ {
          assert i / 8 == end / 8;
          WholeByte(bytes[end / 8], set_, i % 8);
        }
        end := end + 8;
      } else {
        if BitAt(bytes, end) != set_ {
          return;
        }
        end := end + 1;
      }
    }
  }

  lemma BitsExtended(bytes: seq<bv8>, from: nat, bit: nat, end: nat, state: ClusterState)
    requires from <= bit <= end <= 8 * |bytes|
    requires forall i :: bit <= i < end ==> StateOfBit(bytes, i) == state
    ensures StatesOfBits(bytes, from, bit) + Same(state, end - bit) == StatesOfBits(bytes, from, end)
  {
    var left, right := StatesOfBits(bytes, from, bit) + Same(state, end - bit), StatesOfBits(bytes, from, end);
    forall k | 0 <= k < end - from ensures left[k] == right[k] {
      if k >= bit - from {
        assert StateOfBit(bytes, from + k) == state;
      }
    }
  }

  // Appends the runs of bits [from, last) of bytes, as clusters from
  // lcnBase + from.
  method AppendBitRuns(before: seq<ClusterRun>, bytes: seq<bv8>, from: nat, last: nat, lcnBase: nat,
                       ghost first: nat, ghost states: seq<ClusterState>)
    returns (runs: seq<ClusterRun>)
    requires from <= last <= 8 * |bytes|
    requires Spelled(before, first, states) && Maximal(before)
    requires lcnBase + from == first + |states|
    ensures Spelled(runs, first, states + StatesOfBits(bytes, from, last)) && Maximal(runs)
  {
    runs := before;
    var bit := from;
    assert states + StatesOfBits(bytes, from, from) == states;
    while bit < last
      invariant from <= bit <= last
      invariant Spelled(runs, first, states + StatesOfBits(bytes, from, bit)) && Maximal(runs)
    {
      var set_ := BitAt(bytes, bit);
      var end := EndOfRun(bytes, bit, last, set_);
      var state := if set_ then Allocated else ClusterState.Free;
      runs := AppendRun(runs, lcnBase + bit, end - bit, state, first, states + StatesOfBits(bytes, from, bit));
      BitsExtended(bytes, from, bit, end, state);
      assert states + StatesOfBits(bytes, from, bit) + Same(state, end - bit) == states + StatesOfBits(bytes, from, end);
      bit := end;
    }
  }
}
