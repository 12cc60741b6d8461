// The cluster bitmap of a volume, read one window at a time, with the bad list
// over it: counts and runs that agree with one state for each cluster, whatever
// the reads give back.
module ClusterBitmap {
  import opened Prelude
  import opened AllocTypes
  import opened BadClusterList
  import opened BitmapBits

  // Windows that may fail before the rest of the bitmap is given up on.
  const MAX_FAILED_WINDOWS: nat := 4096

  // A part of the bitmap held: the leading valid bytes came from the reader.
  datatype Window = Window(index: nat, bytes: seq<bv8>, valid: nat)

  // Clusters judged in one pass over a range. judged counts the clusters whose
  // bit was read, bad ones included.
  datatype Counts = Counts(inUse: nat, free: nat, unknown: nat, bad: nat, judged: nat)

  // Bits of dataSize bytes, saturated when the product overflows.
  function BitsOf(dataSize: nat): nat {
    if dataSize > U64_MAX / 8 then U64_MAX else dataSize * 8
  }

  // The file has a bit exactly where it has the byte of it, as far as bits have
  // 64-bit numbers.
  lemma BitsAll(dataSize: nat, x: nat)
    requires x < U64_MAX
    ensures x < BitsOf(dataSize) <==> x / 8 < dataSize || dataSize > U64_MAX / 8
  {
  }

  // -------------------------------------------------------------------------
  // Counting states
  // -------------------------------------------------------------------------

  function CountState(states: seq<ClusterState>, s: ClusterState): nat {
    if states == [] then 0 else CountState(states[..|states| - 1], s) + if states[|states| - 1] == s then 1 else 0
  }

  lemma {:induction false} CountStateAdded(a: seq<ClusterState>, b: seq<ClusterState>, s: ClusterState)
    ensures CountState(a + b, s) == CountState(a, s) + CountState(b, s)
  {
    if b == [] {
      assert a + b == a;
    } else {
      CountStateAdded(a, b[..|b| - 1], s);
      assert (a + b)[..|a + b| - 1] == a + b[..|b| - 1];
    }
  }

  lemma {:induction false} CountSameState(state: ClusterState, n: nat, s: ClusterState)
    ensures CountState(Same(state, n), s) == if state == s then n else 0
    decreases n
  {
    if n > 0 {
      CountSameState(state, n - 1, s);
      assert Same(state, n)[..n - 1] == Same(state, n - 1);
    }
  }

  lemma {:induction false} CountOfBits(bytes: seq<bv8>, first: nat, last: nat, s: ClusterState)
    requires first <= last <= 8 * |bytes|
    ensures CountState(StatesOfBits(bytes, first, last), s)
      == if s == Allocated then CountBits(bytes, first, last)
         else if s == ClusterState.Free then last - first - CountBits(bytes, first, last)
         else 0
    decreases last
  {
    if first < last {
      CountOfBits(bytes, first, last - 1, s);
      assert StatesOfBits(bytes, first, last)[..last - 1 - first] == StatesOfBits(bytes, first, last - 1);
      assert StatesOfBits(bytes, first, last)[last - 1 - first] == StateOfBit(bytes, last - 1);
    }
  }

  lemma {:induction false} CountBitsWithin(bytes: seq<bv8>, first: nat, last: nat)
    requires first <= last <= 8 * |bytes|
    ensures CountBits(bytes, first, last) <= last - first
    decreases last
  {
    if first < last {
      CountBitsWithin(bytes, first, last - 1);
    }
  }

  // Clusters [a, b) of a list of states turned bad.
  function SetBad(states: seq<ClusterState>, a: nat, b: nat): seq<ClusterState>
    requires a <= b <= |states|
  {
    states[..a] + Same(ClusterState.Bad, b - a) + states[b..]
  }

  lemma CountSetBad(states: seq<ClusterState>, a: nat, b: nat, s: ClusterState)
    requires a <= b <= |states|
    ensures CountState(SetBad(states, a, b), s) + CountState(states[a..b], s)
      == CountState(states, s) + if s == ClusterState.Bad then b - a else 0
  {
    hide CountState;
    CountStateAdded(states[..a], Same(ClusterState.Bad, b - a), s);
    CountStateAdded(states[..a] + Same(ClusterState.Bad, b - a), states[b..], s);
    CountSameState(ClusterState.Bad, b - a, s);
    CountStateAdded(states[..a], states[a..b], s);
    CountStateAdded(states[..a] + states[a..b], states[b..], s);
    assert states == states[..a] + states[a..b] + states[b..];
  }

  // The counters are those of the states.
  ghost predicate Matches(c: Counts, states: seq<ClusterState>) {
    && c.inUse == CountState(states, Allocated)
    && c.free == CountState(states, ClusterState.Free)
    && c.unknown == CountState(states, ClusterState.Unknown)
    && c.bad == CountState(states, ClusterState.Bad)
  }

  // The states with the listed clusters bad, whatever they were.
  ghost function Overlay(raw: seq<ClusterState>, first: nat, bad: seq<Extent>): seq<ClusterState> {
    seq(|raw|, k requires 0 <= k < |raw| => if Listed(bad, first + k) then ClusterState.Bad else raw[k])
  }

  // A listed cluster has its bit clear.
  ghost predicate Disagree(raw: seq<ClusterState>, first: nat, bad: seq<Extent>) {
    exists k :: 0 <= k < |raw| && raw[k] == ClusterState.Free && Listed(bad, first + k)
  }

  lemma DisagreeAdded(a: seq<ClusterState>, b: seq<ClusterState>, first: nat, bad: seq<Extent>)
    ensures Disagree(a + b, first, bad) <==> Disagree(a, first, bad) || Disagree(b, first + |a|, bad)
  {
    if Disagree(a + b, first, bad) {
      var k :| 0 <= k < |a + b| && (a + b)[k] == ClusterState.Free && Listed(bad, first + k);
      if k < |a| {
        assert a[k] == ClusterState.Free;
      } else {
        assert b[k - |a|] == ClusterState.Free && Listed(bad, first + |a| + (k - |a|));
      }
    }
    if Disagree(a, first, bad) {
      var k :| 0 <= k < |a| && a[k] == ClusterState.Free && Listed(bad, first + k);
      assert (a + b)[k] == ClusterState.Free;
    }
    if Disagree(b, first + |a|, bad) {
      var k :| 0 <= k < |b| && b[k] == ClusterState.Free && Listed(bad, first + |a| + k);
      assert (a + b)[|a| + k] == ClusterState.Free && Listed(bad, first + (|a| + k));
    }
  }

  lemma OverlayAdded(a: seq<ClusterState>, b: seq<ClusterState>, first: nat, bad: seq<Extent>)
    ensures Overlay(a + b, first, bad) == Overlay(a, first, bad) + Overlay(b, first + |a|, bad)
  {
    var left, right := Overlay(a + b, first, bad), Overlay(a, first, bad) + Overlay(b, first + |a|, bad);
    forall k | 0 <= k < |a + b| ensures left[k] == right[k] {
      if k >= |a| {
        assert first + k == first + |a| + (k - |a|);
      }
    }
  }

  // The bits of a range that were read: those below stop come from window, whose
  // first bit is base; the rest of the range was not judged.
  datatype JudgedBits = JudgedBits(window: Option<Window>, base: nat, stop: nat)

  // The window holds every judged bit from first on.
  predicate WindowHolds(j: JudgedBits, first: nat) {
    j.stop > first ==> (j.window.Some? && j.base <= first && j.stop - j.base <= 8 * |j.window.value.bytes|)
  }

  // What the bits that were read give for [first, last).
  ghost predicate JudgedRaw(j: JudgedBits, raw: seq<ClusterState>, first: nat, last: nat) {
    && first <= j.stop <= last && |raw| == last - first && WindowHolds(j, first)
    && (forall k :: 0 <= k < |raw| ==>
          raw[k] == if first + k < j.stop then StateOfBit(j.window.value.bytes, first + k - j.base) else ClusterState.Unknown)
  }

  // Counts the judged bits of [from, end): how many there are, and how many are
  // set.
  method CountJudged(judged: JudgedBits, from: nat, end: nat, ghost first: nat, ghost last: nat, ghost raw: seq<ClusterState>)
    returns (seen: nat, set_: nat)
    requires first <= from < end <= last && JudgedRaw(judged, raw, first, last)
    ensures set_ <= seen <= end - from
    ensures var part := raw[from - first..end - first];
      && CountState(part, Allocated) == set_ && CountState(part, ClusterState.Free) == seen - set_
      && CountState(part, ClusterState.Unknown) == end - from - seen && CountState(part, ClusterState.Bad) == 0
  {
    hide CountState;
    hide CountBits;
    var judgedTo := Min(end, judged.stop);
    PartCounts(judged, raw, first, last, from, end, judgedTo);
    seen, set_ := 0, 0;
    if judgedTo > from {
      set_ := CountSet(judged.window.value.bytes, from - judged.base, judgedTo - judged.base);
      CountBitsWithin(judged.window.value.bytes, from - judged.base, judgedTo - judged.base);
      seen := judgedTo - from;
    }
  }

  // Moves the clusters of one bad extent, [from, end), into the bad counter.
  // clear tells how many of them have their bit clear.
  method MoveToBad(counts: Counts, from: nat, end: nat, judged: JudgedBits, ghost first: nat, ghost last: nat, ghost raw: seq<ClusterState>,
                   ghost states: seq<ClusterState>, ghost offset: nat)
    returns (r: Counts, clear: nat)
    requires first <= from < end <= last
    requires JudgedRaw(judged, raw, first, last)
    requires Matches(counts, states)
    // The clusters stand in states as they were read.
    requires offset + (last - first) == |states|
    requires states[offset + (from - first)..offset + (end - first)] == raw[from - first..end - first]
    ensures Matches(r, SetBad(states, offset + (from - first), offset + (end - first)))
    ensures r.judged == counts.judged
    ensures clear == CountState(raw[from - first..end - first], ClusterState.Free)
  {
    var seen, set_ := CountJudged(judged, from, end, first, last, raw);
    BadMoved(states, offset + (from - first), offset + (end - first));
    clear := seen - set_;
    var unjudged := end - from - seen;
    r := Counts(counts.inUse - set_, counts.free - clear, counts.unknown - unjudged, counts.bad + seen + unjudged, counts.judged);
  }

  // What turning a part bad does to each counter.
  lemma BadMoved(states: seq<ClusterState>, a: nat, b: nat)
    requires a <= b <= |states|
    ensures CountState(SetBad(states, a, b), Allocated) == CountState(states, Allocated) - CountState(states[a..b], Allocated)
    ensures CountState(SetBad(states, a, b), ClusterState.Free) == CountState(states, ClusterState.Free) - CountState(states[a..b], ClusterState.Free)
    ensures CountState(SetBad(states, a, b), ClusterState.Unknown)
      == CountState(states, ClusterState.Unknown) - CountState(states[a..b], ClusterState.Unknown)
    ensures CountState(SetBad(states, a, b), ClusterState.Bad)
      == CountState(states, ClusterState.Bad) - CountState(states[a..b], ClusterState.Bad) + (b - a)
    ensures CountState(states[a..b], Allocated) <= CountState(states, Allocated)
    ensures CountState(states[a..b], ClusterState.Free) <= CountState(states, ClusterState.Free)
    ensures CountState(states[a..b], ClusterState.Unknown) <= CountState(states, ClusterState.Unknown)
  {
    CountSetBad(states, a, b, Allocated);
    CountSetBad(states, a, b, ClusterState.Free);
    CountSetBad(states, a, b, ClusterState.Unknown);
    CountSetBad(states, a, b, ClusterState.Bad);
    PartWithin(states, a, b, Allocated);
    PartWithin(states, a, b, ClusterState.Free);
    PartWithin(states, a, b, ClusterState.Unknown);
  }

  // A part counts no more than the whole: the subtractions never pass zero.
  lemma PartWithin(states: seq<ClusterState>, a: nat, b: nat, s: ClusterState)
    requires a <= b <= |states|
    ensures CountState(states[a..b], s) <= CountState(states, s)
  {
    CountStateAdded(states[..a], states[a..b], s);
    CountStateAdded(states[..a] + states[a..b], states[b..], s);
    assert states == states[..a] + states[a..b] + states[b..];
  }

  lemma {:induction false} CountPositive(states: seq<ClusterState>, s: ClusterState)
    ensures CountState(states, s) > 0 <==> s in states
  {
    if states != [] {
      CountPositive(states[..|states| - 1], s);
      assert states == states[..|states| - 1] + [states[|states| - 1]];
    }
  }

  lemma SomeFree(part: seq<ClusterState>, raw: seq<ClusterState>, at: nat)
    requires at + |part| <= |raw| && part == raw[at..at + |part|]
    ensures CountState(part, ClusterState.Free) > 0 <==> exists k :: at <= k < at + |part| && raw[k] == ClusterState.Free
  {
    CountPositive(part, ClusterState.Free);
    if ClusterState.Free in part {
      var k :| 0 <= k < |part| && part[k] == ClusterState.Free;
      assert raw[at + k] == ClusterState.Free;
    }
    if exists k :: at <= k < at + |part| && raw[k] == ClusterState.Free {
      var k :| at <= k < at + |part| && raw[k] == ClusterState.Free;
      assert part[k - at] == ClusterState.Free;
    }
  }

  // The judged bits of a part of the range, as states.
  function KnownStates(j: JudgedBits, from: nat, judgedTo: nat): seq<ClusterState>
    requires judgedTo > from ==> j.window.Some? && j.base <= from && judgedTo - j.base <= 8 * |j.window.value.bytes|
  {
    if judgedTo > from then StatesOfBits(j.window.value.bytes, from - j.base, judgedTo - j.base) else []
  }

  // A part of the range: its judged bits, then unknown clusters.
  lemma PartStates(j: JudgedBits, raw: seq<ClusterState>, first: nat, last: nat, from: nat, end: nat, judgedTo: nat)
    requires first <= from < end <= last && JudgedRaw(j, raw, first, last)
    requires judgedTo == Min(end, j.stop)
    ensures var known := KnownStates(j, from, judgedTo);
      raw[from - first..end - first] == known + Same(ClusterState.Unknown, end - from - |known|)
  {
    var known := KnownStates(j, from, judgedTo);
    var part, whole := raw[from - first..end - first], known + Same(ClusterState.Unknown, end - from - |known|);
    forall k | 0 <= k < end - from ensures part[k] == whole[k] {
      assert part[k] == raw[from - first + k];
    }
  }

  lemma KnownCounts(j: JudgedBits, from: nat, judgedTo: nat)
    requires judgedTo > from ==> j.window.Some? && j.base <= from && judgedTo - j.base <= 8 * |j.window.value.bytes|
    ensures var known := KnownStates(j, from, judgedTo);
      var set_ := if judgedTo > from then CountBits(j.window.value.bytes, from - j.base, judgedTo - j.base) else 0;
      && CountState(known, Allocated) == set_ && CountState(known, ClusterState.Free) == |known| - set_
      && CountState(known, ClusterState.Unknown) == 0 && CountState(known, ClusterState.Bad) == 0
  {
    hide CountState;
    hide CountBits;
    if judgedTo > from {
      CountOfBits(j.window.value.bytes, from - j.base, judgedTo - j.base, Allocated);
      CountOfBits(j.window.value.bytes, from - j.base, judgedTo - j.base, ClusterState.Free);
      CountOfBits(j.window.value.bytes, from - j.base, judgedTo - j.base, ClusterState.Unknown);
      CountOfBits(j.window.value.bytes, from - j.base, judgedTo - j.base, ClusterState.Bad);
    } else {
      NoStates(KnownStates(j, from, judgedTo));
    }
  }

  lemma NoStates(states: seq<ClusterState>)
    requires |states| == 0
    ensures forall s :: CountState(states, s) == 0
  {
  }

  // What a part of the range counts.
  lemma PartCounts(j: JudgedBits, raw: seq<ClusterState>, first: nat, last: nat, from: nat, end: nat, judgedTo: nat)
    requires first <= from < end <= last && JudgedRaw(j, raw, first, last)
    requires judgedTo == Min(end, j.stop)
    ensures var part := raw[from - first..end - first];
      var set_ := if judgedTo > from then CountBits(j.window.value.bytes, from - j.base, judgedTo - j.base) else 0;
      var seen := if judgedTo > from then judgedTo - from else 0;
      && CountState(part, Allocated) == set_ && CountState(part, ClusterState.Free) == seen - set_
      && CountState(part, ClusterState.Unknown) == end - from - seen && CountState(part, ClusterState.Bad) == 0
  {
    hide CountState;
    hide CountBits;
    var known := KnownStates(j, from, judgedTo);
    var n := end - from - |known|;
    PartStates(j, raw, first, last, from, end, judgedTo);
    KnownCounts(j, from, judgedTo);
    CountStateAdded(known, Same(ClusterState.Unknown, n), Allocated);
    CountStateAdded(known, Same(ClusterState.Unknown, n), ClusterState.Free);
    CountStateAdded(known, Same(ClusterState.Unknown, n), ClusterState.Unknown);
    CountStateAdded(known, Same(ClusterState.Unknown, n), ClusterState.Bad);
    CountSameState(ClusterState.Unknown, n, Allocated);
    CountSameState(ClusterState.Unknown, n, ClusterState.Free);
    CountSameState(ClusterState.Unknown, n, ClusterState.Unknown);
    CountSameState(ClusterState.Unknown, n, ClusterState.Bad);
  }

  function ListOf(bad: Option<seq<Extent>>): seq<Extent> {
    if bad.None? then [] else bad.value
  }

  // The part of a range that an extent names.
  predicate PartNamed(e: Extent, first: nat, last: nat, from: nat, end: nat) {
    first <= from < end <= last && from == Max(e.lcn, first) && end == Min(EndOf(e), last)
  }

  lemma OverlayLength(raw: seq<ClusterState>, first: nat, bad: seq<Extent>)
    ensures |Overlay(raw, first, bad)| == |raw|
  {
  }

  // One more extent turns its part of the range bad.
  lemma OverlayOneMore(raw: seq<ClusterState>, first: nat, bad: seq<Extent>, e: Extent, from: nat, end: nat)
    requires PartNamed(e, first, first + |raw|, from, end)
    requires forall x: nat :: Names(e, x) ==> !Listed(bad, x)
    ensures Overlay(raw, first, bad + [e]) == SetBad(Overlay(raw, first, bad), from - first, end - first)
  {
    ListedAdded(bad, e);
    var left, right := Overlay(raw, first, bad + [e]), SetBad(Overlay(raw, first, bad), from - first, end - first);
    forall k | 0 <= k < |raw| ensures left[k] == right[k] {
      assert Listed(bad + [e], first + k) <==> Listed(bad, first + k) || Names(e, first + k);
    }
  }

  lemma OverlayUntouched(raw: seq<ClusterState>, first: nat, bad: seq<Extent>, e: Extent, from: nat, end: nat)
    requires PartNamed(e, first, first + |raw|, from, end)
    requires forall x: nat :: Names(e, x) ==> !Listed(bad, x)
    ensures Overlay(raw, first, bad)[from - first..end - first] == raw[from - first..end - first]
  {
    forall k | from - first <= k < end - first ensures Overlay(raw, first, bad)[k] == raw[k] {
      assert Names(e, first + k);
    }
  }

  lemma DisagreeOneMore(raw: seq<ClusterState>, first: nat, bad: seq<Extent>, e: Extent, from: nat, end: nat)
    requires PartNamed(e, first, first + |raw|, from, end)
    ensures Disagree(raw, first, bad + [e])
      <==> Disagree(raw, first, bad) || CountState(raw[from - first..end - first], ClusterState.Free) > 0
  {
    ListedAdded(bad, e);
    SomeFree(raw[from - first..end - first], raw, from - first);
    if Disagree(raw, first, bad + [e]) {
      var k :| 0 <= k < |raw| && raw[k] == ClusterState.Free && Listed(bad + [e], first + k);
      assert Listed(bad, first + k) || Names(e, first + k);
    }
    if Disagree(raw, first, bad) {
      var k :| 0 <= k < |raw| && raw[k] == ClusterState.Free && Listed(bad, first + k);
      assert Listed(bad + [e], first + k);
    }
    if CountState(raw[from - first..end - first], ClusterState.Free) > 0 {
      var k :| from - first <= k < end - first && raw[k] == ClusterState.Free;
      assert Names(e, first + k);
      assert Listed(bad + [e], first + k);
    }
  }

  lemma OverlaySame(raw: seq<ClusterState>, first: nat, a: seq<Extent>, b: seq<Extent>)
    requires forall x: nat :: first <= x < first + |raw| ==> (Listed(a, x) <==> Listed(b, x))
    ensures Overlay(raw, first, a) == Overlay(raw, first, b)
    ensures Disagree(raw, first, a) <==> Disagree(raw, first, b)
  {
    if Disagree(raw, first, a) {
      var k :| 0 <= k < |raw| && raw[k] == ClusterState.Free && Listed(a, first + k);
      assert Listed(b, first + k);
    }
    if Disagree(raw, first, b) {
      var k :| 0 <= k < |raw| && raw[k] == ClusterState.Free && Listed(b, first + k);
      assert Listed(a, first + k);
    }
  }

  lemma OverlayNone(raw: seq<ClusterState>, first: nat, bad: seq<Extent>)
    requires |bad| == 0
    ensures Overlay(raw, first, bad) == raw && !Disagree(raw, first, bad)
  {
    assert forall x: nat :: !Listed(bad, x);
    assert forall k :: 0 <= k < |raw| ==> Overlay(raw, first, bad)[k] == raw[k];
  }

  // The extent at i turns its part of the range bad, which stood as it was read.
  lemma ExtentMoves(raw: seq<ClusterState>, first: nat, extents: seq<Extent>, begin: nat, i: nat, from: nat, end: nat,
                    before: seq<Extent>)
    requires Apart(extents) && begin <= i < |extents| && before == extents[begin..i]
    requires PartNamed(extents[i], first, first + |raw|, from, end)
    ensures Overlay(raw, first, extents[begin..i + 1]) == SetBad(Overlay(raw, first, before), from - first, end - first)
    ensures Overlay(raw, first, before)[from - first..end - first] == raw[from - first..end - first]
  {
    hide Overlay;
    hide Apart;
    hide Listed;
    NewNames(extents, begin, i);
    assert extents[begin..i + 1] == before + [extents[i]];
    OverlayOneMore(raw, first, before, extents[i], from, end);
    OverlayUntouched(raw, first, before, extents[i], from, end);
  }

  lemma ExtentDisagrees(raw: seq<ClusterState>, first: nat, extents: seq<Extent>, begin: nat, i: nat, from: nat, end: nat)
    requires begin <= i < |extents|
    requires PartNamed(extents[i], first, first + |raw|, from, end)
    ensures Disagree(raw, first, extents[begin..i + 1])
      <==> Disagree(raw, first, extents[begin..i]) || CountState(raw[from - first..end - first], ClusterState.Free) > 0
  {
    hide Disagree;
    hide CountState;
    assert extents[begin..i + 1] == extents[begin..i] + [extents[i]];
    DisagreeOneMore(raw, first, extents[begin..i], extents[i], from, end);
  }

  lemma PartOfExtent(extents: seq<Extent>, i: nat, first: nat, last: nat, from: nat, end: nat)
    requires Apart(extents) && i < |extents| && Meets(extents[i], first, last) && last <= U64_MAX
    requires from == Max(extents[i].lcn, first) && end == Min(EndOf(extents[i]), last)
    ensures PartNamed(extents[i], first, last, from, end) && first <= from < end <= last
  {
  }

  // Moves the clusters of the extent at i that lie in [first, last).
  method ApplyExtent(counts: Counts, first: nat, last: nat, judged: JudgedBits, extents: seq<Extent>, i: nat,
                     ghost begin: nat, ghost done: seq<ClusterState>, ghost raw: seq<ClusterState>)
    returns (r: Counts, clear: bool)
    requires first <= last <= U64_MAX && JudgedRaw(judged, raw, first, last)
    requires Apart(extents) && begin <= i < |extents| && Meets(extents[i], first, last)
    requires Matches(counts, done + Overlay(raw, first, extents[begin..i]))
    ensures Matches(r, done + Overlay(raw, first, extents[begin..i + 1])) && r.judged == counts.judged
    ensures Disagree(raw, first, extents[begin..i + 1]) <==> Disagree(raw, first, extents[begin..i]) || clear
  {
    hide CountState;
    hide Overlay;
    hide Disagree;
    hide Apart;
    hide Matches;
    hide SetBad;
    hide PartNamed;
    hide Listed;
    var from, to := Max(extents[i].lcn, first), Min(EndOf(extents[i]), last);
    ghost var before := Overlay(raw, first, extents[begin..i]);
    PartOfExtent(extents, i, first, last, from, to);
    ExtentMoves(raw, first, extents, begin, i, from, to, extents[begin..i]);
    ExtentDisagrees(raw, first, extents, begin, i, from, to);
    OverlayLength(raw, first, extents[begin..i]);
    PartOfWhole(done, before, from - first, to - first);
    var cleared;
    r, cleared := MoveToBad(counts, from, to, judged, first, last, raw, done + before, |done|);
    clear := cleared != 0;
  }

  // Moves the clusters of [first, last) that the bad list names into the bad
  // counter. done are the states counted before the range.
  method ApplyBad(counts: Counts, first: nat, last: nat, judged: JudgedBits, bad: Option<seq<Extent>>,
                  ghost done: seq<ClusterState>, ghost raw: seq<ClusterState>)
    returns (r: Counts, clear: bool)
    requires first <= last <= U64_MAX && JudgedRaw(judged, raw, first, last)
    requires bad.Some? ==> Apart(bad.value)
    requires Matches(counts, done + raw)
    ensures Matches(r, done + Overlay(raw, first, ListOf(bad))) && r.judged == counts.judged
    ensures clear <==> Disagree(raw, first, ListOf(bad))
  {
    r, clear := counts, false;
    if bad.None? {
      OverlayNone(raw, first, ListOf(bad));
      return;
    }
    var extents := bad.value;
    var begin, end := Overlapping(extents, first, last);
    OverlayNone(raw, first, extents[begin..begin]);
    for i := begin to end
      invariant Matches(r, done + Overlay(raw, first, extents[begin..i])) && r.judged == counts.judged
      invariant clear <==> Disagree(raw, first, extents[begin..i])
    {
      var cleared;
      r, cleared := ApplyExtent(r, first, last, judged, extents, i, begin, done, raw);
      clear := clear || cleared;
    }
    OnlyOverlapping(extents, first, last, begin, end);
    OverlaySame(raw, first, extents[begin..end], extents);
  }

  lemma PartOfWhole(done: seq<ClusterState>, states: seq<ClusterState>, a: nat, b: nat)
    requires a <= b <= |states|
    ensures (done + states)[|done| + a..|done| + b] == states[a..b]
    ensures SetBad(done + states, |done| + a, |done| + b) == done + SetBad(states, a, b)
  {
    assert (done + states)[..|done| + a] == done + states[..a];
    assert (done + states)[|done| + b..] == states[b..];
  }

  // The last run, as the spelling places it.
  lemma LastSpelled(runs: seq<ClusterRun>, first: nat, raw: seq<ClusterState>)
    requires Spelled(runs, first, raw) && runs != []
    ensures var last := runs[|runs| - 1];
      && first <= last.lcn && last.clusters > 0 && last.lcn - first + last.clusters == |raw|
      && (forall i :: last.lcn - first <= i < |raw| ==> raw[i] == last.state)
      && Spelled(runs[..|runs| - 1], first, raw[..last.lcn - first])
  {
    var last := runs[|runs| - 1];
    forall i | |raw| - last.clusters <= i < |raw| ensures raw[i] == last.state {
      assert raw[|raw| - last.clusters..][i - (|raw| - last.clusters)] == raw[i];
    }
  }

  // The run at k, as the spelling places it.
  lemma {:induction false} RunSpelled(runs: seq<ClusterRun>, first: nat, raw: seq<ClusterState>, k: nat)
    requires Spelled(runs, first, raw) && k < |runs|
    ensures runs[k].clusters > 0 && RunIn(runs[k], first, raw)
    ensures k == 0 ==> runs[k].lcn == first
    ensures k + 1 < |runs| ==> runs[k + 1].lcn == runs[k].lcn + runs[k].clusters
    ensures k == |runs| - 1 ==> runs[k].lcn - first + runs[k].clusters == |raw|
  {
    hide Spelled;
    var n := |runs| - 1;
    LastSpelled(runs, first, raw);
    var front, before := runs[..n], raw[..runs[n].lcn - first];
    if k < n {
      RunSpelled(front, first, before, k);
      if k == n - 1 {
        assert runs[k].lcn - first + runs[k].clusters == |before|;
      }
      forall i | runs[k].lcn - first <= i < runs[k].lcn - first + runs[k].clusters ensures raw[i] == runs[k].state {
        assert before[i] == raw[i];
      }
    } else if n == 0 {
      EmptySpelling(front, first, before);
    }
  }

  lemma EmptySpelling(runs: seq<ClusterRun>, first: nat, raw: seq<ClusterState>)
    requires |runs| == 0 && Spelled(runs, first, raw)
    ensures raw == []
  {
  }

  // A run of one state, inside what raw spells from first on.
  ghost predicate RunIn(run: ClusterRun, first: nat, raw: seq<ClusterState>) {
    && first <= run.lcn && run.lcn - first + run.clusters <= |raw|
    && (forall i :: run.lcn - first <= i < run.lcn - first + run.clusters ==> raw[i] == run.state)
  }

  // [first + a, first + b) is listed whole, or not at all, and was in one state.
  lemma OverlayPart(raw: seq<ClusterState>, first: nat, bad: seq<Extent>, a: nat, b: nat, state: ClusterState, listed: bool)
    requires a <= b <= |raw|
    requires forall i :: a <= i < b ==> raw[i] == state
    requires forall x: nat :: first + a <= x < first + b ==> (Listed(bad, x) <==> listed)
    ensures Overlay(raw[..b], first, bad) == Overlay(raw[..a], first, bad) + Same(if listed then ClusterState.Bad else state, b - a)
    ensures Disagree(raw[..b], first, bad) <==> Disagree(raw[..a], first, bad) || (listed && state == ClusterState.Free && a < b)
  {
    var part := raw[a..b];
    assert raw[..b] == raw[..a] + part;
    OverlayAdded(raw[..a], part, first, bad);
    DisagreeAdded(raw[..a], part, first, bad);
    var over := Overlay(part, first + a, bad);
    forall k | 0 <= k < b - a ensures over[k] == if listed then ClusterState.Bad else state {
      assert Listed(bad, first + a + k) <==> listed;
      assert raw[a + k] == state;
    }
    assert over == Same(if listed then ClusterState.Bad else state, b - a);
    if listed && state == ClusterState.Free && a < b {
      assert part[0] == ClusterState.Free && Listed(bad, first + a + 0);
    }
  }

  // Past the extents that ended, and before the next one, nothing is listed.
  lemma BetweenExtents(extents: seq<Extent>, nextBad: nat, at: nat, to: nat)
    requires Apart(extents) && nextBad <= |extents|
    requires forall i :: 0 <= i < nextBad ==> EndOf(extents[i]) <= at
    requires nextBad < |extents| ==> to <= extents[nextBad].lcn
    ensures forall x: nat :: at <= x < to ==> !Listed(extents, x)
  {
    forall x: nat | at <= x < to ensures !Listed(extents, x) {
      forall i | 0 <= i < |extents| ensures !Names(extents[i], x) {
        if i > nextBad { EndsSorted(extents, i); }
      }
    }
  }

  // Appends the part [at, end) of a run, all of it listed or none of it.
  method AppendPart(before: seq<ClusterRun>, at: nat, end: nat, state: ClusterState, listed: bool, ghost bad: seq<Extent>,
                    ghost first: nat, ghost raw: seq<ClusterState>)
    returns (merged: seq<ClusterRun>)
    requires first <= at <= end <= first + |raw|
    requires forall i :: at - first <= i < end - first ==> raw[i] == state
    requires forall x: nat :: at <= x < end ==> (Listed(bad, x) <==> listed)
    requires Spelled(before, first, Overlay(raw[..at - first], first, bad)) && Maximal(before)
    ensures Spelled(merged, first, Overlay(raw[..end - first], first, bad)) && Maximal(merged)
    ensures Disagree(raw[..end - first], first, bad)
      <==> Disagree(raw[..at - first], first, bad) || (listed && state == ClusterState.Free && at < end)
  {
    OverlayPart(raw, first, bad, at - first, end - first, state, listed);
    merged := AppendRun(before, at, end - at, if listed then ClusterState.Bad else state, first, Overlay(raw[..at - first], first, bad));
  }

  // The first extent from nextBad on that ends after at.
  method SkipEnded(extents: seq<Extent>, from: nat, end: nat, at: nat) returns (nextBad: nat)
    requires from <= end <= |extents|
    requires forall i :: 0 <= i < from ==> EndOf(extents[i]) <= at
    ensures from <= nextBad <= end
    ensures forall i :: 0 <= i < nextBad ==> EndOf(extents[i]) <= at
    ensures nextBad < end ==> EndOf(extents[nextBad]) > at
  {
    nextBad := from;
    while nextBad < end && EndOf(extents[nextBad]) <= at
      invariant from <= nextBad <= end
      invariant forall i :: 0 <= i < nextBad ==> EndOf(extents[i]) <= at
    {
      nextBad := nextBad + 1;
    }
  }

  // Appends the part of a run from at up to the end of the next bad extent, or
  // of the run.
  method OverlayStep(before: seq<ClusterRun>, run: ClusterRun, extents: seq<Extent>, nextBad: nat, end: nat, at: nat,
                     ghost first: nat, ghost raw: seq<ClusterState>)
    returns (merged: seq<ClusterRun>, next: nat, clear: bool)
    requires Apart(extents) && nextBad <= end <= |extents| && RunIn(run, first, raw) && first + |raw| <= U64_MAX
    requires run.lcn <= at < run.lcn + run.clusters
    requires Spelled(before, first, Overlay(raw[..at - first], first, extents)) && Maximal(before)
    requires forall i :: 0 <= i < nextBad ==> EndOf(extents[i]) <= at
    requires nextBad < end ==> EndOf(extents[nextBad]) > at
    requires forall i :: end <= i < |extents| ==> extents[i].lcn >= run.lcn + run.clusters
    ensures at < next <= run.lcn + run.clusters
    ensures Spelled(merged, first, Overlay(raw[..next - first], first, extents)) && Maximal(merged)
    ensures Disagree(raw[..next - first], first, extents) <==> Disagree(raw[..at - first], first, extents) || clear
  {
    hide Spelled;
    hide Overlay;
    hide Disagree;
    var runEnd := run.lcn + run.clusters;
    merged, clear := before, false;
    if nextBad == end || extents[nextBad].lcn >= runEnd {
      BetweenExtents(extents, nextBad, at, runEnd);
      merged := AppendPart(merged, at, runEnd, run.state, false, extents, first, raw);
      return merged, runEnd, false;
    }
    var bad := extents[nextBad];
    next := at;
    if bad.lcn > at {
      BetweenExtents(extents, nextBad, at, bad.lcn);
      merged := AppendPart(merged, at, bad.lcn, run.state, false, extents, first, raw);
      next := bad.lcn;
    }
    var to := Min(EndOf(bad), runEnd);
    assert forall x: nat :: next <= x < to ==> Names(extents[nextBad], x);
    clear := run.state == ClusterState.Free;
    merged := AppendPart(merged, next, to, run.state, true, extents, first, raw);
    next := to;
  }

  // Splits one run where the bad list names its clusters.
  method OverlayRun(before: seq<ClusterRun>, run: ClusterRun, extents: seq<Extent>, from: nat, end: nat,
                    ghost first: nat, ghost raw: seq<ClusterState>)
    returns (merged: seq<ClusterRun>, nextBad: nat, clear: bool)
    requires Apart(extents) && from <= end <= |extents| && RunIn(run, first, raw) && first + |raw| <= U64_MAX
    requires Spelled(before, first, Overlay(raw[..run.lcn - first], first, extents)) && Maximal(before)
    requires forall i :: 0 <= i < from ==> EndOf(extents[i]) <= run.lcn
    requires forall i :: end <= i < |extents| ==> extents[i].lcn >= run.lcn + run.clusters
    ensures Spelled(merged, first, Overlay(raw[..run.lcn - first + run.clusters], first, extents)) && Maximal(merged)
    ensures from <= nextBad <= end
    ensures forall i :: 0 <= i < nextBad ==> EndOf(extents[i]) <= run.lcn + run.clusters
    ensures Disagree(raw[..run.lcn - first + run.clusters], first, extents) <==> Disagree(raw[..run.lcn - first], first, extents) || clear
  {
    hide Spelled;
    hide Overlay;
    hide Disagree;
    merged, nextBad, clear := before, from, false;
    var at := run.lcn;
    while at < run.lcn + run.clusters
      invariant run.lcn <= at <= run.lcn + run.clusters && from <= nextBad <= end
      invariant Spelled(merged, first, Overlay(raw[..at - first], first, extents)) && Maximal(merged)
      invariant forall i :: 0 <= i < nextBad ==> EndOf(extents[i]) <= at
      invariant Disagree(raw[..at - first], first, extents) <==> Disagree(raw[..run.lcn - first], first, extents) || clear
    {
      nextBad := SkipEnded(extents, nextBad, end, at);
      var cleared;
      merged, at, cleared := OverlayStep(merged, run, extents, nextBad, end, at, first, raw);
      clear := clear || cleared;
    }
  }

  // Replaces the runs that the bad list names by bad ones. clear tells whether a
  // run of free clusters was touched.
  method OverlayBad(runs: seq<ClusterRun>, bad: Option<seq<Extent>>, ghost first: nat, ghost raw: seq<ClusterState>)
    returns (merged: seq<ClusterRun>, clear: bool)
    requires Spelled(runs, first, raw) && Maximal(runs) && first + |raw| <= U64_MAX
    requires bad.Some? ==> Apart(bad.value)
    ensures Spelled(merged, first, Overlay(raw, first, ListOf(bad))) && Maximal(merged)
    ensures clear <==> Disagree(raw, first, ListOf(bad))
  {
    hide Spelled;
    hide Overlay;
    hide Disagree;
    merged, clear := runs, false;
    if bad.None? {
      OverlayNone(raw, first, ListOf(bad));
      return;
    }
    if runs == [] {
      NothingSpelled(runs, first, raw, bad.value);
      return;
    }
    var extents := bad.value;
    RunSpelled(runs, first, raw, 0);
    RunSpelled(runs, first, raw, |runs| - 1);
    var from := runs[0].lcn;
    var last := runs[|runs| - 1].lcn + runs[|runs| - 1].clusters;
    var begin, end := Overlapping(extents, from, last);
    OverlapEdges(extents, from, last, begin, end);
    if begin == end {
      OnlyOverlapping(extents, from, last, begin, end);
      OverlayNone(raw, first, extents[begin..end]);
      OverlaySame(raw, first, extents[begin..end], extents);
      return;
    }
    merged := [];
    var nextBad := begin;
    NothingYet(raw[..0], first, extents);
    for k := 0 to |runs|
      invariant begin <= nextBad <= end
      invariant var done := if k < |runs| then runs[k].lcn - first else |raw|;
        && 0 <= done <= |raw|
        && Spelled(merged, first, Overlay(raw[..done], first, extents)) && Maximal(merged)
        && (forall i :: 0 <= i < nextBad ==> EndOf(extents[i]) <= first + done)
        && (clear <==> Disagree(raw[..done], first, extents))
    {
      RunSpelled(runs, first, raw, k);
      if k + 1 < |runs| { RunSpelled(runs, first, raw, k + 1); }
      var cleared;
      merged, nextBad, cleared := OverlayRun(merged, runs[k], extents, nextBad, end, first, raw);
      clear := clear || cleared;
    }
    assert raw[..|raw|] == raw;
  }

  lemma NothingSpelled(runs: seq<ClusterRun>, first: nat, raw: seq<ClusterState>, bad: seq<Extent>)
    requires |runs| == 0 && Spelled(runs, first, raw)
    ensures Spelled(runs, first, Overlay(raw, first, bad)) && !Disagree(raw, first, bad)
  {
  }

  lemma NothingYet(raw: seq<ClusterState>, first: nat, bad: seq<Extent>)
    requires |raw| == 0
    ensures |Overlay(raw, first, bad)| == 0 && !Disagree(raw, first, bad)
    ensures Spelled([], first, Overlay(raw, first, bad))
  {
  }

  // The extents before begin end at first or before, and those from end on start
  // at last or after.
  lemma OverlapEdges(extents: seq<Extent>, first: nat, last: nat, begin: nat, end: nat)
    requires Apart(extents) && begin <= end <= |extents| && first < last
    requires forall i :: 0 <= i < |extents| ==> (begin <= i < end <==> Meets(extents[i], first, last))
    ensures begin < end ==> forall i :: 0 <= i < begin ==> EndOf(extents[i]) <= first
    ensures begin < end ==> forall i :: end <= i < |extents| ==> extents[i].lcn >= last
  {
    if begin < end {
      EndsSorted(extents, begin);
      EndsSorted(extents, end - 1);
    }
  }

  // -------------------------------------------------------------------------
  // The bits a volume holds, and the windows read from them
  // -------------------------------------------------------------------------

  // The bytes of the bitmap file, its size and the size of a window.
  datatype BitmapFile = BitmapFile(byteAt: nat -> bv8, size: nat, windowBytes: nat)

  // What one read gave: the buffer, and how many leading bytes of it are the
  // file's, or nothing when the read failed.
  datatype Reply = Reply(bytes: seq<bv8>, count: Option<nat>)

  // A read is told apart by its number, its offset and its length.
  type Reader = (nat, nat, nat) -> Reply

  ghost predicate HonestReply(file: BitmapFile, reply: Reply, offset: nat, length: nat) {
    && |reply.bytes| == length
    && (reply.count.Some? ==> forall k: nat :: k < Min(reply.count.value, length) ==> reply.bytes[k] == file.byteAt(offset + k))
  }

  // The bytes a read says it returned are those of the file; it may fail or stop
  // short at any time.
  ghost predicate Honest(file: BitmapFile, reader: Reader) {
    forall serial: nat, offset: nat, length: nat :: HonestReply(file, reader(serial, offset, length), offset, length)
  }

  // No read fails or stops short.
  ghost predicate Reliable(reader: Reader) {
    forall serial: nat, offset: nat, length: nat ::
      reader(serial, offset, length).count.Some? && reader(serial, offset, length).count.value >= length
  }

  // What the file says of a cluster.
  function TrueState(file: BitmapFile, x: nat): ClusterState {
    if Bit(file.byteAt(x / 8), x % 8) then Allocated else ClusterState.Free
  }

  // The state of a cluster for a reader that never fails: what the file says, or
  // unknown past its end.
  function BitState(file: BitmapFile, x: nat): ClusterState {
    if x < BitsOf(file.size) then TrueState(file, x) else ClusterState.Unknown
  }

  // Where a window starts, in bytes of the file.
  function Offset(file: BitmapFile, index: nat): nat {
    index * file.windowBytes
  }

  // The window tells the truth, and is short only when that was remembered.
  ghost predicate WindowOk(file: BitmapFile, w: Window, failed: set<nat>) {
    && Offset(file, w.index) < file.size
    && |w.bytes| == Min(file.windowBytes, file.size - Offset(file, w.index))
    && w.valid <= |w.bytes|
    && (forall k: nat :: k < w.valid ==> w.bytes[k] == file.byteAt(Offset(file, w.index) + k))
    && (w.valid < |w.bytes| ==> w.index in failed)
  }

  // Bits of a whole window.
  function WindowBits(file: BitmapFile): nat {
    8 * file.windowBytes
  }

  // The window of a cluster, for windows of unit bits.
  function WindowIndex(unit: nat, x: nat): nat
    requires unit > 0
  {
    x / unit
  }

  // A cluster that was not judged, though the file has its bit: a read failed.
  predicate Excused(file: BitmapFile, failed: set<nat>, x: nat)
    requires file.windowBytes > 0
  {
    x >= BitsOf(file.size) || |failed| >= MAX_FAILED_WINDOWS || WindowIndex(WindowBits(file), x) in failed
  }

  // Each cluster is as the file says, or unknown for a reason.
  ghost predicate ReadRight(file: BitmapFile, failed: set<nat>, raw: seq<ClusterState>, first: nat)
    requires file.windowBytes > 0
  {
    forall k :: 0 <= k < |raw| ==> RightAt(file, failed, raw[k], first + k)
  }

  predicate RightAt(file: BitmapFile, failed: set<nat>, state: ClusterState, x: nat)
    requires file.windowBytes > 0
  {
    (state == TrueState(file, x) && x < BitsOf(file.size)) || (state == ClusterState.Unknown && Excused(file, failed, x))
  }

  // With no failure, each cluster is as the file says.
  lemma RightWithoutFailure(file: BitmapFile, failed: set<nat>, raw: seq<ClusterState>, first: nat)
    requires file.windowBytes > 0 && failed == {} && ReadRight(file, failed, raw, first)
    ensures forall k :: 0 <= k < |raw| ==> raw[k] == BitState(file, first + k)
  {
    forall k | 0 <= k < |raw| ensures raw[k] == BitState(file, first + k) {
      assert RightAt(file, failed, raw[k], first + k);
    }
  }

  lemma ReadRightAdded(file: BitmapFile, before: set<nat>, after: set<nat>, a: seq<ClusterState>, b: seq<ClusterState>, first: nat)
    requires file.windowBytes > 0 && before <= after
    requires ReadRight(file, before, a, first) && ReadRight(file, after, b, first + |a|)
    ensures ReadRight(file, after, a + b, first)
  {
    assert |before| <= |after| by { SmallerSet(before, after); }
    forall k | 0 <= k < |a + b| ensures RightAt(file, after, (a + b)[k], first + k) {
      if k < |a| {
        assert RightAt(file, before, a[k], first + k);
      } else {
        assert RightAt(file, after, b[k - |a|], first + |a| + (k - |a|));
      }
    }
  }

  lemma WindowStays(file: BitmapFile, w: Window, before: set<nat>, after: set<nat>)
    requires before <= after && WindowOk(file, w, before)
    ensures WindowOk(file, w, after)
  {
  }

  lemma WindowOf(file: BitmapFile, x: nat, unit: nat, index: nat)
    requires unit == WindowBits(file) && unit > 0 && index == WindowIndex(unit, x)
    ensures index * unit == 8 * Offset(file, index)
    ensures index * unit <= x < index * unit + unit
  {
    FloorBounds(x, unit);
    Regroup(index, file.windowBytes);
  }

  lemma Regroup(a: nat, b: nat)
    ensures a * (8 * b) == 8 * (a * b)
  {
  }

  // A window gives the bits of the file.
  lemma WindowBit(file: BitmapFile, w: Window, failed: set<nat>, x: nat)
    requires WindowOk(file, w, failed)
    requires 8 * (Offset(file, w.index)) <= x < 8 * (Offset(file, w.index)) + 8 * w.valid
    ensures StateOfBit(w.bytes, x - 8 * (Offset(file, w.index))) == TrueState(file, x)
  {
    var base := Offset(file, w.index);
    var i := x - 8 * base;
    assert i / 8 < w.valid && x / 8 == base + i / 8 && x % 8 == i % 8;
    assert w.bytes[i / 8] == file.byteAt(base + i / 8);
  }

  // Bytes of the windows kept.
  ghost function HeldBytes(windows: map<nat, Window>): nat {
    if windows == map[] then 0
    else
      var k :| k in windows;
      |windows[k].bytes| + HeldBytes(windows - {k})
  }

  lemma {:induction false} HeldWithout(windows: map<nat, Window>, k: nat)
    requires k in windows
    ensures HeldBytes(windows) == |windows[k].bytes| + HeldBytes(windows - {k})
    decreases |windows|
  {
    var j :| j in windows && HeldBytes(windows) == |windows[j].bytes| + HeldBytes(windows - {j});
    if j != k {
      HeldWithout(windows - {j}, k);
      HeldWithout(windows - {k}, j);
      assert windows - {j} - {k} == windows - {k} - {j};
    }
  }

  // The clusters of a range that were not judged, all of them unknown.
  lemma NothingJudged(raw: seq<ClusterState>, first: nat, last: nat)
    requires first <= last && raw == Same(ClusterState.Unknown, last - first)
    ensures JudgedRaw(JudgedBits(None, 0, first), raw, first, last)
    ensures CountState(raw, ClusterState.Unknown) == |raw| && CountState(raw, Allocated) == 0
      && CountState(raw, ClusterState.Free) == 0 && CountState(raw, ClusterState.Bad) == 0
  {
    CountSameState(ClusterState.Unknown, last - first, ClusterState.Unknown);
    CountSameState(ClusterState.Unknown, last - first, Allocated);
    CountSameState(ClusterState.Unknown, last - first, ClusterState.Free);
    CountSameState(ClusterState.Unknown, last - first, ClusterState.Bad);
  }

  lemma NothingClear(raw: seq<ClusterState>, first: nat, bad: seq<Extent>)
    requires forall k :: 0 <= k < |raw| ==> raw[k] == ClusterState.Unknown
    ensures !Disagree(raw, first, bad)
  {
  }

  // What the judged bits of a range give.
  function RawOf(j: JudgedBits, first: nat, last: nat): seq<ClusterState>
    requires first <= j.stop <= last && WindowHolds(j, first)
  {
    seq(last - first, k requires 0 <= k < last - first =>
      if first + k < j.stop then StateOfBit(j.window.value.bytes, first + k - j.base) else ClusterState.Unknown)
  }

  // Adds up the clusters of [first, last) as they were read, then moves the
  // listed ones. done are the states counted before the range.
  method Judge(counts: Counts, first: nat, last: nat, judged: JudgedBits, bad: Option<seq<Extent>>,
               ghost done: seq<ClusterState>, ghost raw: seq<ClusterState>)
    returns (r: Counts, clear: bool)
    requires first < last <= U64_MAX && JudgedRaw(judged, raw, first, last)
    requires bad.Some? ==> Apart(bad.value)
    requires Matches(counts, done)
    ensures Matches(r, done + Overlay(raw, first, ListOf(bad)))
    ensures r.judged + CountState(raw, ClusterState.Unknown) == counts.judged + |raw|
    ensures clear <==> Disagree(raw, first, ListOf(bad))
  {
    hide CountState;
    hide Overlay;
    hide Disagree;
    hide Apart;
    var seen, set_ := CountJudged(judged, first, last, first, last, raw);
    assert raw[first - first..last - first] == raw;
    r := Counts(counts.inUse + set_, counts.free + (seen - set_), counts.unknown + (last - first - seen), counts.bad, counts.judged + seen);
    CountStateAdded(done, raw, Allocated);
    CountStateAdded(done, raw, ClusterState.Free);
    CountStateAdded(done, raw, ClusterState.Unknown);
    CountStateAdded(done, raw, ClusterState.Bad);
    r, clear := ApplyBad(r, first, last, judged, bad, done, raw);
  }

  // Appends the runs of [first, last) as they were read.
  method AppendJudged(before: seq<ClusterRun>, first: nat, last: nat, judged: JudgedBits,
                      ghost start: nat, ghost done: seq<ClusterState>, ghost raw: seq<ClusterState>)
    returns (runs: seq<ClusterRun>)
    requires first < last && JudgedRaw(judged, raw, first, last)
    requires Spelled(before, start, done) && Maximal(before) && first == start + |done|
    ensures Spelled(runs, start, done + raw) && Maximal(runs)
  {
    hide Spelled;
    ghost var known := KnownStates(judged, first, judged.stop);
    PartStates(judged, raw, first, last, first, last, judged.stop);
    assert raw[first - first..last - first] == raw;
    runs := before;
    if judged.stop > first {
      runs := AppendBitRuns(runs, judged.window.value.bytes, first - judged.base, judged.stop - judged.base, judged.base, start, done);
    } else {
      assert done + known == done;
    }
    runs := AppendRun(runs, judged.stop, last - judged.stop, ClusterState.Unknown, start, done + known);
    assert done + known + Same(ClusterState.Unknown, last - first - |known|) == done + raw;
  }

  // The counters of a range after [first, first + |raw|) of it.
  ghost predicate CountsRight(counts: Counts, raw: seq<ClusterState>, first: nat, bad: seq<Extent>) {
    && Matches(counts, Overlay(raw, first, bad))
    && counts.judged + CountState(raw, ClusterState.Unknown) == |raw|
  }

  lemma CountsGrown(before: Counts, after: Counts, raw: seq<ClusterState>, part: seq<ClusterState>, first: nat, bad: seq<Extent>)
    requires CountsRight(before, raw, first, bad)
    requires Matches(after, Overlay(raw, first, bad) + Overlay(part, first + |raw|, bad))
    requires after.judged + CountState(part, ClusterState.Unknown) == before.judged + |part|
    ensures CountsRight(after, raw + part, first, bad)
  {
    hide CountState;
    OverlayAdded(raw, part, first, bad);
    CountStateAdded(raw, part, ClusterState.Unknown);
  }

  // One more part of a range judged.
  lemma PartJudged(file: BitmapFile, failedBefore: set<nat>, failed: set<nat>, before: Counts, after: Counts,
                   raw: seq<ClusterState>, part: seq<ClusterState>, first: nat, bad: seq<Extent>)
    requires file.windowBytes > 0 && failedBefore <= failed
    requires ReadRight(file, failedBefore, raw, first) && ReadRight(file, failed, part, first + |raw|)
    requires CountsRight(before, raw, first, bad)
    requires Matches(after, Overlay(raw, first, bad) + Overlay(part, first + |raw|, bad))
    requires after.judged + CountState(part, ClusterState.Unknown) == before.judged + |part|
    ensures CountsRight(after, raw + part, first, bad) && ReadRight(file, failed, raw + part, first)
    ensures Disagree(raw + part, first, bad) <==> Disagree(raw, first, bad) || Disagree(part, first + |raw|, bad)
  {
    hide CountState;
    hide Overlay;
    hide Disagree;
    hide ReadRight;
    CountsGrown(before, after, raw, part, first, bad);
    DisagreeAdded(raw, part, first, bad);
    ReadRightAdded(file, failedBefore, failed, raw, part, first);
  }

  ghost predicate Increasing(log: seq<nat>, from: nat) {
    && from <= |log|
    && (forall i, j :: from <= i < j < |log| ==> log[i] < log[j])
  }

  lemma NothingCounted(counts: Counts, raw: seq<ClusterState>, first: nat, bad: seq<Extent>, file: BitmapFile, failed: set<nat>)
    requires counts == Counts(0, 0, 0, 0, 0) && |raw| == 0 && file.windowBytes > 0
    ensures CountsRight(counts, raw, first, bad) && !Disagree(raw, first, bad) && ReadRight(file, failed, raw, first)
  {
  }

  // Nothing of [bit, last) was judged, and it need not be.
  lemma UnjudgedRight(file: BitmapFile, failed: set<nat>, bit: nat, last: nat)
    requires file.windowBytes > 0 && bit <= last
    requires bit >= BitsOf(file.size) || |failed| >= MAX_FAILED_WINDOWS
    ensures ReadRight(file, failed, Same(ClusterState.Unknown, last - bit), bit)
  {
  }

  // The window of a bit of the file starts in it.
  lemma InFile(file: BitmapFile, index: nat, bit: nat)
    requires 8 * Offset(file, index) <= bit < BitsOf(file.size)
    ensures Offset(file, index) < file.size
  {
  }

  // The window lies before bit, whole.
  predicate Before(index: nat, unit: nat, bit: nat) {
    index * unit + unit <= bit
  }

  // The window starts before bit.
  predicate Reached(index: nat, unit: nat, bit: nat) {
    index * unit < bit
  }

  // A window reached is not past the one of bit, and lies before it unless it is
  // that one.
  lemma LastReached(other: nat, unit: nat, bit: nat, index: nat)
    requires index * unit <= bit < index * unit + unit && Reached(other, unit, bit)
    ensures other <= index && (other < index ==> Before(other, unit, bit))
  {
    if other > index {
      ProductMonotone(index + 1, other, unit);
      assert false;
    }
    if other < index {
      ProductMonotone(other + 1, index, unit);
    }
  }

  // The windows read before the one of bit lie before it; all start before stop.
  lemma ReadOnward(log: seq<nat>, from: nat, bit: nat, unit: nat, index: nat, stop: nat)
    requires index * unit <= bit < index * unit + unit && bit < stop
    requires forall i :: from <= i < |log| ==> Reached(log[i], unit, bit)
    ensures Reached(index, unit, stop) && !Before(index, unit, bit)
    ensures forall i :: from <= i < |log| ==>
      log[i] <= index && Reached(log[i], unit, stop) && (log[i] < index ==> Before(log[i], unit, bit) && Before(log[i], unit, stop))
  {
    forall i | from <= i < |log| ensures log[i] <= index && (log[i] < index ==> Before(log[i], unit, bit)) {
      LastReached(log[i], unit, bit, index);
    }
  }

  // The judged bits of one window are right, and the rest is excused.
  lemma SegmentRight(file: BitmapFile, failed: set<nat>, w: Option<Window>, index: nat, unit: nat, bit: nat, stop: nat,
                     judged: JudgedBits, raw: seq<ClusterState>)
    requires file.windowBytes > 0 && unit == WindowBits(file) && unit > 0 && index == WindowIndex(unit, bit)
    requires bit < BitsOf(file.size) && bit < stop <= index * unit + unit
    requires w.Some? ==> w.value.index == index && WindowOk(file, w.value, failed)
    requires w.None? ==> index in failed || |failed| >= MAX_FAILED_WINDOWS
    requires var known := if w.Some? then Min(Min(stop, BitsOf(file.size)), 8 * Offset(file, index) + 8 * w.value.valid) else bit;
      judged == JudgedBits(if known > bit then w else None, 8 * Offset(file, index), Max(bit, known))
    requires WindowHolds(judged, bit) && bit <= judged.stop <= stop && raw == RawOf(judged, bit, stop)
    ensures ReadRight(file, failed, raw, bit)
  {
    hide WindowOk;
    hide BitsOf;
    hide WindowBits;
    hide Offset;
    hide TrueState;
    hide WindowIndex;
    WindowOf(file, bit, unit, index);
    var start := index * unit;
    forall k | 0 <= k < |raw| ensures RightAt(file, failed, raw[k], bit + k) {
      var x := bit + k;
      if x < judged.stop {
        WindowBit(file, w.value, failed, x);
      } else if x < BitsOf(file.size) {
        SameWindow(x, unit, index);
        if w.Some? {
          WindowEnd(file, unit);
          ShortWindow(file, w.value, failed, x);
        }
      }
    }
  }

  lemma SameWindow(x: nat, unit: nat, index: nat)
    requires unit > 0 && index * unit <= x < index * unit + unit
    ensures WindowIndex(unit, x) == index
  {
    FloorBounds(x, unit);
    var q := x / unit;
    if q > index {
      ProductMonotone(index + 1, q, unit);
      assert false;
    }
    if q < index {
      ProductMonotone(q + 1, index, unit);
      assert false;
    }
  }

  lemma WindowEnd(file: BitmapFile, unit: nat)
    requires unit == WindowBits(file)
    ensures unit == 8 * file.windowBytes
  {
  }

  // A cluster of a window past its valid bytes, and still in the file: the window
  // is short.
  lemma ShortWindow(file: BitmapFile, w: Window, failed: set<nat>, x: nat)
    requires WindowOk(file, w, failed)
    requires 8 * Offset(file, w.index) + 8 * w.valid <= x < BitsOf(file.size)
    requires x < 8 * Offset(file, w.index) + 8 * file.windowBytes
    ensures w.index in failed
  {
  }

  // The window holds the bits it is judged by.
  lemma SegmentHolds(file: BitmapFile, failed: set<nat>, w: Window, unit: nat, bit: nat, known: nat)
    requires unit == WindowBits(file) && unit > 0 && w.index == WindowIndex(unit, bit)
    requires WindowOk(file, w, failed)
    requires bit < known <= 8 * Offset(file, w.index) + 8 * w.valid
    ensures WindowHolds(JudgedBits(Some(w), 8 * Offset(file, w.index), known), bit)
  {
    WindowOf(file, bit, unit, w.index);
  }

  lemma NoRuns(runs: seq<ClusterRun>, raw: seq<ClusterState>, first: nat, file: BitmapFile, failed: set<nat>)
    requires |runs| == 0 && |raw| == 0 && file.windowBytes > 0
    ensures Spelled(runs, first, raw) && Maximal(runs) && ReadRight(file, failed, raw, first)
  {
  }

  // The clusters of [lcn, lcn + clusters) that lie in the volume.
  function InVolume(limit: nat, lcn: nat, clusters: nat): nat {
    if lcn >= limit then 0 else Min(clusters, limit - lcn)
  }

  // The states of a range: as read, the listed clusters bad, and out of range
  // past the volume.
  ghost function RangeStates(raw: seq<ClusterState>, lcn: nat, clusters: nat, bad: seq<Extent>): seq<ClusterState>
    requires |raw| <= clusters
  {
    Overlay(raw, lcn, bad) + Same(OutOfRange, clusters - |raw|)
  }

  datatype RangeQuery = RangeQuery(lcn: nat, clusters: nat, state: ClusterState, inUse: nat, free: nat, bad: nat)

  // The state of a range, from the states of its clusters: the first of these
  // that one of them is in.
  ghost function Strongest(states: seq<ClusterState>): ClusterState {
    if Allocated in states then Allocated
    else if ClusterState.Bad in states then ClusterState.Bad
    else if OutOfRange in states then OutOfRange
    else if ClusterState.Unknown in states then ClusterState.Unknown
    else ClusterState.Free
  }

  // The query holds the state and the counts of the clusters it names.
  ghost predicate Answered(q: RangeQuery, file: BitmapFile, failed: set<nat>, bad: seq<Extent>, limit: nat)
    requires file.windowBytes > 0
  {
    exists raw: seq<ClusterState> :: |raw| == InVolume(limit, q.lcn, q.clusters) && ReadRight(file, failed, raw, q.lcn) && HoldsCounts(q, raw, bad)
  }

  ghost predicate HoldsCounts(q: RangeQuery, raw: seq<ClusterState>, bad: seq<Extent>)
    requires |raw| <= q.clusters
  {
    var states := RangeStates(raw, q.lcn, q.clusters, bad);
    && q.state == Strongest(states)
    && q.inUse == CountState(states, Allocated)
    && q.free == CountState(states, ClusterState.Free)
    && q.bad == CountState(states, ClusterState.Bad)
  }

  // No cluster of the range lies in the volume.
  lemma NothingInVolume(lcn: nat, clusters: nat, file: BitmapFile, failed: set<nat>, bad: seq<Extent>)
    requires file.windowBytes > 0
    ensures var none: seq<ClusterState> := [];
      && ReadRight(file, failed, none, lcn)
      && HoldsCounts(RangeQuery(lcn, clusters, if clusters == 0 then ClusterState.Free else OutOfRange, 0, 0, 0), none, bad)
  {
    var none: seq<ClusterState> := [];
    var states := RangeStates(none, lcn, clusters, bad);
    assert states == Same(OutOfRange, clusters);
    CountSameState(OutOfRange, clusters, Allocated);
    CountSameState(OutOfRange, clusters, ClusterState.Free);
    CountSameState(OutOfRange, clusters, ClusterState.Bad);
    if clusters > 0 { assert states[0] == OutOfRange; }
  }

  // The answer is what the counters say of the part in the volume.
  lemma AnswerIs(q: RangeQuery, counts: Counts, file: BitmapFile, failed: set<nat>, raw: seq<ClusterState>, bad: seq<Extent>)
    requires file.windowBytes > 0 && 0 < |raw| <= q.clusters && ReadRight(file, failed, raw, q.lcn)
    requires CountsRight(counts, raw, q.lcn, bad)
    requires q.inUse == counts.inUse && q.free == counts.free && q.bad == counts.bad
    requires q.state == if counts.inUse > 0 then Allocated
        else if counts.bad > 0 then ClusterState.Bad
        else if q.clusters > |raw| then OutOfRange
        else if counts.unknown > 0 then ClusterState.Unknown
        else ClusterState.Free
    ensures HoldsCounts(q, raw, bad)
  {
    hide CountState;
    var over, rest := Overlay(raw, q.lcn, bad), Same(OutOfRange, q.clusters - |raw|);
    CountRest(over, q.clusters - |raw|, Allocated);
    CountRest(over, q.clusters - |raw|, ClusterState.Free);
    CountRest(over, q.clusters - |raw|, ClusterState.Bad);
    CountRest(over, q.clusters - |raw|, ClusterState.Unknown);
    CountPositive(over + rest, Allocated);
    CountPositive(over + rest, ClusterState.Bad);
    CountPositive(over + rest, ClusterState.Unknown);
    assert OutOfRange in over + rest <==> q.clusters > |raw| by {
      forall k | 0 <= k < |raw| ensures over[k] != OutOfRange {
        assert RightAt(file, failed, raw[k], q.lcn + k);
      }
      if q.clusters > |raw| { assert (over + rest)[|raw|] == OutOfRange; }
    }
  }

  lemma CountRest(states: seq<ClusterState>, n: nat, s: ClusterState)
    requires s != OutOfRange
    ensures CountState(states + Same(OutOfRange, n), s) == CountState(states, s)
  {
    CountStateAdded(states, Same(OutOfRange, n), s);
    CountSameState(OutOfRange, n, s);
  }

  // An answer stays right while more windows fail.
  lemma AnswerStays(q: RangeQuery, file: BitmapFile, before: set<nat>, after: set<nat>, bad: seq<Extent>, limit: nat)
    requires file.windowBytes > 0 && before <= after && Answered(q, file, before, bad, limit)
    ensures Answered(q, file, after, bad, limit)
  {
    hide HoldsCounts;
    var raw: seq<ClusterState> :| |raw| == InVolume(limit, q.lcn, q.clusters) && ReadRight(file, before, raw, q.lcn) && HoldsCounts(q, raw, bad);
    SmallerSet(before, after);
    forall k | 0 <= k < |raw| ensures RightAt(file, after, raw[k], q.lcn + k) {
      assert RightAt(file, before, raw[k], q.lcn + k);
    }
  }

  // With a reader that never fails, the answer is that of the clusters' own
  // states.
  lemma AnswerWithoutFailure(q: RangeQuery, file: BitmapFile, bad: seq<Extent>, limit: nat)
    requires file.windowBytes > 0 && Answered(q, file, {}, bad, limit)
    ensures HoldsCounts(q, FileStates(file, q.lcn, InVolume(limit, q.lcn, q.clusters)), bad)
  {
    hide HoldsCounts;
    hide ReadRight;
    var raw: seq<ClusterState> :| |raw| == InVolume(limit, q.lcn, q.clusters) && ReadRight(file, {}, raw, q.lcn) && HoldsCounts(q, raw, bad);
    RightWithoutFailure(file, {}, raw, q.lcn);
    assert raw == FileStates(file, q.lcn, |raw|);
  }

  // What the file says of [first, first + n).
  function FileStates(file: BitmapFile, first: nat, n: nat): seq<ClusterState> {
    seq(n, k requires 0 <= k < n => BitState(file, first + k))
  }

  // The state of a cluster: out of range past the volume, else bad when listed,
  // else as its bit says.
  ghost function VolumeState(file: BitmapFile, limit: nat, bad: seq<Extent>): nat -> ClusterState {
    (x: nat) => if x >= limit then OutOfRange else if Listed(bad, x) then ClusterState.Bad else BitState(file, x)
  }

  // With a reader that never fails, the runs of a range give each cluster its own
  // state.
  lemma RunsWithoutFailure(runs: seq<ClusterRun>, file: BitmapFile, raw: seq<ClusterState>, lcn: nat, clusters: nat,
                           bad: seq<Extent>, limit: nat)
    requires file.windowBytes > 0 && |raw| == InVolume(limit, lcn, clusters) && ReadRight(file, {}, raw, lcn)
    requires Spelled(runs, lcn, RangeStates(raw, lcn, clusters, bad))
    ensures RunsTile(runs, lcn, lcn + clusters, VolumeState(file, limit, bad))
  {
    RightWithoutFailure(file, {}, raw, lcn);
    var states := RangeStates(raw, lcn, clusters, bad);
    forall x: nat | lcn <= x < lcn + |states| ensures VolumeState(file, limit, bad)(x) == states[x - lcn] {
      if x < limit {
        assert raw[x - lcn] == BitState(file, lcn + (x - lcn));
      }
    }
    SpelledTiles(runs, lcn, states, VolumeState(file, limit, bad));
  }

  // Every cluster of a range is counted once, under its state.
  lemma CountsAddUp(counts: Counts, file: BitmapFile, failed: set<nat>, raw: seq<ClusterState>, first: nat, bad: seq<Extent>)
    requires file.windowBytes > 0 && ReadRight(file, failed, raw, first) && CountsRight(counts, raw, first, bad)
    ensures counts.inUse + counts.free + counts.unknown + counts.bad == |raw|
  {
    var over := Overlay(raw, first, bad);
    forall k | 0 <= k < |raw| ensures over[k] != OutOfRange {
      assert RightAt(file, failed, raw[k], first + k);
    }
    AllCounted(over);
  }

  lemma {:induction false} AllCounted(states: seq<ClusterState>)
    requires forall k :: 0 <= k < |states| ==> states[k] != OutOfRange
    ensures CountState(states, Allocated) + CountState(states, ClusterState.Free)
      + CountState(states, ClusterState.Unknown) + CountState(states, ClusterState.Bad) == |states|
  {
    if states != [] {
      AllCounted(states[..|states| - 1]);
    }
  }

  // Where the windows are read up to, after a query.
  function EndAfter(upTo: nat, lcn: nat, clusters: nat): nat {
    if clusters == 0 then upTo else Max(upTo, lcn + clusters)
  }

  predicate SameRange(a: RangeQuery, b: RangeQuery) {
    a.lcn == b.lcn && a.clusters == b.clusters
  }

  // A query that names clusters names none before upTo.
  predicate StartsFrom(q: RangeQuery, upTo: nat) {
    q.clusters > 0 ==> q.lcn >= upTo
  }

  predicate Share(a: RangeQuery, b: RangeQuery) {
    a.clusters > 0 && b.clusters > 0 && a.lcn < b.lcn + b.clusters && b.lcn < a.lcn + a.clusters
  }

  // No two queries name the same cluster.
  ghost predicate QueriesApart(asked: seq<RangeQuery>) {
    forall i, j :: 0 <= i < j < |asked| ==> !Share(asked[i], asked[j])
  }

  function Indices(n: nat): seq<nat> {
    seq(n, i requires 0 <= i < n => i as nat)
  }

  function LcnAt(asked: seq<RangeQuery>, i: nat): nat {
    if i < |asked| then asked[i].lcn else 0
  }

  function ByLcn(asked: seq<RangeQuery>): (nat, nat) -> bool {
    (a: nat, b: nat) => LcnAt(asked, a) <= LcnAt(asked, b)
  }

  // The order names every query, each once, by LCN.
  lemma OrderHolds(asked: seq<RangeQuery>, order: seq<nat>)
    requires order == Sort(Indices(|asked|), ByLcn(asked))
    ensures |order| == |asked|
    ensures forall k :: 0 <= k < |order| ==> order[k] < |asked|
    ensures forall i :: 0 <= i < |asked| ==> i in order
    ensures forall j, k :: 0 <= j < k < |order| ==> order[j] != order[k] && asked[order[j]].lcn <= asked[order[k]].lcn
  {
    var all := Indices(|asked|);
    var differ := (a: nat, b: nat) => a != b;
    SortSorts(all, ByLcn(asked));
    SortPairwise(all, ByLcn(asked), differ);
    forall k | 0 <= k < |order| ensures order[k] < |asked| {
      assert order[k] in all;
    }
    forall i | 0 <= i < |asked| ensures i in order {
      assert all[i] == i;
    }
    forall j, k | 0 <= j < k < |order| ensures order[j] != order[k] && asked[order[j]].lcn <= asked[order[k]].lcn {
      assert differ(order[j], order[k]);
      assert ByLcn(asked)(order[j], order[k]);
    }
  }

  // The queries from place k of the order on name nothing before upTo.
  ghost predicate ApartFrom(asked: seq<RangeQuery>, order: seq<nat>, k: nat, upTo: nat)
    requires forall j :: 0 <= j < |order| ==> order[j] < |asked|
  {
    forall j :: k <= j < |order| ==> StartsFrom(asked[order[j]], upTo)
  }

  // Past one query, the next ones still name nothing that was read up to.
  lemma NextStarts(asked: seq<RangeQuery>, order: seq<nat>, k: nat, upTo: nat)
    requires QueriesApart(asked) && k < |order|
    requires forall j :: 0 <= j < |order| ==> order[j] < |asked|
    requires forall i, j :: 0 <= i < j < |order| ==> order[i] != order[j] && asked[order[i]].lcn <= asked[order[j]].lcn
    requires ApartFrom(asked, order, k, upTo)
    ensures StartsFrom(asked[order[k]], upTo)
    ensures ApartFrom(asked, order, k + 1, EndAfter(upTo, asked[order[k]].lcn, asked[order[k]].clusters))
  {
    var q := asked[order[k]];
    forall j | k + 1 <= j < |order| ensures StartsFrom(asked[order[j]], EndAfter(upTo, q.lcn, q.clusters)) {
      assert StartsFrom(asked[order[j]], upTo);
      assert !Share(q, asked[order[j]]) by {
        if order[k] < order[j] {
          assert !Share(asked[order[k]], asked[order[j]]);
        } else {
          assert !Share(asked[order[j]], asked[order[k]]);
        }
      }
    }
  }

  // The first k queries of the order are answered; all still name their clusters.
  ghost predicate AnsweredSoFar(now: seq<RangeQuery>, asked: seq<RangeQuery>, order: seq<nat>, k: nat,
                                file: BitmapFile, failed: set<nat>, bad: seq<Extent>, limit: nat)
    requires file.windowBytes > 0
  {
    && |now| == |asked|
    && (forall i :: 0 <= i < |asked| ==> SameRange(now[i], asked[i]))
    && (forall j :: 0 <= j < k && j < |order| && order[j] < |now| ==> Answered(now[order[j]], file, failed, bad, limit))
  }

  lemma NoneAnswered(asked: seq<RangeQuery>, order: seq<nat>, file: BitmapFile, failed: set<nat>, bad: seq<Extent>, limit: nat)
    requires file.windowBytes > 0
    ensures AnsweredSoFar(asked, asked, order, 0, file, failed, bad, limit)
    requires forall j :: 0 <= j < |order| ==> order[j] < |asked|
    ensures ApartFrom(asked, order, 0, 0)
  {
  }

  lemma SameAt(now: seq<RangeQuery>, asked: seq<RangeQuery>, order: seq<nat>, k: nat, at: nat,
               file: BitmapFile, failed: set<nat>, bad: seq<Extent>, limit: nat)
    requires file.windowBytes > 0 && AnsweredSoFar(now, asked, order, k, file, failed, bad, limit) && at < |asked|
    ensures at < |now| && SameRange(now[at], asked[at])
  {
  }

  lemma OneMoreAnswered(now: seq<RangeQuery>, q: RangeQuery, asked: seq<RangeQuery>, order: seq<nat>, k: nat,
                        file: BitmapFile, before: set<nat>, after: set<nat>, bad: seq<Extent>, limit: nat)
    requires file.windowBytes > 0 && before <= after && k < |order| && order[k] < |asked|
    requires AnsweredSoFar(now, asked, order, k, file, before, bad, limit)
    requires SameRange(q, asked[order[k]]) && Answered(q, file, after, bad, limit)
    ensures order[k] < |now| && AnsweredSoFar(now[order[k] := q], asked, order, k + 1, file, after, bad, limit)
  {
    hide Answered;
    var next := now[order[k] := q];
    forall j | 0 <= j < k + 1 && order[j] < |next| ensures Answered(next[order[j]], file, after, bad, limit) {
      if order[j] != order[k] {
        AnswerStays(now[order[j]], file, before, after, bad, limit);
      }
    }
  }

  lemma AllAnswered(now: seq<RangeQuery>, asked: seq<RangeQuery>, order: seq<nat>,
                    file: BitmapFile, failed: set<nat>, bad: seq<Extent>, limit: nat)
    requires file.windowBytes > 0 && AnsweredSoFar(now, asked, order, |order|, file, failed, bad, limit)
    requires forall i :: 0 <= i < |asked| ==> i in order
    ensures |now| == |asked|
    ensures forall i :: 0 <= i < |asked| ==> SameRange(now[i], asked[i]) && Answered(now[i], file, failed, bad, limit)
  {
    hide Answered;
    forall i | 0 <= i < |asked| ensures Answered(now[i], file, failed, bad, limit) {
      assert i in order;
      var j :| 0 <= j < |order| && order[j] == i;
    }
  }

  datatype SpaceSummary = SpaceSummary(total: nat, free: nat, freeBytes: nat, unknown: nat, bad: nat, badBytes: nat)

  // Bytes of some clusters, saturated when the product overflows.
  function SizeOf(clusters: nat, clusterSize: nat): nat {
    if clusterSize != 0 && clusters > U64_MAX / clusterSize then U64_MAX else clusters * clusterSize
  }

  lemma SizeMeans(clusters: nat, clusterSize: nat)
    ensures SizeOf(clusters, clusterSize) == Min(U64_MAX, clusters * clusterSize)
  {
    if clusterSize > 0 {
      FloorBounds(U64_MAX, clusterSize);
      if clusters > U64_MAX / clusterSize {
        ProductMonotone(U64_MAX / clusterSize + 1, clusters, clusterSize);
      } else {
        ProductMonotone(clusters, U64_MAX / clusterSize, clusterSize);
      }
    }
  }

  // The summary counts the states.
  ghost predicate Summarises(s: SpaceSummary, states: seq<ClusterState>, clusterSize: nat) {
    && s.total == |states|
    && s.free == CountState(states, ClusterState.Free)
    && s.unknown == CountState(states, ClusterState.Unknown)
    && s.bad == CountState(states, ClusterState.Bad)
    && s.freeBytes == SizeOf(s.free, clusterSize) && s.badBytes == SizeOf(s.bad, clusterSize)
  }

  lemma {:induction false} AllUnknown(states: seq<ClusterState>)
    ensures CountState(states, ClusterState.Unknown) <= |states|
    ensures CountState(states, ClusterState.Unknown) == |states| <==> forall k :: 0 <= k < |states| ==> states[k] == ClusterState.Unknown
  {
    if states != [] {
      AllUnknown(states[..|states| - 1]);
    }
  }

  // -------------------------------------------------------------------------
  // Which windows a list of queries reads when none is kept
  // -------------------------------------------------------------------------

  // A window visited: read, unless it was the last one read.
  function Visit(trail: seq<nat>, index: nat): seq<nat> {
    if |trail| > 0 && trail[|trail| - 1] == index then trail else trail + [index]
  }

  // The window of a bit.
  function WindowAt(file: BitmapFile, bit: nat): nat {
    if WindowBits(file) == 0 then 0 else WindowIndex(WindowBits(file), bit)
  }

  predicate InOneWindow(file: BitmapFile, bit: nat, stop: nat) {
    bit < stop && WindowAt(file, stop - 1) == WindowAt(file, bit)
  }

  predicate WindowStarts(file: BitmapFile, bit: nat) {
    bit > 0 && WindowAt(file, bit) == WindowAt(file, bit - 1) + 1
  }

  // The windows from one to another visited in order.
  function VisitAll(trail: seq<nat>, a: nat, b: nat): seq<nat>
    decreases b
  {
    if b < a then trail else if b == a then Visit(trail, a) else Visit(VisitAll(trail, a, b - 1), b)
  }

  // Those of a range of bits, as far as the file holds them.
  function VisitBits(file: BitmapFile, trail: seq<nat>, first: nat, last: nat): seq<nat> {
    var end := Min(last, BitsOf(file.size));
    if end <= first then trail else VisitAll(trail, WindowAt(file, first), WindowAt(file, end - 1))
  }

  function VisitRange(file: BitmapFile, limit: nat, trail: seq<nat>, lcn: nat, clusters: nat): seq<nat> {
    if clusters == 0 || lcn >= limit then trail else VisitBits(file, trail, lcn, Min(limit, lcn + clusters))
  }

  // The seed is the window held before, if there is one.
  function VisitQueries(file: BitmapFile, limit: nat, seed: seq<nat>, queries: seq<RangeQuery>): seq<nat> {
    if |queries| == 0 then seed
    else
      var q := queries[|queries| - 1];
      VisitRange(file, limit, VisitQueries(file, limit, seed, queries[..|queries| - 1]), q.lcn, q.clusters)
  }

  function Picked(asked: seq<RangeQuery>, order: seq<nat>, n: nat): seq<RangeQuery>
    requires n <= |order| && forall k :: 0 <= k < |order| ==> order[k] < |asked|
  {
    if n == 0 then [] else Picked(asked, order, n - 1) + [asked[order[n - 1]]]
  }

  lemma PickedNone(asked: seq<RangeQuery>, order: seq<nat>)
    requires forall k :: 0 <= k < |order| ==> order[k] < |asked|
    ensures |Picked(asked, order, 0)| == 0
  {
  }

  lemma PickedMore(asked: seq<RangeQuery>, order: seq<nat>, n: nat)
    requires n < |order| && forall k :: 0 <= k < |order| ==> order[k] < |asked|
    ensures Picked(asked, order, n + 1) == Picked(asked, order, n) + [asked[order[n]]]
  {
  }

  // The queries in the order they are answered.
  function InLcnOrder(asked: seq<RangeQuery>): seq<RangeQuery> {
    var order := Sort(Indices(|asked|), ByLcn(asked));
    OrderHolds(asked, order);
    Picked(asked, order, |order|)
  }

  lemma VisitNone(file: BitmapFile, trail: seq<nat>, first: nat)
    ensures VisitBits(file, trail, first, first) == trail
  {
  }

  lemma VisitPast(file: BitmapFile, trail: seq<nat>, first: nat, bit: nat, last: nat)
    requires BitsOf(file.size) <= bit <= last
    ensures VisitBits(file, trail, first, last) == VisitBits(file, trail, first, bit)
  {
  }

  // One more part of a range, in one window.
  lemma VisitMore(file: BitmapFile, trail: seq<nat>, first: nat, bit: nat, stop: nat)
    requires file.windowBytes > 0 && first <= bit < BitsOf(file.size) && InOneWindow(file, bit, stop)
    requires bit == first || WindowStarts(file, bit)
    ensures VisitBits(file, trail, first, stop) == Visit(VisitBits(file, trail, first, bit), WindowAt(file, bit))
  {
    hide WindowIndex;
    var unit := WindowBits(file);
    var end := Min(stop, BitsOf(file.size));
    WindowOrder(unit, bit, end - 1);
    WindowOrder(unit, end - 1, stop - 1);
    WindowOrder(unit, first, bit);
    if bit > first { WindowOrder(unit, first, bit - 1); }
  }

  lemma WindowOrder(unit: nat, x: nat, y: nat)
    requires unit > 0 && x <= y
    ensures WindowIndex(unit, x) <= WindowIndex(unit, y)
  {
    QuotientMonotone(x, y, unit);
  }

  // A part of a range ends where its window does, or where the range does.
  lemma WindowEnds(file: BitmapFile, bit: nat, stop: nat)
    requires file.windowBytes > 0 && bit < stop
    requires stop <= WindowAt(file, bit) * WindowBits(file) + WindowBits(file)
    ensures InOneWindow(file, bit, stop)
    ensures stop == WindowAt(file, bit) * WindowBits(file) + WindowBits(file) ==> WindowStarts(file, stop)
  {
    var unit := WindowBits(file);
    var index := WindowAt(file, bit);
    FloorBounds(bit, unit);
    QuotientIs(stop - 1, index, unit);
    if stop == index * unit + unit { QuotientIs(stop, index + 1, unit); }
  }

  lemma VisitedNone(file: BitmapFile, limit: nat, seed: seq<nat>, none: seq<RangeQuery>)
    requires |none| == 0
    ensures VisitQueries(file, limit, seed, none) == seed
  {
  }

  lemma VisitedMore(file: BitmapFile, limit: nat, seed: seq<nat>, queries: seq<RangeQuery>, q: RangeQuery)
    ensures VisitQueries(file, limit, seed, queries + [q]) == VisitRange(file, limit, VisitQueries(file, limit, seed, queries), q.lcn, q.clusters)
  {
    assert (queries + [q])[..|queries|] == queries;
  }

  // The windows that a query visits, from the first to the last.
  datatype Span = Span(first: nat, last: nat)

  function SpansOf(file: BitmapFile, limit: nat, queries: seq<RangeQuery>): seq<Span> {
    if |queries| == 0 then []
    else SpansOf(file, limit, queries[..|queries| - 1]) + SpanOf(file, limit, queries[|queries| - 1])
  }

  // A query that names no cluster of the volume that the file has a bit for
  // visits none.
  function SpanOf(file: BitmapFile, limit: nat, q: RangeQuery): seq<Span> {
    var end := Min(Min(limit, q.lcn + q.clusters), BitsOf(file.size));
    if q.clusters == 0 || end <= q.lcn then [] else [Span(WindowAt(file, q.lcn), WindowAt(file, end - 1))]
  }

  function VisitSpans(seed: seq<nat>, spans: seq<Span>): seq<nat> {
    if |spans| == 0 then seed
    else VisitAll(VisitSpans(seed, spans[..|spans| - 1]), spans[|spans| - 1].first, spans[|spans| - 1].last)
  }

  lemma {:induction false} SpansVisited(file: BitmapFile, limit: nat, seed: seq<nat>, queries: seq<RangeQuery>)
    ensures VisitQueries(file, limit, seed, queries) == VisitSpans(seed, SpansOf(file, limit, queries))
  {
    hide VisitAll, WindowAt, VisitRange, SpanOf, VisitSpans;
    if |queries| > 0 {
      var front, q := queries[..|queries| - 1], queries[|queries| - 1];
      SpansVisited(file, limit, seed, front);
      SpanVisited(file, limit, seed, SpansOf(file, limit, front), q);
    } else {
      NoSpans(seed, SpansOf(file, limit, queries));
    }
  }

  lemma NoSpans(seed: seq<nat>, spans: seq<Span>)
    ensures |spans| == 0 ==> VisitSpans(seed, spans) == seed
  {
  }

  lemma SpanVisited(file: BitmapFile, limit: nat, seed: seq<nat>, spans: seq<Span>, q: RangeQuery)
    ensures VisitSpans(seed, spans + SpanOf(file, limit, q)) == VisitRange(file, limit, VisitSpans(seed, spans), q.lcn, q.clusters)
  {
    hide VisitAll, WindowAt;
    var one := SpanOf(file, limit, q);
    if |one| > 0 {
      assert (spans + one)[..|spans|] == spans;
    } else {
      assert spans + one == spans;
    }
  }

  // Each span starts where the one before does, or later.
  predicate InSpanOrder(spans: seq<Span>) {
    && (forall k :: 0 <= k < |spans| ==> spans[k].first <= spans[k].last)
    && (forall k :: 0 <= k < |spans| - 1 ==> spans[k].first <= spans[k + 1].first)
  }

  // Each span starts in the window where the one before ends, or later.
  predicate StepsOn(spans: seq<Span>) {
    forall k :: 0 <= k < |spans| - 1 ==> spans[k].last <= spans[k + 1].first
  }

  // Past the first k windows of the trail, none occurs twice.
  predicate NoRepeat(trail: seq<nat>, k: nat) {
    forall i, j :: k <= i < j < |trail| ==> trail[i] != trail[j]
  }

  // The one way back that a held window allows: the first span starts in it, one
  // span leaves it, the next goes back to it alone, and the later ones stay in it
  // or start past what was read.
  predicate TurnsBack(spans: seq<Span>, h: nat, k: nat) {
    && k < |spans| - 1 && spans[0].first == h && spans[k + 1].first == h < spans[k].last
    && (forall j :: k < j < |spans| ==> spans[j] == Span(h, h) || spans[k].last < spans[j].first)
    && (forall j :: 0 <= j < |spans| - 1 && j != k ==> spans[j].last <= spans[j + 1].first)
  }

  predicate TurnsBackOnce(spans: seq<Span>, h: nat) {
    exists k: nat :: k < |spans| && TurnsBack(spans, h, k)
  }

  predicate Rising(trail: seq<nat>) {
    forall i, j :: 0 <= i < j < |trail| ==> trail[i] < trail[j]
  }

  lemma {:induction false} VisitGrows(trail: seq<nat>, a: nat, b: nat)
    requires a <= b
    ensures var now := VisitAll(trail, a, b); |now| > 0 && now[|now| - 1] == b && |trail| <= |now| && forall i :: 0 <= i < |trail| ==> now[i] == trail[i]
    decreases b
  {
    if a < b { VisitGrows(trail, a, b - 1); }
  }

  lemma {:induction false} VisitHolds(trail: seq<nat>, a: nat, b: nat, x: nat)
    requires a <= b
    ensures x in VisitAll(trail, a, b) <==> x in trail || a <= x <= b
    decreases b
  {
    hide VisitAll;
    VisitStep(trail, a, b);
    if a < b {
      VisitHolds(trail, a, b - 1, x);
      VisitOneHolds(VisitAll(trail, a, b - 1), b, x);
    } else {
      VisitOneHolds(trail, b, x);
    }
  }

  lemma VisitStep(trail: seq<nat>, a: nat, b: nat)
    requires a <= b
    ensures VisitAll(trail, a, b) == Visit(if a < b then VisitAll(trail, a, b - 1) else trail, b)
  {
  }

  lemma VisitOneHolds(trail: seq<nat>, index: nat, x: nat)
    ensures x in Visit(trail, index) <==> x in trail || x == index
  {
    if |trail| > 0 && trail[|trail| - 1] == index {
      assert index in trail;
    }
  }

  lemma {:induction false} VisitRises(trail: seq<nat>, a: nat, b: nat)
    requires a <= b && Rising(trail) && (|trail| > 0 ==> trail[|trail| - 1] <= a)
    ensures Rising(VisitAll(trail, a, b))
    decreases b
  {
    hide VisitAll;
    VisitStep(trail, a, b);
    if a < b {
      VisitRises(trail, a, b - 1);
      VisitGrows(trail, a, b - 1);
    }
  }

  lemma {:induction false} StepsOnRises(spans: seq<Span>)
    requires InSpanOrder(spans) && StepsOn(spans)
    ensures Rising(VisitSpans([], spans))
    ensures |spans| > 0 ==> |VisitSpans([], spans)| > 0 && VisitSpans([], spans)[|VisitSpans([], spans)| - 1] == spans[|spans| - 1].last
    ensures |spans| == 0 ==> VisitSpans([], spans) == []
  {
    hide VisitAll;
    if |spans| > 0 {
      var front, last := spans[..|spans| - 1], spans[|spans| - 1];
      StepsOnRises(front);
      VisitRises(VisitSpans([], front), last.first, last.last);
      VisitGrows(VisitSpans([], front), last.first, last.last);
    }
  }

  // A window left behind is read again by the query that starts in it.
  lemma LeftBehind(trail: seq<nat>, k: nat, i: nat, a: nat, b: nat)
    requires a <= b && k <= i < |trail| && trail[|trail| - 1] != a && trail[i] == a
    ensures !NoRepeat(VisitAll(trail, a, b), k)
  {
    hide VisitAll;
    var at := FirstVisit(trail, a, b);
    VisitGrows(trail, a, b);
    assert VisitAll(trail, a, b)[i] == a;
  }

  lemma {:induction false} FirstVisit(trail: seq<nat>, a: nat, b: nat) returns (at: nat)
    requires a <= b && |trail| > 0 && trail[|trail| - 1] != a
    ensures at == |trail| < |VisitAll(trail, a, b)| && VisitAll(trail, a, b)[at] == a
    decreases b
  {
    at := |trail|;
    if a < b { var same := FirstVisit(trail, a, b - 1); }
  }

  // What a front of the spans repeats, the spans repeat.
  lemma RepeatGrows(trail: seq<nat>, k: nat, a: nat, b: nat)
    requires a <= b && !NoRepeat(trail, k)
    ensures !NoRepeat(VisitAll(trail, a, b), k)
  {
    hide VisitAll;
    VisitGrows(trail, a, b);
    var i, j :| k <= i < j < |trail| && trail[i] == trail[j];
    assert VisitAll(trail, a, b)[i] == VisitAll(trail, a, b)[j];
  }

  lemma {:induction false} RepeatStays(spans: seq<Span>)
    requires InSpanOrder(spans) && !StepsOn(spans)
    ensures !NoRepeat(VisitSpans([], spans), 0)
  {
    hide VisitAll, NoRepeat;
    var front, last := spans[..|spans| - 1], spans[|spans| - 1];
    var trail := VisitSpans([], front);
    if StepsOn(front) {
      var i := VisitedAt(front, |front| - 1, last.first);
      StepsOnRises(front);
      LeftBehind(trail, 0, i, last.first, last.last);
    } else {
      RepeatStays(front);
      RepeatGrows(trail, 0, last.first, last.last);
    }
  }

  // The windows of every span are visited.
  lemma {:induction false} VisitedAt(spans: seq<Span>, j: nat, x: nat) returns (i: nat)
    requires j < |spans| && spans[j].first <= x <= spans[j].last
    requires forall k :: 0 <= k < |spans| ==> spans[k].first <= spans[k].last
    ensures i < |VisitSpans([], spans)| && VisitSpans([], spans)[i] == x
  {
    hide VisitAll;
    var front, last := spans[..|spans| - 1], spans[|spans| - 1];
    var trail := VisitSpans([], front);
    VisitGrows(trail, last.first, last.last);
    if j < |front| {
      i := VisitedAt(front, j, x);
    } else {
      VisitHolds(trail, last.first, last.last, x);
      i :| 0 <= i < |VisitSpans([], spans)| && VisitSpans([], spans)[i] == x;
    }
  }

  // The first window visited and the last.
  lemma {:induction false} VisitEnds(spans: seq<Span>)
    requires |spans| > 0 && forall k :: 0 <= k < |spans| ==> spans[k].first <= spans[k].last
    ensures var trail := VisitSpans([], spans); |trail| > 0 && trail[0] == spans[0].first && trail[|trail| - 1] == spans[|spans| - 1].last
  {
    hide VisitAll;
    var front, last := spans[..|spans| - 1], spans[|spans| - 1];
    var trail := VisitSpans([], front);
    VisitGrows(trail, last.first, last.last);
    if |front| > 0 { VisitEnds(front); } else { VisitStarts(last.first, last.last); }
  }

  lemma {:induction false} VisitStarts(a: nat, b: nat)
    requires a <= b
    ensures |VisitAll([], a, b)| > 0 && VisitAll([], a, b)[0] == a
    decreases b
  {
    if a < b { VisitStarts(a, b - 1); }
  }

  // -------------------------------------------------------------------------
  // What a held window changes
  // -------------------------------------------------------------------------

  lemma {:induction false} SeedFirst(seed: seq<nat>, trail: seq<nat>, a: nat, b: nat)
    requires a <= b && (|trail| > 0 || |seed| == 0 || seed[|seed| - 1] != a)
    ensures VisitAll(seed + trail, a, b) == seed + VisitAll(trail, a, b)
    decreases b
  {
    hide VisitAll, Visit;
    VisitStep(trail, a, b);
    VisitStep(seed + trail, a, b);
    if a < b {
      SeedFirst(seed, trail, a, b - 1);
      VisitGrows(trail, a, b - 1);
      SeedFirstOne(seed, VisitAll(trail, a, b - 1), b);
    } else {
      SeedFirstOne(seed, trail, b);
    }
  }

  lemma SeedFirstOne(seed: seq<nat>, trail: seq<nat>, index: nat)
    requires |trail| > 0 || |seed| == 0 || seed[|seed| - 1] != index
    ensures Visit(seed + trail, index) == seed + Visit(trail, index)
  {
    assert seed + trail + [index] == seed + (trail + [index]);
    if |trail| == 0 { assert seed + trail == seed; }
  }

  lemma {:induction false} SeedTaken(h: nat, b: nat)
    requires h <= b
    ensures VisitAll([h], h, b) == VisitAll([], h, b)
    decreases b
  {
    if h < b { SeedTaken(h, b - 1); }
  }

  // The trail takes the held window up, or follows it.
  lemma {:induction false} Seeded(seed: seq<nat>, spans: seq<Span>)
    requires |seed| <= 1 && forall k :: 0 <= k < |spans| ==> spans[k].first <= spans[k].last
    ensures VisitSpans(seed, spans) == if |spans| > 0 && seed == [spans[0].first] then VisitSpans([], spans) else seed + VisitSpans([], spans)
  {
    hide VisitAll;
    if |spans| > 0 {
      var front, last := spans[..|spans| - 1], spans[|spans| - 1];
      Seeded(seed, front);
      if |front| > 0 {
        VisitEnds(front);
        SeedFirst(seed, VisitSpans([], front), last.first, last.last);
      } else if seed == [last.first] {
        SeedTaken(last.first, last.last);
      } else {
        SeedFirst(seed, [], last.first, last.last);
        assert seed + [] == seed;
      }
    } else {
      assert seed + [] == seed;
    }
  }

  // Visiting windows past those of the trail repeats none.
  lemma {:induction false} VisitFresh(trail: seq<nat>, a: nat, b: nat)
    requires a <= b && |trail| > 0 && NoRepeat(trail, 1) && trail[|trail| - 1] <= a && forall i :: 0 <= i < |trail| - 1 ==> trail[i] < a
    ensures var now := VisitAll(trail, a, b); NoRepeat(now, 1) && |now| > 0 && now[|now| - 1] == b && forall i :: 0 <= i < |now| - 1 ==> now[i] < b
    decreases b
  {
    hide VisitAll;
    VisitStep(trail, a, b);
    if a < b { VisitFresh(trail, a, b - 1); }
  }

  // The trail of spans that turn back once, from the turn on.
  lemma {:induction false} TurnedTrail(spans: seq<Span>, h: nat, k: nat)
    requires InSpanOrder(spans) && TurnsBack(spans, h, k)
    ensures var trail := VisitSpans([], spans); NoRepeat(trail, 1) && |trail| > 0
    ensures var trail := VisitSpans([], spans); forall i :: 0 <= i < |trail| - 1 ==> trail[i] <= Max(spans[k].last, spans[|spans| - 1].last - 1)
  {
    hide VisitAll, VisitSpans;
    var front, last := spans[..|spans| - 1], spans[|spans| - 1];
    var trail := VisitSpans([], front);
    OneMoreSpan(spans);
    VisitEnds(front);
    if k == |front| - 1 {
      assert StepsOn(front);
      StepsOnRises(front);
      assert last == Span(h, h);
      VisitStep(trail, h, h);
    } else {
      assert TurnsBack(front, h, k);
      TurnedTrail(front, h, k);
      if last == Span(h, h) {
        BackInOrder(front, last, h, k);
        VisitStep(trail, h, h);
      } else {
        VisitFresh(trail, last.first, last.last);
      }
    }
  }

  lemma OneMoreSpan(spans: seq<Span>)
    requires |spans| > 0
    ensures VisitSpans([], spans) == VisitAll(VisitSpans([], spans[..|spans| - 1]), spans[|spans| - 1].first, spans[|spans| - 1].last)
  {
  }

  // A span back in the held window follows another such span.
  lemma BackInOrder(front: seq<Span>, last: Span, h: nat, k: nat)
    requires TurnsBack(front, h, k) && InSpanOrder(front) && front[|front| - 1].first <= last.first == h
    ensures front[|front| - 1] == Span(h, h)
  {
  }

  lemma {:induction false} VisitSplit(trail: seq<nat>, a: nat, b: nat)
    requires a < b
    ensures VisitAll(trail, a, b) == VisitAll(Visit(trail, a), a + 1, b)
    decreases b
  {
    if a + 1 < b { VisitSplit(trail, a, b - 1); }
  }

  // A window left behind, right after one that is visited, is read again too.
  lemma LeftBehindNext(trail: seq<nat>, i: nat, h: nat, b: nat)
    requires h < b && 1 <= i < |trail| && trail[i] == h + 1
    ensures !NoRepeat(VisitAll(trail, h, b), 1)
  {
    hide VisitAll;
    VisitSplit(trail, h, b);
    LeftBehind(Visit(trail, h), 1, i, h + 1, b);
  }

  lemma FirstTurn(front: seq<Span>, last: Span, h: nat)
    requires InSpanOrder(front) && |front| > 0 && front[0].first == h && last.first <= last.last
    requires front[|front| - 1].first <= last.first < front[|front| - 1].last
    requires NoRepeat(VisitAll(VisitSpans([], front), last.first, last.last), 1)
    ensures last == Span(h, h)
  {
    hide VisitAll, VisitSpans, NoRepeat;
    var trail := VisitSpans([], front);
    VisitEnds(front);
    var i := VisitedAt(front, |front| - 1, last.first);
    if i > 0 { LeftBehind(trail, 1, i, last.first, last.last); }
    if last.last > h {
      var next := VisitedAt(front, |front| - 1, h + 1);
      LeftBehindNext(trail, next, h, last.last);
    }
  }

  lemma LaterTurn(front: seq<Span>, last: Span, h: nat, k: nat)
    requires InSpanOrder(front) && TurnsBack(front, h, k) && front[|front| - 1].first <= last.first <= last.last
    requires NoRepeat(VisitAll(VisitSpans([], front), last.first, last.last), 1)
    ensures (last == Span(h, h) || front[k].last < last.first) && front[|front| - 1].last <= last.first
  {
    hide VisitAll, VisitSpans, NoRepeat;
    var trail, previous, a := VisitSpans([], front), front[|front| - 1], last.first;
    VisitEnds(front);
    if a == h {
      BackInOrder(front, last, h, k);
      if last.last > h {
        var next := VisitedAt(front, k, h + 1);
        LeftBehindNext(trail, next, h, last.last);
      }
    } else if a <= front[k].last {
      var i := VisitedAt(front, k, a);
      LeftBehind(trail, 1, i, a, last.last);
    } else if a < previous.last {
      var i := VisitedAt(front, |front| - 1, a);
      LeftBehind(trail, 1, i, a, last.last);
    }
  }

  lemma {:induction false} OnlyTurn(spans: seq<Span>, h: nat)
    requires InSpanOrder(spans) && |spans| > 0 && spans[0].first == h && NoRepeat(VisitSpans([], spans), 1)
    ensures StepsOn(spans) || TurnsBackOnce(spans, h)
  {
    hide VisitAll, VisitSpans, NoRepeat, StepsOn, InSpanOrder, TurnsBack;
    var front, last := spans[..|spans| - 1], spans[|spans| - 1];
    LastSpan(spans);
    if |front| > 0 {
      OneMoreSpan(spans);
      if !NoRepeat(VisitSpans([], front), 1) { RepeatGrows(VisitSpans([], front), 1, last.first, last.last); }
      OnlyTurn(front, h);
      if StepsOn(front) {
        if last.first < front[|front| - 1].last {
          FirstTurn(front, last, h);
          TurnsHere(spans, h);
        }
      } else {
        var k: nat :| k < |front| && TurnsBack(front, h, k);
        LaterTurn(front, last, h, k);
        TurnsStill(spans, h, k);
      }
    }
  }

  lemma LastSpan(spans: seq<Span>)
    requires InSpanOrder(spans) && |spans| > 0
    ensures var n := |spans| - 1; var front := spans[..n]; InSpanOrder(front) && spans[n].first <= spans[n].last && (n > 0 ==> front[n - 1].first <= spans[n].first)
    ensures var n := |spans| - 1; StepsOn(spans) <==> n == 0 || (StepsOn(spans[..n]) && spans[n - 1].last <= spans[n].first)
  {
    var n := |spans| - 1;
    var front := spans[..n];
    if StepsOn(front) && (n > 0 ==> spans[n - 1].last <= spans[n].first) {
      forall k | 0 <= k < |spans| - 1 ensures spans[k].last <= spans[k + 1].first {
        if k < n - 1 { assert front[k].last <= front[k + 1].first; }
      }
    }
  }

  lemma TurnsHere(spans: seq<Span>, h: nat)
    requires |spans| > 1 && spans[0].first == h && StepsOn(spans[..|spans| - 1])
    requires spans[|spans| - 1] == Span(h, h) && h < spans[|spans| - 2].last
    ensures TurnsBackOnce(spans, h)
  {
    var front := spans[..|spans| - 1];
    forall j | 0 <= j < |spans| - 1 && j != |spans| - 2 ensures spans[j].last <= spans[j + 1].first {
      assert front[j].last <= front[j + 1].first;
    }
    assert TurnsBack(spans, h, |spans| - 2);
  }

  lemma TurnsStill(spans: seq<Span>, h: nat, k: nat)
    requires |spans| > 1 && TurnsBack(spans[..|spans| - 1], h, k)
    requires var last := spans[|spans| - 1]; (last == Span(h, h) || spans[k].last < last.first) && spans[|spans| - 2].last <= last.first
    ensures TurnsBackOnce(spans, h)
  {
    var front := spans[..|spans| - 1];
    forall j | 0 <= j < |spans| - 1 && j != k ensures spans[j].last <= spans[j + 1].first {
      if j < |spans| - 2 { assert front[j].last <= front[j + 1].first; }
    }
    forall j | k < j < |spans| ensures spans[j] == Span(h, h) || spans[k].last < spans[j].first {
      if j < |spans| - 1 { assert front[j] == spans[j]; }
    }
    assert TurnsBack(spans, h, k);
  }

  // With nothing kept or failed, no window is read twice exactly when each query
  // starts in the window where the one before it ended, or later, or the queries
  // turn back once to the window that was held before them.
  lemma ReadOnceIff(file: BitmapFile, limit: nat, held: Option<nat>, asked: seq<RangeQuery>)
    requires file.windowBytes > 0
    ensures var seed, ordered := SeedOf(held), InLcnOrder(asked); var spans := SpansOf(file, limit, ordered); NoRepeat(VisitQueries(file, limit, seed, ordered), |seed|) <==> StepsOn(spans) || (held.Some? && TurnsBackOnce(spans, held.value))
  {
    hide VisitQueries, SpansOf, VisitSpans, InSpanOrder, StepsOn, Picked;
    var ordered := InLcnOrder(asked);
    var order := Sort(Indices(|asked|), ByLcn(asked));
    OrderHolds(asked, order);
    SpansVisited(file, limit, SeedOf(held), ordered);
    PickedOrder(asked, order, |order|);
    OrderedSpans(file, limit, ordered);
    SpansReadOnce(held, SpansOf(file, limit, ordered));
  }

  function SeedOf(held: Option<nat>): (seed: seq<nat>)
    ensures |seed| <= 1
  {
    if held.Some? then [held.value] else []
  }

  lemma SpansReadOnce(held: Option<nat>, spans: seq<Span>)
    requires InSpanOrder(spans)
    ensures NoRepeat(VisitSpans(SeedOf(held), spans), |SeedOf(held)|) <==> StepsOn(spans) || (held.Some? && TurnsBackOnce(spans, held.value))
  {
    hide VisitSpans, NoRepeat, StepsOn, TurnsBackOnce;
    var seed, trail := SeedOf(held), VisitSpans([], spans);
    Seeded(seed, spans);
    if |spans| > 0 && seed == [spans[0].first] {
      HeldReadOnce(spans, spans[0].first);
    } else {
      AfterSeed(seed, trail);
      NoTurn(held, spans);
      if StepsOn(spans) {
        StepsOnRises(spans);
        RisingFresh(trail);
      } else {
        RepeatStays(spans);
      }
    }
  }

  lemma HeldReadOnce(spans: seq<Span>, h: nat)
    requires InSpanOrder(spans) && |spans| > 0 && spans[0].first == h
    ensures NoRepeat(VisitSpans([], spans), 1) <==> StepsOn(spans) || TurnsBackOnce(spans, h)
  {
    hide VisitSpans, StepsOn, TurnsBack;
    if NoRepeat(VisitSpans([], spans), 1) { OnlyTurn(spans, h); }
    if StepsOn(spans) { StepsOnRises(spans); }
    if TurnsBackOnce(spans, h) {
      var k: nat :| k < |spans| && TurnsBack(spans, h, k);
      TurnedTrail(spans, h, k);
    }
  }

  lemma RisingFresh(trail: seq<nat>)
    requires Rising(trail)
    ensures NoRepeat(trail, 0)
  {
  }

  lemma NoTurn(held: Option<nat>, spans: seq<Span>)
    requires |spans| == 0 || SeedOf(held) != [spans[0].first]
    ensures !(held.Some? && TurnsBackOnce(spans, held.value))
  {
  }

  lemma AfterSeed(seed: seq<nat>, trail: seq<nat>)
    ensures NoRepeat(seed + trail, |seed|) <==> NoRepeat(trail, 0)
  {
    if NoRepeat(seed + trail, |seed|) {
      forall i, j | 0 <= i < j < |trail| ensures trail[i] != trail[j] {
        assert (seed + trail)[|seed| + i] != (seed + trail)[|seed| + j];
      }
    }
  }

  predicate LcnOrdered(queries: seq<RangeQuery>) {
    forall k :: 0 <= k < |queries| - 1 ==> queries[k].lcn <= queries[k + 1].lcn
  }

  lemma {:induction false} PickedOrder(asked: seq<RangeQuery>, order: seq<nat>, n: nat)
    requires n <= |order| && forall k :: 0 <= k < |order| ==> order[k] < |asked|
    requires forall j, k :: 0 <= j < k < |order| ==> asked[order[j]].lcn <= asked[order[k]].lcn
    ensures |Picked(asked, order, n)| == n && LcnOrdered(Picked(asked, order, n))
    ensures n > 0 ==> Picked(asked, order, n)[n - 1] == asked[order[n - 1]]
  {
    if n > 0 { PickedOrder(asked, order, n - 1); }
  }

  lemma {:induction false} OrderedSpans(file: BitmapFile, limit: nat, queries: seq<RangeQuery>)
    requires file.windowBytes > 0 && LcnOrdered(queries)
    ensures var spans := SpansOf(file, limit, queries); InSpanOrder(spans) && (|spans| > 0 ==> |queries| > 0 && spans[|spans| - 1].first <= WindowAt(file, queries[|queries| - 1].lcn))
  {
    hide SpanOf, WindowAt;
    if |queries| > 0 {
      var front, q := queries[..|queries| - 1], queries[|queries| - 1];
      OrderedSpans(file, limit, front);
      if |front| > 0 { WindowsInOrder(file, front[|front| - 1].lcn, q.lcn); }
      OneSpan(file, limit, q);
    }
  }

  lemma WindowsInOrder(file: BitmapFile, x: nat, y: nat)
    requires file.windowBytes > 0 && x <= y
    ensures WindowAt(file, x) <= WindowAt(file, y)
  {
    hide WindowIndex;
    WindowOrder(WindowBits(file), x, y);
  }

  lemma OneSpan(file: BitmapFile, limit: nat, q: RangeQuery)
    requires file.windowBytes > 0
    ensures var one := SpanOf(file, limit, q); |one| <= 1 && (|one| > 0 ==> one[0].first == WindowAt(file, q.lcn) && one[0].first <= one[0].last)
  {
    hide WindowAt;
    var end := Min(Min(limit, q.lcn + q.clusters), BitsOf(file.size));
    if q.lcn < end { WindowsInOrder(file, q.lcn, end - 1); }
  }

  // Two queries over the first two windows have them read twice.
  lemma SharedReadTwice(file: BitmapFile, limit: nat, q: RangeQuery)
    requires file.windowBytes > 0 && BitsOf(file.size) >= 2 * WindowBits(file) && limit >= 2 * WindowBits(file)
    requires q.lcn == 0 && q.clusters == 2 * WindowBits(file)
    ensures VisitQueries(file, limit, [], [q, q]) == [0, 1, 0, 1]
  {
    var unit := WindowBits(file);
    QuotientIs(0, 0, unit);
    QuotientIs(2 * unit - 1, 1, unit);
    var one, none := [q], [q][..0];
    assert [q, q][..1] == one && one[..0] == none;
    assert WindowAt(file, 0) == 0 && WindowAt(file, 2 * unit - 1) == 1;
    FirstTwo();
    assert VisitQueries(file, limit, [], none) == [];
    assert VisitQueries(file, limit, [], one) == VisitAll([], 0, 1);
  }

  lemma FirstTwo()
    ensures VisitAll([], 0, 1) == [0, 1] && VisitAll([0, 1], 0, 1) == [0, 1, 0, 1]
  {
    VisitStep([], 0, 0);
    VisitStep([], 0, 1);
    VisitStep([0, 1], 0, 0);
    VisitStep([0, 1], 0, 1);
  }

  class ClusterBitmap {
    const file: BitmapFile
    const reader: Reader
    // Clusters the queries may name: the volume's, else the bitmap's own.
    const limit: nat
    // The windows read so far, in order.
    var readLog: seq<nat>
    // The window being read.
    var window: Option<Window>
    // The windows kept for later queries, by index, and their bytes.
    var retained: map<nat, Window>
    var retainedBytes: nat
    var retainBytes: nat
    var failed: set<nat>
    var bad: Option<seq<Extent>>
    var badWithClearBit: bool

    ghost predicate Valid()
      reads this
    {
      && file.windowBytes > 0 && file.size <= U64_MAX && limit <= U64_MAX && Honest(file, reader)
      && (bad.Some? ==> Apart(bad.value))
      && |failed| <= MAX_FAILED_WINDOWS
      && (window.Some? ==> WindowOk(file, window.value, failed))
      && (forall i :: i in retained ==> retained[i].index == i && WindowOk(file, retained[i], failed))
      && retainedBytes == HeldBytes(retained)
    }

    // The window is not read again, whatever is asked of it.
    ghost predicate WontRead(index: nat)
      reads this`retained, this`window, this`failed
    {
      index in retained || (window.Some? && window.value.index == index) || index in failed || |failed| >= MAX_FAILED_WINDOWS
    }

    // Since the log had from entries, the windows read are in order, each read
    // once; they start before bit, and one that reaches past it is held.
    ghost predicate ReadUpTo(from: nat, bit: nat)
      reads this`readLog, this`retained, this`window, this`failed
    {
      && Increasing(readLog, from)
      && (forall i :: from <= i < |readLog| ==> Reached(readLog[i], WindowBits(file), bit))
      && (forall i :: from <= i < |readLog| && !Before(readLog[i], WindowBits(file), bit) ==> WontRead(readLog[i]))
    }

    // Nothing is kept and nothing failed; since the log had from entries, the
    // windows of the trail past the seed were read, and the last of it is held.
    ghost predicate Trails(from: nat, seed: seq<nat>, trail: seq<nat>)
      reads this`readLog, this`retained, this`retainBytes, this`window, this`failed
    {
      && Quiet() && from <= |readLog| && seed + readLog[from..] == trail
      && (if |trail| == 0 then window.None? else window.Some? && window.value.index == trail[|trail| - 1])
    }

    // Nothing is kept, nothing failed, and no read will.
    ghost predicate Quiet()
      reads this`retained, this`retainBytes, this`failed
    {
      retained == map[] && retainBytes == 0 && failed == {} && Reliable(reader)
    }

    // The window held, if there is one.
    ghost function Held(): Option<nat>
      reads this`window
    {
      if window.Some? then Some(window.value.index) else None
    }

    // What a query may change: it reads windows that had not failed and were not
    // kept, keeps some of them within the budget, and remembers failures.
    twostate predicate Grown()
      reads this
    {
      && bad == old(bad) && retainBytes == old(retainBytes)
      && old(failed) <= failed
      && old(retained).Keys <= retained.Keys
      && (retainedBytes == old(retainedBytes) || retainedBytes <= retainBytes)
      && |old(readLog)| <= |readLog| && readLog[..|old(readLog)|] == old(readLog)
      && (forall i :: |old(readLog)| <= i < |readLog| ==> readLog[i] !in old(failed) && readLog[i] !in old(retained))
      && (Reliable(reader) ==> failed == old(failed))
    }

    // The window just read is kept exactly when the budget allows, else it is the
    // one held.
    twostate predicate KeptWithin(w: Window)
      reads this
    {
      if old(retainedBytes) + |w.bytes| <= old(retainBytes) then retained == old(retained)[w.index := w] && retainedBytes == old(retainedBytes) + |w.bytes| && window == None
      else retained == old(retained) && retainedBytes == old(retainedBytes) && window == Some(w)
    }

    constructor (file: BitmapFile, reader: Reader, clusterCount: nat)
      requires file.windowBytes > 0 && file.size <= U64_MAX && clusterCount <= U64_MAX && Honest(file, reader)
      ensures Valid() && this.file == file && this.reader == reader
      ensures limit == if clusterCount != 0 then clusterCount else BitsOf(file.size)
      ensures readLog == [] && failed == {} && retained == map[] && retainedBytes == 0 && window == None && bad == None && !badWithClearBit && retainBytes == 0
    {
      this.file, this.reader := file, reader;
      limit := if clusterCount != 0 then clusterCount else BitsOf(file.size);
      readLog, window, retained, retainedBytes, retainBytes := [], None, map[], 0, 0;
      failed, bad, badWithClearBit := {}, None, false;
    }

    // One read of the window at index.
    method Fetch(index: nat, serial: nat) returns (w: Window, length: nat)
      requires file.windowBytes > 0 && Honest(file, reader) && Offset(file, index) < file.size
      ensures w.index == index && length == |w.bytes|
      ensures WindowOk(file, w, {index}) && (w.valid == length ==> WindowOk(file, w, {}))
      ensures Reliable(reader) ==> w.valid == length
    {
      var offset := Offset(file, index);
      length := Min(file.windowBytes, file.size - offset);
      var reply := reader(serial, offset, length);
      assert HonestReply(file, reply, offset, length);
      w := Window(index, reply.bytes, if reply.count.Some? then Min(reply.count.value, length) else 0);
    }

    // Keeps the window just read, when the budget allows.
    method Keep(w: Window)
      requires Valid() && window == Some(w) && w.index !in retained
      modifies this`window, this`retained, this`retainedBytes
      ensures Valid() && KeptWithin(w)
    {
      hide WindowOk;
      if retainedBytes + |w.bytes| <= retainBytes {
        retainedBytes := retainedBytes + |w.bytes|;
        window := None;
        retained := retained[w.index := w];
        HeldWithout(retained, w.index);
        assert retained - {w.index} == old(retained);
      }
    }

    // Remembers that the window was read, and whether it was short.
    method Remember(w: Window, length: nat)
      requires Valid() && |failed| < MAX_FAILED_WINDOWS && length == |w.bytes|
      requires WindowOk(file, w, {w.index}) && (w.valid == length ==> WindowOk(file, w, {}))
      modifies this`readLog, this`failed, this`window
      ensures Valid() && window == Some(w) && readLog == old(readLog) + [w.index]
      ensures failed == if w.valid < length then old(failed) + {w.index} else old(failed)
    {
      readLog := readLog + [w.index];
      window := Some(w);
      if w.valid < length {
        failed := failed + {w.index};
      }
      AllStay(old(failed), failed, w, length);
    }

    // The windows held are right, whatever failed since.
    lemma AllStay(before: set<nat>, after: set<nat>, w: Window, length: nat)
      requires before <= after && length == |w.bytes| && (w.valid < length ==> w.index in after)
      requires WindowOk(file, w, {w.index})
      ensures WindowOk(file, w, after)
      ensures forall i :: i in retained && WindowOk(file, retained[i], before) ==> WindowOk(file, retained[i], after)
    {
      forall i | i in retained && WindowOk(file, retained[i], before) ensures WindowOk(file, retained[i], after) {
        WindowStays(file, retained[i], before, after);
      }
    }

    // Reads the window at index, and keeps it when the budget allows.
    method ReadWindow(index: nat, ghost from: nat, ghost seed: seq<nat>, ghost trail: seq<nat>) returns (w: Window)
      requires Valid() && Offset(file, index) < file.size
      requires index !in retained && index !in failed && |failed| < MAX_FAILED_WINDOWS
      modifies this
      ensures Valid() && Grown() && badWithClearBit == old(badWithClearBit)
      ensures readLog == old(readLog) + [index]
      ensures w.index == index && WindowOk(file, w, failed) && KeptWithin(w)
      ensures old(Trails(from, seed, trail)) ==> Trails(from, seed, trail + [index])
    {
      var length;
      w, length := Fetch(index, |readLog|);
      Remember(w, length);
      Keep(w);
    }

    // The window of that index, read now if it is not held. None when that window
    // failed earlier and is not held, or too many did.
    method Load(index: nat, ghost from: nat, ghost seed: seq<nat>, ghost trail: seq<nat>) returns (w: Option<Window>)
      requires Valid() && Offset(file, index) < file.size
      modifies this
      ensures Valid() && Grown() && badWithClearBit == old(badWithClearBit)
      ensures w.Some? ==> w.value.index == index && WindowOk(file, w.value, failed)
      ensures w.None? ==> index in failed || |failed| >= MAX_FAILED_WINDOWS
      ensures readLog == if old(WontRead(index)) then old(readLog) else old(readLog) + [index]
      ensures WontRead(index) && (!old(WontRead(index)) ==> w.Some? && KeptWithin(w.value))
      ensures old(Trails(from, seed, trail)) ==> Trails(from, seed, Visit(trail, index))
    {
      if index in retained {
        return Some(retained[index]);
      }
      if window.Some? && window.value.index == index {
        return window;
      }
      if index in failed || |failed| >= MAX_FAILED_WINDOWS {
        return None;
      }
      var read := ReadWindow(index, from, seed, trail);
      return Some(read);
    }

    // Loads the window of bit, to judge [bit, stop) with.
    method LoadFor(index: nat, ghost bit: nat, ghost stop: nat, ghost from: nat, ghost seed: seq<nat>, ghost trail: seq<nat>) returns (w: Option<Window>)
      requires Valid() && Offset(file, index) < file.size
      requires index * WindowBits(file) <= bit < index * WindowBits(file) + WindowBits(file) && bit < stop
      modifies this
      ensures Valid() && Grown() && badWithClearBit == old(badWithClearBit)
      ensures w.Some? ==> w.value.index == index && WindowOk(file, w.value, failed)
      ensures w.None? ==> index in failed || |failed| >= MAX_FAILED_WINDOWS
      ensures old(ReadUpTo(from, bit)) ==> ReadUpTo(from, stop)
      ensures old(Trails(from, seed, trail)) ==> Trails(from, seed, Visit(trail, index))
    {
      hide WindowOk;
      hide Reached;
      hide Before;
      hide Trails;
      w := Load(index, from, seed, trail);
      if old(ReadUpTo(from, bit)) {
        ReadOnward(old(readLog), from, bit, WindowBits(file), index, stop);
      }
    }

    // The next part of [bit, last) that one window judges, and the bits of it that
    // were read.
    method Segment(bit: nat, last: nat, ghost from: nat, ghost seed: seq<nat>, ghost trail: seq<nat>) returns (stop: nat, judged: JudgedBits, ghost raw: seq<ClusterState>)
      requires Valid() && bit < last <= U64_MAX && bit < BitsOf(file.size)
      modifies this
      ensures Valid() && Grown() && badWithClearBit == old(badWithClearBit)
      ensures bit < stop <= last && |raw| == stop - bit && JudgedRaw(judged, raw, bit, stop) && ReadRight(file, failed, raw, bit)
      ensures old(ReadUpTo(from, bit)) ==> ReadUpTo(from, stop)
      ensures old(Trails(from, seed, trail)) ==> Trails(from, seed, Visit(trail, WindowAt(file, bit)))
      ensures InOneWindow(file, bit, stop) && (stop == last || WindowStarts(file, stop))
    {
      hide WindowOk;
      hide ReadUpTo;
      hide Trails;
      var unit := WindowBits(file);
      var index := WindowIndex(unit, bit);
      WindowOf(file, bit, unit, index);
      var base := index * unit;
      stop := if unit > U64_MAX - base then last else Min(last, base + unit);
      var knownStop := Min(stop, BitsOf(file.size));
      InFile(file, index, bit);
      var w := LoadFor(index, bit, stop, from, seed, trail);
      var known := if w.Some? then Min(knownStop, base + 8 * w.value.valid) else bit;
      judged := JudgedBits(if known > bit then w else None, base, Max(bit, known));
      if known > bit {
        SegmentHolds(file, failed, w.value, unit, bit, known);
      }
      raw := RawOf(judged, bit, stop);
      SegmentRight(file, failed, w, index, unit, bit, stop, judged, raw);
      WindowEnds(file, bit, stop);
    }

    // Counts the next part of a range.
    method CountSegment(before: Counts, ghost first: nat, bit: nat, last: nat, ghost done: seq<ClusterState>, ghost from: nat, ghost seed: seq<nat>, ghost trail: seq<nat>)
      returns (counts: Counts, stop: nat, clear: bool, ghost raw: seq<ClusterState>)
      requires Valid() && bit < last <= U64_MAX && bit < BitsOf(file.size) && bit == first + |done|
      requires ReadRight(file, failed, done, first) && CountsRight(before, done, first, ListOf(bad))
      modifies this
      ensures Valid() && Grown() && bit < stop <= last && |raw| == stop - first
      ensures ReadRight(file, failed, raw, first) && CountsRight(counts, raw, first, ListOf(bad))
      ensures badWithClearBit == (old(badWithClearBit) || clear)
      ensures Disagree(raw, first, ListOf(bad)) <==> Disagree(done, first, ListOf(bad)) || clear
      ensures old(ReadUpTo(from, bit)) ==> ReadUpTo(from, stop)
      ensures old(Trails(from, seed, trail)) ==> Trails(from, seed, Visit(trail, WindowAt(file, bit)))
      ensures InOneWindow(file, bit, stop) && (stop == last || WindowStarts(file, stop))
    {
      hide Trails, InOneWindow, WindowStarts;
      hide CountState;
      hide Overlay;
      hide Disagree;
      hide JudgedRaw;
      hide ReadRight;
      hide ReadUpTo;
      hide WindowOk;
      hide Matches;
      hide Honest;
      ghost var part;
      var judged;
      stop, judged, part := Segment(bit, last, from, seed, trail);
      counts, clear := Judge(before, bit, stop, judged, bad, Overlay(done, first, ListOf(bad)), part);
      badWithClearBit := badWithClearBit || clear;
      PartJudged(file, old(failed), failed, before, counts, done, part, first, ListOf(bad));
      raw := done + part;
    }

    // Judges bits [first, last): raw are the states they were read in.
    method Count(first: nat, last: nat, ghost from: nat, ghost seed: seq<nat>, ghost trail: seq<nat>) returns (counts: Counts, ghost raw: seq<ClusterState>)
      requires Valid() && first <= last <= U64_MAX
      modifies this
      ensures Valid() && Grown()
      ensures |raw| == last - first && ReadRight(file, failed, raw, first)
      ensures CountsRight(counts, raw, first, ListOf(bad))
      ensures badWithClearBit <==> old(badWithClearBit) || Disagree(raw, first, ListOf(bad))
      ensures old(ReadUpTo(from, first)) ==> ReadUpTo(from, last)
      ensures old(Trails(from, seed, trail)) ==> Trails(from, seed, VisitBits(file, trail, first, last))
    {
      hide Trails, InOneWindow, WindowStarts, VisitBits, WindowAt;
      hide CountState;
      hide Overlay;
      hide Disagree;
      hide JudgedRaw;
      hide ReadRight;
      hide ReadUpTo;
      hide WindowOk;
      hide Matches;
      hide Honest;
      counts, raw := Counts(0, 0, 0, 0, 0), [];
      NothingCounted(counts, raw, first, ListOf(bad), file, failed);
      VisitNone(file, trail, first);
      var bit := first;
      while bit < last
        invariant first <= bit <= last && |raw| == bit - first && Valid() && Grown()
        invariant ReadRight(file, failed, raw, first)
        invariant CountsRight(counts, raw, first, ListOf(bad))
        invariant badWithClearBit <==> old(badWithClearBit) || Disagree(raw, first, ListOf(bad))
        invariant old(ReadUpTo(from, first)) ==> ReadUpTo(from, bit)
        invariant old(Trails(from, seed, trail)) ==> Trails(from, seed, VisitBits(file, trail, first, bit))
        invariant bit == first || bit == last || WindowStarts(file, bit)
      {
          // Past the end of the bitmap nothing can be judged.
        if bit >= BitsOf(file.size) {
          UnjudgedRight(file, failed, bit, last);
          counts, raw := CountRest(counts, first, bit, last, raw);
          ReadFarther(from, bit, last);
          VisitPast(file, trail, first, bit, last);
          return;
        }
        var stop, clear;
        ghost var visited := VisitBits(file, trail, first, bit);
        counts, stop, clear, raw := CountSegment(counts, first, bit, last, raw, from, seed, visited);
        VisitMore(file, trail, first, bit, stop);
        bit := stop;
          // Too many windows failed: the rest is not worth walking.
        if |failed| >= MAX_FAILED_WINDOWS && bit < last {
          TrailsFew(from, seed, VisitBits(file, trail, first, bit));
          UnjudgedRight(file, failed, bit, last);
          counts, raw := CountRest(counts, first, bit, last, raw);
          ReadFarther(from, bit, last);
          return;
        }
      }
    }

    lemma ReadFarther(from: nat, bit: nat, stop: nat)
      requires bit <= stop
      ensures ReadUpTo(from, bit) ==> ReadUpTo(from, stop)
    {
    }

    lemma TrailsFew(from: nat, seed: seq<nat>, trail: seq<nat>)
      ensures Trails(from, seed, trail) ==> |failed| < MAX_FAILED_WINDOWS
    {
    }

    // Counts [bit, last) as unknown.
    method CountRest(before: Counts, ghost first: nat, bit: nat, last: nat, ghost done: seq<ClusterState>)
      returns (counts: Counts, ghost raw: seq<ClusterState>)
      requires Valid() && bit < last <= U64_MAX && bit == first + |done|
      requires ReadRight(file, failed, done, first) && ReadRight(file, failed, Same(ClusterState.Unknown, last - bit), bit)
      requires CountsRight(before, done, first, ListOf(bad))
      modifies this`badWithClearBit
      ensures Valid() && |raw| == last - first && ReadRight(file, failed, raw, first)
      ensures CountsRight(counts, raw, first, ListOf(bad))
      ensures (badWithClearBit <==> old(badWithClearBit)) && (Disagree(raw, first, ListOf(bad)) <==> Disagree(done, first, ListOf(bad)))
    {
      hide CountState;
      hide Overlay;
      hide Disagree;
      hide JudgedRaw;
      hide ReadRight;
      ghost var rest := Same(ClusterState.Unknown, last - bit);
      NothingJudged(rest, bit, last);
      NothingClear(rest, bit, ListOf(bad));
      var cleared;
      counts, cleared := Judge(before, bit, last, JudgedBits(None, 0, bit), bad, Overlay(done, first, ListOf(bad)), rest);
      badWithClearBit := badWithClearBit || cleared;
      PartJudged(file, failed, failed, before, counts, done, rest, first, ListOf(bad));
      raw := done + rest;
    }

    // Appends the runs of the next part of a range, as it was read.
    method SegmentRuns(before: seq<ClusterRun>, ghost first: nat, bit: nat, last: nat, ghost done: seq<ClusterState>)
      returns (runs: seq<ClusterRun>, stop: nat, ghost raw: seq<ClusterState>)
      requires Valid() && bit < last <= U64_MAX && bit < BitsOf(file.size) && bit == first + |done|
      requires ReadRight(file, failed, done, first) && Spelled(before, first, done) && Maximal(before)
      modifies this
      ensures Valid() && Grown() && badWithClearBit == old(badWithClearBit) && bit < stop <= last && |raw| == stop - first
      ensures ReadRight(file, failed, raw, first) && Spelled(runs, first, raw) && Maximal(runs)
    {
      hide JudgedRaw;
      hide ReadRight;
      hide Spelled;
      hide WindowOk;
      hide ReadUpTo;
      ghost var part;
      var judged;
      stop, judged, part := Segment(bit, last, 0, [], []);
      runs := AppendJudged(before, bit, stop, judged, first, done, part);
      ReadRightAdded(file, old(failed), failed, done, part, first);
      raw := done + part;
    }

    // Appends [bit, last) as unknown.
    method RestOfRuns(before: seq<ClusterRun>, ghost first: nat, bit: nat, last: nat, ghost done: seq<ClusterState>)
      returns (runs: seq<ClusterRun>, ghost raw: seq<ClusterState>)
      requires Valid() && bit < last && bit == first + |done|
      requires ReadRight(file, failed, done, first) && ReadRight(file, failed, Same(ClusterState.Unknown, last - bit), bit)
      requires Spelled(before, first, done) && Maximal(before)
      ensures |raw| == last - first && ReadRight(file, failed, raw, first) && Spelled(runs, first, raw) && Maximal(runs)
    {
      hide ReadRight;
      hide Spelled;
      runs := AppendRun(before, bit, last - bit, ClusterState.Unknown, first, done);
      raw := done + Same(ClusterState.Unknown, last - bit);
      ReadRightAdded(file, failed, failed, done, Same(ClusterState.Unknown, last - bit), first);
    }

    // The runs of bits [first, last), bad list left out.
    method BitRuns(first: nat, last: nat) returns (runs: seq<ClusterRun>, ghost raw: seq<ClusterState>)
      requires Valid() && first <= last <= U64_MAX
      modifies this
      ensures Valid() && Grown() && badWithClearBit == old(badWithClearBit)
      ensures |raw| == last - first && ReadRight(file, failed, raw, first)
      ensures Spelled(runs, first, raw) && Maximal(runs)
    {
      hide ReadRight;
      hide WindowOk;
      runs, raw := [], [];
      NoRuns(runs, raw, first, file, failed);
      var bit := first;
      while bit < last
        invariant first <= bit <= last && |raw| == bit - first && Valid() && Grown() && badWithClearBit == old(badWithClearBit)
        invariant ReadRight(file, failed, raw, first) && Spelled(runs, first, raw) && Maximal(runs)
      {
        if bit >= BitsOf(file.size) {
          UnjudgedRight(file, failed, bit, last);
          runs, raw := RestOfRuns(runs, first, bit, last, raw);
          return;
        }
        runs, bit, raw := SegmentRuns(runs, first, bit, last, raw);
        // Too many windows failed: the rest is not worth walking.
        if |failed| >= MAX_FAILED_WINDOWS && bit < last {
          UnjudgedRight(file, failed, bit, last);
          runs, raw := RestOfRuns(runs, first, bit, last, raw);
          return;
        }
      }
    }

    // The state of every cluster of [lcn, lcn + clusters), as maximal runs: the
    // bad list over the bits, then the clusters past the volume.
    method StateRuns(lcn: nat, clusters: nat) returns (runs: seq<ClusterRun>, ghost raw: seq<ClusterState>)
      requires Valid()
      modifies this
      ensures Valid() && Grown()
      ensures |raw| == InVolume(limit, lcn, clusters) && ReadRight(file, failed, raw, lcn)
      ensures Spelled(runs, lcn, RangeStates(raw, lcn, clusters, ListOf(bad))) && Maximal(runs)
      ensures badWithClearBit <==> old(badWithClearBit) || Disagree(raw, lcn, ListOf(bad))
    {
      hide Overlay;
      hide ReadRight;
      hide Spelled;
      hide Disagree;
      hide WindowOk;
      if clusters == 0 || lcn >= limit {
        raw := [];
        NoRuns([], raw, lcn, file, failed);
        NothingYet(raw, lcn, ListOf(bad));
        runs := AppendRun([], lcn, clusters, OutOfRange, lcn, Overlay(raw, lcn, ListOf(bad)));
        return;
      }
      var beyond := clusters > limit - lcn;
      var end := if beyond then limit else lcn + clusters;
      runs, raw := BitRuns(lcn, end);
      var clear;
      runs, clear := OverlayBad(runs, bad, lcn, raw);
      badWithClearBit := badWithClearBit || clear;
      OverlayLength(raw, lcn, ListOf(bad));
      runs := AppendRun(runs, end, clusters - (end - lcn), OutOfRange, lcn, Overlay(raw, lcn, ListOf(bad)));
    }

    // Answers one query.
    method Answer(lcn: nat, clusters: nat, ghost from: nat, ghost upTo: nat, ghost seed: seq<nat>, ghost trail: seq<nat>) returns (q: RangeQuery)
      requires Valid()
      modifies this
      ensures Valid() && Grown()
      ensures q.lcn == lcn && q.clusters == clusters && Answered(q, file, failed, ListOf(bad), limit)
      ensures old(ReadUpTo(from, upTo)) && (clusters == 0 || upTo <= lcn) ==> ReadUpTo(from, EndAfter(upTo, lcn, clusters))
      ensures old(Trails(from, seed, trail)) ==> Trails(from, seed, VisitRange(file, limit, trail, lcn, clusters))
    {
      hide Trails, VisitBits;
      hide Overlay;
      hide ReadRight;
      hide WindowOk;
      hide ReadUpTo;
      hide HoldsCounts;
      if clusters == 0 || lcn >= limit {
        NothingInVolume(lcn, clusters, file, failed, ListOf(bad));
        ReadFarther(from, upTo, Max(upTo, lcn + clusters));
        return RangeQuery(lcn, clusters, if clusters == 0 then ClusterState.Free else OutOfRange, 0, 0, 0);
      }
      var beyond := clusters > limit - lcn;
      var end := if beyond then limit else lcn + clusters;
      ghost var raw;
      var counts;
      ReadFarther(from, upTo, Max(upTo, lcn));
      counts, raw := Count(lcn, end, from, seed, trail);
      ReadFarther(from, end, lcn + clusters);
      var state :=
        if counts.inUse > 0 then Allocated
        else if counts.bad > 0 then ClusterState.Bad
        else if beyond then OutOfRange
        else if counts.unknown > 0 then ClusterState.Unknown
        else ClusterState.Free;
      q := RangeQuery(lcn, clusters, state, counts.inUse, counts.free, counts.bad);
      AnswerIs(q, counts, file, failed, raw, ListOf(bad));
    }

    // Answers the query at one place of the array.
    method AnswerAt(queries: array<RangeQuery>, at: nat, ghost from: nat, ghost upTo: nat, ghost seed: seq<nat>, ghost trail: seq<nat>)
      requires Valid() && at < queries.Length
      modifies this, queries
      ensures Valid() && Grown()
      ensures queries[..] == old(queries[..])[at := queries[at]]
      ensures queries[at].lcn == old(queries[at].lcn) && queries[at].clusters == old(queries[at].clusters)
      ensures Answered(queries[at], file, failed, ListOf(bad), limit)
      ensures old(ReadUpTo(from, upTo)) && (old(queries[at].clusters) == 0 || upTo <= old(queries[at].lcn))
        ==> ReadUpTo(from, EndAfter(upTo, old(queries[at].lcn), old(queries[at].clusters)))
      ensures old(Trails(from, seed, trail)) ==> Trails(from, seed, VisitRange(file, limit, trail, old(queries[at].lcn), old(queries[at].clusters)))
    {
      hide Trails, VisitRange;
      hide WindowOk;
      hide ReadUpTo;
      hide Answered;
      var answer := Answer(queries[at].lcn, queries[at].clusters, from, upTo, seed, trail);
      queries[at] := answer;
    }

    // Answers every query, in LCN order; the array keeps its order. Queries that
    // share no cluster never have a window read twice. While no window is kept and
    // none fails, those read are the ones the queries visit from the one held on.
    method StatesInOrder(queries: array<RangeQuery>)
      requires Valid()
      modifies this, queries
      ensures Valid() && Grown()
      ensures forall i :: 0 <= i < queries.Length ==> SameRange(queries[i], old(queries[..])[i])
      ensures forall i :: 0 <= i < queries.Length ==> Answered(queries[i], file, failed, ListOf(bad), limit)
      ensures QueriesApart(old(queries[..])) ==> Increasing(readLog, |old(readLog)|)
      ensures old(Quiet()) ==> Quiet() && SeedOf(old(Held())) + readLog[|old(readLog)|..] == VisitQueries(file, limit, SeedOf(old(Held())), InLcnOrder(old(queries[..])))
    {
      hide Trails, VisitRange, VisitQueries, Picked, EndAfter;
      hide WindowOk;
      hide Answered;
      hide ReadUpTo;
      hide Valid;
      hide QueriesApart;
      hide AnsweredSoFar;
      hide ApartFrom;
      hide Increasing;
      ghost var asked := queries[..];
      var order := Sort(Indices(queries.Length), ByLcn(queries[..]));
      OrderHolds(asked, order);
      ghost var upTo: nat := 0;
      ghost var ordered, seed := Picked(asked, order, 0), SeedOf(Held());
      PickedNone(asked, order);
      VisitedNone(file, limit, seed, ordered);
      NothingRead();
      QuietTrail(seed);
      HasWindows();
      NoneAnswered(asked, order, file, failed, ListOf(bad), limit);
      for k := 0 to |order|
        invariant Valid() && Grown()
        invariant AnsweredSoFar(queries[..], asked, order, k, file, failed, ListOf(bad), limit)
        invariant QueriesApart(asked) ==> ReadUpTo(|old(readLog)|, upTo) && ApartFrom(asked, order, k, upTo)
        invariant ordered == Picked(asked, order, k)
        invariant old(Quiet()) ==> Trails(|old(readLog)|, seed, VisitQueries(file, limit, seed, ordered))
      {
        ghost var at, now, before := order[k], queries[..], failed;
        SameAt(now, asked, order, k, at, file, failed, ListOf(bad), limit);
        if QueriesApart(asked) { NextStarts(asked, order, k, upTo); }
        AnswerAt(queries, order[k], |old(readLog)|, upTo, seed, VisitQueries(file, limit, seed, ordered));
        VisitedMore(file, limit, seed, ordered, asked[at]);
        PickedMore(asked, order, k);
        ordered := Picked(asked, order, k + 1);
        OneMoreAnswered(now, queries[at], asked, order, k, file, before, failed, ListOf(bad), limit);
        upTo := EndAfter(upTo, asked[at].lcn, asked[at].clusters);
      }
      InOrder(|old(readLog)|, upTo);
      TrailIs(|old(readLog)|, seed, VisitQueries(file, limit, seed, ordered));
      AllAnswered(queries[..], asked, order, file, failed, ListOf(bad), limit);
    }

    lemma HasWindows()
      requires Valid()
      ensures file.windowBytes > 0
    {
    }

    lemma NothingRead()
      ensures ReadUpTo(|readLog|, 0)
    {
    }

    lemma QuietTrail(seed: seq<nat>)
      requires seed == SeedOf(Held())
      ensures Quiet() ==> Trails(|readLog|, seed, seed)
    {
      assert seed + readLog[|readLog|..] == seed;
    }

    lemma TrailIs(from: nat, seed: seq<nat>, trail: seq<nat>)
      ensures Trails(from, seed, trail) ==> Quiet() && from <= |readLog| && seed + readLog[from..] == trail
    {
    }

    lemma InOrder(from: nat, bit: nat)
      ensures ReadUpTo(from, bit) ==> Increasing(readLog, from)
    {
    }

    // Free space over the whole volume: nothing when no bit could be read.
    method Summary(clusterSize: nat) returns (summary: Option<SpaceSummary>, ghost raw: seq<ClusterState>)
      requires Valid()
      modifies this
      ensures Valid() && Grown()
      ensures |raw| == limit && ReadRight(file, failed, raw, 0)
      ensures summary.None? <==> forall k :: 0 <= k < |raw| ==> raw[k] == ClusterState.Unknown
      ensures summary.Some? ==> Summarises(summary.value, Overlay(raw, 0, ListOf(bad)), clusterSize)
    {
      hide ReadRight;
      hide WindowOk;
      hide Overlay;
      hide CountState;
      if limit == 0 {
        raw := [];
        NoRuns([], raw, 0, file, failed);
        return None, raw;
      }
      var counts;
      counts, raw := Count(0, limit, 0, [], []);
      OverlayLength(raw, 0, ListOf(bad));
      AllUnknown(raw);
      if counts.judged == 0 {
        return None, raw;
      }
      summary := Some(SpaceSummary(limit, counts.free, SizeOf(counts.free, clusterSize), counts.unknown, counts.bad, SizeOf(counts.bad, clusterSize)));
    }

    // Sets the budget of the windows kept: 0 frees them all, anything else frees
    // none.
    method SetRetention(maxBytes: nat)
      requires Valid()
      modifies this`retainBytes, this`retained, this`retainedBytes
      ensures Valid() && retainBytes == maxBytes
      ensures retainedBytes == if maxBytes == 0 then 0 else old(retainedBytes)
      // The kept windows fit the budget again exactly when there is none, or they
      // already did.
      ensures retainedBytes <= retainBytes <==> maxBytes == 0 || old(retainedBytes) <= maxBytes
      ensures retained == if maxBytes == 0 then map[] else old(retained)
    {
      retainBytes := maxBytes;
      if maxBytes == 0 {
        retained, retainedBytes := map[], 0;
      }
    }
  }

  // Lowering the budget to something else than 0 leaves it passed: one window
  // kept, then a budget smaller than it.
  method LoweredBudget(file: BitmapFile, reader: Reader) returns (bitmap: ClusterBitmap)
    requires file.windowBytes > 1 && 1 < file.size <= U64_MAX && Honest(file, reader)
    ensures fresh(bitmap) && bitmap.Valid() && bitmap.file == file && 0 < bitmap.retainBytes < bitmap.retainedBytes
  {
    bitmap := new ClusterBitmap(file, reader, 0);
    bitmap.SetRetention(file.windowBytes);
    var w := bitmap.Load(0, 0, [], []);
    bitmap.SetRetention(|w.value.bytes| - 1);
  }
}
