// The slots that the runs of a plan cover, as sorted intervals that neither
// overlap nor touch.
module SlotCover {
  import opened Prelude

  // The slots first to last, both included.
  datatype Interval = Interval(first: nat, last: nat) {
    predicate Holds(x: nat) { first <= x <= last }
  }

  predicate Covers(intervals: seq<Interval>, x: nat) {
    exists i :: 0 <= i < |intervals| && intervals[i].Holds(x)
  }

  predicate ByFirst(a: Interval, b: Interval) {
    a.first <= b.first
  }

  // Sorted intervals, none of them empty, that neither overlap nor touch.
  predicate Apart(intervals: seq<Interval>) {
    && (forall i :: 0 <= i < |intervals| ==> intervals[i].first <= intervals[i].last)
    && (forall i, j :: 0 <= i < j < |intervals| ==> intervals[i].last + 1 < intervals[j].first)
  }

  lemma CoversAdded(intervals: seq<Interval>, next: Interval)
    ensures forall x: nat :: Covers(intervals + [next], x) <==> Covers(intervals, x) || next.Holds(x)
  {
    var all := intervals + [next];
    forall x: nat ensures Covers(all, x) <==> Covers(intervals, x) || next.Holds(x) {
      if Covers(intervals, x) {
        var i :| 0 <= i < |intervals| && intervals[i].Holds(x);
        assert all[i].Holds(x);
      }
      if next.Holds(x) { assert all[|intervals|].Holds(x); }
    }
  }

  lemma CoversSame(a: seq<Interval>, b: seq<Interval>, c: seq<Interval>)
    requires forall e :: e in a <==> e in b || e in c
    ensures forall x: nat :: Covers(a, x) <==> Covers(b, x) || Covers(c, x)
  {
    forall x: nat ensures Covers(a, x) <==> Covers(b, x) || Covers(c, x) {
      if Covers(a, x) {
        var i :| 0 <= i < |a| && a[i].Holds(x);
        assert a[i] in a;
      }
      if Covers(b, x) {
        var i :| 0 <= i < |b| && b[i].Holds(x);
        assert b[i] in a;
      }
      if Covers(c, x) {
        var i :| 0 <= i < |c| && c[i].Holds(x);
        assert c[i] in a;
      }
    }
  }

  // The intervals of two sorted lists, in order.
  method Merge(a: seq<Interval>, b: seq<Interval>) returns (merged: seq<Interval>)
    requires SortedBy(a, ByFirst) && SortedBy(b, ByFirst)
    ensures SortedBy(merged, ByFirst) && forall e :: e in merged <==> e in a || e in b
  {
    merged := [];
    var i, j := 0, 0;
    while i < |a| || j < |b|
      invariant i <= |a| && j <= |b|
      invariant SortedBy(merged, ByFirst)
      invariant forall e :: e in merged <==> e in a[..i] || e in b[..j]
      invariant merged != [] && i < |a| ==> ByFirst(merged[|merged| - 1], a[i])
      invariant merged != [] && j < |b| ==> ByFirst(merged[|merged| - 1], b[j])
      decreases |a| - i + |b| - j
    {
      if j == |b| || (i < |a| && !(b[j].first < a[i].first)) {
        assert a[..i + 1] == a[..i] + [a[i]];
        assert i + 1 < |a| ==> ByFirst(a[i], a[i + 1]);
        merged := merged + [a[i]];
        i := i + 1;
      } else {
        assert b[..j + 1] == b[..j] + [b[j]];
        assert j + 1 < |b| ==> ByFirst(b[j], b[j + 1]);
        merged := merged + [b[j]];
        j := j + 1;
      }
    }
    assert a[..|a|] == a && b[..|b|] == b;
  }

  // The next interval joined to the last one kept when it overlaps it or starts
  // right after it.
  method JoinNext(kept: seq<Interval>, next: Interval) returns (joined: seq<Interval>)
    requires Apart(kept) && next.first <= next.last
    requires kept != [] ==> kept[|kept| - 1].first <= next.first
    ensures Apart(joined) && joined != [] && joined[|joined| - 1].first <= next.first
    ensures forall x: nat :: Covers(joined, x) <==> Covers(kept, x) || next.Holds(x)
  {
    if kept != [] && (next.first <= kept[|kept| - 1].last || next.first - kept[|kept| - 1].last == 1) {
      var n := |kept| - 1;
      var grown := Interval(kept[n].first, Max(kept[n].last, next.last));
      joined := kept[..n] + [grown];
      assert kept == kept[..n] + [kept[n]];
      CoversAdded(kept[..n], grown);
      CoversAdded(kept[..n], kept[n]);
    } else {
      joined := kept + [next];
      CoversAdded(kept, next);
    }
  }

  class SlotCover {
    var intervals: seq<Interval>

    ghost predicate Valid()
      reads this
    {
      Apart(intervals)
    }

    constructor ()
      ensures Valid() && intervals == []
    {
      intervals := [];
    }

    // Whether a slot lies in a run added so far: by halves.
    method Contains(slot: nat) returns (held: bool)
      requires Valid()
      ensures held <==> Covers(intervals, slot)
    {
      // The first interval that starts after the slot.
      var lo, hi := 0, |intervals|;
      while lo < hi
        invariant 0 <= lo <= hi <= |intervals|
        invariant forall i :: 0 <= i < lo ==> intervals[i].first <= slot
        invariant forall i :: hi <= i < |intervals| ==> intervals[i].first > slot
      {
        var mid := (lo + hi) / 2;
        SortedAt(intervals, mid);
        if intervals[mid].first <= slot {
          lo := mid + 1;
        } else {
          hi := mid;
        }
      }
      held := lo != 0 && intervals[lo - 1].last >= slot;
      OnlyBefore(intervals, lo, slot);
    }

    // Adds runs, in any order.
    method Add(runs: seq<Interval>)
      requires Valid() && forall i :: 0 <= i < |runs| ==> runs[i].first <= runs[i].last
      modifies this
      ensures Valid() && forall x: nat :: Covers(intervals, x) <==> Covers(old(intervals), x) || Covers(runs, x)
    {
      if runs == [] {
        return;
      }
      hide Apart;
      hide Covers;
      var sorted := Sort(runs, ByFirst);
      SortSorts(runs, ByFirst);
      ApartSorted(intervals);
      var merged := Merge(intervals, sorted);
      CoversSame(merged, intervals, sorted);
      CoversSame(sorted, runs, runs);
      AllWide(merged, intervals, sorted, runs);
      var kept: seq<Interval> := [];
      NothingKept(merged);
      for i := 0 to |merged|
        invariant Apart(kept)
        invariant kept != [] && i < |merged| ==> kept[|kept| - 1].first <= merged[i].first
        invariant forall x: nat :: Covers(kept, x) <==> Covers(merged[..i], x)
      {
        assert merged[..i + 1] == merged[..i] + [merged[i]];
        CoversAdded(merged[..i], merged[i]);
        assert i + 1 < |merged| ==> ByFirst(merged[i], merged[i + 1]);
        kept := JoinNext(kept, merged[i]);
      }
      assert merged[..|merged|] == merged;
      intervals := kept;
    }
  }

  lemma SortedAt(intervals: seq<Interval>, mid: nat)
    requires Apart(intervals) && mid < |intervals|
    ensures forall i :: 0 <= i < mid ==> intervals[i].first <= intervals[mid].first
    ensures forall i :: mid < i < |intervals| ==> intervals[i].first >= intervals[mid].first
  {
  }

  lemma OnlyBefore(intervals: seq<Interval>, lo: nat, slot: nat)
    requires Apart(intervals) && lo <= |intervals|
    requires forall i :: 0 <= i < lo ==> intervals[i].first <= slot
    requires forall i :: lo <= i < |intervals| ==> intervals[i].first > slot
    ensures Covers(intervals, slot) <==> lo != 0 && intervals[lo - 1].last >= slot
  {
    if lo != 0 && intervals[lo - 1].last >= slot { assert intervals[lo - 1].Holds(slot); }
  }

  lemma ApartSorted(intervals: seq<Interval>)
    requires Apart(intervals)
    ensures SortedBy(intervals, ByFirst) && forall i :: 0 <= i < |intervals| ==> intervals[i].first <= intervals[i].last
  {
  }

  lemma AllWide(merged: seq<Interval>, intervals: seq<Interval>, sorted: seq<Interval>, runs: seq<Interval>)
    requires forall e :: e in merged <==> e in intervals || e in sorted
    requires forall e :: e in sorted <==> e in runs
    requires forall i :: 0 <= i < |intervals| ==> intervals[i].first <= intervals[i].last
    requires forall i :: 0 <= i < |runs| ==> runs[i].first <= runs[i].last
    ensures forall i :: 0 <= i < |merged| ==> merged[i].first <= merged[i].last
  {
    forall i | 0 <= i < |merged| ensures merged[i].first <= merged[i].last {
      assert merged[i] in merged;
    }
  }

  lemma NothingKept(merged: seq<Interval>)
    ensures Apart([]) && forall x: nat :: !Covers([], x) && !Covers(merged[..0], x)
  {
  }
}
