// Small building blocks shared by the modules: optional values, 64-bit limits,
// and the contract of the standard library's stable sort.
module Prelude {

  datatype Option<+T> = None | Some(value: T)

  // The largest unsigned 64-bit value.
  const U64_MAX: nat := 0xFFFF_FFFF_FFFF_FFFF

  // The largest signed 64-bit value: the highest byte address a read can name.
  const I64_MAX: nat := 0x7FFF_FFFF_FFFF_FFFF

  function Min(a: int, b: int): int {
    if a <= b then a else b
  }

  function Max(a: int, b: int): int {
    if a >= b then a else b
  }

  // A number in 64-bit arithmetic, which wraps.
  function In64(x: int): nat {
    x % (U64_MAX + 1)
  }

  lemma Wraps(x: int)
    requires -(U64_MAX as int) <= x <= U64_MAX + 1
    ensures x < 0 ==> In64(x) == x + U64_MAX + 1
    ensures 0 <= x <= U64_MAX ==> In64(x) == x
    ensures x == U64_MAX + 1 ==> In64(x) == 0
  {
  }

  // A sum of two 64-bit values.
  lemma WrapsOnce(x: nat)
    requires x <= 2 * U64_MAX
    ensures In64(x) == if x <= U64_MAX then x else x - U64_MAX - 1
  {
  }

  // a + b, stopped at the largest 64-bit value instead of wrapping.
  function SaturatingAdd(a: nat, b: nat): (r: nat)
    requires a <= U64_MAX && b <= U64_MAX
    ensures r <= U64_MAX
    ensures a + b <= U64_MAX ==> r == a + b
    ensures a + b > U64_MAX ==> r == U64_MAX
  {
    if b > U64_MAX - a then U64_MAX else a + b
  }

  ghost predicate TotalPreorder<T(!new)>(leq: (T, T) -> bool) {
    && (forall x, y :: leq(x, y) || leq(y, x))
    && (forall x, y, z :: leq(x, y) && leq(y, z) ==> leq(x, z))
  }

  ghost predicate SortedBy<T>(s: seq<T>, leq: (T, T) -> bool) {
    forall i, j :: 0 <= i < j < |s| ==> leq(s[i], s[j])
  }

  // The library's stable sort, as the algorithms see it: an insertion sort.
  function Sort<T>(s: seq<T>, leq: (T, T) -> bool): seq<T> {
    if s == [] then [] else Place(Sort(s[..|s| - 1], leq), s[|s| - 1], leq)
  }

  // s, sorted, with x put after every element that is not above it.
  function Place<T>(s: seq<T>, x: T, leq: (T, T) -> bool): seq<T> {
    if s == [] || leq(s[|s| - 1], x) then s + [x]
    else Place(s[..|s| - 1], x, leq) + [s[|s| - 1]]
  }

  lemma {:induction false} PlaceKeeps<T>(s: seq<T>, x: T, leq: (T, T) -> bool)
    ensures multiset(Place(s, x, leq)) == multiset(s) + multiset{x}
  {
    if s == [] || leq(s[|s| - 1], x) {
    } else {
      PlaceKeeps(s[..|s| - 1], x, leq);
      assert s == s[..|s| - 1] + [s[|s| - 1]];
    }
  }

  lemma {:induction false} PlaceSorts<T(!new)>(s: seq<T>, x: T, leq: (T, T) -> bool)
    requires TotalPreorder(leq) && SortedBy(s, leq)
    ensures SortedBy(Place(s, x, leq), leq)
  {
    if s == [] || leq(s[|s| - 1], x) {
    } else {
      var last := s[|s| - 1];
      PlaceSorts(s[..|s| - 1], x, leq);
      PlaceKeeps(s[..|s| - 1], x, leq);
      var rest := Place(s[..|s| - 1], x, leq);
      forall i | 0 <= i < |rest| ensures leq(rest[i], last) {
        assert rest[i] in multiset(rest);
        if rest[i] != x {
          assert rest[i] in multiset(s[..|s| - 1]);
          assert rest[i] in s[..|s| - 1];
        }
      }
    }
  }

  // Sorting keeps every element, as often as it occurs, and orders them.
  lemma {:induction false} SortSorts<T(!new)>(s: seq<T>, leq: (T, T) -> bool)
    requires TotalPreorder(leq)
    ensures SortedBy(Sort(s, leq), leq)
    ensures multiset(Sort(s, leq)) == multiset(s)
    ensures |Sort(s, leq)| == |s|
    ensures forall x :: x in Sort(s, leq) <==> x in s
  {
    if s != [] {
      var front := s[..|s| - 1];
      SortSorts(front, leq);
      PlaceSorts(Sort(front, leq), s[|s| - 1], leq);
      PlaceKeeps(Sort(front, leq), s[|s| - 1], leq);
      assert s == front + [s[|s| - 1]];
    }
    SameElements(Sort(s, leq), s);
  }

  // Any two elements, at different places, are related.
  ghost predicate Pairwise<T>(s: seq<T>, related: (T, T) -> bool) {
    forall i, j :: 0 <= i < |s| && 0 <= j < |s| && i != j ==> related(s[i], s[j])
  }

  lemma {:induction false} PlacePairwise<T>(s: seq<T>, x: T, leq: (T, T) -> bool, related: (T, T) -> bool)
    requires Pairwise(s + [x], related)
    ensures Pairwise(Place(s, x, leq), related)
  {
    if s == [] || leq(s[|s| - 1], x) {
    } else {
      var front, last := s[..|s| - 1], s[|s| - 1];
      var whole := s + [x];
      forall i, j | 0 <= i < |front + [x]| && 0 <= j < |front + [x]| && i != j ensures related((front + [x])[i], (front + [x])[j]) {
        assert (front + [x])[i] == whole[if i < |front| then i else |s|];
        assert (front + [x])[j] == whole[if j < |front| then j else |s|];
      }
      PlacePairwise(front, x, leq, related);
      PlaceKeeps(front, x, leq);
      var rest := Place(front, x, leq);
      forall i | 0 <= i < |rest| ensures related(rest[i], last) && related(last, rest[i]) {
        assert rest[i] in multiset(rest);
        if rest[i] in front {
          var k :| 0 <= k < |front| && front[k] == rest[i];
          assert whole[k] == rest[i] && whole[|front|] == last;
        } else {
          assert rest[i] == x && whole[|s|] == x && whole[|front|] == last;
        }
      }
    }
  }

  // Sorting keeps what holds of every two elements.
  lemma {:induction false} SortPairwise<T(!new)>(s: seq<T>, leq: (T, T) -> bool, related: (T, T) -> bool)
    requires TotalPreorder(leq) && Pairwise(s, related)
    ensures Pairwise(Sort(s, leq), related)
  {
    if s != [] {
      var front, last := s[..|s| - 1], s[|s| - 1];
      SortPairwise(front, leq, related);
      SortSorts(front, leq);
      var sorted := Sort(front, leq) + [last];
      forall i, j | 0 <= i < |sorted| && 0 <= j < |sorted| && i != j ensures related(sorted[i], sorted[j]) {
        if i < |front| && j < |front| {
          assert related(Sort(front, leq)[i], Sort(front, leq)[j]);
        } else if i < |front| {
          assert Sort(front, leq)[i] in front;
          var k :| 0 <= k < |front| && front[k] == sorted[i];
          assert s[k] == sorted[i] && s[|front|] == last;
        } else {
          assert Sort(front, leq)[j] in front;
          var k :| 0 <= k < |front| && front[k] == sorted[j];
          assert s[k] == sorted[j] && s[|front|] == last;
        }
      }
      PlacePairwise(Sort(front, leq), last, leq, related);
    }
  }

  lemma SameElements<T>(s: seq<T>, t: seq<T>)
    requires multiset(s) == multiset(t)
    ensures |s| == |t|
    ensures forall x :: x in s <==> x in t
  {
    assert |multiset(s)| == |s| && |multiset(t)| == |t|;
    forall x ensures x in s <==> x in t {
      assert x in s <==> x in multiset(s);
      assert x in t <==> x in multiset(t);
    }
  }

  lemma {:induction false} SmallerSet<T>(a: set<T>, b: set<T>)
    requires a <= b
    ensures |a| <= |b|
  {
    if a != {} {
      var x :| x in a;
      SmallerSet(a - {x}, b - {x});
    }
  }

  lemma SliceJoined<T>(base: seq<T>, cells: seq<T>, a: nat, b: nat)
    requires a <= b <= |cells|
    ensures base + cells[..a] + cells[a..b] == base + cells[..b]
  {
    assert cells[..a] + cells[a..b] == cells[..b];
  }

  // -------------------------------------------------------------------------
  // Rounding down to a multiple
  // -------------------------------------------------------------------------

  lemma ProductMonotone(a: nat, b: nat, c: nat)
    requires a <= b
    ensures a * c <= b * c
  {
    assert (b - a) * c >= 0;
  }

  lemma FloorBounds(x: nat, unit: nat)
    requires unit > 0
    ensures x / unit * unit <= x < x / unit * unit + unit
  {
  }

  lemma QuotientMonotone(x: nat, y: nat, unit: nat)
    requires unit > 0 && x <= y
    ensures x / unit <= y / unit
  {
    FloorBounds(x, unit);
    FloorBounds(y, unit);
    if x / unit > y / unit {
      ProductMonotone(y / unit + 1, x / unit, unit);
      assert false;
    }
  }

  lemma FloorMonotone(x: nat, y: nat, unit: nat)
    requires unit > 0 && x <= y
    ensures x / unit * unit <= y / unit * unit
  {
    QuotientMonotone(x, y, unit);
    ProductMonotone(x / unit, y / unit, unit);
  }

  lemma QuotientIs(v: nat, q: nat, unit: nat)
    requires unit > 0 && q * unit <= v < q * unit + unit
    ensures v / unit == q
  {
    FloorBounds(v, unit);
    if v / unit > q {
      ProductMonotone(q + 1, v / unit, unit);
      assert false;
    }
    if v / unit < q {
      ProductMonotone(v / unit + 1, q, unit);
      assert false;
    }
  }

  // How the quotient of b compares with q.
  lemma QuotientOrder(q: nat, b: nat, p: nat, unit: nat)
    requires p * unit <= b < p * unit + unit
    ensures q <= p <==> q * unit <= b
    ensures p <= q <==> b < q * unit + unit
  {
    if q <= p {
      ProductMonotone(q, p, unit);
    } else {
      ProductMonotone(p + 1, q, unit);
    }
    if p <= q {
      ProductMonotone(p, q, unit);
    } else {
      ProductMonotone(q + 1, p, unit);
    }
  }

  // The unit of unit numbers that holds v, and its first number.
  function UnitOf(v: nat, unit: nat): nat
    requires unit > 0
  {
    v / unit
  }

  function UnitStart(v: nat, unit: nat): nat
    requires unit > 0
  {
    v / unit * unit
  }

  lemma UnitBounds(v: nat, unit: nat)
    requires unit > 0
    ensures UnitStart(v, unit) <= v < UnitStart(v, unit) + unit
  {
    FloorBounds(v, unit);
  }

  // How the units of v and w compare.
  lemma UnitOrder(v: nat, w: nat, unit: nat)
    requires unit > 0
    ensures UnitOf(w, unit) <= UnitOf(v, unit) <==> UnitStart(w, unit) <= v
    ensures UnitOf(v, unit) <= UnitOf(w, unit) <==> v < UnitStart(w, unit) + unit
    ensures v <= w ==> UnitOf(v, unit) <= UnitOf(w, unit) && UnitStart(v, unit) <= UnitStart(w, unit)
  {
    FloorBounds(v, unit);
    QuotientOrder(w / unit, v, v / unit, unit);
    if v <= w {
      FloorMonotone(v, w, unit);
      QuotientMonotone(v, w, unit);
    }
  }

  lemma SameUnitStart(v: nat, w: nat, unit: nat)
    requires unit > 0 && UnitStart(v, unit) <= w < UnitStart(v, unit) + unit
    ensures UnitStart(w, unit) == UnitStart(v, unit)
  {
    QuotientIs(w, v / unit, unit);
  }
}
