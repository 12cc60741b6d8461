// A set of record numbers in one flat table: open addressing with linear probing,
// never more than half full.
module RecordSet {
  import opened Prelude

  // The mark of a free slot.
  const VACANT: nat := U64_MAX

  // Slots a table starts with, a power of two.
  const FIRST_CAPACITY: nat := 64

  // 2^64 divided by the golden ratio.
  const GOLDEN: nat := 0x9E3779B97F4A7C15

  // Where a record would go in a table of n slots, a power of two: the high bits
  // of the product, which wraps at 2^64, under the mask of the table.
  function Home(record: nat, n: nat): (h: nat)
    requires n > 0
    ensures h < n
  {
    record * GOLDEN % 0x1_0000_0000_0000_0000 / 0x1_0000_0000 % n
  }

  // The slot d places after h, round the table.
  function Place(h: nat, d: nat, n: nat): (p: nat)
    requires h < n && d < n
    ensures p < n
  {
    if h + d < n then h + d else h + d - n
  }

  // The slots from the home of the record up to d places on are taken by others.
  ghost predicate Passes(t: seq<nat>, record: nat, d: nat)
    requires 0 < |t|
  {
    d <= |t| && forall e :: 0 <= e < d ==> TakenBy(t, Place(Home(record, |t|), e, |t|), record)
  }

  predicate TakenBy(t: seq<nat>, at: nat, record: nat)
    requires at < |t|
  {
    t[at] != VACANT && t[at] != record
  }

  // A probe for the record finds it: nothing vacant comes first.
  ghost predicate Reachable(t: seq<nat>, record: nat)
    requires 0 < |t|
  {
    exists d: nat :: Passes(t, record, d) && d < |t| && t[Place(Home(record, |t|), d, |t|)] == record
  }

  // Every record of the table is there once, where a probe finds it.
  ghost predicate TableRight(t: seq<nat>) {
    && (forall i, j :: 0 <= i < j < |t| && t[i] == t[j] ==> t[i] == VACANT)
    && (forall i :: 0 <= i < |t| && t[i] != VACANT ==> Reachable(t, t[i]))
  }

  ghost function Records(t: seq<nat>): set<nat> {
    set x | x in t && x != VACANT
  }

  // -------------------------------------------------------------------------
  // Probing
  // -------------------------------------------------------------------------

  // A table that holds fewer records than slots has a vacant one.
  lemma SomeVacant(t: seq<nat>)
    requires TableRight(t) && |Records(t)| < |t|
    ensures exists v :: 0 <= v < |t| && t[v] == VACANT
  {
    if forall v :: 0 <= v < |t| ==> t[v] != VACANT {
      NoneVacant(t);
    }
  }

  lemma NoneVacant(t: seq<nat>)
    requires TableRight(t) && forall v :: 0 <= v < |t| ==> t[v] != VACANT
    ensures |Records(t)| == |t|
  {
    AllDistinct(t);
    assert Elements(t) == Records(t);
  }

  function Elements(t: seq<nat>): set<nat> {
    set x | x in t
  }

  lemma {:induction false} AllDistinct(t: seq<nat>)
    requires forall i, j :: 0 <= i < j < |t| ==> t[i] != t[j]
    ensures |Elements(t)| == |t|
  {
    if t != [] {
      var front, last := t[..|t| - 1], t[|t| - 1];
      AllDistinct(front);
      assert last !in Elements(front);
      assert Elements(t) == Elements(front) + {last};
    }
  }

  // How far a slot is from another, round the table.
  function Distance(h: nat, v: nat, n: nat): (d: nat)
    requires h < n && v < n
    ensures d < n && Place(h, d, n) == v
  {
    if v >= h then v - h else v + n - h
  }

  // A probe that met no vacant slot and not the record before d, and a vacant one
  // at d, says that the record is not in the table.
  lemma NotHeld(t: seq<nat>, record: nat, d: nat)
    requires TableRight(t) && |t| > 0 && d < |t| && Passes(t, record, d)
    requires t[Place(Home(record, |t|), d, |t|)] == VACANT && record != VACANT
    ensures record !in t
  {
    hide Home;
    if record in t {
      assert Reachable(t, record);
      var e: nat :| Passes(t, record, e) && e < |t| && t[Place(Home(record, |t|), e, |t|)] == record;
      PathsAgree(t, record, d, e);
    }
  }

  // Two probes for one record pass the same slots.
  lemma PathsAgree(t: seq<nat>, record: nat, d: nat, e: nat)
    requires |t| > 0 && Passes(t, record, d) && Passes(t, record, e)
    ensures e < d ==> t[Place(Home(record, |t|), e, |t|)] != record
    ensures d < e ==> t[Place(Home(record, |t|), d, |t|)] != VACANT
  {
    hide Home;
    assert e < d ==> TakenBy(t, Place(Home(record, |t|), e, |t|), record);
    assert d < e ==> TakenBy(t, Place(Home(record, |t|), d, |t|), record);
  }

  // The record put in the vacant slot where its probe ended.
  lemma Put(t: seq<nat>, record: nat, d: nat)
    requires TableRight(t) && |t| > 0 && d < |t| && Passes(t, record, d)
    requires t[Place(Home(record, |t|), d, |t|)] == VACANT && record != VACANT
    ensures var u := t[Place(Home(record, |t|), d, |t|) := record];
      TableRight(u) && Records(u) == Records(t) + {record} && record !in t
  {
    hide Home;
    NotHeld(t, record, d);
    var at := Place(Home(record, |t|), d, |t|);
    var u := t[at := record];
    forall i | 0 <= i < |u| && u[i] != VACANT ensures Reachable(u, u[i]) {
      if i == at {
        StillPasses(t, u, at, record, record, d);
      } else {
        assert t[i] in t && Reachable(t, t[i]);
        var e: nat :| Passes(t, t[i], e) && e < |t| && t[Place(Home(t[i], |t|), e, |t|)] == t[i];
        StillPasses(t, u, at, record, t[i], e);
        assert u[Place(Home(t[i], |t|), e, |t|)] == t[i];
      }
    }
    forall x ensures x in u && x != VACANT <==> (x in t && x != VACANT) || x == record {
      if x in t && x != VACANT {
        var i :| 0 <= i < |t| && t[i] == x;
        assert u[i] == x;
      }
      assert u[at] == record;
    }
  }

  // A path that passed before the record was put passes after.
  lemma StillPasses(t: seq<nat>, u: seq<nat>, at: nat, record: nat, other: nat, d: nat)
    requires |t| > 0 && at < |t| && t[at] == VACANT && u == t[at := record] && record != VACANT
    requires Passes(t, other, d)
    ensures Passes(u, other, d)
  {
    hide Home;
    forall e | 0 <= e < d ensures TakenBy(u, Place(Home(other, |t|), e, |t|), other) {
      assert TakenBy(t, Place(Home(other, |t|), e, |t|), other);
    }
  }

  lemma NothingHeld(t: seq<nat>)
    requires forall i :: 0 <= i < |t| ==> t[i] == VACANT
    ensures TableRight(t) && Records(t) == {}
  {
  }

  // The slot that holds the record, or the vacant one where it would go.
  method SlotOf(slots: array<nat>, record: nat) returns (at: nat, ghost d: nat)
    requires TableRight(slots[..]) && |Records(slots[..])| < slots.Length && record != VACANT
    ensures d < slots.Length && at == Place(Home(record, slots.Length), d, slots.Length)
    ensures Passes(slots[..], record, d)
    ensures slots[at] == record || slots[at] == VACANT
    ensures slots[at] == record <==> record in slots[..]
  {
    hide Home;
    hide TableRight;
    ghost var t := slots[..];
    var n := slots.Length;
    SomeVacant(t);
    ghost var v :| 0 <= v < |t| && t[v] == VACANT;
    at := Home(record, n);
    ghost var last := Distance(at, v, n);
    ghost var h := at;
    d := 0;
    assert Passes(t, record, 0);
    while slots[at] != VACANT && slots[at] != record
      invariant d <= last < n && at < n && at == Place(h, d, n)
      invariant Passes(t, record, d)
      decreases last - d
    {
      assert d == last ==> at == v;
      PassesMore(t, record, d);
      d := d + 1;
      at := if at + 1 == n then 0 else at + 1;
    }
    if slots[at] == VACANT { NotHeld(t, record, d); }
  }

  lemma PassesMore(t: seq<nat>, record: nat, d: nat)
    requires |t| > 0 && d < |t| && Passes(t, record, d)
    requires TakenBy(t, Place(Home(record, |t|), d, |t|), record)
    ensures Passes(t, record, d + 1)
  {
    hide Home;
  }

  // The lengths a table may have: none, or a power of two from the first on, so that
  // the mask of the code takes the remainder that Home takes.
  function Doubled(k: nat): (n: nat)
    ensures n > 0
  {
    if k == 0 then FIRST_CAPACITY else 2 * Doubled(k - 1)
  }

  ghost predicate TableLength(n: nat) {
    n == 0 || exists k: nat :: n == Doubled(k)
  }

  lemma NextLength(n: nat)
    requires TableLength(n)
    ensures TableLength(Max(FIRST_CAPACITY, 2 * n))
  {
    assert FIRST_CAPACITY == Doubled(0);
    if n > 0 {
      var k: nat :| n == Doubled(k);
      assert 2 * n == Doubled(k + 1);
      LeastLength(k);
    }
  }

  lemma {:induction false} LeastLength(k: nat)
    ensures Doubled(k) >= FIRST_CAPACITY
  {
    if k > 0 { LeastLength(k - 1); }
  }

  class RecordSet {
    var slots: array<nat>
    var size: nat
    var holdsVacant: bool

    ghost predicate Valid()
      reads this, slots
    {
      && TableLength(slots.Length)
      && TableRight(slots[..])
      && |Records(slots[..])| * 2 <= slots.Length
      && size == |Records(slots[..])| + if holdsVacant then 1 else 0
    }

    ghost function Contents(): set<nat>
      reads this, slots
    {
      Records(slots[..]) + if holdsVacant then {VACANT} else {}
    }

    constructor ()
      ensures Valid() && Contents() == {} && fresh(slots)
    {
      slots := new nat[0];
      size, holdsVacant := 0, false;
      new;
      NothingHeld(slots[..]);
    }

    // The cardinality of the set.
    method Size() returns (n: nat)
      requires Valid()
      ensures n == |Contents()|
    {
      CountApart(slots[..], holdsVacant);
      return size;
    }

    // Empties the set. The table keeps its size.
    method Clear()
      requires Valid()
      modifies this, slots
      ensures Valid() && Contents() == {} && slots == old(slots)
    {
      for i := 0 to slots.Length
        invariant slots == old(slots)
        invariant forall j :: 0 <= j < i ==> slots[j] == VACANT
      {
        slots[i] := VACANT;
      }
      size, holdsVacant := 0, false;
      NothingHeld(slots[..]);
    }

    // Doubles the table and places the records again.
    method Grow()
      requires Valid()
      modifies this`slots
      ensures Valid() && Contents() == old(Contents()) && fresh(slots)
      ensures slots.Length == Max(FIRST_CAPACITY, 2 * old(slots.Length))
    {
      hide Home;
      hide TableRight;
      hide TableLength;
      var was := slots;
      NextLength(was.Length);
      ghost var t := was[..];
      slots := new nat[Max(FIRST_CAPACITY, was.Length * 2)](_ => VACANT);
      NothingHeld(slots[..]);
      Nothing(t);
      for i := 0 to was.Length
        invariant slots.Length == Max(FIRST_CAPACITY, 2 * was.Length) && fresh(slots) && was[..] == t
        invariant TableRight(slots[..]) && Records(slots[..]) == Records(t[..i])
      {
        FewerRecords(t, i);
        MoreRecords(t, i);
        if was[i] != VACANT {
          var at;
          ghost var d;
          at, d := SlotOf(slots, was[i]);
          ghost var before := slots[..];
          if slots[at] != was[i] { Put(before, was[i], d); }
          slots[at] := was[i];
          assert slots[..] == before[at := was[i]];
          if before[at] == was[i] { assert slots[..] == before; }
        }
      }
      assert t[..was.Length] == t;
    }

    // Adds a record. False when the set held it already.
    method Insert(record: nat) returns (isNew: bool)
      requires Valid() && record <= U64_MAX
      modifies this, slots
      ensures Valid() && Contents() == old(Contents()) + {record}
      ensures isNew <==> record !in old(Contents())
      ensures slots == old(slots) || fresh(slots)
    {
      hide Home;
      hide TableRight;
      hide Records;
      NoneIsVacant(slots[..]);
      // The mark of a free slot is a number too: it is kept apart.
      if record == VACANT {
        if holdsVacant {
          return false;
        }
        holdsVacant := true;
        size := size + 1;
        return true;
      }
      MakeRoom();
      isNew := PutRecord(record);
    }

    // At most half of the table is used, so a probe always ends.
    method MakeRoom()
      requires Valid()
      modifies this`slots
      ensures Valid() && Contents() == old(Contents()) && (size + 1) * 2 <= slots.Length
      ensures slots == old(slots) || fresh(slots)
    {
      hide TableRight;
      hide Records;
      if (size + 1) * 2 > slots.Length {
        Grow();
      }
    }

    // Puts a record in the table, unless it is there.
    method PutRecord(record: nat) returns (isNew: bool)
      requires Valid() && record < VACANT && (size + 1) * 2 <= slots.Length
      modifies this`size, slots
      ensures Valid() && Contents() == old(Contents()) + {record}
      ensures isNew <==> record !in old(Contents())
    {
      hide Home;
      hide TableRight;
      var at;
      ghost var d;
      at, d := SlotOf(slots, record);
      ghost var before := slots[..];
      if slots[at] == record {
        return false;
      }
      Put(before, record, d);
      slots[at] := record;
      assert slots[..] == before[at := record];
      size := size + 1;
      return true;
    }
  }

  lemma NoneIsVacant(t: seq<nat>)
    ensures VACANT !in Records(t)
  {
  }

  lemma CountApart(t: seq<nat>, holdsVacant: bool)
    ensures |Records(t) + if holdsVacant then {VACANT} else {}| == |Records(t)| + if holdsVacant then 1 else 0
  {
    if !holdsVacant { assert Records(t) + {} == Records(t); }
  }

  lemma Nothing(t: seq<nat>)
    ensures Records(t[..0]) == {}
  {
  }

  lemma MoreRecords(t: seq<nat>, i: nat)
    requires i < |t|
    ensures Records(t[..i + 1]) == Records(t[..i]) + if t[i] == VACANT then {} else {t[i]}
  {
    assert t[..i + 1] == t[..i] + [t[i]];
  }

  lemma FewerRecords(t: seq<nat>, i: nat)
    requires i <= |t|
    ensures Records(t[..i]) <= Records(t) && |Records(t[..i])| <= |Records(t)|
  {
    SmallerSet(Records(t[..i]), Records(t));
  }
}
