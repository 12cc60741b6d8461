// The runs of $MFT read last, within a byte budget: the newest held copy of each
// record is found, and the oldest run goes first.
module RecordWindow {
  import opened Prelude

  // One run read from $MFT: count records from firstSlot on.
  datatype Run = Run(firstSlot: nat, count: nat, bytes: seq<bv8>) {
    predicate Holds(slot: nat) { firstSlot <= slot < firstSlot + count }
  }

  // Where the newest copy of a record sits: the number of its run, and its place
  // in it.
  datatype Place = Place(serial: nat, index: nat)

  // Record k of a run of records of size bytes.
  function RecordAt(bytes: seq<bv8>, k: nat, size: nat): seq<bv8> {
    if k * size + size <= |bytes| then bytes[k * size..k * size + size] else []
  }

  // The records of a run, one after the other.
  function Joined(records: seq<seq<bv8>>): seq<bv8> {
    if records == [] then [] else Joined(records[..|records| - 1]) + records[|records| - 1]
  }

  // Record k of them is the one at k.
  lemma {:induction false} RecordOfJoined(records: seq<seq<bv8>>, size: nat, k: nat)
    requires k < |records| && forall i :: 0 <= i < |records| ==> |records[i]| == size
    ensures RecordAt(Joined(records), k, size) == records[k] && |Joined(records)| == |records| * size
  {
    var n := |records| - 1;
    var front, last := records[..n], records[n];
    hide RecordAt;
    JoinedSize(records, size);
    JoinedSize(front, size);
    if k < n {
      RecordOfJoined(front, size, k);
      RecordFits(n, k, size);
      RecordStays(Joined(front), last, k, size);
    } else {
      RecordNext(Joined(front), last, n, size);
    }
  }

  lemma RecordStays(before: seq<bv8>, last: seq<bv8>, k: nat, size: nat)
    requires k * size + size <= |before|
    ensures RecordAt(before + last, k, size) == RecordAt(before, k, size)
  {
    var at := k * size;
    assert (before + last)[at..at + size] == before[at..at + size];
  }

  lemma RecordNext(before: seq<bv8>, last: seq<bv8>, n: nat, size: nat)
    requires |before| == n * size && |last| == size
    ensures RecordAt(before + last, n, size) == last
  {
    var at := n * size;
    assert (before + last)[at..at + size] == last;
  }

  lemma {:induction false} JoinedSize(records: seq<seq<bv8>>, size: nat)
    requires forall i :: 0 <= i < |records| ==> |records[i]| == size
    ensures |Joined(records)| == |records| * size
  {
    if records != [] { JoinedSize(records[..|records| - 1], size); }
  }

  // The last run that holds a slot.
  function Newest(runs: seq<Run>, slot: nat): (k: Option<nat>)
    ensures k.Some? ==> k.value < |runs| && runs[k.value].Holds(slot)
  {
    if runs == [] then None
    else if runs[|runs| - 1].Holds(slot) then Some(|runs| - 1)
    else Newest(runs[..|runs| - 1], slot)
  }

  // The bytes of the newest copy of a record held, or none.
  function NewestCopy(runs: seq<Run>, slot: nat, size: nat): seq<bv8> {
    var k := Newest(runs, slot);
    if k.None? then [] else RecordAt(runs[k.value].bytes, slot - runs[k.value].firstSlot, size)
  }

  function BytesOf(runs: seq<Run>): nat {
    if runs == [] then 0 else BytesOf(runs[..|runs| - 1]) + |runs[|runs| - 1].bytes|
  }

  lemma NewestAdded(runs: seq<Run>, run: Run, slot: nat)
    ensures Newest(runs + [run], slot) == if run.Holds(slot) then Some(|runs|) else Newest(runs, slot)
  {
    assert (runs + [run])[..|runs|] == runs;
  }

  // Without the oldest run, the others move up by one.
  lemma {:induction false} NewestWithout(runs: seq<Run>, slot: nat)
    requires runs != []
    ensures var k := Newest(runs, slot);
      Newest(runs[1..], slot) == if k.Some? && k.value > 0 then Some(k.value - 1) else None
  {
    var n := |runs| - 1;
    if n > 0 {
      var front := runs[..n];
      NewestWithout(front, slot);
      assert runs[1..] == front[1..] + [runs[n]];
      NewestAdded(front[1..], runs[n], slot);
    }
  }

  lemma {:induction false} BytesWithout(runs: seq<Run>)
    requires runs != []
    ensures BytesOf(runs) == |runs[0].bytes| + BytesOf(runs[1..])
  {
    var n := |runs| - 1;
    if n > 0 {
      BytesWithout(runs[..n]);
      assert runs[..n][1..] == runs[1..][..n - 1];
    } else {
      assert runs[1..] == [];
    }
  }

  // The places name the newest copies of the slots held, and no other.
  ghost predicate PlacesRight(runs: seq<Run>, first: nat, places: map<nat, Place>) {
    forall slot: nat :: PlaceRight(runs, first, places, slot)
  }

  ghost predicate PlaceRight(runs: seq<Run>, first: nat, places: map<nat, Place>, slot: nat) {
    var k := Newest(runs, slot);
    if k.None? then slot !in places
    else slot in places && places[slot] == Place(first + k.value, slot - runs[k.value].firstSlot)
  }

  class RecordWindow {
    const budget: nat
    const recordSize: nat
    var held: nat
    // The number of the oldest run, which the others follow.
    var firstSerial: nat
    var runs: seq<Run>
    var places: map<nat, Place>

    ghost predicate Valid()
      reads this
    {
      && recordSize > 0
      && (forall k :: 0 <= k < |runs| ==> runs[k].count > 0 && |runs[k].bytes| == runs[k].count * recordSize)
      && held == BytesOf(runs) <= budget
      && PlacesRight(runs, firstSerial, places)
    }

    constructor (budget: nat, recordSize: nat)
      ensures Valid() && runs == [] && this.budget == budget && this.recordSize == Max(1, recordSize)
    {
      this.budget, this.recordSize := budget, Max(1, recordSize);
      held, firstSerial, runs, places := 0, 0, [], map[];
    }

    // The newest held copy of a record.
    method Find(slot: nat) returns (bytes: seq<bv8>)
      requires Valid()
      ensures bytes == NewestCopy(runs, slot, recordSize)
      ensures bytes != [] <==> slot in places
    {
      assert PlaceRight(runs, firstSerial, places, slot);
      if slot !in places {
        return [];
      }
      var place := places[slot];
      var run := runs[place.serial - firstSerial];
      RecordFits(run.count, place.index, recordSize);
      return RecordAt(run.bytes, place.index, recordSize);
    }

    // Drops the oldest run, and the places that still point to it.
    method DropOldest()
      requires Valid() && runs != []
      modifies this`held, this`firstSerial, this`runs, this`places
      ensures Valid() && runs == old(runs)[1..] && held == old(held) - |old(runs)[0].bytes|
    {
      hide Newest;
      var oldest := runs[0];
      ghost var was := places;
      for index := 0 to oldest.count
        invariant Dropped(was, places, oldest, index, firstSerial)
        invariant runs == old(runs) && firstSerial == old(firstSerial) && held == old(held)
      {
        var slot := oldest.firstSlot + index;
        if slot in places && places[slot].serial == firstSerial {
          places := places - {slot};
        }
      }
      AllDropped(runs, firstSerial, was, places);
      BytesWithout(runs);
      held := held - |oldest.bytes|;
      runs := runs[1..];
      firstSerial := firstSerial + 1;
    }

    // Holds the records of a run read from firstSlot on, and drops the oldest runs
    // until the budget fits.
    method Put(firstSlot: nat, bytes: seq<bv8>)
      requires Valid()
      modifies this`held, this`firstSerial, this`runs, this`places
      ensures Valid()
      ensures var kept := Whole(bytes, recordSize);
        if kept == [] || |kept| > budget then runs == old(runs)
        else exists drop: nat :: KeptWith(old(runs), runs, drop, firstSlot, kept, recordSize, budget)
    {
      hide PlacesRight;
      hide UnitOf;
      hide UnitStart;
      hide BytesOf;
      var count := UnitOf(|bytes|, recordSize);
      var size := UnitStart(|bytes|, recordSize);
      UnitBounds(|bytes|, recordSize);
      WholeSize(bytes, recordSize);
      if count == 0 || size > budget {
        return;
      }
      var drop := MakeRoom(size);
      Append(Run(firstSlot, count, bytes[..size]));
      CountAgain(bytes, recordSize);
      assert KeptWith(old(runs), runs, drop, firstSlot, Whole(bytes, recordSize), recordSize, budget);
    }

    // Drops the oldest runs until size more bytes fit.
    method MakeRoom(size: nat) returns (ghost drop: nat)
      requires Valid() && size <= budget
      modifies this`held, this`firstSerial, this`runs, this`places
      ensures Valid() && held + size <= budget
      ensures drop <= |old(runs)| && runs == old(runs)[drop..]
      ensures drop > 0 ==> BytesOf(old(runs)[drop - 1..]) + size > budget
    {
      hide PlacesRight;
      drop := 0;
      while held + size > budget
        invariant Valid() && drop <= |old(runs)| && runs == old(runs)[drop..]
        invariant drop > 0 ==> BytesOf(old(runs)[drop - 1..]) + size > budget
        decreases |runs|
      {
        assert runs[1..] == old(runs)[drop + 1..];
        DropOldest();
        drop := drop + 1;
      }
    }

    // Adds a run as the newest one.
    method Append(run: Run)
      requires Valid() && run.count > 0 && |run.bytes| == run.count * recordSize && held + |run.bytes| <= budget
      modifies this`held, this`runs, this`places
      ensures Valid() && runs == old(runs) + [run]
    {
      hide PlacesRight;
      hide Placed;
      var serial := firstSerial + |runs|;
      ghost var before, was := runs, places;
      BytesAdded(before, run);
      runs := runs + [run];
      held := held + |run.bytes|;
      NothingPlaced(was, run, serial);
      for index := 0 to run.count
        invariant Placed(was, places, run, index, serial)
        invariant runs == before + [run] && held == BytesOf(runs)
      {
        PlacedMore(was, places, run, index, serial);
        places := places[run.firstSlot + index := Place(serial, index)];
      }
      AllPlaced(before, run, firstSerial, was, places);
    }
  }

  lemma RecordFits(count: nat, index: nat, size: nat)
    requires index < count
    ensures index * size + size <= count * size
  {
    ProductMonotone(index + 1, count, size);
  }

  // The whole records of some bytes: a part of one at the end is left out.
  function Whole(bytes: seq<bv8>, size: nat): seq<bv8>
    requires size > 0
  {
    UnitBounds(|bytes|, size);
    bytes[..UnitStart(|bytes|, size)]
  }

  lemma WholeSize(bytes: seq<bv8>, size: nat)
    requires size > 0
    ensures |Whole(bytes, size)| == UnitStart(|bytes|, size) == UnitOf(|bytes|, size) * size
    ensures Whole(bytes, size) == [] <==> UnitOf(|bytes|, size) == 0
  {
    if UnitOf(|bytes|, size) > 0 { ProductMonotone(1, UnitOf(|bytes|, size), size); }
  }

  // The newest runs that fit with the new one, and the new one last.
  ghost predicate KeptWith(before: seq<Run>, after: seq<Run>, drop: nat, firstSlot: nat, kept: seq<bv8>, size: nat, budget: nat)
    requires size > 0
  {
    && drop <= |before|
    && after == before[drop..] + [Run(firstSlot, UnitOf(|kept|, size), kept)]
    && BytesOf(after) <= budget
    && (drop > 0 ==> BytesOf(before[drop - 1..]) + |kept| > budget)
  }

  lemma CountAgain(bytes: seq<bv8>, size: nat)
    requires size > 0
    ensures UnitOf(|Whole(bytes, size)|, size) == UnitOf(|bytes|, size)
  {
    WholeSize(bytes, size);
    QuotientIs(|Whole(bytes, size)|, UnitOf(|bytes|, size), size);
  }

  lemma BytesAdded(runs: seq<Run>, run: Run)
    ensures BytesOf(runs + [run]) == BytesOf(runs) + |run.bytes|
  {
    assert (runs + [run])[..|runs|] == runs;
  }

  // The places of the first records of the oldest run are gone, where no newer run
  // took them over.
  ghost predicate Dropped(was: map<nat, Place>, now: map<nat, Place>, oldest: Run, n: nat, serial: nat) {
    forall s: nat :: if s in was && !(oldest.firstSlot <= s < oldest.firstSlot + n && was[s].serial == serial)
      then s in now && now[s] == was[s] else s !in now
  }

  lemma AllDropped(runs: seq<Run>, first: nat, was: map<nat, Place>, now: map<nat, Place>)
    requires runs != [] && PlacesRight(runs, first, was) && Dropped(was, now, runs[0], runs[0].count, first)
    ensures PlacesRight(runs[1..], first + 1, now)
  {
    var rest, next := runs[1..], first + 1;
    forall s: nat ensures PlaceRight(rest, next, now, s) {
      assert PlaceRight(runs, first, was, s);
      NewestWithout(runs, s);
      hide Newest;
    }
  }

  // The first records of the new run have their places.
  ghost predicate Placed(was: map<nat, Place>, now: map<nat, Place>, run: Run, n: nat, serial: nat) {
    forall s: nat :: if run.firstSlot <= s < run.firstSlot + n
      then s in now && now[s] == Place(serial, s - run.firstSlot)
      else (s in now <==> s in was) && (s in was ==> now[s] == was[s])
  }

  lemma NothingPlaced(was: map<nat, Place>, run: Run, serial: nat)
    ensures Placed(was, was, run, 0, serial)
  {
  }

  lemma PlacedMore(was: map<nat, Place>, now: map<nat, Place>, run: Run, n: nat, serial: nat)
    requires Placed(was, now, run, n, serial)
    ensures Placed(was, now[run.firstSlot + n := Place(serial, n)], run, n + 1, serial)
  {
  }

  lemma AllPlaced(runs: seq<Run>, run: Run, first: nat, was: map<nat, Place>, now: map<nat, Place>)
    requires PlacesRight(runs, first, was) && Placed(was, now, run, run.count, first + |runs|)
    ensures PlacesRight(runs + [run], first, now)
  {
    var all := runs + [run];
    forall s: nat ensures PlaceRight(all, first, now, s) {
      assert PlaceRight(runs, first, was, s);
      NewestAdded(runs, run, s);
      hide Newest;
    }
  }
}
