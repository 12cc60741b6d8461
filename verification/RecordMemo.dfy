// A direct-mapped table of what a probe reads of a file record: the record it
// rebuilds has those bytes, and zeros elsewhere.
module RecordMemo {
  import opened Prelude

  const STRIDE: nat := 512
  const MAX_RECORD_SIZE: nat := 4096
  const TWO_64: nat := 0x1_0000_0000_0000_0000

  // "FILE".
  const MAGIC: seq<bv8> := [0x46, 0x49, 0x4C, 0x45]

  // Where the header ends: the update sequence array starts after it.
  const HEADER_END: nat := 0x18

  function WordAt(bytes: seq<bv8>, at: nat): nat
    requires at + 2 <= |bytes|
  {
    bytes[at] as nat + 256 * (bytes[at + 1] as nat)
  }

  function OffsetOfUs(bytes: seq<bv8>): nat
    requires |bytes| >= HEADER_END
  {
    WordAt(bytes, 4)
  }

  // Bytes of the update sequence array that a probe reads.
  function ArrayBytes(sectors: nat, sizeOfUs: nat): nat {
    2 * (1 + Min(Max(0, sizeOfUs - 1), sectors))
  }

  function ArrayOf(bytes: seq<bv8>, sectors: nat): nat
    requires |bytes| >= HEADER_END
  {
    ArrayBytes(sectors, WordAt(bytes, 6))
  }

  // A record of so many sectors is kept when it is a FILE record whose array lies
  // after the header and before the end of the first sector.
  predicate Keepable(bytes: seq<bv8>, sectors: nat) {
    && sectors > 0 && |bytes| == sectors * STRIDE
    && bytes[0..4] == MAGIC
    && HEADER_END <= OffsetOfUs(bytes)
    && OffsetOfUs(bytes) + ArrayOf(bytes, sectors) <= STRIDE - 2
  }

  // Such a record: its array starts after the header, and each of its words that a
  // probe reads ends before the last word of the first sector.
  lemma KeepableMeans(bytes: seq<bv8>, sectors: nat)
    requires sectors > 0 && |bytes| == sectors * STRIDE
    ensures |bytes| >= 512
    ensures var at, words := bytes[4] as nat + 256 * (bytes[5] as nat), bytes[6] as nat + 256 * (bytes[7] as nat);
      Keepable(bytes, sectors) <==> bytes[0] == 0x46 && bytes[1] == 0x49 && bytes[2] == 0x4C && bytes[3] == 0x45 && at >= 24 && forall k: nat :: k == 0 || (k < words && k <= sectors) ==> WordEnds(at, k)
  {
    var at, words := OffsetOfUs(bytes), WordAt(bytes, 6);
    assert bytes[0..4] == MAGIC <==> bytes[0] == 0x46 && bytes[1] == 0x49 && bytes[2] == 0x4C && bytes[3] == 0x45;
    LastWordEnds(at, words, sectors);
  }

  lemma LastWordEnds(at: nat, words: nat, sectors: nat)
    ensures at + ArrayBytes(sectors, words) <= 510 <==> forall k: nat :: k == 0 || (k < words && k <= sectors) ==> WordEnds(at, k)
  {
    var last: nat := Min(Max(0, words as int - 1), sectors);
    assert at + ArrayBytes(sectors, words) <= 510 <==> WordEnds(at, last);
    if forall k: nat :: k == 0 || (k < words && k <= sectors) ==> WordEnds(at, k) {
      assert WordEnds(at, last);
    }
  }

  predicate WordEnds(at: nat, k: nat) {
    at + 2 * k + 2 <= 510
  }

  // What a probe reads: the signature, the place of the array, the sequence
  // number, the flags, the array, and the last word of each sector.
  predicate Read(bytes: seq<bv8>, sectors: nat, k: nat)
    requires |bytes| >= HEADER_END
  {
    k < 8 || 0x10 <= k < 0x12 || 0x16 <= k < 0x18
    || OffsetOfUs(bytes) <= k < OffsetOfUs(bytes) + ArrayOf(bytes, sectors)
    || EndOfSector(k)
  }

  predicate EndOfSector(k: nat) {
    k % STRIDE >= STRIDE - 2
  }

  // The record as a probe judges it.
  function Judged(bytes: seq<bv8>, sectors: nat): seq<bv8>
    requires |bytes| >= HEADER_END
  {
    seq(|bytes|, k requires 0 <= k < |bytes| => if Read(bytes, sectors, k) then bytes[k] else 0)
  }

  // What a place of the table holds.
  datatype Place = Place(marker: nat, offsetOfUs: seq<bv8>, sizeOfUs: seq<bv8>, seqNo: seq<bv8>, flags: seq<bv8>,
                         array_: seq<bv8>, ends: seq<seq<bv8>>)

  // A place that nothing was written to.
  function EmptyPlace(sectors: nat): Place {
    Place(0, [0, 0], [0, 0], [0, 0], [0, 0], [0, 0], seq(sectors, _ => [0, 0]))
  }

  // The parts of a place fit a record.
  predicate Shaped(p: Place, sectors: nat) {
    && |p.offsetOfUs| == |p.sizeOfUs| == |p.seqNo| == |p.flags| == 2
    && WordAt(p.offsetOfUs, 0) + |p.array_| <= STRIDE - 2
    && |p.ends| == sectors && (forall s :: 0 <= s < sectors ==> |p.ends[s]| == 2)
  }

  // The place that a slot takes.
  function PlaceOf(slot: nat, entries: nat): (at: nat)
    requires entries > 0
    ensures at < entries
  {
    slot % entries
  }

  // Slots closer than the table is long never share a place, and one that far away
  // does.
  lemma PlacesApart(a: nat, b: nat, entries: nat)
    requires entries > 0 && a < b
    ensures b - a < entries ==> PlaceOf(a, entries) != PlaceOf(b, entries)
    ensures PlaceOf(a + entries, entries) == PlaceOf(a, entries)
  {
    FloorBounds(a, entries);
    QuotientIs(a + entries, a / entries + 1, entries);
    if b - a < entries && a % entries == b % entries {
      QuotientMonotone(a, b, entries);
      if a / entries < b / entries { ProductMonotone(a / entries + 1, b / entries, entries); }
    }
  }

  function Marker(slot: nat): nat {
    (slot + 1) % TWO_64
  }

  // The place holds what a probe reads of a record.
  ghost predicate Keeps(p: Place, bytes: seq<bv8>, sectors: nat) {
    && Keepable(bytes, sectors)
    && p.offsetOfUs == bytes[4..6] && p.sizeOfUs == bytes[6..8] && p.seqNo == bytes[0x10..0x12] && p.flags == bytes[0x16..0x18]
    && p.array_ == bytes[OffsetOfUs(bytes)..OffsetOfUs(bytes) + ArrayOf(bytes, sectors)]
    && |p.ends| == sectors
    && (forall s :: 0 <= s < sectors ==> p.ends[s] == bytes[(s + 1) * STRIDE - 2..(s + 1) * STRIDE])
  }

  // The bytes copied so far are the record's, and the others are zero.
  ghost predicate Copied(out: seq<bv8>, bytes: seq<bv8>, done: nat -> bool) {
    |out| == |bytes| && forall k :: 0 <= k < |out| ==> out[k] == if done(k) then bytes[k] else 0
  }

  // Copies a part of a record back to its place.
  method CopyBack(out: array<bv8>, at: nat, part: seq<bv8>)
    requires at + |part| <= out.Length
    modifies out
    ensures out[..] == old(out[..at]) + part + old(out[at + |part|..])
  {
    ghost var was := out[..];
    for i := 0 to |part|
      invariant out[..] == was[..at] + part[..i] + was[at + i..]
    {
      out[at + i] := part[i];
    }
    assert part[..|part|] == part;
  }

  // The bytes copied before, and those of one more part.
  function Also(done: nat -> bool, at: nat, n: nat): nat -> bool {
    (k: nat) => done(k) || at <= k < at + n
  }

  lemma CopiedMore(was: seq<bv8>, now: seq<bv8>, at: nat, part: seq<bv8>, bytes: seq<bv8>, done: nat -> bool)
    requires Copied(was, bytes, done) && at + |part| <= |was| && part == bytes[at..at + |part|]
    requires now == was[..at] + part + was[at + |part|..]
    ensures Copied(now, bytes, Also(done, at, |part|))
  {
  }

  class RecordMemo {
    const sectors: nat
    const entries: nat
    var table: array<Place>
    // The record that each place keeps.
    ghost var kept: seq<Option<(nat, seq<bv8>)>>

    ghost predicate Valid()
      reads this, table
    {
      && table.Length == entries == |kept| && (entries > 0 ==> sectors > 0)
      && forall i :: 0 <= i < entries ==> PlaceRight(table[i], kept[i], i, entries, sectors)
    }

    // A table of a size that cannot be used holds nothing.
    constructor (entries: nat, recordSize: nat)
      ensures Valid() && fresh(table) && forall i :: 0 <= i < this.entries ==> kept[i].None?
      ensures this.entries == if entries != 0 && STRIDE <= recordSize <= MAX_RECORD_SIZE && recordSize % STRIDE == 0 then entries else 0
      ensures this.entries > 0 ==> sectors == recordSize / STRIDE
    {
      var usable := STRIDE <= recordSize && recordSize <= MAX_RECORD_SIZE && recordSize % STRIDE == 0;
      var n := if usable then entries else 0;
      this.entries := n;
      sectors := recordSize / STRIDE;
      table := new Place[n](_ => EmptyPlace(recordSize / STRIDE));
      kept := seq(n, _ => None);
    }

    // Keeps a record, or drops what its place held of the same slot.
    method PutOne(slot: nat, bytes: seq<bv8>)
      requires Valid() && entries > 0 && slot <= U64_MAX && |bytes| == sectors * STRIDE
      modifies this`kept, table
      ensures Valid() && table == old(table)
      ensures kept == old(kept)[PlaceOf(slot, entries) := PlaceAfter(old(kept)[PlaceOf(slot, entries)], slot, bytes, sectors)]
    {
      var at := PlaceOf(slot, entries);
      var place := table[at];
      assert PlaceRight(place, kept[at], at, entries, sectors);
      SlotOfMarker(slot, kept[at]);
      HeaderFits(bytes, sectors);
      if !Keepable(bytes, sectors) {
        if place.marker == Marker(slot) {
          table[at] := place.(marker := 0);
        }
        kept := kept[at := PlaceAfter(kept[at], slot, bytes, sectors)];
        return;
      }
      var us := OffsetOfUs(bytes);
      var ends := seq(sectors, s requires 0 <= s < sectors => LastWord(bytes, s));
      table[at] := Place(Marker(slot), bytes[4..6], bytes[6..8], bytes[0x10..0x12], bytes[0x16..0x18],
                         bytes[us..us + ArrayOf(bytes, sectors)], ends);
      kept := kept[at := Some((slot, bytes))];
    }

    // Keeps the whole records of a run read from firstSlot on.
    method Put(firstSlot: nat, records: seq<seq<bv8>>)
      requires Valid() && firstSlot <= U64_MAX && forall i :: 0 <= i < |records| ==> |records[i]| == sectors * STRIDE
      modifies this`kept, table
      ensures Valid() && table == old(table)
      ensures entries > 0 ==> kept == AfterPuts(old(kept), firstSlot, records, entries, sectors)
    {
      hide PlaceOf;
      hide PlaceAfter;
      hide PlaceRight;
      if entries == 0 {
        return;
      }
      for index := 0 to |records|
        invariant Valid() && table == old(table) && kept == AfterPuts(old(kept), firstSlot, records[..index], entries, sectors)
      {
        assert records[..index + 1][..index] == records[..index];
        PutOne((firstSlot + index) % TWO_64, records[index]);
      }
      assert records[..|records|] == records;
    }

    // The record as a probe judges it, rebuilt from what is kept; empty when the
    // memo does not hold it.
    method Find(slot: nat) returns (bytes: seq<bv8>)
      requires Valid() && slot <= U64_MAX
      // Right for every slot, but for the last one where its place is empty: the
      // mark of that slot wraps to the mark of an empty place.
      ensures entries == 0 ==> bytes == []
      ensures entries > 0 && !(slot == U64_MAX && kept[PlaceOf(slot, entries)].None?) ==>
        bytes == match kept[PlaceOf(slot, entries)]
                 case Some((held, record)) => if held == slot && |record| >= HEADER_END then Judged(record, sectors) else []
                 case None => []
      ensures entries > 0 && slot == U64_MAX && kept[PlaceOf(slot, entries)].None? ==> bytes != []
    {
      if entries == 0 {
        return [];
      }
      var at := PlaceOf(slot, entries);
      var place := table[at];
      assert PlaceRight(place, kept[at], at, entries, sectors);
      SlotOfMarker(slot, kept[at]);
      if place.marker != Marker(slot) {
        return [];
      }
      KeptIsShaped(place, kept[at], sectors);
      bytes := Rebuild(place, if kept[at].Some? then kept[at].value.1 else []);
    }

    // Rebuilds a record from its place, part by part.
    method Rebuild(p: Place, ghost record: seq<bv8>) returns (bytes: seq<bv8>)
      requires Shaped(p, sectors) && sectors > 0
      ensures |bytes| == sectors * STRIDE
      ensures Keeps(p, record, sectors) ==> bytes == Judged(record, sectors)
    {
      hide Keeps;
      hide Copied;
      hide EndOfSector;
      var out := new bv8[sectors * STRIDE](_ => 0);
      ghost var keeps := Keeps(p, record, sectors);
      if keeps { NothingCopied(out[..], record, p, sectors); }
      ghost var done := RebuildHead(out, p, record, keeps);
      ghost var head := done;
      for s := 0 to sectors
        invariant keeps ==> Copied(out[..], record, done)
        invariant forall k: nat :: done(k) <==> head(k) || (EndOfSector(k) && k < s * STRIDE)
      {
        if keeps { EndKept(p, record, sectors, s); }
        done := CopyNext(out, (s + 1) * STRIDE - 2, p.ends[s], record, done, keeps);
        EndOfNext(s);
      }
      bytes := out[..];
      if keeps { AllCopied(bytes, p, record, sectors, head, done); }
    }

    // Rebuilds the header and the array.
    method RebuildHead(out: array<bv8>, p: Place, ghost record: seq<bv8>, ghost keeps: bool) returns (ghost done: nat -> bool)
      requires Shaped(p, sectors) && sectors > 0 && out.Length == sectors * STRIDE
      requires keeps ==> Keeps(p, record, sectors) && Copied(out[..], record, k => false)
      modifies out
      ensures keeps ==> Copied(out[..], record, done)
      ensures forall k: nat :: done(k) <==> HeadRead(p, k)
    {
      hide Keeps;
      hide Copied;
      hide Also;
      done := k => false;
      if keeps { PartsOf(p, record, sectors); }
      done := CopyNext(out, 0, MAGIC, record, done, keeps);
      done := CopyNext(out, 4, p.offsetOfUs, record, done, keeps);
      done := CopyNext(out, 6, p.sizeOfUs, record, done, keeps);
      done := CopyNext(out, 0x10, p.seqNo, record, done, keeps);
      done := CopyNext(out, 0x16, p.flags, record, done, keeps);
      done := CopyNext(out, WordAt(p.offsetOfUs, 0), p.array_, record, done, keeps);
    }

    // Copies one more part.
    method CopyNext(out: array<bv8>, at: nat, part: seq<bv8>, ghost record: seq<bv8>, ghost done: nat -> bool, ghost keeps: bool)
      returns (ghost more: nat -> bool)
      requires at + |part| <= out.Length
      requires keeps ==> Copied(out[..], record, done) && |record| == out.Length && part == record[at..at + |part|]
      modifies out
      ensures more == Also(done, at, |part|) && (keeps ==> Copied(out[..], record, more))
      ensures forall k: nat :: more(k) <==> done(k) || at <= k < at + |part|
    {
      ghost var was := out[..];
      CopyBack(out, at, part);
      if keeps { CopiedMore(was, out[..], at, part, record, done); }
      more := Also(done, at, |part|);
    }
  }

  // The place keeps the record said, under its mark.
  ghost predicate PlaceRight(p: Place, kept: Option<(nat, seq<bv8>)>, at: nat, entries: nat, sectors: nat) {
    match kept
    case None => p.marker == 0 && Shaped(p, sectors)
    case Some((slot, bytes)) => slot <= U64_MAX && entries > 0 && PlaceOf(slot, entries) == at && p.marker == Marker(slot) && Keeps(p, bytes, sectors)
  }

  lemma KeptIsShaped(p: Place, kept: Option<(nat, seq<bv8>)>, sectors: nat)
    requires match kept case None => Shaped(p, sectors) case Some((_, bytes)) => Keeps(p, bytes, sectors)
    ensures Shaped(p, sectors)
    ensures kept.Some? ==> |kept.value.1| == sectors * STRIDE && |kept.value.1| >= HEADER_END
  {
  }

  // What a probe reads of the header and the array.
  predicate HeadRead(p: Place, k: nat)
    requires |p.offsetOfUs| == 2
  {
    k < 8 || 0x10 <= k < 0x12 || 0x16 <= k < 0x18 || WordAt(p.offsetOfUs, 0) <= k < WordAt(p.offsetOfUs, 0) + |p.array_|
  }

  lemma NothingCopied(out: seq<bv8>, record: seq<bv8>, p: Place, sectors: nat)
    requires Keeps(p, record, sectors) && |out| == sectors * STRIDE && forall k :: 0 <= k < |out| ==> out[k] == 0
    ensures Copied(out, record, k => false)
  {
  }

  lemma PartsOf(p: Place, record: seq<bv8>, sectors: nat)
    requires Keeps(p, record, sectors)
    ensures |record| == sectors * STRIDE >= HEADER_END
    ensures MAGIC == record[0..4] && p.offsetOfUs == record[4..6] && p.sizeOfUs == record[6..8]
    ensures p.seqNo == record[0x10..0x12] && p.flags == record[0x16..0x18]
    ensures WordAt(p.offsetOfUs, 0) + |p.array_| <= |record|
    ensures p.array_ == record[WordAt(p.offsetOfUs, 0)..WordAt(p.offsetOfUs, 0) + |p.array_|]
  {
    assert WordAt(p.offsetOfUs, 0) == OffsetOfUs(record);
  }

  lemma EndKept(p: Place, record: seq<bv8>, sectors: nat, s: nat)
    requires Keeps(p, record, sectors) && s < sectors
    ensures |record| == sectors * STRIDE && p.ends[s] == record[(s + 1) * STRIDE - 2..(s + 1) * STRIDE]
  {
  }

  // The ends of the sectors up to the next one.
  lemma EndOfNext(s: nat)
    ensures forall k: nat :: (EndOfSector(k) && k < (s + 1) * STRIDE) <==> (EndOfSector(k) && k < s * STRIDE) || LastOf(s, k)
  {
  }

  predicate LastOf(s: nat, k: nat) {
    (s + 1) * STRIDE - 2 <= k < (s + 1) * STRIDE
  }

  lemma AllCopied(out: seq<bv8>, p: Place, record: seq<bv8>, sectors: nat, head: nat -> bool, done: nat -> bool)
    requires Keeps(p, record, sectors) && Copied(out, record, done)
    requires forall k: nat :: head(k) <==> HeadRead(p, k)
    requires forall k: nat :: done(k) <==> head(k) || (EndOfSector(k) && k < sectors * STRIDE)
    ensures out == Judged(record, sectors)
  {
    hide EndOfSector;
    assert WordAt(p.offsetOfUs, 0) == OffsetOfUs(record);
    forall k | 0 <= k < |out| ensures out[k] == Judged(record, sectors)[k] {
      assert done(k) <==> Read(record, sectors, k);
    }
  }

  // What a place keeps after a record was put. A record that is not kept drops an
  // older one of its slot, but for the last slot, whose mark is that of nothing.
  ghost function PlaceAfter(kept: Option<(nat, seq<bv8>)>, slot: nat, bytes: seq<bv8>, sectors: nat): Option<(nat, seq<bv8>)> {
    if Keepable(bytes, sectors) then Some((slot, bytes))
    else if kept.Some? && kept.value.0 == slot && slot != U64_MAX then None
    else kept
  }

  ghost function AfterPuts(kept: seq<Option<(nat, seq<bv8>)>>, firstSlot: nat, records: seq<seq<bv8>>, entries: nat, sectors: nat)
    : (r: seq<Option<(nat, seq<bv8>)>>)
    requires entries > 0 && |kept| == entries
    ensures |r| == entries
  {
    if records == [] then kept
    else
      var n := |records| - 1;
      var before := AfterPuts(kept, firstSlot, records[..n], entries, sectors);
      var slot := (firstSlot + n) % TWO_64;
      before[PlaceOf(slot, entries) := PlaceAfter(before[PlaceOf(slot, entries)], slot, records[n], sectors)]
  }

  lemma SlotOfMarker(slot: nat, kept: Option<(nat, seq<bv8>)>)
    requires slot <= U64_MAX
    ensures Marker(slot) == 0 <==> slot == U64_MAX
    ensures kept.Some? && kept.value.0 <= U64_MAX ==> (Marker(kept.value.0) == Marker(slot) <==> kept.value.0 == slot)
  {
  }

  lemma HeaderFits(bytes: seq<bv8>, sectors: nat)
    requires sectors > 0 && |bytes| == sectors * STRIDE
    ensures |bytes| >= STRIDE
  {
  }

  // The last two bytes of a sector.
  function LastWord(bytes: seq<bv8>, s: nat): seq<bv8>
    requires (s + 1) * STRIDE <= |bytes|
  {
    bytes[(s + 1) * STRIDE - 2..(s + 1) * STRIDE]
  }

  // A memo that was put nothing finds nothing, but for the last slot.
  method EmptyFinds(memo: RecordMemo, slot: nat) returns (bytes: seq<bv8>)
    requires memo.Valid() && memo.entries > 0 && slot <= U64_MAX && memo.kept[PlaceOf(slot, memo.entries)].None?
    ensures bytes == [] <==> slot != U64_MAX
  {
    bytes := memo.Find(slot);
  }
}
