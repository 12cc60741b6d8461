// The runs of a non-resident attribute: the packed bytes that describe them, the
// entries they decode to, and where those put each cluster of the stream.
module RunEntries {
  import opened Prelude

  type Byte = b: nat | b < 256

  // One run of the stream. A hole has no LCN.
  datatype Entry = Entry(lcn: Option<nat>, clusters: nat, startVcn: nat, lastVcn: nat)

  // Where a cluster of the stream lies.
  datatype Place = Nowhere | Hole | Cluster(lcn: nat)

  // -------------------------------------------------------------------------
  // One packed run
  // -------------------------------------------------------------------------

  function Unsigned(bytes: seq<Byte>): nat {
    if |bytes| == 0 then 0 else bytes[0] + 256 * Unsigned(bytes[1..])
  }

  function Power(n: nat): (p: nat)
    ensures p > 0
  {
    if n == 0 then 1 else 256 * Power(n - 1)
  }

  function Repeated(b: Byte, n: nat): (r: seq<Byte>)
    ensures |r| == n
  {
    if n == 0 then [] else [b] + Repeated(b, n - 1)
  }

  // The offset field as the decoder widens it: eight bytes, the missing ones
  // filled with the sign, read as a signed number.
  function Delta(field: seq<Byte>): int
    requires 1 <= |field| <= 8
  {
    var fill: Byte := if field[|field| - 1] >= 128 then 255 else 0;
    var wide := Unsigned(field + Repeated(fill, 8 - |field|));
    if wide > I64_MAX then wide - (U64_MAX + 1) else wide
  }

  datatype Pick = Broken | Pick(length: nat, offset: Option<int>, rest: seq<Byte>)

  function PickData(data: seq<Byte>): (r: Pick)
    requires |data| > 0
    ensures r.Pick? ==> |r.rest| < |data|
  {
    var lengthBytes, offsetBytes := data[0] % 16, data[0] / 16;
    if lengthBytes > 8 || offsetBytes > 8 then Broken
    else if |data| - 1 < lengthBytes + offsetBytes then Broken
    else
      var field := data[1 + lengthBytes..1 + lengthBytes + offsetBytes];
      Pick(Unsigned(data[1..1 + lengthBytes]), if offsetBytes == 0 then None else Some(Delta(field)),
           data[1 + lengthBytes + offsetBytes..])
  }

  // How a number is written in n bytes, the lowest first.
  function Written(v: nat, n: nat): (r: seq<Byte>)
    ensures |r| == n
  {
    if n == 0 then [] else [v % 256] + Written(v / 256, n - 1)
  }

  lemma {:induction false} ReadWritten(v: nat, n: nat)
    requires v < Power(n)
    ensures Unsigned(Written(v, n)) == v
  {
    if n > 0 {
      ReadWritten(v / 256, n - 1);
      assert Written(v, n)[1..] == Written(v / 256, n - 1);
    }
  }

  lemma {:induction false} UnsignedSum(a: seq<Byte>, b: seq<Byte>)
    ensures Unsigned(a + b) == Unsigned(a) + Power(|a|) * Unsigned(b)
  {
    if |a| == 0 {
      assert a + b == b;
    } else {
      UnsignedSum(a[1..], b);
      assert (a + b)[1..] == a[1..] + b;
      Regroup(Power(|a| - 1), Unsigned(b));
    }
  }

  lemma Regroup(p: nat, v: nat)
    ensures 256 * (p * v) == 256 * p * v
  {
  }

  lemma {:induction false} UnsignedBounds(a: seq<Byte>)
    ensures Unsigned(a) < Power(|a|)
    ensures |a| > 0 ==> (a[|a| - 1] >= 128 <==> 2 * Unsigned(a) >= Power(|a|))
  {
    if |a| > 0 {
      UnsignedBounds(a[1..]);
      if |a| > 1 { assert a[1..][|a| - 2] == a[|a| - 1]; }
      HalfPower(|a|);
      HalfPower(|a| - 1);
    }
  }

  lemma HalfPower(n: nat)
    ensures n > 0 ==> Power(n) % 256 == 0
  {
  }

  lemma {:induction false} UnsignedRepeated(n: nat)
    ensures Unsigned(Repeated(0, n)) == 0
    ensures Unsigned(Repeated(255, n)) == Power(n) - 1
  {
    if n > 0 {
      UnsignedRepeated(n - 1);
      assert Repeated(0, n)[1..] == Repeated(0, n - 1);
      assert Repeated(255, n)[1..] == Repeated(255, n - 1);
    }
  }

  lemma {:induction false} PowerSum(a: nat, b: nat)
    ensures Power(a) * Power(b) == Power(a + b)
  {
    if a > 0 {
      PowerSum(a - 1, b);
      Regroup(Power(a - 1), Power(b));
    }
  }

  lemma WholePower()
    ensures Power(8) == U64_MAX + 1
  {
    assert Power(4) == 0x1_0000_0000 by { assert Power(2) == 0x1_0000; }
    PowerSum(4, 4);
  }

  // The sign fill makes the field's own two's-complement value.
  lemma SignExtended(field: seq<Byte>)
    requires 1 <= |field| <= 8
    ensures 2 * Unsigned(field) < Power(|field|) ==> Delta(field) == Unsigned(field)
    ensures 2 * Unsigned(field) >= Power(|field|) ==> Delta(field) == Unsigned(field) - Power(|field|)
  {
    hide Power, Unsigned, Repeated;
    UnsignedBounds(field);
    WideValue(field);
    LargerPower(|field|, 8 - |field|);
    WholePower();
  }

  lemma WideValue(field: seq<Byte>)
    requires 1 <= |field| <= 8
    ensures Unsigned(field + Repeated(0, 8 - |field|)) == Unsigned(field)
    ensures Unsigned(field + Repeated(255, 8 - |field|)) == Unsigned(field) + U64_MAX + 1 - Power(|field|)
  {
    hide Power, Unsigned, Repeated;
    var n, k := |field|, 8 - |field|;
    UnsignedRepeated(k);
    UnsignedSum(field, Repeated(0, k));
    UnsignedSum(field, Repeated(255, k));
    PowerSum(n, k);
    WholePower();
    Distributed(Unsigned(field), Power(n), Power(k), Unsigned(Repeated(0, k)), Unsigned(Repeated(255, k)));
  }

  lemma Distributed(u: nat, p: nat, q: nat, zero: nat, most: nat)
    requires zero == 0 && most == q - 1
    ensures u + p * zero == u
    ensures u + p * most == u + p * q - p
  {
  }

  lemma LargerPower(n: nat, k: nat)
    ensures Power(n) <= Power(n + k)
  {
    PowerSum(n, k);
    ProductMonotone(1, Power(k), Power(n));
  }

  // A run as a writer packs it: the widths of its two fields are the writer's
  // choice, as long as the values fit.
  datatype Packed = Packed(length: nat, offset: Option<int>, lengthBytes: nat, offsetBytes: nat)

  predicate Fits(p: Packed) {
    && 1 <= p.lengthBytes <= 8 && p.length < Power(p.lengthBytes)
    && match p.offset
       case None => p.offsetBytes == 0
       case Some(delta) => 1 <= p.offsetBytes <= 8 && -2 * delta <= Power(p.offsetBytes) && 2 * delta < Power(p.offsetBytes)
  }

  function OffsetField(p: Packed): (r: seq<Byte>)
    requires Fits(p)
    ensures |r| == p.offsetBytes
  {
    if p.offset.None? then []
    else
      var delta := p.offset.value;
      if delta >= 0 then Written(delta, p.offsetBytes) else Written(delta + Power(p.offsetBytes), p.offsetBytes)
  }

  function RunBytes(p: Packed): seq<Byte>
    requires Fits(p)
  {
    [p.lengthBytes + 16 * p.offsetBytes] + Written(p.length, p.lengthBytes) + OffsetField(p)
  }

  lemma FieldRead(p: Packed)
    requires Fits(p) && p.offset.Some?
    ensures Delta(OffsetField(p)) == p.offset.value
  {
    hide Delta, Written, Unsigned, Power;
    var n := p.offsetBytes;
    var delta := p.offset.value;
    var raw := if delta >= 0 then delta else delta + Power(n);
    ReadWritten(raw, n);
    SignExtended(OffsetField(p));
  }

  // Decoding takes back what packing wrote, and leaves the bytes after it.
  lemma PickTakesBack(p: Packed, rest: seq<Byte>)
    requires Fits(p)
    ensures PickData(RunBytes(p) + rest) == Pick(p.length, p.offset, rest)
  {
    hide Delta, Written, Unsigned, Power, OffsetField;
    var data := RunBytes(p) + rest;
    var a, b := p.lengthBytes, p.offsetBytes;
    assert data[0] == a + 16 * b;
    Nibbles(a, b);
    assert data[1..1 + a] == Written(p.length, a);
    assert data[1 + a..1 + a + b] == OffsetField(p);
    assert data[1 + a + b..] == rest;
    ReadWritten(p.length, a);
    if p.offset.Some? { FieldRead(p); }
  }

  lemma Nibbles(a: nat, b: nat)
    requires a < 16
    ensures (a + 16 * b) % 16 == a && (a + 16 * b) / 16 == b
  {
  }

  // -------------------------------------------------------------------------
  // Decoding a list
  // -------------------------------------------------------------------------

  datatype Cursor = Cursor(lcn: int, vcn: nat)

  datatype Step = Refused | Step(entry: Entry, cursor: Cursor)

  // One decoded run, as an entry, with the cursor after it.
  function Stepped(length: nat, offset: Option<int>, c: Cursor, bound: nat): Step {
    var delta := if offset.Some? then offset.value else 0;
    if delta > 0 && c.lcn > I64_MAX - delta then Refused
    else if c.lcn + delta < 0 then Refused
    else if length > U64_MAX - c.vcn then Refused
    else
      var vcn := c.vcn + length;
      var last := if vcn == 0 then U64_MAX else vcn - 1;
      if last > bound then Refused
      else Step(Entry(if offset.Some? then Some(c.lcn + delta) else None, length, c.vcn, last),
                Cursor(c.lcn + delta, vcn))
  }

  // The runs before the first mistake, and whether there was none.
  datatype Decode = Decode(runs: seq<Entry>, clean: bool)

  function Decoded(bytes: seq<Byte>, c: Cursor, bound: nat): Decode
    decreases |bytes|
  {
    if |bytes| == 0 || bytes[0] == 0 then Decode([], true)
    else match PickData(bytes)
      case Broken => Decode([], false)
      case Pick(length, offset, rest) =>
        match Stepped(length, offset, c, bound)
        case Refused => Decode([], false)
        case Step(entry, next) =>
          var tail := Decoded(rest, next, bound);
          Decode([entry] + tail.runs, tail.clean)
  }

  // Recovery keeps what strict decoding makes of the bytes before the mistake.
  lemma {:induction false} RecoveredIsStrict(bytes: seq<Byte>, c: Cursor, bound: nat) returns (good: nat)
    ensures good <= |bytes|
    ensures Decoded(bytes[..good], c, bound) == Decode(Decoded(bytes, c, bound).runs, true)
    decreases |bytes|
  {
    good := 0;
    if |bytes| > 0 && bytes[0] != 0 && PickData(bytes).Pick? {
      var pick := PickData(bytes);
      var step := Stepped(pick.length, pick.offset, c, bound);
      if step.Step? {
        var after := RecoveredIsStrict(pick.rest, step.cursor, bound);
        var used := |bytes| - |pick.rest|;
        good := used + after;
        PickShorter(bytes, good);
        assert pick.rest[..after] == bytes[used..good];
      }
    }
  }

  lemma PickShorter(bytes: seq<Byte>, good: nat)
    requires |bytes| > 0 && PickData(bytes).Pick? && |bytes| - |PickData(bytes).rest| <= good <= |bytes|
    ensures good > 0
    ensures var used := |bytes| - |PickData(bytes).rest|; PickData(bytes[..good]) == PickData(bytes).(rest := bytes[used..good])
  {
    hide Unsigned, Delta;
    var part := bytes[..good];
    var a, b := bytes[0] % 16, bytes[0] / 16;
    assert part[1..1 + a] == bytes[1..1 + a];
    assert part[1 + a..1 + a + b] == bytes[1 + a..1 + a + b];
    assert part[1 + a + b..] == bytes[1 + a + b..good];
  }

  // -------------------------------------------------------------------------
  // Lists in order
  // -------------------------------------------------------------------------

  predicate EntryRight(e: Entry) {
    e.lastVcn + 1 == e.startVcn + e.clusters && (e.lcn.Some? ==> e.lcn.value <= I64_MAX)
  }

  // The runs lie between two VCNs, one after the other.
  predicate Ordered(runs: seq<Entry>, from: nat, to: nat) {
    if |runs| == 0 then from <= to
    else EntryRight(runs[0]) && from <= runs[0].startVcn && Ordered(runs[1..], runs[0].startVcn + runs[0].clusters, to)
  }

  // Past VCN 0, or under a bound that is not all ones, decoding gives runs that
  // follow each other, the empty ones included.
  lemma {:induction false} DecodedInOrder(bytes: seq<Byte>, c: Cursor, bound: nat)
    requires bound <= U64_MAX && c.vcn <= Reach(bound) && 0 <= c.lcn <= I64_MAX
    requires bound < U64_MAX || c.vcn > 0
    ensures Ordered(Decoded(bytes, c, bound).runs, c.vcn, Reach(bound))
    ensures Following(Decoded(bytes, c, bound).runs, c.vcn)
    decreases |bytes|
  {
    if |bytes| > 0 && bytes[0] != 0 && PickData(bytes).Pick? {
      var pick := PickData(bytes);
      var step := Stepped(pick.length, pick.offset, c, bound);
      if step.Step? {
        DecodedInOrder(pick.rest, step.cursor, bound);
        var tail := Decoded(pick.rest, step.cursor, bound).runs;
        assert ([step.entry] + tail)[1..] == tail;
      }
    }
  }

  // The clusters a bound lets runs cover: their VCNs stop short of 2^64 - 1.
  function Reach(bound: nat): nat {
    if bound < U64_MAX then bound + 1 else U64_MAX
  }

  // A decoded list is in order unless its first run is empty, which only a bound
  // of all ones lets through.
  lemma DecodedUsable(bytes: seq<Byte>, bound: nat)
    requires bound <= U64_MAX
    ensures var runs := Decoded(bytes, Cursor(0, 0), bound).runs; Ordered(runs, 0, Reach(bound)) <==> |runs| == 0 || runs[0].clusters > 0
    ensures bound < U64_MAX ==> Ordered(Decoded(bytes, Cursor(0, 0), bound).runs, 0, Reach(bound))
  {
    hide PickData;
    var c := Cursor(0, 0);
    if bound < U64_MAX {
      DecodedInOrder(bytes, c, bound);
    } else if |bytes| > 0 && bytes[0] != 0 && PickData(bytes).Pick? {
      var pick := PickData(bytes);
      var step := Stepped(pick.length, pick.offset, c, bound);
      if step.Step? && pick.length > 0 {
        Shrinks(bytes);
        DecodedInOrder(pick.rest, step.cursor, bound);
        var tail := Decoded(pick.rest, step.cursor, bound).runs;
        assert ([step.entry] + tail)[1..] == tail;
      }
    }
  }

  // An empty run at VCN 0: it has no last VCN and is given the largest one.
  predicate Stuck(e: Entry) {
    e.clusters == 0 && e.startVcn == 0 && e.lastVcn == U64_MAX && (e.lcn.Some? ==> e.lcn.value <= I64_MAX)
  }

  // Such runs, then runs in order with 64-bit VCNs.
  predicate Shaped(runs: seq<Entry>) {
    if |runs| > 0 && Stuck(runs[0]) then Shaped(runs[1..]) else Ordered(runs, 0, U64_MAX)
  }

  // Every decoded list is of this shape, whatever its bytes and its bound.
  lemma {:induction false} DecodedShaped(bytes: seq<Byte>, c: Cursor, bound: nat)
    requires bound <= U64_MAX && c.vcn == 0 && 0 <= c.lcn <= I64_MAX
    ensures Shaped(Decoded(bytes, c, bound).runs)
    decreases |bytes|
  {
    hide PickData;
    if bound < U64_MAX {
      DecodedInOrder(bytes, c, bound);
      OrderedWider(Decoded(bytes, c, bound).runs, 0, bound + 1, 0, U64_MAX);
      OrderedShaped(Decoded(bytes, c, bound).runs, U64_MAX);
    } else if |bytes| > 0 && bytes[0] != 0 && PickData(bytes).Pick? {
      var pick := PickData(bytes);
      var step := Stepped(pick.length, pick.offset, c, bound);
      if step.Step? {
        Shrinks(bytes);
        var tail := Decoded(pick.rest, step.cursor, bound).runs;
        assert ([step.entry] + tail)[1..] == tail;
        if pick.length == 0 {
          DecodedShaped(pick.rest, step.cursor, bound);
        } else {
          DecodedInOrder(pick.rest, step.cursor, bound);
        }
      }
    }
  }

  lemma OrderedShaped(runs: seq<Entry>, to: nat)
    requires Ordered(runs, 0, to) && to <= U64_MAX
    ensures Shaped(runs) && (|runs| > 0 ==> !Stuck(runs[0]))
  {
    OrderedWider(runs, 0, to, 0, U64_MAX);
  }

  lemma Shrinks(bytes: seq<Byte>)
    requires |bytes| > 0
    ensures PickData(bytes).Pick? ==> |PickData(bytes).rest| < |bytes|
  {
  }

  predicate Following(runs: seq<Entry>, from: nat) {
    |runs| > 0 ==> runs[0].startVcn == from && Following(runs[1..], from + runs[0].clusters)
  }

  // What the order says of any two runs.
  lemma {:induction false} OrderSays(runs: seq<Entry>, from: nat, to: nat)
    requires Ordered(runs, from, to)
    ensures from <= to
    ensures forall i :: 0 <= i < |runs| ==> EntryRight(runs[i]) && from <= runs[i].startVcn && runs[i].startVcn + runs[i].clusters <= to
    ensures forall i, j :: 0 <= i < j < |runs| ==> runs[i].startVcn + runs[i].clusters <= runs[j].startVcn
  {
    if |runs| > 0 {
      var rest := runs[1..];
      OrderSays(rest, runs[0].startVcn + runs[0].clusters, to);
      forall i | 0 <= i < |runs| ensures EntryRight(runs[i]) && from <= runs[i].startVcn && runs[i].startVcn + runs[i].clusters <= to {
        if i > 0 { assert runs[i] == rest[i - 1]; }
      }
      forall i, j | 0 <= i < j < |runs| ensures runs[i].startVcn + runs[i].clusters <= runs[j].startVcn {
        assert runs[j] == rest[j - 1];
        if i > 0 { assert runs[i] == rest[i - 1]; }
      }
    }
  }

  lemma {:induction false} OrderedWider(runs: seq<Entry>, from: nat, to: nat, lower: nat, upper: nat)
    requires Ordered(runs, from, to) && lower <= from && to <= upper
    ensures Ordered(runs, lower, upper)
  {
    if |runs| > 0 {
      OrderedWider(runs[1..], runs[0].startVcn + runs[0].clusters, to, runs[0].startVcn + runs[0].clusters, upper);
    }
  }

  lemma {:induction false} OrderedJoined(a: seq<Entry>, b: seq<Entry>, from: nat, mid: nat, to: nat)
    requires Ordered(a, from, mid) && Ordered(b, mid, to)
    ensures Ordered(a + b, from, to)
  {
    if |a| == 0 {
      assert a + b == b;
      OrderSays(b, mid, to);
      OrderedWider(b, mid, to, from, to);
    } else {
      OrderedJoined(a[1..], b, a[0].startVcn + a[0].clusters, mid, to);
      assert (a + b)[1..] == a[1..] + b;
    }
  }

  // -------------------------------------------------------------------------
  // Packing a list
  // -------------------------------------------------------------------------

  function PackedBytes(packs: seq<Packed>): seq<Byte>
    requires forall p :: p in packs ==> Fits(p)
  {
    if |packs| == 0 then [] else RunBytes(packs[0]) + PackedBytes(packs[1..])
  }

  // The decoder's steps over packed runs.
  function Taken(packs: seq<Packed>, c: Cursor, bound: nat): Decode {
    if |packs| == 0 then Decode([], true)
    else match Stepped(packs[0].length, packs[0].offset, c, bound)
      case Refused => Decode([], false)
      case Step(entry, next) =>
        var tail := Taken(packs[1..], next, bound);
        Decode([entry] + tail.runs, tail.clean)
  }

  // The bytes of packed runs, up to an end mark or the end of the attribute,
  // decode run by run, whatever widths their writer chose.
  lemma {:induction false} PackedDecodes(packs: seq<Packed>, rest: seq<Byte>, c: Cursor, bound: nat)
    requires forall p :: p in packs ==> Fits(p)
    requires |rest| > 0 ==> rest[0] == 0
    ensures Decoded(PackedBytes(packs) + rest, c, bound) == Taken(packs, c, bound)
    decreases |packs|
  {
    hide PickData, RunBytes, Stepped, Fits;
    var bytes := PackedBytes(packs) + rest;
    if |packs| == 0 {
      assert bytes == rest;
    } else {
      var p := packs[0];
      assert Fits(p);
      var after := PackedBytes(packs[1..]) + rest;
      assert bytes == RunBytes(p) + after;
      PickTakesBack(p, after);
      Marked(p);
      var step := Stepped(p.length, p.offset, c, bound);
      if step.Step? { PackedDecodes(packs[1..], rest, step.cursor, bound); }
    }
  }

  lemma Marked(p: Packed)
    requires Fits(p)
    ensures |RunBytes(p)| > 0 && RunBytes(p)[0] != 0
  {
  }

  // A list of entries, packed with full-width fields.
  function PacksOf(runs: seq<Entry>, lcn: nat): seq<Packed> {
    if |runs| == 0 then []
    else
      var e := runs[0];
      if e.lcn.None? then [Packed(e.clusters, None, 8, 0)] + PacksOf(runs[1..], lcn)
      else [Packed(e.clusters, Some(e.lcn.value - lcn), 8, 8)] + PacksOf(runs[1..], e.lcn.value)
  }

  lemma {:induction false} PacksFit(runs: seq<Entry>, from: nat, to: nat, lcn: nat)
    requires Ordered(runs, from, to) && to <= U64_MAX && lcn <= I64_MAX
    ensures forall p :: p in PacksOf(runs, lcn) ==> Fits(p)
  {
    if |runs| > 0 {
      WholePower();
      var e := runs[0];
      OrderSays(runs, from, to);
      PacksFit(runs[1..], e.startVcn + e.clusters, to, if e.lcn.None? then lcn else e.lcn.value);
    }
  }

  lemma {:induction false} PacksTaken(runs: seq<Entry>, lcn: nat, from: nat, bound: nat)
    requires bound < U64_MAX && lcn <= I64_MAX
    requires Ordered(runs, from, bound + 1) && Following(runs, from)
    ensures Taken(PacksOf(runs, lcn), Cursor(lcn, from), bound) == Decode(runs, true)
  {
    if |runs| > 0 {
      var e := runs[0];
      OrderSays(runs, from, bound + 1);
      var next := if e.lcn.None? then lcn else e.lcn.value;
      PacksTaken(runs[1..], next, from + e.clusters, bound);
      var packs := PacksOf(runs, lcn);
      assert packs[1..] == PacksOf(runs[1..], next);
      assert Stepped(packs[0].length, packs[0].offset, Cursor(lcn, from), bound) == Step(e, Cursor(next, from + e.clusters));
    }
  }

  // Decoding inverts encoding on every list of adjoining runs, so those lists are
  // exactly what strict decoding accepts.
  lemma DecodeInvertsEncode(runs: seq<Entry>, bound: nat, rest: seq<Byte>)
    requires bound < U64_MAX && Ordered(runs, 0, bound + 1) && Following(runs, 0)
    requires |rest| > 0 ==> rest[0] == 0
    ensures forall p :: p in PacksOf(runs, 0) ==> Fits(p)
    ensures Decoded(PackedBytes(PacksOf(runs, 0)) + rest, Cursor(0, 0), bound) == Decode(runs, true)
  {
    hide Ordered, Following, Decoded, Taken, PacksOf, PackedBytes, Fits;
    PacksFit(runs, 0, bound + 1, 0);
    PackedDecodes(PacksOf(runs, 0), rest, Cursor(0, 0), bound);
    PacksTaken(runs, 0, 0, bound);
  }

  // -------------------------------------------------------------------------
  // Where a VCN lies
  // -------------------------------------------------------------------------

  predicate Holds(e: Entry, vcn: nat) {
    e.startVcn <= vcn <= e.lastVcn
  }

  function PlaceIn(e: Entry, vcn: nat): Place
    requires e.startVcn <= vcn
  {
    if e.lcn.None? then Hole else Cluster(e.lcn.value + (vcn - e.startVcn))
  }

  function PlaceOf(runs: seq<Entry>, vcn: nat): Place {
    if |runs| == 0 then Nowhere
    else if Holds(runs[0], vcn) then PlaceIn(runs[0], vcn)
    else PlaceOf(runs[1..], vcn)
  }

  // The first run that holds a VCN places it.
  lemma {:induction false} FirstPlaces(runs: seq<Entry>, i: nat, vcn: nat)
    requires i < |runs| && Holds(runs[i], vcn) && forall k :: 0 <= k < i ==> !Holds(runs[k], vcn)
    ensures PlaceOf(runs, vcn) == PlaceIn(runs[i], vcn)
  {
    if i > 0 {
      var rest := runs[1..];
      forall k | 0 <= k < i - 1 ensures !Holds(rest[k], vcn) {
        assert rest[k] == runs[k + 1];
      }
      FirstPlaces(rest, i - 1, vcn);
    }
  }

  // In an ordered list no other run holds it.
  lemma AnyPlaces(runs: seq<Entry>, from: nat, to: nat, i: nat, vcn: nat)
    requires Ordered(runs, from, to) && i < |runs| && Holds(runs[i], vcn)
    ensures PlaceOf(runs, vcn) == PlaceIn(runs[i], vcn)
    ensures forall k :: 0 <= k < |runs| && k != i ==> !Holds(runs[k], vcn)
  {
    hide PlaceOf, Ordered;
    OrderSays(runs, from, to);
    FirstPlaces(runs, i, vcn);
  }

  lemma {:induction false} NoneNowhere(runs: seq<Entry>, vcn: nat)
    ensures PlaceOf(runs, vcn).Nowhere? <==> forall k :: 0 <= k < |runs| ==> !Holds(runs[k], vcn)
  {
    if |runs| > 0 {
      var rest := runs[1..];
      NoneNowhere(rest, vcn);
      forall k | 0 <= k < |runs| ensures k == 0 || runs[k] == rest[k - 1] {
      }
    }
  }

  // -------------------------------------------------------------------------
  // Splicing
  // -------------------------------------------------------------------------

  // A list with the clusters it covers.
  datatype Mapping = Mapping(runs: seq<Entry>, clusters: nat)

  ghost predicate MappingRight(m: Mapping) {
    Ordered(m.runs, 0, m.clusters)
  }

  // In 64-bit arithmetic.
  function Moved(e: Entry, shift: nat): Entry {
    e.(startVcn := In64(e.startVcn + shift), lastVcn := In64(e.lastVcn + shift))
  }

  // A run whose VCNs do not wrap.
  lemma MovedPlain(e: Entry, shift: nat)
    requires e.startVcn + shift <= U64_MAX && e.lastVcn + shift <= U64_MAX
    ensures Moved(e, shift) == e.(startVcn := e.startVcn + shift, lastVcn := e.lastVcn + shift)
  {
    WrapsOnce(e.startVcn + shift);
    WrapsOnce(e.lastVcn + shift);
  }

  function MovedRuns(runs: seq<Entry>, shift: nat): (r: seq<Entry>)
    ensures |r| == |runs|
  {
    if |runs| == 0 then [] else MovedRuns(runs[..|runs| - 1], shift) + [Moved(runs[|runs| - 1], shift)]
  }

  lemma {:induction false} MovedAt(runs: seq<Entry>, shift: nat, i: nat)
    requires i < |runs|
    ensures MovedRuns(runs, shift)[i] == Moved(runs[i], shift)
  {
    if i < |runs| - 1 { MovedAt(runs[..|runs| - 1], shift, i); }
  }

  lemma MovedTail(runs: seq<Entry>, shift: nat)
    requires |runs| > 0
    ensures MovedRuns(runs, shift)[1..] == MovedRuns(runs[1..], shift)
  {
    hide MovedRuns;
    var left, right := MovedRuns(runs, shift)[1..], MovedRuns(runs[1..], shift);
    forall i | 0 <= i < |runs| - 1 ensures left[i] == right[i] {
      MovedAt(runs, shift, i + 1);
      MovedAt(runs[1..], shift, i);
    }
  }

  function Appended(a: Mapping, b: Mapping): Mapping {
    Mapping(a.runs + MovedRuns(b.runs, a.clusters), In64(a.clusters + b.clusters))
  }

  lemma {:induction false} MovedOrdered(runs: seq<Entry>, from: nat, to: nat, shift: nat)
    requires Ordered(runs, from, to) && to + shift <= U64_MAX
    ensures Ordered(MovedRuns(runs, shift), from + shift, to + shift)
  {
    hide MovedRuns, Moved;
    if |runs| > 0 {
      OrderSays(runs, from, to);
      MovedPlain(runs[0], shift);
      MovedOrdered(runs[1..], runs[0].startVcn + runs[0].clusters, to, shift);
      MovedTail(runs, shift);
      MovedAt(runs, shift, 0);
    }
  }

  // Splicing keeps the runs in order, when no count wraps.
  lemma AppendOrdered(a: Mapping, b: Mapping)
    requires MappingRight(a) && MappingRight(b) && a.clusters + b.clusters <= U64_MAX
    ensures MappingRight(Appended(a, b)) && Appended(a, b).clusters == a.clusters + b.clusters
  {
    hide Ordered, MovedRuns, In64;
    WrapsOnce(a.clusters + b.clusters);
    MovedOrdered(b.runs, 0, b.clusters, a.clusters);
    OrderedJoined(a.runs, MovedRuns(b.runs, a.clusters), 0, a.clusters, a.clusters + b.clusters);
  }

  lemma {:induction false} PlaceMoved(runs: seq<Entry>, from: nat, to: nat, shift: nat, vcn: nat)
    requires Ordered(runs, from, to) && to + shift <= U64_MAX
    ensures PlaceOf(MovedRuns(runs, shift), vcn + shift) == PlaceOf(runs, vcn)
  {
    hide MovedRuns, Moved;
    if |runs| > 0 {
      OrderSays(runs, from, to);
      MovedPlain(runs[0], shift);
      PlaceMoved(runs[1..], runs[0].startVcn + runs[0].clusters, to, shift, vcn);
      MovedTail(runs, shift);
      MovedAt(runs, shift, 0);
    }
  }

  lemma {:induction false} PlaceJoined(a: seq<Entry>, b: seq<Entry>, vcn: nat)
    ensures PlaceOf(a + b, vcn) == if PlaceOf(a, vcn).Nowhere? then PlaceOf(b, vcn) else PlaceOf(a, vcn)
  {
    if |a| == 0 {
      assert a + b == b;
    } else {
      PlaceJoined(a[1..], b, vcn);
      assert (a + b)[1..] == a[1..] + b;
    }
  }

  // A spliced list maps each VCN as the list that owns it.
  lemma AppendPlaces(a: Mapping, b: Mapping, vcn: nat)
    requires MappingRight(a) && MappingRight(b) && a.clusters + b.clusters <= U64_MAX
    ensures PlaceOf(Appended(a, b).runs, vcn) == if vcn < a.clusters then PlaceOf(a.runs, vcn) else PlaceOf(b.runs, vcn - a.clusters)
  {
    hide Ordered, MovedRuns, Moved, PlaceOf;
    var moved := MovedRuns(b.runs, a.clusters);
    PlaceJoined(a.runs, moved, vcn);
    NoneNowhere(a.runs, vcn);
    OrderSays(a.runs, 0, a.clusters);
    if vcn >= a.clusters {
      PlaceMoved(b.runs, 0, b.clusters, a.clusters, vcn - a.clusters);
    } else {
      NoneNowhere(moved, vcn);
      forall k | 0 <= k < |moved| ensures !Holds(moved[k], vcn) {
        MovedAt(b.runs, a.clusters, k);
        OrderSays(b.runs, 0, b.clusters);
        MovedPlain(b.runs[k], a.clusters);
      }
    }
  }
}
