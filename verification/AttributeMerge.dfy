// Splicing the instances of one stream, spread over several file records, back
// into one attribute.
module AttributeMerge {
  import opened Prelude
  import opened RunEntries

  // An attribute of one type. A non-resident one maps the clusters of its stream
  // from its start VCN on.
  datatype Attribute =
    | Resident(content: seq<Byte>)
    | NonResident(name: string, startVcn: nat, lastVcn: nat, list: Mapping)

  // The header declares VCNs, and not up to 2^64 - 1.
  predicate Proper(a: Attribute)
    requires a.NonResident?
  {
    a.startVcn <= a.lastVcn < U64_MAX
  }

  // The largest VCN its runs may have, from 0 on, and the clusters it counts: an
  // inverted range wraps, and the largest span is the empty attribute's.
  function VcnSpan(a: Attribute): nat
    requires a.NonResident?
  {
    In64(a.lastVcn - a.startVcn)
  }

  function SpannedClusters(a: Attribute): nat
    requires a.NonResident?
  {
    if VcnSpan(a) == U64_MAX then 0 else VcnSpan(a) + 1
  }

  // The instance is one parsed from some bytes of runs.
  ghost predicate Parsed(a: Attribute) {
    a.NonResident? ==> a.list.clusters == SpannedClusters(a) && RunsOf(a.list.runs, VcnSpan(a))
  }

  ghost predicate RunsOf(runs: seq<Entry>, bound: nat) {
    exists bytes: seq<Byte> :: runs == Decoded(bytes, Cursor(0, 0), bound).runs
  }

  // An instance whose header declares a range of VCNs, and whose runs stay in it.
  ghost predicate InstanceRight(a: Attribute) {
    a.NonResident? ==> Proper(a) && a.list.clusters == a.lastVcn - a.startVcn + 1 && MappingRight(a.list)
  }

  // What decoding makes of such a header is such an instance, whatever its bytes.
  lemma DecodedInstance(a: Attribute)
    requires a.NonResident? && Proper(a) && Parsed(a)
    ensures InstanceRight(a)
  {
    hide Decoded, Ordered, In64;
    Wraps(a.lastVcn - a.startVcn);
    var bytes: seq<Byte> :| a.list.runs == Decoded(bytes, Cursor(0, 0), VcnSpan(a)).runs;
    DecodedUsable(bytes, VcnSpan(a));
  }

  // -------------------------------------------------------------------------
  // Groups
  // -------------------------------------------------------------------------

  predicate Named(a: Attribute, name: string) {
    a.NonResident? && a.name == name
  }

  predicate Instances(attrs: seq<Attribute>, order: seq<nat>) {
    forall k :: 0 <= k < |order| ==> order[k] < |attrs| && attrs[order[k]].NonResident?
  }

  // The instances of one stream among the first n attributes.
  function Group(attrs: seq<Attribute>, name: string, n: nat): (group: seq<nat>)
    requires n <= |attrs|
    ensures Instances(attrs, group)
  {
    if n == 0 then []
    else Group(attrs, name, n - 1) + if Named(attrs[n - 1], name) then [n - 1] else []
  }

  lemma {:induction false} GroupMembers(attrs: seq<Attribute>, name: string, n: nat)
    requires n <= |attrs|
    ensures forall i: nat :: i in Group(attrs, name, n) <==> i < n && Named(attrs[i], name)
    ensures forall j, k :: 0 <= j < k < |Group(attrs, name, n)| ==> Group(attrs, name, n)[j] < Group(attrs, name, n)[k]
  {
    if n > 0 {
      GroupMembers(attrs, name, n - 1);
      var before := Group(attrs, name, n - 1);
      forall k | 0 <= k < |before| ensures before[k] < n - 1 {
        assert before[k] in before;
      }
    }
  }

  function NonResidents(attrs: seq<Attribute>, n: nat): nat
    requires n <= |attrs|
  {
    if n == 0 then 0 else NonResidents(attrs, n - 1) + if attrs[n - 1].NonResident? then 1 else 0
  }

  lemma {:induction false} GroupSize(attrs: seq<Attribute>, name: string, n: nat)
    requires n <= |attrs|
    ensures |Group(attrs, name, n)| <= NonResidents(attrs, n)
  {
    if n > 0 { GroupSize(attrs, name, n - 1); }
  }

  method GroupNonResidentByName(attrs: seq<Attribute>) returns (byName: map<string, seq<nat>>)
    ensures Grouped(attrs, byName, |attrs|)
  {
    hide Grouped;
    byName := map[];
    NoneGrouped(attrs);
    var i: nat := 0;
    while i < |attrs|
      invariant i <= |attrs| && Grouped(attrs, byName, i)
    {
      GroupedNext(attrs, byName, i);
      if attrs[i].NonResident? {
        var key := attrs[i].name;
        byName := byName[key := (if key in byName then byName[key] else []) + [i]];
      }
      i := i + 1;
    }
  }

  ghost predicate Grouped(attrs: seq<Attribute>, byName: map<string, seq<nat>>, n: nat)
    requires n <= |attrs|
  {
    && (forall i :: 0 <= i < n && attrs[i].NonResident? ==> attrs[i].name in byName)
    && (forall name :: name in byName ==> byName[name] == Group(attrs, name, n) && byName[name] != [])
  }

  lemma NoneGrouped(attrs: seq<Attribute>)
    ensures Grouped(attrs, map[], 0)
  {
  }

  lemma GroupedNext(attrs: seq<Attribute>, byName: map<string, seq<nat>>, n: nat)
    requires n < |attrs| && Grouped(attrs, byName, n)
    ensures attrs[n].Resident? ==> Grouped(attrs, byName, n + 1)
    ensures attrs[n].NonResident? ==> var key := attrs[n].name; Grouped(attrs, byName[key := (if key in byName then byName[key] else []) + [n]], n + 1)
  {
    hide Group;
    if attrs[n].NonResident? {
      var key := attrs[n].name;
      var more := byName[key := (if key in byName then byName[key] else []) + [n]];
      forall name | name in more ensures more[name] == Group(attrs, name, n + 1) && more[name] != [] {
        GroupGrows(attrs, name, n);
        if name !in byName { GroupNone(attrs, name, n); }
      }
    } else {
      forall name | name in byName ensures byName[name] == Group(attrs, name, n + 1) {
        GroupGrows(attrs, name, n);
      }
    }
  }

  lemma GroupGrows(attrs: seq<Attribute>, name: string, n: nat)
    requires n < |attrs|
    ensures Group(attrs, name, n + 1) == Group(attrs, name, n) + if Named(attrs[n], name) then [n] else []
  {
  }

  lemma {:induction false} GroupNone(attrs: seq<Attribute>, name: string, n: nat)
    requires n <= |attrs| && forall k :: 0 <= k < n ==> !Named(attrs[k], name)
    ensures Group(attrs, name, n) == []
  {
    if n > 0 { GroupNone(attrs, name, n - 1); }
  }

  // -------------------------------------------------------------------------
  // One chain
  // -------------------------------------------------------------------------

  function StartsOf(attrs: seq<Attribute>): (starts: seq<nat>)
    ensures |starts| == |attrs|
    ensures forall i :: 0 <= i < |attrs| ==> starts[i] == if attrs[i].NonResident? then attrs[i].startVcn else 0
  {
    seq(|attrs|, i requires 0 <= i < |attrs| => if attrs[i].NonResident? then attrs[i].startVcn else 0)
  }

  function StartAt(starts: seq<nat>, i: nat): nat {
    if i < |starts| then starts[i] else 0
  }

  // The instances of a group in the order of their start VCN.
  function InOrder(starts: seq<nat>, group: seq<nat>): seq<nat> {
    Sort(group, (i: nat, j: nat) => StartAt(starts, i) <= StartAt(starts, j))
  }

  lemma InOrderSorts(starts: seq<nat>, group: seq<nat>)
    ensures |InOrder(starts, group)| == |group|
    ensures forall i :: i in InOrder(starts, group) <==> i in group
    ensures multiset(InOrder(starts, group)) == multiset(group)
    ensures SortedByStart(starts, InOrder(starts, group))
  {
    hide Sort;
    var leq := (i: nat, j: nat) => StartAt(starts, i) <= StartAt(starts, j);
    SortSorts(group, leq);
    var order := InOrder(starts, group);
    assert SortedBy(order, leq);
  }

  predicate SortedByStart(starts: seq<nat>, order: seq<nat>) {
    forall j, k :: 0 <= j < k < |order| ==> StartAt(starts, order[j]) <= StartAt(starts, order[k])
  }

  function PartsOf(attrs: seq<Attribute>, order: seq<nat>): (parts: seq<Attribute>)
    requires Instances(attrs, order)
    ensures |parts| == |order| && AllInstances(parts)
    ensures forall k :: 0 <= k < |order| ==> parts[k] == attrs[order[k]]
  {
    seq(|order|, k requires 0 <= k < |order| && order[k] < |attrs| => attrs[order[k]])
  }

  predicate AllInstances(parts: seq<Attribute>) {
    forall k :: 0 <= k < |parts| ==> parts[k].NonResident?
  }

  // Each instance starts where the one before ends, the first at VCN 0.
  predicate Contiguous(parts: seq<Attribute>, n: nat)
    requires AllInstances(parts) && n <= |parts|
  {
    forall k :: 0 <= k < n ==> parts[k].startVcn == ExpectedStart(parts, k)
  }

  // The start VCN expected of an instance, in 64-bit arithmetic.
  function ExpectedStart(parts: seq<Attribute>, k: nat): nat
    requires AllInstances(parts) && k <= |parts|
  {
    if k == 0 then 0 else Successor(parts[k - 1].lastVcn)
  }

  function Successor(vcn: nat): nat {
    In64(vcn + 1)
  }

  // The first n lists of a chain, spliced.
  function Chain(parts: seq<Attribute>, n: nat): Mapping
    requires AllInstances(parts) && 1 <= n <= |parts|
  {
    if n == 1 then parts[0].list else Appended(Chain(parts, n - 1), parts[n - 1].list)
  }

  ghost predicate AllRight(parts: seq<Attribute>) {
    forall k :: 0 <= k < |parts| ==> InstanceRight(parts[k])
  }

  // The range of all VCNs is the empty attribute's.
  predicate Owns(a: Attribute, vcn: nat)
    requires a.NonResident?
  {
    a.startVcn <= vcn <= a.lastVcn && !(a.startVcn == 0 && a.lastVcn == U64_MAX)
  }

  // The headers hold 64-bit numbers.
  predicate WideHeaders(parts: seq<Attribute>) {
    forall k :: 0 <= k < |parts| && parts[k].NonResident? ==> parts[k].startVcn <= U64_MAX && parts[k].lastVcn <= U64_MAX
  }

  // In a chain of instances an instance starts one past the last VCN before it.
  lemma NextStart(parts: seq<Attribute>, n: nat)
    requires AllInstances(parts) && AllRight(parts) && 2 <= n <= |parts| && Contiguous(parts, n)
    ensures parts[n - 1].startVcn == parts[n - 2].lastVcn + 1
  {
    hide MappingRight, In64;
    assert InstanceRight(parts[n - 2]);
    WrapsOnce(parts[n - 2].lastVcn + 1);
    assert parts[n - 1].startVcn == ExpectedStart(parts, n - 1);
  }

  lemma {:induction false} ChainRight(parts: seq<Attribute>, n: nat)
    requires AllInstances(parts) && AllRight(parts) && 1 <= n <= |parts| && Contiguous(parts, n)
    ensures MappingRight(Chain(parts, n)) && Chain(parts, n).clusters == parts[n - 1].lastVcn + 1
  {
    hide MappingRight, ExpectedStart;
    assert InstanceRight(parts[n - 1]);
    if n == 1 {
      FirstStart(parts);
    } else {
      ChainRight(parts, n - 1);
      NextStart(parts, n);
      AppendOrdered(Chain(parts, n - 1), parts[n - 1].list);
    }
  }

  lemma FirstStart(parts: seq<Attribute>)
    requires AllInstances(parts) && |parts| > 0 && Contiguous(parts, 1)
    ensures parts[0].startVcn == 0
  {
    assert parts[0].startVcn == ExpectedStart(parts, 0);
  }

  // The spliced list places each VCN as the instance that owns it.
  lemma {:induction false} ChainPlaces(parts: seq<Attribute>, n: nat, k: nat, vcn: nat)
    requires AllInstances(parts) && AllRight(parts) && k < n <= |parts| && Contiguous(parts, n)
    requires Owns(parts[k], vcn)
    ensures PlaceOf(Chain(parts, n).runs, vcn) == PlaceOf(parts[k].list.runs, vcn - parts[k].startVcn)
    ensures parts[k].lastVcn <= parts[n - 1].lastVcn
  {
    hide MappingRight, ExpectedStart, PlaceOf, Appended;
    assert InstanceRight(parts[n - 1]);
    if n == 1 {
      FirstStart(parts);
    } else {
      var before := Chain(parts, n - 1);
      ChainRight(parts, n - 1);
      NextStart(parts, n);
      AppendPlaces(before, parts[n - 1].list, vcn);
      if k < n - 1 { ChainPlaces(parts, n - 1, k, vcn); }
    }
  }

  // Every VCN before the one where the next instance would start has an owner,
  // whatever the headers.
  lemma {:induction false} ChainOwner(parts: seq<Attribute>, n: nat, vcn: nat) returns (k: nat)
    requires AllInstances(parts) && WideHeaders(parts) && 1 <= n <= |parts| && Contiguous(parts, n)
    requires vcn < Successor(parts[n - 1].lastVcn)
    ensures k < n && Owns(parts[k], vcn)
  {
    hide In64;
    WrapsOnce(parts[n - 1].lastVcn + 1);
    k := n - 1;
    assert parts[n - 1].startVcn == ExpectedStart(parts, n - 1);
    if vcn < parts[n - 1].startVcn {
      k := ChainOwner(parts, n - 1, vcn);
    }
  }

  // The clusters counted by the instances add up to that VCN.
  lemma {:induction false} ChainClusters(parts: seq<Attribute>, n: nat)
    requires AllInstances(parts) && WideHeaders(parts) && 1 <= n <= |parts| && Contiguous(parts, n)
    requires forall k :: 0 <= k < n ==> parts[k].list.clusters == SpannedClusters(parts[k])
    ensures Chain(parts, n).clusters == Successor(parts[n - 1].lastVcn)
  {
    hide In64, SpannedClusters, Successor;
    var last := parts[n - 1];
    assert last.startVcn == ExpectedStart(parts, n - 1);
    SpanAdds(last);
    if n > 1 { ChainClusters(parts, n - 1); }
  }

  lemma SpanAdds(a: Attribute)
    requires a.NonResident? && a.startVcn <= U64_MAX && a.lastVcn <= U64_MAX
    ensures In64(a.startVcn + SpannedClusters(a)) == Successor(a.lastVcn)
    ensures a.startVcn == 0 ==> SpannedClusters(a) == Successor(a.lastVcn)
  {
    hide In64;
    Wraps(a.lastVcn - a.startVcn);
    WrapsOnce(a.lastVcn + 1);
    WrapsOnce(a.startVcn + SpannedClusters(a));
  }

  // -------------------------------------------------------------------------
  // Headers that any bytes splice right
  // -------------------------------------------------------------------------

  // The same headers, with lists parsed from some bytes.
  ghost predicate Fills(lists: seq<Attribute>, parts: seq<Attribute>)
    requires AllInstances(parts)
  {
    && |lists| == |parts| && AllInstances(lists)
    && (forall k :: 0 <= k < |lists| ==> SameHeader(lists[k], parts[k]) && Parsed(lists[k]))
  }

  predicate SameHeader(a: Attribute, b: Attribute)
    requires a.NonResident? && b.NonResident?
  {
    a == b.(list := a.list)
  }

  // The splice places every VCN as the instance that owns it.
  ghost predicate PlacesOwned(lists: seq<Attribute>)
    requires AllInstances(lists) && |lists| > 0
  {
    forall k: nat, vcn: nat :: k < |lists| && Owns(lists[k], vcn) ==> PlaceOf(Chain(lists, |lists|).runs, vcn) == PlaceOf(lists[k].list.runs, vcn - lists[k].startVcn)
  }

  ghost predicate SplicesRight(parts: seq<Attribute>)
    requires AllInstances(parts) && |parts| > 0
  {
    forall lists: seq<Attribute> :: Fills(lists, parts) ==> PlacesOwned(lists)
  }

  predicate AllProper(parts: seq<Attribute>)
    requires AllInstances(parts)
  {
    forall k :: 0 <= k < |parts| ==> Proper(parts[k])
  }

  // A chain that owns a VCN is spliced right whatever its bytes exactly when no
  // header's range is empty, inverted, or ends at 2^64 - 1.
  lemma SplicesRightIff(parts: seq<Attribute>, k: nat, vcn: nat)
    requires AllInstances(parts) && WideHeaders(parts) && k < |parts| && Contiguous(parts, |parts|) && Owns(parts[k], vcn)
    ensures SplicesRight(parts) <==> AllProper(parts)
  {
    hide Contiguous, Chain, PlaceOf, Owns, Proper, Parsed;
    if AllProper(parts) {
      forall lists: seq<Attribute> | Fills(lists, parts) ensures PlacesOwned(lists) {
        ProperSplice(parts, lists);
      }
    } else {
      var j: nat :| j < |parts| && !Proper(parts[j]);
      var i, v := OtherOwner(parts, j, k, vcn);
      var lists := StuckLists(parts, j);
      StuckFills(parts, j);
      StuckMisplaced(parts, j, i, v);
      assert Fills(lists, parts) && !PlacesOwned(lists);
    }
  }

  lemma SameChain(parts: seq<Attribute>, lists: seq<Attribute>)
    requires AllInstances(parts) && Contiguous(parts, |parts|) && WideHeaders(parts) && Fills(lists, parts)
    ensures Contiguous(lists, |lists|) && WideHeaders(lists)
  {
    hide In64, Parsed;
    forall k | 0 <= k < |lists| ensures lists[k].startVcn == ExpectedStart(lists, k) {
      assert parts[k].startVcn == ExpectedStart(parts, k);
      assert SameHeader(lists[k], parts[k]);
      if k > 0 { assert SameHeader(lists[k - 1], parts[k - 1]); }
    }
    forall k | 0 <= k < |lists| ensures lists[k].startVcn <= U64_MAX && lists[k].lastVcn <= U64_MAX {
      assert SameHeader(lists[k], parts[k]);
    }
  }

  lemma ProperSplice(parts: seq<Attribute>, lists: seq<Attribute>)
    requires AllInstances(parts) && WideHeaders(parts) && |parts| > 0 && Contiguous(parts, |parts|) && AllProper(parts) && Fills(lists, parts)
    ensures PlacesOwned(lists)
  {
    hide Contiguous, Chain, PlaceOf, Owns, Parsed, InstanceRight;
    SameChain(parts, lists);
    forall k | 0 <= k < |lists| ensures InstanceRight(lists[k]) {
      assert SameHeader(lists[k], parts[k]) && Proper(parts[k]);
      DecodedInstance(lists[k]);
    }
    forall k: nat, vcn: nat | k < |lists| && Owns(lists[k], vcn) ensures OwnedAt(lists, k, vcn) {
      ChainPlaces(lists, |lists|, k, vcn);
      OwnedFrom(lists[k], vcn);
    }
    forall k: nat, vcn: nat | k < |lists| && Owns(lists[k], vcn) ensures lists[k].startVcn <= vcn && PlaceOf(Chain(lists, |lists|).runs, vcn) == PlaceOf(lists[k].list.runs, vcn - lists[k].startVcn) {
      assert OwnedAt(lists, k, vcn);
    }
  }

  ghost predicate OwnedAt(lists: seq<Attribute>, k: nat, vcn: nat)
    requires AllInstances(lists) && k < |lists|
  {
    lists[k].startVcn <= vcn && PlaceOf(Chain(lists, |lists|).runs, vcn) == PlaceOf(lists[k].list.runs, vcn - lists[k].startVcn)
  }

  lemma OwnedFrom(a: Attribute, vcn: nat)
    requires a.NonResident? && Owns(a, vcn)
    ensures a.startVcn <= vcn
  {
  }

  // Another instance than a given improper one owns a VCN.
  lemma OtherOwner(parts: seq<Attribute>, j: nat, k: nat, vcn: nat) returns (i: nat, v: nat)
    requires AllInstances(parts) && WideHeaders(parts) && Contiguous(parts, |parts|)
    requires j < |parts| && !Proper(parts[j]) && k < |parts| && Owns(parts[k], vcn)
    ensures i < |parts| && i != j && Owns(parts[i], v) && v <= U64_MAX
  {
    hide Contiguous;
    i, v := k, vcn;
    if k == j { i, v := EarlierOwner(parts, j); }
  }

  lemma {:induction false} EarlierOwner(parts: seq<Attribute>, j: nat) returns (i: nat, v: nat)
    requires AllInstances(parts) && WideHeaders(parts) && Contiguous(parts, |parts|) && j < |parts| && parts[j].startVcn > 0
    ensures i < j && Owns(parts[i], v) && v <= U64_MAX
  {
    hide In64;
    assert parts[j].startVcn == ExpectedStart(parts, j);
    i := j - 1;
    v := parts[i].lastVcn;
    WrapsOnce(parts[i].lastVcn + 1);
    if parts[i].startVcn > parts[i].lastVcn { i, v := EarlierOwner(parts, i); }
  }

  // Runs that end with an empty one, which starts at VCN 0 when they are spliced
  // at a VCN: it then has no last VCN.
  function StuckRuns(at: nat): seq<Entry>
    requires at <= U64_MAX
  {
    if at == 0 then [Entry(Some(0), 0, 0, U64_MAX)]
    else [Entry(None, U64_MAX + 1 - at, 0, U64_MAX - at), Entry(Some(0), 0, U64_MAX + 1 - at, U64_MAX - at)]
  }

  lemma StuckParsed(at: nat, bound: nat)
    requires at <= U64_MAX && bound <= U64_MAX && (if at == 0 then bound == U64_MAX else U64_MAX - at <= bound)
    ensures RunsOf(StuckRuns(at), bound)
  {
    hide Power, Decoded, PackedBytes;
    WholePower();
    OnePower();
    var empty := Packed(0, Some(0), 1, 1);
    var packs := if at == 0 then [empty] else [Packed(U64_MAX + 1 - at, None, 8, 0), empty];
    assert forall p :: p in packs ==> Fits(p);
    PackedDecodes(packs, [], Cursor(0, 0), bound);
    StuckTaken(at, bound, packs, empty);
    assert Decoded(PackedBytes(packs) + [], Cursor(0, 0), bound).runs == StuckRuns(at);
  }

  lemma OnePower()
    ensures Power(1) == 256
  {
  }

  lemma StuckTaken(at: nat, bound: nat, packs: seq<Packed>, empty: Packed)
    requires at <= U64_MAX && bound <= U64_MAX && (if at == 0 then bound == U64_MAX else U64_MAX - at <= bound)
    requires empty == Packed(0, Some(0), 1, 1) && packs == if at == 0 then [empty] else [Packed(U64_MAX + 1 - at, None, 8, 0), empty]
    ensures Taken(packs, Cursor(0, 0), bound).runs == StuckRuns(at)
  {
    if at == 0 {
      assert packs[1..] == [];
    } else {
      var c := Cursor(0, U64_MAX + 1 - at);
      assert packs[1..] == [empty] && [empty][1..] == [];
      assert Taken([empty], c, bound).runs == [Entry(Some(0), 0, U64_MAX + 1 - at, U64_MAX - at)];
      assert Stepped(packs[0].length, packs[0].offset, Cursor(0, 0), bound) == Step(Entry(None, U64_MAX + 1 - at, 0, U64_MAX - at), c);
    }
  }

  // The headers with such runs in one instance, and none in the others.
  function StuckLists(parts: seq<Attribute>, j: nat): (lists: seq<Attribute>)
    requires AllInstances(parts) && WideHeaders(parts) && j < |parts|
    ensures |lists| == |parts| && AllInstances(lists)
  {
    seq(|parts|, k requires 0 <= k < |parts| => parts[k].(list := Mapping(if k == j then StuckRuns(parts[k].startVcn) else [], SpannedClusters(parts[k]))))
  }

  lemma StuckFills(parts: seq<Attribute>, j: nat)
    requires AllInstances(parts) && WideHeaders(parts) && j < |parts| && !Proper(parts[j])
    ensures Fills(StuckLists(parts, j), parts)
  {
    hide StuckRuns, Decoded, In64;
    var lists := StuckLists(parts, j);
    forall k | 0 <= k < |lists| ensures Parsed(lists[k]) {
      if k == j {
        Wraps(parts[j].lastVcn - parts[j].startVcn);
        StuckParsed(parts[j].startVcn, VcnSpan(parts[j]));
      } else {
        NoRunsParsed(VcnSpan(parts[k]));
      }
    }
  }

  lemma NoRunsParsed(bound: nat)
    ensures RunsOf([], bound)
  {
    var none: seq<Byte> := [];
    assert Decoded(none, Cursor(0, 0), bound).runs == [];
  }

  // The other instances have no run, but the splice has one at each of their VCNs.
  lemma StuckMisplaced(parts: seq<Attribute>, j: nat, i: nat, v: nat)
    requires AllInstances(parts) && WideHeaders(parts) && Contiguous(parts, |parts|) && j < |parts|
    requires Fills(StuckLists(parts, j), parts) && i < |parts| && i != j && Owns(parts[i], v) && v <= U64_MAX
    ensures !PlacesOwned(StuckLists(parts, j))
  {
    hide Contiguous, Chain, PlaceOf, Parsed, StuckRuns, In64;
    var lists := StuckLists(parts, j);
    SameChain(parts, lists);
    ChainOfOne(lists, |lists|, j);
    StuckEverywhere(lists[j].startVcn, v);
    StartsAtZero(lists);
    assert Owns(lists[i], v);
    NoneNowhere(lists[i].list.runs, v - lists[i].startVcn);
  }

  lemma StartsAtZero(parts: seq<Attribute>)
    requires AllInstances(parts) && |parts| > 0 && Contiguous(parts, |parts|)
    ensures parts[0].startVcn == 0
  {
    assert parts[0].startVcn == ExpectedStart(parts, 0);
  }

  lemma {:induction false} ChainOfOne(lists: seq<Attribute>, n: nat, j: nat)
    requires AllInstances(lists) && WideHeaders(lists) && Contiguous(lists, |lists|) && 1 <= n <= |lists| && j < |lists|
    requires forall k :: 0 <= k < |lists| ==> lists[k].list.clusters == SpannedClusters(lists[k]) && (k != j ==> lists[k].list.runs == [])
    ensures Chain(lists, n).runs == if j < n then SplicedAt(lists[j].list.runs, lists[j].startVcn, j) else []
  {
    hide In64, SpannedClusters, MovedRuns, Successor, Appended;
    if n > 1 {
      ChainOfOne(lists, n - 1, j);
      ChainClusters(lists, n - 1);
      assert lists[n - 1].startVcn == ExpectedStart(lists, n - 1);
      SplicedNext(Chain(lists, n - 1), lists[n - 1].list);
    }
  }

  lemma SplicedNext(a: Mapping, b: Mapping)
    ensures b.runs == [] ==> Appended(a, b).runs == a.runs
    ensures a.runs == [] ==> Appended(a, b).runs == MovedRuns(b.runs, a.clusters)
  {
    if b.runs == [] { assert a.runs + MovedRuns(b.runs, a.clusters) == a.runs; }
  }

  // The runs of an instance in the splice: the first instance's stay as they are.
  function SplicedAt(runs: seq<Entry>, start: nat, j: nat): seq<Entry> {
    if j == 0 then runs else MovedRuns(runs, start)
  }

  lemma StuckEverywhere(at: nat, v: nat)
    requires at <= U64_MAX && v <= U64_MAX
    ensures !PlaceOf(MovedRuns(StuckRuns(at), at), v).Nowhere?
    ensures at == 0 ==> !PlaceOf(StuckRuns(at), v).Nowhere?
  {
    hide PlaceOf, In64, MovedRuns;
    var runs := StuckRuns(at);
    var last := |runs| - 1;
    MovedAt(runs, at, last);
    WrapsOnce(runs[last].startVcn + at);
    WrapsOnce(runs[last].lastVcn + at);
    assert Holds(MovedRuns(runs, at)[last], v);
    NoneNowhere(MovedRuns(runs, at), v);
    NoneNowhere(runs, v);
    assert at == 0 ==> Holds(runs[last], v);
  }

  // The group in VCN order, and whether it is one chain.
  function Ordering(attrs: seq<Attribute>, group: seq<nat>): (order: seq<nat>)
    requires Instances(attrs, group)
    ensures |order| == |group| && Instances(attrs, order)
  {
    hide InOrder;
    var starts := StartsOf(attrs);
    InOrderSorts(starts, group);
    InstancesOf(attrs, group, InOrder(starts, group));
    InOrder(starts, group)
  }

  lemma InstancesOf(attrs: seq<Attribute>, group: seq<nat>, order: seq<nat>)
    requires Instances(attrs, group) && forall i :: i in order ==> i in group
    ensures Instances(attrs, order)
  {
    forall k | 0 <= k < |order| ensures order[k] < |attrs| && attrs[order[k]].NonResident? {
      assert order[k] in group;
    }
  }

  predicate Merges(attrs: seq<Attribute>, group: seq<nat>)
    requires Instances(attrs, group)
  {
    |group| >= 2 && Contiguous(PartsOf(attrs, Ordering(attrs, group)), |group|)
  }

  // A merged group's first instance, with the spliced list.
  function Keeper(attrs: seq<Attribute>, group: seq<nat>): Attribute
    requires Instances(attrs, group) && |group| > 0
  {
    var order := Ordering(attrs, group);
    attrs[order[0]].(list := Chain(PartsOf(attrs, order), |order|))
  }

  // Merges a group into its first instance when it is one chain from VCN 0, and
  // adds the others to those to erase. Else every instance stays as it was.
  method MergeStreamChain(attrs: seq<Attribute>, indices: seq<nat>, toErase: seq<nat>)
    returns (merged: seq<Attribute>, erase: seq<nat>)
    requires |indices| >= 2 && Instances(attrs, indices)
    requires forall j, k :: 0 <= j < k < |indices| ==> indices[j] != indices[k]
    ensures !Merges(attrs, indices) ==> merged == attrs && erase == toErase
    ensures Merges(attrs, indices) ==> merged == attrs[Ordering(attrs, indices)[0] := Keeper(attrs, indices)]
    ensures Merges(attrs, indices) ==> erase == toErase + Ordering(attrs, indices)[1..]
  {
    hide InOrder, Contiguous, Chain;
    merged, erase := attrs, toErase;
    var order := Ordering(attrs, indices);
    var contiguous := StartsFollow(attrs, order);
    if contiguous {
      OrderDistinct(attrs, indices);
      merged, erase := SpliceInto(attrs, order, toErase);
    }
  }

  lemma OrderDistinct(attrs: seq<Attribute>, indices: seq<nat>)
    requires Instances(attrs, indices) && forall j, k :: 0 <= j < k < |indices| ==> indices[j] != indices[k]
    ensures forall j, k :: 0 <= j < k < |Ordering(attrs, indices)| ==> Ordering(attrs, indices)[j] != Ordering(attrs, indices)[k]
  {
    hide InOrder;
    InOrderSorts(StartsOf(attrs), indices);
    DistinctOrder(indices, Ordering(attrs, indices));
  }

  // Whether the instances, in this order, follow each other from VCN 0 on.
  method StartsFollow(attrs: seq<Attribute>, order: seq<nat>) returns (contiguous: bool)
    requires Instances(attrs, order)
    ensures contiguous <==> Contiguous(PartsOf(attrs, order), |order|)
  {
    hide Successor, Contiguous, ExpectedStart, StartsOf;
    ghost var parts := PartsOf(attrs, order);
    FollowNone(parts);
    var expected: nat := 0;
    var i: nat := 0;
    while i < |order|
      invariant i <= |order| && expected == ExpectedStart(parts, i)
      invariant Contiguous(parts, i)
    {
      FollowNext(parts, i);
      if attrs[order[i]].startVcn != expected {
        return false;
      }
      expected := Successor(attrs[order[i]].lastVcn);
      i := i + 1;
    }
    return true;
  }

  lemma FollowNone(parts: seq<Attribute>)
    requires AllInstances(parts)
    ensures Contiguous(parts, 0) && ExpectedStart(parts, 0) == 0
  {
  }

  lemma FollowNext(parts: seq<Attribute>, i: nat)
    requires AllInstances(parts) && i < |parts| && Contiguous(parts, i)
    ensures parts[i].startVcn == ExpectedStart(parts, i) ==> Contiguous(parts, i + 1)
    ensures parts[i].startVcn != ExpectedStart(parts, i) ==> !Contiguous(parts, |parts|)
    ensures ExpectedStart(parts, i + 1) == Successor(parts[i].lastVcn)
  {
    hide Successor;
  }

  // Appends the lists of the instances after the first to the first one's.
  method SpliceInto(attrs: seq<Attribute>, order: seq<nat>, toErase: seq<nat>)
    returns (merged: seq<Attribute>, erase: seq<nat>)
    requires |order| >= 1 && Instances(attrs, order)
    requires forall j, k :: 0 <= j < k < |order| ==> order[j] != order[k]
    ensures merged == attrs[order[0] := attrs[order[0]].(list := Chain(PartsOf(attrs, order), |order|))]
    ensures erase == toErase + order[1..]
  {
    hide Appended;
    merged, erase := attrs, toErase;
    ghost var parts := PartsOf(attrs, order);
    var keeper := order[0];
    var k: nat := 1;
    while k < |order|
      invariant 1 <= k <= |order|
      invariant merged == attrs[keeper := attrs[keeper].(list := Chain(parts, k))]
      invariant erase == toErase + order[1..k]
    {
      var index := order[k];
      assert merged[index] == parts[k];
      merged := merged[keeper := merged[keeper].(list := Appended(merged[keeper].list, merged[index].list))];
      assert order[1..k] + [order[k]] == order[1..k + 1];
      erase := erase + [index];
      k := k + 1;
    }
    assert order[1..k] == order[1..];
  }

  lemma DistinctOrder(indices: seq<nat>, order: seq<nat>)
    requires multiset(order) == multiset(indices)
    requires forall j, k :: 0 <= j < k < |indices| ==> indices[j] != indices[k]
    ensures forall j, k :: 0 <= j < k < |order| ==> order[j] != order[k]
  {
    forall j, k | 0 <= j < k < |order| ensures order[j] != order[k] {
      if order[j] == order[k] {
        TwiceIn(order, j, k);
        assert multiset(indices)[order[j]] >= 2;
        OnceIn(indices, order[j]);
      }
    }
  }

  lemma TwiceIn(s: seq<nat>, j: nat, k: nat)
    requires j < k < |s| && s[j] == s[k]
    ensures multiset(s)[s[j]] >= 2
  {
    assert s == s[..k] + s[k..];
    assert s[j] in s[..k] && s[k] in s[k..];
    assert multiset(s[..k])[s[j]] >= 1 && multiset(s[k..])[s[j]] >= 1;
  }

  lemma {:induction false} OnceIn(s: seq<nat>, x: nat)
    requires forall j, k :: 0 <= j < k < |s| ==> s[j] != s[k]
    ensures multiset(s)[x] <= 1
  {
    if |s| > 0 {
      var front, last := s[..|s| - 1], s[|s| - 1];
      OnceIn(front, x);
      assert s == front + [last];
      if last == x {
        forall j | 0 <= j < |front| ensures front[j] != x {
          assert front[j] == s[j];
        }
        assert x !in multiset(front);
      }
    }
  }

  // -------------------------------------------------------------------------
  // All streams of a type
  // -------------------------------------------------------------------------

  // What becomes of an attribute: the first instance of a chain carries the
  // spliced list, the others of the chain are gone, and all else stays.
  function Fate(attrs: seq<Attribute>, i: nat): Option<Attribute>
    requires i < |attrs|
  {
    if attrs[i].Resident? then Some(attrs[i])
    else
      var group := Group(attrs, attrs[i].name, |attrs|);
      if !Merges(attrs, group) then Some(attrs[i])
      else if i == Ordering(attrs, group)[0] then Some(Keeper(attrs, group))
      else None
  }

  function Merged(attrs: seq<Attribute>, n: nat): seq<Attribute>
    requires n <= |attrs|
  {
    if n == 0 then []
    else Merged(attrs, n - 1) + match Fate(attrs, n - 1) { case None => [] case Some(a) => [a] }
  }

  // Mapping lists aside, the attributes are as they were.
  predicate SameHeaders(attrs: seq<Attribute>, now: seq<Attribute>) {
    && |now| == |attrs|
    && forall i :: 0 <= i < |attrs| ==> if attrs[i].Resident? then now[i] == attrs[i] else now[i].NonResident? && now[i].startVcn == attrs[i].startVcn
  }

  lemma SameGroup(attrs: seq<Attribute>, now: seq<Attribute>, group: seq<nat>)
    requires SameHeaders(attrs, now) && Instances(attrs, group)
    requires forall i :: i in group ==> now[i] == attrs[i]
    ensures Instances(now, group) && Ordering(now, group) == Ordering(attrs, group)
    ensures Merges(now, group) <==> Merges(attrs, group)
    ensures |group| > 0 ==> Keeper(now, group) == Keeper(attrs, group)
  {
    hide InOrder, Contiguous, Chain;
    assert StartsOf(now) == StartsOf(attrs);
    var order := Ordering(attrs, group);
    InOrderSorts(StartsOf(attrs), group);
    forall k | 0 <= k < |order| ensures now[order[k]] == attrs[order[k]] {
      assert order[k] in group;
    }
    assert PartsOf(now, order) == PartsOf(attrs, order);
    if |group| > 0 { assert order[0] in group; }
  }

  // The attributes while the streams of some names still wait.
  ghost predicate Underway(attrs: seq<Attribute>, now: seq<Attribute>, erase: seq<nat>, waiting: set<string>) {
    && SameHeaders(attrs, now)
    && (forall i :: 0 <= i < |attrs| ==> now[i] == Currently(attrs, waiting, i))
    && (forall i: nat :: i in erase <==> i < |attrs| && Gone(attrs, waiting, i))
    && (forall j, k :: 0 <= j < k < |erase| ==> erase[j] != erase[k])
  }

  predicate Waits(attrs: seq<Attribute>, waiting: set<string>, i: nat)
    requires i < |attrs|
  {
    attrs[i].NonResident? && attrs[i].name in waiting
  }

  predicate Gone(attrs: seq<Attribute>, waiting: set<string>, i: nat)
    requires i < |attrs|
  {
    !Waits(attrs, waiting, i) && Fate(attrs, i).None?
  }

  function Currently(attrs: seq<Attribute>, waiting: set<string>, i: nat): Attribute
    requires i < |attrs|
  {
    if Waits(attrs, waiting, i) || Fate(attrs, i).None? then attrs[i] else Fate(attrs, i).value
  }

  method MergeNames(attrs: seq<Attribute>) returns (now: seq<Attribute>, erase: seq<nat>)
    ensures Underway(attrs, now, erase, {})
  {
    hide Underway, Group, Ordering, Keeper, Contiguous, PartsOf;
    var byName := GroupNonResidentByName(attrs);
    var names := byName.Keys;
    now, erase := attrs, [];
    Beginning(attrs, names);
    while names != {}
      invariant names <= byName.Keys
      invariant Underway(attrs, now, erase, names)
      decreases |names|
    {
      var name :| name in names;
      var indices := byName[name];
      GroupWaits(attrs, now, erase, names, name);
      var before, gone := now, erase;
      if |indices| >= 2 {
        now, erase := MergeStreamChain(now, indices, erase);
      }
      NameDone(attrs, before, gone, names, name, now, erase);
      names := names - {name};
    }
  }

  lemma Beginning(attrs: seq<Attribute>, names: set<string>)
    requires forall i :: 0 <= i < |attrs| && attrs[i].NonResident? ==> attrs[i].name in names
    ensures Underway(attrs, attrs, [], names)
  {
  }

  lemma GroupWaits(attrs: seq<Attribute>, now: seq<Attribute>, erase: seq<nat>, waiting: set<string>, name: string)
    requires Underway(attrs, now, erase, waiting) && name in waiting
    ensures var group := Group(attrs, name, |attrs|); Instances(now, group) && forall j, k :: 0 <= j < k < |group| ==> group[j] != group[k]
    ensures SameHeaders(attrs, now) && forall i :: i in Group(attrs, name, |attrs|) ==> now[i] == attrs[i]
  {
    hide Group, Fate;
    GroupMembers(attrs, name, |attrs|);
  }

  lemma FateInGroup(attrs: seq<Attribute>, name: string, i: nat)
    requires i < |attrs| && Named(attrs[i], name)
    ensures var group := Group(attrs, name, |attrs|); i in group && Fate(attrs, i) == if !Merges(attrs, group) then Some(attrs[i]) else if i == Ordering(attrs, group)[0] then Some(Keeper(attrs, group)) else None
  {
    hide Group, Merges, Ordering, Keeper;
    GroupMembers(attrs, name, |attrs|);
  }

  // Which attributes wait once a name is done.
  lemma WaitingLess(attrs: seq<Attribute>, waiting: set<string>, name: string, i: nat)
    requires i < |attrs| && name in waiting
    ensures !Named(attrs[i], name) ==> Currently(attrs, waiting - {name}, i) == Currently(attrs, waiting, i)
    ensures !Named(attrs[i], name) ==> (Gone(attrs, waiting - {name}, i) <==> Gone(attrs, waiting, i))
    ensures Named(attrs[i], name) ==> Waits(attrs, waiting, i) && !Waits(attrs, waiting - {name}, i)
  {
    hide Fate;
  }

  // One name's chain is dealt with: merged or left.
  lemma NameDone(attrs: seq<Attribute>, before: seq<Attribute>, gone: seq<nat>, waiting: set<string>, name: string,
                 now: seq<Attribute>, erase: seq<nat>)
    requires Underway(attrs, before, gone, waiting) && name in waiting
    requires var group := Group(attrs, name, |attrs|); Instances(before, group) && AfterChain(before, gone, group, now, erase)
    ensures Underway(attrs, now, erase, waiting - {name})
  {
    hide Group, Fate, Merges, Ordering, Keeper;
    var group := Group(attrs, name, |attrs|);
    GroupWaits(attrs, before, gone, waiting, name);
    SameGroup(attrs, before, group);
    GroupMembers(attrs, name, |attrs|);
    if Merges(attrs, group) {
      SizeOfMerged(attrs, group);
      ChainMerged(attrs, before, gone, waiting, name, now, erase);
    } else {
      forall i: nat | i < |attrs| ensures now[i] == Currently(attrs, waiting - {name}, i) && (Gone(attrs, waiting - {name}, i) <==> Gone(attrs, waiting, i)) {
        WaitingLess(attrs, waiting, name, i);
        if Named(attrs[i], name) { FateInGroup(attrs, name, i); }
      }
    }
  }

  lemma SizeOfMerged(attrs: seq<Attribute>, group: seq<nat>)
    requires Instances(attrs, group) && Merges(attrs, group)
    ensures |group| >= 2
  {
  }

  lemma ChainMerged(attrs: seq<Attribute>, before: seq<Attribute>, gone: seq<nat>, waiting: set<string>, name: string,
                    now: seq<Attribute>, erase: seq<nat>)
    requires Underway(attrs, before, gone, waiting) && name in waiting
    requires var group := Group(attrs, name, |attrs|); Merges(attrs, group) && |group| >= 2 && now == before[Ordering(attrs, group)[0] := Keeper(attrs, group)] && erase == gone + Ordering(attrs, group)[1..]
    ensures Underway(attrs, now, erase, waiting - {name})
  {
    hide Group, Fate, Merges, Ordering, Keeper, SameHeaders;
    var group := Group(attrs, name, |attrs|);
    var order := Ordering(attrs, group);
    OrderOfGroup(attrs, name);
    SameLength(attrs, before);
    var left := waiting - {name};
    forall i: nat | i < |attrs| ensures now[i] == Currently(attrs, left, i) && (i in erase <==> Gone(attrs, left, i)) {
      WaitingLess(attrs, waiting, name, i);
      HeadOrTail(order, i);
      if Named(attrs[i], name) { FateInGroup(attrs, name, i); }
    }
    forall j, k | 0 <= j < k < |erase| ensures erase[j] != erase[k] {
      if j < |gone| <= k {
        assert gone[j] in gone;
        assert order[k - |gone| + 1] in order;
        WaitingLess(attrs, waiting, name, order[k - |gone| + 1]);
      } else if |gone| <= j {
        assert erase[j] == order[j - |gone| + 1] && erase[k] == order[k - |gone| + 1];
      }
    }
    HeadersKept(attrs, before, order[0], Keeper(attrs, group));
  }

  lemma SameLength(attrs: seq<Attribute>, now: seq<Attribute>)
    requires SameHeaders(attrs, now)
    ensures |now| == |attrs|
  {
  }

  lemma HeadersKept(attrs: seq<Attribute>, before: seq<Attribute>, i: nat, a: Attribute)
    requires SameHeaders(attrs, before) && i < |attrs| && attrs[i].NonResident? && a.NonResident? && a.startVcn == attrs[i].startVcn
    ensures SameHeaders(attrs, before[i := a])
  {
  }

  lemma HeadOrTail(s: seq<nat>, x: nat)
    requires |s| > 0 && forall j, k :: 0 <= j < k < |s| ==> s[j] != s[k]
    ensures x in s[1..] <==> x in s && x != s[0]
  {
  }

  lemma OrderOfGroup(attrs: seq<Attribute>, name: string)
    ensures var group := Group(attrs, name, |attrs|); forall i: nat :: i in Ordering(attrs, group) <==> i < |attrs| && Named(attrs[i], name)
    ensures var order := Ordering(attrs, Group(attrs, name, |attrs|)); forall j, k :: 0 <= j < k < |order| ==> order[j] != order[k]
    ensures var group := Group(attrs, name, |attrs|); |group| > 0 ==> Keeper(attrs, group).NonResident? && Keeper(attrs, group).startVcn == attrs[Ordering(attrs, group)[0]].startVcn
  {
    hide Group, InOrder;
    GroupMembers(attrs, name, |attrs|);
    OrderDistinct(attrs, Group(attrs, name, |attrs|));
    InOrderSorts(StartsOf(attrs), Group(attrs, name, |attrs|));
  }

  predicate AfterChain(before: seq<Attribute>, gone: seq<nat>, group: seq<nat>, now: seq<Attribute>, erase: seq<nat>)
    requires Instances(before, group)
  {
    if !Merges(before, group) then now == before && erase == gone
    else
      now == before[Ordering(before, group)[0] := Keeper(before, group)] && erase == gone + Ordering(before, group)[1..]
  }

  // -------------------------------------------------------------------------
  // Erasing, and the whole list
  // -------------------------------------------------------------------------

  // The attributes of a range that are not to be erased.
  function Kept(attrs: seq<Attribute>, erase: seq<nat>, lo: nat, hi: nat): seq<Attribute>
    requires hi <= |attrs|
  {
    if hi <= lo then [] else Kept(attrs, erase, lo, hi - 1) + if hi - 1 in erase then [] else [attrs[hi - 1]]
  }

  lemma {:induction false} KeptSplit(attrs: seq<Attribute>, erase: seq<nat>, lo: nat, mid: nat, hi: nat)
    requires lo <= mid <= hi <= |attrs|
    ensures Kept(attrs, erase, lo, hi) == Kept(attrs, erase, lo, mid) + Kept(attrs, erase, mid, hi)
  {
    if mid < hi { KeptSplit(attrs, erase, lo, mid, hi - 1); }
  }

  lemma {:induction false} KeptAll(attrs: seq<Attribute>, erase: seq<nat>, lo: nat, hi: nat)
    requires lo <= hi <= |attrs| && forall i :: lo <= i < hi ==> i !in erase
    ensures Kept(attrs, erase, lo, hi) == attrs[lo..hi]
  {
    if lo < hi {
      KeptAll(attrs, erase, lo, hi - 1);
      assert attrs[lo..hi] == attrs[lo..hi - 1] + [attrs[hi - 1]];
    }
  }

  // One erasure, from the back.
  lemma KeptStep(attrs: seq<Attribute>, erase: seq<nat>, e: nat, bound: nat)
    requires e < bound <= |attrs| && e in erase && forall i :: e < i < bound ==> i !in erase
    ensures Kept(attrs, erase, e, |attrs|) == attrs[e + 1..bound] + Kept(attrs, erase, bound, |attrs|)
  {
    hide Kept;
    KeptSplit(attrs, erase, e, bound, |attrs|);
    KeptSplit(attrs, erase, e, e + 1, bound);
    KeptAll(attrs, erase, e + 1, bound);
    KeptNone(attrs, erase, e);
  }

  lemma KeptNone(attrs: seq<Attribute>, erase: seq<nat>, e: nat)
    requires e < |attrs| && e in erase
    ensures Kept(attrs, erase, e, e + 1) == []
  {
  }

  lemma EraseOne(attrs: seq<Attribute>, tail: seq<Attribute>, e: nat, bound: nat)
    requires e < bound <= |attrs|
    ensures var now := attrs[..bound] + tail; now[..e] + now[e + 1..] == attrs[..e] + (attrs[e + 1..bound] + tail)
  {
  }

  ghost predicate Increasing(s: seq<nat>) {
    forall j, k :: 0 <= j < k < |s| ==> s[j] < s[k]
  }

  function Sorted(erase: seq<nat>): seq<nat> {
    Sort(erase, (a: nat, b: nat) => a <= b)
  }

  lemma SortIncreases(erase: seq<nat>)
    requires forall j, k :: 0 <= j < k < |erase| ==> erase[j] != erase[k]
    ensures Increasing(Sorted(erase)) && forall i :: i in Sorted(erase) <==> i in erase
  {
    hide Sort;
    var leq := (a: nat, b: nat) => a <= b;
    SortSorts(erase, leq);
    var sorted := Sorted(erase);
    DistinctOrder(erase, sorted);
    forall j, k | 0 <= j < k < |sorted| ensures sorted[j] < sorted[k] {
      assert leq(sorted[j], sorted[k]);
    }
  }

  method EraseAll(attrs: seq<Attribute>, erase: seq<nat>) returns (left: seq<Attribute>)
    requires forall i :: i in erase ==> i < |attrs|
    requires forall j, k :: 0 <= j < k < |erase| ==> erase[j] != erase[k]
    ensures left == Kept(attrs, erase, 0, |attrs|)
  {
    hide Sorted, Kept, Increasing;
    SortIncreases(erase);
    var sorted := Sorted(erase);
    left := attrs;
    var j := |sorted|;
    ghost var bound := |attrs|;
    KeptAll(attrs, erase, bound, bound);
    while j > 0
      invariant 0 <= j <= |sorted| && bound <= |attrs| && bound == (if j < |sorted| then sorted[j] else |attrs|)
      invariant left == attrs[..bound] + Kept(attrs, erase, bound, |attrs|)
    {
      j := j - 1;
      var e := sorted[j];
      assert e in sorted;
      Between(sorted, j);
      KeptStep(attrs, erase, e, bound);
      EraseOne(attrs, Kept(attrs, erase, bound, |attrs|), e, bound);
      left := left[..e] + left[e + 1..];
      bound := e;
    }
    Before(sorted);
    KeptAll(attrs, erase, 0, bound);
    KeptSplit(attrs, erase, 0, bound, |attrs|);
  }

  lemma Between(sorted: seq<nat>, j: nat)
    requires Increasing(sorted) && j < |sorted|
    ensures forall i :: sorted[j] < i && (j + 1 < |sorted| ==> i < sorted[j + 1]) ==> i !in sorted
    ensures j + 1 < |sorted| ==> sorted[j] < sorted[j + 1]
  {
  }

  lemma Before(sorted: seq<nat>)
    requires Increasing(sorted)
    ensures forall i :: (|sorted| > 0 ==> i < sorted[0]) ==> i !in sorted
  {
  }

  lemma {:induction false} KeptIsMerged(attrs: seq<Attribute>, now: seq<Attribute>, erase: seq<nat>, n: nat)
    requires Underway(attrs, now, erase, {}) && n <= |attrs|
    ensures Kept(now, erase, 0, n) == Merged(attrs, n)
  {
    hide Fate;
    if n > 0 {
      KeptIsMerged(attrs, now, erase, n - 1);
      assert now[n - 1] == Currently(attrs, {}, n - 1);
      assert n - 1 in erase <==> Gone(attrs, {}, n - 1);
    }
  }

  // With fewer than two instances nothing merges.
  lemma {:induction false} FewUnmerged(attrs: seq<Attribute>, n: nat)
    requires n <= |attrs| && NonResidents(attrs, |attrs|) < 2
    ensures Merged(attrs, n) == attrs[..n]
  {
    hide Fate, NonResidents;
    if n > 0 {
      FewUnmerged(attrs, n - 1);
      FewStay(attrs, n - 1);
      assert attrs[..n] == attrs[..n - 1] + [attrs[n - 1]];
    }
  }

  lemma FewStay(attrs: seq<Attribute>, i: nat)
    requires i < |attrs| && NonResidents(attrs, |attrs|) < 2
    ensures Fate(attrs, i) == Some(attrs[i])
  {
    hide Merges, NonResidents, Group;
    if attrs[i].NonResident? {
      GroupSize(attrs, attrs[i].name, |attrs|);
      SmallStays(attrs, Group(attrs, attrs[i].name, |attrs|));
    }
  }

  lemma SmallStays(attrs: seq<Attribute>, group: seq<nat>)
    requires Instances(attrs, group) && |group| < 2
    ensures !Merges(attrs, group)
  {
  }

  // The attributes of one type, merged.
  method MergeType(attrs: seq<Attribute>) returns (merged: seq<Attribute>)
    ensures merged == Merged(attrs, |attrs|)
  {
    hide Underway, Merged;
    var count: nat := 0;
    for i := 0 to |attrs|
      invariant count == NonResidents(attrs, i)
    {
      if attrs[i].NonResident? { count := count + 1; }
    }
    if count < 2 {
      FewUnmerged(attrs, |attrs|);
      assert attrs[..|attrs|] == attrs;
      return attrs;
    }
    var now, erase := MergeNames(attrs);
    UnderwaySays(attrs, now, erase);
    merged := EraseAll(now, erase);
    KeptIsMerged(attrs, now, erase, |attrs|);
  }

  lemma UnderwaySays(attrs: seq<Attribute>, now: seq<Attribute>, erase: seq<nat>)
    requires Underway(attrs, now, erase, {})
    ensures |now| == |attrs| && forall i :: i in erase ==> i < |now|
    ensures forall j, k :: 0 <= j < k < |erase| ==> erase[j] != erase[k]
  {
  }

  // The attribute lists of a file record, one for each type.
  class FileAttributes {
    var attrList: seq<seq<Attribute>>

    constructor (lists: seq<seq<Attribute>>)
      ensures attrList == lists
    {
      attrList := lists;
    }

    method MergeAttributeContinuations()
      modifies this
      ensures |attrList| == |old(attrList)|
      ensures forall t :: 0 <= t < |attrList| ==> attrList[t] == Merged(old(attrList)[t], |old(attrList)[t]|)
    {
      var t: nat := 0;
      while t < |attrList|
        invariant t <= |attrList| == |old(attrList)|
        invariant forall u :: 0 <= u < t ==> attrList[u] == Merged(old(attrList)[u], |old(attrList)[u]|)
        invariant forall u :: t <= u < |attrList| ==> attrList[u] == old(attrList)[u]
      {
        var merged := MergeType(attrList[t]);
        attrList := attrList[t := merged];
        t := t + 1;
      }
    }
  }

  // -------------------------------------------------------------------------
  // What merging promises
  // -------------------------------------------------------------------------

  // One attribute of a chain is left: the first in VCN order.
  lemma OneIsLeft(attrs: seq<Attribute>, name: string, i: nat)
    requires i < |attrs| && Named(attrs[i], name) && Merges(attrs, Group(attrs, name, |attrs|))
    ensures Fate(attrs, i).Some? <==> i == Ordering(attrs, Group(attrs, name, |attrs|))[0]
    ensures Fate(attrs, i).Some? ==> Fate(attrs, i).value == Keeper(attrs, Group(attrs, name, |attrs|))
  {
    hide Group, Ordering, Keeper, Merges;
    FateInGroup(attrs, name, i);
  }

  // It places every VCN of the chain as the instance that owned it did.
  lemma KeeperPlaces(attrs: seq<Attribute>, name: string, i: nat, vcn: nat)
    requires StreamRight(attrs, name) && Merges(attrs, Group(attrs, name, |attrs|))
    requires i < |attrs| && Named(attrs[i], name) && Owns(attrs[i], vcn)
    ensures var keeper := Keeper(attrs, Group(attrs, name, |attrs|)); keeper.NonResident? && vcn < keeper.list.clusters && MappingRight(keeper.list) && PlaceOf(keeper.list.runs, vcn) == PlaceOf(attrs[i].list.runs, vcn - attrs[i].startVcn)
  {
    hide Group, Ordering, Chain, PlaceOf, MappingRight, Contiguous;
    var group := Group(attrs, name, |attrs|);
    var order := Ordering(attrs, group);
    OrderOfGroup(attrs, name);
    assert i in order;
    var k :| 0 <= k < |order| && order[k] == i;
    var parts := PartsOf(attrs, order);
    forall l | 0 <= l < |order| ensures Named(attrs[order[l]], name) {
      assert order[l] in order;
    }
    ChainPlaces(parts, |parts|, k, vcn);
    ChainRight(parts, |parts|);
  }

  // The instances of the stream are right.
  ghost predicate StreamRight(attrs: seq<Attribute>, name: string) {
    forall i :: 0 <= i < |attrs| && Named(attrs[i], name) ==> InstanceRight(attrs[i])
  }

  // Their headers are 64-bit ones, whose clusters they count.
  predicate StreamCounted(attrs: seq<Attribute>, name: string) {
    forall i :: 0 <= i < |attrs| && Named(attrs[i], name) ==> attrs[i].startVcn <= U64_MAX && attrs[i].lastVcn <= U64_MAX && attrs[i].list.clusters == SpannedClusters(attrs[i])
  }

  // And each VCN it covers was owned by an instance, whatever the headers.
  lemma KeeperOwned(attrs: seq<Attribute>, name: string, vcn: nat) returns (i: nat)
    requires StreamCounted(attrs, name) && Merges(attrs, Group(attrs, name, |attrs|))
    requires vcn < Keeper(attrs, Group(attrs, name, |attrs|)).list.clusters
    ensures i < |attrs| && Named(attrs[i], name) && Owns(attrs[i], vcn)
  {
    hide Group, Ordering, Chain, MappingRight, Contiguous, SpannedClusters, Successor, Owns;
    var order := Ordering(attrs, Group(attrs, name, |attrs|));
    OrderOfGroup(attrs, name);
    var parts := PartsOf(attrs, order);
    forall k | 0 <= k < |order| ensures Named(attrs[order[k]], name) {
      assert order[k] in order;
    }
    ChainClusters(parts, |parts|);
    var k := ChainOwner(parts, |parts|, vcn);
    i := order[k];
    assert i in order;
  }
}
