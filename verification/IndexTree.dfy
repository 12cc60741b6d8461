// The B+ tree of a directory as values: its entries in index order, and the walk
// that visits every block once, whatever the blocks point to.
module IndexTree {
  import opened Prelude

  // How deep the walks go below the root.
  const MAX_DEPTH: nat := 64

  // An entry of a node: its name, if it has one, the record it names, whether
  // that record says to hide it, and the block below it.
  datatype Entry = Entry(name: Option<string>, reference: nat, hidden: bool, sub: Option<nat>)

  // The index blocks that parse, by VCN.
  type Blocks = map<nat, seq<Entry>>

  // -------------------------------------------------------------------------
  // Index order
  // -------------------------------------------------------------------------

  // The named entries below and in a node, in index order.
  ghost function InOrder(b: Blocks, entries: seq<Entry>, depth: nat): seq<Entry>
    decreases Max(0, MAX_DEPTH - depth), |entries|, 1
  {
    if entries == [] then []
    else InOrder(b, entries[..|entries| - 1], depth) + EntryInOrder(b, entries[|entries| - 1], depth)
  }

  // The entries below one entry, then itself.
  ghost function EntryInOrder(b: Blocks, e: Entry, depth: nat): seq<Entry>
    decreases Max(0, MAX_DEPTH - depth), 0, 1
  {
    Below(b, e, depth) + if e.name.Some? then [e] else []
  }

  ghost function Below(b: Blocks, e: Entry, depth: nat): seq<Entry>
    decreases Max(0, MAX_DEPTH - depth), 0, 0
  {
    if e.sub.None? || depth >= MAX_DEPTH || e.sub.value !in b then [] else InOrder(b, b[e.sub.value], depth + 1)
  }

  // The blocks below a node.
  ghost function VcnsIn(b: Blocks, entries: seq<Entry>, depth: nat): seq<nat>
    decreases Max(0, MAX_DEPTH - depth), |entries|, 1
  {
    if entries == [] then []
    else VcnsIn(b, entries[..|entries| - 1], depth) + VcnsBelow(b, entries[|entries| - 1], depth)
  }

  ghost function VcnsBelow(b: Blocks, e: Entry, depth: nat): seq<nat>
    decreases Max(0, MAX_DEPTH - depth), 0, 0
  {
    if e.sub.None? then []
    else [e.sub.value] + if depth >= MAX_DEPTH || e.sub.value !in b then [] else VcnsIn(b, b[e.sub.value], depth + 1)
  }

  // Every block below a node parses, above the depth limit, and only the last
  // entry of a node may have no name.
  ghost predicate WellFormed(b: Blocks, entries: seq<Entry>, depth: nat)
    decreases Max(0, MAX_DEPTH - depth), |entries|, 1
  {
    entries == [] || (
      var front := entries[..|entries| - 1];
      WellFormed(b, front, depth) && AllNamed(front) && BelowFormed(b, entries[|entries| - 1], depth))
  }

  ghost predicate BelowFormed(b: Blocks, e: Entry, depth: nat)
    decreases Max(0, MAX_DEPTH - depth), 0, 0
  {
    e.sub.Some? ==> depth < MAX_DEPTH && e.sub.value in b && WellFormed(b, b[e.sub.value], depth + 1)
  }

  predicate AllNamed(entries: seq<Entry>) {
    forall i :: 0 <= i < |entries| ==> entries[i].name.Some?
  }

  ghost predicate Distinct(vcns: seq<nat>) {
    forall i, j :: 0 <= i < j < |vcns| ==> vcns[i] != vcns[j]
  }

  ghost predicate Unmet(vcns: seq<nat>, visited: set<nat>) {
    forall i :: 0 <= i < |vcns| ==> vcns[i] !in visited
  }

  // A node cut in two.
  lemma {:induction false} InOrderSplit(b: Blocks, entries: seq<Entry>, i: nat, depth: nat)
    requires i <= |entries|
    ensures InOrder(b, entries, depth) == InOrder(b, entries[..i], depth) + InOrder(b, entries[i..], depth)
    decreases |entries| - i
  {
    hide EntryInOrder;
    if i == |entries| {
      assert entries[..i] == entries && entries[i..] == [];
    } else {
      var n := |entries| - 1;
      var front, tail := entries[..n], entries[i..];
      InOrderSplit(b, front, i, depth);
      assert front[..i] == entries[..i] && tail[..|tail| - 1] == front[i..] && tail[|tail| - 1] == entries[n];
      AssociateEntries(InOrder(b, front[..i], depth), InOrder(b, front[i..], depth), EntryInOrder(b, entries[n], depth));
    }
  }

  lemma {:induction false} VcnsSplit(b: Blocks, entries: seq<Entry>, i: nat, depth: nat)
    requires i <= |entries|
    ensures VcnsIn(b, entries, depth) == VcnsIn(b, entries[..i], depth) + VcnsIn(b, entries[i..], depth)
    decreases |entries| - i
  {
    hide VcnsBelow;
    if i == |entries| {
      assert entries[..i] == entries && entries[i..] == [];
    } else {
      var n := |entries| - 1;
      var front, tail := entries[..n], entries[i..];
      VcnsSplit(b, front, i, depth);
      assert front[..i] == entries[..i] && tail[..|tail| - 1] == front[i..] && tail[|tail| - 1] == entries[n];
      AssociateVcns(VcnsIn(b, front[..i], depth), VcnsIn(b, front[i..], depth), VcnsBelow(b, entries[n], depth));
    }
  }

  lemma AssociateEntries(a: seq<Entry>, b: seq<Entry>, c: seq<Entry>)
    ensures a + b + c == a + (b + c) && a + [] == a
  {
  }

  lemma AssociateVcns(a: seq<nat>, b: seq<nat>, c: seq<nat>)
    ensures a + b + c == a + (b + c)
  {
  }

  lemma {:induction false} WellFormedAt(b: Blocks, entries: seq<Entry>, i: nat, depth: nat)
    requires WellFormed(b, entries, depth) && i < |entries|
    ensures WellFormed(b, entries[..i], depth) && BelowFormed(b, entries[i], depth)
    ensures i < |entries| - 1 ==> entries[i].name.Some?
    decreases |entries|
  {
    var n := |entries| - 1;
    if i < n {
      WellFormedAt(b, entries[..n], i, depth);
      assert entries[..n][..i] == entries[..i] && entries[..n][i].name.Some?;
    }
  }

  lemma NextInOrder(b: Blocks, entries: seq<Entry>, i: nat, depth: nat)
    requires i < |entries|
    ensures InOrder(b, entries[..i + 1], depth) == InOrder(b, entries[..i], depth) + EntryInOrder(b, entries[i], depth)
    ensures VcnsIn(b, entries[..i + 1], depth) == VcnsIn(b, entries[..i], depth) + VcnsBelow(b, entries[i], depth)
  {
    assert entries[..i + 1][..i] == entries[..i];
  }

  // -------------------------------------------------------------------------
  // The walk
  // -------------------------------------------------------------------------

  // What a walk met: the named entries in the order they are delivered, the
  // nodes in the order they are met, and the blocks it tried to parse.
  datatype Walked = Walked(delivered: seq<Entry>, nodes: seq<seq<Entry>>, parsed: seq<nat>, visited: set<nat>)

  // The walk of the entries of a node.
  function WalkEntries(b: Blocks, entries: seq<Entry>, depth: nat, w: Walked): Walked
    decreases Max(0, MAX_DEPTH - depth), |entries|, 1
  {
    if entries == [] then w
    else
      var e := entries[|entries| - 1];
      var below := WalkBelow(b, e, depth, WalkEntries(b, entries[..|entries| - 1], depth, w));
      if e.name.Some? then below.(delivered := below.delivered + [e]) else below
  }

  // The walk below one entry.
  function WalkBelow(b: Blocks, e: Entry, depth: nat, w: Walked): Walked
    decreases Max(0, MAX_DEPTH - depth), 0, 1
  {
    if e.sub.Some? then WalkBlock(b, e.sub.value, depth, w) else w
  }

  // The walk of a block: not below the limit, and not a second time.
  function WalkBlock(b: Blocks, vcn: nat, depth: nat, w: Walked): Walked
    decreases Max(0, MAX_DEPTH - depth), 0, 0
  {
    if depth >= MAX_DEPTH || vcn in w.visited then w
    else
      var met := w.(visited := w.visited + {vcn}, parsed := w.parsed + [vcn]);
      if vcn !in b then met else WalkEntries(b, b[vcn], depth + 1, met.(nodes := met.nodes + [b[vcn]]))
  }

  // The blocks tried are the ones visited since start, each once.
  ghost predicate Once(parsed: seq<nat>, visited: set<nat>, start: set<nat>) {
    && Distinct(parsed)
    && (forall v :: v in visited <==> v in start || v in parsed)
    && (forall i :: 0 <= i < |parsed| ==> parsed[i] !in start)
  }

  // On any graph of blocks, the walk ends, and tries each block at most once.
  lemma {:induction false} WalkOnce(b: Blocks, entries: seq<Entry>, depth: nat, w: Walked, start: set<nat>)
    requires Once(w.parsed, w.visited, start)
    ensures var r := WalkEntries(b, entries, depth, w); Once(r.parsed, r.visited, start)
    ensures w.visited <= WalkEntries(b, entries, depth, w).visited
    decreases Max(0, MAX_DEPTH - depth), |entries|, 1
  {
    if entries != [] {
      WalkOnce(b, entries[..|entries| - 1], depth, w, start);
      var front := WalkEntries(b, entries[..|entries| - 1], depth, w);
      if entries[|entries| - 1].sub.Some? {
        BlockOnce(b, entries[|entries| - 1].sub.value, depth, front, start);
      }
    }
  }

  lemma {:induction false} BlockOnce(b: Blocks, vcn: nat, depth: nat, w: Walked, start: set<nat>)
    requires Once(w.parsed, w.visited, start)
    ensures var r := WalkBlock(b, vcn, depth, w); Once(r.parsed, r.visited, start)
    ensures w.visited <= WalkBlock(b, vcn, depth, w).visited
    decreases Max(0, MAX_DEPTH - depth), 0, 0
  {
    if depth < MAX_DEPTH && vcn !in w.visited {
      var met := w.(visited := w.visited + {vcn}, parsed := w.parsed + [vcn]);
      assert Once(met.parsed, met.visited, start);
      if vcn in b {
        WalkOnce(b, b[vcn], depth + 1, met.(nodes := met.nodes + [b[vcn]]), start);
      }
    }
  }

  // The blocks of a list were visited, and no other.
  ghost predicate Visits(before: set<nat>, after: set<nat>, vcns: seq<nat>) {
    forall v :: v in after <==> v in before || v in vcns
  }

  lemma DistinctParts(a: seq<nat>, c: seq<nat>, visited: set<nat>)
    requires Distinct(a + c) && Unmet(a + c, visited)
    ensures Distinct(a) && Distinct(c) && Unmet(a, visited)
    ensures forall after :: Visits(visited, after, a) ==> Unmet(c, after)
  {
    var all := a + c;
    assert forall i :: 0 <= i < |a| ==> all[i] == a[i];
    assert forall i :: 0 <= i < |c| ==> all[|a| + i] == c[i];
    forall after | Visits(visited, after, a) ensures Unmet(c, after) {
      forall i | 0 <= i < |c| ensures c[i] !in after {
        assert all[|a| + i] == c[i];
      }
    }
  }

  lemma VisitsBoth(v0: set<nat>, v1: set<nat>, v2: set<nat>, a: seq<nat>, c: seq<nat>)
    requires Visits(v0, v1, a) && Visits(v1, v2, c)
    ensures Visits(v0, v2, a + c)
  {
  }

  // On a tree, the walk delivers the entries in index order, and visits every
  // block of it.
  lemma {:induction false} WalkInOrder(b: Blocks, entries: seq<Entry>, depth: nat, w: Walked)
    requires WellFormed(b, entries, depth) && Distinct(VcnsIn(b, entries, depth)) && Unmet(VcnsIn(b, entries, depth), w.visited)
    ensures WalkEntries(b, entries, depth, w).delivered == w.delivered + InOrder(b, entries, depth)
    ensures Visits(w.visited, WalkEntries(b, entries, depth, w).visited, VcnsIn(b, entries, depth))
    decreases Max(0, MAX_DEPTH - depth), |entries|, 1
  {
    hide Distinct;
    hide Unmet;
    if entries == [] {
      AssociateEntries(w.delivered, [], []);
    } else {
      var front, e := entries[..|entries| - 1], entries[|entries| - 1];
      DistinctParts(VcnsIn(b, front, depth), VcnsBelow(b, e, depth), w.visited);
      WalkInOrder(b, front, depth, w);
      var met := WalkEntries(b, front, depth, w);
      BelowInOrder(b, e, depth, met);
      var low := WalkBelow(b, e, depth, met);
      VisitsBoth(w.visited, met.visited, low.visited, VcnsIn(b, front, depth), VcnsBelow(b, e, depth));
      hide Visits;
      hide WalkBelow;
      hide Below;
      hide VcnsBelow;
      var name := if e.name.Some? then [e] else [];
      AssociateEntries(w.delivered, InOrder(b, front, depth), Below(b, e, depth));
      AssociateEntries(w.delivered + InOrder(b, front, depth), Below(b, e, depth), name);
      AssociateEntries(w.delivered, InOrder(b, front, depth), EntryInOrder(b, e, depth));
    }
  }

  lemma {:induction false} BelowInOrder(b: Blocks, e: Entry, depth: nat, w: Walked)
    requires BelowFormed(b, e, depth) && Distinct(VcnsBelow(b, e, depth)) && Unmet(VcnsBelow(b, e, depth), w.visited)
    ensures WalkBelow(b, e, depth, w).delivered == w.delivered + Below(b, e, depth)
    ensures Visits(w.visited, WalkBelow(b, e, depth, w).visited, VcnsBelow(b, e, depth))
    decreases Max(0, MAX_DEPTH - depth), 0, 1
  {
    hide Distinct;
    if e.sub.Some? {
      var vcn := e.sub.value;
      var under := VcnsIn(b, b[vcn], depth + 1);
      hide VcnsIn;
      hide InOrder;
      assert VcnsBelow(b, e, depth) == [vcn] + under;
      DistinctParts([vcn], under, w.visited);
      var met := w.(visited := w.visited + {vcn}, parsed := w.parsed + [vcn], nodes := w.nodes + [b[vcn]]);
      assert Visits(w.visited, met.visited, [vcn]);
      assert [vcn][0] == vcn;
      WalkInOrder(b, b[vcn], depth + 1, met);
      VisitsBoth(w.visited, met.visited, WalkEntries(b, b[vcn], depth + 1, met).visited, [vcn], under);
      assert vcn !in w.visited;
      hide WalkEntries;
    } else {
      AssociateEntries(w.delivered, [], []);
    }
  }

  // -------------------------------------------------------------------------
  // The groups of records that the walk probes
  // -------------------------------------------------------------------------

  // The records that the entries of a node name.
  function NamedRecords(entries: seq<Entry>): seq<nat> {
    if entries == [] then []
    else
      var e := entries[|entries| - 1];
      NamedRecords(entries[..|entries| - 1]) + if e.name.Some? then [e.reference] else []
  }

  // Every entry with a name gives its record, and no other does, in order.
  lemma {:induction false} NamedRecordsOf(a: seq<Entry>, c: seq<Entry>, e: Entry)
    ensures NamedRecords(a + c) == NamedRecords(a) + NamedRecords(c)
    ensures NamedRecords([e]) == if e.name.Some? then [e.reference] else []
  {
    assert [e][..0] == [];
    if c == [] {
      assert a + c == a;
    } else {
      NamedRecordsOf(a, c[..|c| - 1], e);
      assert (a + c)[..|a + c| - 1] == a + c[..|c| - 1];
    }
  }

  // The groups of a list of nodes, those that name a record.
  function Groups(nodes: seq<seq<Entry>>): seq<seq<nat>> {
    if nodes == [] then []
    else
      var records := NamedRecords(nodes[|nodes| - 1]);
      Groups(nodes[..|nodes| - 1]) + if records != [] then [records] else []
  }

  // What was collected, ahead of the walk: groups, a node before its children.
  datatype Collected = Collected(groups: seq<seq<nat>>, visited: set<nat>)

  function CollectEntries(b: Blocks, entries: seq<Entry>, depth: nat, c: Collected): Collected
    decreases Max(0, MAX_DEPTH - depth), |entries|, 1
  {
    if entries == [] then c
    else
      var e := entries[|entries| - 1];
      var front := CollectEntries(b, entries[..|entries| - 1], depth, c);
      if e.sub.Some? then CollectBlock(b, e.sub.value, depth, front) else front
  }

  function CollectBlock(b: Blocks, vcn: nat, depth: nat, c: Collected): Collected
    decreases Max(0, MAX_DEPTH - depth), 0, 0
  {
    if depth >= MAX_DEPTH || vcn in c.visited then c
    else
      var met := c.(visited := c.visited + {vcn});
      if vcn !in b then met
      else
        var records := NamedRecords(b[vcn]);
        CollectEntries(b, b[vcn], depth + 1, if records != [] then met.(groups := met.groups + [records]) else met)
  }

  // On any graph whose blocks are all held, the groups collected are those the
  // walk then probes, in the same order.
  lemma {:induction false} CollectsWhatIsProbed(b: Blocks, entries: seq<Entry>, depth: nat, w: Walked, c: Collected)
    requires c.visited == w.visited && c.groups == Groups(w.nodes)
    ensures var r, d := WalkEntries(b, entries, depth, w), CollectEntries(b, entries, depth, c);
      d.visited == r.visited && d.groups == Groups(r.nodes)
    decreases Max(0, MAX_DEPTH - depth), |entries|, 1
  {
    if entries != [] {
      var front, e := entries[..|entries| - 1], entries[|entries| - 1];
      CollectsWhatIsProbed(b, front, depth, w, c);
      if e.sub.Some? {
        BlockCollects(b, e.sub.value, depth, WalkEntries(b, front, depth, w), CollectEntries(b, front, depth, c));
      }
    }
  }

  lemma {:induction false} BlockCollects(b: Blocks, vcn: nat, depth: nat, w: Walked, c: Collected)
    requires c.visited == w.visited && c.groups == Groups(w.nodes)
    ensures var r, d := WalkBlock(b, vcn, depth, w), CollectBlock(b, vcn, depth, c);
      d.visited == r.visited && d.groups == Groups(r.nodes)
    decreases Max(0, MAX_DEPTH - depth), 0, 0
  {
    if depth < MAX_DEPTH && vcn !in w.visited && vcn in b {
      var met := w.(visited := w.visited + {vcn}, parsed := w.parsed + [vcn], nodes := w.nodes + [b[vcn]]);
      assert met.nodes[..|w.nodes|] == w.nodes;
      var records := NamedRecords(b[vcn]);
      var had := c.(visited := c.visited + {vcn}, groups := if records != [] then c.groups + [records] else c.groups);
      CollectsWhatIsProbed(b, b[vcn], depth + 1, met, had);
    }
  }
}
