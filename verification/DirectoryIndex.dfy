// The lookup of a name in a directory's B+ tree, and the walk over its entries,
// each visiting an index block once at most, whatever the blocks point to.
module DirectoryIndex {
  import opened Prelude
  import opened IndexTree

  // Blocks the recovery scan visits, at most.
  const MAX_ORPHAN_SCAN_BLOCKS: nat := 65536

  // How the volume collates two names: negative, zero or positive.
  type Compare = (string, string) -> int

  // The collation is a total order of keys; names that differ by case only may be
  // equal keys.
  ghost predicate Collates(cmp: Compare) {
    && (forall a, b :: cmp(a, b) < 0 <==> cmp(b, a) > 0)
    && (forall a, b, c :: cmp(a, b) <= 0 && cmp(b, c) <= 0 ==> cmp(a, c) <= 0)
  }

  // An entry whose key is the name's.
  predicate Equal(cmp: Compare, name: string, e: Entry) {
    e.name.Some? && cmp(name, e.name.value) == 0
  }

  // An entry that may stand for the name: an equal one that is not hidden.
  predicate Stands(cmp: Compare, name: string, e: Entry) {
    Equal(cmp, name, e) && !e.hidden
  }

  // The entry of the name itself.
  predicate Exact(cmp: Compare, name: string, e: Entry) {
    Stands(cmp, name, e) && e.name.value == name
  }

  ghost predicate NoExact(cmp: Compare, name: string, list: seq<Entry>) {
    forall i :: 0 <= i < |list| ==> !Exact(cmp, name, list[i])
  }

  ghost predicate NoEqual(cmp: Compare, name: string, list: seq<Entry>) {
    forall i :: 0 <= i < |list| ==> !Equal(cmp, name, list[i])
  }

  // The first entry of a list that may stand for the name.
  ghost function FirstStanding(cmp: Compare, name: string, list: seq<Entry>): Option<Entry> {
    if list == [] then None
    else
      var before := FirstStanding(cmp, name, list[..|list| - 1]);
      if before.Some? then before
      else if Stands(cmp, name, list[|list| - 1]) then Some(list[|list| - 1])
      else None
  }

  lemma {:induction false} FirstOfBoth(cmp: Compare, name: string, a: seq<Entry>, c: seq<Entry>)
    ensures var first := FirstStanding(cmp, name, a);
      FirstStanding(cmp, name, a + c) == if first.Some? then first else FirstStanding(cmp, name, c)
  {
    if c == [] {
      assert a + c == a;
    } else {
      FirstOfBoth(cmp, name, a, c[..|c| - 1]);
      assert (a + c)[..|a + c| - 1] == a + c[..|c| - 1];
    }
  }

  lemma {:induction false} FirstStands(cmp: Compare, name: string, list: seq<Entry>)
    ensures var first := FirstStanding(cmp, name, list);
      && (first.Some? ==> first.value in list && Stands(cmp, name, first.value))
      && (first.None? ==> forall i :: 0 <= i < |list| ==> !Stands(cmp, name, list[i]))
  {
    if list != [] {
      FirstStands(cmp, name, list[..|list| - 1]);
    }
  }

  // What a search over a list of entries in index order gives: an entry of the
  // name itself if there is one, and otherwise the first that may stand for it,
  // kept unless an earlier list had one.
  ghost predicate Found(cmp: Compare, name: string, list: seq<Entry>, r: Option<Entry>, before: Option<Entry>, after: Option<Entry>) {
    if r.Some? then r.value in list && Exact(cmp, name, r.value)
    else
      && NoExact(cmp, name, list)
      && after == if before.Some? then before else FirstStanding(cmp, name, list)
  }

  lemma FoundNext(cmp: Compare, name: string, a: seq<Entry>, c: seq<Entry>, r: Option<Entry>,
                  f0: Option<Entry>, f1: Option<Entry>, f2: Option<Entry>)
    requires Found(cmp, name, a, None, f0, f1) && Found(cmp, name, c, r, f1, f2)
    ensures Found(cmp, name, a + c, r, f0, f2)
  {
    FirstOfBoth(cmp, name, a, c);
    hide FirstStanding;
    hide Exact;
  }

  // Where no entry is equal, nothing is found and nothing is kept.
  lemma FoundNothing(cmp: Compare, name: string, list: seq<Entry>, f: Option<Entry>)
    requires NoEqual(cmp, name, list)
    ensures Found(cmp, name, list, None, f, f)
  {
    FirstStands(cmp, name, list);
    hide FirstStanding;
  }

  lemma FoundMore(cmp: Compare, name: string, a: seq<Entry>, c: seq<Entry>, r: Option<Entry>, f0: Option<Entry>, f1: Option<Entry>)
    requires Found(cmp, name, a, r, f0, f1) && NoEqual(cmp, name, c)
    ensures Found(cmp, name, a + c, r, f0, f1)
  {
    FoundNothing(cmp, name, c, f1);
    if r.None? { FoundNext(cmp, name, a, c, None, f0, f1, f1); }
    hide FirstStanding;
  }

  // -------------------------------------------------------------------------
  // Sorted entries
  // -------------------------------------------------------------------------

  function NameOf(e: Entry): string {
    if e.name.Some? then e.name.value else ""
  }

  ghost predicate SortedNames(cmp: Compare, list: seq<Entry>) {
    forall i, j :: 0 <= i < j < |list| ==> cmp(NameOf(list[i]), NameOf(list[j])) <= 0
  }

  lemma SortedPart(cmp: Compare, a: seq<Entry>, c: seq<Entry>, d: seq<Entry>)
    requires SortedNames(cmp, a + c + d)
    ensures SortedNames(cmp, c)
    ensures forall i, j :: 0 <= i < |c| && 0 <= j < |d| ==> cmp(NameOf(c[i]), NameOf(d[j])) <= 0
  {
    var all := a + c + d;
    assert forall i :: 0 <= i < |c| ==> all[|a| + i] == c[i];
    assert forall j :: 0 <= j < |d| ==> all[|a| + |c| + j] == d[j];
  }

  // Before an entry that the name sorts after, nothing is equal to it.
  lemma BelowSmaller(cmp: Compare, name: string, list: seq<Entry>, e: Entry)
    requires Collates(cmp) && e.name.Some? && cmp(name, e.name.value) > 0
    requires SortedNames(cmp, list + [e])
    ensures NoEqual(cmp, name, list + [e])
  {
    var all := list + [e];
    assert all[|list|] == e;
    forall i | 0 <= i < |all| ensures !Equal(cmp, name, all[i]) {
      assert i < |list| ==> cmp(NameOf(all[i]), NameOf(all[|list|])) <= 0;
    }
  }

  // From an entry that the name sorts before, nothing is equal to it.
  lemma AboveGreater(cmp: Compare, name: string, e: Entry, list: seq<Entry>)
    requires Collates(cmp) && e.name.Some? && cmp(name, e.name.value) < 0
    requires SortedNames(cmp, [e] + list)
    ensures NoEqual(cmp, name, [e] + list)
  {
    var all := [e] + list;
    assert all[0] == e;
    forall i | 0 <= i < |all| ensures !Equal(cmp, name, all[i]) {
      assert i > 0 ==> cmp(NameOf(all[0]), NameOf(all[i])) <= 0;
      assert cmp(NameOf(e), name) > 0 && (cmp(NameOf(all[i]), name) < 0 <==> cmp(name, NameOf(all[i])) > 0);
    }
  }

  // -------------------------------------------------------------------------
  // Trees that may be searched
  // -------------------------------------------------------------------------

  // The node is the top of a sorted tree, none of whose blocks was visited.
  ghost predicate Fit(b: Blocks, cmp: Compare, entries: seq<Entry>, depth: nat, visited: set<nat>) {
    && WellFormed(b, entries, depth)
    && Distinct(VcnsIn(b, entries, depth)) && Unmet(VcnsIn(b, entries, depth), visited)
    && SortedNames(cmp, InOrder(b, entries, depth))
  }

  ghost predicate EntryFit(b: Blocks, cmp: Compare, e: Entry, depth: nat, visited: set<nat>) {
    && BelowFormed(b, e, depth)
    && Distinct(VcnsBelow(b, e, depth)) && Unmet(VcnsBelow(b, e, depth), visited)
    && SortedNames(cmp, EntryInOrder(b, e, depth))
  }

  // Nothing was visited but blocks of the list.
  ghost predicate VisitedAmong(before: set<nat>, after: set<nat>, vcns: seq<nat>) {
    before <= after && forall v :: v in after ==> v in before || v in vcns
  }

  lemma AmongBoth(v0: set<nat>, v1: set<nat>, v2: set<nat>, a: seq<nat>, c: seq<nat>)
    requires VisitedAmong(v0, v1, a) && VisitedAmong(v1, v2, c)
    ensures VisitedAmong(v0, v2, a + c)
  {
  }

  lemma AmongMore(v0: set<nat>, v1: set<nat>, a: seq<nat>, c: seq<nat>)
    requires VisitedAmong(v0, v1, a)
    ensures VisitedAmong(v0, v1, a + c)
  {
  }

  // The entry at i of a node that may be searched, after the ones before it were.
  lemma FitAt(b: Blocks, cmp: Compare, entries: seq<Entry>, i: nat, depth: nat, v0: set<nat>, v1: set<nat>)
    requires Fit(b, cmp, entries, depth, v0) && i < |entries|
    requires VisitedAmong(v0, v1, VcnsIn(b, entries[..i], depth))
    ensures EntryFit(b, cmp, entries[i], depth, v1)
    ensures i < |entries| - 1 ==> entries[i].name.Some?
    ensures SortedNames(cmp, EntryInOrder(b, entries[i], depth) + InOrder(b, entries[i + 1..], depth))
    ensures InOrder(b, entries, depth)
      == InOrder(b, entries[..i], depth) + EntryInOrder(b, entries[i], depth) + InOrder(b, entries[i + 1..], depth)
  {
    hide WellFormed;
    hide BelowFormed;
    hide InOrder;
    hide EntryInOrder;
    hide VcnsIn;
    hide VcnsBelow;
    WellFormedAt(b, entries, i, depth);
    InOrderSplit(b, entries, i + 1, depth);
    VcnsSplit(b, entries, i + 1, depth);
    NextInOrder(b, entries, i, depth);
    var a, c, d := InOrder(b, entries[..i], depth), EntryInOrder(b, entries[i], depth), InOrder(b, entries[i + 1..], depth);
    SortedPart(cmp, a, c, d);
    SortedTail(cmp, a, c, d);
    UnmetPart(VcnsIn(b, entries[..i], depth), VcnsBelow(b, entries[i], depth), VcnsIn(b, entries[i + 1..], depth), v0, v1);
  }

  lemma SortedTail(cmp: Compare, a: seq<Entry>, c: seq<Entry>, d: seq<Entry>)
    requires SortedNames(cmp, a + c + d)
    ensures SortedNames(cmp, c + d)
  {
    var all, tail := a + c + d, c + d;
    assert forall i :: 0 <= i < |tail| ==> tail[i] == all[|a| + i];
  }

  lemma UnmetPart(a: seq<nat>, c: seq<nat>, d: seq<nat>, v0: set<nat>, v1: set<nat>)
    requires Distinct(a + c + d) && Unmet(a + c + d, v0) && VisitedAmong(v0, v1, a)
    ensures Distinct(c) && Unmet(c, v1)
  {
    var all := a + c + d;
    assert forall i :: 0 <= i < |a| ==> all[i] == a[i];
    assert forall i :: 0 <= i < |c| ==> all[|a| + i] == c[i];
    forall i | 0 <= i < |c| ensures c[i] !in v1 {
      assert all[|a| + i] !in v0;
    }
  }

  // The block below an entry that may be searched.
  lemma FitBelow(b: Blocks, cmp: Compare, e: Entry, depth: nat, visited: set<nat>)
    requires EntryFit(b, cmp, e, depth, visited) && e.sub.Some?
    ensures depth < MAX_DEPTH && e.sub.value in b && e.sub.value !in visited
    ensures Fit(b, cmp, b[e.sub.value], depth + 1, visited + {e.sub.value})
    ensures VcnsBelow(b, e, depth) == [e.sub.value] + VcnsIn(b, b[e.sub.value], depth + 1)
    ensures Below(b, e, depth) == InOrder(b, b[e.sub.value], depth + 1)
  {
    hide InOrder;
    hide VcnsIn;
    hide WellFormed;
    var vcn := e.sub.value;
    var under := VcnsIn(b, b[vcn], depth + 1);
    var all := VcnsBelow(b, e, depth);
    assert all == [vcn] + under;
    assert all[0] == vcn && forall i :: 0 <= i < |under| ==> all[1 + i] == under[i];
    SortedFront(cmp, Below(b, e, depth), if e.name.Some? then [e] else []);
  }

  lemma SortedFront(cmp: Compare, a: seq<Entry>, c: seq<Entry>)
    requires SortedNames(cmp, a + c)
    ensures SortedNames(cmp, a)
  {
    var all := a + c;
    assert forall i :: 0 <= i < |a| ==> all[i] == a[i];
  }

  // -------------------------------------------------------------------------
  // The lookup
  // -------------------------------------------------------------------------

  // One lookup: the name, and what it met.
  class IndexSearch {
    const name: string
    const cmp: Compare
    var visited: set<nat>
    // The blocks it tried to parse, in order.
    ghost var parsed: seq<nat>
    // The first entry met that may stand for the name.
    var fallback: Option<Entry>
    // Whether an entry equal to the name was met, hidden or not.
    var metEqual: bool

    constructor (name: string, cmp: Compare)
      requires Collates(cmp)
      ensures Valid() && this.name == name && this.cmp == cmp
      ensures visited == {} && parsed == [] && fallback == None && !metEqual
    {
      this.name, this.cmp := name, cmp;
      visited, parsed, fallback, metEqual := {}, [], None, false;
    }

    // Each block was tried once at most.
    ghost predicate Valid()
      reads this
    {
      Collates(cmp) && Once(parsed, visited, {}) && (fallback.Some? ==> Stands(cmp, name, fallback.value))
    }

    twostate predicate WentOn()
      reads this
    {
      && Valid() && old(visited) <= visited
      && |old(parsed)| <= |parsed| && parsed[..|old(parsed)|] == old(parsed)
      && (old(fallback).Some? ==> fallback == old(fallback))
    }

    // Marks a block as met, and tells whether it was not yet.
    method Meet(vcn: nat) returns (isNew: bool)
      requires Valid()
      modifies this`visited, this`parsed
      ensures WentOn() && isNew == (vcn !in old(visited))
      ensures visited == old(visited) + {vcn} && parsed == if isNew then old(parsed) + [vcn] else old(parsed)
    {
      isNew := vcn !in visited;
      if isNew {
        visited, parsed := visited + {vcn}, parsed + [vcn];
      }
    }

    method Keep(e: Entry)
      requires Valid() && Stands(cmp, name, e)
      modifies this`fallback
      ensures WentOn() && fallback == if old(fallback).Some? then old(fallback) else Some(e)
    {
      if fallback.None? {
        fallback := Some(e);
      }
    }
  }

  // The root of the index: none, one of another kind of index, or the entries of
  // one that indexes file names.
  datatype Root = NoRoot | OtherKind | FileNames(entries: seq<Entry>)

  class DirectoryIndex {
    const root: Root
    const blocks: Blocks
    const cmp: Compare

    constructor (root: Root, blocks: Blocks, cmp: Compare)
      ensures this.root == root && this.blocks == blocks && this.cmp == cmp
    {
      this.root, this.blocks, this.cmp := root, blocks, cmp;
    }

    // Searches the block below an entry: not past the depth limit, and not a
    // second time.
    method VisitIndexBlock(vcn: nat, search: IndexSearch, depth: nat, ghost e: Entry) returns (r: Option<Entry>)
      requires search.Valid() && search.cmp == cmp && e.sub == Some(vcn)
      modifies search
      ensures search.WentOn() && (r.Some? ==> Exact(cmp, search.name, r.value))
      ensures old(EntryFit(blocks, cmp, e, depth, search.visited)) ==>
        && Found(cmp, search.name, Below(blocks, e, depth), r, old(search.fallback), search.fallback)
        && VisitedAmong(old(search.visited), search.visited, VcnsBelow(blocks, e, depth))
      decreases Max(0, MAX_DEPTH - depth), 0, 0
    {
      hide Found;
      hide EntryFit;
      hide Fit;
      hide Exact;
      hide Stands;
      hide Once;
      hide Collates;
      ghost var fits := EntryFit(blocks, cmp, e, depth, search.visited);
      ghost var v0 := search.visited;
      if fits { FitBelow(blocks, cmp, e, depth, v0); }
      if depth >= MAX_DEPTH {
        return None;
      }
      var isNew := search.Meet(vcn);
      if !isNew {
        return None;
      }
      if vcn !in blocks {
        return None;
      }
      r := SearchIndexEntries(blocks[vcn], search, depth + 1);
      if fits { AmongBelow(v0, search.visited, vcn, VcnsIn(blocks, blocks[vcn], depth + 1)); }
    }

    // An entry of the node that is equal to the name: itself when it is spelled
    // like it, or one found below it. Otherwise it is kept, unless it is hidden.
    method MatchEqualEntry(e: Entry, search: IndexSearch, childDepth: nat) returns (r: Option<Entry>)
      requires search.Valid() && search.cmp == cmp && Equal(cmp, search.name, e)
      modifies search
      ensures search.WentOn() && (r.Some? ==> Exact(cmp, search.name, r.value))
      ensures old(EntryFit(blocks, cmp, e, childDepth, search.visited)) ==>
        && Found(cmp, search.name, EntryInOrder(blocks, e, childDepth), r, old(search.fallback), search.fallback)
        && VisitedAmong(old(search.visited), search.visited, VcnsBelow(blocks, e, childDepth))
      decreases Max(0, MAX_DEPTH - childDepth), 0, 1
    {
      hide EntryFit;
      hide Once;
      hide Collates;
      hide Found;
      search.metEqual := true;
      if !e.hidden && e.name.value == search.name {
        ItselfFound(blocks, cmp, search.name, e, childDepth, search.fallback, VcnsBelow(blocks, e, childDepth), search.visited);
        return Some(e);
      }
      // The entries below this one come first in index order.
      ghost var f0 := search.fallback;
      if e.sub.Some? {
        var twin := VisitIndexBlock(e.sub.value, search, childDepth, e);
        if twin.Some? {
          TwinFound(blocks, cmp, search.name, e, childDepth, twin, f0, search.fallback);
          return twin;
        }
      }
      NotSpelled(blocks, cmp, search.name, e, childDepth, f0, search.fallback, search.visited);
      if !e.hidden {
        search.Keep(e);
      }
      return None;
    }

    // Scans the entries of a node in collation order.
    method SearchIndexEntries(entries: seq<Entry>, search: IndexSearch, childDepth: nat) returns (r: Option<Entry>)
      requires search.Valid() && search.cmp == cmp
      modifies search
      ensures search.WentOn() && (r.Some? ==> Exact(cmp, search.name, r.value))
      ensures old(Fit(blocks, cmp, entries, childDepth, search.visited)) ==>
        && Found(cmp, search.name, InOrder(blocks, entries, childDepth), r, old(search.fallback), search.fallback)
        && VisitedAmong(old(search.visited), search.visited, VcnsIn(blocks, entries, childDepth))
      decreases Max(0, MAX_DEPTH - childDepth), 1, 0
    {
      hide Found;
      hide Fit;
      hide EntryFit;
      hide Once;
      hide Collates;
      hide VisitedAmong;
      hide SortedNames;
      hide Exact;
      hide Stands;
      ghost var v0, f0 := search.visited, search.fallback;
      ghost var fits := Fit(blocks, cmp, entries, childDepth, v0);
      NothingSearched(blocks, cmp, search.name, entries, childDepth, f0, v0);
      for i := 0 to |entries|
        invariant search.WentOn()
        invariant fits ==> SearchedTo(blocks, cmp, search.name, entries, i, childDepth, None, f0, search.fallback, v0, search.visited)
      {
        var e := entries[i];
        ghost var f1, v1 := search.fallback, search.visited;
        if fits { FitAt(blocks, cmp, entries, i, childDepth, v0, v1); }
        if e.name.Some? {
          var comparison := cmp(search.name, e.name.value);
          if comparison == 0 {
            var found := MatchEqualEntry(e, search, childDepth);
            if fits { SearchedMore(blocks, cmp, search.name, entries, i, childDepth, found, f0, f1, search.fallback, v0, v1, search.visited); }
            if found.Some? {
              if fits { SearchEnds(blocks, cmp, search.name, entries, i + 1, childDepth, found, f0, search.fallback, v0, search.visited); }
              return found;
            }
            continue;
          }
          // Just step forward if the name is bigger than the entry.
          if comparison > 0 {
            if fits { SmallerPassed(blocks, cmp, search.name, entries, i, childDepth, f0, f1, v0, v1); }
            continue;
          }
          // The name is smaller than a leaf entry: not found.
          if e.sub.None? {
            if fits { GreaterEnds(blocks, cmp, search.name, entries, i, childDepth, f0, f1, f1, v0, v1, v1); }
            return None;
          }
        }
        if e.sub.None? {
          if fits { EmptyPassed(blocks, cmp, search.name, entries, i, childDepth, f0, f1, v0, v1); }
          continue;
        }
        var found := VisitIndexBlock(e.sub.value, search, childDepth, e);
        if fits {
          BelowSearched(blocks, cmp, search.name, entries, i, childDepth, found, f0, f1, search.fallback, v0, v1, search.visited);
        }
        if found.Some? {
          if fits { SearchEnds(blocks, cmp, search.name, entries, i + 1, childDepth, found, f0, search.fallback, v0, search.visited); }
          return found;
        }
        // Every later entry is greater than this one.
        if search.metEqual {
          if fits { GreaterEnds(blocks, cmp, search.name, entries, i, childDepth, f0, f1, search.fallback, v0, v1, search.visited); }
          return None;
        }
      }
      if fits { SearchEnds(blocks, cmp, search.name, entries, |entries|, childDepth, None, f0, search.fallback, v0, search.visited); }
      return None;
    }

    // The lookup down the tree. parsed are the blocks it tried to parse.
    method FindSubEntryInOrder(name: string) returns (r: Option<Entry>, ghost parsed: seq<nat>)
      requires Collates(cmp)
      // On any graph of blocks: what is found may stand for the name, and no block
      // is parsed twice.
      ensures Distinct(parsed) && (r.Some? ==> Stands(cmp, name, r.value))
      ensures !root.FileNames? ==> r.None?
      // On a sorted tree: the entry of the name itself if there is one, and
      // otherwise the first that may stand for it.
      ensures root.FileNames? && Fit(blocks, cmp, root.entries, 0, {}) ==> Answers(cmp, name, InOrder(blocks, root.entries, 0), r)
    {
      if !root.FileNames? {
        return None, [];
      }
      var search := new IndexSearch(name, cmp);
      var exact := SearchIndexEntries(root.entries, search, 0);
      parsed := search.parsed;
      FirstStands(cmp, name, InOrder(blocks, root.entries, 0));
      return if exact.Some? then exact else search.fallback, parsed;
    }

    // The walk over the entries of the tree: those not hidden, in the order they
    // are met, then those of the blocks the walk missed when recover asks for
    // them. Without a root such blocks alone may be left; a root of another kind
    // of index has neither.
    method Traverse(recover: bool, step: nat, declared: nat, reportable: Entry -> bool) returns (out: seq<Entry>, probed: seq<seq<nat>>, ghost parsed: seq<nat>)
      ensures Distinct(parsed) && (forall i :: 0 <= i < |out| ==> !out[i].hidden)
      ensures root.OtherKind? ==> out == [] && probed == [] && parsed == []
      ensures root.FileNames? && !recover ==> probed == Groups(Whole(blocks, root.entries).nodes)
      ensures !root.OtherKind? && !recover ==> out == Shown(Walk().delivered)
      // With recovery, each block of the scan is parsed exactly once, by the walk
      // or after it.
      ensures !root.OtherKind? ==> exists missed: seq<nat> ::
        && ScanMissed(Walk(), missed, step, ScanLimit(recover, declared)) && parsed == Walk().parsed + missed
        && Then(Shown(Walk().delivered), out) && OrphansShown(blocks, missed, reportable, out[|Shown(Walk().delivered)|..])
    {
      if root.OtherKind? {
        return [], [], [];
      }
      var walk := new TreeWalk(blocks);
      if root.FileNames? {
        walk.WalkRoot(root.entries);
      }
      ghost var missed: seq<nat> := [];
      NoScan(Walk(), missed, step, declared, blocks, reportable);
      assert walk.out[|walk.out|..] == [];
      if recover {
        missed := walk.ScanOrphanedIndexBlocks(step, Min(declared, MAX_ORPHAN_SCAN_BLOCKS), reportable);
      }
      ShownVisible(walk.met.delivered);
      return walk.out, walk.probed, walk.met.parsed;
    }

    // The walk from the root.
    ghost function Walk(): Walked {
      if root.FileNames? then Whole(blocks, root.entries) else NOTHING_WALKED
    }

    // The lookup, and without the volume's own collation table a look at every
    // entry when the name is not found.
    method Find(name: string, builtIn: bool, recover: bool, step: nat, declared: nat, reportable: Entry -> bool) returns (r: Option<Entry>)
      requires Collates(cmp)
      ensures r.Some? ==> Stands(cmp, name, r.value)
      ensures root.OtherKind? ==> r.None?
      // Without a look at every entry, or without orphans, the sorted tree answers.
      ensures root.FileNames? && Fit(blocks, cmp, root.entries, 0, {}) && (!builtIn || !recover) ==> Answers(cmp, name, InOrder(blocks, root.entries, 0), r)
      // What the tree does not give is the best of the walk and its orphans: a name
      // is absent only when no visible entry of either is equal to it.
      ensures builtIn && !root.OtherKind? ==> GivenByTree(name, r) || exists missed: seq<nat> ::
        && ScanMissed(Walk(), missed, step, ScanLimit(recover, declared))
        && BestWithOrphans(cmp, name, Shown(Walk().delivered), blocks, missed, reportable, r)
    {
      hide Fit, Answers, Best, InOrder, Whole, ScanMissed;
      ghost var parsed;
      r, parsed := FindSubEntryInOrder(name);
      if r.Some? || !builtIn {
        return;
      }
      var entries, probed;
      entries, probed, parsed := Traverse(recover, step, declared, reportable);
      r := BestOf(entries, name);
      BestStands(cmp, name, entries, r);
      if root.FileNames? {
        var all := Whole(blocks, root.entries).delivered;
        ShownStands(cmp, name, all);
        if Fit(blocks, cmp, root.entries, 0, {}) {
          WholeInOrder(blocks, cmp, root.entries);
          if !recover {
            AnswerAgain(cmp, name, InOrder(blocks, root.entries, 0), entries, r);
          }
        }
      }
    }

    // The lookup down the tree found it.
    ghost predicate GivenByTree(name: string, r: Option<Entry>) {
      && r.Some? && root.FileNames?
      && (Fit(blocks, cmp, root.entries, 0, {}) ==> Answers(cmp, name, InOrder(blocks, root.entries, 0), r))
    }

    // The best of a list for the name: an entry spelled like it replaces one that
    // is only equal, and the first of each kind counts.
    method BestOf(entries: seq<Entry>, name: string) returns (r: Option<Entry>)
      ensures Best(cmp, name, entries, r)
    {
      hide Best;
      NoneBest(cmp, name, entries[..0]);
      r := None;
      for i := 0 to |entries|
        invariant Best(cmp, name, entries[..i], r)
      {
        var e := entries[i];
        assert entries[..i + 1] == entries[..i] + [e];
        BestNext(cmp, name, entries[..i], r, e);
        if e.name.None? || cmp(name, e.name.value) != 0 {
          continue;
        }
        var exact := e.name.value == name;
        if r.None? || (exact && r.value.name.value != name) {
          r := Some(e);
        }
      }
      assert entries[..|entries|] == entries;
    }
  }

  // What a lookup should answer for a list of entries in index order.
  ghost predicate Answers(cmp: Compare, name: string, list: seq<Entry>, r: Option<Entry>) {
    && (NoExact(cmp, name, list) ==> r == FirstStanding(cmp, name, list))
    && (!NoExact(cmp, name, list) ==> r.Some? && r.value in list && Exact(cmp, name, r.value))
  }

  // The first entry spelled like the name, or else the first equal to it.
  ghost predicate Best(cmp: Compare, name: string, list: seq<Entry>, r: Option<Entry>) {
    if r.None? then NoEqual(cmp, name, list) else exists i :: 0 <= i < |list| && list[i] == r.value && BestAt(cmp, name, list, i)
  }

  predicate Spelled(cmp: Compare, name: string, e: Entry) {
    Equal(cmp, name, e) && e.name.value == name
  }

  predicate BestAt(cmp: Compare, name: string, list: seq<Entry>, i: nat)
    requires i < |list|
  {
    && Equal(cmp, name, list[i])
    && if list[i].name.value == name then forall j :: 0 <= j < i ==> !Spelled(cmp, name, list[j])
       else (forall j :: 0 <= j < i ==> !Equal(cmp, name, list[j])) && (forall j :: 0 <= j < |list| ==> !Spelled(cmp, name, list[j]))
  }

  lemma NoneBest(cmp: Compare, name: string, list: seq<Entry>)
    requires |list| == 0
    ensures Best(cmp, name, list, None)
  {
  }

  lemma BestNext(cmp: Compare, name: string, list: seq<Entry>, r: Option<Entry>, e: Entry)
    requires Best(cmp, name, list, r)
    ensures r.Some? ==> r.value.name.Some?
    ensures Best(cmp, name, list + [e], if Equal(cmp, name, e) && (r.None? || (e.name.value == name && r.value.name.value != name)) then Some(e) else r)
  {
    var more := list + [e];
    var n := |list|;
    if r.Some? {
      var i :| 0 <= i < n && list[i] == r.value && BestAt(cmp, name, list, i);
      if Spelled(cmp, name, e) && r.value.name.value != name {
        assert more[n] == e && BestAt(cmp, name, more, n);
      } else {
        assert more[i] == r.value && BestAt(cmp, name, more, i);
      }
    } else if Equal(cmp, name, e) {
      assert more[n] == e && BestAt(cmp, name, more, n);
    }
  }

  // The entries that are not hidden.
  function Shown(entries: seq<Entry>): seq<Entry> {
    if entries == [] then []
    else Shown(entries[..|entries| - 1]) + if entries[|entries| - 1].hidden then [] else [entries[|entries| - 1]]
  }

  lemma {:induction false} ShownVisible(entries: seq<Entry>)
    ensures forall e :: e in Shown(entries) <==> e in entries && !e.hidden
    ensures forall i :: 0 <= i < |Shown(entries)| ==> !Shown(entries)[i].hidden
  {
    if entries != [] {
      ShownVisible(entries[..|entries| - 1]);
      assert entries == entries[..|entries| - 1] + [entries[|entries| - 1]];
    }
  }

  lemma ShownStands(cmp: Compare, name: string, entries: seq<Entry>)
    ensures NoEqual(cmp, name, Shown(entries)) <==> forall i :: 0 <= i < |entries| ==> !Stands(cmp, name, entries[i])
  {
    ShownVisible(entries);
    var shown := Shown(entries);
    if NoEqual(cmp, name, shown) {
      forall i | 0 <= i < |entries| ensures !Stands(cmp, name, entries[i]) {
        assert entries[i] in entries;
      }
    } else {
      var i :| 0 <= i < |shown| && Equal(cmp, name, shown[i]);
      assert shown[i] in shown;
    }
  }

  lemma BestStands(cmp: Compare, name: string, list: seq<Entry>, r: Option<Entry>)
    requires Best(cmp, name, list, r) && forall i :: 0 <= i < |list| ==> !list[i].hidden
    ensures r.Some? ==> Stands(cmp, name, r.value)
    ensures r.None? <==> NoEqual(cmp, name, list)
  {
  }

  // Where the tree holds no entry that may stand for the name, neither does the
  // walk over it.
  lemma AnswerAgain(cmp: Compare, name: string, list: seq<Entry>, shown: seq<Entry>, r: Option<Entry>)
    requires Answers(cmp, name, list, None) && shown == Shown(list)
    requires r.None? <==> NoEqual(cmp, name, shown)
    ensures Answers(cmp, name, list, r)
  {
    FirstStands(cmp, name, list);
    ShownStands(cmp, name, list);
  }

  const NOTHING_WALKED := Walked([], [], [], {})

  // The walk from the root.
  function Whole(b: Blocks, root: seq<Entry>): Walked {
    WalkEntries(b, root, 0, NOTHING_WALKED.(nodes := [root]))
  }

  // On a sorted tree the walk delivers the entries in index order, and a lookup
  // finds the same entry in it.
  lemma WholeInOrder(b: Blocks, cmp: Compare, root: seq<Entry>)
    requires Fit(b, cmp, root, 0, {})
    ensures Whole(b, root).delivered == InOrder(b, root, 0)
  {
    WalkInOrder(b, root, 0, NOTHING_WALKED.(nodes := [root]));
    assert NOTHING_WALKED.delivered + InOrder(b, root, 0) == InOrder(b, root, 0);
  }

  // The groups collected ahead of the walk, from blocks that are all held, are
  // those that the walk probes.
  lemma CollectedIsProbed(b: Blocks, root: seq<Entry>)
    ensures CollectEntries(b, root, 0, Collected(Groups([root]), {})).groups == Groups(Whole(b, root).nodes)
  {
    CollectsWhatIsProbed(b, root, 0, NOTHING_WALKED.(nodes := [root]), Collected(Groups([root]), {}));
  }

  // One list starts the other.
  predicate Then(first: seq<Entry>, all: seq<Entry>) {
    |first| <= |all| && all[..|first|] == first
  }

  // The best of the entries that a walk shows and of the orphans after them.
  ghost predicate BestWithOrphans(cmp: Compare, name: string, shown: seq<Entry>, b: Blocks, missed: seq<nat>, reportable: Entry -> bool, r: Option<Entry>) {
    exists all :: Then(shown, all) && OrphansShown(b, missed, reportable, all[|shown|..]) && Best(cmp, name, all, r)
  }

  // How many blocks the scan visits.
  function ScanLimit(recover: bool, declared: nat): nat {
    if recover then Min(declared, MAX_ORPHAN_SCAN_BLOCKS) else 0
  }

  // Those of the scan that the walk did not parse, each once.
  ghost predicate ScanMissed(walked: Walked, missed: seq<nat>, step: nat, limit: nat) {
    && |missed| <= limit && Distinct(walked.parsed + missed)
    && (forall k: nat :: k < limit ==> VcnOf(k, step) in walked.parsed + missed)
    && (forall v :: v in missed ==> InScan(v, step, limit))
  }

  ghost predicate InScan(vcn: nat, step: nat, limit: nat) {
    exists k: nat :: k < limit && vcn == VcnOf(k, step)
  }

  // Without recovery nothing is scanned.
  lemma NoScan(walked: Walked, none: seq<nat>, step: nat, declared: nat, b: Blocks, reportable: Entry -> bool)
    requires Distinct(walked.parsed) && |none| == 0
    ensures ScanMissed(walked, none, step, ScanLimit(false, declared)) && walked.parsed + none == walked.parsed
    ensures OrphansShown(b, none, reportable, [])
  {
    assert walked.parsed + none == walked.parsed;
    assert OrphansAt(b, none, reportable, [], []);
  }

  // The scan starts at VCN 0 and goes on by one block.
  lemma ScanSteps(k: nat, step: nat)
    ensures VcnOf(0, step) == 0 && VcnOf(k + 1, step) == VcnOf(k, step) + step
  {
  }

  // The VCN of a block of the scan.
  function VcnOf(k: nat, step: nat): nat {
    k * step
  }

  // The entries of the missed blocks that belong to the directory.
  function Orphans(b: Blocks, vcns: seq<nat>, reportable: Entry -> bool): seq<Entry> {
    if vcns == [] then []
    else
      var last := vcns[|vcns| - 1];
      Orphans(b, vcns[..|vcns| - 1], reportable) + if last in b then Reportable(b[last], reportable) else []
  }

  // An entry of a missed block, by the places of both.
  datatype OrphanAt = OrphanAt(block: nat, index: nat)

  // The block parses, and the entry is named, not hidden, and of the directory.
  predicate IsOrphan(b: Blocks, missed: seq<nat>, reportable: Entry -> bool, o: OrphanAt) {
    && o.block < |missed| && missed[o.block] in b && o.index < |b[missed[o.block]]|
    && var e := b[missed[o.block]][o.index]; e.name.Some? && !e.hidden && reportable(e)
  }

  predicate OrphanBefore(o: OrphanAt, p: OrphanAt) {
    o.block < p.block || (o.block == p.block && o.index < p.index)
  }

  ghost predicate OrphansAt(b: Blocks, missed: seq<nat>, reportable: Entry -> bool, extra: seq<Entry>, at: seq<OrphanAt>) {
    && |at| == |extra|
    && (forall k :: 0 <= k < |at| ==> IsOrphan(b, missed, reportable, at[k]) && extra[k] == b[missed[at[k].block]][at[k].index])
    && (forall j, k :: 0 <= j < k < |at| ==> OrphanBefore(at[j], at[k]))
    && (forall o :: IsOrphan(b, missed, reportable, o) ==> o in at)
  }

  // Exactly such entries, in the order of the blocks and within each.
  ghost predicate OrphansShown(b: Blocks, missed: seq<nat>, reportable: Entry -> bool, extra: seq<Entry>) {
    exists at :: OrphansAt(b, missed, reportable, extra, at)
  }

  lemma {:induction false} ShownAdded(a: seq<Entry>, c: seq<Entry>)
    ensures Shown(a + c) == Shown(a) + Shown(c)
  {
    if c == [] {
      assert a + c == a;
    } else {
      ShownAdded(a, c[..|c| - 1]);
      assert (a + c)[..|a + c| - 1] == a + c[..|c| - 1];
    }
  }

  // The places of the entries of one block, of those before n.
  lemma {:induction false} BlockPlaces(b: Blocks, missed: seq<nat>, reportable: Entry -> bool, block: nat, n: nat) returns (at: seq<OrphanAt>)
    requires block < |missed| && missed[block] in b && n <= |b[missed[block]]|
    ensures var extra := Shown(Reportable(b[missed[block]][..n], reportable)); |at| == |extra| && forall k :: 0 <= k < |at| ==> PlaceIs(b, missed, reportable, block, n, at[k], extra[k])
    ensures forall j, k :: 0 <= j < k < |at| ==> OrphanBefore(at[j], at[k])
    ensures forall o :: IsOrphan(b, missed, reportable, o) && o.block == block && o.index < n ==> o in at
  {
    hide Shown, Reportable;
    at := [];
    var entries := b[missed[block]];
    if n == 0 {
      NoneReportable(entries[..0], reportable);
    } else {
      at := BlockPlaces(b, missed, reportable, block, n - 1);
      ReportableNext(entries, n - 1, reportable);
      var o := OrphanAt(block, n - 1);
      if IsOrphan(b, missed, reportable, o) {
        at := at + [o];
      }
    }
  }

  lemma NoneReportable(none: seq<Entry>, reportable: Entry -> bool)
    requires |none| == 0
    ensures |Shown(Reportable(none, reportable))| == 0
  {
  }

  lemma ReportableNext(entries: seq<Entry>, n: nat, reportable: Entry -> bool)
    requires n < |entries|
    ensures var e := entries[n]; Shown(Reportable(entries[..n + 1], reportable)) == Shown(Reportable(entries[..n], reportable)) + if e.name.Some? && reportable(e) && !e.hidden then [e] else []
  {
    var e := entries[n];
    assert entries[..n + 1][..n] == entries[..n];
    var one := if e.name.Some? && reportable(e) then [e] else [];
    ShownAdded(Reportable(entries[..n], reportable), one);
    assert one != [] ==> one[..0] == [];
  }

  predicate PlaceIs(b: Blocks, missed: seq<nat>, reportable: Entry -> bool, block: nat, n: nat, o: OrphanAt, e: Entry) {
    IsOrphan(b, missed, reportable, o) && o.block == block && o.index < n && e == b[missed[o.block]][o.index]
  }

  // What the scan shows is such a list.
  lemma {:induction false} OrphansMean(b: Blocks, missed: seq<nat>, reportable: Entry -> bool)
    ensures OrphansShown(b, missed, reportable, Shown(Orphans(b, missed, reportable)))
  {
    hide Shown, Reportable, OrphanBefore;
    if missed == [] {
      NoOrphan(b, missed, reportable);
    } else {
      var n := |missed| - 1;
      var front, last := missed[..n], missed[n];
      OrphansMean(b, front, reportable);
      var extra := Shown(Orphans(b, front, reportable));
      var at :| OrphansAt(b, front, reportable, extra, at);
      var more := if last in b then Reportable(b[last], reportable) else [];
      ShownAdded(Orphans(b, front, reportable), more);
      var added: seq<OrphanAt> := [];
      if last in b {
        added := BlockPlaces(b, missed, reportable, n, |b[last]|);
        assert b[last][..|b[last]|] == b[last];
      } else {
        NothingShown();
      }
      OrphansJoined(b, missed, reportable, extra, at, Shown(more), added);
    }
  }

  lemma NothingShown()
    ensures Shown([]) == []
  {
  }

  lemma NoOrphan(b: Blocks, missed: seq<nat>, reportable: Entry -> bool)
    requires |missed| == 0
    ensures OrphansShown(b, missed, reportable, Shown(Orphans(b, missed, reportable)))
  {
    assert OrphansAt(b, missed, reportable, [], []);
  }

  // The entries of the blocks before the last, then its own.
  lemma OrphansJoined(b: Blocks, missed: seq<nat>, reportable: Entry -> bool, extra: seq<Entry>, at: seq<OrphanAt>, more: seq<Entry>, added: seq<OrphanAt>)
    requires |missed| > 0 && OrphansAt(b, missed[..|missed| - 1], reportable, extra, at) && |added| == |more|
    requires forall k :: 0 <= k < |added| ==> IsOrphan(b, missed, reportable, added[k]) && added[k].block == |missed| - 1 && more[k] == b[missed[|missed| - 1]][added[k].index]
    requires forall j, k :: 0 <= j < k < |added| ==> OrphanBefore(added[j], added[k])
    requires forall o :: IsOrphan(b, missed, reportable, o) && o.block == |missed| - 1 ==> o in added
    ensures OrphansShown(b, missed, reportable, extra + more)
  {
    var n := |missed| - 1;
    var front, all := missed[..n], at + added;
    forall o: OrphanAt ensures o.block < n ==> (IsOrphan(b, front, reportable, o) <==> IsOrphan(b, missed, reportable, o)) {
      assert o.block < n ==> front[o.block] == missed[o.block];
    }
    forall k | 0 <= k < |all| ensures IsOrphan(b, missed, reportable, all[k]) && (extra + more)[k] == b[missed[all[k].block]][all[k].index] {
      if k < |at| { assert IsOrphan(b, front, reportable, at[k]); }
    }
    forall o | IsOrphan(b, missed, reportable, o) ensures o in all {
      assert o.block < n ==> IsOrphan(b, front, reportable, o);
    }
    forall j, k | 0 <= j < k < |all| ensures OrphanBefore(all[j], all[k]) {
      if j < |at| { assert IsOrphan(b, front, reportable, at[j]); }
    }
    assert OrphansAt(b, missed, reportable, extra + more, all);
  }

  function Reportable(entries: seq<Entry>, reportable: Entry -> bool): seq<Entry> {
    if entries == [] then []
    else
      var e := entries[|entries| - 1];
      Reportable(entries[..|entries| - 1], reportable) + if e.name.Some? && reportable(e) then [e] else []
  }

  // The groups of records that a walk will probe, collected from the held blocks.
  class ProbeGroups {
    // The blocks that are held, and parse.
    const held: Blocks
    var visited: set<nat>
    var groups: seq<seq<nat>>

    constructor (held: Blocks)
      ensures this.held == held && visited == {} && groups == []
    {
      this.held := held;
      visited, groups := {}, [];
    }

    function State(): Collected
      reads this
    {
      Collected(groups, visited)
    }

    method CollectProbeGroups(vcn: nat, depth: nat)
      modifies this
      ensures State() == CollectBlock(held, vcn, depth, old(State()))
      decreases Max(0, MAX_DEPTH - depth), 0
    {
      if depth >= MAX_DEPTH || vcn in visited {
        return;
      }
      visited := visited + {vcn};
      if vcn !in held {
        return;
      }
      var records := NamedRecords(held[vcn]);
      if records != [] {
        groups := groups + [records];
      }
      CollectBelow(held[vcn], depth + 1);
    }

    method CollectBelow(entries: seq<Entry>, depth: nat)
      modifies this
      ensures State() == CollectEntries(held, entries, depth, old(State()))
      decreases Max(0, MAX_DEPTH - depth), 1
    {
      ghost var start := State();
      for i := 0 to |entries|
        invariant State() == CollectEntries(held, entries[..i], depth, start)
      {
        assert entries[..i + 1][..i] == entries[..i];
        if entries[i].sub.Some? {
          CollectProbeGroups(entries[i].sub.value, depth);
        }
      }
      assert entries[..|entries|] == entries;
    }

    // The groups of the whole index, the root first.
    method HeldProbeGroups(root: seq<Entry>)
      requires visited == {} && groups == []
      modifies this
      // With every block held, they are those the walk probes, in its order.
      ensures groups == Groups(Whole(held, root).nodes)
    {
      hide CollectEntries;
      hide Whole;
      var records := NamedRecords(root);
      if records != [] {
        groups := groups + [records];
      }
      RootGroup(root);
      CollectBelow(root, 0);
      CollectedIsProbed(held, root);
    }
  }

  lemma RootGroup(root: seq<Entry>)
    ensures Groups([root]) == if NamedRecords(root) != [] then [NamedRecords(root)] else []
  {
    assert Groups([root][..0]) == [];
  }

  // A walk of the tree under way.
  class TreeWalk {
    const blocks: Blocks
    var visited: set<nat>
    // The entries handed to the callback, and the groups handed to the prober.
    var out: seq<Entry>
    var probed: seq<seq<nat>>
    // What the walk met.
    ghost var met: Walked

    ghost predicate Valid()
      reads this
    {
      && Once(met.parsed, met.visited, {}) && visited == met.visited
      && out == Shown(met.delivered) && probed == Groups(met.nodes)
    }

    constructor (blocks: Blocks)
      ensures Valid() && this.blocks == blocks && met == NOTHING_WALKED
    {
      this.blocks := blocks;
      visited, out, probed, met := {}, [], [], NOTHING_WALKED;
    }

    // Hands an entry to the callback, unless it is hidden.
    method Deliver(e: Entry)
      requires Valid()
      modifies this`out, this`met
      ensures Valid() && met == old(met).(delivered := old(met).delivered + [e])
    {
      assert (met.delivered + [e])[..|met.delivered|] == met.delivered;
      if !e.hidden {
        out := out + [e];
      }
      met := met.(delivered := met.delivered + [e]);
    }

    // Probes together the records that the entries of a node name.
    method ProbeNode(entries: seq<Entry>)
      requires Valid()
      modifies this`probed, this`met
      ensures Valid() && met == old(met).(nodes := old(met).nodes + [entries])
    {
      assert (met.nodes + [entries])[..|met.nodes|] == met.nodes;
      var records := NamedRecords(entries);
      if records != [] {
        probed := probed + [records];
      }
      met := met.(nodes := met.nodes + [entries]);
    }

    method Meet(vcn: nat) returns (isNew: bool)
      requires Valid()
      modifies this`visited, this`met
      ensures Valid() && isNew == (vcn !in old(met).visited)
      ensures met == if isNew then old(met).(visited := old(met).visited + {vcn}, parsed := old(met).parsed + [vcn]) else old(met)
    {
      isNew := vcn !in visited;
      if isNew {
        visited := visited + {vcn};
        met := met.(visited := met.visited + {vcn}, parsed := met.parsed + [vcn]);
      }
    }

    // Walks the block at vcn: its entries in order, what is below each one first.
    method TraverseSubNode(vcn: nat, depth: nat)
      requires Valid()
      modifies this
      ensures Valid() && met == WalkBlock(blocks, vcn, depth, old(met))
      decreases Max(0, MAX_DEPTH - depth), 0
    {
      hide Once;
      hide Shown;
      hide Groups;
      if depth >= MAX_DEPTH {
        return;
      }
      var isNew := Meet(vcn);
      if !isNew || vcn !in blocks {
        return;
      }
      ProbeNode(blocks[vcn]);
      TraverseEntries(blocks[vcn], depth + 1);
    }

    method TraverseEntries(entries: seq<Entry>, depth: nat)
      requires Valid()
      modifies this
      ensures Valid() && met == WalkEntries(blocks, entries, depth, old(met))
      decreases Max(0, MAX_DEPTH - depth), 1
    {
      hide Once;
      hide Shown;
      hide Groups;
      hide WalkBlock;
      ghost var start := met;
      for i := 0 to |entries|
        invariant Valid() && met == WalkEntries(blocks, entries[..i], depth, start)
      {
        assert entries[..i + 1][..i] == entries[..i];
        // The sub-node first.
        if entries[i].sub.Some? {
          TraverseSubNode(entries[i].sub.value, depth);
        }
        if entries[i].name.Some? {
          Deliver(entries[i]);
        }
      }
      assert entries[..|entries|] == entries;
    }

    method WalkRoot(root: seq<Entry>)
      requires Valid() && met == NOTHING_WALKED
      modifies this
      ensures Valid() && met == Whole(blocks, root)
    {
      hide Once;
      hide WalkEntries;
      ProbeNode(root);
      assert [] + [root] == [root];
      TraverseEntries(root, 0);
    }

    // Reports the entries of a block that no pointer leads to.
    method ReportOrphanedBlock(vcn: nat, reportable: Entry -> bool)
      requires Valid()
      modifies this`out, this`probed, this`met
      ensures Valid() && met.parsed == old(met).parsed && met.visited == old(met).visited
      ensures met.delivered == old(met).delivered + if vcn in blocks then Reportable(blocks[vcn], reportable) else []
    {
      hide Once;
      hide Shown;
      hide Groups;
      if vcn !in blocks {
        assert met.delivered + [] == met.delivered;
        return;
      }
      var entries := blocks[vcn];
      ProbeNode(Reportable(entries, reportable));
      ghost var start := met.delivered;
      ghost var parsed, seen := met.parsed, met.visited;
      for i := 0 to |entries|
        invariant Valid() && met.delivered == start + Reportable(entries[..i], reportable)
        invariant met.parsed == parsed && met.visited == seen
      {
        assert entries[..i + 1][..i] == entries[..i];
        if entries[i].name.Some? && reportable(entries[i]) {
          Deliver(entries[i]);
        }
      }
      assert entries[..|entries|] == entries;
    }

    // Visits every block of the scan that the walk missed, each once.
    method ScanOrphanedIndexBlocks(step: nat, limit: nat, reportable: Entry -> bool) returns (ghost missed: seq<nat>)
      requires Valid()
      modifies this
      ensures Valid() && ScanMissed(old(met), missed, step, limit)
      ensures met.parsed == old(met).parsed + missed
      ensures met.delivered == old(met).delivered + Orphans(blocks, missed, reportable)
      // What it shows are exactly the visible entries of the directory in the blocks
      // that parse.
      ensures Then(old(out), out) && OrphansShown(blocks, missed, reportable, out[|old(out)|..])
    {
      hide OrphansShown;
      hide Once;
      hide Shown;
      hide Groups;
      hide Reportable;
      hide VcnOf;
      missed := [];
      for k := 0 to limit
        invariant Valid() && forall j: nat :: j < k ==> VcnOf(j, step) in met.visited
        invariant |missed| <= k && forall v :: v in missed ==> InScan(v, step, limit)
        invariant met.parsed == old(met).parsed + missed
        invariant met.delivered == old(met).delivered + Orphans(blocks, missed, reportable)
      {
        var isNew := Meet(VcnOf(k, step));
        if isNew {
          assert (missed + [VcnOf(k, step)])[..|missed|] == missed;
          missed := missed + [VcnOf(k, step)];
          ReportOrphanedBlock(VcnOf(k, step), reportable);
        }
      }
      AllParsed();
      OrphansMean(blocks, missed, reportable);
      ShownAdded(old(met).delivered, Orphans(blocks, missed, reportable));
      assert out[|old(out)|..] == Shown(Orphans(blocks, missed, reportable));
    }

    lemma AllParsed()
      requires Valid()
      ensures Distinct(met.parsed) && forall v :: v in met.visited ==> v in met.parsed
    {
    }
  }

  lemma ItselfFound(b: Blocks, cmp: Compare, name: string, e: Entry, depth: nat, f: Option<Entry>, vcns: seq<nat>, v: set<nat>)
    requires Exact(cmp, name, e)
    ensures Found(cmp, name, EntryInOrder(b, e, depth), Some(e), f, f) && VisitedAmong(v, v, vcns)
  {
    hide Below;
    var list := EntryInOrder(b, e, depth);
    assert list[|list| - 1] == e;
  }

  lemma TwinFound(b: Blocks, cmp: Compare, name: string, e: Entry, depth: nat, twin: Option<Entry>, f0: Option<Entry>, f1: Option<Entry>)
    requires twin.Some?
    ensures Found(cmp, name, Below(b, e, depth), twin, f0, f1) ==> Found(cmp, name, EntryInOrder(b, e, depth), twin, f0, f1)
  {
    hide Below;
  }

  // Below an equal entry nothing was found: it may be kept in its turn.
  lemma NotSpelled(b: Blocks, cmp: Compare, name: string, e: Entry, depth: nat, f0: Option<Entry>, f1: Option<Entry>, v: set<nat>)
    requires Equal(cmp, name, e) && !Exact(cmp, name, e)
    ensures Found(cmp, name, Below(b, e, depth), None, f0, f1) ==>
      Found(cmp, name, EntryInOrder(b, e, depth), None, f0, if f1.Some? then f1 else if e.hidden then None else Some(e))
    ensures e.sub.None? ==> Below(b, e, depth) == [] && Found(cmp, name, Below(b, e, depth), None, f0, f0) && VisitedAmong(v, v, VcnsBelow(b, e, depth))
  {
    if e.sub.None? {
      NoneFound(cmp, name, Below(b, e, depth), f0);
    }
    if Found(cmp, name, Below(b, e, depth), None, f0, f1) {
      OneFound(cmp, name, e, f1);
      FoundNext(cmp, name, Below(b, e, depth), [e], None, f0, f1, if f1.Some? then f1 else if e.hidden then None else Some(e));
    }
  }

  lemma NoneFound(cmp: Compare, name: string, list: seq<Entry>, f: Option<Entry>)
    requires |list| == 0
    ensures Found(cmp, name, list, None, f, f)
  {
  }

  lemma OneFound(cmp: Compare, name: string, e: Entry, f: Option<Entry>)
    requires Equal(cmp, name, e) && !Exact(cmp, name, e)
    ensures Found(cmp, name, [e], None, f, if f.Some? then f else if e.hidden then None else Some(e))
  {
    assert FirstStanding(cmp, name, [e][..0]) == None;
  }

  // The first i entries of a node were searched.
  ghost predicate SearchedTo(b: Blocks, cmp: Compare, name: string, entries: seq<Entry>, i: nat, depth: nat, r: Option<Entry>,
                             f0: Option<Entry>, f1: Option<Entry>, v0: set<nat>, v1: set<nat>)
    requires i <= |entries|
  {
    && Found(cmp, name, InOrder(b, entries[..i], depth), r, f0, f1)
    && VisitedAmong(v0, v1, VcnsIn(b, entries[..i], depth))
  }

  lemma NothingSearched(b: Blocks, cmp: Compare, name: string, entries: seq<Entry>, depth: nat, f: Option<Entry>, v: set<nat>)
    ensures SearchedTo(b, cmp, name, entries, 0, depth, None, f, f, v, v)
  {
    NoneFound(cmp, name, InOrder(b, entries[..0], depth), f);
  }

  lemma SearchedMore(b: Blocks, cmp: Compare, name: string, entries: seq<Entry>, i: nat, depth: nat, r: Option<Entry>,
                     f0: Option<Entry>, f1: Option<Entry>, f2: Option<Entry>, v0: set<nat>, v1: set<nat>, v2: set<nat>)
    requires i < |entries| && SearchedTo(b, cmp, name, entries, i, depth, None, f0, f1, v0, v1)
    requires Found(cmp, name, EntryInOrder(b, entries[i], depth), r, f1, f2) && VisitedAmong(v1, v2, VcnsBelow(b, entries[i], depth))
    ensures SearchedTo(b, cmp, name, entries, i + 1, depth, r, f0, f2, v0, v2)
  {
    hide Found;
    hide VisitedAmong;
    NextInOrder(b, entries, i, depth);
    FoundNext(cmp, name, InOrder(b, entries[..i], depth), EntryInOrder(b, entries[i], depth), r, f0, f1, f2);
    AmongBoth(v0, v1, v2, VcnsIn(b, entries[..i], depth), VcnsBelow(b, entries[i], depth));
  }

  // What was found in the first entries, or in all of them.
  lemma SearchEnds(b: Blocks, cmp: Compare, name: string, entries: seq<Entry>, i: nat, depth: nat, r: Option<Entry>,
                   f0: Option<Entry>, f1: Option<Entry>, v0: set<nat>, v1: set<nat>)
    requires i <= |entries| && SearchedTo(b, cmp, name, entries, i, depth, r, f0, f1, v0, v1) && (r.Some? || i == |entries|)
    ensures Found(cmp, name, InOrder(b, entries, depth), r, f0, f1) && VisitedAmong(v0, v1, VcnsIn(b, entries, depth))
  {
    if i == |entries| {
      assert entries[..i] == entries;
    } else {
      InOrderSplit(b, entries, i, depth);
      VcnsSplit(b, entries, i, depth);
    }
  }

  // An entry that the name sorts after: nothing below it is equal either.
  lemma SmallerPassed(b: Blocks, cmp: Compare, name: string, entries: seq<Entry>, i: nat, depth: nat,
                      f0: Option<Entry>, f1: Option<Entry>, v0: set<nat>, v1: set<nat>)
    requires i < |entries| && SearchedTo(b, cmp, name, entries, i, depth, None, f0, f1, v0, v1) && Collates(cmp)
    requires EntryFit(b, cmp, entries[i], depth, v1) && entries[i].name.Some? && cmp(name, entries[i].name.value) > 0
    ensures SearchedTo(b, cmp, name, entries, i + 1, depth, None, f0, f1, v0, v1)
  {
    hide SearchedTo;
    hide Below;
    BelowSmaller(cmp, name, Below(b, entries[i], depth), entries[i]);
    FoundNothing(cmp, name, EntryInOrder(b, entries[i], depth), f1);
    SearchedMore(b, cmp, name, entries, i, depth, None, f0, f1, f1, v0, v1, v1);
  }

  // An entry without a name or a block below.
  lemma EmptyPassed(b: Blocks, cmp: Compare, name: string, entries: seq<Entry>, i: nat, depth: nat,
                    f0: Option<Entry>, f1: Option<Entry>, v0: set<nat>, v1: set<nat>)
    requires i < |entries| && SearchedTo(b, cmp, name, entries, i, depth, None, f0, f1, v0, v1)
    requires entries[i].name.None? && entries[i].sub.None?
    ensures SearchedTo(b, cmp, name, entries, i + 1, depth, None, f0, f1, v0, v1)
  {
    hide SearchedTo;
    NothingBelow(b, entries[i], depth);
    NoneFound(cmp, name, EntryInOrder(b, entries[i], depth), f1);
    SearchedMore(b, cmp, name, entries, i, depth, None, f0, f1, f1, v0, v1, v1);
  }

  // The block below an entry that is not equal was searched.
  lemma BelowSearched(b: Blocks, cmp: Compare, name: string, entries: seq<Entry>, i: nat, depth: nat, r: Option<Entry>,
                      f0: Option<Entry>, f1: Option<Entry>, f2: Option<Entry>, v0: set<nat>, v1: set<nat>, v2: set<nat>)
    requires i < |entries| && SearchedTo(b, cmp, name, entries, i, depth, None, f0, f1, v0, v1)
    requires !Equal(cmp, name, entries[i])
    requires Found(cmp, name, Below(b, entries[i], depth), r, f1, f2) && VisitedAmong(v1, v2, VcnsBelow(b, entries[i], depth))
    ensures SearchedTo(b, cmp, name, entries, i + 1, depth, r, f0, f2, v0, v2)
  {
    hide SearchedTo;
    hide Found;
    hide Below;
    var e := entries[i];
    FoundMore(cmp, name, Below(b, e, depth), if e.name.Some? then [e] else [], r, f1, f2);
    SearchedMore(b, cmp, name, entries, i, depth, r, f0, f1, f2, v0, v1, v2);
  }

  // The search ends at an entry that the name sorts before, or that has no name:
  // no later one is equal.
  lemma GreaterEnds(b: Blocks, cmp: Compare, name: string, entries: seq<Entry>, i: nat, depth: nat,
                    f0: Option<Entry>, f1: Option<Entry>, f2: Option<Entry>, v0: set<nat>, v1: set<nat>, v2: set<nat>)
    requires i < |entries| && Collates(cmp)
    requires entries[i].name.Some? ==> cmp(name, entries[i].name.value) < 0
    requires entries[i].name.None? ==> i == |entries| - 1
    requires SortedNames(cmp, EntryInOrder(b, entries[i], depth) + InOrder(b, entries[i + 1..], depth))
    requires if entries[i].sub.None? && entries[i].name.Some? then SearchedTo(b, cmp, name, entries, i, depth, None, f0, f2, v0, v2)
             else SearchedTo(b, cmp, name, entries, i + 1, depth, None, f0, f2, v0, v2)
    ensures Found(cmp, name, InOrder(b, entries, depth), None, f0, f2) && VisitedAmong(v0, v2, VcnsIn(b, entries, depth))
  {
    hide Found;
    hide VisitedAmong;
    hide Collates;
    if entries[i].name.None? {
      SearchEnds(b, cmp, name, entries, i + 1, depth, None, f0, f2, v0, v2);
    } else {
      GreaterAfter(b, cmp, name, entries, i, depth);
      var at := if entries[i].sub.None? then i else i + 1;
      InOrderSplit(b, entries, at, depth);
      VcnsSplit(b, entries, at, depth);
      FoundMore(cmp, name, InOrder(b, entries[..at], depth), InOrder(b, entries[at..], depth), None, f0, f2);
      AmongMore(v0, v2, VcnsIn(b, entries[..at], depth), VcnsIn(b, entries[at..], depth));
    }
  }

  lemma GreaterAfter(b: Blocks, cmp: Compare, name: string, entries: seq<Entry>, i: nat, depth: nat)
    requires i < |entries| && Collates(cmp) && entries[i].name.Some? && cmp(name, entries[i].name.value) < 0
    requires SortedNames(cmp, EntryInOrder(b, entries[i], depth) + InOrder(b, entries[i + 1..], depth))
    ensures NoEqual(cmp, name, InOrder(b, entries[i + 1..], depth))
    ensures entries[i].sub.None? ==> NoEqual(cmp, name, InOrder(b, entries[i..], depth))
  {
    hide Collates;
    hide InOrder;
    hide Below;
    var e, rest := entries[i], InOrder(b, entries[i + 1..], depth);
    var low := Below(b, e, depth);
    assert EntryInOrder(b, e, depth) + rest == low + ([e] + rest);
    SortedTail(cmp, low, [e], rest);
    assert low + [e] + rest == low + ([e] + rest);
    AboveGreater(cmp, name, e, rest);
    var after := [e] + rest;
    assert forall k :: 0 <= k < |rest| ==> after[1 + k] == rest[k];
    if e.sub.None? {
      FirstInOrder(b, entries, i, depth);
      NothingBelow(b, e, depth);
      assert low + [e] == [e];
    }
  }

  lemma NothingBelow(b: Blocks, e: Entry, depth: nat)
    requires e.sub.None?
    ensures Below(b, e, depth) == []
  {
  }

  lemma FirstInOrder(b: Blocks, entries: seq<Entry>, i: nat, depth: nat)
    requires i < |entries|
    ensures InOrder(b, entries[i..], depth) == EntryInOrder(b, entries[i], depth) + InOrder(b, entries[i + 1..], depth)
  {
    var tail := entries[i..];
    InOrderSplit(b, tail, 1, depth);
    NextInOrder(b, tail, 0, depth);
    assert tail[1..] == entries[i + 1..];
    assert InOrder(b, tail[..0], depth) == [];
  }

  lemma AmongBelow(v0: set<nat>, v1: set<nat>, vcn: nat, under: seq<nat>)
    requires VisitedAmong(v0 + {vcn}, v1, under)
    ensures VisitedAmong(v0, v1, [vcn] + under)
  {
  }
}
