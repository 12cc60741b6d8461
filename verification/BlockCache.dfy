// A bounded cache of fixed-size blocks, the least recently used dropped first. A
// block that a view holds is never dropped, so the total can stay above the
// ceiling.
module BlockCache {
  import opened Prelude

  // The list without one index.
  function Without(order: seq<nat>, index: nat): seq<nat> {
    if order == [] then []
    else Without(order[..|order| - 1], index) + if order[|order| - 1] == index then [] else [order[|order| - 1]]
  }

  ghost predicate Distinct(order: seq<nat>) {
    forall i, j :: 0 <= i < j < |order| ==> order[i] != order[j]
  }

  lemma {:induction false} WithoutHolds(order: seq<nat>, index: nat)
    requires Distinct(order)
    ensures Distinct(Without(order, index)) && index !in Without(order, index)
    ensures forall x :: x in Without(order, index) <==> x in order && x != index
  {
    if order != [] {
      var front, last := order[..|order| - 1], order[|order| - 1];
      WithoutHolds(front, index);
      assert order == front + [last];
      assert last !in front;
      WithoutMore(Without(front, index), last);
    }
  }

  lemma WithoutMore(few: seq<nat>, last: nat)
    requires Distinct(few) && last !in few
    ensures Distinct(few + [last]) && Distinct(few + [])
  {
    assert few + [] == few;
  }

  // The indexes of a list that have a holder besides the cache.
  function Pinned(order: seq<nat>, holders: map<nat, nat>): seq<nat> {
    if order == [] then []
    else
      var last := order[|order| - 1];
      Pinned(order[..|order| - 1], holders) + if IsPinned(holders, last) then [last] else []
  }

  predicate IsPinned(holders: map<nat, nat>, index: nat) {
    index in holders && holders[index] > 0
  }

  // One holder more, or less.
  function HeldMore(holders: map<nat, nat>, index: nat): map<nat, nat> {
    holders[index := (if index in holders then holders[index] else 0) + 1]
  }

  function HeldLess(holders: map<nat, nat>, index: nat): map<nat, nat>
    requires IsPinned(holders, index)
  {
    if holders[index] == 1 then holders - {index} else holders[index := holders[index] - 1]
  }

  // A block held and let go has the holders it had.
  lemma HeldAndLetGo(holders: map<nat, nat>, index: nat)
    requires forall x :: x in holders ==> holders[x] > 0
    ensures IsPinned(HeldMore(holders, index), index) && HeldLess(HeldMore(holders, index), index) == holders
  {
  }

  lemma {:induction false} PinnedHolds(order: seq<nat>, holders: map<nat, nat>)
    ensures forall x :: x in Pinned(order, holders) <==> x in order && IsPinned(holders, x)
    ensures Distinct(order) ==> Distinct(Pinned(order, holders))
  {
    if order != [] {
      var front := order[..|order| - 1];
      PinnedHolds(front, holders);
      assert order == front + [order[|order| - 1]];
    }
  }

  // The order lists the cached blocks, each once; a block that has a holder is
  // cached.
  ghost predicate CacheRight(order: seq<nat>, blocks: map<nat, seq<bv8>>, holders: map<nat, nat>, blockBytes: nat) {
    && Distinct(order) && (forall x :: x in order <==> x in blocks)
    && (forall x :: x in blocks ==> |blocks[x]| == blockBytes)
    && (forall x :: x in holders ==> holders[x] > 0 && x in blocks)
  }

  class BlockCache {
    const blockBytes: nat
    const ceiling: nat
    var blocks: map<nat, seq<bv8>>
    // Block indexes, least recently used first.
    var order: seq<nat>
    // Bytes of the live buffers that belong to views alone.
    var stitched: nat
    // How many hold a block besides the cache.
    var holders: map<nat, nat>

    ghost predicate Valid()
      reads this
    {
      && CacheRight(order, blocks, holders, blockBytes)
      && stitched <= U64_MAX && ceiling <= U64_MAX
    }

    constructor (blockBytes: nat, ceiling: nat)
      requires ceiling <= U64_MAX
      ensures Valid() && blocks == map[] && stitched == 0 && holders == map[]
      ensures this.blockBytes == blockBytes && this.ceiling == ceiling
    {
      this.blockBytes, this.ceiling := blockBytes, ceiling;
      blocks, order, stitched, holders := map[], [], 0, map[];
    }

    // Every block plus every live stitched buffer, stopped at the largest value.
    function HeldBytes(): nat
      reads this
    {
      HeldFor(|blocks|)
    }

    function HeldFor(count: nat): (r: nat)
      reads this`stitched
      ensures r == Min(U64_MAX, count * blockBytes + stitched)
    {
      if count * blockBytes > U64_MAX || stitched > U64_MAX || stitched > U64_MAX - count * blockBytes
      then U64_MAX else count * blockBytes + stitched
    }

    // The block at index, and its use.
    method Find(index: nat) returns (block: Option<seq<bv8>>)
      requires Valid()
      modifies this`order
      ensures Valid() && block == if index in blocks then Some(blocks[index]) else None
      ensures order == if index in blocks then Without(old(order), index) + [index] else old(order)
    {
      if index !in blocks {
        return None;
      }
      WithoutHolds(order, index);
      order := Without(order, index) + [index];
      return Some(blocks[index]);
    }

    // Adds a block as the most recently used. An index that is cached keeps its
    // block.
    method Insert(index: nat, block: seq<bv8>)
      requires Valid() && |block| == blockBytes
      modifies this`blocks, this`order
      ensures Valid()
      ensures blocks == if index in old(blocks) then old(blocks) else old(blocks)[index := block]
      ensures order == if index in old(blocks) then old(order) else old(order) + [index]
    {
      if index in blocks {
        return;
      }
      order := order + [index];
      blocks := blocks[index := block];
    }

    // Drops unused blocks, least recently used first, until the total is at most
    // the ceiling, or only blocks in use remain.
    method Trim()
      requires Valid()
      modifies this`blocks, this`order
      ensures Valid() && TrimmedTo(old(order), old(blocks))
      ensures HeldBytes() <= ceiling || forall x :: x in blocks ==> IsPinned(holders, x)
    {
      hide HeldFor;
      hide CacheRight;
      hide Trimming;
      hide Distinct;
      hide Among;
      hide Pinned;
      ghost var wasOrder, wasBlocks := order, blocks;
      var kept: seq<nat>, left := [], order;
      TrimStarts(order, blocks, holders, blockBytes);
      while left != [] && HeldBytes() > ceiling
        invariant Valid()
        invariant Trimming(wasOrder, wasBlocks, kept, left, order, blocks, holders)
        decreases |left|
      {
        var index := left[0];
        TrimNext(wasOrder, wasBlocks, kept, left, order, blocks, holders, blockBytes);
        // A second holder is a view: that block stays.
        if IsPinned(holders, index) {
          kept := kept + [index];
        } else {
          blocks := blocks - {index};
          order := kept + left[1..];
        }
        left := left[1..];
      }
      TrimEnds(wasOrder, wasBlocks, kept, left, order, blocks, holders);
    }

    // The blocks that are not in use are gone up to some place of the order, and
    // nothing else is.
    ghost predicate TrimmedTo(was: seq<nat>, had: map<nat, seq<bv8>>)
      reads this
    {
      && blocks == Among(had, order)
      && exists cut :: 0 <= cut <= |was| && order == Pinned(was[..cut], holders) + was[cut..]
    }

    // Drops every unused block.
    method Minify()
      requires Valid()
      modifies this`blocks, this`order
      ensures Valid() && order == Pinned(old(order), holders)
      ensures blocks == Among(old(blocks), order)
    {
      hide HeldFor;
      hide CacheRight;
      hide Pinned;
      hide Among;
      var kept: seq<nat>, all := [], order;
      NothingPassed(all, holders);
      for i := 0 to |all|
        invariant kept == Pinned(all[..i], holders) && order == all && blocks == old(blocks)
      {
        PassOne(all, |all| - i, holders);
        if IsPinned(holders, all[i]) {
          kept := kept + [all[i]];
        }
      }
      assert all[..|all|] == all;
      PinnedLeft(all, blocks, holders, blockBytes);
      blocks := Among(blocks, kept);
      order := kept;
    }

    // One more holder of a block, or one less.
    method Hold(index: nat)
      requires Valid() && index in blocks
      modifies this`holders
      ensures Valid() && holders == HeldMore(old(holders), index)
    {
      holders := HeldMore(holders, index);
    }

    method LetGo(index: nat)
      requires Valid() && IsPinned(holders, index)
      modifies this`holders
      ensures Valid() && holders == HeldLess(old(holders), index)
    {
      holders := HeldLess(holders, index);
    }

    // A buffer that belongs to one view, counted while it lives.
    method NewStitched(size: nat)
      requires Valid() && size <= U64_MAX
      modifies this`stitched
      ensures Valid() && stitched == SaturatingAdd(old(stitched), size)
    {
      stitched := SaturatingAdd(stitched, size);
    }

    method FreeStitched(size: nat)
      requires Valid()
      modifies this`stitched
      ensures Valid() && stitched == if old(stitched) >= size then old(stitched) - size else 0
    {
      stitched := if stitched >= size then stitched - size else 0;
    }
  }

  // The blocks of the indexes of a list.
  function Among(had: map<nat, seq<bv8>>, order: seq<nat>): map<nat, seq<bv8>> {
    map x | x in had && x in order :: had[x]
  }

  // A trim under way: kept are the blocks in use among those passed, left the ones
  // still to look at.
  ghost predicate Trimming(was: seq<nat>, had: map<nat, seq<bv8>>, kept: seq<nat>, left: seq<nat>, order: seq<nat>,
                           blocks: map<nat, seq<bv8>>, holders: map<nat, nat>) {
    && order == kept + left && |left| <= |was| && left == was[|was| - |left|..]
    && kept == Pinned(was[..|was| - |left|], holders)
    && blocks == Among(had, order)
  }

  lemma TrimStarts(order: seq<nat>, blocks: map<nat, seq<bv8>>, holders: map<nat, nat>, blockBytes: nat)
    requires CacheRight(order, blocks, holders, blockBytes)
    ensures Trimming(order, blocks, [], order, order, blocks, holders)
  {
    NothingPassed(order, holders);
    assert order[0..] == order && [] + order == order;
  }

  lemma TrimNext(was: seq<nat>, had: map<nat, seq<bv8>>, kept: seq<nat>, left: seq<nat>, order: seq<nat>,
                 blocks: map<nat, seq<bv8>>, holders: map<nat, nat>, blockBytes: nat)
    requires Trimming(was, had, kept, left, order, blocks, holders) && left != [] && CacheRight(order, blocks, holders, blockBytes)
    ensures IsPinned(holders, left[0]) ==> Trimming(was, had, kept + [left[0]], left[1..], order, blocks, holders)
    ensures !IsPinned(holders, left[0]) ==>
      && Trimming(was, had, kept, left[1..], kept + left[1..], blocks - {left[0]}, holders)
      && CacheRight(kept + left[1..], blocks - {left[0]}, holders, blockBytes)
  {
    hide Pinned;
    PassOne(was, |left|, holders);
    assert order == kept + [left[0]] + left[1..];
    assert kept + [left[0]] + left[1..] == (kept + [left[0]]) + left[1..];
    OneDropped(kept, left[0], left[1..]);
  }

  lemma TrimEnds(was: seq<nat>, had: map<nat, seq<bv8>>, kept: seq<nat>, left: seq<nat>, order: seq<nat>,
                 blocks: map<nat, seq<bv8>>, holders: map<nat, nat>)
    requires Trimming(was, had, kept, left, order, blocks, holders)
    ensures exists cut :: 0 <= cut <= |was| && order == Pinned(was[..cut], holders) + was[cut..]
    ensures left == [] ==> forall x :: x in blocks ==> IsPinned(holders, x)
    ensures blocks == Among(had, order)
  {
    var cut := |was| - |left|;
    assert order == Pinned(was[..cut], holders) + was[cut..];
    PinnedHolds(was[..cut], holders);
    if left == [] { assert order == kept; }
  }

  lemma PinnedLeft(order: seq<nat>, blocks: map<nat, seq<bv8>>, holders: map<nat, nat>, blockBytes: nat)
    requires CacheRight(order, blocks, holders, blockBytes)
    ensures var kept := Pinned(order, holders); CacheRight(kept, Among(blocks, kept), holders, blockBytes)
  {
    PinnedHolds(order, holders);
  }

  lemma NothingPassed(order: seq<nat>, holders: map<nat, nat>)
    ensures Pinned(order[..0], holders) == []
  {
  }

  lemma PassOne(order: seq<nat>, left: nat, holders: map<nat, nat>)
    requires 0 < left <= |order|
    ensures var n := |order| - left;
      Pinned(order[..n + 1], holders) == Pinned(order[..n], holders) + if IsPinned(holders, order[n]) then [order[n]] else []
  {
    var n := |order| - left;
    assert order[..n + 1][..n] == order[..n];
  }

  lemma OneDropped(kept: seq<nat>, index: nat, rest: seq<nat>)
    requires Distinct(kept + [index] + rest)
    ensures Distinct(kept + rest)
    ensures forall x :: x in kept + rest <==> x in kept + [index] + rest && x != index
  {
    var all, few := kept + [index] + rest, kept + rest;
    assert forall i :: 0 <= i < |few| ==> few[i] == all[if i < |kept| then i else i + 1];
    assert all[|kept|] == index;
    forall x ensures x in few <==> x in all && x != index {
      if x in few {
        var i :| 0 <= i < |few| && few[i] == x;
        assert all[if i < |kept| then i else i + 1] == x;
      }
    }
  }
}
