// Reads through the block cache: what a read returns is the medium's own bytes,
// every cached block is the medium's, and a block in use stays.
module FileReader {
  import opened Prelude
  import opened Media
  import BlockCache

  // A block is at least one sector.
  const MIN_BLOCK_BYTES: nat := 4096

  // Where a block starts.
  function BlockAddr(index: nat, size: nat): nat {
    index * size
  }

  lemma NextBlock(index: nat, size: nat)
    ensures BlockAddr(index + 1, size) == BlockAddr(index, size) + size
  {
  }

  lemma LaterBlock(a: nat, b: nat, size: nat)
    requires a <= b
    ensures BlockAddr(a, size) <= BlockAddr(b, size)
  {
    ProductMonotone(a, b, size);
  }

  lemma BlocksAdded(a: nat, n: nat, size: nat)
    ensures BlockAddr(a + n, size) == BlockAddr(a, size) + BlockAddr(n, size)
  {
  }

  // The block that holds an address, and where it starts.
  lemma BlockOf(addr: nat, size: nat)
    requires size > 0
    ensures UnitStart(addr, size) == BlockAddr(UnitOf(addr, size), size)
    ensures BlockAddr(UnitOf(addr, size), size) <= addr < BlockAddr(UnitOf(addr, size), size) + size
  {
    UnitBounds(addr, size);
  }

  // A block of the medium, whole.
  ghost predicate BlockRight(m: Medium, index: nat, size: nat, bytes: seq<bv8>) {
    bytes == Bytes(m, BlockAddr(index, size), size) && AllReadable(m, BlockAddr(index, size), size)
  }

  // A read of the disk, and whether it succeeded.
  datatype DiskRead = DiskRead(addr: int, size: nat, ok: bool)

  // No read of a list failed.
  ghost predicate NoneFailed(log: seq<DiskRead>, from: nat) {
    forall i :: from <= i < |log| ==> log[i].ok
  }

  // The reads from a place of the list on are in order, apart, and end at limit at
  // most.
  ghost predicate Apart(log: seq<DiskRead>, from: nat, limit: int) {
    && (forall i, j :: from <= i < j < |log| ==> log[i].addr + log[i].size <= log[j].addr)
    && (forall i :: from <= i < |log| ==> log[i].addr + log[i].size <= limit)
  }

  // What a read returned: nothing, a part of a cached block, or bytes of its own.
  datatype View = Empty | Pinned(index: nat, offset: nat, length: nat) | Own(bytes: seq<bv8>)

  class FileReader {
    const medium: Medium
    const blockBytes: nat
    const maxRunBlocks: nat
    const cache: BlockCache.BlockCache
    // The reads of the disk so far.
    ghost var log: seq<DiskRead>

    ghost predicate Valid()
      reads this, cache
    {
      && cache.Valid() && blockBytes > 0 && maxRunBlocks > 0 && cache.blockBytes == blockBytes
      && AllRight(medium, cache.blocks, blockBytes)
    }

    constructor (medium: Medium, blockBytes: nat, maxRunBytes: nat, ceiling: nat)
      requires ceiling <= U64_MAX
      ensures Valid() && fresh(cache) && log == [] && this.medium == medium && this.blockBytes == Max(blockBytes, MIN_BLOCK_BYTES)
    {
      var size := Max(blockBytes, MIN_BLOCK_BYTES);
      this.medium, this.blockBytes := medium, size;
      this.maxRunBlocks := Max(maxRunBytes, size) / size;
      cache := new BlockCache.BlockCache(size, ceiling);
      log := [];
      new;
      NoBlocks(medium, cache.blocks, this.blockBytes);
      OneRunBlock(maxRunBytes, this.blockBytes);
    }

    // The bytes that a view shows.
    function Shown(v: View): seq<bv8>
      reads cache
    {
      match v
      case Empty => []
      case Pinned(index, offset, length) =>
        if index in cache.blocks && offset + length <= |cache.blocks[index]| then cache.blocks[index][offset..offset + length] else []
      case Own(bytes) => bytes
    }

    // Reads exactly n bytes of the disk.
    method ReadFromReader(addr: int, n: nat) returns (bytes: Option<seq<bv8>>)
      modifies this`log
      ensures bytes.Some? <==> AllReadable(medium, addr, n)
      ensures bytes.Some? ==> bytes.value == Bytes(medium, addr, n)
      ensures log == old(log) + [DiskRead(addr, n, bytes.Some?)]
    {
      bytes := if AllReadable(medium, addr, n) then Some(Bytes(medium, addr, n)) else None;
      log := log + [DiskRead(addr, n, bytes.Some?)];
    }

    // Reads exactly the range, into a buffer that only the view owns.
    method ReadUncached(addr: int, length: nat) returns (view: Option<View>)
      requires Valid() && length <= U64_MAX
      modifies this`log, cache
      ensures Valid() && cache.holders == old(cache.holders)
      ensures view.Some? <==> AllReadable(medium, addr, length)
      ensures view.Some? ==> view.value == Own(Bytes(medium, addr, length))
      ensures log == old(log) + [DiskRead(addr, length, view.Some?)]
    {
      hide AllRight;
      cache.NewStitched(length);
      var bytes := ReadFromReader(addr, length);
      if bytes.None? {
        cache.FreeStitched(length);
        return None;
      }
      Trim();
      return Some(Own(bytes.value));
    }

    // Trims the cache: what is left is still the medium's.
    method Trim()
      requires Valid()
      modifies cache
      ensures Valid() && cache.holders == old(cache.holders) && cache.stitched == old(cache.stitched)
      ensures forall i :: i in cache.blocks ==> i in old(cache.blocks) && cache.blocks[i] == old(cache.blocks)[i]
      // No block in use is dropped.
      ensures forall i :: i in old(cache.blocks) && BlockCache.IsPinned(cache.holders, i) ==> i in cache.blocks
    {
      ghost var had := cache.blocks;
      cache.Trim();
      FewerBlocks(medium, had, cache.blocks, cache.order, blockBytes);
    }

    // Reads a range of the disk: through the cache, or around it when a whole block
    // of it cannot be read.
    method Read(addr: int, length: nat) returns (view: Option<View>)
      requires Valid() && length <= U64_MAX
      modifies this`log, cache
      ensures Valid()
      // It succeeds exactly when the bytes asked for can be read, and shows them.
      ensures view.Some? <==> length == 0 || (0 <= addr && addr + length <= I64_MAX && AllReadable(medium, addr, length))
      ensures view.Some? && length > 0 ==> Shown(view.value) == Bytes(medium, addr, length)
      // A view of a cached block holds it; nothing else is held or let go.
      ensures cache.holders == if view.Some? && view.value.Pinned?
        then BlockCache.HeldMore(old(cache.holders), view.value.index) else old(cache.holders)
      ensures view.Some? && view.value.Pinned? ==> BlockCache.IsPinned(cache.holders, view.value.index)
      // With no failed read, the reads of the disk are apart.
      ensures |old(log)| <= |log| && log[..|old(log)|] == old(log)
      ensures NoneFailed(log, |old(log)|) ==> exists limit :: Apart(log, |old(log)|, limit)
    {
      hide AllRight;
      hide Apart;
      hide NoneFailed;
      hide BlockAddr;
      hide UnitOf;
      hide UnitStart;
      hide BlockRight;
      NoReads(log);
      if length == 0 {
        return Some(Empty);
      }
      // A negative address has no block to cache. An end past the largest one
      // would overflow.
      if addr < 0 || addr > I64_MAX - length {
        return None;
      }
      var last := UnitOf(addr + length - 1, blockBytes);
      var loader := new RunBlockLoader(this, last);
      LoaderStarts(log, BlockAddr(UnitOf(addr, blockBytes), blockBytes));
      UnitOrder(addr, addr + length - 1, blockBytes);
      if UnitOf(addr, blockBytes) == last {
        view := ReadOneBlock(addr, length, loader);
      } else {
        view := Stitch(addr, length, loader);
      }
    }

    // The range lies in one block: a view of the block itself.
    method ReadOneBlock(addr: nat, length: nat, loader: RunBlockLoader) returns (view: Option<View>)
      requires Valid() && 0 < length <= U64_MAX && addr + length <= I64_MAX
      requires loader.reader == this && loader.from == |log| && loader.Valid(UnitOf(addr, blockBytes))
      requires UnitOf(addr, blockBytes) == UnitOf(addr + length - 1, blockBytes) == loader.lastIndex
      modifies this`log, cache, loader
      ensures Valid() && (view.Some? <==> AllReadable(medium, addr, length))
      ensures view.Some? ==> Shown(view.value) == Bytes(medium, addr, length)
      ensures cache.holders == if view.Some? && view.value.Pinned?
        then BlockCache.HeldMore(old(cache.holders), view.value.index) else old(cache.holders)
      ensures |old(log)| <= |log| && log[..|old(log)|] == old(log)
      ensures NoneFailed(log, |old(log)|) ==> exists limit :: Apart(log, |old(log)|, limit)
    {
      hide AllRight;
      hide Apart;
      hide NoneFailed;
      hide BlockAddr;
      hide UnitOf;
      hide UnitStart;
      hide BlockRight;
      var index := UnitOf(addr, blockBytes);
      BlockOf(addr, blockBytes);
      BlockOf(addr + length - 1, blockBytes);
      var block := loader.Get(index);
      if block.None? {
        ghost var tried := log;
        view := ReadUncached(addr, length);
        StillFailed(tried, log, loader.from);
        return;
      }
      var offset := addr - BlockAddr(index, blockBytes);
      BlockPart(medium, index, blockBytes, block.value, offset, length);
      cache.Hold(index);
      Trim();
      view := Some(Pinned(index, offset, length));
    }

    // The range crosses blocks: its bytes are copied block after block into a
    // buffer that only the view owns, so the blocks stay free to be dropped.
    method Stitch(addr: nat, length: nat, loader: RunBlockLoader) returns (view: Option<View>)
      requires Valid() && 0 < length <= U64_MAX && addr + length <= I64_MAX
      requires loader.reader == this && loader.from == |log| && loader.Valid(UnitOf(addr, blockBytes))
      requires UnitOf(addr + length - 1, blockBytes) == loader.lastIndex
      modifies this`log, cache, loader
      ensures Valid() && (view.Some? <==> AllReadable(medium, addr, length))
      ensures view.Some? ==> view.value == Own(Bytes(medium, addr, length))
      ensures cache.holders == old(cache.holders)
      ensures |old(log)| <= |log| && log[..|old(log)|] == old(log)
      ensures NoneFailed(log, |old(log)|) ==> exists limit :: Apart(log, |old(log)|, limit)
    {
      hide AllRight;
      hide Apart;
      hide NoneFailed;
      hide BlockAddr;
      hide UnitOf;
      hide UnitStart;
      hide BlockRight;
      cache.NewStitched(length);
      var out: seq<bv8> := [];
      NothingCopied(medium, addr);
      ghost var next := UnitOf(addr, blockBytes);
      while |out| < length
        invariant Valid() && cache.holders == old(cache.holders) && |out| <= length
        invariant loader.Valid(next) && (|out| < length ==> next == UnitOf(addr + |out|, blockBytes))
        invariant out == Bytes(medium, addr, |out|) && AllReadable(medium, addr, |out|)
        invariant |old(log)| <= |log| && log[..|old(log)|] == old(log)
      {
        var copied;
        copied, next := CopyNext(addr, length, out, loader);
        if copied.None? {
          ghost var tried := log;
          view := ReadUncached(addr, length);
          StillFailed(tried, log, loader.from);
          cache.FreeStitched(length);
          return;
        }
        out := copied.value;
      }
      Trim();
      view := Some(Own(out));
      LimitExists(log, loader.from, BlockAddr(loader.Reached(next), blockBytes));
    }

    // Copies the next part of a range, up to the end of its block. None when the
    // block cannot be read whole.
    method CopyNext(addr: nat, length: nat, out: seq<bv8>, loader: RunBlockLoader) returns (copied: Option<seq<bv8>>, ghost next: nat)
      requires Valid() && |out| < length && addr + length <= I64_MAX
      requires loader.reader == this && loader.Valid(UnitOf(addr + |out|, blockBytes))
      requires UnitOf(addr + length - 1, blockBytes) == loader.lastIndex
      requires out == Bytes(medium, addr, |out|) && AllReadable(medium, addr, |out|)
      modifies this`log, cache, loader
      ensures Valid() && cache.holders == old(cache.holders) && loader.Valid(next)
      ensures copied.None? ==> !NoneFailed(log, loader.from)
      ensures copied.Some? ==>
        && |out| < |copied.value| <= length && (|copied.value| < length ==> next == UnitOf(addr + |copied.value|, blockBytes))
        && copied.value == Bytes(medium, addr, |copied.value|) && AllReadable(medium, addr, |copied.value|)
      ensures |old(log)| <= |log| && log[..|old(log)|] == old(log)
    {
      hide AllRight;
      hide Apart;
      hide NoneFailed;
      hide BlockAddr;
      hide UnitOf;
      hide UnitStart;
      hide BlockRight;
      var cur := addr + |out|;
      var index := UnitOf(cur, blockBytes);
      BlockOf(cur, blockBytes);
      UnitOrder(cur, addr + length - 1, blockBytes);
      var block := loader.Get(index);
      next := index + 1;
      if block.None? {
        return None, next;
      }
      var offset := cur - BlockAddr(index, blockBytes);
      var chunk := Min(blockBytes - offset, length - |out|);
      CopyBlock(medium, addr, out, index, blockBytes, block.value, offset, chunk);
      NextCursor(cur, chunk, blockBytes, index, length - |out|);
      copied := Some(out + block.value[offset..offset + chunk]);
      TrimAround(index, loader);
    }

    // Trims the cache while a block is held by the copy alone.
    method TrimAround(index: nat, loader: RunBlockLoader)
      requires Valid() && index in cache.blocks && loader.reader == this && loader.Valid(index + 1)
      modifies cache
      ensures Valid() && cache.holders == old(cache.holders) && loader.Valid(index + 1)
    {
      hide AllRight;
      hide Apart;
      hide NoneFailed;
      hide BlockAddr;
      BlockCache.HeldAndLetGo(cache.holders, index);
      cache.Hold(index);
      ghost var had := cache.blocks;
      Trim();
      FewerCached(had, cache.blocks, index + 1, loader.Reached(index + 1));
      cache.LetGo(index);
    }

    // A view is no longer used.
    method Drop(view: View)
      requires Valid() && (view.Pinned? ==> BlockCache.IsPinned(cache.holders, view.index))
      modifies cache
      ensures Valid()
      ensures cache.holders == if view.Pinned? then BlockCache.HeldLess(old(cache.holders), view.index) else old(cache.holders)
    {
      hide AllRight;
      match view
      case Empty => return;
      case Pinned(index, _, _) => cache.LetGo(index);
      case Own(bytes) => cache.FreeStitched(|bytes|);
      Trim();
    }
  }

  lemma FewerCached(had: map<nat, seq<bv8>>, now: map<nat, seq<bv8>>, from: nat, end: nat)
    requires forall i :: i in now ==> i in had
    ensures NoneCached(had, from, end) ==> NoneCached(now, from, end)
  {
  }

  lemma NoReads(log: seq<DiskRead>)
    ensures Apart(log, |log|, 0)
  {
  }

  lemma LoaderStarts(log: seq<DiskRead>, limit: int)
    ensures Apart(log, |log|, limit) && NoneFailed(log, |log|)
  {
  }

  lemma LimitExists(log: seq<DiskRead>, from: nat, limit: int)
    ensures Apart(log, from, limit) ==> exists l :: Apart(log, from, l)
  {
  }

  lemma StillFailed(tried: seq<DiskRead>, log: seq<DiskRead>, from: nat)
    requires |tried| <= |log| && log[..|tried|] == tried && !NoneFailed(tried, from)
    ensures !NoneFailed(log, from)
  {
    assert forall i :: 0 <= i < |tried| ==> log[i] == tried[i];
  }

  // A part of a block is a part of the medium.
  lemma BlockPart(m: Medium, index: nat, size: nat, block: seq<bv8>, offset: nat, n: nat)
    requires BlockRight(m, index, size, block) && offset + n <= size
    ensures |block| == size
    ensures block[offset..offset + n] == Bytes(m, BlockAddr(index, size) + offset, n)
    ensures AllReadable(m, BlockAddr(index, size) + offset, n)
  {
    PartBytes(m, BlockAddr(index, size), size, offset, n);
    PartReadable(m, BlockAddr(index, size), size, BlockAddr(index, size) + offset, n);
  }

  lemma NothingCopied(m: Medium, addr: int)
    ensures [] == Bytes(m, addr, 0) && AllReadable(m, addr, 0)
  {
  }

  // One more part copied.
  lemma CopyBlock(m: Medium, addr: nat, out: seq<bv8>, index: nat, size: nat, block: seq<bv8>, offset: nat, chunk: nat)
    requires BlockRight(m, index, size, block) && offset + chunk <= size && BlockAddr(index, size) + offset == addr + |out|
    requires out == Bytes(m, addr, |out|) && AllReadable(m, addr, |out|)
    ensures |block| == size
    ensures out + block[offset..offset + chunk] == Bytes(m, addr, |out| + chunk) && AllReadable(m, addr, |out| + chunk)
  {
    BlockPart(m, index, size, block, offset, chunk);
    BytesAdded(m, addr, |out|, chunk);
  }

  // The cursor past a part of a block stands in the next one, or the range is
  // done.
  lemma NextCursor(cur: nat, chunk: nat, size: nat, index: nat, left: nat)
    requires size > 0 && index == UnitOf(cur, size) && left > 0
    requires chunk == Min(size - (cur - BlockAddr(index, size)), left)
    requires BlockAddr(index, size) <= cur < BlockAddr(index, size) + size
    ensures chunk > 0
    ensures chunk < left ==> UnitOf(cur + chunk, size) == index + 1
    ensures chunk == left ==> index <= UnitOf(cur + chunk, size) <= index + 1
  {
    hide UnitOf, BlockAddr;
    NextBlock(index, size);
    NextBlock(index + 1, size);
    if chunk < left || cur + chunk == BlockAddr(index + 1, size) {
      BlockHolds(cur + chunk, index + 1, size);
    } else {
      BlockHolds(cur + chunk, index, size);
    }
  }

  lemma BlockHolds(x: nat, index: nat, size: nat)
    requires size > 0 && BlockAddr(index, size) <= x < BlockAddr(index, size) + size
    ensures UnitOf(x, size) == index
  {
    QuotientIs(x, index, size);
  }

  // Every cached block is the medium's.
  ghost predicate AllRight(m: Medium, blocks: map<nat, seq<bv8>>, size: nat) {
    forall i :: i in blocks ==> BlockRight(m, i, size, blocks[i])
  }

  lemma NoBlocks(m: Medium, blocks: map<nat, seq<bv8>>, size: nat)
    requires blocks == map[]
    ensures AllRight(m, blocks, size)
  {
  }

  lemma OneRunBlock(bytes: nat, size: nat)
    requires size > 0
    ensures Max(bytes, size) / size > 0
  {
    QuotientMonotone(size, Max(bytes, size), size);
  }

  lemma FewerBlocks(m: Medium, had: map<nat, seq<bv8>>, now: map<nat, seq<bv8>>, order: seq<nat>, size: nat)
    requires AllRight(m, had, size) && now == BlockCache.Among(had, order)
    ensures AllRight(m, now, size)
  {
  }

  // Loads the blocks of one read. A block that the cache lacks comes in with the
  // missing blocks after it in one disk read, which is cut into blocks as the copy
  // reaches them.
  class RunBlockLoader {
    const reader: FileReader
    const lastIndex: nat
    var runFirst: nat
    var runCount: nat
    var runBytes: seq<bv8>
    var failed: bool
    // Where the reads of this loader start in the reader's log.
    ghost const from: nat

    constructor (reader: FileReader, lastIndex: nat)
      ensures this.reader == reader && this.lastIndex == lastIndex && from == |reader.log|
      ensures runCount == 0 && !failed
    {
      this.reader, this.lastIndex := reader, lastIndex;
      runFirst, runCount, runBytes, failed := 0, 0, [], false;
      from := |reader.log|;
    }

    // The run read is the medium's, and its blocks from the next one on are not
    // cached; the reads of the disk are apart unless one failed.
    ghost predicate Valid(next: nat)
      reads this, reader, reader.cache
    {
      && reader.Valid()
      && (runCount != 0 ==> runFirst <= next < runFirst + runCount && NoneCached(reader.cache.blocks, next, runFirst + runCount))
      && (runCount != 0 ==> RunRight(reader.medium, runFirst, runCount, reader.blockBytes, runBytes))
      && from <= |reader.log|
      && (failed ==> !NoneFailed(reader.log, from))
      && (NoneFailed(reader.log, from) ==> Apart(reader.log, from, BlockAddr(Reached(next), reader.blockBytes)))
    }

    // The first block that no read has reached.
    function Reached(next: nat): nat
      reads this
    {
      if runCount != 0 then runFirst + runCount else next
    }

    // Reads the missing blocks from index on with one disk read, none past the
    // range. False when there is only one, or when the read failed.
    method ReadRun(index: nat) returns (ok: bool)
      requires Valid(index) && runCount == 0 && index !in reader.cache.blocks && index <= lastIndex
      modifies this, reader`log
      ensures Valid(index) && (ok <==> runCount != 0)
      ensures ok ==> runFirst == index
      ensures |old(reader.log)| <= |reader.log| && reader.log[..|old(reader.log)|] == old(reader.log)
    {
      hide AllRight;
      hide Apart;
      hide NoneFailed;
      hide RunRight;
      hide BlockAddr;
      var count := 1;
      while count < reader.maxRunBlocks && index + count <= lastIndex && index + count !in reader.cache.blocks
        invariant 1 <= count && NoneCached(reader.cache.blocks, index, index + count)
        decreases lastIndex + 1 - index - count
      {
        count := count + 1;
      }
      if count == 1 || failed {
        return false;
      }
      var size := reader.blockBytes;
      ghost var had := reader.log;
      var bytes := reader.ReadFromReader(BlockAddr(index, size), BlockAddr(count, size));
      LogGrows(had, from, BlockAddr(index, size), BlockAddr(count, size), bytes.Some?);
      if bytes.None? {
        failed := true;
        return false;
      }
      BlocksAdded(index, count, size);
      RunIsRight(reader.medium, index, count, size, bytes.value);
      runFirst, runCount, runBytes := index, count, bytes.value;
      return true;
    }

    // The block at an index: the cached one, a part of the run, or read alone. None
    // when the disk read fails: nothing is cached then.
    method Get(index: nat) returns (block: Option<seq<bv8>>)
      requires Valid(index) && index <= lastIndex
      modifies this, reader`log, reader.cache
      ensures Valid(index + 1) && reader.cache.holders == old(reader.cache.holders)
      ensures block.Some? ==> BlockRight(reader.medium, index, reader.blockBytes, block.value)
      ensures block.Some? ==> index in reader.cache.blocks && reader.cache.blocks[index] == block.value
      ensures block.None? ==> !AllReadable(reader.medium, BlockAddr(index, reader.blockBytes), reader.blockBytes)
      ensures block.None? ==> !NoneFailed(reader.log, from)
      ensures |old(reader.log)| <= |reader.log| && reader.log[..|old(reader.log)|] == old(reader.log)
    {
      hide AllRight;
      hide Apart;
      hide NoneFailed;
      hide RunRight;
      hide BlockAddr;
      hide BlockRight;
      LaterBlock(index, index + 1, reader.blockBytes);
      var hit := reader.cache.Find(index);
      if hit.Some? {
        Cached(reader.medium, reader.cache.blocks, reader.blockBytes, index);
        ApartTo(reader.log, from, BlockAddr(index, reader.blockBytes), BlockAddr(index + 1, reader.blockBytes));
        return hit;
      }
      var inRun := runCount != 0 && index >= runFirst && index - runFirst < runCount;
      if !inRun {
        inRun := ReadRun(index);
      }
      if !inRun {
        block := LoadAlone(index);
        return;
      }
      var cut := CutBlock(index);
      block := Some(cut);
    }

    // The block at an index that no run brings, read alone.
    method LoadAlone(index: nat) returns (block: Option<seq<bv8>>)
      requires Valid(index) && runCount == 0 && index !in reader.cache.blocks
      modifies this, reader`log, reader.cache
      ensures Valid(index + 1) && reader.cache.holders == old(reader.cache.holders)
      ensures block.Some? ==> BlockRight(reader.medium, index, reader.blockBytes, block.value)
      ensures block.Some? ==> index in reader.cache.blocks && reader.cache.blocks[index] == block.value
      ensures block.None? ==> !AllReadable(reader.medium, BlockAddr(index, reader.blockBytes), reader.blockBytes)
      ensures block.None? ==> !NoneFailed(reader.log, from)
      ensures |old(reader.log)| <= |reader.log| && reader.log[..|old(reader.log)|] == old(reader.log)
    {
      hide AllRight;
      hide Apart;
      hide NoneFailed;
      hide BlockAddr;
      var size := reader.blockBytes;
      ghost var had := reader.log;
      block := reader.ReadFromReader(BlockAddr(index, size), size);
      LogGrows(had, from, BlockAddr(index, size), size, block.Some?);
      NextBlock(index, size);
      if block.Some? {
        OneMoreRight(reader.medium, reader.cache.blocks, size, index, block.value);
        reader.cache.Insert(index, block.value);
      }
    }

    // The block at an index, cut from the run.
    method CutBlock(index: nat) returns (block: seq<bv8>)
      requires Valid(index) && runCount != 0
      modifies this, reader.cache
      ensures Valid(index + 1) && reader.cache.holders == old(reader.cache.holders) && reader.log == old(reader.log)
      ensures BlockRight(reader.medium, index, reader.blockBytes, block)
      ensures index in reader.cache.blocks && reader.cache.blocks[index] == block
    {
      hide AllRight;
      hide Apart;
      hide NoneFailed;
      hide BlockAddr;
      hide BlockRight;
      var size := reader.blockBytes;
      var offset := BlockAddr(index - runFirst, size);
      CutRight(reader.medium, runFirst, runCount, size, runBytes, index);
      block := runBytes[offset..offset + size];
      OneMoreRight(reader.medium, reader.cache.blocks, size, index, block);
      BlockSize(reader.medium, index, size, block);
      reader.cache.Insert(index, block);
      if index - runFirst + 1 == runCount {
        runCount := 0;
      }
    }
  }

  // One more read, from limit on.
  lemma LogGrows(log: seq<DiskRead>, from: nat, addr: int, size: nat, ok: bool)
    requires from <= |log|
    ensures var now := log + [DiskRead(addr, size, ok)];
      && (NoneFailed(now, from) <==> NoneFailed(log, from) && ok)
      && (Apart(log, from, addr) ==> Apart(now, from, addr + size))
  {
    var now := log + [DiskRead(addr, size, ok)];
    assert now[|log|].ok == ok;
    assert forall i :: from <= i < |log| ==> now[i] == log[i];
    if NoneFailed(now, from) {
      assert forall i :: from <= i < |log| ==> now[i].ok;
    }
  }

  lemma ApartTo(log: seq<DiskRead>, from: nat, limit: int, more: int)
    requires limit <= more
    ensures Apart(log, from, limit) ==> Apart(log, from, more)
  {
  }

  lemma RunIsRight(m: Medium, first: nat, count: nat, size: nat, bytes: seq<bv8>)
    requires bytes == Bytes(m, BlockAddr(first, size), BlockAddr(count, size)) && AllReadable(m, BlockAddr(first, size), BlockAddr(count, size))
    ensures RunRight(m, first, count, size, bytes)
  {
  }

  lemma Cached(m: Medium, blocks: map<nat, seq<bv8>>, size: nat, index: nat)
    requires AllRight(m, blocks, size) && index in blocks
    ensures BlockRight(m, index, size, blocks[index])
  {
  }

  lemma BlockSize(m: Medium, index: nat, size: nat, bytes: seq<bv8>)
    requires BlockRight(m, index, size, bytes)
    ensures |bytes| == size
  {
  }

  lemma OneMoreRight(m: Medium, blocks: map<nat, seq<bv8>>, size: nat, index: nat, bytes: seq<bv8>)
    requires AllRight(m, blocks, size) && BlockRight(m, index, size, bytes)
    ensures AllRight(m, blocks[index := bytes], size)
  {
  }

  // A block of a run that was read is the medium's.
  lemma CutRight(m: Medium, first: nat, count: nat, size: nat, bytes: seq<bv8>, index: nat)
    requires RunRight(m, first, count, size, bytes) && first <= index < first + count
    ensures var offset := BlockAddr(index - first, size);
      offset + size <= |bytes| && BlockRight(m, index, size, bytes[offset..offset + size])
  {
    hide BlockAddr;
    var offset := BlockAddr(index - first, size);
    BlocksAdded(first, index - first, size);
    NextBlock(index - first, size);
    LaterBlock(index - first + 1, count, size);
    PartBytes(m, BlockAddr(first, size), BlockAddr(count, size), offset, size);
    PartReadable(m, BlockAddr(first, size), BlockAddr(count, size), BlockAddr(index, size), size);
  }

  ghost predicate RunRight(m: Medium, first: nat, count: nat, size: nat, bytes: seq<bv8>) {
    bytes == Bytes(m, BlockAddr(first, size), BlockAddr(count, size)) && AllReadable(m, BlockAddr(first, size), BlockAddr(count, size))
  }

  ghost predicate NoneCached(blocks: map<nat, seq<bv8>>, from: nat, end: nat) {
    forall i :: from <= i < end ==> i !in blocks
  }
}
