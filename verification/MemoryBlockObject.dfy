/** `BasicMemoryBlock` as the object the service updates in place (shared/shmem.h). */
module MemoryBlockObject {
  import opened Ranges
  import opened ServiceMemory
  import opened MemoryBlocks
  import opened BlocksManager
  import opened Transfers
  import opened MappingRecords

  class MemoryBlock {
    const os: ServiceOs
    var chunks: seq<Chunk>
    var oldMappings: seq<(int, int)>

    function Value(): Block
      reads this
    {
      Block(chunks, oldMappings)
    }

    constructor (os: ServiceOs, src: int, size: int)
      requires os.Valid() && size > 0
      modifies os
      ensures this.os == os && os.Valid()
      ensures os.Value() == NewBlock(old(os.Value()), src, size, os.lastBase).0
      ensures Value() == NewBlock(old(os.Value()), src, size, os.lastBase).1
      ensures Unmapped(old(os.mem), os.lastBase, PageUp(src + size) - PageDown(src))
    {
      this.os := os;
      ghost var was := os.Value();
      var first := PageDown(src);
      var id, fileSize := os.AllocateShmem(src % PAGE_SIZE + size, first);
      var base := os.MmapFile(fileSize, id);
      NewChunkSize(src, size);
      chunks := [Chunk(first, id, fileSize, Some(base))];
      oldMappings := [];
      assert NewChunk(was, first, src % PAGE_SIZE + size) == Chunk(first, id, fileSize, None);
    }

    /** `overlapsPages`: for nonempty ranges, whether the block and the range have an address in common. */
    method OverlapsPages(src: int, size: int) returns (b: bool)
      requires |chunks| > 0
      ensures b == Overlaps(src, src + size, Begin(chunks), End(chunks))
      ensures size > 0 && Begin(chunks) < End(chunks) ==>
                (b <==> exists a :: Range(src, src + size).Has(a) && Range(Begin(chunks), End(chunks)).Has(a))
    {
      OverlapMeansShared(src, src + size, Begin(chunks), End(chunks));
      b := Overlaps(src, src + size, chunks[0].first, chunks[|chunks| - 1].first + chunks[|chunks| - 1].size);
    }

    method AppendChunk(blockEnd: int, srcEnd: int)
      requires |chunks| > 0 && os.Valid() && blockEnd == End(chunks)
      modifies this, os
      ensures os.Valid() && os.lastBase == old(os.lastBase)
      ensures (os.Value(), Value()) == Appended(old(os.Value()), old(Value()), srcEnd)
    {
      var id, fileSize := os.AllocateShmem(srcEnd - blockEnd, blockEnd);
      chunks := chunks + [Chunk(blockEnd, id, fileSize, None)];
    }

    method PrependChunk(blockBegin: int, srcPageBegin: int)
      requires |chunks| > 0 && os.Valid() && blockBegin == Begin(chunks)
      modifies this, os
      ensures os.Valid() && os.lastBase == old(os.lastBase)
      ensures (os.Value(), Value()) == Prepended(old(os.Value()), old(Value()), srcPageBegin)
    {
      var id, fileSize := os.AllocateShmem(blockBegin - srcPageBegin, srcPageBegin);
      chunks := [Chunk(srcPageBegin, id, fileSize, None)] + chunks;
    }

    /** Move every live mapping to the record of old ones and forget it in the chunk. */
    method PreserveExistingMappings()
      modifies this
      ensures |chunks| == |old(chunks)|
      ensures forall i :: 0 <= i < |chunks| ==> chunks[i] == old(chunks)[i].(at := None)
      ensures oldMappings == old(oldMappings) + LiveMappings(old(chunks))
    {
      ghost var was := chunks;
      for i := 0 to |chunks|
        invariant |chunks| == |was|
        invariant forall k :: 0 <= k < i ==> chunks[k] == was[k].(at := None)
        invariant forall k :: i <= k < |was| ==> chunks[k] == was[k]
        invariant oldMappings == old(oldMappings) + LiveMappings(was[..i])
      {
        assert was[..i + 1][..i] == was[..i];
        if chunks[i].at.Some? {
          oldMappings := oldMappings + [(chunks[i].at.value, chunks[i].size)];
          chunks := chunks[i := chunks[i].(at := None)];
        }
      }
      assert was[..|was|] == was;
    }

    /** `remapChunksAsContiguousMemory`. */
    method RemapChunksAsContiguousMemory()
      requires |chunks| > 0 && os.Valid()
      modifies this, os
      ensures os.Valid()
      ensures (os.Value(), Value()) == Remapped(old(os.Value()), old(Value()), os.lastBase)
      ensures Unmapped(old(os.mem), os.lastBase, End(old(chunks)) - Begin(old(chunks)))
    {
      ghost var was := chunks;
      PreserveExistingMappings();
      var last := chunks[|chunks| - 1];
      var blockBegin := chunks[0].first;
      var base := os.MmapAnonymous(last.first + last.size - blockBegin);
      OverlayChunks(base, blockBegin, was);
    }

    /** The MAP_FIXED loop: every chunk goes to its own offset in the new stretch. */
    method OverlayChunks(base: int, blockBegin: int, ghost was: seq<Chunk>)
      requires os.Valid() && PlacedUpTo(was, chunks, 0, base - blockBegin)
      modifies this, os
      ensures os.Valid() && os.lastBase == old(os.lastBase)
      ensures chunks == Placed(was, base - blockBegin) && oldMappings == old(oldMappings)
      ensures os.mem == MapChunks(old(os.mem), was, base - blockBegin)
      ensures os.nextId == old(os.nextId) && os.homes == old(os.homes)
    {
      ghost var delta := base - blockBegin;
      ghost var mem0 := os.mem;
      for i := 0 to |chunks|
        invariant os.Valid() && os.lastBase == old(os.lastBase)
        invariant oldMappings == old(oldMappings)
        invariant PlacedUpTo(was, chunks, i, delta)
        invariant os.nextId == old(os.nextId) && os.homes == old(os.homes)
        invariant os.mem == MapUpTo(mem0, was, i, delta)
      {
        ghost var before := chunks;
        OverlayChunk(i, base + (chunks[i].first - blockBegin));
        PlacedOneMore(was, before, chunks, i, delta);
      }
      PlacedPointwise(was, chunks, delta);
    }

    method OverlayChunk(i: nat, destAddress: int)
      requires os.Valid() && i < |chunks|
      modifies this, os
      ensures os.Valid() && os.lastBase == old(os.lastBase)
      ensures chunks == old(chunks)[i := old(chunks)[i].(at := Some(destAddress))] && oldMappings == old(oldMappings)
      ensures os.mem == WithFile(old(os.mem), destAddress, old(chunks)[i].size, old(chunks)[i].id)
      ensures os.nextId == old(os.nextId) && os.homes == old(os.homes)
    {
      var chunk := chunks[i];
      os.MmapFixed(destAddress, chunk.size, chunk.id);
      chunks := chunks[i := chunk.(at := Some(destAddress))];
    }

    /** `extendBlockIfRequired`. */
    method ExtendBlockIfRequired(src: int, size: int)
      requires |chunks| > 0 && os.Valid()
      modifies this, os
      ensures os.Valid()
      ensures (os.Value(), Value()) == Extended(old(os.Value()), old(Value()), src, size, os.lastBase)
      ensures !RequiresExtension(old(Value()), src, size) ==> os.lastBase == old(os.lastBase)
      ensures RequiresExtension(old(Value()), src, size) ==>
                var w := MemoryBlocks.Widened(old(os.Value()), old(Value()), src, size);
                Unmapped(w.0.mem, os.lastBase, End(w.1.chunks) - Begin(w.1.chunks))
    {
      ghost var os0, b0 := os.Value(), Value();
      var srcPageBegin := PageDown(src);
      var shouldRemapChunks := false;
      if srcPageBegin < chunks[0].first {
        PrependChunk(chunks[0].first, srcPageBegin);
        shouldRemapChunks := true;
      }
      var blockEnd := chunks[|chunks| - 1].first + chunks[|chunks| - 1].size;
      if blockEnd < src + size {
        AppendChunk(blockEnd, src + size);
        shouldRemapChunks := true;
      }
      assert (os.Value(), Value()) == MemoryBlocks.Widened(os0, b0, src, size);
      assert shouldRemapChunks == RequiresExtension(b0, src, size);
      if shouldRemapChunks {
        RemapChunksAsContiguousMemory();
      }
    }

    /** `merge`: takes over the other block's chunks and mappings, leaving it empty. */
    method Merge(rhs: MemoryBlock)
      requires |chunks| > 0 && |rhs.chunks| > 0 && rhs != this && rhs.os == os && os.Valid()
      requires End(chunks) <= Begin(rhs.chunks)
      modifies this, rhs, os
      ensures os.Valid() && os.lastBase == old(os.lastBase)
      ensures (os.Value(), Value()) == MergedWith(old(os.Value()), old(Value()), old(rhs.Value()))
      ensures rhs.Value() == Block([], [])
    {
      var lhsEnd := chunks[|chunks| - 1].first + chunks[|chunks| - 1].size;
      var rhsBegin := rhs.chunks[0].first;
      if lhsEnd != rhsBegin {
        AppendChunk(lhsEnd, rhsBegin);
      }
      chunks := chunks + rhs.chunks;
      oldMappings := oldMappings + rhs.oldMappings;
      rhs.chunks := [];
      rhs.oldMappings := [];
    }

    /** `getCountOfOverlappingChunks`. */
    method GetCountOfOverlappingChunks(src: int, size: int) returns (count: nat)
      ensures count == |RangeDescs(chunks, MemChunk(src, size))|
    {
      count := 0;
      for i := 0 to |chunks|
        invariant count == |Descs(chunks, i, src, src + size)|
      {
        if ChunkOverlaps(chunks[i], src, src + size) {
          count := count + 1;
        }
      }
    }

    /** `appendOverlappingChunks`: fills the array from `appended` on, as far as the room given allows. */
    method AppendOverlappingChunks(src: int, size: int, appended: nat, descs: array<TransferDesc>, room: nat)
      returns (ok: bool, appended': nat)
      requires appended <= room <= descs.Length
      modifies descs
      ensures ok <==> appended + |RangeDescs(chunks, MemChunk(src, size))| <= room
      ensures appended <= appended' <= room
      ensures descs[..appended] == old(descs[..appended])
      ensures ok ==> descs[..appended'] == old(descs[..appended]) + RangeDescs(chunks, MemChunk(src, size))
    {
      appended' := appended;
      for i := 0 to |chunks|
        invariant appended' == appended + |Descs(chunks, i, src, src + size)| <= room
        invariant descs[..appended'] == old(descs[..appended]) + Descs(chunks, i, src, src + size)
      {
        if ChunkOverlaps(chunks[i], src, src + size) {
          if appended' >= room {
            FewerDescs(chunks, i + 1, src, src + size);
            return false, appended';
          }
          var c := chunks[i];
          var copyBegin := if c.first > src then c.first else src;
          var copyEnd := if c.End() < src + size then c.End() else src + size;
          descs[appended'] := TransferDesc(c.id, c.size, copyEnd - copyBegin, copyBegin - c.first, copyBegin);
          appended' := appended' + 1;
        }
      }
      return true, appended';
    }

    /** The destructor: unmaps the retired mappings, then frees the chunks with theirs. */
    method Destroy()
      requires os.Valid()
      modifies os
      ensures os.Valid() && os.mem == UnmapAll(old(os.mem), BlockRecords(Value()))
    {
      ghost var mem0 := os.mem;
      for i := 0 to |oldMappings|
        invariant os.Valid() && os.mem == UnmapAll(mem0, oldMappings[..i])
      {
        os.Munmap(oldMappings[i].0, oldMappings[i].1);
        UnmapOneMore(mem0, oldMappings[..i], oldMappings[i]);
        assert oldMappings[..i + 1] == oldMappings[..i] + [oldMappings[i]];
      }
      assert oldMappings[..|oldMappings|] == oldMappings;
      ghost var mem1 := os.mem;
      for i := 0 to |chunks|
        invariant os.Valid() && os.mem == UnmapAll(mem1, LiveMappings(chunks[..i]))
      {
        assert chunks[..i + 1][..i] == chunks[..i];
        if chunks[i].at.Some? {
          os.Munmap(chunks[i].at.value, chunks[i].size);
          UnmapOneMore(mem1, LiveMappings(chunks[..i]), (chunks[i].at.value, chunks[i].size));
        } else {
          assert LiveMappings(chunks[..i + 1]) == LiveMappings(chunks[..i]);
        }
      }
      assert chunks[..|chunks|] == chunks;
      UnmapConcat(mem0, oldMappings, LiveMappings(chunks));
    }

    /** `translate`: null when the address is outside the block. */
    method TranslateAddress(src: int) returns (p: Option<int>)
      requires |chunks| > 0 && chunks[0].at.Some?
      ensures p == Translate(Value(), src)
    {
      var blockBegin := chunks[0].first;
      var blockEnd := chunks[|chunks| - 1].first + chunks[|chunks| - 1].size;
      if blockBegin <= src < blockEnd {
        return Some(chunks[0].at.value + (src - blockBegin));
      }
      return None;
    }
  }

  lemma {:induction false} OverlapMeansShared(srcBegin: int, srcEnd: int, begin: int, end: int)
    ensures srcBegin < srcEnd && begin < end ==>
              (Overlaps(srcBegin, srcEnd, begin, end)
               <==> exists a :: Range(srcBegin, srcEnd).Has(a) && Range(begin, end).Has(a))
  {
    var a := if srcBegin < begin then begin else srcBegin;
    if srcBegin < srcEnd && begin < end && Overlaps(srcBegin, srcEnd, begin, end) {
      assert Range(srcBegin, srcEnd).Has(a) && Range(begin, end).Has(a);
    }
  }

  /** The first i chunks are placed, the others not yet mapped. */
  ghost predicate PlacedUpTo(was: seq<Chunk>, now: seq<Chunk>, i: nat, delta: int) {
    && |now| == |was| && i <= |was|
    && (forall k :: 0 <= k < i ==> now[k] == was[k].(at := Some(was[k].first + delta)))
    && (forall k :: i <= k < |was| ==> now[k] == was[k].(at := None))
  }

  lemma {:induction false} PlacedOneMore(was: seq<Chunk>, before: seq<Chunk>, now: seq<Chunk>, i: nat, delta: int)
    requires PlacedUpTo(was, before, i, delta) && i < |was|
    requires now == before[i := before[i].(at := Some(before[i].first + delta))]
    ensures PlacedUpTo(was, now, i + 1, delta)
  {
  }

  lemma {:induction false} PlacedPointwise(was: seq<Chunk>, now: seq<Chunk>, delta: int)
    requires PlacedUpTo(was, now, |was|, delta)
    ensures now == Placed(was, delta)
  {
  }
}
