/** `BasicMemoryBlocksManager` and `remapPointer` as the code that updates the map of blocks in place
    (shared/shmem.h, service/service.h), proved against the functions on values. */
module BlocksManagerObject {
  import opened Ranges
  import opened ServiceMemory
  import opened MemoryBlocks
  import opened BlockGrowth
  import opened BlocksManager
  import opened BlockRegistration
  import opened MemoryBlockObject
  import opened PointerStability
  import opened Transfers
  import opened MappingRecords

  /** A map node: the key and the block it owns. */
  datatype Slot = Slot(key: int, block: MemoryBlock)

  /** The blocks of the nodes [i, j), which are no other node's when all nodes own distinct blocks. */
  function BlocksBetween(slots: seq<Slot>, i: nat, j: nat): (bs: seq<MemoryBlock>)
    requires i <= j <= |slots|
    ensures |bs| == j - i && forall k :: 0 <= k < |bs| ==> bs[k] == slots[i + k].block
    ensures (forall x, y :: 0 <= x < y < |slots| ==> slots[x].block != slots[y].block) ==>
              forall k :: 0 <= k < |slots| && !(i <= k < j) ==> slots[k].block !in bs
  {
    if i == j then [] else BlocksBetween(slots, i, j - 1) + [slots[j - 1].block]
  }

  ghost function BlocksIn(slots: seq<Slot>): set<object> {
    set i | 0 <= i < |slots| :: slots[i].block
  }

  lemma {:induction false} SplicedBlocks(slots: seq<Slot>, i: nat, j: nat, x: Slot)
    requires i <= j <= |slots|
    ensures BlocksIn(slots[..i] + [x] + slots[j..]) <= BlocksIn(slots) + {x.block}
  {
  }

  class Manager {
    const os: ServiceOs
    var slots: seq<Slot>
    ghost var entries: seq<Entry>

    ghost function Repr(): set<object>
      reads this
    {
      {this, os} + BlocksIn(slots)
    }

    ghost function State(): BlocksManager.State
      reads this, os
    {
      BlocksManager.State(os.Value(), entries)
    }

    /** The nodes own distinct blocks on one operating system, and `entries` mirrors them. */
    ghost predicate Represents()
      reads Repr()
    {
      && os.Valid()
      && |entries| == |slots|
      && (forall i :: 0 <= i < |slots| ==>
          slots[i].block.os == os && entries[i] == Entry(slots[i].key, slots[i].block.Value()))
      && (forall i, j :: 0 <= i < j < |slots| ==> slots[i].block != slots[j].block)
    }

    ghost predicate Valid()
      reads Repr()
    {
      Represents() && Inv(State()) && Keyed(entries)
    }

    constructor (os: ServiceOs)
      requires os.Value() == Os(map[], 0, map[]) && os.Valid()
      ensures this.os == os && Valid() && slots == [] && AllRecordedOnce(State())
    {
      this.os := os;
      slots := [];
      entries := [];
    }

    /** The mirror has the same keys; reads no block. */
    ghost predicate KeysMirrored()
      reads this
    {
      |entries| == |slots| && forall i :: 0 <= i < |slots| ==> entries[i].key == slots[i].key
    }

    method LowerBoundOf(x: int) returns (p: nat)
      requires KeysMirrored()
      ensures p == LowerBound(entries, x)
    {
      p := 0;
      while p < |slots| && slots[p].key < x
        invariant p <= |slots|
        invariant forall i :: 0 <= i < p ==> entries[i].key < x
      {
        p := p + 1;
      }
      LowerBoundIsUnique(entries, x, p);
    }

    /** `getOverlappingBlocksBegin`: only the neighbours of the lower bound need looking at. */
    method GetOverlappingBlocksBegin(src: int, size: int) returns (p: nat)
      requires Represents() && Keyed(entries) && size > 0
      ensures p == FirstOverlap(entries, src, src + size)
    {
      var lb := LowerBoundOf(src);
      if lb > 0 {
        var b := slots[lb - 1].block.OverlapsPages(src, size);
        if b {
          PreviousOverlaps(entries, src, size, lb);
          return lb - 1;
        }
      }
      if lb < |slots| {
        var b := slots[lb].block.OverlapsPages(src, size);
        if b {
          CurrentOverlaps(entries, src, size, lb);
          return lb;
        }
      }
      NoneOverlaps(entries, src, size, lb);
      return |slots|;
    }

    /** `getMemoryBlockWhichIncludesChunk`. */
    method FindBlock(src: int, size: int) returns (found: Option<nat>)
      requires Represents() && Keyed(entries) && size > 0
      ensures found == Lookup(entries, src, size)
    {
      var first := GetOverlappingBlocksBegin(src, size);
      if first == |slots| {
        return None;
      }
      var last := LowerBoundOf(src + size);
      if last - first != 1 {
        return None;
      }
      if RequiresExtension(slots[first].block.Value(), src, size) {
        return None;
      }
      return Some(first);
    }

    /** The block including a requested range. */
    method BlockFor(r: MemChunk) returns (found: Option<nat>)
      requires Represents() && Keyed(entries) && r.size > 0
      ensures found.None? ==> ChunksFor(entries, r).None?
      ensures found.Some? ==> found.value < |slots| && ChunksFor(entries, r) == Some(slots[found.value].block.chunks)
    {
      found := FindBlock(r.address, r.size);
    }

    /** The number of descriptors of one range whose block has chunks c. */
    method CountFor(r: MemChunk, ghost c: Option<seq<Chunk>>) returns (n: Option<nat>)
      requires Represents() && Keyed(entries) && r.size > 0 && c == ChunksFor(entries, r)
      ensures n.None? <==> c.None?
      ensures n.Some? ==> n.value == |RangeDescs(c.value, r)|
    {
      var found := BlockFor(r);
      if found.None? {
        return None;
      }
      var k := slots[found.value].block.GetCountOfOverlappingChunks(r.address, r.size);
      return Some(k);
    }

    /** `getCountOfRequiredTransferDescs`, for ranges backed by blocks. */
    method GetCountOfRequiredTransferDescs(list: seq<MemChunk>) returns (ok: bool, count: nat)
      requires Represents() && Keyed(entries) && forall i :: 0 <= i < |list| ==> list[i].size > 0
      ensures ok <==> AllDescs(entries, list).Some?
      ensures ok ==> count == |AllDescs(entries, list).value|
    {
      ghost var cs := Resolve(entries, list);
      count := 0;
      for i := 0 to |list|
        invariant ResolvedDescs(cs, list, i).Some? && count == |ResolvedDescs(cs, list, i).value|
      {
        var n := CountFor(list[i], cs[i]);
        if n.None? {
          FailureStays(cs, list, i + 1, 0, AllDescs(entries, list));
          return false, count;
        }
        count := count + n.value;
      }
      return true, count;
    }

    /** Appends the descriptors of one range whose block has chunks c. */
    method AppendFor(r: MemChunk, ghost c: Option<seq<Chunk>>, appended: nat, descs: array<TransferDesc>, room: nat)
      returns (ok: bool, appended': nat)
      requires Represents() && Keyed(entries) && r.size > 0 && c == ChunksFor(entries, r)
      requires appended <= room <= descs.Length
      modifies descs
      ensures ok <==> c.Some? && appended + |RangeDescs(c.value, r)| <= room
      ensures Represents() && appended' <= room
      ensures ok ==> descs[..appended'] == old(descs[..appended]) + RangeDescs(c.value, r)
    {
      var found := BlockFor(r);
      if found.None? {
        return false, appended;
      }
      ok, appended' := slots[found.value].block.AppendOverlappingChunks(r.address, r.size, appended, descs, room);
    }

    /** `getRequiredTransferDescs`, for ranges backed by blocks: succeeds exactly when every range is in a
        block and the room suffices, and then fills in all descriptors. */
    method GetRequiredTransferDescs(
      list: seq<MemChunk>, descs: array<TransferDesc>, room: nat)
      returns (ok: bool, count: nat)
      requires Represents() && Keyed(entries) && room <= descs.Length
      requires forall i :: 0 <= i < |list| ==> list[i].size > 0
      modifies descs
      ensures ok <==> AllDescs(entries, list).Some? && |AllDescs(entries, list).value| <= room
      ensures ok ==> count <= room && Some(descs[..count]) == AllDescs(entries, list)
    {
      ghost var cs, all := Resolve(entries, list), AllDescs(entries, list);
      count := 0;
      var i := 0;
      ok := true;
      while ok && i < |list|
        invariant Represents() && count <= room && i <= |list|
        invariant FilledUpTo(cs, list, i, ok, descs[..count], all, room)
      {
        ok, count := AppendNext(list, i, cs, all, count, descs, room);
        i := i + 1;
      }
    }

    /** One round of the loop. */
    method AppendNext(
      list: seq<MemChunk>, i: nat, ghost cs: seq<Option<seq<Chunk>>>, ghost all: Option<seq<TransferDesc>>,
      count: nat, descs: array<TransferDesc>, room: nat)
      returns (ok: bool, count': nat)
      requires Represents() && Keyed(entries) && count <= room <= descs.Length
      requires i < |list| == |cs| && list[i].size > 0 && cs[i] == ChunksFor(entries, list[i])
      requires all == ResolvedDescs(cs, list, |list|) && FilledUpTo(cs, list, i, true, descs[..count], all, room)
      modifies descs
      ensures Represents() && count' <= room && FilledUpTo(cs, list, i + 1, ok, descs[..count'], all, room)
    {
      DescsStep(cs, list, i, descs[..count]);
      FailureStays(cs, list, i + 1, room, all);
      ok, count' := AppendFor(list[i], cs[i], count, descs, room);
    }

    /** Replaces the nodes [i, j) by one, keeping the mirror in step. */
    method Replace(i: nat, j: nat, key: int, block: MemoryBlock)
      requires i <= j <= |slots| && OthersIntact(i, j, block)
      modifies this
      ensures slots == old(slots)[..i] + [Slot(key, block)] + old(slots)[j..]
      ensures entries == Spliced(old(entries), i, j, Entry(key, block.Value()))
      ensures Represents()
    {
      ghost var was, es := slots, entries;
      SpliceElements(was, i, j, Slot(key, block));
      SpliceElements(es, i, j, Entry(key, block.Value()));
      slots := slots[..i] + [Slot(key, block)] + slots[j..];
      entries := Spliced(entries, i, j, Entry(key, block.Value()));
      forall k | 0 <= k < |slots|
        ensures slots[k].block.os == os && entries[k] == Entry(slots[k].key, slots[k].block.Value())
      {
        var o := if k < i then k else k - i - 1 + j;
        assert k != i ==> slots[k] == was[o] && entries[k] == es[o];
      }
      forall x, y | 0 <= x < y < |slots| ensures slots[x].block != slots[y].block {
        var o, p := if x < i then x else x - i - 1 + j, if y < i then y else y - i - 1 + j;
        assert (x != i ==> slots[x] == was[o]) && (y != i ==> slots[y] == was[p]);
      }
    }

    /** The new-block branch of `registerMemoryBlock`. */
    method RegisterNewBlock(src: int, size: int) returns (p: nat)
      requires Valid() && size > 0 && FirstOverlap(entries, src, src + size) == |entries|
      modifies this, os
      ensures Represents() && p < |slots| && fresh(Repr() - old(Repr()))
      ensures p == TargetIndex(old(State()), src, size)
      ensures FreshBase(old(State()), src, size, os.lastBase)
      ensures State() == Registered(old(State()), src, size, os.lastBase)
    {
      ghost var s := State();
      p := LowerBoundOf(PageDown(src));
      KeyIsNew(entries, src, size, p);
      assert p < |slots| ==> slots[p].key != PageDown(src);
      InsertBlock(p, src, size);
    }

    /** Makes a new block and inserts its node at position p. */
    method InsertBlock(p: nat, src: int, size: int)
      requires Represents() && p <= |slots| && size > 0
      modifies this, os
      ensures Represents() && p < |slots| && fresh(Repr() - old(Repr()))
      ensures os.Value() == NewBlock(old(os.Value()), src, size, os.lastBase).0
      ensures entries == Spliced(old(entries), p, p,
                                 Entry(PageDown(src), NewBlock(old(os.Value()), src, size, os.lastBase).1))
      ensures Unmapped(old(os.mem), os.lastBase, PageUp(src + size) - PageDown(src))
    {
      var block := new MemoryBlock(os, src, size);
      SplicedBlocks(slots, p, p, Slot(PageDown(src), block));
      Replace(p, p, PageDown(src), block);
    }

    /** The merging branch of `registerMemoryBlock`, including the re-keying of the node. */
    method RegisterOverlapping(i: nat, j: nat, src: int, size: int)
      requires Represents() && Keyed(entries) && size > 0
      requires i == FirstOverlap(entries, src, src + size) < j == LowerBound(entries, src + size)
      requires Mergeable(os.Value(), entries[i].block, BlocksOf(entries[i + 1..j]))
      modifies Repr()
      ensures Represents() && i < |slots| && Repr() <= old(Repr())
      ensures FreshBase(old(State()), src, size, os.lastBase)
      ensures State() == Registered(old(State()), src, size, os.lastBase)
    {
      ghost var s := State();
      StretchKeyFits(s, src, size, i, j);
      ghost var b := AbsorbAndRekey(i, j, src, size, BlocksOf(entries[i + 1..j]));
      RegisteredByAbsorbing(s, src, size, os.lastBase, i, j, os.Value(), b);
    }

    /** Merges the nodes [i, j) into the first, whose block becomes b. */
    method AbsorbAndRekey(i: nat, j: nat, src: int, size: int, ghost rest: seq<Block>) returns (ghost b: Block)
      requires Represents() && i < j <= |slots| && size > 0
      requires |rest| == j - i - 1 && forall k :: 0 <= k < |rest| ==> rest[k] == entries[i + 1 + k].block
      requires Mergeable(os.Value(), entries[i].block, rest)
      requires KeyFits(entries, i, j, SpanOf(entries[i].block, rest, src, size).start)
      modifies Repr()
      ensures Represents() && i < |slots| && Repr() <= old(Repr()) && |b.chunks| > 0
      ensures (os.Value(), b) == Absorbed(old(os.Value()), old(entries)[i].block, rest, src, size, os.lastBase)
      ensures entries == Spliced(old(entries), i, j, Entry(b.chunks[0].first, b))
      ensures i + 1 < j || RequiresExtension(old(entries)[i].block, src, size) ==>
                Unmapped(old(os.mem), os.lastBase, SpanOf(old(entries)[i].block, rest, src, size).Size())
    {
      AbsorbedBegins(os.Value(), entries[i].block, rest, src, size);
      AbsorbStretch(i, j, src, size, rest);
      b := slots[i].block.Value();
      Rekey(i, j);
    }

    /** Erases the absorbed nodes and re-inserts the absorbing one under its new first page: no remaining node
        has that key, so the insertion succeeds, and it puts the node back where it was. */
    method Rekey(i: nat, j: nat)
      requires i < j <= |slots| && OthersIntact(i, j, slots[i].block) && |slots[i].block.chunks| > 0
      requires KeyFits(entries, i, j, slots[i].block.chunks[0].first)
      modifies this
      ensures Represents() && i < |slots| && Repr() <= old(Repr())
      ensures slots[i].key == old(slots[i].block.chunks[0].first) && slots[i].block == old(slots[i].block)
      ensures entries == Spliced(old(entries), i, j, Entry(slots[i].key, slots[i].block.Value()))
      ensures KeyIsFree(Erased(old(entries), i, j), i, slots[i].key)
    {
      RekeyedKeyIsFree(entries, i, j, slots[i].block.chunks[0].first);
      SplicedBlocks(slots, i, j, Slot(slots[i].block.chunks[0].first, slots[i].block));
      Replace(i, j, slots[i].block.chunks[0].first, slots[i].block);
    }

    /** The blocks outside [i, j) still match their mirror entries and none of them is the given block. */
    ghost predicate OthersIntact(i: nat, j: nat, block: MemoryBlock)
      reads Repr()
    {
      && os.Valid() && |entries| == |slots| && block.os == os
      && (forall k :: 0 <= k < |slots| && !(i <= k < j) ==>
            slots[k].block != block && slots[k].block.os == os &&
                entries[k] == Entry(slots[k].key, slots[k].block.Value()))
      && (forall x, y :: 0 <= x < y < |slots| ==> slots[x].block != slots[y].block)
    }

    method AbsorbStretch(i: nat, j: nat, src: int, size: int, ghost rest: seq<Block>)
      requires Represents() && i < j <= |slots| && size > 0
      requires |rest| == j - i - 1 && forall k :: 0 <= k < |rest| ==> rest[k] == entries[i + 1 + k].block
      requires Mergeable(os.Value(), entries[i].block, rest)
      modifies Repr()
      ensures slots == old(slots) && entries == old(entries)
      ensures OthersIntact(i, j, slots[i].block)
      ensures (os.Value(), slots[i].block.Value())
              == Absorbed(old(os.Value()), entries[i].block, rest, src, size, os.lastBase)
      ensures i + 1 < j || RequiresExtension(entries[i].block, src, size) ==>
                Unmapped(old(os.mem), os.lastBase, SpanOf(entries[i].block, rest, src, size).Size())
    {
      var others := BlocksBetween(slots, i + 1, j);
      Absorb(slots[i].block, others, entries[i].block, rest, src, size);
    }

    /** The two branches of `registerMemoryBlock`. */
    method RegisterInEitherBranch(src: int, size: int) returns (k: nat)
      requires Valid() && size > 0
      modifies Repr()
      ensures Represents() && fresh(Repr() - old(Repr()))
      ensures k == TargetIndex(old(State()), src, size) && k < |slots|
      ensures FreshBase(old(State()), src, size, os.lastBase)
      ensures State() == Registered(old(State()), src, size, os.lastBase)
    {
      k := FirstToMerge(src, size);
      if k == |slots| {
        k := RegisterNewBlock(src, size);
      } else {
        RegisterIntoStretch(k, src, size);
      }
    }

    /** Looking for overlapping blocks changes nothing. */
    method FirstToMerge(src: int, size: int) returns (k: nat)
      requires Valid() && size > 0
      ensures Valid() && State() == old(State()) && Repr() == old(Repr()) && slots == old(slots)
      ensures k == FirstOverlap(entries, src, src + size)
    {
      k := GetOverlappingBlocksBegin(src, size);
    }

    /** Finds the end of the overlapped stretch and merges it. */
    method RegisterIntoStretch(k: nat, src: int, size: int)
      requires Valid() && size > 0 && k == FirstOverlap(entries, src, src + size) < |entries|
      modifies Repr()
      ensures Represents() && k < |slots| && Repr() <= old(Repr())
      ensures FreshBase(old(State()), src, size, os.lastBase)
      ensures State() == Registered(old(State()), src, size, os.lastBase)
    {
      var j := LowerBoundOf(src + size);
      StretchIsReady(State(), src, size, k, j);
      RegisterOverlapping(k, j, src, size);
    }

    /** `registerMemoryBlock`: one registration step, returning the node of the block that took the range. */
    method RegisterMemoryBlock(src: int, size: int) returns (k: nat)
      requires Valid() && size > 0
      modifies Repr()
      ensures Valid() && fresh(Repr() - old(Repr()))
      ensures FreshBase(old(State()), src, size, os.lastBase)
      ensures State() == Registered(old(State()), src, size, os.lastBase)
      ensures k == TargetIndex(old(State()), src, size) && k < |slots| && InBlock(entries[k], src, src + size)
      ensures Translated(old(State()), Call(src, size, os.lastBase), State(), k)
      ensures old(AllRecordedOnce(State())) ==> AllRecordedOnce(State())
    {
      ghost var s := State();
      k := RegisterInEitherBranch(src, size);
      RegisteredIsValid(s, src, size, os.lastBase, State());
      ReturnedIsTranslation(s, Call(src, size, os.lastBase), State(), k);
      RegisterKeepsAllOnce(s, src, size, os.lastBase);
    }

    /** Destruction of the map: every mapping ever made for it is unmapped, once. */
    method Destroy()
      requires Represents()
      modifies os
      ensures os.Valid() && os.mem == UnmapAll(old(os.mem), AllRecords(entries))
      ensures old(AllRecordedOnce(State())) ==> os.mem == map[]
    {
      ghost var s := State();
      for i := 0 to |slots|
        invariant os.Valid() && os.mem == UnmapAll(s.os.mem, AllRecords(entries[..i]))
      {
        slots[i].block.Destroy();
        assert entries[..i + 1][..i] == entries[..i];
        UnmapConcat(s.os.mem, AllRecords(entries[..i]), BlockRecords(entries[i].block));
      }
      assert entries[..|slots|] == entries;
      if AllRecordedOnce(s) {
        UnmappingIsExact(s);
      }
    }

    /** `remapPointer`: the address the service may use for the client's. */
    method RemapPointer(src: int, size: int) returns (p: Option<int>)
      requires Valid() && size > 0
      modifies Repr()
      ensures Valid() && fresh(Repr() - old(Repr()))
      ensures FreshBase(old(State()), src, size, os.lastBase)
      ensures State() == Registered(old(State()), src, size, os.lastBase)
      ensures p == Returned(old(State()), Call(src, size, os.lastBase), State()) && p.Some?
    {
      var k := RegisterMemoryBlock(src, size);
      p := TranslateIn(k, src);
    }

    /** Translation changes nothing. */
    method TranslateIn(k: nat, src: int) returns (p: Option<int>)
      requires Valid() && k < |entries|
      requires |entries[k].block.chunks| > 0 && entries[k].block.chunks[0].at.Some?
      ensures Valid() && State() == old(State()) && Repr() == old(Repr()) && os.lastBase == old(os.lastBase)
      ensures p == Translate(entries[k].block, src)
    {
      p := slots[k].block.TranslateAddress(src);
    }
  }

  lemma {:induction false} RegisteredIsValid(
    s: BlocksManager.State, src: int, size: int, base: int, s': BlocksManager.State)
    requires Inv(s) && Keyed(s.entries) && size > 0 && FreshBase(s, src, size, base)
    requires s' == Registered(s, src, size, base)
    ensures Inv(s') && Keyed(s'.entries)
    ensures var k := TargetIndex(s, src, size); k < |s'.entries| && InBlock(s'.entries[k], src, src + size)
  {
    RegisterKeepsInvariant(s, src, size, base);
    InvIsKeyed(s');
  }

  lemma {:induction false} RegisterKeepsAllOnce(s: BlocksManager.State, src: int, size: int, base: int)
    requires Inv(s) && Keyed(s.entries) && size > 0 && FreshBase(s, src, size, base)
    ensures AllRecordedOnce(s) ==> AllRecordedOnce(Registered(s, src, size, base))
  {
    if AllRecordedOnce(s) {
      forall v ensures RecordedOnce(Registered(s, src, size, base), v) {
        assert RecordedOnce(s, v);
        RegisterRecordsOnce(s, src, size, base, v);
      }
    }
  }

  lemma {:induction false} FirstChunkIsMapped(s: BlocksManager.State, k: nat)
    requires Inv(s) && k < |s.entries|
    ensures |s.entries[k].block.chunks| > 0 && s.entries[k].block.chunks[0].at.Some?
  {
    assert EntryOk(s.os, s.entries[k]);
    assert ChunkMapped(s.os.mem, s.entries[k].block.chunks[0]);
  }

  lemma {:induction false} ReturnedIsTranslation(s: BlocksManager.State, c: Call, s': BlocksManager.State, k: nat)
    requires Inv(s') && c.size > 0 && k == TargetIndex(s, c.src, c.size) && k < |s'.entries|
    requires InBlock(s'.entries[k], c.src, c.src + c.size)
    ensures Translated(s, c, s', k)
  {
    FirstChunkIsMapped(s', k);
  }

  /** Block k is mapped, and the call's result is its translation, not null. */
  ghost predicate Translated(s: BlocksManager.State, c: Call, s': BlocksManager.State, k: nat) {
    && k < |s'.entries| && |s'.entries[k].block.chunks| > 0 && s'.entries[k].block.chunks[0].at.Some?
    && Returned(s, c, s') == Translate(s'.entries[k].block, c.src) && Returned(s, c, s').Some?
  }

  // ---------- re-keying ----------

  /** The key lies between those of the nodes before i and of the nodes from j on. */
  ghost predicate KeyFits(entries: seq<Entry>, i: nat, j: nat, key: int) {
    && (forall k :: 0 <= k < i && k < |entries| ==> entries[k].key < key)
    && (forall k :: j <= k < |entries| ==> key < entries[k].key)
  }

  /** The nodes that remain when [i, j) are gone. */
  function Erased(entries: seq<Entry>, i: nat, j: nat): seq<Entry>
    requires i <= j <= |entries|
  {
    entries[..i] + entries[j..]
  }

  /** No node has the key, and a node inserted under it goes to position p. */
  ghost predicate KeyIsFree(entries: seq<Entry>, p: nat, key: int) {
    LowerBound(entries, key) == p && forall k :: 0 <= k < |entries| ==> entries[k].key != key
  }

  lemma {:induction false} RekeyedKeyIsFree(entries: seq<Entry>, i: nat, j: nat, key: int)
    requires i <= j <= |entries| && KeyFits(entries, i, j, key)
    ensures KeyIsFree(Erased(entries, i, j), i, key)
  {
    var rest := Erased(entries, i, j);
    forall k | 0 <= k < |rest| ensures if k < i then rest[k].key < key else key < rest[k].key {
      assert rest[k] == if k < i then entries[k] else entries[k - i + j];
    }
    LowerBoundIsUnique(rest, key, i);
  }

  lemma {:induction false} AbsorbedBegins(os: Os, first: Block, rest: seq<Block>, src: int, size: int)
    requires Mergeable(os, first, rest) && size > 0
    ensures forall base ::
              Begin(Absorbed(os, first, rest, src, size, base).1.chunks) == SpanOf(first, rest, src, size).start
  {
    MergedAndWidened(os, first, rest, src, size);
  }

  /** The first page of the merged block falls between the nodes before and after the stretch. */
  lemma {:induction false} StretchKeyFits(s: BlocksManager.State, src: int, size: int, i: nat, j: nat)
    requires Keyed(s.entries) && size > 0
    requires i == FirstOverlap(s.entries, src, src + size) < j == LowerBound(s.entries, src + size)
    ensures KeyFits(s.entries, i, j, SpanOf(s.entries[i].block, BlocksOf(s.entries[i + 1..j]), src, size).start)
  {
    SpanOfStretch(s, src, size, i, j);
    forall k | 0 <= k < i ensures s.entries[k].key < Span(s, src, size).start {
      BeforeStretch(s, src, size, k);
    }
    forall k | j <= k < |s.entries| ensures Span(s, src, size).start < s.entries[k].key {
      KeysAscend(s.entries, i, k);
    }
  }

  /** The merging loop of `getMergedOverlappingMemoryBlocks`. */
  method MergeInto(single: MemoryBlock, others: seq<MemoryBlock>, ghost first: Block, ghost rest: seq<Block>)
    requires single.os.Valid() && Mergeable(single.os.Value(), first, rest)
    requires single.Value() == first && |others| == |rest|
    requires forall k :: 0 <= k < |others| ==>
        others[k] != single && others[k].os == single.os && others[k].Value() == rest[k]
    requires forall i, j :: 0 <= i < j < |others| ==> others[i] != others[j]
    modifies single, single.os, others
    ensures single.os.Valid() && single.os.lastBase == old(single.os.lastBase)
    ensures (single.os.Value(), single.Value()) == MergedAll(old(single.os.Value()), first, rest)
  {
    ghost var os0 := single.os.Value();
    for k := 0 to |others|
      invariant single.os.Valid() && single.os.lastBase == old(single.os.lastBase)
      invariant forall x :: k <= x < |others| ==> others[x].Value() == rest[x]
      invariant (single.os.Value(), single.Value()) == MergedUpTo(os0, first, rest, k)
    {
      MergeOne(single, others[k], os0, first, rest, k);
    }
  }

  /** One round of the loop: the next block lies to the right of what is merged so far. */
  method MergeOne(
    single: MemoryBlock, other: MemoryBlock, ghost os0: Os, ghost first: Block, ghost rest: seq<Block>, ghost k: nat)
    requires single.os.Valid() && Mergeable(os0, first, rest) && k < |rest|
    requires other != single && other.os == single.os && other.Value() == rest[k]
    requires (single.os.Value(), single.Value()) == MergedUpTo(os0, first, rest, k)
    modifies single, single.os, other
    ensures single.os.Valid() && single.os.lastBase == old(single.os.lastBase)
    ensures (single.os.Value(), single.Value()) == MergedUpTo(os0, first, rest, k + 1)
  {
    MergedEndsBeforeNext(os0, first, rest, k);
    single.Merge(other);
  }

  lemma {:induction false} WidenedSpan(os: Os, first: Block, rest: seq<Block>, src: int, size: int)
    requires Mergeable(os, first, rest) && size > 0
    ensures
      var m := MergedAll(os, first, rest);
      var w := MemoryBlocks.Widened(m.0, m.1, src, size);
      && w.0.mem == os.mem
      && End(w.1.chunks) - Begin(w.1.chunks) == SpanOf(first, rest, src, size).Size()
      && (!RequiresExtension(m.1, src, size) ==> w == m)
  {
    MergedAndWidened(os, first, rest, src, size);
  }

  lemma {:induction false} PlacedNeedsNoExtension(os: Os, b: Block, base: int, src: int, size: int)
    requires |b.chunks| > 0 && !RequiresExtension(b, src, size)
    ensures Extended(Remapped(os, b, base).0, Remapped(os, b, base).1, src, size, base) == Remapped(os, b, base)
  {
  }

  /** Merging, widening and remapping the first overlapped block. */
  method Absorb(
    single: MemoryBlock, others: seq<MemoryBlock>, ghost first: Block, ghost rest: seq<Block>, src: int, size: int)
    requires single.os.Valid() && Mergeable(single.os.Value(), first, rest) && size > 0
    requires single.Value() == first && |others| == |rest|
    requires forall k :: 0 <= k < |others| ==>
        others[k] != single && others[k].os == single.os && others[k].Value() == rest[k]
    requires forall i, j :: 0 <= i < j < |others| ==> others[i] != others[j]
    modifies single, single.os, others
    ensures single.os.Valid()
    ensures (single.os.Value(), single.Value()) ==
        Absorbed(old(single.os.Value()), first, rest, src, size, single.os.lastBase)
    ensures rest != [] || RequiresExtension(first, src, size) ==>
              Unmapped(old(single.os.mem), single.os.lastBase, SpanOf(first, rest, src, size).Size())
  {
    ghost var os0 := single.os.Value();
    WidenedSpan(os0, first, rest, src, size);
    MergeInto(single, others, first, rest);
    ghost var m := MergedAll(os0, first, rest);
    if others != [] && !RequiresExtension(single.Value(), src, size) {
      single.RemapChunksAsContiguousMemory();
      PlacedNeedsNoExtension(m.0, m.1, single.os.lastBase, src, size);
    }
    single.ExtendBlockIfRequired(src, size);
  }

  /** Without an overlapping block no block is keyed by the request's first page, so insertion cannot
      fail. */
  lemma {:induction false} KeyIsNew(es: seq<Entry>, src: int, size: int, p: nat)
    requires Keyed(es) && size > 0 && FirstOverlap(es, src, src + size) == |es|
    requires p == LowerBound(es, PageDown(src))
    ensures p < |es| ==> es[p].key != PageDown(src)
  {
    if p < |es| {
      NoOverlapSides(es, src, size, p);
    }
  }

  lemma {:induction false} StretchIsReady(s: BlocksManager.State, src: int, size: int, i: nat, j: nat)
    requires Inv(s) && Keyed(s.entries) && size > 0
    requires i == FirstOverlap(s.entries, src, src + size) < |s.entries| && j == LowerBound(s.entries, src + size)
    ensures i < j && Mergeable(s.os, s.entries[i].block, BlocksOf(s.entries[i + 1..j]))
  {
    StretchFits(s, src, size);
    StretchIsRightOf(s, i, j);
    assert EntryOk(s.os, s.entries[i]);
  }

  /** Absorbing the overlapped stretch and replacing its nodes is what `Registered` says. */
  lemma {:induction false} RegisteredByAbsorbing(
    s: BlocksManager.State, src: int, size: int, base: int, i: nat, j: nat, os': Os, b: Block)
    requires Keyed(s.entries) && size > 0
    requires i == FirstOverlap(s.entries, src, src + size) < j == LowerBound(s.entries, src + size)
    requires (os', b) == Absorbed(s.os, s.entries[i].block, BlocksOf(s.entries[i + 1..j]), src, size, base)
    requires i + 1 < j || RequiresExtension(s.entries[i].block, src, size) ==>
               Unmapped(s.os.mem, base, SpanOf(s.entries[i].block, BlocksOf(s.entries[i + 1..j]), src, size).Size())
    ensures |b.chunks| > 0 && FreshBase(s, src, size, base)
    ensures Registered(s, src, size, base) ==
        BlocksManager.State(os', Spliced(s.entries, i, j, Entry(b.chunks[0].first, b)))
  {
    SpanOfStretch(s, src, size, i, j);
    StretchMustMap(s, src, size, i, j);
    RegisteredIs(s, src, size, base, i, j, os', b);
  }

  lemma {:induction false} StretchMustMap(s: BlocksManager.State, src: int, size: int, i: nat, j: nat)
    requires Keyed(s.entries) && size > 0
    requires i == FirstOverlap(s.entries, src, src + size) < j == LowerBound(s.entries, src + size)
    ensures MustMap(s, src, size) ==> i + 1 < j || RequiresExtension(s.entries[i].block, src, size)
  {
  }

  lemma {:induction false} RegisteredIs(
    s: BlocksManager.State, src: int, size: int, base: int, i: nat, j: nat, os': Os, b: Block)
    requires Keyed(s.entries) && size > 0
    requires i == FirstOverlap(s.entries, src, src + size) < j == LowerBound(s.entries, src + size)
    requires (os', b) == Absorbed(s.os, s.entries[i].block, BlocksOf(s.entries[i + 1..j]), src, size, base)
    ensures |b.chunks| > 0
    ensures Registered(s, src, size, base) ==
        BlocksManager.State(os', Spliced(s.entries, i, j, Entry(b.chunks[0].first, b)))
  {
    RegisteredMeeting(s, src, size, base, i, j, AbsorbedFrom(s, src, size, base, i, j));
  }

  /** So far all descriptors of the first n ranges are filled in, or it is clear that not all will be. */
  ghost predicate FilledUpTo(
    cs: seq<Option<seq<Chunk>>>, list: seq<MemChunk>, n: nat, ok: bool, got: seq<TransferDesc>,
    all: Option<seq<TransferDesc>>, room: nat)
    requires n <= |list| == |cs|
  {
    if ok then ResolvedDescs(cs, list, n) == Some(got) else all.None? || |all.value| > room
  }

  lemma {:induction false} DescsStep(
    cs: seq<Option<seq<Chunk>>>, list: seq<MemChunk>, n: nat, before: seq<TransferDesc>)
    requires n < |list| == |cs| && ResolvedDescs(cs, list, n) == Some(before)
    ensures ResolvedDescs(cs, list, n + 1)
            == if cs[n].None? then None else Some(before + RangeDescs(cs[n].value, list[n]))
  {
  }

  /** A range without a block, or too many descriptors, cannot be mended by further ranges. */
  lemma {:induction false} FailureStays(
    cs: seq<Option<seq<Chunk>>>, list: seq<MemChunk>, n: nat, room: nat, all: Option<seq<TransferDesc>>)
    requires n <= |list| == |cs| && all == ResolvedDescs(cs, list, |list|)
    ensures ResolvedDescs(cs, list, n).None? ==> all.None?
    ensures ResolvedDescs(cs, list, n).Some? && |ResolvedDescs(cs, list, n).value| > room ==>
        all.None? || |all.value| > room
    decreases |list| - n
  {
    if n < |list| {
      FailureStays(cs, list, n + 1, room, all);
    }
  }

  lemma {:induction false} PreviousOverlaps(es: seq<Entry>, src: int, size: int, lb: nat)
    requires Keyed(es) && size > 0 && lb == LowerBound(es, src) && lb > 0
    requires EntryOverlaps(es[lb - 1], src, src + size)
    ensures FirstOverlap(es, src, src + size) == lb - 1
  {
    forall k | 0 <= k < lb - 1 ensures !EntryOverlaps(es[k], src, src + size) {
      KeysAscend(es, k, lb - 1);
    }
    FirstOverlapIsUnique(es, src, src + size, lb - 1);
  }

  lemma {:induction false} CurrentOverlaps(es: seq<Entry>, src: int, size: int, lb: nat)
    requires Keyed(es) && size > 0 && lb == LowerBound(es, src) && lb < |es|
    requires lb > 0 ==> !EntryOverlaps(es[lb - 1], src, src + size)
    requires EntryOverlaps(es[lb], src, src + size)
    ensures FirstOverlap(es, src, src + size) == lb
  {
    forall k | 0 <= k < lb ensures !EntryOverlaps(es[k], src, src + size) {
      if k < lb - 1 {
        KeysAscend(es, k, lb - 1);
      }
    }
    FirstOverlapIsUnique(es, src, src + size, lb);
  }

  lemma {:induction false} NoneOverlaps(es: seq<Entry>, src: int, size: int, lb: nat)
    requires Keyed(es) && size > 0 && lb == LowerBound(es, src)
    requires lb > 0 ==> !EntryOverlaps(es[lb - 1], src, src + size)
    requires lb < |es| ==> !EntryOverlaps(es[lb], src, src + size)
    ensures FirstOverlap(es, src, src + size) == |es|
  {
    forall k | 0 <= k < |es| ensures !EntryOverlaps(es[k], src, src + size) {
      if k < lb - 1 {
        KeysAscend(es, k, lb - 1);
      } else if lb < k {
        KeysAscend(es, lb, k);
      }
    }
    FirstOverlapIsUnique(es, src, src + size, |es|);
  }
}
