/** Transfer descriptors (shared/shmem.h, client/client_platform.h): how the service describes which
    bytes of which shared-memory file back a client range, and how the client replays them. */
module Transfers {
  import opened Ranges
  import opened ServiceMemory
  import opened MemoryBlocks
  import opened BlockGrowth
  import opened BlocksManager
  import opened BlockRegistration
  import opened PointerStability

  datatype TransferDesc = TransferDesc(shmemId: int, underlyingSize: int, bytes: int, offset: int, client: int)

  /** A requested client range. */
  datatype MemChunk = MemChunk(address: int, size: int)

  predicate ChunkOverlaps(c: Chunk, begin: int, end: int) { Overlaps(begin, end, c.first, c.End()) }

  /** The part of a chunk's file that backs its share of [begin, end). */
  function DescOf(c: Chunk, begin: int, end: int): TransferDesc {
    var copyBegin := if c.first > begin then c.first else begin;
    var copyEnd := if c.End() < end then c.End() else end;
    TransferDesc(c.id, c.size, copyEnd - copyBegin, copyBegin - c.first, copyBegin)
  }

  /** The descriptors of the first n chunks, in order. */
  function Descs(chunks: seq<Chunk>, n: nat, begin: int, end: int): seq<TransferDesc>
    requires n <= |chunks|
  {
    if n == 0 then []
    else Descs(chunks, n - 1, begin, end)
         + (if ChunkOverlaps(chunks[n - 1], begin, end) then [DescOf(chunks[n - 1], begin, end)] else [])
  }

  lemma {:induction false} FewerDescs(chunks: seq<Chunk>, n: nat, begin: int, end: int)
    requires n <= |chunks|
    ensures |Descs(chunks, n, begin, end)| <= |Descs(chunks, |chunks|, begin, end)|
    decreases |chunks| - n
  {
    if n < |chunks| {
      FewerDescs(chunks, n + 1, begin, end);
    }
  }

  // ---------- tiling ----------

  /** The descriptors follow each other without gap or overlap from begin to end. */
  ghost predicate Tiles(ds: seq<TransferDesc>, begin: int, end: int) {
    if ds == [] then begin == end
    else
      var d := ds[|ds| - 1];
      d.bytes > 0 && d.client + d.bytes == end && Tiles(ds[..|ds| - 1], begin, d.client)
  }

  /** The descriptor names the chunk's file, with its size, at the offset the chunk gives its first address. */
  predicate NamesFile(d: TransferDesc, c: Chunk) {
    d.shmemId == c.id && d.underlyingSize == c.size && d.offset == d.client - c.first
  }

  /** Each descriptor carries the size of its file and names bytes inside it, the very bytes that back its
      client addresses. */
  ghost predicate Faithful(chunks: seq<Chunk>, d: TransferDesc) {
    && 0 <= d.offset && d.offset + d.bytes <= d.underlyingSize
    && (exists k :: 0 <= k < |chunks| && NamesFile(d, chunks[k]))
    && forall a :: DescHas(d, a) ==> Backs(chunks, a, Shm(d.shmemId, d.offset + (a - d.client)))
  }

  predicate DescHas(d: TransferDesc, a: int) { d.client <= a < d.client + d.bytes }

  lemma {:induction false} DescIsFaithful(chunks: seq<Chunk>, k: nat, begin: int, end: int)
    requires Gapless(chunks) && k < |chunks| && begin < end && ChunkOverlaps(chunks[k], begin, end)
    ensures Faithful(chunks, DescOf(chunks[k], begin, end))
  {
    var c := chunks[k];
    var d := DescOf(c, begin, end);
    assert NamesFile(d, c);
    forall a | DescHas(d, a) ensures Backs(chunks, a, Shm(d.shmemId, d.offset + (a - d.client))) {
      assert c.Has(a) && c.LocOf(a) == Shm(d.shmemId, d.offset + (a - d.client));
    }
  }

  /** Where the first n chunks end, cut to the requested range. */
  function Reached(chunks: seq<Chunk>, n: nat, begin: int, end: int): int
    requires n <= |chunks|
  {
    if n == 0 || chunks[n - 1].End() <= begin then begin
    else if chunks[n - 1].End() < end then chunks[n - 1].End()
    else end
  }

  lemma {:induction false} DescsTile(chunks: seq<Chunk>, n: nat, begin: int, end: int)
    requires Gapless(chunks) && n <= |chunks| && Begin(chunks) <= begin < end
    ensures Tiles(Descs(chunks, n, begin, end), begin, Reached(chunks, n, begin, end))
    decreases n
  {
    if n > 0 {
      DescsTile(chunks, n - 1, begin, end);
      var before := Descs(chunks, n - 1, begin, end);
      ReachedStep(chunks, n, begin, end);
      if ChunkOverlaps(chunks[n - 1], begin, end) {
        TilesExtend(before, DescOf(chunks[n - 1], begin, end), begin);
      } else {
        assert Descs(chunks, n, begin, end) == before;
      }
    }
  }

  lemma {:induction false} TilesExtend(ds: seq<TransferDesc>, d: TransferDesc, begin: int)
    requires Tiles(ds, begin, d.client) && d.bytes > 0
    ensures Tiles(ds + [d], begin, d.client + d.bytes)
  {
    assert (ds + [d])[..|ds|] == ds;
  }

  lemma {:induction false} ReachedStep(chunks: seq<Chunk>, n: nat, begin: int, end: int)
    requires Gapless(chunks) && 0 < n <= |chunks| && Begin(chunks) <= begin < end
    ensures
      var d := DescOf(chunks[n - 1], begin, end);
      if ChunkOverlaps(chunks[n - 1], begin, end)
      then d.bytes > 0 && d.client == Reached(chunks, n - 1, begin, end) &&
          d.client + d.bytes == Reached(chunks, n, begin, end)
      else Reached(chunks, n, begin, end) == Reached(chunks, n - 1, begin, end)
  {
    if n > 1 {
      assert chunks[n - 2].End() == chunks[n - 1].first;
    }
  }

  lemma {:induction false} DescsFaithful(chunks: seq<Chunk>, n: nat, begin: int, end: int)
    requires Gapless(chunks) && n <= |chunks| && begin < end
    ensures forall i :: 0 <= i < |Descs(chunks, n, begin, end)| ==> Faithful(chunks, Descs(chunks, n, begin, end)[i])
    decreases n
  {
    if n > 0 {
      DescsFaithful(chunks, n - 1, begin, end);
      if ChunkOverlaps(chunks[n - 1], begin, end) {
        DescIsFaithful(chunks, n - 1, begin, end);
      }
    }
  }

  /** The descriptors of a range inside a block tile it exactly, each within its own chunk. */
  lemma {:induction false} BlockDescsTile(chunks: seq<Chunk>, begin: int, end: int)
    requires Gapless(chunks) && Begin(chunks) <= begin < end <= End(chunks)
    ensures Tiles(Descs(chunks, |chunks|, begin, end), begin, end)
    ensures forall i :: 0 <= i < |Descs(chunks, |chunks|, begin, end)| ==>
        Faithful(chunks, Descs(chunks, |chunks|, begin, end)[i])
  {
    DescsTile(chunks, |chunks|, begin, end);
    DescsFaithful(chunks, |chunks|, begin, end);
  }

  /** Tiles leave no address out. */
  lemma {:induction false} TilesCover(ds: seq<TransferDesc>, begin: int, end: int, a: int) returns (i: nat)
    requires Tiles(ds, begin, end) && begin <= a < end
    ensures i < |ds| && DescHas(ds[i], a)
    decreases |ds|
  {
    var n := |ds| - 1;
    if ds[n].client <= a {
      i := n;
    } else {
      i := TilesCover(ds[..n], begin, ds[n].client, a);
    }
  }

  // ---------- lists of ranges ----------

  /** The chunks of the block including a requested range. */
  ghost function ChunksFor(entries: seq<Entry>, r: MemChunk): Option<seq<Chunk>> {
    var found := Lookup(entries, r.address, r.size);
    if found.None? || found.value >= |entries| then None else Some(entries[found.value].block.chunks)
  }

  function RangeDescs(chunks: seq<Chunk>, r: MemChunk): seq<TransferDesc> {
    Descs(chunks, |chunks|, r.address, r.address + r.size)
  }

  /** The blocks of the requested ranges, as far as they have one. */
  ghost function Resolve(entries: seq<Entry>, list: seq<MemChunk>): (cs: seq<Option<seq<Chunk>>>)
    ensures |cs| == |list| && forall k :: 0 <= k < |list| ==> cs[k] == ChunksFor(entries, list[k])
  {
    seq(|list|, k requires 0 <= k < |list| => ChunksFor(entries, list[k]))
  }

  /** All descriptors for the first n requested ranges; none when some range is in no block. */
  ghost function ResolvedDescs(cs: seq<Option<seq<Chunk>>>, list: seq<MemChunk>, n: nat): Option<seq<TransferDesc>>
    requires n <= |list| == |cs|
  {
    if n == 0 then Some([])
    else
      var before := ResolvedDescs(cs, list, n - 1);
      if before.None? || cs[n - 1].None? then None else Some(before.value + RangeDescs(cs[n - 1].value, list[n - 1]))
  }

  ghost function AllDescs(entries: seq<Entry>, list: seq<MemChunk>): Option<seq<TransferDesc>> {
    ResolvedDescs(Resolve(entries, list), list, |list|)
  }

  /** The same for ranges whose blocks are known. */
  function DescList(css: seq<seq<Chunk>>, list: seq<MemChunk>, n: nat): seq<TransferDesc>
    requires n <= |list| == |css|
  {
    if n == 0 then [] else DescList(css, list, n - 1) + RangeDescs(css[n - 1], list[n - 1])
  }

  // ---------- replay ----------

  /** The bytes of the shared-memory files. */
  type Files = map<Loc, int>

  function DescLocs(d: TransferDesc): set<Loc> {
    set o | o in Stretch(d.offset, d.bytes) :: Shm(d.shmemId, o)
  }

  /** memcpy of one descriptor from client memory into the file. */
  function Written(files: Files, client: int -> int, d: TransferDesc): Files {
    files + (map loc | loc in DescLocs(d) :: client(d.client + ((if loc.Shm? then loc.off else 0) - d.offset)))
  }

  function Replayed(files: Files, client: int -> int, ds: seq<TransferDesc>, n: nat): Files
    requires n <= |ds|
  {
    if n == 0 then files else Written(Replayed(files, client, ds, n - 1), client, ds[n - 1])
  }

  /** The client can open the descriptor's file with the size it gives. */
  predicate CanOpen(d: TransferDesc, opens: (int, int) -> bool) {
    d.shmemId != -1 && opens(d.shmemId, d.underlyingSize)
  }

  ghost predicate AllOpen(ds: seq<TransferDesc>, n: nat, opens: (int, int) -> bool)
    requires n <= |ds|
  {
    forall i :: 0 <= i < n ==> CanOpen(ds[i], opens)
  }

  /** `writeRequiredMemory`; stops at the first descriptor that names no file or whose file does not open, with
      the copies before it done. */
  method WriteRequiredMemory(files: Files, client: int -> int, ds: seq<TransferDesc>, opens: (int, int) -> bool)
    returns (ok: bool, files': Files)
    ensures ok <==> AllOpen(ds, |ds|, opens)
    ensures ok ==> files' == Replayed(files, client, ds, |ds|)
    ensures !ok ==> exists n: nat :: n < |ds| && AllOpen(ds, n, opens) && !CanOpen(ds[n], opens)
                                     && files' == Replayed(files, client, ds, n)
  {
    files' := files;
    for i := 0 to |ds|
      invariant AllOpen(ds, i, opens)
      invariant files' == Replayed(files, client, ds, i)
    {
      if ds[i].shmemId == -1 || !opens(ds[i].shmemId, ds[i].underlyingSize) {
        return false, files';
      }
      files' := CopyToFile(files', client, ds[i], files, ds, i);
    }
    return true, files';
  }

  /** One round of the loop: map the file, copy the bytes, unmap. */
  method CopyToFile(
    files: Files, client: int -> int, d: TransferDesc, ghost start: Files, ghost ds: seq<TransferDesc>, ghost i: nat)
    returns (files': Files)
    requires i < |ds| && d == ds[i] && files == Replayed(start, client, ds, i)
    ensures files' == Replayed(start, client, ds, i + 1)
  {
    files' := Written(files, client, d);
  }

  lemma {:induction false} WrittenBytes(files: Files, client: int -> int, d: TransferDesc, loc: Loc)
    ensures loc.Shm? && loc.id == d.shmemId && d.offset <= loc.off < d.offset + d.bytes ==>
              loc in Written(files, client, d) &&
                  Written(files, client, d)[loc] == client(d.client + (loc.off - d.offset))
    ensures !(loc.Shm? && loc.id == d.shmemId && d.offset <= loc.off < d.offset + d.bytes) ==>
              && (loc in Written(files, client, d) <==> loc in files)
              && (loc in files ==> Written(files, client, d)[loc] == files[loc])
  {
    if loc.Shm? && loc.id == d.shmemId && d.offset <= loc.off < d.offset + d.bytes {
      assert loc.off in Stretch(d.offset, d.bytes);
      assert loc in DescLocs(d);
    }
  }

  /** Descriptors that all agree on which client address each file byte stands for, and carry the size of the
      file they name. */
  ghost predicate Consistent(homes: map<int, Home>, ds: seq<TransferDesc>) {
    forall i :: 0 <= i < |ds| ==>
      && ds[i].shmemId in homes && homes[ds[i].shmemId].page + ds[i].offset == ds[i].client
      && ds[i].underlyingSize == homes[ds[i].shmemId].size
  }

  ghost predicate ByteIs(files: Files, loc: Loc, v: int) { loc in files && files[loc] == v }

  lemma {:induction false} WriteSets(files: Files, client: int -> int, d: TransferDesc, a: int)
    requires DescHas(d, a)
    ensures ByteIs(Written(files, client, d), Shm(d.shmemId, d.offset + (a - d.client)), client(a))
  {
    WrittenBytes(files, client, d, Shm(d.shmemId, d.offset + (a - d.client)));
  }

  lemma {:induction false} WriteKeeps(files: Files, client: int -> int, d: TransferDesc, home: int, loc: Loc, a: int)
    requires loc.Shm? && ByteIs(files, loc, client(a))
    requires d.shmemId == loc.id ==> home + d.offset == d.client && home + loc.off == a
    ensures ByteIs(Written(files, client, d), loc, client(a))
  {
    WrittenBytes(files, client, d, loc);
  }

  /** After replaying consistent descriptors, every byte named by one of them holds the client's byte,
      whatever the order and however the descriptors overlap. */
  lemma {:induction false} ReplayCopies(
    files: Files, client: int -> int, homes: map<int, Home>, ds: seq<TransferDesc>, n: nat, i: nat, a: int, loc: Loc)
    requires Consistent(homes, ds) && i < n <= |ds| && DescHas(ds[i], a)
    requires loc == Shm(ds[i].shmemId, ds[i].offset + (a - ds[i].client))
    ensures ByteIs(Replayed(files, client, ds, n), loc, client(a))
    decreases n
  {
    var before := Replayed(files, client, ds, n - 1);
    if i < n - 1 {
      ReplayCopies(files, client, homes, ds, n - 1, i, a, loc);
      WriteKeeps(before, client, ds[n - 1], homes[ds[i].shmemId].page, loc, a);
    } else {
      WriteSets(before, client, ds[n - 1], a);
    }
  }

  predicate DescNames(d: TransferDesc, loc: Loc) {
    loc.Shm? && loc.id == d.shmemId && d.offset <= loc.off < d.offset + d.bytes
  }

  ghost predicate SameByte(files: Files, files': Files, loc: Loc) {
    (loc in files' <==> loc in files) && (loc in files ==> files'[loc] == files[loc])
  }

  lemma {:induction false} WriteLeaves(files: Files, client: int -> int, d: TransferDesc, loc: Loc)
    requires !DescNames(d, loc)
    ensures SameByte(files, Written(files, client, d), loc)
  {
    WrittenBytes(files, client, d, loc);
  }

  /** Bytes no descriptor names are left alone. */
  lemma {:induction false} ReplayTouchesNothingElse(
    files: Files, client: int -> int, ds: seq<TransferDesc>, n: nat, loc: Loc)
    requires n <= |ds| && forall i :: 0 <= i < n ==> !DescNames(ds[i], loc)
    ensures SameByte(files, Replayed(files, client, ds, n), loc)
    decreases n
  {
    if n > 0 {
      ReplayTouchesNothingElse(files, client, ds, n - 1, loc);
      WriteLeaves(Replayed(files, client, ds, n - 1), client, ds[n - 1], loc);
    }
  }

  // ---------- the whole transfer ----------

  lemma {:induction false} DescsConsistent(os: Os, chunks: seq<Chunk>, n: nat, begin: int, end: int)
    requires AtHome(os, chunks) && n <= |chunks|
    ensures Consistent(os.homes, Descs(chunks, n, begin, end))
    decreases n
  {
    if n > 0 {
      DescsConsistent(os, chunks, n - 1, begin, end);
    }
  }

  lemma {:induction false} ConsistentConcat(homes: map<int, Home>, p: seq<TransferDesc>, q: seq<TransferDesc>)
    requires Consistent(homes, p) && Consistent(homes, q)
    ensures Consistent(homes, p + q)
  {
    var s := p + q;
    assert forall i :: 0 <= i < |s| ==> s[i] == if i < |p| then p[i] else q[i - |p|];
  }

  /** The chunks are a gapless run on its own files that includes the nonempty range. */
  ghost predicate Includes(os: Os, chunks: seq<Chunk>, r: MemChunk) {
    && r.size > 0 && Gapless(chunks) && AtHome(os, chunks)
    && Begin(chunks) <= r.address && r.address + r.size <= End(chunks)
  }

  ghost predicate AllInclude(os: Os, css: seq<seq<Chunk>>, list: seq<MemChunk>) {
    |css| == |list| && forall k :: 0 <= k < |list| ==> Includes(os, css[k], list[k])
  }

  lemma {:induction false} DescListConsistent(os: Os, css: seq<seq<Chunk>>, list: seq<MemChunk>, n: nat)
    requires AllInclude(os, css, list) && n <= |list|
    ensures Consistent(os.homes, DescList(css, list, n))
    decreases n
  {
    if n > 0 {
      DescListConsistent(os, css, list, n - 1);
      assert Includes(os, css[n - 1], list[n - 1]);
      var r := list[n - 1];
      DescsConsistent(os, css[n - 1], |css[n - 1]|, r.address, r.address + r.size);
      ConsistentConcat(os.homes, DescList(css, list, n - 1), RangeDescs(css[n - 1], list[n - 1]));
    }
  }

  /** Descriptor d names, for client address a, the byte that backs a. */
  ghost predicate Names(chunks: seq<Chunk>, d: TransferDesc, a: int) {
    DescHas(d, a) && Backs(chunks, a, Shm(d.shmemId, d.offset + (a - d.client)))
  }

  lemma {:induction false} RangeNamed(os: Os, chunks: seq<Chunk>, r: MemChunk, a: int) returns (j: nat)
    requires Includes(os, chunks, r) && r.address <= a < r.address + r.size
    ensures j < |RangeDescs(chunks, r)| && Names(chunks, RangeDescs(chunks, r)[j], a)
  {
    BlockDescsTile(chunks, r.address, r.address + r.size);
    j := TilesCover(RangeDescs(chunks, r), r.address, r.address + r.size, a);
    assert Faithful(chunks, RangeDescs(chunks, r)[j]);
  }

  /** Every address of every requested range is named by some descriptor. */
  lemma {:induction false} EveryAddressNamed(
    os: Os, css: seq<seq<Chunk>>, list: seq<MemChunk>, n: nat, k: nat, a: int)
    returns (i: nat)
    requires AllInclude(os, css, list) && k < n <= |list|
    requires list[k].address <= a < list[k].address + list[k].size
    ensures i < |DescList(css, list, n)| && Names(css[k], DescList(css, list, n)[i], a)
    decreases n
  {
    var before := DescList(css, list, n - 1);
    if k < n - 1 {
      i := EveryAddressNamed(os, css, list, n - 1, k, a);
    } else {
      assert Includes(os, css[k], list[k]);
      var j := RangeNamed(os, css[k], list[k], a);
      i := |before| + j;
    }
  }

  /** The requested ranges are nonempty and lie in blocks. */
  ghost predicate AllInBlocks(s: State, list: seq<MemChunk>) {
    forall i :: 0 <= i < |list| ==> list[i].size > 0 && InOneBlock(s, list[i].address, list[i].address + list[i].size)
  }

  ghost predicate IsBlockOf(s: State, chunks: seq<Chunk>) {
    exists i :: 0 <= i < |s.entries| && s.entries[i].block.chunks == chunks
  }

  /** The chunks are those of the block that includes the range. */
  ghost predicate ResolvesTo(s: State, r: MemChunk, chunks: seq<Chunk>) {
    ChunksFor(s.entries, r) == Some(chunks) && IsBlockOf(s, chunks) && Includes(s.os, chunks, r)
  }

  lemma {:induction false} RangeResolved(s: State, r: MemChunk) returns (chunks: seq<Chunk>)
    requires Inv(s) && r.size > 0 && InOneBlock(s, r.address, r.address + r.size)
    ensures ResolvesTo(s, r, chunks)
  {
    LookupFindsTheBlock(s, r.address, r.size);
    var k := Lookup(s.entries, r.address, r.size).value;
    assert EntryOk(s.os, s.entries[k]);
    chunks := s.entries[k].block.chunks;
  }

  /** The blocks of the first requested ranges. */
  ghost predicate AllResolve(s: State, list: seq<MemChunk>, css: seq<seq<Chunk>>) {
    |css| <= |list| && forall k :: 0 <= k < |css| ==> ResolvesTo(s, list[k], css[k])
  }

  lemma {:induction false} OneMoreResolved(s: State, list: seq<MemChunk>, css: seq<seq<Chunk>>, last: seq<Chunk>)
    requires AllResolve(s, list, css) && |css| < |list| && ResolvesTo(s, list[|css|], last)
    ensures AllResolve(s, list, css + [last])
  {
    var more := css + [last];
    forall k | 0 <= k < |more| ensures ResolvesTo(s, list[k], more[k]) {
      if k < |css| {
        assert more[k] == css[k];
      }
    }
  }

  lemma {:induction false} AllResolved(s: State, list: seq<MemChunk>, n: nat) returns (css: seq<seq<Chunk>>)
    requires Inv(s) && AllInBlocks(s, list) && n <= |list|
    ensures |css| == n && AllResolve(s, list, css)
    decreases n
  {
    if n == 0 {
      return [];
    }
    var before := AllResolved(s, list, n - 1);
    var last := RangeResolved(s, list[n - 1]);
    OneMoreResolved(s, list, before, last);
    css := before + [last];
  }

  lemma {:induction false} AllDescsAre(cs: seq<Option<seq<Chunk>>>, css: seq<seq<Chunk>>, list: seq<MemChunk>, n: nat)
    requires n <= |list| == |css| == |cs|
    requires forall k :: 0 <= k < |list| ==> cs[k] == Some(css[k])
    ensures ResolvedDescs(cs, list, n) == Some(DescList(css, list, n))
    decreases n
  {
    if n > 0 {
      AllDescsAre(cs, css, list, n - 1);
    }
  }

  lemma {:induction false} BackedOnce(s: State, a: int, loc: Loc, loc': Loc)
    requires Inv(s) && BackedBy(s, a, loc) && BackedBy(s, a, loc')
    ensures loc == loc'
  {
    var i :| 0 <= i < |s.entries| && Backs(s.entries[i].block.chunks, a, loc);
    var j :| 0 <= j < |s.entries| && Backs(s.entries[j].block.chunks, a, loc');
    assert EntryOk(s.os, s.entries[i]) && EntryOk(s.os, s.entries[j]);
    BackedIsInBlock(s.entries[i].block.chunks, a, loc);
    BackedIsInBlock(s.entries[j].block.chunks, a, loc');
    if i == j {
      BackingIsUnique(s.entries[i].block.chunks, a, loc, loc');
    }
  }

  /** Replaying the descriptors of known blocks copies every requested byte to where it is backed. */
  lemma {:induction false} ListDelivers(
    os: Os, css: seq<seq<Chunk>>, list: seq<MemChunk>, files: Files, client: int -> int, k: nat, a: int)
    returns (loc: Loc)
    requires AllInclude(os, css, list) && k < |list| && list[k].address <= a < list[k].address + list[k].size
    ensures Backs(css[k], a, loc)
    ensures Delivered(files, client, DescList(css, list, |list|), a, loc)
  {
    var ds := DescList(css, list, |list|);
    DescListConsistent(os, css, list, |list|);
    var i := EveryAddressNamed(os, css, list, |list|, k, a);
    loc := Shm(ds[i].shmemId, ds[i].offset + (a - ds[i].client));
    ReplayCopies(files, client, os.homes, ds, |ds|, i, a, loc);
  }

  /** After replaying the descriptors, the byte at `loc` is the client's byte at a. */
  ghost predicate Delivered(files: Files, client: int -> int, ds: seq<TransferDesc>, a: int, loc: Loc) {
    ByteIs(Replayed(files, client, ds, |ds|), loc, client(a))
  }

  lemma {:induction false} BlockBacks(s: State, chunks: seq<Chunk>, a: int, loc: Loc)
    requires IsBlockOf(s, chunks) && Backs(chunks, a, loc)
    ensures BackedBy(s, a, loc)
  {
  }

  /** Every descriptor emitted names one of the service's files. */
  lemma {:induction false} DescsNameFiles(os: Os, css: seq<seq<Chunk>>, list: seq<MemChunk>, opens: (int, int) -> bool)
    requires AllInclude(os, css, list) && IdsBelowNext(os)
    requires forall id :: id in os.homes ==> opens(id, os.homes[id].size)
    ensures AllOpen(DescList(css, list, |list|), |DescList(css, list, |list|)|, opens)
  {
    DescListConsistent(os, css, list, |list|);
  }

  /** The transfer works, for any list of in-block ranges and a client that can open the service's files:
      descriptors exist, all of them open, so that the replay succeeds, and afterwards the byte that the current
      translation of any requested address reaches is the client's byte at that address. */
  lemma {:induction false} TransferDeliversClientBytes(
    s: State, list: seq<MemChunk>, files: Files, client: int -> int, opens: (int, int) -> bool, k: nat, a: int)
    returns (i: nat, loc: Loc)
    requires forall id :: id in s.os.homes ==> opens(id, s.os.homes[id].size)
    requires Inv(s) && AllInBlocks(s, list) && k < |list|
    requires list[k].address <= a < list[k].address + list[k].size
    ensures AllDescs(s.entries, list).Some?
    ensures AllOpen(AllDescs(s.entries, list).value, |AllDescs(s.entries, list).value|, opens)
    ensures Consistent(s.os.homes, AllDescs(s.entries, list).value)
    ensures TranslatesTo(s, i, a, loc) && Delivered(files, client, AllDescs(s.entries, list).value, a, loc)
    ensures forall other :: BackedBy(s, a, other) ==> other == loc
  {
    var css := AllResolved(s, list, |list|);
    assert AllInclude(s.os, css, list);
    AllDescsAre(Resolve(s.entries, list), css, list, |list|);
    DescsNameFiles(s.os, css, list, opens);
    DescListConsistent(s.os, css, list, |list|);
    loc := ListDelivers(s.os, css, list, files, client, k, a);
    BlockBacks(s, css[k], a, loc);
    i := CurrentTranslation(s, a, loc);
    forall other | BackedBy(s, a, other) ensures other == loc {
      BackedOnce(s, a, loc, other);
    }
  }
}
