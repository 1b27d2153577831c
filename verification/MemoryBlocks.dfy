/** `BasicMemoryBlock` (shared/shmem.h): a gapless run of shared-memory chunks mirroring client
    pages, mapped contiguously in the service.  Functions on values say what each operation does;
    the class below carries them out. */
module MemoryBlocks {
  import opened Ranges
  import opened ServiceMemory

  /** `ChunkDescription`: client page, file id, file size, and where the service maps it. */
  datatype Chunk = Chunk(first: int, id: int, size: int, at: Option<int>) {
    function End(): int { first + size }
    predicate Has(a: int) { first <= a < first + size }
    function LocOf(a: int): Loc { Shm(id, a - first) }
  }

  datatype Block = Block(chunks: seq<Chunk>, oldMappings: seq<(int, int)>)

  /** Nonempty, page-aligned chunks, each starting where the previous one ends. */
  ghost predicate Gapless(chunks: seq<Chunk>) {
    && |chunks| > 0
    && (forall i :: 0 <= i < |chunks| ==>
        chunks[i].size > 0 && PageMultiple(chunks[i].first) && PageMultiple(chunks[i].size))
    && (forall i, j :: 0 <= i < |chunks| && 0 <= j < |chunks| && j == i + 1 ==> chunks[i].End() == chunks[j].first)
  }

  function Begin(chunks: seq<Chunk>): int
    requires |chunks| > 0
  {
    chunks[0].first
  }

  function End(chunks: seq<Chunk>): int
    requires |chunks| > 0
  {
    chunks[|chunks| - 1].End()
  }

  /** Some chunk holds address a, at the given byte of its file. */
  ghost predicate Backs(chunks: seq<Chunk>, a: int, loc: Loc) {
    exists i :: 0 <= i < |chunks| && chunks[i].Has(a) && chunks[i].LocOf(a) == loc
  }

  ghost predicate ChunkMapped(mem: Mappings, c: Chunk) {
    c.at.Some? && forall a :: c.Has(a) ==> Reaches(mem, c.at.value + (a - c.first), c.LocOf(a))
  }

  /** All chunks mapped, at offsets matching their client addresses. */
  ghost predicate BlockMapped(mem: Mappings, chunks: seq<Chunk>) {
    && (forall i :: 0 <= i < |chunks| ==> ChunkMapped(mem, chunks[i]))
    && (forall i :: 0 <= i < |chunks| ==> chunks[i].at.value - chunks[i].first == chunks[0].at.value - chunks[0].first)
  }

  /** `translate`, for addresses of the block. */
  function Translate(b: Block, a: int): Option<int>
    requires |b.chunks| > 0
  {
    if Begin(b.chunks) <= a < End(b.chunks) && b.chunks[0].at.Some?
    then Some(b.chunks[0].at.value + (a - Begin(b.chunks)))
    else None
  }

  // ---------- geometry of gapless runs ----------

  lemma {:induction false} ChunksAscend(chunks: seq<Chunk>, i: nat, j: nat)
    requires Gapless(chunks) && i < j < |chunks|
    ensures chunks[i].End() <= chunks[j].first
    decreases j
  {
    if i < j - 1 {
      ChunksAscend(chunks, i, j - 1);
    }
  }

  lemma {:induction false} ChunkInBlock(chunks: seq<Chunk>, i: nat)
    requires Gapless(chunks) && i < |chunks|
    ensures Begin(chunks) <= chunks[i].first && chunks[i].End() <= End(chunks)
  {
    if i > 0 {
      ChunksAscend(chunks, 0, i);
    }
    if i < |chunks| - 1 {
      ChunksAscend(chunks, i, |chunks| - 1);
    }
  }

  lemma {:induction false} BlockIsAligned(chunks: seq<Chunk>)
    requires Gapless(chunks)
    ensures PageMultiple(Begin(chunks)) && PageMultiple(End(chunks)) && Begin(chunks) < End(chunks)
  {
    ChunkInBlock(chunks, |chunks| - 1);
  }

  /** The addresses of a gapless run are exactly those between its two ends. */
  lemma {:induction false} EveryAddressBacked(chunks: seq<Chunk>, a: int) returns (i: nat)
    requires Gapless(chunks) && Begin(chunks) <= a < End(chunks)
    ensures i < |chunks| && chunks[i].Has(a) && Backs(chunks, a, chunks[i].LocOf(a))
    decreases |chunks|
  {
    var n := |chunks| - 1;
    if chunks[n].first <= a {
      i := n;
    } else {
      i := EveryAddressBacked(chunks[..n], a);
      assert chunks[..n][i] == chunks[i];
    }
  }

  lemma {:induction false} BackedIsInBlock(chunks: seq<Chunk>, a: int, loc: Loc)
    requires Gapless(chunks) && Backs(chunks, a, loc)
    ensures Begin(chunks) <= a < End(chunks)
  {
    var i :| 0 <= i < |chunks| && chunks[i].Has(a) && chunks[i].LocOf(a) == loc;
    ChunkInBlock(chunks, i);
  }

  /** An address is backed by one byte only. */
  lemma {:induction false} BackingIsUnique(chunks: seq<Chunk>, a: int, loc: Loc, loc': Loc)
    requires Gapless(chunks) && Backs(chunks, a, loc) && Backs(chunks, a, loc')
    ensures loc == loc'
  {
    var i :| 0 <= i < |chunks| && chunks[i].Has(a) && chunks[i].LocOf(a) == loc;
    var j :| 0 <= j < |chunks| && chunks[j].Has(a) && chunks[j].LocOf(a) == loc';
    if i < j {
      ChunksAscend(chunks, i, j);
    } else if j < i {
      ChunksAscend(chunks, j, i);
    }
  }

  lemma {:induction false} BacksConcat(p: seq<Chunk>, q: seq<Chunk>, a: int, loc: Loc)
    ensures Backs(p + q, a, loc) <==> Backs(p, a, loc) || Backs(q, a, loc)
  {
    var s := p + q;
    if Backs(p, a, loc) {
      var i :| 0 <= i < |p| && p[i].Has(a) && p[i].LocOf(a) == loc;
      assert s[i] == p[i];
    }
    if Backs(q, a, loc) {
      var i :| 0 <= i < |q| && q[i].Has(a) && q[i].LocOf(a) == loc;
      assert s[|p| + i] == q[i];
    }
  }

  lemma {:induction false} GaplessConcat(p: seq<Chunk>, q: seq<Chunk>)
    requires Gapless(p) && Gapless(q) && End(p) == Begin(q)
    ensures Gapless(p + q) && Begin(p + q) == Begin(p) && End(p + q) == End(q)
  {
    var s := p + q;
    assert forall i :: 0 <= i < |s| ==> s[i] == if i < |p| then p[i] else q[i - |p|];
  }

  /** The pointer computed by `translate` reaches the byte that backs the address. */
  lemma {:induction false} TranslateReachesBacking(mem: Mappings, b: Block, a: int, loc: Loc)
    requires Gapless(b.chunks) && BlockMapped(mem, b.chunks) && Backs(b.chunks, a, loc)
    ensures Translate(b, a).Some? && Reaches(mem, Translate(b, a).value, loc)
  {
    BackedIsInBlock(b.chunks, a, loc);
    var i :| 0 <= i < |b.chunks| && b.chunks[i].Has(a) && b.chunks[i].LocOf(a) == loc;
    assert ChunkMapped(mem, b.chunks[i]);
  }

  // ---------- what each operation does ----------

  /** A new, unmapped chunk at client page `first`. */
  function NewChunk(os: Os, first: int, size: int): Chunk {
    Chunk(first, os.nextId, PageUp(size), None)
  }

  function OsAfterNewChunk(os: Os, first: int, size: int): Os {
    Os(os.mem, os.nextId + 1, os.homes[os.nextId := Home(first, PageUp(size))])
  }

  /** The constructor: one mapped chunk from the first page to the last. */
  function NewBlock(os: Os, src: int, size: int, base: int): (Os, Block) {
    var first := PageDown(src);
    var c := NewChunk(os, first, src % PAGE_SIZE + size);
    var os1 := OsAfterNewChunk(os, first, src % PAGE_SIZE + size);
    (os1.(mem := WithFile(os1.mem, base, c.size, c.id)), Block([c.(at := Some(base))], []))
  }

  function Appended(os: Os, b: Block, srcEnd: int): (Os, Block)
    requires |b.chunks| > 0
  {
    var end := End(b.chunks);
    (OsAfterNewChunk(os, end, srcEnd - end), Block(b.chunks + [NewChunk(os, end, srcEnd - end)], b.oldMappings))
  }

  function Prepended(os: Os, b: Block, pageBegin: int): (Os, Block)
    requires |b.chunks| > 0
  {
    var c := NewChunk(os, pageBegin, Begin(b.chunks) - pageBegin);
    (OsAfterNewChunk(os, pageBegin, Begin(b.chunks) - pageBegin), Block([c] + b.chunks, b.oldMappings))
  }

  /** `merge`: fill the hole up to the right-hand block, then take over its chunks and mappings. */
  function MergedWith(os: Os, b: Block, rhs: Block): (Os, Block)
    requires |b.chunks| > 0 && |rhs.chunks| > 0
  {
    var f := if End(b.chunks) != Begin(rhs.chunks) then Appended(os, b, Begin(rhs.chunks)) else (os, b);
    (f.0, Block(f.1.chunks + rhs.chunks, f.1.oldMappings + rhs.oldMappings))
  }

  /** Merging the first n of a list of blocks, left to right. */
  function MergedUpTo(os: Os, b: Block, rest: seq<Block>, n: nat): (r: (Os, Block))
    requires n <= |rest| && |b.chunks| > 0 && forall i :: 0 <= i < |rest| ==> |rest[i].chunks| > 0
    ensures |r.1.chunks| > 0
  {
    if n == 0 then (os, b)
    else
      var m := MergedUpTo(os, b, rest, n - 1);
      MergedWith(m.0, m.1, rest[n - 1])
  }

  function MergedAll(os: Os, b: Block, rest: seq<Block>): (r: (Os, Block))
    requires |b.chunks| > 0 && forall i :: 0 <= i < |rest| ==> |rest[i].chunks| > 0
    ensures |r.1.chunks| > 0
  {
    MergedUpTo(os, b, rest, |rest|)
  }

  /** `preserveExistingMappings`: the mappings in use, in chunk order. */
  function LiveMappings(chunks: seq<Chunk>): seq<(int, int)> {
    if chunks == [] then []
    else
      var n := |chunks| - 1;
      LiveMappings(chunks[..n]) + (if chunks[n].at.Some? then [(chunks[n].at.value, chunks[n].size)] else [])
  }

  function Placed(chunks: seq<Chunk>, delta: int): (r: seq<Chunk>)
    ensures |r| == |chunks| && forall i :: 0 <= i < |r| ==> r[i] == chunks[i].(at := Some(chunks[i].first + delta))
  {
    seq(|chunks|, i requires 0 <= i < |chunks| => chunks[i].(at := Some(chunks[i].first + delta)))
  }

  /** Map the files of the first n chunks at their client offsets plus delta. */
  function MapUpTo(mem: Mappings, chunks: seq<Chunk>, n: nat, delta: int): Mappings
    requires n <= |chunks|
  {
    if n == 0 then mem
    else WithFile(MapUpTo(mem, chunks, n - 1, delta), chunks[n - 1].first + delta, chunks[n - 1].size, chunks[n - 1].id)
  }

  function MapChunks(mem: Mappings, chunks: seq<Chunk>, delta: int): Mappings {
    MapUpTo(mem, chunks, |chunks|, delta)
  }

  /** `remapChunksAsContiguousMemory`, with the base the operating system picked. */
  function Remapped(os: Os, b: Block, base: int): (Os, Block)
    requires |b.chunks| > 0
  {
    (os.(mem := RemapMem(os.mem, b.chunks, base)),
     Block(Placed(b.chunks, base - Begin(b.chunks)), b.oldMappings + LiveMappings(b.chunks)))
  }

  /** A contiguous anonymous stretch, overlaid chunk by chunk. */
  function RemapMem(mem: Mappings, chunks: seq<Chunk>, base: int): Mappings
    requires |chunks| > 0
  {
    MapChunks(WithAnonymous(mem, base, End(chunks) - Begin(chunks)), chunks, base - Begin(chunks))
  }

  predicate RequiresExtension(b: Block, src: int, size: int)
    requires |b.chunks| > 0
  {
    PageDown(src) < Begin(b.chunks) || End(b.chunks) < src + size
  }

  function WidenedLeft(os: Os, b: Block, src: int): (r: (Os, Block))
    requires |b.chunks| > 0
    ensures |r.1.chunks| > 0
  {
    if PageDown(src) < Begin(b.chunks) then Prepended(os, b, PageDown(src)) else (os, b)
  }

  function WidenedRight(os: Os, b: Block, end: int): (r: (Os, Block))
    requires |b.chunks| > 0
    ensures |r.1.chunks| > 0
  {
    if End(b.chunks) < end then Appended(os, b, end) else (os, b)
  }

  /** The chunks added by `extendBlockIfRequired`, before remapping. */
  function Widened(os: Os, b: Block, src: int, size: int): (r: (Os, Block))
    requires |b.chunks| > 0
    ensures |r.1.chunks| > 0
  {
    var l := WidenedLeft(os, b, src);
    WidenedRight(l.0, l.1, src + size)
  }

  function Extended(os: Os, b: Block, src: int, size: int, base: int): (Os, Block)
    requires |b.chunks| > 0
  {
    var w := Widened(os, b, src, size);
    if RequiresExtension(b, src, size) then Remapped(w.0, w.1, base) else w
  }

  // ---------- remapping ----------

  lemma {:induction false} WithFileReaches(mem: Mappings, base: int, size: int, id: int, v: int)
    ensures Range(base, base + size).Has(v) ==> Reaches(WithFile(mem, base, size, id), v, Shm(id, v - base))
    ensures !Range(base, base + size).Has(v) && v in mem ==> Reaches(WithFile(mem, base, size, id), v, mem[v])
    ensures v in WithFile(mem, base, size, id) <==> v in mem || Range(base, base + size).Has(v)
  {
  }

  lemma {:induction false} WithFileKeeps(mem: Mappings, base: int, size: int, id: int, v: int, loc: Loc)
    requires Reaches(mem, v, loc) && !Range(base, base + size).Has(v)
    ensures Reaches(WithFile(mem, base, size, id), v, loc)
  {
  }

  /** Addresses outside the run's own stretch are left alone. */
  lemma {:induction false} MapUpToElsewhere(mem: Mappings, chunks: seq<Chunk>, n: nat, delta: int, v: int)
    requires Gapless(chunks) && n <= |chunks|
    requires !(Begin(chunks) <= v - delta < End(chunks))
    ensures v in MapUpTo(mem, chunks, n, delta) <==> v in mem
    ensures v in mem ==> Reaches(MapUpTo(mem, chunks, n, delta), v, mem[v])
    decreases n
  {
    if n > 0 {
      var last := chunks[n - 1];
      MapUpToElsewhere(mem, chunks, n - 1, delta, v);
      WithFileReaches(MapUpTo(mem, chunks, n - 1, delta), last.first + delta, last.size, last.id, v);
      ChunkInBlock(chunks, n - 1);
    }
  }

  /** Every chunk mapped so far is reachable at its own offset. */
  lemma {:induction false} MapUpToReach(mem: Mappings, chunks: seq<Chunk>, n: nat, delta: int, v: int, i: nat)
    requires Gapless(chunks) && i < n <= |chunks| && chunks[i].Has(v - delta)
    ensures Reaches(MapUpTo(mem, chunks, n, delta), v, chunks[i].LocOf(v - delta))
    decreases n
  {
    var before := MapUpTo(mem, chunks, n - 1, delta);
    if i < n - 1 {
      MapUpToReach(mem, chunks, n - 1, delta, v, i);
      ChunksAscend(chunks, i, n - 1);
      MappingKeeps(before, chunks[n - 1], delta, v, chunks[i].LocOf(v - delta));
    } else {
      MappingReaches(before, chunks[i], delta, v);
    }
  }

  lemma {:induction false} MappingReaches(mem: Mappings, c: Chunk, delta: int, v: int)
    requires c.Has(v - delta)
    ensures Reaches(WithFile(mem, c.first + delta, c.size, c.id), v, c.LocOf(v - delta))
  {
    WithFileReaches(mem, c.first + delta, c.size, c.id, v);
  }

  lemma {:induction false} MappingKeeps(mem: Mappings, c: Chunk, delta: int, v: int, loc: Loc)
    requires Reaches(mem, v, loc) && !c.Has(v - delta)
    ensures Reaches(WithFile(mem, c.first + delta, c.size, c.id), v, loc)
  {
    WithFileKeeps(mem, c.first + delta, c.size, c.id, v, loc);
  }

  lemma {:induction false} RemapExtends(mem: Mappings, chunks: seq<Chunk>, base: int)
    requires Gapless(chunks) && Unmapped(mem, base, End(chunks) - Begin(chunks))
    ensures Extends(mem, RemapMem(mem, chunks, base))
  {
    forall v | v in mem ensures Reaches(RemapMem(mem, chunks, base), v, mem[v]) {
      RemapElsewhere(mem, chunks, base, v);
    }
  }

  lemma {:induction false} RemapElsewhere(mem: Mappings, chunks: seq<Chunk>, base: int, v: int)
    requires Gapless(chunks) && v in mem && !Range(base, base + (End(chunks) - Begin(chunks))).Has(v)
    ensures Reaches(RemapMem(mem, chunks, base), v, mem[v])
  {
    var space := WithAnonymous(mem, base, End(chunks) - Begin(chunks));
    assert Reaches(space, v, mem[v]);
    MapUpToElsewhere(space, chunks, |chunks|, base - Begin(chunks), v);
  }

  lemma {:induction false} PlacedChunkMapped(mem: Mappings, chunks: seq<Chunk>, delta: int, i: nat)
    requires Gapless(chunks) && i < |chunks|
    ensures ChunkMapped(MapChunks(mem, chunks, delta), Placed(chunks, delta)[i])
  {
    var c := Placed(chunks, delta)[i];
    forall a | c.Has(a) ensures Reaches(MapChunks(mem, chunks, delta), c.at.value + (a - c.first), c.LocOf(a)) {
      MapUpToReach(mem, chunks, |chunks|, delta, a + delta, i);
    }
  }

  lemma {:induction false} PlacedIsMapped(mem: Mappings, chunks: seq<Chunk>, delta: int)
    requires Gapless(chunks)
    ensures BlockMapped(MapChunks(mem, chunks, delta), Placed(chunks, delta))
  {
    var placed := Placed(chunks, delta);
    var mem' := MapChunks(mem, chunks, delta);
    forall i | 0 <= i < |placed| ensures ChunkMapped(mem', placed[i]) {
      PlacedChunkMapped(mem, chunks, delta, i);
    }
  }

  lemma {:induction false} PlacedIsGapless(chunks: seq<Chunk>, delta: int)
    requires Gapless(chunks)
    ensures Gapless(Placed(chunks, delta))
    ensures Begin(Placed(chunks, delta)) == Begin(chunks) && End(Placed(chunks, delta)) == End(chunks)
  {
  }

  /** Remapping at an unused base keeps every old mapping, and the block comes out fully and
      contiguously mapped. */
  lemma {:induction false} RemapKeepsEverything(mem: Mappings, chunks: seq<Chunk>, base: int)
    requires Gapless(chunks) && Unmapped(mem, base, End(chunks) - Begin(chunks))
    ensures BlockMapped(RemapMem(mem, chunks, base), Placed(chunks, base - Begin(chunks)))
    ensures Extends(mem, RemapMem(mem, chunks, base))
  {
    RemapExtends(mem, chunks, base);
    PlacedIsMapped(WithAnonymous(mem, base, End(chunks) - Begin(chunks)), chunks, base - Begin(chunks));
  }

  lemma {:induction false} RemapKeepsBacking(b: Block, delta: int, a: int, loc: Loc)
    ensures Backs(Placed(b.chunks, delta), a, loc) <==> Backs(b.chunks, a, loc)
  {
    var placed := Placed(b.chunks, delta);
    if Backs(b.chunks, a, loc) {
      var i :| 0 <= i < |b.chunks| && b.chunks[i].Has(a) && b.chunks[i].LocOf(a) == loc;
      assert placed[i].Has(a) && placed[i].LocOf(a) == loc;
    }
    if Backs(placed, a, loc) {
      var i :| 0 <= i < |placed| && placed[i].Has(a) && placed[i].LocOf(a) == loc;
      assert b.chunks[i].Has(a) && b.chunks[i].LocOf(a) == loc;
    }
  }
}
