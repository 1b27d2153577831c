/** How blocks grow (shared/shmem.h): prepending, appending and merging keep a block gapless and keep
    every client page on the file it was given first. */
module BlockGrowth {
  import opened Ranges
  import opened ServiceMemory
  import opened MemoryBlocks

  /** Every chunk's file was created for that chunk's first page, and has the chunk's size. */
  ghost predicate AtHome(os: Os, chunks: seq<Chunk>) {
    forall i :: 0 <= i < |chunks| ==>
      chunks[i].id in os.homes && os.homes[chunks[i].id] == Home(chunks[i].first, chunks[i].size)
  }

  ghost predicate HomesExtend(os: Os, os': Os) {
    forall id :: id in os.homes ==> id in os'.homes && os'.homes[id] == os.homes[id]
  }

  /** The block remembers the mapping that address v belongs to. */
  ghost predicate Records(b: Block, v: int) {
    RecordsLive(b.chunks, v) || RecordsOld(b.oldMappings, v)
  }

  ghost predicate RecordsLive(chunks: seq<Chunk>, v: int) {
    exists i :: 0 <= i < |chunks| && Live(chunks[i], v)
  }

  ghost predicate Live(c: Chunk, v: int) {
    c.at.Some? && c.at.value <= v < c.at.value + c.size
  }

  ghost predicate RecordsOld(ms: seq<(int, int)>, v: int) {
    exists k :: 0 <= k < |ms| && Retired(ms[k], v)
  }

  predicate Retired(m: (int, int), v: int) { m.0 <= v < m.0 + m.1 }

  lemma {:induction false} RecordsLiveConcat(p: seq<Chunk>, q: seq<Chunk>, v: int)
    ensures RecordsLive(p + q, v) <==> RecordsLive(p, v) || RecordsLive(q, v)
  {
    var s := p + q;
    if RecordsLive(p, v) {
      var i :| 0 <= i < |p| && Live(p[i], v);
      assert s[i] == p[i];
    }
    if RecordsLive(q, v) {
      var i :| 0 <= i < |q| && Live(q[i], v);
      assert s[|p| + i] == q[i];
    }
  }

  lemma {:induction false} RecordsOldConcat(p: seq<(int, int)>, q: seq<(int, int)>, v: int)
    ensures RecordsOld(p + q, v) <==> RecordsOld(p, v) || RecordsOld(q, v)
  {
    var s := p + q;
    if RecordsOld(p, v) {
      var i :| 0 <= i < |p| && Retired(p[i], v);
      assert s[i] == p[i];
    }
    if RecordsOld(q, v) {
      var i :| 0 <= i < |q| && Retired(q[i], v);
      assert s[|p| + i] == q[i];
    }
  }

  /** Retiring the live mappings loses none of them. */
  lemma {:induction false} LiveMappingsRecord(chunks: seq<Chunk>, v: int)
    ensures RecordsOld(LiveMappings(chunks), v) <==> RecordsLive(chunks, v)
    decreases |chunks|
  {
    if chunks != [] {
      var n := |chunks| - 1;
      LiveMappingsRecord(chunks[..n], v);
      var last := if chunks[n].at.Some? then [(chunks[n].at.value, chunks[n].size)] else [];
      RecordsOldConcat(LiveMappings(chunks[..n]), last, v);
      RecordsLiveConcat(chunks[..n], [chunks[n]], v);
      assert chunks == chunks[..n] + [chunks[n]];
      assert RecordsLive([chunks[n]], v) <==> Live([chunks[n]][0], v);
      assert RecordsOld(last, v) <==> Live(chunks[n], v) by {
        if Live(chunks[n], v) {
          assert Retired(last[0], v);
        }
      }
    }
  }

  /** b' holds everything b held, on the same files, plus possibly more. */
  ghost predicate Grows(os: Os, b: Block, os': Os, b': Block) {
    && Gapless(b'.chunks)
    && os'.mem == os.mem
    && IdsBelowNext(os') && AtHome(os', b'.chunks) && HomesExtend(os, os')
    && (forall a, loc :: Backs(b.chunks, a, loc) ==> Backs(b'.chunks, a, loc))
    && (forall v :: Records(b, v) ==> Records(b', v))
  }

  ghost predicate GoodBlock(os: Os, b: Block) {
    Gapless(b.chunks) && AtHome(os, b.chunks)
  }

  lemma {:induction false} NewChunkIsGapless(os: Os, first: int, size: int)
    requires PageMultiple(first) && size > 0
    ensures Gapless([NewChunk(os, first, size)])
    ensures size <= NewChunk(os, first, size).size < size + PAGE_SIZE
  {
  }

  lemma {:induction false} AtHomeExtends(os: Os, os': Os, chunks: seq<Chunk>)
    requires AtHome(os, chunks) && HomesExtend(os, os')
    ensures AtHome(os', chunks)
  {
  }

  lemma {:induction false} NewChunkHomes(os: Os, first: int, size: int)
    requires IdsBelowNext(os)
    ensures IdsBelowNext(OsAfterNewChunk(os, first, size)) && HomesExtend(os, OsAfterNewChunk(os, first, size))
    ensures AtHome(OsAfterNewChunk(os, first, size), [NewChunk(os, first, size)])
  {
  }

  lemma {:induction false} AtHomeConcat(os: Os, p: seq<Chunk>, q: seq<Chunk>)
    requires AtHome(os, p) && AtHome(os, q)
    ensures AtHome(os, p + q)
  {
    var s := p + q;
    assert forall i :: 0 <= i < |s| ==> s[i] == if i < |p| then p[i] else q[i - |p|];
  }

  lemma {:induction false} ConcatHolds(p: seq<Chunk>, q: seq<Chunk>)
    ensures forall a, loc :: Backs(p, a, loc) ==> Backs(p + q, a, loc)
    ensures forall a, loc :: Backs(q, a, loc) ==> Backs(p + q, a, loc)
    ensures forall v :: RecordsLive(p, v) ==> RecordsLive(p + q, v)
    ensures forall v :: RecordsLive(q, v) ==> RecordsLive(p + q, v)
  {
    forall a, loc | Backs(p, a, loc) || Backs(q, a, loc) ensures Backs(p + q, a, loc) {
      BacksConcat(p, q, a, loc);
    }
    forall v | RecordsLive(p, v) || RecordsLive(q, v) ensures RecordsLive(p + q, v) {
      RecordsLiveConcat(p, q, v);
    }
  }

  lemma {:induction false} AppendGrows(os: Os, b: Block, srcEnd: int)
    requires GoodBlock(os, b) && IdsBelowNext(os) && End(b.chunks) < srcEnd
    ensures Grows(os, b, Appended(os, b, srcEnd).0, Appended(os, b, srcEnd).1)
    ensures Begin(Appended(os, b, srcEnd).1.chunks) == Begin(b.chunks)
    ensures End(Appended(os, b, srcEnd).1.chunks) == PageUp(srcEnd)
  {
    var end := End(b.chunks);
    BlockIsAligned(b.chunks);
    var c := NewChunk(os, end, srcEnd - end);
    NewChunkIsGapless(os, end, srcEnd - end);
    GaplessConcat(b.chunks, [c]);
    NewChunkHomes(os, end, srcEnd - end);
    AtHomeExtends(os, OsAfterNewChunk(os, end, srcEnd - end), b.chunks);
    AtHomeConcat(OsAfterNewChunk(os, end, srcEnd - end), b.chunks, [c]);
    ConcatHolds(b.chunks, [c]);
    PageUpFrom(end, srcEnd);
  }

  lemma {:induction false} PageUpFrom(begin: int, end: int)
    requires PageMultiple(begin)
    ensures begin + PageUp(end - begin) == PageUp(end)
  {
    MultiplesAdd(begin, PageUp(end - begin), PAGE_SIZE);
    AlignsTo(end, PAGE_SIZE, begin + PageUp(end - begin));
  }

  lemma {:induction false} PrependGrows(os: Os, b: Block, pageBegin: int)
    requires GoodBlock(os, b) && IdsBelowNext(os) && PageMultiple(pageBegin) && pageBegin < Begin(b.chunks)
    ensures Grows(os, b, Prepended(os, b, pageBegin).0, Prepended(os, b, pageBegin).1)
    ensures Begin(Prepended(os, b, pageBegin).1.chunks) == pageBegin
    ensures End(Prepended(os, b, pageBegin).1.chunks) == End(b.chunks)
  {
    var begin := Begin(b.chunks);
    BlockIsAligned(b.chunks);
    var c := NewChunk(os, pageBegin, begin - pageBegin);
    NewChunkIsGapless(os, pageBegin, begin - pageBegin);
    GaplessConcat([c], b.chunks);
    NewChunkHomes(os, pageBegin, begin - pageBegin);
    AtHomeExtends(os, OsAfterNewChunk(os, pageBegin, begin - pageBegin), b.chunks);
    AtHomeConcat(OsAfterNewChunk(os, pageBegin, begin - pageBegin), [c], b.chunks);
    ConcatHolds([c], b.chunks);
  }

  lemma {:induction false} GrowsIsTransitive(os: Os, b: Block, os1: Os, b1: Block, os2: Os, b2: Block)
    requires Grows(os, b, os1, b1) && Grows(os1, b1, os2, b2)
    ensures Grows(os, b, os2, b2)
  {
  }

  lemma {:induction false} GrowsIsReflexive(os: Os, b: Block)
    requires GoodBlock(os, b) && IdsBelowNext(os)
    ensures Grows(os, b, os, b)
  {
  }

  /** Two blocks put end to end hold what either held. */
  lemma {:induction false} JoinGrows(os: Os, b: Block, rhs: Block)
    requires GoodBlock(os, b) && GoodBlock(os, rhs) && IdsBelowNext(os)
    requires End(b.chunks) == Begin(rhs.chunks)
    ensures
      var j := Block(b.chunks + rhs.chunks, b.oldMappings + rhs.oldMappings);
      && Grows(os, b, os, j) && Grows(os, rhs, os, j)
      && Begin(j.chunks) == Begin(b.chunks) && End(j.chunks) == End(rhs.chunks)
  {
    var j := Block(b.chunks + rhs.chunks, b.oldMappings + rhs.oldMappings);
    GaplessConcat(b.chunks, rhs.chunks);
    AtHomeConcat(os, b.chunks, rhs.chunks);
    ConcatHolds(b.chunks, rhs.chunks);
    forall v | Records(b, v) || Records(rhs, v) ensures Records(j, v) {
      RecordsOldConcat(b.oldMappings, rhs.oldMappings, v);
    }
  }

  /** `merge` with a block further right: gapless again, and holding what both held.  The assertion in
      the source, that the other block is not to the left, is the precondition its callers establish. */
  lemma {:induction false} MergeGrows(os: Os, b: Block, rhs: Block)
    requires GoodBlock(os, b) && GoodBlock(os, rhs) && IdsBelowNext(os)
    requires End(b.chunks) <= Begin(rhs.chunks)
    ensures Grows(os, b, MergedWith(os, b, rhs).0, MergedWith(os, b, rhs).1)
    ensures Grows(os, rhs, MergedWith(os, b, rhs).0, MergedWith(os, b, rhs).1)
    ensures Begin(MergedWith(os, b, rhs).1.chunks) == Begin(b.chunks)
    ensures End(MergedWith(os, b, rhs).1.chunks) == End(rhs.chunks)
  {
    if End(b.chunks) == Begin(rhs.chunks) {
      JoinGrows(os, b, rhs);
    } else {
      BlockIsAligned(rhs.chunks);
      AppendGrows(os, b, Begin(rhs.chunks));
      var (os1, b1) := Appended(os, b, Begin(rhs.chunks));
      AtHomeExtends(os, os1, rhs.chunks);
      JoinGrows(os1, b1, rhs);
      var j := Block(b1.chunks + rhs.chunks, b1.oldMappings + rhs.oldMappings);
      assert MergedWith(os, b, rhs) == (os1, j);
      GrowsIsTransitive(os, b, os1, b1, os1, j);
    }
  }

  ghost predicate RightOf(b: Block, rest: seq<Block>) {
    && |b.chunks| > 0
    && (forall i :: 0 <= i < |rest| ==> |rest[i].chunks| > 0 && End(b.chunks) <= Begin(rest[i].chunks))
    && (forall i, j :: 0 <= i < j < |rest| ==> End(rest[i].chunks) <= Begin(rest[j].chunks))
  }

  /** b' holds b and the first n blocks to its right, and spans them all. */
  ghost predicate MergedSoFar(os: Os, b: Block, rest: seq<Block>, n: nat, os': Os, b': Block) {
    && n <= |rest| && |b.chunks| > 0
    && Grows(os, b, os', b')
    && (forall i :: 0 <= i < n ==> Grows(os, rest[i], os', b'))
    && Begin(b'.chunks) == Begin(b.chunks)
    && (n == 0 ==> End(b'.chunks) == End(b.chunks))
    && (n > 0 ==> |rest[n - 1].chunks| > 0 && End(b'.chunks) == End(rest[n - 1].chunks))
  }

  /** Merging a whole stretch of blocks, left to right. */
  lemma {:induction false} MergeAllGrows(os: Os, b: Block, rest: seq<Block>, n: nat, os': Os, b': Block)
    requires GoodBlock(os, b) && IdsBelowNext(os) && RightOf(b, rest) && n <= |rest|
    requires forall i :: 0 <= i < |rest| ==> GoodBlock(os, rest[i])
    requires MergedUpTo(os, b, rest, n) == (os', b')
    ensures MergedSoFar(os, b, rest, n, os', b')
    decreases n
  {
    if n == 0 {
      MergedNone(os, b, rest);
    } else {
      var m := MergedUpTo(os, b, rest, n - 1);
      MergeAllGrows(os, b, rest, n - 1, m.0, m.1);
      MergeOneMore(os, b, rest, n, m.0, m.1, os', b');
    }
  }

  ghost predicate Mergeable(os: Os, b: Block, rest: seq<Block>) {
    GoodBlock(os, b) && IdsBelowNext(os) && RightOf(b, rest) && forall i :: 0 <= i < |rest| ==> GoodBlock(os, rest[i])
  }

  /** The assertion in `merge` holds at every step: the block merged so far ends before the next one. */
  lemma {:induction false} MergedEndsBeforeNext(os: Os, b: Block, rest: seq<Block>, n: nat)
    requires Mergeable(os, b, rest) && n < |rest|
    ensures |MergedUpTo(os, b, rest, n).1.chunks| > 0
    ensures End(MergedUpTo(os, b, rest, n).1.chunks) <= Begin(rest[n].chunks)
  {
    var m := MergedUpTo(os, b, rest, n);
    MergeAllGrows(os, b, rest, n, m.0, m.1);
  }

  lemma {:induction false} MergedNone(os: Os, b: Block, rest: seq<Block>)
    requires GoodBlock(os, b) && IdsBelowNext(os)
    ensures MergedSoFar(os, b, rest, 0, os, b)
  {
    GrowsIsReflexive(os, b);
  }

  lemma {:induction false} MergeOneMore(
    os: Os, b: Block, rest: seq<Block>, n: nat, os1: Os, b1: Block, os2: Os, b2: Block)
    requires 0 < n <= |rest| && GoodBlock(os, rest[n - 1]) && RightOf(b, rest)
    requires MergedSoFar(os, b, rest, n - 1, os1, b1)
    requires MergedWith(os1, b1, rest[n - 1]) == (os2, b2)
    ensures MergedSoFar(os, b, rest, n, os2, b2)
  {
    AtHomeExtends(os, os1, rest[n - 1].chunks);
    MergeGrows(os1, b1, rest[n - 1]);
    GrowsIsTransitive(os, b, os1, b1, os2, b2);
    LastGrows(os, os1, rest[n - 1], os2, b2);
    forall i | 0 <= i < n - 1 ensures Grows(os, rest[i], os2, b2) {
      GrowsIsTransitive(os, rest[i], os1, b1, os2, b2);
    }
  }

  lemma {:induction false} LastGrows(os: Os, os1: Os, rhs: Block, os2: Os, b2: Block)
    requires os1.mem == os.mem && HomesExtend(os, os1) && Grows(os1, rhs, os2, b2)
    ensures Grows(os, rhs, os2, b2)
  {
  }

  lemma {:induction false} WidenLeftGrows(os: Os, b: Block, src: int)
    requires GoodBlock(os, b) && IdsBelowNext(os)
    ensures
      var r := WidenedLeft(os, b, src);
      && Grows(os, b, r.0, r.1) && End(r.1.chunks) == End(b.chunks)
      && Begin(r.1.chunks) == if PageDown(src) < Begin(b.chunks) then PageDown(src) else Begin(b.chunks)
  {
    if PageDown(src) < Begin(b.chunks) {
      PrependGrows(os, b, PageDown(src));
    } else {
      GrowsIsReflexive(os, b);
    }
  }

  lemma {:induction false} WidenRightGrows(os: Os, b: Block, end: int)
    requires GoodBlock(os, b) && IdsBelowNext(os)
    ensures
      var r := WidenedRight(os, b, end);
      && Grows(os, b, r.0, r.1) && Begin(r.1.chunks) == Begin(b.chunks)
      && End(r.1.chunks) == if End(b.chunks) < end then PageUp(end) else End(b.chunks)
  {
    if End(b.chunks) < end {
      AppendGrows(os, b, end);
    } else {
      GrowsIsReflexive(os, b);
    }
  }

  /** Widening to cover [src, src + size): the block then spans exactly the pages of both. */
  lemma {:induction false} WidenGrows(os: Os, b: Block, src: int, size: int)
    requires GoodBlock(os, b) && IdsBelowNext(os) && size > 0
    ensures
      var r := MemoryBlocks.Widened(os, b, src, size);
      && Grows(os, b, r.0, r.1)
      && Begin(r.1.chunks) == (if PageDown(src) < Begin(b.chunks) then PageDown(src) else Begin(b.chunks))
      && End(r.1.chunks) == (if End(b.chunks) < src + size then PageUp(src + size) else End(b.chunks))
      && (!RequiresExtension(b, src, size) ==> r == (os, b))
  {
    WidenLeftGrows(os, b, src);
    var l := WidenedLeft(os, b, src);
    WidenRightGrows(l.0, l.1, src + size);
    var r := WidenedRight(l.0, l.1, src + size);
    GrowsIsTransitive(os, b, l.0, l.1, r.0, r.1);
  }
}
