/** Every registration keeps the manager's invariant, keeps every old mapping, and keeps every client
    page on its file (shared/shmem.h, service/service.h). */
module BlockRegistration {
  import opened Ranges
  import opened ServiceMemory
  import opened MemoryBlocks
  import opened BlockGrowth
  import opened BlocksManager

  /** os' was reached from os by adding files and mappings only. */
  ghost predicate OsGrows(os: Os, os': Os) {
    Extends(os.mem, os'.mem) && HomesExtend(os, os') && IdsBelowNext(os')
  }

  /** b' holds what b held: the same backing and the same remembered mappings. */
  ghost predicate Holds(b: Block, b': Block) {
    && (forall a, loc :: Backs(b.chunks, a, loc) ==> Backs(b'.chunks, a, loc))
    && (forall v :: Records(b, v) ==> Records(b', v))
  }

  ghost predicate NewMappingsRecorded(mem: Mappings, mem': Mappings, b: Block) {
    forall v :: v in mem' && v !in mem ==> Records(b, v)
  }

  lemma {:induction false} BlockStaysMapped(mem: Mappings, mem': Mappings, chunks: seq<Chunk>)
    requires BlockMapped(mem, chunks) && Extends(mem, mem')
    ensures BlockMapped(mem', chunks)
  {
    forall i | 0 <= i < |chunks| ensures ChunkMapped(mem', chunks[i]) {
      assert ChunkMapped(mem, chunks[i]);
    }
  }

  lemma {:induction false} EntryStaysOk(os: Os, os': Os, e: Entry)
    requires EntryOk(os, e) && OsGrows(os, os')
    ensures EntryOk(os', e)
  {
    BlockStaysMapped(os.mem, os'.mem, e.block.chunks);
    AtHomeExtends(os, os', e.block.chunks);
  }

  // ---------- the block that takes the request ----------

  lemma {:induction false} NewMappingsAreLive(mem: Mappings, chunks: seq<Chunk>, base: int, v: int)
    requires Gapless(chunks)
    requires v in RemapMem(mem, chunks, base) && v !in mem
    ensures RecordsLive(Placed(chunks, base - Begin(chunks)), v)
  {
    var delta := base - Begin(chunks);
    var space := WithAnonymous(mem, base, End(chunks) - Begin(chunks));
    if !(Begin(chunks) <= v - delta < End(chunks)) {
      MapUpToElsewhere(space, chunks, |chunks|, delta, v);
      assert false;
    }
    var i := EveryAddressBacked(chunks, v - delta);
    assert Live(Placed(chunks, delta)[i], v);
  }

  lemma {:induction false} RemapHolds(os: Os, b: Block, base: int)
    requires |b.chunks| > 0
    ensures Holds(b, Remapped(os, b, base).1)
  {
    var delta := base - Begin(b.chunks);
    var b' := Remapped(os, b, base).1;
    forall a, loc | Backs(b.chunks, a, loc) ensures Backs(b'.chunks, a, loc) {
      RemapKeepsBacking(b, delta, a, loc);
    }
    forall v | Records(b, v) ensures Records(b', v) {
      LiveMappingsRecord(b.chunks, v);
      RecordsOldConcat(b.oldMappings, LiveMappings(b.chunks), v);
    }
  }

  lemma {:induction false} RemapRecordsNew(os: Os, b: Block, base: int)
    requires Gapless(b.chunks)
    ensures NewMappingsRecorded(os.mem, Remapped(os, b, base).0.mem, Remapped(os, b, base).1)
  {
    var mem' := RemapMem(os.mem, b.chunks, base);
    forall v | v in mem' && v !in os.mem ensures Records(Remapped(os, b, base).1, v) {
      NewMappingsAreLive(os.mem, b.chunks, base, v);
    }
  }

  lemma {:induction false} RemapEntryOk(os: Os, b: Block, base: int)
    requires GoodBlock(os, b)
    requires Unmapped(os.mem, base, End(b.chunks) - Begin(b.chunks))
    ensures EntryOk(Remapped(os, b, base).0, Entry(Begin(b.chunks), Remapped(os, b, base).1))
    ensures End(Remapped(os, b, base).1.chunks) == End(b.chunks)
    ensures Extends(os.mem, Remapped(os, b, base).0.mem)
  {
    var delta := base - Begin(b.chunks);
    var r := Remapped(os, b, base);
    RemapKeepsEverything(os.mem, b.chunks, base);
    PlacedIsGapless(b.chunks, delta);
    PlacedIsAtHome(os, b.chunks, delta);
    assert r.1.chunks == Placed(b.chunks, delta) && r.0 == os.(mem := RemapMem(os.mem, b.chunks, base));
    AtHomeExtends(os, r.0, r.1.chunks);
  }

  /** A remapped block is in order: mapped, holding what it held, with all new mappings on record. */
  lemma {:induction false} RemapIsSound(os: Os, b: Block, base: int)
    requires GoodBlock(os, b) && IdsBelowNext(os)
    requires Unmapped(os.mem, base, End(b.chunks) - Begin(b.chunks))
    ensures EntryOk(Remapped(os, b, base).0, Entry(Begin(b.chunks), Remapped(os, b, base).1))
    ensures End(Remapped(os, b, base).1.chunks) == End(b.chunks)
    ensures OsGrows(os, Remapped(os, b, base).0)
    ensures Holds(b, Remapped(os, b, base).1)
    ensures NewMappingsRecorded(os.mem, Remapped(os, b, base).0.mem, Remapped(os, b, base).1)
  {
    RemapEntryOk(os, b, base);
    RemapHolds(os, b, base);
    RemapRecordsNew(os, b, base);
  }

  lemma {:induction false} PlacedIsAtHome(os: Os, chunks: seq<Chunk>, delta: int)
    requires AtHome(os, chunks)
    ensures AtHome(os, Placed(chunks, delta))
  {
  }

  lemma {:induction false} HoldsIsTransitive(b: Block, b1: Block, b2: Block)
    requires Holds(b, b1) && Holds(b1, b2)
    ensures Holds(b, b2)
  {
  }

  lemma {:induction false} OneChunkMapped(mem: Mappings, c: Chunk, base: int)
    requires c.at == Some(base) && Unmapped(mem, base, c.size)
    ensures Extends(mem, WithFile(mem, base, c.size, c.id))
    ensures BlockMapped(WithFile(mem, base, c.size, c.id), [c])
    ensures NewMappingsRecorded(mem, WithFile(mem, base, c.size, c.id), Block([c], []))
  {
    var mem' := WithFile(mem, base, c.size, c.id);
    forall v | v in mem ensures Reaches(mem', v, mem[v]) {
      WithFileReaches(mem, base, c.size, c.id, v);
    }
    forall a | c.Has(a) ensures Reaches(mem', base + (a - c.first), c.LocOf(a)) {
      WithFileReaches(mem, base, c.size, c.id, base + (a - c.first));
    }
    assert ChunkMapped(mem', [c][0]);
    forall v | v in mem' && v !in mem ensures Records(Block([c], []), v) {
      WithFileReaches(mem, base, c.size, c.id, v);
      assert Live([c][0], v);
    }
  }

  /** A new block for a range that meets none. */
  lemma {:induction false} NewBlockIsSound(os: Os, src: int, size: int, base: int)
    requires IdsBelowNext(os) && size > 0
    requires Unmapped(os.mem, base, PageUp(src + size) - PageDown(src))
    ensures EntryOk(NewBlock(os, src, size, base).0, Entry(PageDown(src), NewBlock(os, src, size, base).1))
    ensures End(NewBlock(os, src, size, base).1.chunks) == PageUp(src + size)
    ensures OsGrows(os, NewBlock(os, src, size, base).0)
    ensures NewMappingsRecorded(os.mem, NewBlock(os, src, size, base).0.mem, NewBlock(os, src, size, base).1)
  {
    var first := PageDown(src);
    var c := NewChunk(os, first, src % PAGE_SIZE + size).(at := Some(base));
    NewChunkSize(src, size);
    NewChunkIsGapless(os, first, src % PAGE_SIZE + size);
    NewChunkHomes(os, first, src % PAGE_SIZE + size);
    OneChunkMapped(os.mem, c, base);
    assert NewBlock(os, src, size, base).1 == Block([c], []);
    assert NewBlock(os, src, size, base).0.mem == WithFile(os.mem, base, c.size, c.id);
  }

  ghost predicate AllGood(os: Os, bs: seq<Block>) {
    forall i :: 0 <= i < |bs| ==> GoodBlock(os, bs[i])
  }

  /** The merged and widened block, before a possible remap. */
  lemma {:induction false} MergedAndWidened(os: Os, first: Block, rest: seq<Block>, src: int, size: int)
    requires IdsBelowNext(os) && GoodBlock(os, first) && RightOf(first, rest) && size > 0
    requires AllGood(os, rest)
    ensures
      var m := MergedAll(os, first, rest);
      var w := MemoryBlocks.Widened(m.0, m.1, src, size);
      var e := if rest == [] then End(first.chunks) else End(rest[|rest| - 1].chunks);
      && GoodBlock(w.0, w.1) && IdsBelowNext(w.0) && w.0.mem == os.mem && HomesExtend(os, w.0)
      && Holds(first, w.1) && (forall i :: 0 <= i < |rest| ==> Holds(rest[i], w.1))
      && Begin(w.1.chunks) == (if PageDown(src) < Begin(first.chunks) then PageDown(src) else Begin(first.chunks))
      && End(w.1.chunks) == (if e < src + size then PageUp(src + size) else e)
      && (!RequiresExtension(m.1, src, size) ==> w == m)
  {
    var m := MergedAll(os, first, rest);
    MergeAllGrows(os, first, rest, |rest|, m.0, m.1);
    WidenGrows(m.0, m.1, src, size);
    var w := MemoryBlocks.Widened(m.0, m.1, src, size);
    GrowsIsTransitive(os, first, m.0, m.1, w.0, w.1);
    forall i | 0 <= i < |rest| ensures Holds(rest[i], w.1) {
      GrowsIsTransitive(os, rest[i], m.0, m.1, w.0, w.1);
    }
  }

  /** The pages of the request and of the blocks it meets. */
  function SpanOf(first: Block, rest: seq<Block>, src: int, size: int): Range
    requires |first.chunks| > 0 && forall i :: 0 <= i < |rest| ==> |rest[i].chunks| > 0
  {
    var b := Begin(first.chunks);
    var e := if rest == [] then End(first.chunks) else End(rest[|rest| - 1].chunks);
    Range(if PageDown(src) < b then PageDown(src) else b, if e < src + size then PageUp(src + size) else e)
  }

  ghost predicate AbsorbedOk(os: Os, first: Block, rest: seq<Block>, os': Os, b: Block, span: Range) {
    && EntryOk(os', Entry(span.start, b)) && End(b.chunks) == span.end
    && OsGrows(os, os')
    && Holds(first, b) && (forall i :: 0 <= i < |rest| ==> Holds(rest[i], b))
    && NewMappingsRecorded(os.mem, os'.mem, b)
  }

  /** Merging, widening and remapping together leave one block in order that spans the request and
      everything it met. */
  lemma {:induction false} AbsorbIsSound(
    os: Os, first: Block, rest: seq<Block>, src: int, size: int, base: int, span: Range)
    requires IdsBelowNext(os) && GoodBlock(os, first) && RightOf(first, rest) && size > 0
    requires AllGood(os, rest)
    requires BlockMapped(os.mem, first.chunks)
    requires span == SpanOf(first, rest, src, size)
    requires rest != [] || RequiresExtension(first, src, size) ==> Unmapped(os.mem, base, span.Size())
    ensures
      var r := Absorbed(os, first, rest, src, size, base);
      AbsorbedOk(os, first, rest, r.0, r.1, span)
  {
    MergedAndWidened(os, first, rest, src, size);
    var m := MergedAll(os, first, rest);
    var w := MemoryBlocks.Widened(m.0, m.1, src, size);
    var r := Absorbed(os, first, rest, src, size, base);
    if rest != [] || RequiresExtension(m.1, src, size) {
      RemapIsSound(w.0, w.1, base);
      assert r == Remapped(w.0, w.1, base);
      AfterRemap(os, first, rest, w.0, w.1, r.0, r.1, span);
    } else {
      assert m == (os, first) && r == m;
    }
  }

  lemma {:induction false} AfterRemap(
    os: Os, first: Block, rest: seq<Block>, os1: Os, b1: Block, os2: Os, b2: Block, span: Range)
    requires os1.mem == os.mem && HomesExtend(os, os1)
    requires Holds(first, b1) && forall i :: 0 <= i < |rest| ==> Holds(rest[i], b1)
    requires EntryOk(os2, Entry(span.start, b2)) && End(b2.chunks) == span.end
    requires OsGrows(os1, os2) && Holds(b1, b2) && NewMappingsRecorded(os1.mem, os2.mem, b2)
    ensures AbsorbedOk(os, first, rest, os2, b2, span)
  {
    HoldsIsTransitive(first, b1, b2);
    forall i | 0 <= i < |rest| ensures Holds(rest[i], b2) {
      HoldsIsTransitive(rest[i], b1, b2);
    }
  }

  // ---------- putting the block back into the map ----------

  ghost predicate FitsAt(entries: seq<Entry>, i: nat, j: nat, span: Range) {
    && i <= j <= |entries| && span.Nonempty()
    && (forall k :: 0 <= k < i ==> |entries[k].block.chunks| > 0 && End(entries[k].block.chunks) <= span.start)
    && (forall k :: j <= k < |entries| ==> span.end <= entries[k].key)
  }

  lemma {:induction false} SplicedSeparated(entries: seq<Entry>, i: nat, j: nat, e: Entry, span: Range)
    requires Separated(entries) && FitsAt(entries, i, j, span)
    requires e.key == span.start && |e.block.chunks| > 0 && End(e.block.chunks) == span.end
    ensures Separated(Spliced(entries, i, j, e))
  {
    SpliceElements(entries, i, j, e);
    var t := Spliced(entries, i, j, e);
    forall x, y | 0 <= x < y < |t| ensures End(t[x].block.chunks) <= t[y].key {
      assert t[x] == if x < i then entries[x] else if x == i then e else entries[x - i - 1 + j];
      assert t[y] == if y < i then entries[y] else if y == i then e else entries[y - i - 1 + j];
    }
    forall x | 0 <= x < |t| ensures |t[x].block.chunks| > 0 && t[x].key < End(t[x].block.chunks) {
      assert t[x] == if x < i then entries[x] else if x == i then e else entries[x - i - 1 + j];
    }
  }

  lemma {:induction false} SplicedOk(os: Os, entries: seq<Entry>, os': Os, i: nat, j: nat, e: Entry)
    requires AllOk(os, entries) && OsGrows(os, os') && EntryOk(os', e) && i <= j <= |entries|
    ensures AllOk(os', Spliced(entries, i, j, e))
  {
    SpliceElements(entries, i, j, e);
    var t := Spliced(entries, i, j, e);
    forall x | 0 <= x < |t| ensures EntryOk(os', t[x]) {
      if x != i {
        assert t[x] == entries[if x < i then x else x - i - 1 + j];
        EntryStaysOk(os, os', t[x]);
      }
    }
  }

  /** An entry's old content is found again after the splice. */
  lemma {:induction false} SplicedHolds(entries: seq<Entry>, i: nat, j: nat, e: Entry, k: nat) returns (k': nat)
    requires i <= j <= |entries| && k < |entries|
    requires forall x :: i <= x < j ==> Holds(entries[x].block, e.block)
    ensures k' < |Spliced(entries, i, j, e)| && Holds(entries[k].block, Spliced(entries, i, j, e)[k'].block)
  {
    SpliceElements(entries, i, j, e);
    k' := if k < i then k else if k < j then i else k - j + i + 1;
  }

  lemma {:induction false} SplicedRecorded(s: State, os': Os, i: nat, j: nat, e: Entry, v: int)
    requires i <= j <= |s.entries|
    requires forall x :: i <= x < j ==> Holds(s.entries[x].block, e.block)
    requires Accounted(s)
    requires NewMappingsRecorded(s.os.mem, os'.mem, e.block)
    requires v in os'.mem
    ensures Recorded(Spliced(s.entries, i, j, e), v)
  {
    var t := Spliced(s.entries, i, j, e);
    SpliceElements(s.entries, i, j, e);
    if v in s.os.mem {
      var k :| 0 <= k < |s.entries| && Records(s.entries[k].block, v);
      var k' := SplicedHolds(s.entries, i, j, e, k);
      assert Records(t[k'].block, v);
    } else {
      assert Records(t[i].block, v);
    }
  }

  lemma {:induction false} SpliceKeepsInv(s: State, os': Os, i: nat, j: nat, e: Entry, span: Range)
    requires Inv(s) && FitsAt(s.entries, i, j, span)
    requires EntryOk(os', e) && e.key == span.start && End(e.block.chunks) == span.end
    requires OsGrows(s.os, os')
    ensures Inv(State(os', Spliced(s.entries, i, j, e)))
  {
    SplicedSeparated(s.entries, i, j, e, span);
    SplicedOk(s.os, s.entries, os', i, j, e);
  }

  lemma {:induction false} SpliceKeepsAccounted(s: State, os': Os, i: nat, j: nat, e: Entry)
    requires Accounted(s) && i <= j <= |s.entries|
    requires NewMappingsRecorded(s.os.mem, os'.mem, e.block)
    requires forall x :: i <= x < j ==> Holds(s.entries[x].block, e.block)
    ensures Accounted(State(os', Spliced(s.entries, i, j, e)))
  {
    forall v | v in os'.mem ensures Recorded(Spliced(s.entries, i, j, e), v) {
      SplicedRecorded(s, os', i, j, e, v);
    }
  }

  // ---------- registration ----------

  /** Client address a lives at the given byte. */
  ghost predicate BackedBy(s: State, a: int, loc: Loc) {
    exists i :: 0 <= i < |s.entries| && Backs(s.entries[i].block.chunks, a, loc)
  }

  /** [x, y) lies in a single block. */
  ghost predicate InOneBlock(s: State, x: int, y: int) {
    exists i :: 0 <= i < |s.entries| && InBlock(s.entries[i], x, y)
  }

  ghost predicate InBlock(e: Entry, x: int, y: int) {
    |e.block.chunks| > 0 && e.key <= x && y <= End(e.block.chunks)
  }

  /** Nothing handed out before changes: mappings, backing and block membership all persist. */
  ghost predicate Stable(s: State, s': State) {
    && Extends(s.os.mem, s'.os.mem)
    && (forall a, loc :: BackedBy(s, a, loc) ==> BackedBy(s', a, loc))
    && (forall x, y :: InOneBlock(s, x, y) ==> InOneBlock(s', x, y))
  }

  lemma {:induction false} HoldsContains(os: Os, e: Entry, os': Os, e': Entry)
    requires EntryOk(os, e) && EntryOk(os', e') && Holds(e.block, e'.block)
    ensures e'.key <= e.key && End(e.block.chunks) <= End(e'.block.chunks)
  {
    BlockIsAligned(e.block.chunks);
    var first, last := Begin(e.block.chunks), End(e.block.chunks) - 1;
    var i := EveryAddressBacked(e.block.chunks, first);
    BackedIsInBlock(e'.block.chunks, first, e.block.chunks[i].LocOf(first));
    var j := EveryAddressBacked(e.block.chunks, last);
    BackedIsInBlock(e'.block.chunks, last, e.block.chunks[j].LocOf(last));
  }

  lemma {:induction false} SpliceKeepsRanges(s: State, os': Os, i: nat, j: nat, e: Entry, x: int, y: int)
    requires i <= j <= |s.entries| && AllOk(s.os, s.entries)
    requires AllOk(os', Spliced(s.entries, i, j, e))
    requires forall k :: i <= k < j ==> Holds(s.entries[k].block, e.block)
    requires InOneBlock(s, x, y)
    ensures InOneBlock(State(os', Spliced(s.entries, i, j, e)), x, y)
  {
    var t := Spliced(s.entries, i, j, e);
    var k :| 0 <= k < |s.entries| && InBlock(s.entries[k], x, y);
    var k' := SplicedHolds(s.entries, i, j, e, k);
    HoldsContains(s.os, s.entries[k], os', t[k']);
    assert InBlock(t[k'], x, y);
  }

  lemma {:induction false} SpliceIsStable(s: State, os': Os, i: nat, j: nat, e: Entry)
    requires i <= j <= |s.entries| && Extends(s.os.mem, os'.mem)
    requires AllOk(s.os, s.entries) && AllOk(os', Spliced(s.entries, i, j, e))
    requires forall x :: i <= x < j ==> Holds(s.entries[x].block, e.block)
    ensures Stable(s, State(os', Spliced(s.entries, i, j, e)))
  {
    var t := Spliced(s.entries, i, j, e);
    forall a, loc | BackedBy(s, a, loc) ensures BackedBy(State(os', t), a, loc) {
      var k :| 0 <= k < |s.entries| && Backs(s.entries[k].block.chunks, a, loc);
      var k' := SplicedHolds(s.entries, i, j, e, k);
      assert Backs(t[k'].block.chunks, a, loc);
    }
    forall x, y | InOneBlock(s, x, y) ensures InOneBlock(State(os', t), x, y) {
      SpliceKeepsRanges(s, os', i, j, e, x, y);
    }
  }

  /** The index of the block that took the request. */
  ghost function TargetIndex(s: State, src: int, size: int): nat {
    var i := FirstOverlap(s.entries, src, src + size);
    if i == |s.entries| then LowerBound(s.entries, PageDown(src)) else i
  }

  ghost predicate RegisterOk(s: State, src: int, size: int, s': State, k: nat) {
    && Inv(s') && Stable(s, s')
    && k < |s'.entries|
    && InBlock(s'.entries[k], src, src + size)
  }

  lemma {:induction false} SpanCovers(s: State, src: int, size: int)
    requires Keyed(s.entries) && size > 0
    ensures Span(s, src, size).start <= src && src + size <= Span(s, src, size).end
  {
  }

  /** Registering a range that meets no block. */
  lemma {:induction false} RegisterNew(s: State, src: int, size: int, base: int)
    requires Inv(s) && Keyed(s.entries) && size > 0
    requires FirstOverlap(s.entries, src, src + size) == |s.entries|
    requires FreshBase(s, src, size, base)
    ensures RegisterOk(s, src, size, Registered(s, src, size, base), TargetIndex(s, src, size))
  {
    var k := LowerBound(s.entries, PageDown(src));
    var (os', b) := NewBlock(s.os, src, size, base);
    var e := Entry(PageDown(src), b);
    NewBlockIsSound(s.os, src, size, base);
    forall x | 0 <= x < |s.entries|
      ensures x < k ==> End(s.entries[x].block.chunks) <= PageDown(src)
      ensures k <= x ==> PageUp(src + size) <= s.entries[x].key
    {
      NoOverlapSides(s.entries, src, size, x);
      if k <= x {
        BeyondLowerBound(s.entries, PageDown(src), x);
      }
    }
    SpanCovers(s, src, size);
    SpliceKeepsInv(s, os', k, k, e, Span(s, src, size));
    SpliceIsStable(s, os', k, k, e);
    SpliceElements(s.entries, k, k, e);
    assert Registered(s, src, size, base) == State(os', Spliced(s.entries, k, k, e));
  }

  lemma {:induction false} StretchFits(s: State, src: int, size: int)
    requires Inv(s) && Keyed(s.entries) && size > 0
    requires FirstOverlap(s.entries, src, src + size) < |s.entries|
    ensures
      var i := FirstOverlap(s.entries, src, src + size);
      var j := LowerBound(s.entries, src + size);
      && i < j
      && FitsAt(s.entries, i, j, Span(s, src, size))
  {
    var i := FirstOverlap(s.entries, src, src + size);
    var j := LowerBound(s.entries, src + size);
    OverlapStretch(s.entries, src, size, i);
    SpanCovers(s, src, size);
    forall k | 0 <= k < i ensures End(s.entries[k].block.chunks) <= Span(s, src, size).start {
      BeforeStretch(s, src, size, k);
    }
    forall k | j <= k < |s.entries| ensures Span(s, src, size).end <= s.entries[k].key {
      AfterStretch(s, src, size, k);
    }
  }

  lemma {:induction false} StretchIsRightOf(s: State, i: nat, j: nat)
    requires AllOk(s.os, s.entries) && Keyed(s.entries) && i < j <= |s.entries|
    ensures RightOf(s.entries[i].block, BlocksOf(s.entries[i + 1..j]))
    ensures AllGood(s.os, BlocksOf(s.entries[i + 1..j]))
  {
    var rest := BlocksOf(s.entries[i + 1..j]);
    forall x | 0 <= x < |rest|
      ensures rest[x] == s.entries[i + 1 + x].block && GoodBlock(s.os, rest[x])
      ensures s.entries[i + 1 + x].key == Begin(rest[x].chunks)
    {
      assert EntryOk(s.os, s.entries[i + 1 + x]);
    }
    forall x, y | 0 <= x < y < |rest| ensures End(rest[x].chunks) <= Begin(rest[y].chunks) {
      KeysAscend(s.entries, i + 1 + x, i + 1 + y);
    }
    forall x | 0 <= x < |rest| ensures End(s.entries[i].block.chunks) <= Begin(rest[x].chunks) {
      KeysAscend(s.entries, i, i + 1 + x);
    }
  }

  lemma {:induction false} StretchIsAbsorbed(s: State, src: int, size: int, base: int, i: nat, j: nat)
    requires Inv(s) && Keyed(s.entries) && size > 0
    requires i == FirstOverlap(s.entries, src, src + size) < j == LowerBound(s.entries, src + size)
    requires FreshBase(s, src, size, base)
    ensures
      var first, rest := s.entries[i].block, BlocksOf(s.entries[i + 1..j]);
      var r := AbsorbedFrom(s, src, size, base, i, j);
      AbsorbedOk(s.os, first, rest, r.0, r.1, Span(s, src, size))
  {
    StretchIsRightOf(s, i, j);
    SpanOfStretch(s, src, size, i, j);
    assert EntryOk(s.os, s.entries[i]);
    AbsorbStretch(s, src, size, base, i, j, BlocksOf(s.entries[i + 1..j]), Span(s, src, size));
  }

  lemma {:induction false} AbsorbStretch(
    s: State, src: int, size: int, base: int, i: nat, j: nat, rest: seq<Block>, span: Range)
    requires IdsBelowNext(s.os) && size > 0 && i < j <= |s.entries| && EntryOk(s.os, s.entries[i])
    requires forall k :: 0 <= k < |s.entries| ==> |s.entries[k].block.chunks| > 0
    requires rest == BlocksOf(s.entries[i + 1..j])
    requires RightOf(s.entries[i].block, rest) && AllGood(s.os, rest)
    requires span == SpanOf(s.entries[i].block, rest, src, size)
    requires rest != [] || RequiresExtension(s.entries[i].block, src, size) ==> Unmapped(s.os.mem, base, span.Size())
    ensures
      var r := AbsorbedFrom(s, src, size, base, i, j);
      AbsorbedOk(s.os, s.entries[i].block, rest, r.0, r.1, span)
  {
    AbsorbIsSound(s.os, s.entries[i].block, rest, src, size, base, span);
  }

  lemma {:induction false} SpanOfStretch(s: State, src: int, size: int, i: nat, j: nat)
    requires Keyed(s.entries) && size > 0
    requires i == FirstOverlap(s.entries, src, src + size) < j == LowerBound(s.entries, src + size)
    ensures Span(s, src, size) == SpanOf(s.entries[i].block, BlocksOf(s.entries[i + 1..j]), src, size)
  {
    LastOfStretch(s.entries, i, j);
  }

  /** Registering a range that meets at least one block. */
  lemma {:induction false} RegisterMeeting(s: State, src: int, size: int, base: int)
    requires Inv(s) && Keyed(s.entries) && size > 0
    requires FirstOverlap(s.entries, src, src + size) < |s.entries|
    requires FreshBase(s, src, size, base)
    ensures RegisterOk(s, src, size, Registered(s, src, size, base), TargetIndex(s, src, size))
  {
    var i := FirstOverlap(s.entries, src, src + size);
    var j := LowerBound(s.entries, src + size);
    StretchFits(s, src, size);
    StretchIsAbsorbed(s, src, size, base, i, j);
    var r := AbsorbedFrom(s, src, size, base, i, j);
    SpanCovers(s, src, size);
    Placing(s, src, size, i, j, BlocksOf(s.entries[i + 1..j]), r.0, r.1, Span(s, src, size));
    assert Registered(s, src, size, base) == State(r.0, Spliced(s.entries, i, j, Entry(Begin(r.1.chunks), r.1)));
  }

  lemma {:induction false} Placing(
    s: State, src: int, size: int, i: nat, j: nat, rest: seq<Block>, os': Os, b: Block, span: Range)
    requires Inv(s) && FitsAt(s.entries, i, j, span) && span.start <= src && src + size <= span.end
    requires i < j && rest == BlocksOf(s.entries[i + 1..j])
    requires AbsorbedOk(s.os, s.entries[i].block, rest, os', b, span)
    ensures RegisterOk(s, src, size, State(os', Spliced(s.entries, i, j, Entry(Begin(b.chunks), b))), i)
  {
    var e := Entry(Begin(b.chunks), b);
    StretchHeld(s.entries, i, j, rest, b);
    SpliceKeepsInv(s, os', i, j, e, span);
    SpliceIsStable(s, os', i, j, e);
    SpliceElements(s.entries, i, j, e);
  }

  lemma {:induction false} StretchHeld(entries: seq<Entry>, i: nat, j: nat, rest: seq<Block>, b: Block)
    requires i < j <= |entries| && rest == BlocksOf(entries[i + 1..j])
    requires Holds(entries[i].block, b) && forall x :: 0 <= x < |rest| ==> Holds(rest[x], b)
    ensures forall x :: i <= x < j ==> Holds(entries[x].block, b)
  {
    forall x | i <= x < j ensures Holds(entries[x].block, b) {
      if i < x {
        assert rest[x - i - 1] == entries[x].block;
      }
    }
  }

  /** Registration keeps every mapping on record. */
  lemma {:induction false} RegisterKeepsAccounted(s: State, src: int, size: int, base: int)
    requires Inv(s) && Keyed(s.entries) && size > 0 && Accounted(s)
    requires FreshBase(s, src, size, base)
    ensures Accounted(Registered(s, src, size, base))
  {
    var i := FirstOverlap(s.entries, src, src + size);
    if i == |s.entries| {
      var k := LowerBound(s.entries, PageDown(src));
      NewBlockIsSound(s.os, src, size, base);
      var r := NewBlock(s.os, src, size, base);
      SpliceKeepsAccounted(s, r.0, k, k, Entry(PageDown(src), r.1));
    } else {
      var j := LowerBound(s.entries, src + size);
      StretchFits(s, src, size);
      StretchIsAbsorbed(s, src, size, base, i, j);
      var r := AbsorbedFrom(s, src, size, base, i, j);
      StretchHeld(s.entries, i, j, BlocksOf(s.entries[i + 1..j]), r.1);
      SpliceKeepsAccounted(s, r.0, i, j, Entry(Begin(r.1.chunks), r.1));
    }
  }

  lemma {:induction false} LastOfStretch(entries: seq<Entry>, i: nat, j: nat)
    requires i < j <= |entries|
    requires forall k :: 0 <= k < |entries| ==> |entries[k].block.chunks| > 0
    ensures
      var rest := BlocksOf(entries[i + 1..j]);
      End(entries[j - 1].block.chunks)
      == if rest == [] then End(entries[i].block.chunks) else End(rest[|rest| - 1].chunks)
  {
  }

  /** `registerMemoryBlock` keeps the invariant: blocks stay disjoint, page-aligned, gapless, keyed by
      their first page and mapped at matching offsets; nothing handed out before changes; and the
      requested range lies in one block. */
  lemma {:induction false} RegisterKeepsInvariant(s: State, src: int, size: int, base: int)
    requires Inv(s) && Keyed(s.entries) && size > 0
    requires FreshBase(s, src, size, base)
    ensures RegisterOk(s, src, size, Registered(s, src, size, base), TargetIndex(s, src, size))
  {
    if FirstOverlap(s.entries, src, src + size) == |s.entries| {
      RegisterNew(s, src, size, base);
    } else {
      RegisterMeeting(s, src, size, base);
    }
  }
}
