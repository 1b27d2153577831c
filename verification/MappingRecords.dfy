/** The mappings the blocks keep on record, live ones and retired ones (shared/shmem.h): over every run each
    mapped address is on record exactly once, so the destructors unmap each mapping once and nothing else. */
module MappingRecords {
  import opened Ranges
  import opened ServiceMemory
  import opened MemoryBlocks
  import opened BlockGrowth
  import opened BlocksManager
  import opened BlockRegistration
  import opened PointerStability

  /** A mapping: where it starts and how long it is. */
  type Mapping = (int, int)

  /** How many of the mappings contain address v. */
  function Count(ms: seq<Mapping>, v: int): nat {
    if ms == [] then 0 else Count(ms[..|ms| - 1], v) + if Retired(ms[|ms| - 1], v) then 1 else 0
  }

  lemma {:induction false} CountConcat(p: seq<Mapping>, q: seq<Mapping>, v: int)
    ensures Count(p + q, v) == Count(p, v) + Count(q, v)
    decreases |q|
  {
    if q == [] {
      assert p + q == p;
    } else {
      var n := |q| - 1;
      assert (p + q)[..|p + q| - 1] == p + q[..n];
      CountConcat(p, q[..n], v);
    }
  }

  lemma {:induction false} CountOne(m: Mapping, v: int)
    ensures Count([m], v) == if Retired(m, v) then 1 else 0
  {
    assert [m][..0] == [];
  }

  /** An address counted at most once lies in no two of the mappings. */
  lemma {:induction false} CountedOnce(ms: seq<Mapping>, i: nat, j: nat, v: int)
    requires i < j < |ms| && Retired(ms[i], v) && Retired(ms[j], v)
    ensures Count(ms, v) >= 2
    decreases |ms|
  {
    var n := |ms| - 1;
    if j == n {
      CountedIfIn(ms[..n], i, v);
    } else {
      CountedOnce(ms[..n], i, j, v);
    }
  }

  lemma {:induction false} CountedIfIn(ms: seq<Mapping>, i: nat, v: int)
    requires i < |ms| && Retired(ms[i], v)
    ensures Count(ms, v) >= 1
    decreases |ms|
  {
    if i < |ms| - 1 {
      CountedIfIn(ms[..|ms| - 1], i, v);
    }
  }

  lemma {:induction false} CountedIsIn(ms: seq<Mapping>, v: int)
    requires Count(ms, v) > 0
    ensures RecordsOld(ms, v)
    decreases |ms|
  {
    var n := |ms| - 1;
    if Retired(ms[n], v) {
      assert 0 <= n < |ms|;
    } else {
      CountedIsIn(ms[..n], v);
      var k :| 0 <= k < n && Retired(ms[..n][k], v);
      assert Retired(ms[k], v);
    }
  }

  // ---------- the records of a block ----------

  /** In the order in which the destructor gives them back. */
  function BlockRecords(b: Block): seq<Mapping> { b.oldMappings + LiveMappings(b.chunks) }

  function BlockCount(b: Block, v: int): nat { Count(b.oldMappings, v) + Count(LiveMappings(b.chunks), v) }

  lemma {:induction false} BlockCountIs(b: Block, v: int)
    ensures Count(BlockRecords(b), v) == BlockCount(b, v)
  {
    CountConcat(b.oldMappings, LiveMappings(b.chunks), v);
  }

  lemma {:induction false} LiveConcat(p: seq<Chunk>, q: seq<Chunk>)
    ensures LiveMappings(p + q) == LiveMappings(p) + LiveMappings(q)
    decreases |q|
  {
    if q == [] {
      assert p + q == p;
    } else {
      var n := |q| - 1;
      assert (p + q)[..|p + q| - 1] == p + q[..n];
      LiveConcat(p, q[..n]);
      var last := if q[n].at.Some? then [(q[n].at.value, q[n].size)] else [];
      ConcatAssoc(LiveMappings(p), LiveMappings(q[..n]), last);
    }
  }

  lemma {:induction false} LiveOne(c: Chunk)
    ensures LiveMappings([c]) == if c.at.Some? then [(c.at.value, c.size)] else []
  {
    assert [c][..0] == [];
  }

  /** A chunk that is not mapped yet adds no record. */
  lemma {:induction false} AppendedCount(os: Os, b: Block, srcEnd: int, v: int)
    requires |b.chunks| > 0
    ensures BlockCount(Appended(os, b, srcEnd).1, v) == BlockCount(b, v)
  {
    var c := NewChunk(os, End(b.chunks), srcEnd - End(b.chunks));
    LiveConcat(b.chunks, [c]);
    LiveOne(c);
    assert LiveMappings(b.chunks) + [] == LiveMappings(b.chunks);
  }

  lemma {:induction false} PrependedCount(os: Os, b: Block, pageBegin: int, v: int)
    requires |b.chunks| > 0
    ensures BlockCount(Prepended(os, b, pageBegin).1, v) == BlockCount(b, v)
  {
    var c := NewChunk(os, pageBegin, Begin(b.chunks) - pageBegin);
    LiveConcat([c], b.chunks);
    LiveOne(c);
    assert [] + LiveMappings(b.chunks) == LiveMappings(b.chunks);
  }

  lemma {:induction false} WidenedCount(os: Os, b: Block, src: int, size: int, v: int)
    requires |b.chunks| > 0
    ensures BlockCount(MemoryBlocks.Widened(os, b, src, size).1, v) == BlockCount(b, v)
  {
    var l := WidenedLeft(os, b, src);
    if PageDown(src) < Begin(b.chunks) {
      PrependedCount(os, b, PageDown(src), v);
    }
    if End(l.1.chunks) < src + size {
      AppendedCount(l.0, l.1, src + size, v);
    }
  }

  /** Merging adds up the records of both blocks. */
  lemma {:induction false} MergedCount(os: Os, b: Block, rhs: Block, v: int)
    requires |b.chunks| > 0 && |rhs.chunks| > 0
    ensures BlockCount(MergedWith(os, b, rhs).1, v) == BlockCount(b, v) + BlockCount(rhs, v)
  {
    var f := if End(b.chunks) != Begin(rhs.chunks) then Appended(os, b, Begin(rhs.chunks)) else (os, b);
    AppendedCount(os, b, Begin(rhs.chunks), v);
    LiveConcat(f.1.chunks, rhs.chunks);
    CountConcat(LiveMappings(f.1.chunks), LiveMappings(rhs.chunks), v);
    CountConcat(f.1.oldMappings, rhs.oldMappings, v);
  }

  function BlocksCount(bs: seq<Block>, n: nat, v: int): nat
    requires n <= |bs|
  {
    if n == 0 then 0 else BlocksCount(bs, n - 1, v) + BlockCount(bs[n - 1], v)
  }

  lemma {:induction false} MergedUpToCount(os: Os, b: Block, rest: seq<Block>, n: nat, v: int)
    requires n <= |rest| && |b.chunks| > 0 && forall i :: 0 <= i < |rest| ==> |rest[i].chunks| > 0
    ensures BlockCount(MergedUpTo(os, b, rest, n).1, v) == BlockCount(b, v) + BlocksCount(rest, n, v)
    decreases n
  {
    if n > 0 {
      MergedUpToCount(os, b, rest, n - 1, v);
      var m := MergedUpTo(os, b, rest, n - 1);
      MergedCount(m.0, m.1, rest[n - 1], v);
    }
  }

  // ---------- remapping ----------

  /** Chunks placed one after the other contain each address of their stretch once. */
  lemma {:induction false} PlacedCount(chunks: seq<Chunk>, delta: int, v: int)
    requires Gapless(chunks)
    ensures Count(LiveMappings(Placed(chunks, delta)), v) == if Begin(chunks) <= v - delta < End(chunks) then 1 else 0
    decreases |chunks|
  {
    var n := |chunks| - 1;
    LastPlacedCount(chunks, delta, v);
    if n > 0 {
      PlacedCount(chunks[..n], delta, v);
      ChunkInBlock(chunks, n);
      assert End(chunks[..n]) == chunks[n].first && Begin(chunks[..n]) == Begin(chunks);
    } else {
      assert Placed(chunks[..n], delta) == [];
    }
  }

  lemma {:induction false} LastPlacedCount(chunks: seq<Chunk>, delta: int, v: int)
    requires |chunks| > 0
    ensures
      var n := |chunks| - 1;
      Count(LiveMappings(Placed(chunks, delta)), v)
      == Count(LiveMappings(Placed(chunks[..n], delta)), v) + if chunks[n].Has(v - delta) then 1 else 0
  {
    var n := |chunks| - 1;
    var c := chunks[n].(at := Some(chunks[n].first + delta));
    assert Placed(chunks, delta) == Placed(chunks[..n], delta) + [c];
    LiveConcat(Placed(chunks[..n], delta), [c]);
    LiveOne(c);
    CountConcat(LiveMappings(Placed(chunks[..n], delta)), LiveMappings([c]), v);
    CountOne((c.at.value, c.size), v);
  }

  lemma {:induction false} RemapDomain(mem: Mappings, chunks: seq<Chunk>, base: int, v: int)
    requires Gapless(chunks)
    ensures v in RemapMem(mem, chunks, base)
            <==> v in mem || base <= v < base + (End(chunks) - Begin(chunks))
  {
    var delta := base - Begin(chunks);
    var space := WithAnonymous(mem, base, End(chunks) - Begin(chunks));
    assert v in space <==> v in mem || v in Stretch(base, End(chunks) - Begin(chunks));
    if Begin(chunks) <= v - delta < End(chunks) {
      var i := EveryAddressBacked(chunks, v - delta);
      MapUpToReach(space, chunks, |chunks|, delta, v, i);
    } else {
      MapUpToElsewhere(space, chunks, |chunks|, delta, v);
    }
  }

  /** Remapping adds one record for each address of the new stretch. */
  lemma {:induction false} RemappedCount(os: Os, b: Block, base: int, v: int)
    requires Gapless(b.chunks)
    ensures BlockCount(Remapped(os, b, base).1, v)
            == BlockCount(b, v) + if base <= v < base + (End(b.chunks) - Begin(b.chunks)) then 1 else 0
    ensures v in Remapped(os, b, base).0.mem
            <==> v in os.mem || base <= v < base + (End(b.chunks) - Begin(b.chunks))
  {
    CountConcat(b.oldMappings, LiveMappings(b.chunks), v);
    PlacedCount(b.chunks, base - Begin(b.chunks), v);
    RemapDomain(os.mem, b.chunks, base, v);
  }

  // ---------- registration ----------

  /** As many records as the address has mappings, none or one. */
  predicate Once(mem: Mappings, count: nat, v: int) { count == if v in mem then 1 else 0 }

  lemma {:induction false} MergedAndWidenedCount(os: Os, first: Block, rest: seq<Block>, src: int, size: int, v: int)
    requires |first.chunks| > 0 && forall i :: 0 <= i < |rest| ==> |rest[i].chunks| > 0
    ensures
      var m := MergedAll(os, first, rest);
      var w := MemoryBlocks.Widened(m.0, m.1, src, size);
      BlockCount(w.1, v) == BlockCount(first, v) + BlocksCount(rest, |rest|, v)
  {
    var m := MergedAll(os, first, rest);
    MergedUpToCount(os, first, rest, |rest|, v);
    WidenedCount(m.0, m.1, src, size, v);
  }

  lemma {:induction false} RemappedOnce(os: Os, b: Block, base: int, others: nat, v: int)
    requires Gapless(b.chunks) && Unmapped(os.mem, base, End(b.chunks) - Begin(b.chunks))
    requires Once(os.mem, others + BlockCount(b, v), v)
    ensures Once(Remapped(os, b, base).0.mem, others + BlockCount(Remapped(os, b, base).1, v), v)
  {
    RemappedCount(os, b, base, v);
    assert v in Stretch(base, End(b.chunks) - Begin(b.chunks))
           <==> base <= v < base + (End(b.chunks) - Begin(b.chunks));
  }

  lemma {:induction false} AbsorbedCount(
    os: Os, first: Block, rest: seq<Block>, src: int, size: int, base: int, others: nat, v: int)
    requires Mergeable(os, first, rest) && size > 0
    requires rest != [] || RequiresExtension(first, src, size) ==>
               Unmapped(os.mem, base, SpanOf(first, rest, src, size).Size())
    requires Once(os.mem, others + BlockCount(first, v) + BlocksCount(rest, |rest|, v), v)
    ensures
      var r := Absorbed(os, first, rest, src, size, base);
      Once(r.0.mem, others + BlockCount(r.1, v), v)
  {
    MergedAndWidened(os, first, rest, src, size);
    MergedAndWidenedCount(os, first, rest, src, size, v);
    var m := MergedAll(os, first, rest);
    var w := MemoryBlocks.Widened(m.0, m.1, src, size);
    if rest != [] || RequiresExtension(m.1, src, size) {
      RemappedOnce(w.0, w.1, base, others, v);
    }
  }

  lemma {:induction false} NewBlockCount(os: Os, src: int, size: int, base: int, others: nat, v: int)
    requires size > 0 && Unmapped(os.mem, base, PageUp(src + size) - PageDown(src)) && Once(os.mem, others, v)
    ensures
      var r := NewBlock(os, src, size, base);
      Once(r.0.mem, others + BlockCount(r.1, v), v)
  {
    var c := NewChunk(os, PageDown(src), src % PAGE_SIZE + size).(at := Some(base));
    NewChunkSize(src, size);
    LiveOne(c);
    CountOne((base, c.size), v);
    WithFileReaches(os.mem, base, c.size, c.id, v);
    assert v in Stretch(base, c.size) <==> base <= v < base + c.size;
  }

  /** The records of all blocks, in the order of the map. */
  function AllRecords(entries: seq<Entry>): seq<Mapping> {
    if entries == [] then []
    else AllRecords(entries[..|entries| - 1]) + BlockRecords(entries[|entries| - 1].block)
  }

  lemma {:induction false} AllRecordsConcat(p: seq<Entry>, q: seq<Entry>)
    ensures AllRecords(p + q) == AllRecords(p) + AllRecords(q)
    decreases |q|
  {
    if q == [] {
      assert p + q == p;
    } else {
      var n := |q| - 1;
      assert (p + q)[..|p + q| - 1] == p + q[..n];
      AllRecordsConcat(p, q[..n]);
      ConcatAssoc(AllRecords(p), AllRecords(q[..n]), BlockRecords(q[n].block));
    }
  }

  lemma {:induction false} RecordsOfOne(e: Entry)
    ensures AllRecords([e]) == BlockRecords(e.block)
  {
    assert [e][..0] == [];
  }

  lemma {:induction false} StretchCount(entries: seq<Entry>, v: int)
    ensures Count(AllRecords(entries), v) == BlocksCount(BlocksOf(entries), |entries|, v)
    decreases |entries|
  {
    if entries != [] {
      var n := |entries| - 1;
      StretchCount(entries[..n], v);
      CountConcat(AllRecords(entries[..n]), BlockRecords(entries[n].block), v);
      BlockCountIs(entries[n].block, v);
      PrefixCount(BlocksOf(entries), BlocksOf(entries[..n]), n, v);
    }
  }

  lemma {:induction false} PrefixCount(p: seq<Block>, q: seq<Block>, n: nat, v: int)
    requires n <= |p| && n <= |q| && forall i :: 0 <= i < n ==> p[i] == q[i]
    ensures BlocksCount(p, n, v) == BlocksCount(q, n, v)
    decreases n
  {
    if n > 0 {
      PrefixCount(p, q, n - 1, v);
    }
  }

  /** Records outside a stretch of the map, in it, and after it was replaced by one block. */
  lemma {:induction false} SplicedCount(entries: seq<Entry>, i: nat, j: nat, e: Entry, v: int)
    requires i <= j <= |entries|
    ensures
      var others := Count(AllRecords(entries[..i]), v) + Count(AllRecords(entries[j..]), v);
      && Count(AllRecords(entries), v) == others + Count(AllRecords(entries[i..j]), v)
      && Count(AllRecords(Spliced(entries, i, j, e)), v) == others + BlockCount(e.block, v)
  {
    var l, m, h := entries[..i], entries[i..j], entries[j..];
    SplitInThree(entries, i, j);
    AllRecordsConcat(l, m);
    AllRecordsConcat(l + m, h);
    AllRecordsConcat(l, [e]);
    AllRecordsConcat(l + [e], h);
    RecordsOfOne(e);
    BlockCountIs(e.block, v);
    CountConcat(AllRecords(l), AllRecords(m), v);
    CountConcat(AllRecords(l + m), AllRecords(h), v);
    CountConcat(AllRecords(l), BlockRecords(e.block), v);
    CountConcat(AllRecords(l + [e]), AllRecords(h), v);
  }

  lemma {:induction false} FirstAndRest(entries: seq<Entry>, i: nat, j: nat, v: int)
    requires i < j <= |entries|
    ensures Count(AllRecords(entries[i..j]), v)
            == BlockCount(entries[i].block, v) + BlocksCount(BlocksOf(entries[i + 1..j]), j - i - 1, v)
  {
    assert entries[i..j] == [entries[i]] + entries[i + 1..j];
    AllRecordsConcat([entries[i]], entries[i + 1..j]);
    RecordsOfOne(entries[i]);
    BlockCountIs(entries[i].block, v);
    CountConcat(BlockRecords(entries[i].block), AllRecords(entries[i + 1..j]), v);
    StretchCount(entries[i + 1..j], v);
  }

  ghost predicate RecordedOnce(s: State, v: int) { Once(s.os.mem, Count(AllRecords(s.entries), v), v) }

  lemma {:induction false} NewRangeRecordedOnce(s: State, src: int, size: int, base: int, v: int)
    requires Inv(s) && Keyed(s.entries) && size > 0 && FreshBase(s, src, size, base) && RecordedOnce(s, v)
    requires FirstOverlap(s.entries, src, src + size) == |s.entries|
    ensures RecordedOnce(Registered(s, src, size, base), v)
  {
    var k := LowerBound(s.entries, PageDown(src));
    var r := NewBlock(s.os, src, size, base);
    SplicedCount(s.entries, k, k, Entry(PageDown(src), r.1), v);
    assert s.entries[k..k] == [];
    NewBlockCount(s.os, src, size, base, Count(AllRecords(s.entries), v), v);
  }

  function OthersCount(entries: seq<Entry>, i: nat, j: nat, v: int): nat
    requires i <= j <= |entries|
  {
    Count(AllRecords(entries[..i]), v) + Count(AllRecords(entries[j..]), v)
  }

  lemma {:induction false} StretchOnce(s: State, i: nat, j: nat, v: int)
    requires i < j <= |s.entries| && RecordedOnce(s, v)
    ensures
      var first, rest := s.entries[i].block, BlocksOf(s.entries[i + 1..j]);
      Once(s.os.mem, OthersCount(s.entries, i, j, v) + BlockCount(first, v) + BlocksCount(rest, |rest|, v), v)
  {
    SplicedCount(s.entries, i, j, s.entries[i], v);
    FirstAndRest(s.entries, i, j, v);
  }

  lemma {:induction false} StretchAbsorbedOnce(
    s: State, src: int, size: int, base: int, i: nat, j: nat, r: (Os, Block), v: int)
    requires Inv(s) && Keyed(s.entries) && size > 0 && FreshBase(s, src, size, base) && RecordedOnce(s, v)
    requires i == FirstOverlap(s.entries, src, src + size) < j == LowerBound(s.entries, src + size)
    requires r == Absorbed(s.os, s.entries[i].block, BlocksOf(s.entries[i + 1..j]), src, size, base)
    ensures Once(r.0.mem, OthersCount(s.entries, i, j, v) + BlockCount(r.1, v), v)
  {
    StretchIsMergeable(s, src, size, base, i, j);
    StretchOnce(s, i, j, v);
    var others := OthersCount(s.entries, i, j, v);
    AbsorbedCount(s.os, s.entries[i].block, BlocksOf(s.entries[i + 1..j]), src, size, base, others, v);
  }

  lemma {:induction false} SpliceOnce(entries: seq<Entry>, i: nat, j: nat, mem: Mappings, e: Entry, v: int)
    requires i <= j <= |entries| && Once(mem, OthersCount(entries, i, j, v) + BlockCount(e.block, v), v)
    ensures Once(mem, Count(AllRecords(Spliced(entries, i, j, e)), v), v)
  {
    SplicedCount(entries, i, j, e, v);
  }

  lemma {:induction false} MeetingRangeRecordedOnce(s: State, src: int, size: int, base: int, v: int)
    requires Inv(s) && Keyed(s.entries) && size > 0 && FreshBase(s, src, size, base) && RecordedOnce(s, v)
    requires FirstOverlap(s.entries, src, src + size) < |s.entries|
    ensures RecordedOnce(Registered(s, src, size, base), v)
  {
    StretchFits(s, src, size);
    var i := FirstOverlap(s.entries, src, src + size);
    var j := LowerBound(s.entries, src + size);
    var r := AbsorbedFrom(s, src, size, base, i, j);
    RegisteredMeeting(s, src, size, base, i, j, r);
    StretchAbsorbedOnce(s, src, size, base, i, j, r, v);
    SpliceOnce(s.entries, i, j, r.0.mem, Entry(Begin(r.1.chunks), r.1), v);
  }

  lemma {:induction false} StretchIsMergeable(s: State, src: int, size: int, base: int, i: nat, j: nat)
    requires Inv(s) && Keyed(s.entries) && size > 0 && FreshBase(s, src, size, base)
    requires i == FirstOverlap(s.entries, src, src + size) < j == LowerBound(s.entries, src + size)
    ensures
      var first, rest := s.entries[i].block, BlocksOf(s.entries[i + 1..j]);
      && Mergeable(s.os, first, rest)
      && (rest != [] || RequiresExtension(first, src, size) ==>
            Unmapped(s.os.mem, base, SpanOf(first, rest, src, size).Size()))
  {
    StretchIsRightOf(s, i, j);
    SpanOfStretch(s, src, size, i, j);
    assert EntryOk(s.os, s.entries[i]);
  }

  /** Registration records what it maps, once, and what it retires stays on record, once. */
  lemma {:induction false} RegisterRecordsOnce(s: State, src: int, size: int, base: int, v: int)
    requires Inv(s) && Keyed(s.entries) && size > 0 && FreshBase(s, src, size, base) && RecordedOnce(s, v)
    ensures RecordedOnce(Registered(s, src, size, base), v)
  {
    if FirstOverlap(s.entries, src, src + size) == |s.entries| {
      NewRangeRecordedOnce(s, src, size, base, v);
    } else {
      MeetingRangeRecordedOnce(s, src, size, base, v);
    }
  }

  // ---------- whole runs ----------

  lemma {:induction false} RunsRecordOnce(states: seq<State>, calls: seq<Call>, k: nat, v: int)
    requires IsRun(states, calls) && k < |states|
    ensures RecordedOnce(states[k], v)
    decreases k
  {
    if k > 0 {
      RunsRecordOnce(states, calls, k - 1, v);
      RunsStayStable(states, calls, 0, k - 1);
      InvIsKeyed(states[k - 1]);
      assert CanRegister(states[k - 1], calls[k - 1], states[k]);
      var c := calls[k - 1];
      RegisterRecordsOnce(states[k - 1], c.src, c.size, c.base, v);
    }
  }

  /** No two mappings on record share an address. */
  ghost predicate Apart(ms: seq<Mapping>) {
    forall i, j, v :: 0 <= i < j < |ms| && Retired(ms[i], v) ==> !Retired(ms[j], v)
  }

  /** Over every run the mappings on record, live and retired, of all blocks, are pairwise disjoint, and an
      address is on record if and only if it is mapped. */
  lemma {:induction false} RecordsAreTheMappings(states: seq<State>, calls: seq<Call>, k: nat)
    requires IsRun(states, calls) && k < |states|
    ensures Apart(AllRecords(states[k].entries))
    ensures forall v :: v in states[k].os.mem <==> RecordsOld(AllRecords(states[k].entries), v)
  {
    var ms := AllRecords(states[k].entries);
    forall i, j, v | 0 <= i < j < |ms| && Retired(ms[i], v) ensures !Retired(ms[j], v) {
      RunsRecordOnce(states, calls, k, v);
      if Retired(ms[j], v) {
        CountedOnce(ms, i, j, v);
      }
    }
    forall v ensures v in states[k].os.mem <==> RecordsOld(ms, v) {
      RunsRecordOnce(states, calls, k, v);
      if RecordsOld(ms, v) {
        var i :| 0 <= i < |ms| && Retired(ms[i], v);
        CountedIfIn(ms, i, v);
      }
      if v in states[k].os.mem {
        CountedIsIn(ms, v);
      }
    }
  }

  // ---------- destruction ----------

  /** munmap of all the mappings, one after the other. */
  function UnmapAll(mem: Mappings, ms: seq<Mapping>): Mappings {
    if ms == [] then mem
    else WithoutStretch(UnmapAll(mem, ms[..|ms| - 1]), ms[|ms| - 1].0, ms[|ms| - 1].1)
  }

  lemma {:induction false} UnmapOneMore(mem: Mappings, ms: seq<Mapping>, m: Mapping)
    ensures UnmapAll(mem, ms + [m]) == WithoutStretch(UnmapAll(mem, ms), m.0, m.1)
  {
    assert (ms + [m])[..|ms|] == ms;
  }

  lemma {:induction false} UnmapConcat(mem: Mappings, p: seq<Mapping>, q: seq<Mapping>)
    ensures UnmapAll(mem, p + q) == UnmapAll(UnmapAll(mem, p), q)
    decreases |q|
  {
    if q == [] {
      assert p + q == p;
    } else {
      var n := |q| - 1;
      UnmapConcat(mem, p, q[..n]);
      UnmapOneMore(mem, p + q[..n], q[n]);
      assert p + q == p + q[..n] + [q[n]];
    }
  }

  lemma {:induction false} StillMapped(mem: Mappings, ms: seq<Mapping>, v: int)
    ensures v in UnmapAll(mem, ms) <==> v in mem && !RecordsOld(ms, v)
    decreases |ms|
  {
    if ms != [] {
      var n := |ms| - 1;
      StillMapped(mem, ms[..n], v);
      RecordsOldConcat(ms[..n], [ms[n]], v);
      assert ms == ms[..n] + [ms[n]];
      assert RecordsOld([ms[n]], v) <==> Retired([ms[n]][0], v);
      assert v in Stretch(ms[n].0, ms[n].1) <==> Retired(ms[n], v);
    }
  }

  ghost predicate AllRecordedOnce(s: State) { forall v :: RecordedOnce(s, v) }

  /** Where every mapped address is on record once, giving back all records one after the other unmaps only
      what is mapped at that moment, and leaves nothing mapped. */
  lemma {:induction false} UnmappingIsExact(s: State)
    requires AllRecordedOnce(s)
    ensures
      forall n, v :: 0 <= n < |AllRecords(s.entries)| && Retired(AllRecords(s.entries)[n], v) ==>
        v in UnmapAll(s.os.mem, AllRecords(s.entries)[..n])
    ensures UnmapAll(s.os.mem, AllRecords(s.entries)) == map[]
  {
    var mem, ms := s.os.mem, AllRecords(s.entries);
    forall n, v | 0 <= n < |ms| && Retired(ms[n], v) ensures v in UnmapAll(mem, ms[..n]) {
      assert RecordedOnce(s, v);
      CountedIfIn(ms, n, v);
      StillMapped(mem, ms[..n], v);
      if RecordsOld(ms[..n], v) {
        var i :| 0 <= i < n && Retired(ms[..n][i], v);
        CountedOnce(ms, i, n, v);
      }
    }
    forall v ensures v !in UnmapAll(mem, ms) {
      assert RecordedOnce(s, v);
      StillMapped(mem, ms, v);
      if v in mem {
        CountedIsIn(ms, v);
      }
    }
  }

  /** So at the end of any run the destructors unmap each mapping exactly once and nothing else. */
  lemma {:induction false} DestructionIsExact(states: seq<State>, calls: seq<Call>, k: nat)
    requires IsRun(states, calls) && k < |states|
    ensures AllRecordedOnce(states[k])
    ensures UnmapAll(states[k].os.mem, AllRecords(states[k].entries)) == map[]
  {
    forall v ensures RecordedOnce(states[k], v) {
      RunsRecordOnce(states, calls, k, v);
    }
    UnmappingIsExact(states[k]);
  }
}
