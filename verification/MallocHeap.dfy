/** The shared malloc heap (client/client_malloc_override.cpp): a 4 GB reservation whose mapped
    prefix grows by doubling, with a `RangeAllocator` handing out pieces of it. */
module MallocHeap {
  import opened Ranges
  import opened PartitionedRange
  import RA = RangeAllocator

  const MB := 1024 * 1024
  const INITIAL_CAPACITY := 8 * MB
  const MAX_CAPACITY := 4096 * MB
  const NATURAL_ALIGNMENT := 16

  /** 8 MB times a power of two, at most 4 GB. */
  ghost predicate IsHeapSize(n: int) {
    exists k: nat :: k <= 9 && n == INITIAL_CAPACITY * Pow2(k)
  }

  lemma {:induction false} DoublingStaysInRange(n: int)
    requires IsHeapSize(n) && n < MAX_CAPACITY
    ensures IsHeapSize(2 * n)
  {
    var k: nat :| k <= 9 && n == INITIAL_CAPACITY * Pow2(k);
    NinthDoublingIsMax();
    DoubledSize(k);
  }

  lemma {:induction false} DoubledSize(k: nat)
    requires k < 9
    ensures IsHeapSize(2 * (INITIAL_CAPACITY * Pow2(k)))
  {
    assert Pow2(k + 1) == 2 * Pow2(k);
    assert 2 * (INITIAL_CAPACITY * Pow2(k)) == INITIAL_CAPACITY * Pow2(k + 1);
  }

  lemma {:induction false} NinthDoublingIsMax()
    ensures INITIAL_CAPACITY * Pow2(9) == MAX_CAPACITY
  {
    assert Pow2(3) == 8;
    assert Pow2(6) == 64;
    assert Pow2(9) == 512;
  }

  lemma {:induction false} HeapSizeIsBounded(n: int)
    requires IsHeapSize(n)
    ensures INITIAL_CAPACITY <= n <= MAX_CAPACITY
  {
    var k: nat :| k <= 9 && n == INITIAL_CAPACITY * Pow2(k);
    Pow2Monotone(k, 9);
    NinthDoublingIsMax();
  }

  /** The global state as a value: allocator, mapped prefix and shared-memory file size. */
  datatype Heap = Heap(alloc: RA.State, size: int, fileSize: int)

  /** The allocator is consistent over the whole reservation and its live ranges lie in the first bytes. */
  ghost predicate AllocSound(alloc: RA.State, mapped: int) {
    && RA.Consistent(alloc)
    && RA.AlignedTo(alloc.vma, NATURAL_ALIGNMENT)
    && alloc.vma.desc.start > 0
    && alloc.vma.desc.Size() == MAX_CAPACITY
    && EndBelow(alloc.vma.subs, alloc.vma.desc.start + mapped)
  }

  /** Every live range lies in the mapped prefix, which the file backs entirely. */
  ghost predicate Sound(h: Heap) {
    AllocSound(h.alloc, h.size) && IsHeapSize(h.size) && h.size <= h.fileSize
  }

  ghost predicate EndBelow(subs: seq<Node>, limit: int) {
    forall i :: 0 <= i < |subs| ==> subs[i].desc.end <= limit
  }

  /** The heap size reached when `needed` bytes must be mapped: the first doubling that covers them. */
  ghost predicate GrownTo(was: int, needed: int, now: int) {
    && IsHeapSize(now) && was <= now && needed <= now
    && (now == was || now < 2 * needed)
  }

  /** What one `mallocNoFallback` call may do. */
  ghost predicate MallocStep(h: Heap, size: int, h': Heap, ptr: int) {
    if ptr == 0 then h'.alloc == h.alloc && h'.size == h.size
    else
      && RA.AllocStep(h.alloc, size, NATURAL_ALIGNMENT, h'.alloc, Range(ptr, ptr + size))
      && GrownTo(h.size, ptr + size - h.alloc.vma.desc.start, h'.size)
  }

  ghost predicate FreeStep(h: Heap, ptr: int, h': Heap) {
    RA.FreeStep(h.alloc, ptr, h'.alloc) && h'.size == h.size && h'.fileSize == h.fileSize
  }

  lemma {:induction false} MallocKeepsSound(h: Heap, size: int, h': Heap, ptr: int)
    requires Sound(h) && size > 0 && MallocStep(h, size, h', ptr) && h'.size <= h'.fileSize
    ensures Sound(h')
    ensures ptr != 0 ==> h.alloc.vma.desc.start <= ptr && ptr + size <= h.alloc.vma.desc.start + h'.size
  {
    if ptr != 0 {
      var r := Range(ptr, ptr + size);
      RA.AllocKeepsConsistent(h.alloc, size, NATURAL_ALIGNMENT, h'.alloc, r);
      InsertedEndsBelow(h.alloc.vma.subs, Leaf(r), h.alloc.vma.desc.start + h'.size);
    }
  }

  lemma {:induction false} InsertedEndsBelow(subs: seq<Node>, n: Node, limit: int)
    requires EndBelow(subs, limit) && n.desc.end <= limit
    ensures EndBelow(Inserted(subs, n), limit)
  {
    InsertedElements(subs, n);
    var p := InsertPos(subs, n.desc.start);
    var now := Inserted(subs, n);
    forall i | 0 <= i < |now| ensures now[i].desc.end <= limit {
      assert now[i] == if i < p then subs[i] else if i == p then n else subs[i - 1];
    }
  }

  lemma {:induction false} RemovedEndsBelow(subs: seq<Node>, i: nat, limit: int)
    requires EndBelow(subs, limit) && i < |subs|
    ensures EndBelow(subs[..i] + subs[i + 1..], limit)
  {
    RemovedElements(subs, i);
  }

  lemma {:induction false} FreeKeepsAllocSound(alloc: RA.State, mapped: int, ptr: int, alloc': RA.State)
    requires AllocSound(alloc, mapped) && RA.FreeStep(alloc, ptr, alloc')
    ensures AllocSound(alloc', mapped)
  {
    RA.FreeKeepsConsistent(alloc, ptr, alloc');
    var subs := alloc.vma.subs;
    if exists i :: 0 <= i < |subs| && subs[i].desc.Has(ptr) {
      var i :| 0 <= i < |subs| && subs[i].desc.Has(ptr) && alloc' == RA.Released(alloc, i);
      RemovedEndsBelow(subs, i, alloc.vma.desc.start + mapped);
    }
  }

  lemma {:induction false} FreeKeepsSound(h: Heap, ptr: int, h': Heap)
    requires Sound(h) && FreeStep(h, ptr, h')
    ensures Sound(h')
  {
    FreeKeepsAllocSound(h.alloc, h.size, ptr, h'.alloc);
  }

  // ---------- whole runs ----------

  datatype Op = Malloc(size: int, ptr: int) | Free(ptr: int)

  ghost predicate RunStep(h: Heap, op: Op, h': Heap) {
    match op
    case Malloc(size, ptr) => size > 0 && MallocStep(h, size, h', ptr) && h'.size <= h'.fileSize
    case Free(ptr) => FreeStep(h, ptr, h')
  }

  ghost predicate IsRun(heaps: seq<Heap>, ops: seq<Op>) {
    && |heaps| == |ops| + 1
    && forall k :: 0 <= k < |ops| ==> RunStep(heaps[k], ops[k], heaps[k + 1])
  }

  lemma {:induction false} RunStepKeepsSound(h: Heap, op: Op, h': Heap)
    requires Sound(h) && RunStep(h, op, h')
    ensures Sound(h') && h'.alloc.vma.desc == h.alloc.vma.desc && h.size <= h'.size
    ensures op.Malloc? && op.ptr != 0 ==>
              && h.alloc.vma.desc.start <= op.ptr
              && op.ptr + op.size <= h.alloc.vma.desc.start + h'.size
  {
    match op
    case Malloc(size, ptr) =>
      MallocKeepsSound(h, size, h', ptr);
      if ptr != 0 {
        RA.AllocKeepsConsistent(h.alloc, size, NATURAL_ALIGNMENT, h'.alloc, Range(ptr, ptr + size));
      }
    case Free(ptr) =>
      FreeKeepsSound(h, ptr, h');
      RA.FreeKeepsConsistent(h.alloc, ptr, h'.alloc);
  }

  /** Over any run the heap stays sound: its size is 8 MB times a power of two and at most 4 GB, it
      never shrinks, and every live range lies in the mapped prefix. */
  lemma {:induction false} RunsStaySound(heaps: seq<Heap>, ops: seq<Op>, j: nat, k: nat)
    requires IsRun(heaps, ops) && Sound(heaps[0]) && j <= k < |heaps|
    ensures Sound(heaps[k]) && heaps[k].alloc.vma.desc == heaps[0].alloc.vma.desc
    ensures INITIAL_CAPACITY <= heaps[k].size <= MAX_CAPACITY
    ensures heaps[j].size <= heaps[k].size
    decreases k
  {
    if k > 0 {
      RunsStaySound(heaps, ops, if j < k then j else k - 1, k - 1);
      RunStepKeepsSound(heaps[k - 1], ops[k - 1], heaps[k]);
    }
    HeapSizeIsBounded(heaps[k].size);
  }

  /** A range returned at step j lies in the prefix mapped at every later point k of the run. */
  lemma {:induction false} ReturnedRangesStayMapped(heaps: seq<Heap>, ops: seq<Op>, j: nat, k: nat)
    requires IsRun(heaps, ops) && Sound(heaps[0]) && j < k < |heaps|
    requires ops[j].Malloc? && ops[j].ptr != 0
    ensures heaps[0].alloc.vma.desc.start <= ops[j].ptr
    ensures ops[j].ptr + ops[j].size <= heaps[0].alloc.vma.desc.start + heaps[k].size
  {
    RunsStaySound(heaps, ops, 0, j);
    RunStepKeepsSound(heaps[j], ops[j], heaps[j + 1]);
    RunsStaySound(heaps, ops, j + 1, k);
  }

  lemma {:induction false} RolledBack(h: Heap, size: int, s1: RA.State, r: Range, h': Heap)
    ensures
      && Sound(h) && size > 0 && r != RA.EMPTY && h'.size == h.size && h.size <= h'.fileSize
      && RA.AllocStep(h.alloc, size, NATURAL_ALIGNMENT, s1, r) && RA.FreeStep(s1, r.start, h'.alloc)
      ==> h'.alloc == h.alloc && Sound(h')
  {
    if && Sound(h) && size > 0 && r != RA.EMPTY && h'.size == h.size && h.size <= h'.fileSize
       && RA.AllocStep(h.alloc, size, NATURAL_ALIGNMENT, s1, r) && RA.FreeStep(s1, r.start, h'.alloc)
    {
      RA.FreeUndoesAllocate(h.alloc, size, NATURAL_ALIGNMENT, s1, r, r.start, h'.alloc);
    }
  }

  lemma {:induction false} Succeeded(h: Heap, size: int, r: Range, h': Heap)
    requires Sound(h) && size > 0 && r != RA.EMPTY && RA.AllocStep(h.alloc, size, NATURAL_ALIGNMENT, h'.alloc, r)
    requires GrownTo(h.size, r.end - h.alloc.vma.desc.start, h'.size) && h'.size <= h'.fileSize
    ensures MallocStep(h, size, h', r.start) && Sound(h') && h'.alloc.vma.desc == h.alloc.vma.desc && r.start != 0
  {
    assert r == Range(r.start, r.start + size);
    RunStepKeepsSound(h, Malloc(size, r.start), h');
  }

  /** The file after a growth for `needed` bytes: untouched when it could not be extended, as large as the
      heap when the growth or the restoring truncation succeeded, else left at the size the growth wanted. */
  ghost predicate FileFollows(
    was: int, size: int, needed: int, truncates: bool, maps: bool, restores: bool, file: int, now: int) {
    if !truncates then file == was
    else if maps || restores then file == now
    else GrownTo(size, needed, file) && size < file
  }

  // ---------- the code ----------

  class ShmemHeap {
    const range: Range
    const allocator: RA.Allocator
    var currentHeapSize: int
    var fileSize: int

    function Value(): Heap
      reads this, allocator, allocator.vma
    {
      Heap(allocator.Value(), currentHeapSize, fileSize)
    }

    ghost predicate Valid()
      reads this, allocator, allocator.vma
    {
      && Sound(Value())
      && range == allocator.vma.desc
    }

    /** The successful end of `doInit`, with the address the reservation came back at. */
    constructor (base: int)
      requires base > 0 && base % NATURAL_ALIGNMENT == 0
      ensures Valid() && currentHeapSize == INITIAL_CAPACITY && allocator.vma.subRanges == []
      ensures fresh(allocator) && fresh(allocator.vma)
    {
      range := Range(base, base + MAX_CAPACITY);
      allocator := new RA.Allocator(Range(base, base + MAX_CAPACITY));
      currentHeapSize := INITIAL_CAPACITY;
      fileSize := INITIAL_CAPACITY;
      assert IsHeapSize(INITIAL_CAPACITY) by {
        assert INITIAL_CAPACITY == INITIAL_CAPACITY * Pow2(0);
      }
    }

    /** `tryGrow`; the three flags are the results of ftruncate, mmap and the restoring ftruncate. */
    method TryGrow(minSizeToGrow: int, truncates: bool, maps: bool, restores: bool) returns (ok: bool)
      requires IsHeapSize(currentHeapSize) && currentHeapSize <= fileSize
      requires 0 < minSizeToGrow && currentHeapSize + minSizeToGrow <= MAX_CAPACITY
      modifies `currentHeapSize, `fileSize
      ensures ok == (truncates && maps)
      ensures ok ==> GrownTo(old(currentHeapSize), old(currentHeapSize) + minSizeToGrow, currentHeapSize)
      ensures !ok ==> currentHeapSize == old(currentHeapSize)
      ensures FileFollows(old(fileSize), old(currentHeapSize), old(currentHeapSize) + minSizeToGrow,
                          truncates, maps, restores, fileSize, currentHeapSize)
      ensures currentHeapSize <= fileSize
    {
      HeapSizeIsBounded(currentHeapSize);
      var preferredSize := currentHeapSize;
      while preferredSize - currentHeapSize < minSizeToGrow
        invariant currentHeapSize == old(currentHeapSize) && fileSize == old(fileSize)
        invariant IsHeapSize(preferredSize) && currentHeapSize <= preferredSize
        invariant preferredSize == currentHeapSize || preferredSize < 2 * (currentHeapSize + minSizeToGrow)
        decreases MAX_CAPACITY - preferredSize
      {
        DoublingStaysInRange(preferredSize);
        preferredSize := preferredSize * 2;
      }
      if !truncates {
        return false;
      }
      fileSize := preferredSize;
      if !maps {
        if restores {
          fileSize := currentHeapSize;
        }
        return false;
      }
      currentHeapSize := preferredSize;
      return true;
    }

    /** `ensureMemoryIsMapped`. */
    method EnsureMemoryIsMapped(r: Range, truncates: bool, maps: bool, restores: bool) returns (ok: bool)
      requires IsHeapSize(currentHeapSize) && currentHeapSize <= fileSize && range.Size() == MAX_CAPACITY
      requires range.start <= r.start < r.end <= range.end
      modifies `currentHeapSize, `fileSize
      ensures ok ==> GrownTo(old(currentHeapSize), r.end - range.start, currentHeapSize)
      ensures !ok ==> currentHeapSize == old(currentHeapSize)
      ensures !ok ==> r.end - range.start > currentHeapSize && !(truncates && maps)
      ensures if r.end - range.start <= old(currentHeapSize) then fileSize == old(fileSize)
              else FileFollows(old(fileSize), old(currentHeapSize), r.end - range.start,
                               truncates, maps, restores, fileSize, currentHeapSize)
      ensures currentHeapSize <= fileSize
    {
      var minimumSizeRequired := r.end - range.start;
      ok := true;
      if minimumSizeRequired > currentHeapSize {
        ok := TryGrow(minimumSizeRequired - currentHeapSize, truncates, maps, restores);
      }
    }

    /** `mallocNoFallback`: null (0) leaves the allocator and the mapped prefix unchanged. */
    method MallocNoFallback(size: int, truncates: bool, maps: bool, restores: bool) returns (ptr: int)
      requires Valid() && size > 0
      modifies this, allocator, allocator.vma
      ensures MallocStep(old(Value()), size, Value(), ptr)
      ensures Valid()
      ensures ptr == 0 && truncates && maps ==>
          forall a :: !RA.FreeAt(old(allocator.vma.State()), size, NATURAL_ALIGNMENT, a)
    {
      ghost var h := Value();
      RA.AlignedIsSearchable(h.alloc, size, NATURAL_ALIGNMENT);
      var r := allocator.Allocate(size, NATURAL_ALIGNMENT);
      if r.start == 0 {
        assert r == RA.EMPTY;
        assert Value() == h;
        return 0;
      }
      ptr := MapOrGiveBack(r, size, truncates, maps, restores, h);
    }

    /** The second half: map what was allocated, or give it back. */
    method MapOrGiveBack(
      r: Range, size: int, truncates: bool, maps: bool, restores: bool, ghost h: Heap)
      returns (ptr: int)
      requires Sound(h) && size > 0 && r != RA.EMPTY && range == h.alloc.vma.desc
      requires RA.AllocStep(h.alloc, size, NATURAL_ALIGNMENT, allocator.Value(), r)
      requires currentHeapSize == h.size && fileSize == h.fileSize
      modifies this, allocator, allocator.vma
      ensures MallocStep(h, size, Value(), ptr) && Valid()
      ensures ptr == 0 ==> !(truncates && maps)
    {
      ghost var s1 := allocator.Value();
      RA.AllocKeepsConsistent(h.alloc, size, NATURAL_ALIGNMENT, s1, r);
      var ok := EnsureMemoryIsMapped(r, truncates, maps, restores);
      if !ok {
        GiveBack(r, size, h);
        return 0;
      }
      Succeeded(h, size, r, Value());
      return r.start;
    }

    /** Frees what was allocated, after the mapped prefix could not grow. */
    method GiveBack(r: Range, size: int, ghost h: Heap)
      requires Sound(h) && size > 0 && r != RA.EMPTY && range == h.alloc.vma.desc
      requires RA.AllocStep(h.alloc, size, NATURAL_ALIGNMENT, allocator.Value(), r) && RA.Consistent(allocator.Value())
      requires currentHeapSize == h.size <= fileSize
      modifies allocator, allocator.vma
      ensures allocator.Value() == h.alloc && Valid()
    {
      ghost var s1 := allocator.Value();
      allocator.Free(r.start);
      RolledBack(h, size, s1, r, Value());
    }

    /** `free` for addresses of the shared heap; other addresses go to the original allocator. */
    method Free(ptr: int) returns (handled: bool)
      requires Valid()
      modifies this, allocator, allocator.vma
      ensures handled == range.Has(ptr)
      ensures handled ==> FreeStep(old(Value()), ptr, Value())
      ensures !handled ==> Value() == old(Value())
      ensures Valid()
    {
      handled := range.Contains(Range(ptr, ptr + 1));
      if handled {
        ghost var h := Value();
        allocator.Free(ptr);
        FreeKeepsSound(h, ptr, Value());
        RA.FreeKeepsConsistent(h.alloc, ptr, allocator.Value());
      }
    }
  }
}
