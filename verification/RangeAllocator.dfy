/** `RangeAllocator` (shared/allocators.h, shared/allocators.cpp): first-fit allocation of aligned
    address ranges on top of the partitioned range. */
module RangeAllocator {
  import opened Ranges
  import opened PartitionedRange
  import opened RangeDestruction
  import opened AddressPartition

  const EMPTY := Range(0, 0)

  /** The allocator's fields as a value. */
  datatype State = State(vma: Node, used: int)

  function TotalSize(subs: seq<Node>): int {
    if subs == [] then 0 else subs[0].desc.Size() + TotalSize(subs[1..])
  }

  /** Live ranges are sorted, disjoint, in bounds and flat, and the byte count is their total. */
  ghost predicate Consistent(s: State) {
    && Valid(s.vma) && s.vma.desc.Nonempty()
    && (forall i :: 0 <= i < |s.vma.subs| ==> s.vma.subs[i].subs == [])
    && s.used == TotalSize(s.vma.subs)
  }

  /** The heap base and every live range start at a multiple of the alignment. */
  ghost predicate AlignedTo(vma: Node, alignment: int) {
    && alignment > 0
    && vma.desc.start % alignment == 0
    && forall i :: 0 <= i < |vma.subs| ==> vma.subs[i].desc.start % alignment == 0
  }

  ghost predicate MeetsNone(subs: seq<Node>, r: Range) {
    forall i :: 0 <= i < |subs| ==> !subs[i].desc.Intersects(r)
  }

  /** Address a starts an aligned, in-bounds, free stretch of the given size. */
  ghost predicate FreeAt(vma: Node, size: int, alignment: int, a: int)
    requires alignment > 0
  {
    && a % alignment == 0
    && vma.desc.Contains(Range(a, a + size))
    && MeetsNone(vma.subs, Range(a, a + size))
  }

  /** Where the allocator looks first: right after the last live range. */
  function AfterLast(vma: Node): int {
    if vma.subs == [] then vma.desc.start else vma.subs[|vma.subs| - 1].desc.end
  }

  function Committed(s: State, r: Range): State {
    State(Node(Widened(s.vma.desc, r), Inserted(s.vma.subs, Leaf(r))), s.used + r.Size())
  }

  /** What one `allocate` call may do: place the range after the last one when it fits there, at the
      lowest free aligned address otherwise, and fail exactly when there is no such address. */
  ghost predicate AllocStep(s: State, size: int, alignment: int, s': State, r: Range)
    requires alignment > 0
  {
    if r == EMPTY then
      s' == s && forall a :: !FreeAt(s.vma, size, alignment, a)
    else
      && r.end == r.start + size
      && FreeAt(s.vma, size, alignment, r.start)
      && s' == Committed(s, r)
      && var tail := AlignUp(AfterLast(s.vma), alignment);
         if s.vma.desc.Contains(Range(tail, tail + size)) then r.start == tail
         else forall a :: FreeAt(s.vma, size, alignment, a) ==> r.start <= a
  }

  /** What one `free` call does: drop the live range holding the address, if there is one. */
  ghost predicate FreeStep(s: State, ptr: int, s': State) {
    if exists i :: 0 <= i < |s.vma.subs| && s.vma.subs[i].desc.Has(ptr) then
      exists i :: 0 <= i < |s.vma.subs| && s.vma.subs[i].desc.Has(ptr) && s' == Released(s, i)
    else s' == s
  }

  function Released(s: State, i: nat): State
    requires i < |s.vma.subs|
  {
    State(Node(s.vma.desc, s.vma.subs[..i] + s.vma.subs[i + 1..]), s.used - s.vma.subs[i].desc.Size())
  }

  // ---------- sums of disjoint ranges ----------

  lemma {:induction false} TotalConcat(p: seq<Node>, q: seq<Node>)
    ensures TotalSize(p + q) == TotalSize(p) + TotalSize(q)
  {
    if p == [] {
      assert p + q == q;
    } else {
      assert (p + q)[0] == p[0] && (p + q)[1..] == p[1..] + q;
      TotalConcat(p[1..], q);
    }
  }

  lemma {:induction false} TotalOfInserted(subs: seq<Node>, n: Node)
    ensures TotalSize(Inserted(subs, n)) == TotalSize(subs) + n.desc.Size()
  {
    var p := InsertPos(subs, n.desc.start);
    TotalConcat(subs[..p], [n]);
    TotalConcat(subs[..p] + [n], subs[p..]);
    TotalConcat(subs[..p], subs[p..]);
    assert subs[..p] + subs[p..] == subs;
    assert TotalSize([n]) == n.desc.Size();
  }

  lemma {:induction false} TotalOfReleased(subs: seq<Node>, i: nat)
    requires i < |subs|
    ensures TotalSize(subs[..i] + subs[i + 1..]) == TotalSize(subs) - subs[i].desc.Size()
  {
    TotalConcat(subs[..i], subs[i + 1..]);
    TotalConcat(subs[..i], [subs[i]]);
    TotalConcat(subs[..i] + [subs[i]], subs[i + 1..]);
    SplitAround(subs, i);
    assert TotalSize([subs[i]]) == subs[i].desc.Size();
  }

  /** Disjoint ranges cannot add up to more than the range they lie in. */
  lemma {:induction false} TotalFits(subs: seq<Node>, bound: Range)
    requires Ordered(subs) && Inside(subs, bound) && bound.start <= bound.end
    ensures TotalSize(subs) <= bound.Size()
  {
    if subs != [] {
      TotalFits(subs[1..], Range(subs[0].desc.end, bound.end));
    }
  }

  /** The early exit of `allocate` is safe: with too few bytes left there is no placement. */
  lemma {:induction false} NoRoomNoPlacement(s: State, size: int, alignment: int, a: int)
    requires Consistent(s) && size > 0 && alignment > 0
    requires s.vma.desc.Size() - s.used < size
    ensures !FreeAt(s.vma, size, alignment, a)
  {
    if FreeAt(s.vma, size, alignment, a) {
      var n := Leaf(Range(a, a + size));
      InsertedKeepsOrder(s.vma.subs, n, s.vma.desc);
      TotalOfInserted(s.vma.subs, n);
      TotalFits(Inserted(s.vma.subs, n), s.vma.desc);
    }
  }

  // ---------- consequences of the two steps ----------

  lemma {:induction false} InsertedAreFlatAndAligned(subs: seq<Node>, n: Node, alignment: int)
    requires alignment > 0
    requires n.subs == [] && n.desc.start % alignment == 0
    requires forall i :: 0 <= i < |subs| ==> subs[i].subs == [] && subs[i].desc.start % alignment == 0
    ensures forall i :: 0 <= i < |Inserted(subs, n)| ==>
        Inserted(subs, n)[i].subs == [] && Inserted(subs, n)[i].desc.start % alignment == 0
  {
    InsertedElements(subs, n);
    var p := InsertPos(subs, n.desc.start);
    var r := Inserted(subs, n);
    forall i | 0 <= i < |r| ensures r[i].subs == [] && r[i].desc.start % alignment == 0 {
      assert r[i] == if i < p then subs[i] else if i == p then n else subs[i - 1];
    }
  }

  lemma {:induction false} AllocKeepsConsistent(s: State, size: int, alignment: int, s': State, r: Range)
    requires Consistent(s) && size > 0 && AlignedTo(s.vma, alignment)
    requires AllocStep(s, size, alignment, s', r)
    ensures Consistent(s') && AlignedTo(s'.vma, alignment) && s'.vma.desc == s.vma.desc
  {
    if r != EMPTY {
      InsertedKeepsOrder(s.vma.subs, Leaf(r), s.vma.desc);
      TotalOfInserted(s.vma.subs, Leaf(r));
      InsertedAreFlatAndAligned(s.vma.subs, Leaf(r), alignment);
    }
  }

  lemma {:induction false} ReleaseKeepsConsistent(s: State, i: nat)
    requires Consistent(s) && i < |s.vma.subs|
    ensures Consistent(Released(s, i))
    ensures forall alignment :: alignment > 0 && AlignedTo(s.vma, alignment) ==>
        AlignedTo(Released(s, i).vma, alignment)
  {
    TotalOfReleased(s.vma.subs, i);
    RemovedElements(s.vma.subs, i);
  }

  lemma {:induction false} FreeKeepsConsistent(s: State, ptr: int, s': State)
    requires Consistent(s) && FreeStep(s, ptr, s')
    ensures Consistent(s') && s'.vma.desc == s.vma.desc
    ensures forall alignment :: alignment > 0 && AlignedTo(s.vma, alignment) ==> AlignedTo(s'.vma, alignment)
  {
    if exists i :: 0 <= i < |s.vma.subs| && s.vma.subs[i].desc.Has(ptr) {
      var i :| 0 <= i < |s.vma.subs| && s.vma.subs[i].desc.Has(ptr) && s' == Released(s, i);
      ReleaseKeepsConsistent(s, i);
    }
  }

  /** Freeing what was just allocated restores the allocator exactly. */
  lemma {:induction false} FreeUndoesAllocate(
    s: State, size: int, alignment: int, s1: State, r: Range, ptr: int, s2: State)
    requires Consistent(s) && size > 0 && AlignedTo(s.vma, alignment)
    requires AllocStep(s, size, alignment, s1, r) && r != EMPTY
    requires r.Has(ptr) && FreeStep(s1, ptr, s2)
    ensures s2 == s
  {
    AllocKeepsConsistent(s, size, alignment, s1, r);
    InsertedElements(s.vma.subs, Leaf(r));
    var p := InsertPos(s.vma.subs, r.start);
    assert s1.vma.subs[p].desc.Has(ptr);
    var i :| 0 <= i < |s1.vma.subs| && s1.vma.subs[i].desc.Has(ptr) && s2 == Released(s1, i);
    OneHolder(s1.vma.subs, i, p, ptr);
    InsertThenRemove(s.vma.subs, Leaf(r));
  }

  lemma {:induction false} OneHolder(subs: seq<Node>, i: nat, j: nat, a: int)
    requires Ordered(subs) && i < |subs| && j < |subs|
    requires subs[i].desc.Has(a) && subs[j].desc.Has(a)
    ensures i == j
  {
  }

  lemma {:induction false} InsertThenRemove(subs: seq<Node>, n: Node)
    ensures
      var p := InsertPos(subs, n.desc.start);
      var r := Inserted(subs, n);
      p < |r| && r[p] == n && r[..p] + r[p + 1..] == subs
  {
  }

  // ---------- whole runs ----------

  datatype Op = Alloc(size: int) | Free(ptr: int)

  /** A run of the allocator with one alignment: states[k + 1] follows from states[k] by ops[k]. */
  ghost predicate IsRun(states: seq<State>, ops: seq<Op>, alignment: int)
    requires alignment > 0
  {
    && |states| == |ops| + 1
    && forall k :: 0 <= k < |ops| ==> RunStep(states[k], ops[k], states[k + 1], alignment)
  }

  ghost predicate RunStep(s: State, op: Op, s': State, alignment: int)
    requires alignment > 0
  {
    match op
    case Alloc(size) => size > 0 && exists r :: AllocStep(s, size, alignment, s', r)
    case Free(ptr) => FreeStep(s, ptr, s')
  }

  lemma {:induction false} RunStepKeepsConsistent(s: State, op: Op, s': State, alignment: int)
    requires Consistent(s) && AlignedTo(s.vma, alignment) && RunStep(s, op, s', alignment)
    ensures Consistent(s') && AlignedTo(s'.vma, alignment) && s'.vma.desc == s.vma.desc
  {
    match op
    case Alloc(size) =>
      var r :| AllocStep(s, size, alignment, s', r);
      AllocKeepsConsistent(s, size, alignment, s', r);
    case Free(ptr) =>
      FreeKeepsConsistent(s, ptr, s');
  }

  /** Over any sequence of allocations and frees with one alignment dividing the base, the live ranges
      stay sorted, disjoint, aligned and in bounds, the byte count is their total, and the bounds
      never move. */
  lemma {:induction false} RunsStayConsistent(states: seq<State>, ops: seq<Op>, alignment: int, k: nat)
    requires alignment > 0 && IsRun(states, ops, alignment) && k < |states|
    requires Consistent(states[0]) && AlignedTo(states[0].vma, alignment)
    ensures Consistent(states[k]) && AlignedTo(states[k].vma, alignment)
    ensures states[k].vma.desc == states[0].vma.desc
    decreases k
  {
    if k > 0 {
      RunsStayConsistent(states, ops, alignment, k - 1);
      RunStepKeepsConsistent(states[k - 1], ops[k - 1], states[k], alignment);
    }
  }

  // ---------- the gap search ----------

  /** Placements below the last live range sit in one of the gaps, and the gap search finds the
      lowest one: after alignment, gap k starts at GapStart(k). */
  function GapStart(vma: Node, k: nat, alignment: int): int
    requires alignment > 0 && k <= |vma.subs|
  {
    if k == 0 then AlignUp(vma.desc.start, alignment) else AlignUp(vma.subs[k - 1].desc.end, alignment)
  }

  ghost predicate GapFits(vma: Node, k: nat, size: int, alignment: int)
    requires alignment > 0 && k < |vma.subs|
  {
    vma.subs[k].desc.start - GapStart(vma, k, alignment) >= size
  }

  lemma {:induction false} GapGivesPlacement(vma: Node, k: nat, size: int, alignment: int)
    requires Valid(vma) && size > 0 && alignment > 0 && k < |vma.subs|
    requires GapFits(vma, k, size, alignment)
    ensures FreeAt(vma, size, alignment, GapStart(vma, k, alignment))
  {
    var a := GapStart(vma, k, alignment);
    var lo := if k == 0 then vma.desc.start else vma.subs[k - 1].desc.end;
    assert lo <= a && a + size <= vma.subs[k].desc.start;
    assert vma.desc.start <= lo && vma.subs[k].desc.end <= vma.desc.end;
    forall i | 0 <= i < |vma.subs| ensures !vma.subs[i].desc.Intersects(Range(a, a + size)) {
      GapNeighbours(vma.subs, k, i);
    }
  }

  lemma {:induction false} GapNeighbours(subs: seq<Node>, k: nat, i: nat)
    requires Ordered(subs) && k < |subs| && i < |subs|
    ensures i < k ==> subs[i].desc.end <= subs[k - 1].desc.end
    ensures k <= i ==> subs[k].desc.start <= subs[i].desc.start
  {
  }

  /** Every free placement starts at or after the aligned start of a gap it fits in; the gap index is
      the number of live ranges below it. */
  lemma {:induction false} PlacementNeedsGap(vma: Node, size: int, alignment: int, a: int) returns (k: nat)
    requires Valid(vma) && size > 0 && alignment > 0
    requires FreeAt(vma, size, alignment, a)
    ensures k <= |vma.subs| && GapStart(vma, k, alignment) <= a
    ensures k < |vma.subs| ==> GapFits(vma, k, size, alignment)
    ensures k == |vma.subs| ==> TailFits(vma, size, alignment)
  {
    k := InsertPos(vma.subs, a);
    assert forall i :: 0 <= i < |vma.subs| ==> !vma.subs[i].desc.Intersects(Range(a, a + size));
    if k > 0 {
      AlignUpIsLeast(vma.subs[k - 1].desc.end, alignment, a);
    } else {
      AlignUpIsLeast(vma.desc.start, alignment, a);
    }
    if k < |vma.subs| {
      assert a + size <= vma.subs[k].desc.start;
    }
  }

  /** Gap starts ascend. */
  lemma {:induction false} GapStartsAscend(vma: Node, j: nat, k: nat, alignment: int)
    requires Valid(vma) && alignment > 0 && j <= k <= |vma.subs|
    ensures GapStart(vma, j, alignment) <= GapStart(vma, k, alignment)
  {
    if j < k {
      var lo := if j == 0 then vma.desc.start else vma.subs[j - 1].desc.end;
      assert lo <= vma.subs[k - 1].desc.end;
      AlignUpIsLeast(lo, alignment, GapStart(vma, k, alignment));
    }
  }

  // ---------- the address the search picks, for any alignment ----------

  /** The request fits after the last live range. */
  predicate TailFits(vma: Node, size: int, alignment: int)
    requires alignment > 0
  {
    var tail := AlignUp(AfterLast(vma), alignment);
    vma.desc.Contains(Range(tail, tail + size))
  }

  /** The test the search applies to gap k: the first compares with the aligned end of the gap, the others
      subtract unsigned, so that a gap ending below its aligned start seems huge. */
  predicate Passes(vma: Node, k: nat, size: int, alignment: int)
    requires alignment > 0 && k < |vma.subs|
  {
    if k == 0 then AlignUp(vma.subs[0].desc.start, alignment) - vma.desc.start >= size
    else
      var start, from := vma.subs[k].desc.start, AlignUp(vma.subs[k - 1].desc.end, alignment);
      start < from || start - from >= size
  }

  /** The first gap from k on that passes, or the number of gaps. */
  function FirstPassing(vma: Node, k: nat, size: int, alignment: int): (r: nat)
    requires alignment > 0 && k <= |vma.subs|
    ensures k <= r <= |vma.subs|
    ensures r < |vma.subs| ==> Passes(vma, r, size, alignment)
    ensures forall j :: k <= j < r ==> !Passes(vma, j, size, alignment)
    decreases |vma.subs| - k
  {
    if k == |vma.subs| || Passes(vma, k, size, alignment) then k else FirstPassing(vma, k + 1, size, alignment)
  }

  /** The address the search returns. */
  function Picked(vma: Node, size: int, alignment: int): Option<int>
    requires alignment > 0
  {
    if TailFits(vma, size, alignment) then Some(AlignUp(AfterLast(vma), alignment))
    else
      var k := FirstPassing(vma, 0, size, alignment);
      if k == |vma.subs| then None else Some(GapStart(vma, k, alignment))
  }

  lemma {:induction false} FitsPasses(vma: Node, k: nat, size: int, alignment: int)
    requires alignment > 0 && k < |vma.subs| && GapFits(vma, k, size, alignment)
    ensures Passes(vma, k, size, alignment)
  {
  }

  /** Whatever the alignment, nothing is picked only when there is no free aligned placement. */
  lemma {:induction false} NothingPickedNoPlacement(vma: Node, size: int, alignment: int, a: int)
    requires Valid(vma) && size > 0 && alignment > 0 && Picked(vma, size, alignment).None?
    ensures !FreeAt(vma, size, alignment, a)
  {
    if FreeAt(vma, size, alignment, a) {
      var k := PlacementNeedsGap(vma, size, alignment, a);
      if k < |vma.subs| {
        FitsPasses(vma, k, size, alignment);
      }
    }
  }

  /** The search took gap k although the request does not fit in it: the first gap because its end was aligned
      up before comparing, another because the unsigned difference wrapped. */
  predicate Misjudged(vma: Node, k: nat, size: int, alignment: int)
    requires alignment > 0 && k < |vma.subs|
  {
    if k == 0 then vma.subs[0].desc.start - AlignUp(vma.desc.start, alignment) < size
    else vma.subs[k].desc.start < AlignUp(vma.subs[k - 1].desc.end, alignment)
  }

  /** Behind live range j - 1 and before the next, or the end of the heap, there is room from address a on. */
  predicate RoomBehind(vma: Node, j: nat, size: int, a: int)
    requires 0 < j <= |vma.subs|
  {
    && vma.subs[j - 1].desc.end <= a
    && a + size <= if j < |vma.subs| then vma.subs[j].desc.start else vma.desc.end
  }

  /** Aligning up from gap k skips the live ranges after it and lands in a later gap with room. */
  ghost predicate SkipsAhead(vma: Node, k: nat, size: int, alignment: int)
    requires alignment > 0 && k < |vma.subs|
  {
    exists j :: k < j <= |vma.subs| && RoomBehind(vma, j, size, GapStart(vma, k, alignment))
  }

  /** What a caller can look at before the call: the tail fits, or the gap the search takes was judged rightly,
      or the misjudgement happens to land in a later gap. */
  ghost predicate PickIsSound(vma: Node, size: int, alignment: int)
    requires alignment > 0
  {
    || TailFits(vma, size, alignment)
    || var k := FirstPassing(vma, 0, size, alignment);
       k < |vma.subs| && (!Misjudged(vma, k, size, alignment) || SkipsAhead(vma, k, size, alignment))
  }

  lemma {:induction false} TailIsFree(vma: Node, size: int, alignment: int)
    requires Valid(vma) && size > 0 && alignment > 0 && TailFits(vma, size, alignment)
    ensures FreeAt(vma, size, alignment, AlignUp(AfterLast(vma), alignment))
  {
    assert forall i :: 0 <= i < |vma.subs| ==> vma.subs[i].desc.end <= AfterLast(vma);
  }

  lemma {:induction false} RoomBehindIsFree(vma: Node, j: nat, size: int, alignment: int, a: int)
    requires Valid(vma) && size > 0 && alignment > 0 && a % alignment == 0 && 0 < j <= |vma.subs|
    requires RoomBehind(vma, j, size, a)
    ensures FreeAt(vma, size, alignment, a)
  {
    assert vma.desc.start <= vma.subs[j - 1].desc.end && (j < |vma.subs| ==> vma.subs[j].desc.end <= vma.desc.end);
    forall i | 0 <= i < |vma.subs| ensures !vma.subs[i].desc.Intersects(Range(a, a + size)) {
      assert i < j - 1 ==> vma.subs[i].desc.end <= vma.subs[j - 1].desc.start;
      assert j < i ==> vma.subs[j].desc.end <= vma.subs[i].desc.start;
    }
  }

  /** A free range that does not fit before live range k lies behind a later one. */
  lemma {:induction false} FreeIsBehind(vma: Node, k: nat, size: int, alignment: int, a: int) returns (j: nat)
    requires Valid(vma) && size > 0 && alignment > 0 && k < |vma.subs|
    requires FreeAt(vma, size, alignment, a) && vma.subs[k].desc.start < a + size
    ensures k < j <= |vma.subs| && RoomBehind(vma, j, size, a)
  {
    j := InsertPos(vma.subs, a + size - 1);
    if j <= k {
      StartsAscend(vma.subs, j, k);
      assert false;
    }
    assert !vma.subs[j - 1].desc.Intersects(Range(a, a + size));
  }

  lemma {:induction false} StartsAscend(subs: seq<Node>, i: nat, j: nat)
    requires Ordered(subs) && i <= j < |subs|
    ensures subs[i].desc.start <= subs[j].desc.start
  {
  }

  /** A gap that passes and was judged rightly fits the request. */
  lemma {:induction false} RightlyJudgedFits(vma: Node, k: nat, size: int, alignment: int)
    requires alignment > 0 && k < |vma.subs| && Passes(vma, k, size, alignment)
    ensures !Misjudged(vma, k, size, alignment) ==> GapFits(vma, k, size, alignment)
  {
  }

  /** Exactly when the picked range is free, for any alignment, in terms of the heap before the call. */
  lemma {:induction false} PickedIsFreeExactly(vma: Node, size: int, alignment: int, a: int)
    requires Valid(vma) && size > 0 && alignment > 0 && Picked(vma, size, alignment) == Some(a)
    ensures FreeAt(vma, size, alignment, a) <==> PickIsSound(vma, size, alignment)
  {
    if TailFits(vma, size, alignment) {
      TailIsFree(vma, size, alignment);
    } else {
      var k := FirstPassing(vma, 0, size, alignment);
      if !Misjudged(vma, k, size, alignment) {
        RightlyJudgedFits(vma, k, size, alignment);
        GapGivesPlacement(vma, k, size, alignment);
      } else {
        MisjudgedIsFreeWhenSkipping(vma, k, size, alignment, a);
      }
    }
  }

  lemma {:induction false} MisjudgedIsFreeWhenSkipping(vma: Node, k: nat, size: int, alignment: int, a: int)
    requires Valid(vma) && size > 0 && alignment > 0 && k < |vma.subs| && Misjudged(vma, k, size, alignment)
    requires a == GapStart(vma, k, alignment)
    ensures FreeAt(vma, size, alignment, a) <==> SkipsAhead(vma, k, size, alignment)
  {
    if FreeAt(vma, size, alignment, a) {
      var j := FreeIsBehind(vma, k, size, alignment, a);
    }
    if SkipsAhead(vma, k, size, alignment) {
      var j :| k < j <= |vma.subs| && RoomBehind(vma, j, size, a);
      RoomBehindIsFree(vma, j, size, alignment, a);
    }
  }

  /** No misjudgement lands in a later gap when the live range to the right of the chosen gap is no shorter than
      the alignment; then the picked range is free if and only if it fits between its neighbours. */
  lemma {:induction false} PickedIsFreeWhenGapFits(vma: Node, size: int, alignment: int, k: nat)
    requires Valid(vma) && size > 0 && alignment > 0 && !TailFits(vma, size, alignment)
    requires k == FirstPassing(vma, 0, size, alignment) < |vma.subs| && vma.subs[k].desc.Size() >= alignment
    ensures !SkipsAhead(vma, k, size, alignment)
    ensures FreeAt(vma, size, alignment, GapStart(vma, k, alignment)) <==> GapFits(vma, k, size, alignment)
  {
    var a := GapStart(vma, k, alignment);
    if GapFits(vma, k, size, alignment) {
      GapGivesPlacement(vma, k, size, alignment);
    } else {
      assert a < vma.subs[k].desc.start + alignment <= vma.subs[k].desc.end;
      assert vma.subs[k].desc.Intersects(Range(a, a + size));
    }
    forall j | k < j <= |vma.subs| ensures !RoomBehind(vma, j, size, a) {
      assert k < j - 1 ==> vma.subs[k].desc.end <= vma.subs[j - 1].desc.start;
      assert vma.subs[k].desc.end <= vma.subs[j - 1].desc.end;
    }
  }

  /** With mixed alignments live ranges get overlapped: a range placed with a smaller alignment less than one
      alignment above the base, and no room behind it. One such heap spans 16 to 56, with 24 to 40 live and a
      request for 16 bytes aligned to 16. */
  lemma {:induction false} MixedAlignmentsOverlap(vma: Node, alignment: int)
    requires Valid(vma) && |vma.subs| == 1 && alignment > 0 && vma.desc.start % alignment == 0
    requires vma.desc.start < vma.subs[0].desc.start < vma.desc.start + alignment
    requires !TailFits(vma, alignment, alignment)
    ensures Picked(vma, alignment, alignment) == Some(vma.desc.start)
    ensures !FreeAt(vma, alignment, alignment, vma.desc.start)
  {
    var base := vma.desc.start;
    NextMultiple(base, alignment);
    AlignsTo(base, alignment, base);
    AlignsTo(vma.subs[0].desc.start, alignment, base + alignment);
    assert Passes(vma, 0, alignment, alignment);
    assert vma.subs[0].desc.Intersects(Range(base, base + alignment));
  }

  /** But a short range to the right of the gap can be skipped altogether, the test failing to see it: then the
      picked range is free although it does not fit in the gap. */
  lemma {:induction false} ShortNeighbourIsSkipped(vma: Node, alignment: int)
    requires Valid(vma) && |vma.subs| == 3 && alignment > 0 && vma.desc.start % alignment == 0
    requires vma.subs[0].desc.start == vma.desc.start && vma.subs[1].desc.end <= vma.desc.start + alignment
    requires vma.subs[2].desc.start == vma.desc.start + 2 * alignment && vma.subs[2].desc.end == vma.desc.end
    ensures Picked(vma, alignment, alignment) == Some(vma.desc.start + alignment)
    ensures FreeAt(vma, alignment, alignment, vma.desc.start + alignment) && !GapFits(vma, 1, alignment, alignment)
  {
    var base := vma.desc.start;
    NextMultiple(base, alignment);
    AlignsTo(base, alignment, base);
    AlignsTo(vma.subs[0].desc.end, alignment, base + alignment);
    assert !Passes(vma, 0, alignment, alignment) && Passes(vma, 1, alignment, alignment);
    assert FirstPassing(vma, 0, alignment, alignment) == FirstPassing(vma, 1, alignment, alignment) == 1;
  }

  // ---------- one alignment ----------

  lemma {:induction false} AlignedPassesFits(vma: Node, k: nat, size: int, alignment: int)
    requires Valid(vma) && AlignedTo(vma, alignment) && k < |vma.subs|
    ensures Passes(vma, k, size, alignment) <==> GapFits(vma, k, size, alignment)
  {
    if k == 0 {
      var first := vma.subs[0].desc.start;
      CloseMultiplesAreEqual(AlignUp(vma.desc.start, alignment), vma.desc.start, alignment);
      CloseMultiplesAreEqual(AlignUp(first, alignment), first, alignment);
    } else {
      assert vma.subs[k - 1].desc.end <= vma.subs[k].desc.start;
      AlignUpIsLeast(vma.subs[k - 1].desc.end, alignment, vma.subs[k].desc.start);
    }
  }

  /** When the alignment divides the base and all live starts, the picked range is free, and the lowest free
      placement unless it is the one after the last live range. */
  lemma {:induction false} AlignedPickIsFree(vma: Node, size: int, alignment: int, a: int)
    requires Valid(vma) && size > 0 && AlignedTo(vma, alignment) && Picked(vma, size, alignment) == Some(a)
    ensures FreeAt(vma, size, alignment, a)
    ensures TailFits(vma, size, alignment) ==> a == AlignUp(AfterLast(vma), alignment)
    ensures !TailFits(vma, size, alignment) ==> forall b :: FreeAt(vma, size, alignment, b) ==> a <= b
  {
    if TailFits(vma, size, alignment) {
      TailIsFree(vma, size, alignment);
    } else {
      var k := FirstPassing(vma, 0, size, alignment);
      AlignedPassesFits(vma, k, size, alignment);
      GapGivesPlacement(vma, k, size, alignment);
      forall b | FreeAt(vma, size, alignment, b) ensures a <= b {
        var g := PlacementNeedsGap(vma, size, alignment, b);
        if g < |vma.subs| {
          FitsPasses(vma, g, size, alignment);
        }
        GapStartsAscend(vma, k, g, alignment);
      }
    }
  }

  /** The source indexes the first live range without looking whether there is one. */
  predicate Searchable(s: State, size: int, alignment: int)
    requires alignment > 0
  {
    s.vma.subs == [] ==> TailFits(s.vma, size, alignment) || s.vma.desc.Size() - s.used < size
  }

  lemma {:induction false} AlignedIsSearchable(s: State, size: int, alignment: int)
    requires Consistent(s) && AlignedTo(s.vma, alignment) && size > 0
    ensures Searchable(s, size, alignment)
  {
    CloseMultiplesAreEqual(AlignUp(s.vma.desc.start, alignment), s.vma.desc.start, alignment);
  }

  lemma {:induction false} PickedStep(s: State, size: int, alignment: int, r: Range)
    requires Consistent(s) && size > 0 && AlignedTo(s.vma, alignment)
    requires r == Range(r.start, r.start + size) && Picked(s.vma, size, alignment) == Some(r.start)
    ensures AllocStep(s, size, alignment, Committed(s, r), r)
    ensures Consistent(Committed(s, r)) && AlignedTo(Committed(s, r).vma, alignment)
  {
    AlignedPickIsFree(s.vma, size, alignment, r.start);
    AllocKeepsConsistent(s, size, alignment, Committed(s, r), r);
  }

  class Allocator {
    const vma: PartitionedAddressRange
    var sizeUsed: int

    function Value(): State
      reads this, vma
    {
      State(vma.State(), sizeUsed)
    }

    constructor (range: Range)
      requires range.Nonempty()
      ensures fresh(vma) && Value() == State(Leaf(range), 0) && Consistent(Value())
    {
      vma := new PartitionedAddressRange(range);
      sizeUsed := 0;
    }

    /** `allocate`, for any alignment: empty only when there is no free aligned placement; sound, complete and
        invariant-preserving when the alignment divides the base and all live starts. */
    method Allocate(sizeInBytes: int, alignment: int) returns (r: Range)
      requires Consistent(Value()) && sizeInBytes > 0 && alignment > 0 && Searchable(Value(), sizeInBytes, alignment)
      modifies this, vma
      ensures r == EMPTY ==> Value() == old(Value())
      ensures r == EMPTY ==> forall a :: !FreeAt(old(vma.State()), sizeInBytes, alignment, a)
      ensures r != EMPTY ==> r == Range(r.start, r.start + sizeInBytes) && Value() == Committed(old(Value()), r)
      ensures r != EMPTY ==> Picked(old(vma.State()), sizeInBytes, alignment) == Some(r.start)
      ensures r != EMPTY ==> (FreeAt(old(vma.State()), sizeInBytes, alignment, r.start)
                              <==> PickIsSound(old(vma.State()), sizeInBytes, alignment))
      ensures AlignedTo(old(vma.State()), alignment) ==>
                && AllocStep(old(Value()), sizeInBytes, alignment, Value(), r)
                && Consistent(Value()) && AlignedTo(vma.State(), alignment)
    {
      ghost var s := Value();
      if vma.desc.Size() - sizeUsed < sizeInBytes {
        forall a ensures !FreeAt(s.vma, sizeInBytes, alignment, a) {
          NoRoomNoPlacement(s, sizeInBytes, alignment, a);
        }
        return EMPTY;
      }
      var addr := FindPlace(vma.State(), sizeInBytes, alignment);
      if addr.None? {
        forall a ensures !FreeAt(s.vma, sizeInBytes, alignment, a) {
          NothingPickedNoPlacement(s.vma, sizeInBytes, alignment, a);
        }
        return EMPTY;
      }
      r := Range(addr.value, addr.value + sizeInBytes);
      PickedIsFreeExactly(s.vma, sizeInBytes, alignment, r.start);
      vma.Insert(Leaf(r));
      sizeUsed := sizeUsed + r.Size();
      assert Value() == Committed(s, r);
      if AlignedTo(s.vma, alignment) {
        PickedStep(s, sizeInBytes, alignment, r);
      }
    }

    /** `free`: an unknown address is reported and ignored. */
    method Free(ptr: int)
      requires Consistent(Value())
      modifies this, vma
      ensures FreeStep(old(Value()), ptr, Value())
      ensures Consistent(Value())
    {
      ghost var s := Value();
      var found := vma.FindSubRange(Range(ptr, ptr + 1));
      if found.None? {
        assert forall i :: 0 <= i < |s.vma.subs| && s.vma.subs[i].desc.Has(ptr) ==>
            s.vma.subs[i].desc.Contains(Range(ptr, ptr + 1));
        return;
      }
      var bounds := vma.subRanges[found.value].desc;
      DestroyOnePiece(vma.subRanges, found.value, bounds);
      var _ := vma.Destroy(bounds);
      sizeUsed := sizeUsed - bounds.Size();
      assert Value() == Released(s, found.value);
      FreeKeepsConsistent(s, ptr, Value());
    }
  }

  /** The address search of `allocate`: after the last range if the request fits there, otherwise the
      first gap that passes the test. */
  method FindPlace(vma: Node, size: int, alignment: int) returns (addr: Option<int>)
    requires alignment > 0 && (vma.subs == [] ==> TailFits(vma, size, alignment))
    ensures addr == Picked(vma, size, alignment)
  {
    var tail := AlignUp(AfterLast(vma), alignment);
    if vma.desc.Contains(Range(tail, tail + size)) {
      return Some(tail);
    }
    if AlignUp(vma.subs[0].desc.start, alignment) - vma.desc.start >= size {
      return Some(AlignUp(vma.desc.start, alignment));
    }
    var k := 1;
    while k < |vma.subs|
      invariant 1 <= k <= |vma.subs|
      invariant FirstPassing(vma, 0, size, alignment) == FirstPassing(vma, k, size, alignment)
    {
      var start, from := vma.subs[k].desc.start, AlignUp(vma.subs[k - 1].desc.end, alignment);
      if start < from || start - from >= size {
        return Some(from);
      }
      k := k + 1;
    }
    return None;
  }
}
