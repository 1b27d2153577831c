/** Whole runs of `ClientContext::remapPointer` (service/service.h): pointers handed out never go
    stale, and registered ranges can always be looked up (shared/shmem.h). */
module PointerStability {
  import opened Ranges
  import opened ServiceMemory
  import opened MemoryBlocks
  import opened BlocksManager
  import opened BlockRegistration

  /** One `remapPointer` call, with the base the operating system picked. */
  datatype Call = Call(src: int, size: int, base: int)

  ghost predicate RegisterStep(s: State, c: Call, s': State) {
    && Inv(s) && Keyed(s.entries) && c.size > 0
    && FreshBase(s, c.src, c.size, c.base)
    && s' == Registered(s, c.src, c.size, c.base)
  }

  /** A run from the empty manager. */
  ghost predicate IsRun(states: seq<State>, calls: seq<Call>) {
    && |states| == |calls| + 1
    && states[0] == State(Os(map[], 0, map[]), [])
    && forall k :: 0 <= k < |calls| ==> CanRegister(states[k], calls[k], states[k + 1])
  }

  /** `Registered` is defined on keyed entries; `RunsStayStable` shows that a run never leaves them, so
      every call of a run is a `RegisterStep`. */
  ghost predicate CanRegister(s: State, c: Call, s': State) {
    Inv(s) && Keyed(s.entries) ==> RegisterStep(s, c, s')
  }

  /** The pointer `remapPointer` returns. */
  ghost function Returned(s: State, c: Call, s': State): (p: Option<int>) {
    var k := TargetIndex(s, c.src, c.size);
    if k < |s'.entries| && |s'.entries[k].block.chunks| > 0 then Translate(s'.entries[k].block, c.src) else None
  }

  lemma {:induction false} StableIsTransitive(s: State, s1: State, s2: State)
    requires Stable(s, s1) && Stable(s1, s2)
    ensures Stable(s, s2)
  {
    forall v | v in s.os.mem ensures Reaches(s2.os.mem, v, s.os.mem[v]) {
      assert Reaches(s1.os.mem, v, s.os.mem[v]);
    }
  }

  lemma {:induction false} StableIsReflexive(s: State)
    ensures Stable(s, s)
  {
  }

  /** Every state of a run satisfies the invariant, and later states keep what earlier ones gave. */
  lemma {:induction false} RunsStayStable(states: seq<State>, calls: seq<Call>, j: nat, k: nat)
    requires IsRun(states, calls) && j <= k < |states|
    ensures Inv(states[k]) && Stable(states[j], states[k])
    decreases k
  {
    StableIsReflexive(states[k]);
    if k > 0 {
      RunsStayStable(states, calls, if j < k then j else k - 1, k - 1);
      InvIsKeyed(states[k - 1]);
      assert CanRegister(states[k - 1], calls[k - 1], states[k]);
      var c := calls[k - 1];
      RegisterKeepsInvariant(states[k - 1], c.src, c.size, c.base);
      if j < k {
        StableIsTransitive(states[j], states[k - 1], states[k]);
      }
    }
  }

  /** No mapping is ever lost track of: at every point of a run, each mapped address is recorded by a block,
      as its live mapping or as a retired one kept for pointers already handed out. */
  lemma {:induction false} RunsStayAccounted(states: seq<State>, calls: seq<Call>, k: nat)
    requires IsRun(states, calls) && k < |states|
    ensures Accounted(states[k])
    decreases k
  {
    if k > 0 {
      RunsStayAccounted(states, calls, k - 1);
      RunsStayStable(states, calls, 0, k - 1);
      InvIsKeyed(states[k - 1]);
      assert CanRegister(states[k - 1], calls[k - 1], states[k]);
      var c := calls[k - 1];
      RegisterKeepsAccounted(states[k - 1], c.src, c.size, c.base);
    }
  }

  /** The call itself: the returned pointer reaches, byte for byte, the backing of the whole range. */
  lemma {:induction false} ReturnedPointerReaches(s: State, c: Call, s': State, k: nat, d: int) returns (loc: Loc)
    requires k == TargetIndex(s, c.src, c.size) && k < |s'.entries|
    requires EntryOk(s'.os, s'.entries[k]) && InBlock(s'.entries[k], c.src, c.src + c.size) && 0 <= d < c.size
    ensures Returned(s, c, s').Some?
    ensures BackedBy(s', c.src + d, loc) && Reaches(s'.os.mem, Returned(s, c, s').value + d, loc)
  {
    loc := PointerIntoBlock(s'.os, s'.entries[k], c.src, c.size, d);
  }

  lemma {:induction false} PointerIntoBlock(os: Os, e: Entry, src: int, size: int, d: int) returns (loc: Loc)
    requires EntryOk(os, e) && InBlock(e, src, src + size) && 0 <= d < size
    ensures Translate(e.block, src).Some?
    ensures Backs(e.block.chunks, src + d, loc) && Reaches(os.mem, Translate(e.block, src).value + d, loc)
  {
    var i := EveryAddressBacked(e.block.chunks, src + d);
    loc := e.block.chunks[i].LocOf(src + d);
    TranslateReachesBacking(os.mem, e.block, src + d, loc);
    assert Translate(e.block, src + d).value == Translate(e.block, src).value + d;
  }

  /** A backed address translates, in its current block, to a pointer reaching that byte. */
  lemma {:induction false} CurrentTranslation(s: State, a: int, loc: Loc) returns (i: nat)
    requires Inv(s) && BackedBy(s, a, loc)
    ensures i < |s.entries| && |s.entries[i].block.chunks| > 0
    ensures Translate(s.entries[i].block, a).Some? && Reaches(s.os.mem, Translate(s.entries[i].block, a).value, loc)
  {
    i :| 0 <= i < |s.entries| && Backs(s.entries[i].block.chunks, a, loc);
    assert EntryOk(s.os, s.entries[i]);
    TranslateReachesBacking(s.os.mem, s.entries[i].block, a, loc);
  }

  /** A pointer reaching the backing of an address keeps doing so, and so does the translation. */
  lemma {:induction false} StablePointer(s: State, s': State, a: int, p: int, loc: Loc)
    requires Stable(s, s') && Inv(s') && BackedBy(s, a, loc) && Reaches(s.os.mem, p, loc)
    ensures Aliases(s', a, p)
  {
    assert Reaches(s'.os.mem, p, loc);
    var i := CurrentTranslation(s', a, loc);
    assert TranslatesTo(s', i, a, loc);
  }

  /** Block i translates a to a pointer reaching the given byte. */
  ghost predicate TranslatesTo(s: State, i: nat, a: int, loc: Loc) {
    && i < |s.entries| && |s.entries[i].block.chunks| > 0
    && Translate(s.entries[i].block, a).Some?
    && Reaches(s.os.mem, Translate(s.entries[i].block, a).value, loc)
  }

  /** Pointer p is mapped to the very byte that the current translation of client address a reaches. */
  ghost predicate Aliases(s: State, a: int, p: int) {
    exists loc, i: nat :: BackedBy(s, a, loc) && Reaches(s.os.mem, p, loc) && TranslatesTo(s, i, a, loc)
  }

  lemma {:induction false} EveryCallIsOk(states: seq<State>, calls: seq<Call>, k: nat)
    requires IsRun(states, calls) && k < |calls|
    ensures
      var c := calls[k];
      RegisterOk(states[k], c.src, c.size, states[k + 1], TargetIndex(states[k], c.src, c.size))
  {
    RunsStayStable(states, calls, 0, k);
    InvIsKeyed(states[k]);
    assert CanRegister(states[k], calls[k], states[k + 1]);
    RegisterKeepsInvariant(states[k], calls[k].src, calls[k].size, calls[k].base);
  }

  /** Pointer stability: each byte of the pointer returned by call k aliases, at every later point m of
      the run, the byte that the current translation of that client address reaches. */
  lemma {:induction false} PointersStayValid(states: seq<State>, calls: seq<Call>, k: nat, m: nat, d: int)
    requires IsRun(states, calls) && k < m < |states|
    requires 0 <= d < calls[k].size
    ensures Returned(states[k], calls[k], states[k + 1]).Some?
    ensures Aliases(states[m], calls[k].src + d, Returned(states[k], calls[k], states[k + 1]).value + d)
  {
    EveryCallIsOk(states, calls, k);
    RunsStayStable(states, calls, k + 1, m);
    var t := TargetIndex(states[k], calls[k].src, calls[k].size);
    assert EntryOk(states[k + 1].os, states[k + 1].entries[t]);
    PointerKept(states[k], calls[k], states[k + 1], t, states[m], d);
  }

  lemma {:induction false} PointerKept(s: State, c: Call, s': State, k: nat, later: State, d: int)
    requires k == TargetIndex(s, c.src, c.size) && k < |s'.entries|
    requires EntryOk(s'.os, s'.entries[k]) && InBlock(s'.entries[k], c.src, c.src + c.size) && 0 <= d < c.size
    requires Stable(s', later) && Inv(later)
    ensures Returned(s, c, s').Some?
    ensures Aliases(later, c.src + d, Returned(s, c, s').value + d)
  {
    var loc := ReturnedPointerReaches(s, c, s', k, d);
    StablePointer(s', later, c.src + d, Returned(s, c, s').value + d, loc);
  }

  // ---------- lookups ----------

  /** `getMemoryBlockWhichIncludesChunk`. */
  ghost function Lookup(entries: seq<Entry>, src: int, size: int): Option<nat> {
    var i := FirstOverlap(entries, src, src + size);
    if i == |entries| then None
    else if LowerBound(entries, src + size) - i != 1 then None
    else if |entries[i].block.chunks| == 0 || RequiresExtension(entries[i].block, src, size) then None
    else Some(i)
  }

  /** A nonempty range is found exactly when one block includes it; the block found includes it. */
  lemma {:induction false} LookupFindsTheBlock(s: State, src: int, size: int)
    requires Inv(s) && size > 0
    ensures Lookup(s.entries, src, size).Some? <==> InOneBlock(s, src, src + size)
    ensures Lookup(s.entries, src, size).Some? ==>
              && Lookup(s.entries, src, size).value < |s.entries|
              && InBlock(s.entries[Lookup(s.entries, src, size).value], src, src + size)
  {
    InvIsKeyed(s);
    if Lookup(s.entries, src, size).Some? {
      var i := Lookup(s.entries, src, size).value;
      assert EntryOk(s.os, s.entries[i]);
      assert InBlock(s.entries[i], src, src + size);
    }
    if InOneBlock(s, src, src + size) {
      var i :| 0 <= i < |s.entries| && InBlock(s.entries[i], src, src + size);
      IncludedIsFound(s.entries, src, size, i);
    }
  }

  lemma {:induction false} IncludedIsFound(entries: seq<Entry>, src: int, size: int, i: nat)
    requires Keyed(entries) && size > 0 && i < |entries| && InBlock(entries[i], src, src + size)
    ensures Lookup(entries, src, size) == Some(i)
  {
    IncludedIsFirst(entries, src, size, i);
    IncludedIsLast(entries, src, size, i);
    PageBounds(src, entries[i].key);
  }

  lemma {:induction false} IncludedIsFirst(entries: seq<Entry>, src: int, size: int, i: nat)
    requires Keyed(entries) && size > 0 && i < |entries| && InBlock(entries[i], src, src + size)
    ensures FirstOverlap(entries, src, src + size) == i
  {
    forall k | 0 <= k < i ensures !EntryOverlaps(entries[k], src, src + size) {
      KeysAscend(entries, k, i);
    }
    FirstOverlapIsUnique(entries, src, src + size, i);
  }

  lemma {:induction false} IncludedIsLast(entries: seq<Entry>, src: int, size: int, i: nat)
    requires Separated(entries) && size > 0 && i < |entries| && InBlock(entries[i], src, src + size)
    ensures LowerBound(entries, src + size) == i + 1
  {
    forall k | 0 <= k < i ensures entries[k].key < src + size {
      KeysAscend(entries, k, i);
    }
    if i + 1 < |entries| {
      KeysAscend(entries, i, i + 1);
    }
    LowerBoundIsUnique(entries, src + size, i + 1);
  }

  /** Every sub-range of a range registered by call k is found at every later point of the run. */
  lemma {:induction false} RegisteredRangesAreFound(
    states: seq<State>, calls: seq<Call>, k: nat, m: nat, x: int, n: int)
    requires IsRun(states, calls) && k < m < |states|
    requires calls[k].src <= x && n > 0 && x + n <= calls[k].src + calls[k].size
    ensures Lookup(states[m].entries, x, n).Some?
    ensures InBlock(states[m].entries[Lookup(states[m].entries, x, n).value], x, x + n)
  {
    EveryCallIsOk(states, calls, k);
    assert InOneBlock(states[k + 1], calls[k].src, calls[k].src + calls[k].size);
    RunsStayStable(states, calls, k + 1, m);
    var i :| 0 <= i < |states[m].entries| && InBlock(states[m].entries[i], calls[k].src, calls[k].src + calls[k].size);
    assert InBlock(states[m].entries[i], x, x + n);
    LookupFindsTheBlock(states[m], x, n);
  }
}
