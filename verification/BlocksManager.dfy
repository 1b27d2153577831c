/** `BasicMemoryBlocksManager` (shared/shmem.h) on values: the ordered map of blocks as a sequence of
    keyed entries, what registering a client range does to it, and what every run of registrations
    keeps. */
module BlocksManager {
  import opened Ranges
  import opened ServiceMemory
  import opened MemoryBlocks
  import opened BlockGrowth

  datatype Entry = Entry(key: int, block: Block)

  datatype State = State(os: Os, entries: seq<Entry>)

  // ---------- the invariant ----------

  /** A block keyed by its first page, gapless, on its own files, contiguously mapped. */
  ghost predicate EntryOk(os: Os, e: Entry) {
    && GoodBlock(os, e.block)
    && e.key == Begin(e.block.chunks)
    && BlockMapped(os.mem, e.block.chunks)
  }

  ghost predicate AllOk(os: Os, entries: seq<Entry>) {
    forall i :: 0 <= i < |entries| ==> EntryOk(os, entries[i])
  }

  ghost predicate Separated(entries: seq<Entry>) {
    && (forall i :: 0 <= i < |entries| ==>
        |entries[i].block.chunks| > 0 && entries[i].key < End(entries[i].block.chunks))
    && (forall i, j :: 0 <= i < j < |entries| ==> End(entries[i].block.chunks) <= entries[j].key)
  }

  ghost predicate Recorded(entries: seq<Entry>, v: int) {
    exists i :: 0 <= i < |entries| && Records(entries[i].block, v)
  }

  ghost predicate Inv(s: State) {
    && IdsBelowNext(s.os)
    && AllOk(s.os, s.entries)
    && Separated(s.entries)
  }

  /** Every mapping in the address space is on some block's record, live or retired, so destroying the
      blocks unmaps all of them. */
  ghost predicate Accounted(s: State) {
    forall v :: v in s.os.mem ==> Recorded(s.entries, v)
  }

  // ---------- lookups ----------

  /** `std::map::lower_bound`: first entry with key at or above x. */
  function LowerBound(entries: seq<Entry>, x: int): (p: nat)
    ensures p <= |entries|
    ensures forall i :: 0 <= i < p ==> entries[i].key < x
    ensures p < |entries| ==> x <= entries[p].key
  {
    if entries == [] || x <= entries[0].key then 0 else 1 + LowerBound(entries[1..], x)
  }

  lemma {:induction false} LowerBoundIsUnique(entries: seq<Entry>, x: int, p: nat)
    requires p <= |entries|
    requires forall i :: 0 <= i < p ==> entries[i].key < x
    requires p < |entries| ==> x <= entries[p].key
    ensures p == LowerBound(entries, x)
  {
    var q := LowerBound(entries, x);
    assert q < |entries| ==> x <= entries[q].key;
    assert p < |entries| ==> x <= entries[p].key;
  }

  /** `overlaps`. */
  predicate Overlaps(srcBegin: int, srcEnd: int, blockBegin: int, blockEnd: int) {
    (srcBegin <= blockBegin && blockBegin < srcEnd) || (blockBegin <= srcBegin && srcBegin < blockEnd)
  }

  predicate EntryOverlaps(e: Entry, src: int, end: int) {
    |e.block.chunks| > 0 && Overlaps(src, end, Begin(e.block.chunks), End(e.block.chunks))
  }

  /** First entry meeting [src, end), or the number of entries when there is none. */
  function FirstOverlap(entries: seq<Entry>, src: int, end: int): (p: nat)
    ensures p <= |entries|
    ensures forall i :: 0 <= i < p ==> !EntryOverlaps(entries[i], src, end)
    ensures p < |entries| ==> EntryOverlaps(entries[p], src, end)
  {
    if entries == [] || EntryOverlaps(entries[0], src, end) then 0 else 1 + FirstOverlap(entries[1..], src, end)
  }

  lemma {:induction false} FirstOverlapIsUnique(entries: seq<Entry>, src: int, end: int, p: nat)
    requires p <= |entries|
    requires forall i :: 0 <= i < p ==> !EntryOverlaps(entries[i], src, end)
    requires p < |entries| ==> EntryOverlaps(entries[p], src, end)
    ensures p == FirstOverlap(entries, src, end)
  {
    var q := FirstOverlap(entries, src, end);
    assert q < |entries| ==> EntryOverlaps(entries[q], src, end);
    assert p < |entries| ==> EntryOverlaps(entries[p], src, end);
  }

  // ---------- registering a range ----------

  function BlocksOf(entries: seq<Entry>): (bs: seq<Block>)
    ensures |bs| == |entries| && forall i :: 0 <= i < |bs| ==> bs[i] == entries[i].block
  {
    seq(|entries|, i requires 0 <= i < |entries| => entries[i].block)
  }

  /** Merge the overlapped blocks into the first, widen it to the request, and remap it if it changed. */
  function Absorbed(os: Os, first: Block, rest: seq<Block>, src: int, size: int, base: int): (r: (Os, Block))
    requires |first.chunks| > 0 && forall i :: 0 <= i < |rest| ==> |rest[i].chunks| > 0
    ensures |r.1.chunks| > 0
  {
    var m := MergedAll(os, first, rest);
    var w := MemoryBlocks.Widened(m.0, m.1, src, size);
    if rest != [] || RequiresExtension(m.1, src, size) then Remapped(w.0, w.1, base) else w
  }

  /** The entries [i, j) replaced by one. */
  function Spliced(entries: seq<Entry>, i: nat, j: nat, e: Entry): seq<Entry>
    requires i <= j <= |entries|
  {
    entries[..i] + [e] + entries[j..]
  }

  /** The block that absorbs entries [i, j). */
  ghost function AbsorbedFrom(s: State, src: int, size: int, base: int, i: nat, j: nat): (r: (Os, Block))
    requires i < j <= |s.entries|
    requires forall k :: 0 <= k < |s.entries| ==> |s.entries[k].block.chunks| > 0
    ensures |r.1.chunks| > 0
  {
    Absorbed(s.os, s.entries[i].block, BlocksOf(s.entries[i + 1..j]), src, size, base)
  }

  /** `registerMemoryBlock`, with the base picked by the operating system should it be asked. */
  ghost function Registered(s: State, src: int, size: int, base: int): State
    requires Separated(s.entries) && size > 0
    requires forall i :: 0 <= i < |s.entries| ==> s.entries[i].key == Begin(s.entries[i].block.chunks)
  {
    var i := FirstOverlap(s.entries, src, src + size);
    if i == |s.entries| then
      var k := LowerBound(s.entries, PageDown(src));
      var r := NewBlock(s.os, src, size, base);
      State(r.0, Spliced(s.entries, k, k, Entry(PageDown(src), r.1)))
    else
      var j := LowerBound(s.entries, src + size);
      assert i < j;
      var r := AbsorbedFrom(s, src, size, base, i, j);
      State(r.0, Spliced(s.entries, i, j, Entry(Begin(r.1.chunks), r.1)))
  }

  /** The pages covered by the request together with every block it meets. */
  ghost function Span(s: State, src: int, size: int): Range
    requires Separated(s.entries) && size > 0
    requires forall i :: 0 <= i < |s.entries| ==> s.entries[i].key == Begin(s.entries[i].block.chunks)
  {
    var i := FirstOverlap(s.entries, src, src + size);
    if i == |s.entries| then Range(PageDown(src), PageUp(src + size))
    else
      var j := LowerBound(s.entries, src + size);
      assert i < j;
      var b, e := s.entries[i].key, End(s.entries[j - 1].block.chunks);
      Range(if PageDown(src) < b then PageDown(src) else b, if e < src + size then PageUp(src + size) else e)
  }

  lemma {:induction false} RegisteredMeeting(s: State, src: int, size: int, base: int, i: nat, j: nat, r: (Os, Block))
    requires Separated(s.entries) && size > 0
    requires forall k :: 0 <= k < |s.entries| ==> s.entries[k].key == Begin(s.entries[k].block.chunks)
    requires i == FirstOverlap(s.entries, src, src + size) < j == LowerBound(s.entries, src + size)
    requires r == AbsorbedFrom(s, src, size, base, i, j)
    ensures Registered(s, src, size, base) == State(r.0, Spliced(s.entries, i, j, Entry(Begin(r.1.chunks), r.1)))
  {
  }

  /** Does the registration ask the operating system for a new stretch? */
  ghost predicate MustMap(s: State, src: int, size: int) {
    var i := FirstOverlap(s.entries, src, src + size);
    || i == |s.entries|
    || LowerBound(s.entries, src + size) - i > 1
    || RequiresExtension(s.entries[i].block, src, size)
  }

  /** The operating system hands out unused stretches only. */
  ghost predicate FreshBase(s: State, src: int, size: int, base: int)
    requires Separated(s.entries) && size > 0
    requires forall i :: 0 <= i < |s.entries| ==> s.entries[i].key == Begin(s.entries[i].block.chunks)
  {
    MustMap(s, src, size) ==> Unmapped(s.os.mem, base, Span(s, src, size).Size())
  }

  // ---------- arithmetic of pages ----------

  lemma {:induction false} PageDownIsBelow(x: int)
    ensures PageMultiple(PageDown(x)) && PageDown(x) <= x < PageDown(x) + PAGE_SIZE
  {
    RemainderRemoved(x, PAGE_SIZE);
  }

  lemma {:induction false} PageBounds(x: int, m: int)
    requires PageMultiple(m)
    ensures m <= x ==> m <= PageDown(x)
    ensures x <= m ==> PageUp(x) <= m
    ensures PageMultiple(PageDown(x)) && PageMultiple(PageUp(x)) && PageDown(x) <= x < PageDown(x) + PAGE_SIZE
  {
    PageDownIsBelow(x);
    if x <= m {
      AlignUpIsLeast(x, PAGE_SIZE, m);
    }
    if PageDown(x) < m <= x {
      CloseMultiplesAreEqual(m, PageDown(x), PAGE_SIZE);
    }
  }

  lemma {:induction false} NewChunkSize(src: int, size: int)
    requires size > 0
    ensures PageDown(src) + PageUp(src % PAGE_SIZE + size) == PageUp(src + size)
  {
    PageDownIsBelow(src);
    PageUpFrom(PageDown(src), src + size);
  }

  /** Whole pages that do not overlap a range lie on one side of the pages of the range. */
  lemma {:induction false} OutsidePages(first: int, end: int, src: int, size: int)
    requires PageMultiple(first) && PageMultiple(end) && first < end && size > 0
    requires !Overlaps(src, src + size, first, end)
    ensures first < PageDown(src) ==> end <= PageDown(src)
    ensures PageDown(src) <= first ==> PageUp(src + size) <= first
  {
    PageBounds(src, first);
    PageBounds(src, end);
    PageBounds(src + size, first);
  }

  // ---------- what the overlap search means for neighbours ----------

  ghost predicate Keyed(entries: seq<Entry>) {
    && Separated(entries)
    && forall i :: 0 <= i < |entries| ==> entries[i].key == Begin(entries[i].block.chunks)
                                          && PageMultiple(entries[i].key) && PageMultiple(End(entries[i].block.chunks))
  }

  lemma {:induction false} InvIsKeyed(s: State)
    requires Inv(s)
    ensures Keyed(s.entries)
  {
    forall i | 0 <= i < |s.entries|
      ensures s.entries[i].key == Begin(s.entries[i].block.chunks) && PageMultiple(s.entries[i].key) &&
          PageMultiple(End(s.entries[i].block.chunks))
    {
      assert EntryOk(s.os, s.entries[i]);
      BlockIsAligned(s.entries[i].block.chunks);
    }
  }

  lemma {:induction false} KeysAscend(entries: seq<Entry>, i: nat, j: nat)
    requires Separated(entries) && i < j < |entries|
    ensures entries[i].key < entries[j].key
    ensures End(entries[i].block.chunks) <= entries[j].key
  {
  }

  lemma {:induction false} BeyondLowerBound(entries: seq<Entry>, x: int, k: nat)
    requires Separated(entries) && LowerBound(entries, x) <= k < |entries|
    ensures x <= entries[k].key
  {
    var p := LowerBound(entries, x);
    if p < k {
      KeysAscend(entries, p, k);
    }
  }

  /** With no overlapping block, every block lies wholly before or wholly after the request's pages. */
  lemma {:induction false} NoOverlapSides(entries: seq<Entry>, src: int, size: int, k: nat)
    requires Keyed(entries) && size > 0 && k < |entries|
    requires !EntryOverlaps(entries[k], src, src + size)
    ensures entries[k].key < PageDown(src) ==> End(entries[k].block.chunks) <= PageDown(src)
    ensures PageDown(src) <= entries[k].key ==> PageUp(src + size) <= entries[k].key
  {
    OutsidePages(entries[k].key, End(entries[k].block.chunks), src, size);
  }

  /** The overlapped blocks are exactly the stretch from `FirstOverlap` up to `LowerBound`. */
  lemma {:induction false} OverlapStretch(entries: seq<Entry>, src: int, size: int, k: nat)
    requires Keyed(entries) && size > 0 && k < |entries|
    requires FirstOverlap(entries, src, src + size) < |entries|
    ensures FirstOverlap(entries, src, src + size) < LowerBound(entries, src + size)
    ensures EntryOverlaps(entries[k], src, src + size)
            <==> FirstOverlap(entries, src, src + size) <= k < LowerBound(entries, src + size)
  {
    var i := FirstOverlap(entries, src, src + size);
    var j := LowerBound(entries, src + size);
    if j <= i {
      BeyondLowerBound(entries, src + size, i);
      assert false;
    }
    if j <= k {
      BeyondLowerBound(entries, src + size, k);
    } else if i < k {
      KeysAscend(entries, i, k);
    }
  }

  /** Blocks before the stretch end at or before the span. */
  lemma {:induction false} BeforeStretch(s: State, src: int, size: int, k: nat)
    requires Keyed(s.entries) && size > 0
    requires k < FirstOverlap(s.entries, src, src + size) < |s.entries|
    ensures End(s.entries[k].block.chunks) <= Span(s, src, size).start
  {
    var i := FirstOverlap(s.entries, src, src + size);
    KeysAscend(s.entries, k, i);
    assert !EntryOverlaps(s.entries[k], src, src + size);
    assert EntryOverlaps(s.entries[i], src, src + size);
    PageBounds(src, End(s.entries[k].block.chunks));
  }

  /** Blocks after the stretch start at or after the span. */
  lemma {:induction false} AfterStretch(s: State, src: int, size: int, k: nat)
    requires Keyed(s.entries) && size > 0
    requires FirstOverlap(s.entries, src, src + size) < |s.entries|
    requires LowerBound(s.entries, src + size) <= k < |s.entries|
    ensures Span(s, src, size).end <= s.entries[k].key
  {
    OverlapStretch(s.entries, src, size, k);
    BeyondLowerBound(s.entries, src + size, k);
    KeysAscend(s.entries, LowerBound(s.entries, src + size) - 1, k);
    PageBounds(src + size, s.entries[k].key);
  }
}
