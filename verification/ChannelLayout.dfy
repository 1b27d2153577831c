/** The layout of the RPC channel's shared memory (shared/rpc.h): the client computes and sends it, the
    server checks it. Struct sizes are those of 64-bit Linux. */
module ChannelLayout {
  import opened Ranges

  const CACHELINE := 64
  const OFFSET_SIZE := 8
  const SEM_SIZE := 32
  const RING_ENTRY_SIZE := 16
  const STAMP_SIZE := 4
  const TRANSFER_DESC_SIZE := 48
  const CALLBACK_ID_SIZE := 32

  /** `alignUpPow2`, where the result is known to be the q-th multiple. */
  method Align(v: nat, alignment: nat, ghost q: nat) returns (r: nat)
    requires alignment > 0 && v <= alignment * q < v + alignment
    ensures r == alignment * q
  {
    r := AlignUp(v, alignment);
    MultipleIsDivisible(q, alignment);
    CloseMultiplesAreEqual(r, alignment * q, alignment);
  }

  /** `CommandsChannelLayout`, the message sent to the server. */
  datatype ChannelMap = ChannelMap(
    ringHead: nat, semClient: nat, ringTail: nat, semServer: nat, ringStart: nat, ringCapacity: nat,
    stampsStart: nat, stampsCapacity: nat,
    copiesHead: nat, copiesTail: nat, copiesStart: nat, copiesCapacity: nat,
    callbacksHead: nat, callbacksTail: nat, semCallback: nat, callbacksStart: nat, callbacksCapacity: nat,
    serviceHeapStart: nat, serviceHeapEnd: nat, clientHeapStart: nat, clientHeapEnd: nat)

  /** `CommandsChannel::Layout`: its member initializers and `resizeCommandsRing`. */
  class Layout {
    var ringHead: nat
    var semClient: nat
    var ringTail: nat
    var semServer: nat
    var ringStart: nat
    var ringEnd: nat
    var stampsStart: nat
    var stampsEnd: nat
    var copiesHead: nat
    var copiesTail: nat
    var copiesStart: nat
    var copiesEnd: nat
    var callbacksHead: nat
    var callbacksTail: nat
    var semCallback: nat
    var callbacksStart: nat
    var callbacksEnd: nat
    var serviceHeapStart: nat
    var serviceHeapEnd: nat
    var clientHeapStart: nat
    var minShmemSize: nat

    /** The regions before the ring, which no resize moves. */
    predicate FixedPart()
      reads this
    {
      ringHead == 0 && semClient == 32 && ringTail == 64 && semServer == 96 && ringStart == 128 && minShmemSize == 45056
    }

    /** The regions for a ring ending after n pages beyond its first. */
    predicate SizedFor(n: nat)
      reads this
    {
      var base := 8192 * (n + 1);
      && ringEnd == 4096 * (n + 1) && stampsStart == ringEnd && stampsEnd == base
      && copiesHead == base && copiesTail == base + 64 && copiesStart == base + 128 && copiesEnd == base + 8192
      && callbacksHead == base + 8192 && callbacksTail == base + 8256 && semCallback == base + 8288
      && callbacksStart == base + 8320 && callbacksEnd == base + 16384
      && serviceHeapStart == base + 16384 && serviceHeapEnd == base + 32768 && clientHeapStart == base + 32768
    }

    constructor ()
      ensures FixedPart() && SizedFor(0)
    {
      var semC, tail, semS, start, end := PlaceControlBlock();
      ringHead, semClient, ringTail, semServer, ringStart, ringEnd := 0, semC, tail, semS, start, end;
      stampsStart, stampsEnd := end, end + PAGE_SIZE;
      var copiesT, copiesS, callbacks := PlaceCopiesRing(8192, 2);
      copiesHead, copiesTail, copiesStart, copiesEnd := 8192, copiesT, copiesS, callbacks;
      var callbacksT, semB, callbacksS, service := PlaceCallbacksRing(callbacks, 4);
      callbacksHead, callbacksTail, semCallback, callbacksStart, callbacksEnd :=
          callbacks, callbacksT, semB, callbacksS, service;
      serviceHeapStart, serviceHeapEnd := service, service + PAGE_SIZE * 4;
      clientHeapStart, minShmemSize := service + PAGE_SIZE * 4, service + PAGE_SIZE * 4 + PAGE_SIZE;
    }

    /** `resizeCommandsRing`, from whatever size it was. */
    method ResizeCommandsRing(numberOfPages: nat, ghost was: nat)
      requires FixedPart() && SizedFor(was)
      modifies this
      ensures FixedPart() && SizedFor(numberOfPages)
    {
      var firstPageEnd := Align(ringStart, PAGE_SIZE, 1);
      var newRingEnd := firstPageEnd + numberOfPages * PAGE_SIZE;
      if ringEnd == newRingEnd {
        assert numberOfPages == was;
        return;
      }
      MoveRegions(newRingEnd, numberOfPages);
    }

    /** Everything from the end of the ring on moves. */
    method MoveRegions(newRingEnd: nat, ghost n: nat)
      requires ringStart == 128 && newRingEnd == 4096 * (n + 1)
      modifies this`ringEnd, this`stampsStart, this`stampsEnd
      modifies this`copiesHead, this`copiesTail, this`copiesStart, this`copiesEnd
      modifies this`callbacksHead, this`callbacksTail, this`semCallback, this`callbacksStart, this`callbacksEnd
      modifies this`serviceHeapStart, this`serviceHeapEnd, this`clientHeapStart
      ensures SizedFor(n)
    {
      var newStampsEnd := PlaceStamps(ringStart, newRingEnd, n);
      ringEnd, stampsStart, stampsEnd := newRingEnd, newRingEnd, newStampsEnd;
      MoveCopiesRing(2 * (n + 1));
      MoveRest(2 * (n + 1) + 2);
    }

    /** The part of the resize that moves the ring of host pointer copies. */
    method MoveCopiesRing(ghost pages: nat)
      requires stampsEnd == pages * 4096
      modifies this`copiesHead, this`copiesTail, this`copiesStart, this`copiesEnd
      ensures copiesHead == stampsEnd && copiesTail == stampsEnd + 64 && copiesStart == stampsEnd + 128 &&
          copiesEnd == stampsEnd + 8192
    {
      copiesHead := stampsEnd;
      copiesTail, copiesStart, copiesEnd := PlaceCopiesRing(copiesHead, pages);
    }

    /** The part that moves the callbacks ring and the heaps. */
    method MoveRest(ghost pages: nat)
      requires copiesEnd == pages * 4096
      modifies this`callbacksHead, this`callbacksTail, this`semCallback, this`callbacksStart, this`callbacksEnd
      modifies this`serviceHeapStart, this`serviceHeapEnd, this`clientHeapStart
      ensures callbacksHead == copiesEnd && callbacksTail == copiesEnd + 64 && semCallback == copiesEnd + 96
      ensures callbacksStart == copiesEnd + 128 && callbacksEnd == copiesEnd + 8192
      ensures serviceHeapStart == copiesEnd + 8192 && serviceHeapEnd == clientHeapStart == copiesEnd + 24576
    {
      callbacksHead := copiesEnd;
      callbacksTail, semCallback, callbacksStart, callbacksEnd := PlaceCallbacksRing(callbacksHead, pages);
      serviceHeapStart := callbacksEnd;
      serviceHeapEnd := serviceHeapStart + PAGE_SIZE * 4;
      clientHeapStart := serviceHeapEnd;
    }

    /** The fields the client copies into the message. */
    method ToMap(shmemSize: nat, ghost n: nat) returns (m: ChannelMap)
      requires FixedPart() && SizedFor(n)
      ensures m == MapFor(n, shmemSize)
    {
      Capacities(n);
      m := ChannelMap(
        ringHead, semClient, ringTail, semServer, ringStart, (ringEnd - ringStart) / RING_ENTRY_SIZE,
        stampsStart, (stampsEnd - stampsStart) / STAMP_SIZE,
        copiesHead, copiesTail, copiesStart, (copiesEnd - copiesStart) / TRANSFER_DESC_SIZE,
        callbacksHead, callbacksTail, semCallback, callbacksStart, (callbacksEnd - callbacksStart) / CALLBACK_ID_SIZE,
        serviceHeapStart, serviceHeapEnd, clientHeapStart, shmemSize);
    }

    /** `valid`, which holds of every size of ring. */
    method CheckUsable(ghost n: nat) returns (b: bool)
      requires FixedPart() && SizedFor(n)
      ensures b
    {
      Capacities(n);
      PagesAreAligned(ringEnd, n + 1);
      PagesAreAligned(stampsEnd, 2 * (n + 1));
      PagesAreAligned(copiesEnd, 2 * (n + 1) + 2);
      PagesAreAligned(callbacksEnd, 2 * (n + 1) + 4);
      PagesAreAligned(serviceHeapEnd, 2 * (n + 1) + 8);
      b := && ringEnd >= ringStart && (ringEnd - ringStart) / RING_ENTRY_SIZE >= 2
           && PageMultiple(ringEnd) && PageMultiple(stampsEnd) && PageMultiple(copiesEnd)
           && PageMultiple(callbacksEnd) && PageMultiple(serviceHeapEnd);
    }
  }

  lemma {:induction false} PagesAreAligned(x: nat, pages: nat)
    requires x == 4096 * pages
    ensures PageMultiple(x)
  {
  }

  lemma {:induction false} Capacities(n: nat)
    ensures (4096 * (n + 1) - 128) / 16 == 256 * (n + 1) - 8
    ensures (8192 * (n + 1) - 4096 * (n + 1)) / 4 == 1024 * (n + 1)
  {
  }

  /** Head, tail and semaphores of the commands ring. */
  method PlaceControlBlock() returns (semClient: nat, tail: nat, semServer: nat, start: nat, end: nat)
    ensures semClient == 32 && tail == 64 && semServer == 96 && start == 128 && end == 4096
  {
    semClient := Align(0 + OFFSET_SIZE, SEM_SIZE, 1);
    tail := Align(semClient + SEM_SIZE, CACHELINE, 1);
    semServer := Align(tail + OFFSET_SIZE, SEM_SIZE, 3);
    start := Align(semServer, CACHELINE, 2);
    end := Align(semServer, PAGE_SIZE, 1);
  }

  /** Four stamps per ring entry take as much room as the ring. */
  method PlaceStamps(ringStart: nat, ringEnd: nat, ghost n: nat) returns (end: nat)
    requires ringStart == 128 && ringEnd == 4096 * (n + 1)
    ensures end == 8192 * (n + 1)
  {
    var numRingEntries := (ringEnd - ringStart) / RING_ENTRY_SIZE;
    assert numRingEntries == 256 * (n + 1) - 8;
    var stampsCount := numRingEntries * 4;
    end := Align(ringEnd + stampsCount * STAMP_SIZE, PAGE_SIZE, 2 * (n + 1));
  }

  /** A ring with two control words above a page boundary. */
  method PlaceCopiesRing(head: nat, ghost pages: nat) returns (tail: nat, start: nat, end: nat)
    requires head == pages * 4096
    ensures tail == head + 64 && start == head + 128 && end == head + 8192
  {
    tail := Align(head + OFFSET_SIZE, CACHELINE, 64 * pages + 1);
    start := Align(tail + OFFSET_SIZE, CACHELINE, 64 * pages + 2);
    end := Align(start + PAGE_SIZE, PAGE_SIZE, pages + 2);
  }

  /** The same with a semaphore in between. */
  method PlaceCallbacksRing(head: nat, ghost pages: nat) returns (tail: nat, sem: nat, start: nat, end: nat)
    requires head == pages * 4096
    ensures tail == head + 64 && sem == head + 96 && start == head + 128 && end == head + 8192
  {
    tail := Align(head + OFFSET_SIZE, CACHELINE, 64 * pages + 1);
    sem := Align(tail + OFFSET_SIZE, SEM_SIZE, 128 * pages + 3);
    start := Align(sem + SEM_SIZE, CACHELINE, 64 * pages + 2);
    end := Align(start + PAGE_SIZE, PAGE_SIZE, pages + 2);
  }

  /** The layout the client sends: for a ring of n extra pages in shared memory of the given size. */
  function MapFor(n: nat, shmemSize: nat): ChannelMap {
    var base := 8192 * (n + 1);
    ChannelMap(0, 32, 64, 96, 128, 256 * (n + 1) - 8,
               4096 * (n + 1), 1024 * (n + 1),
               base, base + 64, base + 128, 168,
               base + 8192, base + 8256, base + 8288, base + 8320, 252,
               base + 16384, base + 32768, base + 32768, shmemSize)
  }

  /** `partition` on the client: the number of ring pages comes from the environment, or is 1 when calls
      are asynchronous, or stays the default. */
  method Partition(
    shmem: nat, shmemSize: nat, requestedPages: Option<nat>, useAsyncCalls: bool)
    returns (r: Option<ChannelMap>)
    ensures r.Some? <==> shmem % PAGE_SIZE == 0 && shmemSize % PAGE_SIZE == 0 && shmemSize >= 45056
    ensures r.Some? ==> r.value == MapFor(RingPages(requestedPages, useAsyncCalls), shmemSize)
    ensures r.Some? && requestedPages.Some? ==> r.value.stampsStart == PAGE_SIZE * (requestedPages.value + 1)
    ensures r.Some? && requestedPages.None? ==>
              r.value.stampsStart == if useAsyncCalls then 2 * PAGE_SIZE else PAGE_SIZE
  {
    if shmem % PAGE_SIZE != 0 {
      return None;
    }
    if shmemSize % PAGE_SIZE != 0 {
      return None;
    }
    var l := new Layout();
    if requestedPages.Some? {
      l.ResizeCommandsRing(requestedPages.value, 0);
    } else if useAsyncCalls {
      l.ResizeCommandsRing(1, 0);
    }
    ghost var n := RingPages(requestedPages, useAsyncCalls);
    var usable := l.CheckUsable(n);
    if !usable {
      return None;
    }
    if shmemSize < l.minShmemSize {
      return None;
    }
    var m := l.ToMap(shmemSize, n);
    r := Some(m);
  }

  function RingPages(requestedPages: Option<nat>, useAsyncCalls: bool): nat {
    if requestedPages.Some? then requestedPages.value else if useAsyncCalls then 1 else 0
  }

  /** As many elements as fit between the start of an array and the region behind it. */
  predicate Fills(start: nat, elementSize: nat, capacity: nat, next: nat) {
    start + capacity * elementSize <= next < start + (capacity + 1) * elementSize
  }

  /** The ring and its control words take one page more than were asked for; every array has the greatest
      capacity its region admits, and each ring entry has at least four stamps. */
  lemma {:induction false} CapacitiesAreGreatest(n: nat, size: nat)
    ensures var m := MapFor(n, size);
      && m.stampsStart == PAGE_SIZE * (n + 1)
      && Fills(m.ringStart, RING_ENTRY_SIZE, m.ringCapacity, m.stampsStart)
      && Fills(m.stampsStart, STAMP_SIZE, m.stampsCapacity, m.copiesHead)
      && Fills(m.copiesStart, TRANSFER_DESC_SIZE, m.copiesCapacity, m.callbacksHead)
      && Fills(m.callbacksStart, CALLBACK_ID_SIZE, m.callbacksCapacity, m.serviceHeapStart)
      && 4 * m.ringCapacity <= m.stampsCapacity
  {
  }

  // ---------- the server's check ----------

  datatype Region = Region(range: Range, alignment: nat)

  function Sized(start: nat, bytes: nat, alignment: nat): Region { Region(Range(start, start + bytes), alignment) }

  /** The regions of a layout, in the order they have in memory. */
  function Regions(el: ChannelMap): seq<Region> {
    [Sized(el.ringHead, OFFSET_SIZE, OFFSET_SIZE),
     Sized(el.semClient, SEM_SIZE, SEM_SIZE),
     Sized(el.ringTail, OFFSET_SIZE, OFFSET_SIZE),
     Sized(el.semServer, SEM_SIZE, SEM_SIZE),
     Sized(el.ringStart, el.ringCapacity * RING_ENTRY_SIZE, CACHELINE),
     Sized(el.stampsStart, el.stampsCapacity * STAMP_SIZE, CACHELINE),
     Sized(el.copiesHead, OFFSET_SIZE, OFFSET_SIZE),
     Sized(el.copiesTail, OFFSET_SIZE, OFFSET_SIZE),
     Sized(el.copiesStart, el.copiesCapacity * TRANSFER_DESC_SIZE, CACHELINE),
     Sized(el.callbacksHead, OFFSET_SIZE, OFFSET_SIZE),
     Sized(el.callbacksTail, OFFSET_SIZE, OFFSET_SIZE),
     Sized(el.semCallback, SEM_SIZE, SEM_SIZE),
     Sized(el.callbacksStart, el.callbacksCapacity * CALLBACK_ID_SIZE, CACHELINE),
     Region(Range(el.serviceHeapStart, el.serviceHeapEnd), PAGE_SIZE),
     Region(Range(el.clientHeapStart, el.clientHeapEnd), PAGE_SIZE)]
  }

  predicate Placed(r: Region, channelSize: nat)
    requires r.alignment > 0
  {
    Range(0, channelSize).Contains(r.range) && r.range.start % r.alignment == 0 && r.range.end % r.alignment == 0
  }

  ghost predicate Aligned(rs: seq<Region>) { forall i :: 0 <= i < |rs| ==> rs[i].alignment > 0 }

  /** In bounds, aligned, and pairwise disjoint. */
  ghost predicate WellPlaced(rs: seq<Region>, channelSize: nat)
    requires Aligned(rs)
  {
    && (forall i :: 0 <= i < |rs| ==> Placed(rs[i], channelSize))
    && (forall i, j :: 0 <= i < |rs| && 0 <= j < |rs| && i != j ==> !rs[i].range.Intersects(rs[j].range))
  }

  /** `isInBounds`: checks every region against the channel and against every other. */
  method IsInBounds(el: ChannelMap, channelSize: nat) returns (valid: bool)
    ensures Aligned(Regions(el)) && (valid <==> WellPlaced(Regions(el), channelSize))
  {
    var ranges := Regions(el);
    valid := true;
    for i := 0 to |ranges|
      invariant valid <==> PlacedUpTo(ranges, channelSize, i)
    {
      if !Placed(ranges[i], channelSize) {
        valid := false;
      }
      ghost var before := valid;
      for j := 0 to |ranges|
        invariant valid <==> before && MeetsNone(ranges, i, j)
      {
        if i != j && ranges[i].range.Intersects(ranges[j].range) {
          valid := false;
        }
      }
    }
  }

  ghost predicate MeetsNone(rs: seq<Region>, i: nat, n: nat)
    requires i < |rs| && n <= |rs|
  {
    forall j :: 0 <= j < n && i != j ==> !rs[i].range.Intersects(rs[j].range)
  }

  ghost predicate PlacedUpTo(rs: seq<Region>, channelSize: nat, n: nat)
    requires Aligned(rs) && n <= |rs|
  {
    forall i :: 0 <= i < n ==> Placed(rs[i], channelSize) && MeetsNone(rs, i, |rs|)
  }

  // ---------- the client's layout passes ----------

  ghost predicate InOrder(rs: seq<Region>) {
    forall i, j :: 0 <= i < |rs| && j == i + 1 && j < |rs| ==> rs[i].range.end <= rs[j].range.start
  }

  ghost predicate NoneEmpty(rs: seq<Region>) { forall i :: 0 <= i < |rs| ==> rs[i].range.Nonempty() }

  lemma {:induction false} OrderedIsDisjoint(rs: seq<Region>, i: nat, j: nat)
    requires InOrder(rs) && NoneEmpty(rs) && i < j < |rs|
    ensures rs[i].range.end <= rs[j].range.start
    decreases j
  {
    if i < j - 1 {
      OrderedIsDisjoint(rs, i, j - 1);
    }
    var k := j - 1;
    assert rs[k].range.end <= rs[j].range.start;
  }

  lemma {:induction false} MapIsInOrder(n: nat, size: nat)
    requires size > 8192 * (n + 1) + 32768
    ensures InOrder(Regions(MapFor(n, size))) && NoneEmpty(Regions(MapFor(n, size)))
  {
  }

  ghost predicate EndsAligned(r: Region) {
    r.alignment > 0 && r.range.start % r.alignment == 0 && r.range.end % r.alignment == 0
  }

  lemma {:induction false} MultiplesAreAligned(r: Region, p: nat, q: nat)
    requires r.alignment > 0 && r.range.start == r.alignment * p && r.range.end == r.alignment * q
    ensures EndsAligned(r)
  {
    MultipleIsDivisible(p, r.alignment);
    MultipleIsDivisible(q, r.alignment);
  }

  lemma {:induction false} MapIsAligned(n: nat, size: nat, i: nat)
    requires size % PAGE_SIZE == 0 && i < |Regions(MapFor(n, size))|
    ensures EndsAligned(Regions(MapFor(n, size))[i])
  {
    var rs, k := Regions(MapFor(n, size)), n + 1;
    if i == 0 { MultiplesAreAligned(rs[0], 0, 1); }
    else if i == 1 { MultiplesAreAligned(rs[1], 1, 2); }
    else if i == 2 { MultiplesAreAligned(rs[2], 8, 9); }
    else if i == 3 { MultiplesAreAligned(rs[3], 3, 4); }
    else if i == 4 { MultiplesAreAligned(rs[4], 2, 64 * k); }
    else if i == 5 { MultiplesAreAligned(rs[5], 64 * k, 128 * k); }
    else if i == 6 { MultiplesAreAligned(rs[6], 1024 * k, 1024 * k + 1); }
    else if i == 7 { MultiplesAreAligned(rs[7], 1024 * k + 8, 1024 * k + 9); }
    else if i == 8 { MultiplesAreAligned(rs[8], 128 * k + 2, 128 * k + 128); }
    else if i == 9 { MultiplesAreAligned(rs[9], 1024 * k + 1024, 1024 * k + 1025); }
    else if i == 10 { MultiplesAreAligned(rs[10], 1024 * k + 1032, 1024 * k + 1033); }
    else if i == 11 { MultiplesAreAligned(rs[11], 256 * k + 259, 256 * k + 260); }
    else if i == 12 { MultiplesAreAligned(rs[12], 128 * k + 130, 128 * k + 256); }
    else if i == 13 { MultiplesAreAligned(rs[13], 2 * k + 4, 2 * k + 8); }
    else { MultiplesAreAligned(rs[14], 2 * k + 8, size / 4096); }
  }

  /** For every ring size, the layout the client computes passes the server's check exactly when the
      shared memory reaches beyond the start of the client heap. */
  lemma {:induction false} ComputedLayoutPasses(n: nat, size: nat)
    requires size % PAGE_SIZE == 0
    ensures Aligned(Regions(MapFor(n, size)))
    ensures WellPlaced(Regions(MapFor(n, size)), size) <==> size > MapFor(n, size).clientHeapStart
  {
    var rs := Regions(MapFor(n, size));
    if size > MapFor(n, size).clientHeapStart {
      MapIsInOrder(n, size);
      forall i | 0 <= i < |rs| ensures rs[i].alignment > 0 && Placed(rs[i], size) {
        MapIsAligned(n, size, i);
        if i < 14 {
          OrderedIsDisjoint(rs, i, 14);
        }
      }
      forall i, j | 0 <= i < |rs| && 0 <= j < |rs| && i != j ensures !rs[i].range.Intersects(rs[j].range) {
        if i < j {
          OrderedIsDisjoint(rs, i, j);
        } else {
          OrderedIsDisjoint(rs, j, i);
        }
      }
    } else {
      assert !Range(0, size).Contains(rs[14].range);
    }
  }
}
