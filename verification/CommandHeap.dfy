/** `LinearAllocator` (shared/allocators.h): the bump heap that holds the command messages. */
module CommandHeap {
  import opened Ranges

  /** Bytes used after a request, and the aligned address it would get. */
  function Bumped(start: nat, used: nat, bytes: nat, alignment: nat): (r: (nat, nat))
    requires alignment > 0
    ensures start + used <= r.1 && r.1 % alignment == 0
    ensures r.1 + bytes <= start + r.0
  {
    var addr := start + used;
    var aligned := AlignUp(addr, alignment);
    (used + AlignUp(bytes, alignment) + (aligned - addr), aligned)
  }

  /** Above the mark the heap has an aligned place for the request, rounded up to whole alignments. */
  ghost predicate HasPlace(va: Range, used: nat, bytes: nat, alignment: nat)
    requires alignment > 0
  {
    exists a: int, size: int ::
      && va.start + used <= a && a % alignment == 0 && bytes <= size && size % alignment == 0
      && a + size <= va.end
  }

  /** The bump is the least possible: it stays in the heap exactly when the request has a place, and no
      aligned address above the mark lies below the one it gives. */
  lemma {:induction false} BumpIsLeast(va: Range, used: nat, bytes: nat, alignment: nat)
    requires alignment > 0 && va.start >= 0
    ensures forall a: int :: va.start + used <= a && a % alignment == 0 ==>
              Bumped(va.start, used, bytes, alignment).1 <= a
    ensures Bumped(va.start, used, bytes, alignment).0 <= va.Size() <==> HasPlace(va, used, bytes, alignment)
  {
    var r := Bumped(va.start, used, bytes, alignment);
    forall a: int | va.start + used <= a && a % alignment == 0 ensures r.1 <= a {
      AlignUpIsLeast(va.start + used, alignment, a);
    }
    forall size: int | bytes <= size && size % alignment == 0 ensures AlignUp(bytes, alignment) <= size {
      AlignUpIsLeast(bytes, alignment, size);
    }
    assert r.1 + AlignUp(bytes, alignment) == va.start + r.0;
  }

  class LinearAllocator {
    const va: Range
    var sizeUsed: nat

    constructor (va: Range)
      ensures this.va == va && sizeUsed == 0
    {
      this.va := va;
      sizeUsed := 0;
    }

    /** A granted request gets the first aligned bytes above everything handed out since the last reset, and
        a request is refused only when the heap has no place for it; the size grows even then. */
    method Allocate(sizeInBytes: nat, alignment: nat) returns (addr: Option<nat>)
      requires alignment > 0 && va.start >= 0
      modifies this
      ensures old(sizeUsed) + sizeInBytes <= sizeUsed
      ensures addr.Some? ==>
                && va.start + old(sizeUsed) <= addr.value && addr.value % alignment == 0
                && addr.value + sizeInBytes <= va.start + sizeUsed <= va.end
      ensures addr.Some? <==> HasPlace(va, old(sizeUsed), sizeInBytes, alignment)
      ensures addr.Some? <==> sizeUsed <= va.Size()
      ensures forall a: int | va.start + old(sizeUsed) <= a && a % alignment == 0 :: addr.Some? ==> addr.value <= a
      ensures sizeUsed == Bumped(va.start, old(sizeUsed), sizeInBytes, alignment).0
      ensures addr.Some? ==> addr.value == Bumped(va.start, old(sizeUsed), sizeInBytes, alignment).1
    {
      BumpIsLeast(va, sizeUsed, sizeInBytes, alignment);
      var at := va.start + sizeUsed;
      var addrAligned := AlignUp(at, alignment);
      var size := AlignUp(sizeInBytes, alignment);
      var totalSizeUsed := size + addrAligned - at;
      sizeUsed := sizeUsed + totalSizeUsed;
      if sizeUsed > va.Size() {
        return None;
      }
      return Some(addrAligned);
    }

    method Free()
      modifies this
      ensures sizeUsed == 0
    {
      sizeUsed := 0;
    }
  }
}
