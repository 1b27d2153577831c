/** The service's view of its own address space: which shared-memory byte each mapped address
    reaches, and the files backing client pages. */
module ServiceMemory {
  import opened Ranges

  function PageDown(x: int): int { x - x % PAGE_SIZE }

  function PageUp(x: int): int { AlignUp(x, PAGE_SIZE) }

  /** A byte of a shared-memory file, or of an anonymous mapping. */
  datatype Loc = Shm(id: int, off: int) | Anonymous

  type Mappings = map<int, Loc>

  /** The addresses of a mapping. */
  function Stretch(base: int, size: int): set<int> { Range(base, base + size).Addrs() }

  function WithFile(mem: Mappings, base: int, size: int, id: int): Mappings {
    mem + (map v | v in Stretch(base, size) :: Shm(id, v - base))
  }

  function WithAnonymous(mem: Mappings, base: int, size: int): Mappings {
    mem + (map v | v in Stretch(base, size) :: Anonymous)
  }

  function WithoutStretch(mem: Mappings, base: int, size: int): Mappings {
    mem - Stretch(base, size)
  }

  predicate Reaches(mem: Mappings, v: int, loc: Loc) { v in mem && mem[v] == loc }

  ghost predicate Unmapped(mem: Mappings, base: int, size: int) {
    forall v :: Range(base, base + size).Has(v) ==> v !in mem
  }

  /** Every old mapping is still there and reaches the same byte. */
  ghost predicate Extends(mem: Mappings, mem': Mappings) {
    forall v :: v in mem ==> Reaches(mem', v, mem[v])
  }

  /** The client page a file was created for, and the file's size. */
  datatype Home = Home(page: int, size: int)

  /** `mem` maps every live address; `homes` records every file created so far. */
  datatype Os = Os(mem: Mappings, nextId: int, homes: map<int, Home>)

  ghost predicate IdsBelowNext(os: Os) {
    0 <= os.nextId && forall id :: id in os.homes ==> 0 <= id < os.nextId
  }

  /** The operating system calls the block manager relies on. */
  class ServiceOs {
    var mem: Mappings
    var nextId: int
    var top: int
    ghost var homes: map<int, Home>
    ghost var lastBase: int

    ghost function Value(): Os
      reads this
    {
      Os(mem, nextId, homes)
    }

    /** No mapping lies at or above `top`; `lastBase` is the address the last hint-free mmap returned. */
    ghost predicate Valid()
      reads this
    {
      top >= 0 && forall v :: v in mem ==> v < top
    }

    constructor ()
      ensures Valid() && Value() == Os(map[], 0, map[])
    {
      mem, nextId, top, homes, lastBase := map[], 0, 0, map[], 0;
    }

    /** `ShmemAllocator::allocate`: a new file, rounded up to whole pages. */
    method AllocateShmem(size: int, ghost page: int) returns (id: int, fileSize: int)
      requires Valid()
      modifies this
      ensures Valid()
      ensures id == old(nextId) && fileSize == PageUp(size)
      ensures Value() == Os(old(mem), old(nextId) + 1, old(homes)[id := Home(page, fileSize)])
      ensures lastBase == old(lastBase)
    {
      id, fileSize := nextId, PageUp(size);
      nextId := nextId + 1;
      homes := homes[id := Home(page, fileSize)];
    }

    /** mmap of a file without an address hint: any page-aligned stretch that is not in use. */
    method MmapFile(size: int, id: int) returns (base: int)
      requires Valid()
      modifies this
      ensures Valid()
      ensures lastBase == base && base > 0 && base % PAGE_SIZE == 0 && Unmapped(old(mem), base, size)
      ensures Value() == Os(WithFile(old(mem), base, size, id), old(nextId), old(homes))
    {
      base := PageUp(top + 1);
      lastBase := base;
      mem := WithFile(mem, base, size, id);
      top := if base + size > base then base + size else base;
    }

    /** Anonymous mmap without an address hint. */
    method MmapAnonymous(size: int) returns (base: int)
      requires Valid()
      modifies this
      ensures Valid()
      ensures lastBase == base && base > 0 && base % PAGE_SIZE == 0 && Unmapped(old(mem), base, size)
      ensures Value() == Os(WithAnonymous(old(mem), base, size), old(nextId), old(homes))
    {
      base := PageUp(top + 1);
      lastBase := base;
      mem := WithAnonymous(mem, base, size);
      top := if base + size > base then base + size else base;
    }

    /** mmap with MAP_FIXED: replaces whatever the stretch held. */
    method MmapFixed(base: int, size: int, id: int)
      requires Valid()
      modifies this
      ensures Valid()
      ensures Value() == Os(WithFile(old(mem), base, size, id), old(nextId), old(homes))
      ensures lastBase == old(lastBase)
    {
      mem := WithFile(mem, base, size, id);
      top := if base + size > top then base + size else top;
    }

    /** munmap takes away whatever the stretch held. */
    method Munmap(base: int, size: int)
      requires Valid()
      modifies this
      ensures Valid()
      ensures Value() == Os(WithoutStretch(old(mem), base, size), old(nextId), old(homes))
      ensures lastBase == old(lastBase)
    {
      mem := WithoutStretch(mem, base, size);
    }
  }
}
