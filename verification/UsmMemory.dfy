/** The address space of one side of the USM negotiation (shared/usm.h, shared/usm.cpp): reserving,
    releasing, merging and cleaning up reservations. */
module UsmMemory {
  import opened Ranges
  import opened PartitionedRange
  import opened AddressPartition

  /** The mapped addresses of a process: those reserved by the negotiation and everybody else's. */
  datatype Proc = Proc(owned: set<int>, foreign: set<int>) {
    /** A fixed request that must not replace anything succeeds exactly here. */
    predicate Free(r: Range) { r.Addrs() !! owned + foreign }

    function With(r: Range): Proc { Proc(owned + r.Addrs(), foreign) }

    /** munmap takes away whatever is mapped, whoever mapped it. */
    function Unmapped(gone: set<int>): Proc { Proc(owned - gone, foreign - gone) }

    /** MAP_FIXED replaces whatever is mapped, whoever mapped it. */
    function Forced(r: Range): Proc { Proc(owned + r.Addrs(), foreign - r.Addrs()) }
  }

  ghost predicate Meets(subs: seq<Node>, r: Range) {
    exists i :: 0 <= i < |subs| && subs[i].desc.Intersects(r)
  }

  // ---------- merging: specification ----------

  /** Reserving the first n ranges one after the other, up to the first failure. */
  function ReservedUpTo(p: Proc, gaps: seq<Range>, n: nat): (Proc, bool)
    requires n <= |gaps|
  {
    if n == 0 then (p, true)
    else
      var before := ReservedUpTo(p, gaps, n - 1);
      if !before.1 || !before.0.Free(gaps[n - 1]) then (before.0, false)
      else (before.0.With(gaps[n - 1]), true)
  }

  lemma {:induction false} FailureIsFinal(p: Proc, gaps: seq<Range>, n: nat, last: (Proc, bool))
    requires n <= |gaps| && !ReservedUpTo(p, gaps, n).1 && last == ReservedUpTo(p, gaps, |gaps|)
    ensures last == ReservedUpTo(p, gaps, n)
    decreases |gaps| - n
  {
    if n < |gaps| {
      FailureIsFinal(p, gaps, n + 1, last);
    }
  }

  ghost function Merge(p: Proc, subs: seq<Node>, r: Range): (Proc, bool) {
    if !Meets(subs, r) then (p, false)
    else ReservedUpTo(p, Gaps(subs, r.start, r.end), |Gaps(subs, r.start, r.end)|)
  }

  ghost predicate InFirst(gaps: seq<Range>, n: nat, a: int)
    requires n <= |gaps|
  {
    exists k :: 0 <= k < n && gaps[k].Has(a)
  }

  lemma {:induction false} InFirstStep(gaps: seq<Range>, n: nat, a: int)
    requires n < |gaps|
    ensures InFirst(gaps, n + 1, a) <==> InFirst(gaps, n, a) || gaps[n].Has(a)
  {
  }

  /** What a sequence of reservations achieves: everything if nothing was in the way, otherwise a part. */
  lemma {:induction false} ReservedWhat(p: Proc, gaps: seq<Range>, n: nat)
    requires n <= |gaps| && Ascending(gaps)
    ensures ReservedUpTo(p, gaps, n).1 <==> forall a :: InFirst(gaps, n, a) ==> a !in p.owned + p.foreign
    ensures ReservedUpTo(p, gaps, n).0.foreign == p.foreign
    ensures p.owned <= ReservedUpTo(p, gaps, n).0.owned
    ensures forall a :: a in ReservedUpTo(p, gaps, n).0.owned ==> a in p.owned || InFirst(gaps, n, a)
    ensures ReservedUpTo(p, gaps, n).1 ==> forall a :: InFirst(gaps, n, a) ==> a in ReservedUpTo(p, gaps, n).0.owned
    decreases n
  {
    if n > 0 {
      ReservedWhat(p, gaps, n - 1);
      ReservedMore(p, gaps, n, ReservedUpTo(p, gaps, n - 1).0, ReservedUpTo(p, gaps, n - 1).1);
    }
  }

  lemma {:induction false} ReservedMore(p: Proc, gaps: seq<Range>, n: nat, q: Proc, ok: bool)
    requires 0 < n <= |gaps| && Ascending(gaps)
    requires ok <==> forall a :: InFirst(gaps, n - 1, a) ==> a !in p.owned + p.foreign
    requires q.foreign == p.foreign && p.owned <= q.owned
    requires forall a :: a in q.owned ==> a in p.owned || InFirst(gaps, n - 1, a)
    requires ok ==> forall a :: InFirst(gaps, n - 1, a) ==> a in q.owned
    ensures ok && q.Free(gaps[n - 1]) <==> forall a :: InFirst(gaps, n, a) ==> a !in p.owned + p.foreign
    ensures forall a :: InFirst(gaps, n, a) <==> InFirst(gaps, n - 1, a) || gaps[n - 1].Has(a)
  {
    var g := gaps[n - 1];
    forall a ensures InFirst(gaps, n, a) <==> InFirst(gaps, n - 1, a) || g.Has(a) {
      InFirstStep(gaps, n - 1, a);
    }
    forall a | g.Has(a) ensures a in g.Addrs() && !InFirst(gaps, n - 1, a) {
    }
    if ok && q.Free(g) {
      forall a | InFirst(gaps, n, a) ensures a !in p.owned + p.foreign {
        if g.Has(a) {
          assert a !in q.owned + q.foreign;
        }
      }
    }
    if forall a :: InFirst(gaps, n, a) ==> a !in p.owned + p.foreign {
      forall a | a in g.Addrs() ensures a !in q.owned + q.foreign {
        assert g.Has(a);
      }
    }
  }

  /** Merging succeeds exactly when the reservations meet the range and nothing else is mapped in it. */
  lemma {:induction false} MergeSucceedsIff(p: Proc, subs: seq<Node>, r: Range)
    requires Ordered(subs)
    ensures Merge(p, subs, r).1
            <==> Meets(subs, r) && forall a :: r.Has(a) && !Covered(subs, a) ==> a !in p.owned + p.foreign
  {
    var gaps := Gaps(subs, r.start, r.end);
    GapsAreTheDifference(subs, r.start, r.end);
    ReservedWhat(p, gaps, |gaps|);
    assert forall a :: InFirst(gaps, |gaps|, a) <==> InSome(gaps, a);
  }

  /** A merge never touches foreign memory and reserves at most the range; a successful one, all of it. */
  lemma {:induction false} MergeReserves(p: Proc, subs: seq<Node>, r: Range)
    requires Ordered(subs) && forall a :: Covered(subs, a) ==> a in p.owned
    ensures Merge(p, subs, r).0.foreign == p.foreign
    ensures p.owned <= Merge(p, subs, r).0.owned <= p.owned + r.Addrs()
    ensures forall a :: a in Merge(p, subs, r).0.owned && a !in p.owned ==> a !in p.foreign
    ensures Merge(p, subs, r).1 ==> Merge(p, subs, r).0 == p.With(r)
  {
    var gaps := Gaps(subs, r.start, r.end);
    GapsAreTheDifference(subs, r.start, r.end);
    ReservedWhat(p, gaps, |gaps|);
    ReservedAvoidsForeign(p, gaps, |gaps|);
    assert forall a :: InFirst(gaps, |gaps|, a) <==> InSome(gaps, a);
    if Merge(p, subs, r).1 {
      assert Merge(p, subs, r).0.owned == p.owned + r.Addrs() by {
        forall a | a in r.Addrs() ensures a in Merge(p, subs, r).0.owned {
          assert r.Has(a);
        }
      }
    }
  }

  lemma {:induction false} ReservedAvoidsForeign(p: Proc, gaps: seq<Range>, n: nat)
    requires n <= |gaps|
    ensures ReservedUpTo(p, gaps, n).0.foreign == p.foreign
    ensures forall a :: a in ReservedUpTo(p, gaps, n).0.owned && a !in p.owned ==> a !in p.foreign
    decreases n
  {
    if n > 0 {
      ReservedAvoidsForeign(p, gaps, n - 1);
    }
  }

  // ---------- cleaning up: specification ----------

  /** The addresses of the first n reservations. */
  function AddrsOf(subs: seq<Node>, n: nat): set<int>
    requires n <= |subs|
  {
    if n == 0 then {} else AddrsOf(subs, n - 1) + subs[n - 1].desc.Addrs()
  }

  lemma {:induction false} AddrsOfMeansCovered(subs: seq<Node>, n: nat, a: int)
    requires n <= |subs|
    ensures a in AddrsOf(subs, n) <==> exists i :: 0 <= i < n && subs[i].desc.Has(a)
    decreases n
  {
    if n > 0 {
      AddrsOfMeansCovered(subs, n - 1, a);
    }
  }

  function UsedAddrs(used: Option<Range>): set<int> { if used.None? then {} else used.value.Addrs() }

  /** Some reservation shares addresses with the used range without being it. */
  ghost predicate Partitioned(subs: seq<Node>, n: nat, used: Option<Range>)
    requires n <= |subs|
  {
    used.Some? && exists i :: 0 <= i < n && subs[i].desc.Intersects(used.value) && subs[i].desc != used.value
  }

  /** Whatever was reserved outside the used range is released; the used range becomes one mapping. */
  ghost function CleanedUp(p: Proc, used: Option<Range>, subs: seq<Node>): Proc {
    var p1 := p.Unmapped(AddrsOf(subs, |subs|) - UsedAddrs(used));
    if Partitioned(subs, |subs|, used) then p1.Forced(used.value) else p1
  }

  /** Cleaning up gives back exactly the reservations outside the used range, keeps all of the used
      range, and touches no foreign memory although it unmaps and force-maps blindly. */
  lemma {:induction false} CleanupIsSafe(p: Proc, used: Option<Range>, subs: seq<Node>)
    requires AddrsOf(subs, |subs|) <= p.owned && UsedAddrs(used) <= p.owned && p.owned !! p.foreign
    ensures CleanedUp(p, used, subs) == Proc(p.owned - (AddrsOf(subs, |subs|) - UsedAddrs(used)), p.foreign)
    ensures UsedAddrs(used) <= CleanedUp(p, used, subs).owned
  {
    var gone := AddrsOf(subs, |subs|) - UsedAddrs(used);
    assert p.foreign - gone == p.foreign;
    if Partitioned(subs, |subs|, used) {
      assert p.owned - gone + UsedAddrs(used) == p.owned - gone;
      assert p.foreign - UsedAddrs(used) == p.foreign;
    }
  }

  /** The ends of a reservation that stick out of the used range. */
  lemma {:induction false} SticksOut(r: Range, used: Range)
    requires r.Nonempty() && used.Nonempty() && r.Intersects(used)
    ensures r.Addrs() - used.Addrs() ==
            (if r.start < used.start then Range(r.start, used.start).Addrs() else {})
            + (if used.end < r.end then Range(used.end, r.end).Addrs() else {})
  {
    var left := if r.start < used.start then Range(r.start, used.start).Addrs() else {};
    var right := if used.end < r.end then Range(used.end, r.end).Addrs() else {};
    forall a ensures a in r.Addrs() - used.Addrs() <==> a in left + right {
      assert a in r.Addrs() <==> r.Has(a);
      assert a in used.Addrs() <==> used.Has(a);
    }
  }

  // ---------- the code ----------

  class Process {
    var owned: set<int>
    var foreign: set<int>

    function Value(): Proc
      reads this
    {
      Proc(owned, foreign)
    }

    /** `reserveUsmCpuRange` at a fixed address: fails on collision. */
    method Reserve(r: Range) returns (ok: bool)
      modifies this
      ensures ok == old(Value()).Free(r)
      ensures Value() == if ok then old(Value()).With(r) else old(Value())
    {
      ok := r.Addrs() !! owned + foreign;
      if ok {
        owned := owned + r.Addrs();
      }
    }

    /** `forceReserveUsmCpuRange`. */
    method ForceReserve(r: Range)
      modifies this
      ensures Value() == old(Value()).Forced(r)
    {
      owned := owned + r.Addrs();
      foreign := foreign - r.Addrs();
    }

    method Munmap(r: Range)
      modifies this
      ensures Value() == old(Value()).Unmapped(r.Addrs())
    {
      owned := owned - r.Addrs();
      foreign := foreign - r.Addrs();
    }

    /** `tryMergeUsmRegions`; the reservations are a copy, so additions to it are lost on return. */
    method TryMergeUsmRegions(desired: Range, reservations: Node) returns (ok: bool)
      requires PartitionedRange.Valid(reservations) && desired.Nonempty()
      modifies this
      ensures (Value(), ok) == Merge(old(Value()), reservations.subs, desired)
    {
      ghost var p, subs := Value(), reservations.subs;
      var existing := new PartitionedAddressRange(Range(0, 0));
      existing.desc, existing.subRanges := reservations.desc, reservations.subs;
      var meets := existing.IntersectsSubRanges(desired);
      if !meets {
        return false;
      }
      var missing := existing.GetSubRangesDiffFrom(desired);
      ghost var gaps := Gaps(subs, desired.start, desired.end);
      GapsAreTheDifference(subs, desired.start, desired.end);
      var i := 0;
      while i < |missing|
        invariant i <= |missing| && missing == gaps
        invariant (Value(), true) == ReservedUpTo(p, gaps, i)
        invariant Ordered(existing.subRanges)
        invariant forall a :: Covered(existing.subRanges, a) <==> Covered(subs, a) || InFirst(gaps, i, a)
      {
        ok := Reserve(missing[i]);
        if !ok {
          FailureIsFinal(p, gaps, i + 1, ReservedUpTo(p, gaps, |gaps|));
          return false;
        }
        GapFitsIn(subs, desired, gaps, i, existing.subRanges);
        existing.Insert(Leaf(missing[i]));
        i := i + 1;
      }
      return true;
    }

    /** `cleanupObsoleteAddressReservations`. */
    method CleanupObsoleteAddressReservations(used: Option<Range>, all: seq<Node>)
      requires Ordered(all) && (used.Some? ==> used.value.Nonempty())
      modifies this
      ensures Value() == CleanedUp(old(Value()), used, all)
    {
      ghost var p := Value();
      if used.None? {
        var i := 0;
        while i < |all|
          invariant i <= |all| && Value() == p.Unmapped(AddrsOf(all, i))
        {
          Munmap(all[i].desc);
          UnmapMore(p, AddrsOf(all, i), all[i].desc.Addrs());
          i := i + 1;
        }
        assert AddrsOf(all, |all|) - {} == AddrsOf(all, |all|);
        return;
      }
      var partitioned := false;
      var r := used.value;
      var i := 0;
      while i < |all|
        invariant i <= |all| && Value() == p.Unmapped(AddrsOf(all, i) - r.Addrs())
        invariant partitioned == Partitioned(all, i, used)
      {
        TrimReservation(all[i].desc, r, p, AddrsOf(all, i));
        partitioned := partitioned || (all[i].desc.Intersects(r) && all[i].desc != r);
        i := i + 1;
      }
      if partitioned {
        ForceReserve(r);
      }
    }

    /** The loop body: releases what a reservation holds outside the used range. */
    method TrimReservation(d: Range, r: Range, ghost p: Proc, ghost earlier: set<int>)
      requires d.Nonempty() && r.Nonempty()
      requires Value() == p.Unmapped(earlier - r.Addrs())
      modifies this
      ensures Value() == p.Unmapped(earlier + d.Addrs() - r.Addrs())
    {
      TrimmedAway(p, earlier, d, r);
      if !d.Intersects(r) {
        Munmap(d);
        return;
      }
      if d == r {
        return;
      }
      if d.start < r.start {
        Munmap(Range(d.start, r.start));
      }
      if r.end < d.end {
        Munmap(Range(r.end, d.end));
      }
    }
  }

  lemma {:induction false} UnmapMore(p: Proc, x: set<int>, y: set<int>)
    ensures p.Unmapped(x).Unmapped(y) == p.Unmapped(x + y)
  {
  }

  lemma {:induction false} TrimmedAway(p: Proc, earlier: set<int>, d: Range, r: Range)
    requires d.Nonempty() && r.Nonempty()
    ensures
      var before := p.Unmapped(earlier - r.Addrs());
      var left := if d.start < r.start then before.Unmapped(Range(d.start, r.start).Addrs()) else before;
      var both := if r.end < d.end then left.Unmapped(Range(r.end, d.end).Addrs()) else left;
      p.Unmapped(earlier + d.Addrs() - r.Addrs()) ==
      if !d.Intersects(r) then before.Unmapped(d.Addrs()) else if d == r then before else both
  {
    assert earlier + d.Addrs() - r.Addrs() == (earlier - r.Addrs()) + (d.Addrs() - r.Addrs());
    if d.Intersects(r) {
      SticksOut(d, r);
    } else {
      assert d.Addrs() - r.Addrs() == d.Addrs();
    }
  }

  /** A gap meets neither the reservations nor the gaps filled before it. */
  lemma {:induction false} GapFitsIn(subs: seq<Node>, desired: Range, gaps: seq<Range>, i: nat, now: seq<Node>)
    requires Ordered(subs) && Ordered(now) && gaps == Gaps(subs, desired.start, desired.end) && i < |gaps|
    requires forall a :: Covered(now, a) <==> Covered(subs, a) || InFirst(gaps, i, a)
    ensures Ordered(Inserted(now, Leaf(gaps[i])))
    ensures forall a :: Covered(Inserted(now, Leaf(gaps[i])), a) <==> Covered(subs, a) || InFirst(gaps, i + 1, a)
  {
    GapsAreTheDifference(subs, desired.start, desired.end);
    forall k | 0 <= k < |now| ensures !now[k].desc.Intersects(gaps[i]) {
      if now[k].desc.Intersects(gaps[i]) {
        var a := if now[k].desc.start < gaps[i].start then gaps[i].start else now[k].desc.start;
        assert now[k].desc.Has(a) && gaps[i].Has(a);
        assert Covered(now, a) && InSome(gaps, a);
        assert false;
      }
    }
    InsertedIsOrdered(now, Leaf(gaps[i]));
    forall a ensures Covered(Inserted(now, Leaf(gaps[i])), a) <==> Covered(subs, a) || InFirst(gaps, i + 1, a) {
      InsertedCovers(now, Leaf(gaps[i]), a);
      InFirstStep(gaps, i, a);
    }
  }
}
