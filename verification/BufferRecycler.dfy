/** `ClBufferRecycler` (client/icd/icd_ocl.h): size buckets, the budget over all of them, and the best-fit
    search inside one. Waste is an exact ratio. */
module BufferRecycler {
  import opened Ranges

  const MIN_BUCKET := 65536
  const MAX_BUCKET := 134217728
  const BUCKETS := 12

  /** A buffer: identity, creation flags, size and the host pointer given by the application. */
  datatype Mem = Mem(id: nat, flags: nat, size: nat, hostPtr: nat)

  /** CL_MEM_USE_HOST_PTR. */
  predicate UsesHostPtr(flags: nat) { flags / 8 % 2 == 1 }

  // ---------- bucket choice ----------

  /** `leadingBitNum`: the number of significant bits. */
  function LeadingBitNum(v: nat): (r: nat)
    requires v > 0
    ensures r > 0 && Pow2(r - 1) <= v < Pow2(r)
  {
    if v == 1 then 1 else 1 + LeadingBitNum(v / 2)
  }

  function LeftBound(k: nat): nat { if k == 0 then 0 else MIN_BUCKET * Pow2(k - 1) + 1 }

  function RightBound(k: nat): nat { MIN_BUCKET * Pow2(k) }

  /** `getBucketIdForSize`. */
  function BucketIdForSize(size: nat): nat {
    if size <= MIN_BUCKET then 0
    else
      var shift := LeadingBitNum(size / MIN_BUCKET) - 1;
      if MIN_BUCKET * Pow2(shift) != size then shift + 1 else shift
  }

  predicate InBucket(k: nat, size: nat) { LeftBound(k) <= size <= RightBound(k) }

  /** Every size up to the maximum goes to the one bucket whose bounds contain it. */
  lemma {:induction false} BucketBoundsContainSize(size: nat, k: nat)
    requires size <= MAX_BUCKET
    ensures BucketIdForSize(size) < BUCKETS
    ensures InBucket(k, size) <==> k == BucketIdForSize(size)
  {
    var id := BucketIdForSize(size);
    SizeIsInItsBucket(size);
    BoundsPowers();
    if id >= BUCKETS {
      Pow2Monotone(11, id - 1);
      assert false;
    }
    if k < id {
      Pow2Monotone(k, id - 1);
    } else if id < k {
      Pow2Monotone(id, k - 1);
    }
  }

  lemma {:induction false} SizeIsInItsBucket(size: nat)
    ensures InBucket(BucketIdForSize(size), size)
  {
    if size > MIN_BUCKET {
      var over := size / MIN_BUCKET;
      var shift := LeadingBitNum(over) - 1;
      assert MIN_BUCKET * over <= size < MIN_BUCKET * (over + 1);
      assert Pow2(shift) <= over && over + 1 <= Pow2(shift + 1);
    }
  }

  lemma {:induction false} BoundsPowers()
    ensures Pow2(11) == 2048 && RightBound(11) == MAX_BUCKET
  {
    assert Pow2(5) == 32;
    assert Pow2(10) == 32 * 32;
  }

  lemma {:induction false} BoundsLimit(k: nat)
    ensures RightBound(k) <= MAX_BUCKET <==> k < BUCKETS
  {
    BoundsPowers();
    if k < 12 {
      Pow2Monotone(k, 11);
    } else {
      Pow2Monotone(11, k);
    }
  }

  // ---------- buckets ----------

  datatype Bucket = Bucket(leftBound: nat, rightBound: nat, objects: seq<Mem>, total: nat, count: nat)

  function SumSizes(ms: seq<Mem>): nat {
    if ms == [] then 0 else SumSizes(ms[..|ms| - 1]) + ms[|ms| - 1].size
  }

  lemma {:induction false} SumSizesAppend(ms: seq<Mem>, m: Mem)
    ensures SumSizes(ms + [m]) == SumSizes(ms) + m.size
  {
    assert (ms + [m])[..|ms|] == ms;
  }

  lemma {:induction false} SumSizesReplace(ms: seq<Mem>, i: nat, m: Mem)
    requires i < |ms|
    ensures SumSizes(ms[i := m]) == SumSizes(ms) - ms[i].size + m.size
    decreases |ms|
  {
    var n := |ms| - 1;
    if i == n {
      assert ms[i := m][..n] == ms[..n];
    } else {
      SumSizesReplace(ms[..n], i, m);
      assert ms[i := m][..n] == ms[..n][i := m];
    }
  }

  lemma {:induction false} ElementAtMostSum(ms: seq<Mem>, i: nat)
    requires i < |ms|
    ensures ms[i].size <= SumSizes(ms)
    decreases |ms|
  {
    if i < |ms| - 1 {
      ElementAtMostSum(ms[..|ms| - 1], i);
    }
  }

  /** The list without its i-th element, whose place the last one takes. */
  function SwapRemoved(ms: seq<Mem>, i: nat): seq<Mem>
    requires i < |ms|
  {
    ms[i := ms[|ms| - 1]][..|ms| - 1]
  }

  lemma {:induction false} SwapRemovalAsMultiset(ms: seq<Mem>, i: nat)
    requires i < |ms|
    ensures multiset(SwapRemoved(ms, i)) == multiset(ms) - multiset{ms[i]}
  {
    var n := |ms| - 1;
    if i == n {
      assert ms == ms[..n] + [ms[n]];
      assert SwapRemoved(ms, i) == ms[..n];
    } else {
      assert ms == ms[..i] + [ms[i]] + ms[i + 1..n] + [ms[n]];
      assert SwapRemoved(ms, i) == ms[..i] + [ms[n]] + ms[i + 1..n];
    }
  }

  /** Removal by swapping takes out that element and nothing else. */
  lemma {:induction false} SwapRemovalConserves(ms: seq<Mem>, i: nat)
    requires i < |ms|
    ensures multiset(SwapRemoved(ms, i)) == multiset(ms) - multiset{ms[i]}
    ensures SumSizes(SwapRemoved(ms, i)) == SumSizes(ms) - ms[i].size
    ensures forall k :: 0 <= k < |SwapRemoved(ms, i)| ==> SwapRemoved(ms, i)[k] in ms
  {
    var n := |ms| - 1;
    var t := ms[i := ms[n]];
    SwapRemovalAsMultiset(ms, i);
    SumSizesReplace(ms, i, ms[n]);
    SumSizesAppend(t[..n], ms[n]);
    assert t == t[..n] + [ms[n]];
  }

  // ---------- best fit ----------

  /** A request, its host pointer already dropped unless the flags use it. */
  datatype Request = Request(flags: nat, size: nat, hostPtr: nat)

  function Effective(r: Request): Request { if UsesHostPtr(r.flags) then r else r.(hostPtr := 0) }

  function Waste(m: Mem, size: nat): real
    requires m.size > 0
  {
    (m.size - size) as real / m.size as real
  }

  predicate Matches(m: Mem, r: Request) { m.hostPtr == r.hostPtr }

  /** Flags agree, the size suffices, the waste is tolerable, and the host pointer agrees if it matters. */
  predicate Eligible(m: Mem, r: Request, tolerance: real)
    requires m.size > 0
  {
    m.flags == r.flags && m.size >= r.size && (UsesHostPtr(r.flags) ==> Matches(m, r)) && Waste(m, r.size) <= tolerance
  }

  /** First the host pointer match counts, then the waste. */
  predicate NoWorse(m: Mem, other: Mem, r: Request)
    requires m.size > 0 && other.size > 0
  {
    || (Matches(m, r) && !Matches(other, r))
    || (Matches(m, r) == Matches(other, r) && Waste(m, r.size) <= Waste(other, r.size))
  }

  ghost predicate AllPositive(ms: seq<Mem>) { forall i :: 0 <= i < |ms| ==> ms[i].size > 0 }

  /** Among the first n objects, `best` is an eligible one no eligible one beats; none if there is none. */
  ghost predicate BestAmong(ms: seq<Mem>, n: nat, r: Request, tolerance: real, best: Option<nat>)
    requires AllPositive(ms) && n <= |ms|
  {
    match best
    case None => forall j :: 0 <= j < n ==> !Eligible(ms[j], r, tolerance)
    case Some(b) =>
      && b < n && Eligible(ms[b], r, tolerance)
      && forall j :: 0 <= j < n && Eligible(ms[j], r, tolerance) ==> NoWorse(ms[b], ms[j], r)
  }

  /** An exact match cannot be beaten. */
  lemma {:induction false} ExactMatchIsBest(ms: seq<Mem>, i: nat, r: Request, tolerance: real)
    requires AllPositive(ms) && i < |ms| && tolerance >= 0.0
    requires Eligible(ms[i], r, tolerance) && Matches(ms[i], r) && Waste(ms[i], r.size) == 0.0
    ensures BestAmong(ms, |ms|, r, tolerance, Some(i))
  {
    forall j | 0 <= j < |ms| && Eligible(ms[j], r, tolerance) ensures NoWorse(ms[i], ms[j], r) {
      WasteIsNonnegative(ms[j], r.size);
    }
  }

  lemma {:induction false} WasteIsNonnegative(m: Mem, size: nat)
    requires m.size > 0 && m.size >= size
    ensures Waste(m, size) >= 0.0
  {
  }

  /** What the loop knows: the fit level says whether the best so far matches the host pointer. */
  ghost predicate FitState(ms: seq<Mem>, n: nat, r: Request, tolerance: real, best: nat, level: nat, waste: real)
    requires AllPositive(ms) && n <= |ms|
  {
    && level <= 2
    && (level == 0 ==> best == |ms| && BestAmong(ms, n, r, tolerance, None))
    && (level > 0 ==>
          && BestAmong(ms, n, r, tolerance, Some(best))
          && waste == Waste(ms[best], r.size)
          && (level == 2 <==> Matches(ms[best], r)))
  }

  /** The loop of `tryGetRecycledClBuffer`, returning the position of the best fit or the end. */
  method FindBestFit(objects: seq<Mem>, req: Request, tolerance: real) returns (found: Option<nat>)
    requires AllPositive(objects) && tolerance >= 0.0
    ensures BestAmong(objects, |objects|, Effective(req), tolerance, found)
  {
    var r := req;
    if !UsesHostPtr(req.flags) {
      r := r.(hostPtr := 0);
    }
    var it: nat, bestFit: nat, fitLevel: nat, bestFitWaste: real := 0, |objects|, 0, 1.0;
    while it < |objects|
      invariant it <= |objects| && FitState(objects, it, r, tolerance, bestFit, fitLevel, bestFitWaste)
    {
      var m := objects[it];
      if m.flags != r.flags || m.size < r.size {
        SkipIneligible(objects, it, r, tolerance, bestFit, fitLevel, bestFitWaste);
        it := it + 1;
        continue;
      }
      var waste := Waste(m, r.size);
      var hostPtrMatch := m.hostPtr == r.hostPtr;
      if UsesHostPtr(r.flags) && !hostPtrMatch {
        SkipIneligible(objects, it, r, tolerance, bestFit, fitLevel, bestFitWaste);
        it := it + 1;
        continue;
      }
      if waste == 0.0 && hostPtrMatch {
        ExactMatchIsBest(objects, it, r, tolerance);
        return Some(it);
      }
      ghost var best0, level0, waste0 := bestFit, fitLevel, bestFitWaste;
      if (waste < bestFitWaste && hostPtrMatch && fitLevel == 2)
        || (waste <= tolerance && hostPtrMatch && fitLevel < 2) {
        bestFit, bestFitWaste, fitLevel := it, waste, 2;
      }
      if (waste < bestFitWaste && fitLevel == 1) || (waste <= tolerance && fitLevel < 1) {
        bestFit, bestFitWaste, fitLevel := it, waste, 1;
      }
      ConsiderOne(objects, it, r, tolerance, best0, level0, waste0, bestFit, fitLevel, bestFitWaste);
      it := it + 1;
    }
    if bestFit == |objects| || bestFitWaste > tolerance {
      return None;
    }
    return Some(bestFit);
  }

  lemma {:induction false} SkipIneligible(
    ms: seq<Mem>, n: nat, r: Request, tolerance: real, best: nat, level: nat, waste: real)
    requires AllPositive(ms) && n < |ms| && FitState(ms, n, r, tolerance, best, level, waste) &&
        !Eligible(ms[n], r, tolerance)
    ensures FitState(ms, n + 1, r, tolerance, best, level, waste)
  {
  }

  /** One candidate that passed the filters: the two conditionals keep the best one. */
  lemma {:induction false} ConsiderOne(ms: seq<Mem>, n: nat, r: Request, tolerance: real,
                                       best: nat, level: nat, waste: real, best': nat, level': nat, waste': real)
    requires AllPositive(ms) && n < |ms| && FitState(ms, n, r, tolerance, best, level, waste)
    requires ms[n].flags == r.flags && ms[n].size >= r.size && (UsesHostPtr(r.flags) ==> Matches(ms[n], r))
    requires
      var w, hit := Waste(ms[n], r.size), Matches(ms[n], r);
      var first := (w < waste && hit && level == 2) || (w <= tolerance && hit && level < 2);
      var second := !first && ((w < waste && level == 1) || (w <= tolerance && level < 1));
      if first then best' == n && level' == 2 && waste' == w
      else if second then best' == n && level' == 1 && waste' == w
      else best' == best && level' == level && waste' == waste
    ensures FitState(ms, n + 1, r, tolerance, best', level', waste')
  {
  }

  // ---------- the pool ----------

  /** All buckets with the running totals over them. */
  datatype Pool = Pool(buckets: seq<Bucket>, total: nat, count: nat)

  ghost predicate BucketOk(b: Bucket, k: nat) {
    && b.leftBound == LeftBound(k) && b.rightBound == RightBound(k)
    && b.total == SumSizes(b.objects) && b.count == |b.objects|
    && forall i :: 0 <= i < |b.objects| ==> b.objects[i].size > 0 && b.leftBound <= b.objects[i].size <= b.rightBound
  }

  function SumTotals(bs: seq<Bucket>, n: nat): nat
    requires n <= |bs|
  {
    if n == 0 then 0 else SumTotals(bs, n - 1) + bs[n - 1].total
  }

  function SumCounts(bs: seq<Bucket>, n: nat): nat
    requires n <= |bs|
  {
    if n == 0 then 0 else SumCounts(bs, n - 1) + bs[n - 1].count
  }

  lemma {:induction false} SumsAfterUpdate(bs: seq<Bucket>, k: nat, b: Bucket, n: nat)
    requires k < |bs| && n <= |bs|
    ensures SumTotals(bs[k := b], n) == SumTotals(bs, n) + if k < n then b.total - bs[k].total else 0
    ensures SumCounts(bs[k := b], n) == SumCounts(bs, n) + if k < n then b.count - bs[k].count else 0
    decreases n
  {
    if n > 0 {
      SumsAfterUpdate(bs, k, b, n - 1);
    }
  }

  lemma {:induction false} BucketAtMostSum(bs: seq<Bucket>, k: nat, n: nat)
    requires k < n <= |bs|
    ensures bs[k].total <= SumTotals(bs, n) && bs[k].count <= SumCounts(bs, n)
    decreases n
  {
    if k < n - 1 {
      BucketAtMostSum(bs, k, n - 1);
    }
  }

  /** Every bucket holds what its bounds say, and the totals are the sums, within the budget. */
  ghost predicate PoolOk(p: Pool, budget: nat) {
    && |p.buckets| == BUCKETS
    && (forall k :: 0 <= k < |p.buckets| ==> BucketOk(p.buckets[k], k))
    && p.total == SumTotals(p.buckets, |p.buckets|) && p.count == SumCounts(p.buckets, |p.buckets|)
    && p.total <= budget
  }

  function Added(b: Bucket, m: Mem): Bucket {
    b.(objects := b.objects + [m], total := b.total + m.size, count := b.count + 1)
  }

  /** All buffers stored in the first n buckets. */
  function Stored(bs: seq<Bucket>, n: nat): seq<Mem>
    requires n <= |bs|
  {
    if n == 0 then [] else Stored(bs, n - 1) + bs[n - 1].objects
  }

  lemma {:induction false} SumSizesConcat(p: seq<Mem>, q: seq<Mem>)
    ensures SumSizes(p + q) == SumSizes(p) + SumSizes(q)
    decreases |q|
  {
    if q == [] {
      assert p + q == p;
    } else {
      var n := |q| - 1;
      SumSizesConcat(p, q[..n]);
      SumSizesAppend(p + q[..n], q[n]);
      assert p + q == p + q[..n] + [q[n]];
    }
  }

  /** The running total is the size of everything stored. */
  lemma {:induction false} TotalIsStored(bs: seq<Bucket>, n: nat)
    requires n <= |bs| && forall k :: 0 <= k < n ==> BucketOk(bs[k], k)
    ensures SumTotals(bs, n) == SumSizes(Stored(bs, n))
    decreases n
  {
    if n > 0 {
      TotalIsStored(bs, n - 1);
      SumSizesConcat(Stored(bs, n - 1), bs[n - 1].objects);
      assert BucketOk(bs[n - 1], n - 1);
    }
  }

  /** Some bucket's bounds contain the size. */
  ghost predicate HasBucket(size: nat) { exists k: nat :: k < BUCKETS && InBucket(k, size) }

  lemma {:induction false} BucketsReachTheMaximum(size: nat)
    ensures HasBucket(size) <==> size <= MAX_BUCKET
  {
    if size <= MAX_BUCKET {
      BucketBoundsContainSize(size, BucketIdForSize(size));
      assert InBucket(BucketIdForSize(size), size);
    }
    if HasBucket(size) {
      var k: nat :| k < BUCKETS && InBucket(k, size);
      BoundsLimit(k);
    }
  }

  /** A buffer is taken when nobody but the caller holds it, a bucket is meant for its size, and with it the
      stored buffers stay within the budget. */
  ghost predicate Takes(p: Pool, m: Mem, refs: nat, budget: nat) {
    refs <= 1 && m.size > 0 && HasBucket(m.size) && SumSizes(Stored(p.buckets, |p.buckets|)) + m.size <= budget
  }

  lemma {:induction false} AddingKeepsPoolOk(p: Pool, m: Mem, budget: nat, k: nat, p': Pool)
    requires PoolOk(p, budget) && 0 < m.size <= MAX_BUCKET && p.total + m.size <= budget
    requires k == BucketIdForSize(m.size) < BUCKETS
    requires p' == Pool(p.buckets[k := Added(p.buckets[k], m)], p.total + m.size, p.count + 1)
    ensures PoolOk(p', budget)
  {
    BucketBoundsContainSize(m.size, k);
    var b := p.buckets[k];
    SumSizesAppend(b.objects, m);
    assert BucketOk(b, k);
    assert BucketOk(Added(b, m), k);
    SumsAfterUpdate(p.buckets, k, Added(b, m), BUCKETS);
  }

  /** The bucket without its i-th object. */
  ghost predicate IsRemoval(b: Bucket, i: nat, b': Bucket) {
    && i < |b.objects| && b' == b.(objects := SwapRemoved(b.objects, i), total := b'.total, count := b'.count)
    && b'.total == b.total - b.objects[i].size && b'.count == b.count - 1
  }

  lemma {:induction false} RemovingKeepsPoolOk(p: Pool, budget: nat, k: nat, i: nat, b': Bucket, p': Pool)
    requires PoolOk(p, budget) && k < BUCKETS && IsRemoval(p.buckets[k], i, b')
    requires p' == Pool(p.buckets[k := b'], p'.total, p'.count)
    requires p'.total == p.total - p.buckets[k].objects[i].size && p'.count == p.count - 1
    ensures PoolOk(p', budget)
  {
    var b := p.buckets[k];
    assert BucketOk(b, k);
    SwapRemovalConserves(b.objects, i);
    assert BucketOk(b', k);
    SumsAfterUpdate(p.buckets, k, b', BUCKETS);
  }

  // ---------- the recycler ----------

  /** What a request to recycle or to get a buffer did. */
  datatype Op = Recycle(mem: Mem, refs: nat, ok: bool) | Get(req: Request, got: Option<Mem>)

  /** The bucket a request looks in. */
  function BucketFor(p: Pool, size: nat): seq<Mem> {
    if size <= MAX_BUCKET && BucketIdForSize(size) < |p.buckets| then p.buckets[BucketIdForSize(size)].objects else []
  }

  ghost predicate TakesFrom(p: Pool, k: nat, i: nat, m: Mem, p': Pool) {
    && k < |p.buckets| == |p'.buckets| && p'.buckets == p.buckets[k := p'.buckets[k]]
    && IsRemoval(p.buckets[k], i, p'.buckets[k]) && m == p.buckets[k].objects[i]
    && p'.total == p.total - m.size && p'.count == p.count - 1
  }

  /** The effect an operation has on the pool. */
  ghost predicate Steps(p: Pool, op: Op, p': Pool, budget: nat, tolerance: real) {
    match op
    case Recycle(m, refs, ok) =>
      && (ok <==> Takes(p, m, refs, budget))
      && (!ok ==> p' == p)
      && (ok ==>
            var k := BucketIdForSize(m.size);
            k < |p.buckets| && p' == Pool(p.buckets[k := Added(p.buckets[k], m)], p.total + m.size, p.count + 1))
    case Get(req, got) =>
      var ms := BucketFor(p, req.size);
      && AllPositive(ms)
      && (got.None? ==> p' == p && BestAmong(ms, |ms|, Effective(req), tolerance, None))
      && (got.Some? ==>
            && req.size <= MAX_BUCKET
            && exists i: nat ::
                 TakesFrom(p, BucketIdForSize(req.size), i, got.value, p') &&
                     BestAmong(ms, |ms|, Effective(req), tolerance, Some(i)))
  }

  lemma {:induction false} StepKeepsPoolOk(p: Pool, op: Op, p': Pool, budget: nat, tolerance: real)
    requires PoolOk(p, budget) && Steps(p, op, p', budget, tolerance)
    ensures PoolOk(p', budget)
  {
    match op
    case Recycle(m, refs, ok) =>
      if ok {
        BucketsReachTheMaximum(m.size);
        TotalIsStored(p.buckets, BUCKETS);
        AddingKeepsPoolOk(p, m, budget, BucketIdForSize(m.size), p');
      }
    case Get(req, got) =>
      if got.Some? {
        var k := BucketIdForSize(req.size);
        var i: nat :| TakesFrom(p, k, i, got.value, p');
        RemovingKeepsPoolOk(p, budget, k, i, p'.buckets[k], p');
      }
  }

  /** The budget holds over every run of recycling and getting. */
  lemma {:induction false} RunsStayWithinBudget(run: seq<Pool>, ops: seq<Op>, budget: nat, tolerance: real, k: nat)
    requires |run| == |ops| + 1 && PoolOk(run[0], budget) && k < |run|
    requires forall i, j :: 0 <= i < |ops| && j == i + 1 ==> Steps(run[i], ops[i], run[j], budget, tolerance)
    ensures PoolOk(run[k], budget)
    decreases k
  {
    if k > 0 {
      RunsStayWithinBudget(run, ops, budget, tolerance, k - 1);
      var i := k - 1;
      assert Steps(run[i], ops[i], run[k], budget, tolerance);
      StepKeepsPoolOk(run[i], ops[i], run[k], budget, tolerance);
    }
  }

  // ---------- who holds a pooled buffer ----------

  function CountId(ms: seq<Mem>, id: nat): nat {
    if ms == [] then 0 else CountId(ms[..|ms| - 1], id) + if ms[|ms| - 1].id == id then 1 else 0
  }

  lemma {:induction false} CountIdAppend(ms: seq<Mem>, m: Mem, id: nat)
    ensures CountId(ms + [m], id) == CountId(ms, id) + if m.id == id then 1 else 0
  {
    assert (ms + [m])[..|ms|] == ms;
  }

  lemma {:induction false} CountIdReplace(ms: seq<Mem>, i: nat, m: Mem, id: nat)
    requires i < |ms|
    ensures CountId(ms[i := m], id) + (if ms[i].id == id then 1 else 0) == CountId(ms, id) + if m.id == id then 1 else 0
    decreases |ms|
  {
    var n := |ms| - 1;
    if i == n {
      assert ms[i := m][..n] == ms[..n];
    } else {
      CountIdReplace(ms[..n], i, m, id);
      assert ms[i := m][..n] == ms[..n][i := m];
    }
  }

  lemma {:induction false} CountIdRemoved(ms: seq<Mem>, i: nat, id: nat)
    requires i < |ms|
    ensures CountId(SwapRemoved(ms, i), id) + (if ms[i].id == id then 1 else 0) == CountId(ms, id)
  {
    var n := |ms| - 1;
    var t := ms[i := ms[n]];
    CountIdReplace(ms, i, ms[n], id);
    CountIdAppend(t[..n], ms[n], id);
    assert t == t[..n] + [ms[n]];
  }

  /** How often a buffer is stored, over all buckets. */
  function Pooled(bs: seq<Bucket>, n: nat, id: nat): nat
    requires n <= |bs|
  {
    if n == 0 then 0 else Pooled(bs, n - 1, id) + CountId(bs[n - 1].objects, id)
  }

  lemma {:induction false} PooledAfterUpdate(bs: seq<Bucket>, k: nat, b: Bucket, n: nat, id: nat)
    requires k < |bs| && n <= |bs|
    ensures Pooled(bs[k := b], n, id)
            == Pooled(bs, n, id) + if k < n then CountId(b.objects, id) - CountId(bs[k].objects, id) else 0
    decreases n
  {
    if n > 0 {
      PooledAfterUpdate(bs, k, b, n - 1, id);
    }
  }

  /** The pool, and how many references the application holds to each buffer it ever created. */
  datatype World = World(pool: Pool, holders: map<nat, nat>)

  /** What the application does: create a buffer, retain it, release a reference to it, which the recycler may
      take over when it is the last one, and ask for a recycled buffer, which passes a reference back. */
  datatype Act = Create(id: nat) | Retain(id: nat) | Release(mem: Mem, ok: bool) | Ask(req: Request, got: Option<Mem>)

  ghost predicate Acts(w: World, a: Act, w': World, budget: nat, tolerance: real) {
    match a
    case Create(id) => id !in w.holders && w' == World(w.pool, w.holders[id := 1])
    case Retain(id) => id in w.holders && w.holders[id] > 0 && w' == World(w.pool, w.holders[id := w.holders[id] + 1])
    case Release(m, ok) =>
      && m.id in w.holders && w.holders[m.id] > 0
      && Steps(w.pool, Recycle(m, w.holders[m.id], ok), w'.pool, budget, tolerance)
      && w'.holders == w.holders[m.id := w.holders[m.id] - 1]
    case Ask(req, got) =>
      && Steps(w.pool, Get(req, got), w'.pool, budget, tolerance)
      && w'.holders == match got case None => w.holders case Some(m) => w.holders[m.id := 1]
  }

  /** A buffer is stored at most once, and then nobody else holds it. */
  ghost predicate NotShared(w: World, id: nat) {
    && Pooled(w.pool.buckets, |w.pool.buckets|, id) + (if id in w.holders && w.holders[id] > 0 then 1 else 0) <= 1
    && (Pooled(w.pool.buckets, |w.pool.buckets|, id) > 0 ==> id in w.holders)
  }

  lemma {:induction false} ReleaseKeepsNotShared(
    w: World, m: Mem, ok: bool, w': World, budget: nat, tolerance: real, id: nat)
    requires Acts(w, Release(m, ok), w', budget, tolerance) && NotShared(w, id)
    ensures NotShared(w', id)
  {
    if ok {
      var k, bs := BucketIdForSize(m.size), w.pool.buckets;
      PooledAfterUpdate(bs, k, Added(bs[k], m), |bs|, id);
      CountIdAppend(bs[k].objects, m, id);
    }
  }

  lemma {:induction false} AskKeepsNotShared(
    w: World, req: Request, got: Option<Mem>, w': World, budget: nat, tolerance: real, id: nat)
    requires Acts(w, Ask(req, got), w', budget, tolerance) && NotShared(w, id)
    ensures NotShared(w', id)
  {
    if got.Some? {
      var k, bs := BucketIdForSize(req.size), w.pool.buckets;
      var i: nat :| TakesFrom(w.pool, k, i, got.value, w'.pool);
      PooledAfterUpdate(bs, k, w'.pool.buckets[k], |bs|, id);
      CountIdRemoved(bs[k].objects, i, id);
    }
  }

  /** Over every run of the application no pooled buffer has another holder, and none is pooled twice. */
  lemma {:induction false} PooledBuffersAreUnheld(
    run: seq<World>, acts: seq<Act>, budget: nat, tolerance: real, k: nat, id: nat)
    requires |run| == |acts| + 1 && k < |run|
    requires run[0].holders == map[] && Pooled(run[0].pool.buckets, |run[0].pool.buckets|, id) == 0
    requires forall i, j :: 0 <= i < |acts| && j == i + 1 ==> Acts(run[i], acts[i], run[j], budget, tolerance)
    ensures NotShared(run[k], id)
    decreases k
  {
    if k > 0 {
      PooledBuffersAreUnheld(run, acts, budget, tolerance, k - 1, id);
      var i := k - 1;
      assert Acts(run[i], acts[i], run[k], budget, tolerance);
      match acts[i]
      case Create(_) =>
      case Retain(_) =>
      case Release(m, ok) => ReleaseKeepsNotShared(run[i], m, ok, run[k], budget, tolerance, id);
      case Ask(req, got) => AskKeepsNotShared(run[i], req, got, run[k], budget, tolerance, id);
    }
  }

  /** The early exit on the total never hides a hit: an eligible buffer is itself part of the total. */
  lemma {:induction false} TooSmallTotalMeansNoHit(b: Bucket, k: nat, r: Request, tolerance: real)
    requires BucketOk(b, k) && b.total < r.size
    ensures AllPositive(b.objects) && BestAmong(b.objects, |b.objects|, r, tolerance, None)
  {
    forall j | 0 <= j < |b.objects| ensures b.objects[j].size > 0 && !Eligible(b.objects[j], r, tolerance) {
      ElementAtMostSum(b.objects, j);
    }
  }

  class Recycler {
    const budget: nat
    const tolerance: real
    var buckets: seq<Bucket>
    var total: nat
    var count: nat

    function Value(): Pool
      reads this
    {
      Pool(buckets, total, count)
    }

    ghost predicate Valid()
      reads this
    {
      PoolOk(Value(), budget) && tolerance >= 0.0
    }

    constructor (budget: nat, tolerance: real)
      requires tolerance >= 0.0
      ensures Valid() && this.budget == budget && this.tolerance == tolerance && total == 0
    {
      this.budget := budget;
      this.tolerance := tolerance;
      total, count := 0, 0;
      var bs := EmptyBuckets();
      NothingInEmptyBuckets(bs, BUCKETS);
      buckets := bs;
    }

    /** `tryRecycleClBuffer`. */
    method TryRecycle(mem: Mem, refCount: nat) returns (ok: bool)
      requires Valid()
      modifies this
      ensures Valid() && Steps(old(Value()), Recycle(mem, refCount, ok), Value(), budget, tolerance)
      ensures ok <==> refCount <= 1 && mem.size > 0 && HasBucket(mem.size)
                      && SumSizes(Stored(old(buckets), |old(buckets)|)) + mem.size <= budget
    {
      BucketsReachTheMaximum(mem.size);
      TotalIsStored(buckets, BUCKETS);
      if refCount > 1 || mem.size == 0 || mem.size > MAX_BUCKET || total + mem.size > budget {
        return false;
      }
      var k := BucketIdForSize(mem.size);
      BucketBoundsContainSize(mem.size, k);
      ghost var p := Value();
      buckets := buckets[k := Added(buckets[k], mem)];
      total, count := total + mem.size, count + 1;
      AddingKeepsPoolOk(p, mem, budget, k, Value());
      return true;
    }

    /** `tryGetRecycledClBuffer`. */
    method TryGet(req: Request) returns (got: Option<Mem>)
      requires Valid()
      modifies this
      ensures Valid() && Steps(old(Value()), Get(req, got), Value(), budget, tolerance)
    {
      if req.size > MAX_BUCKET {
        return None;
      }
      var k := BucketIdForSize(req.size);
      BucketBoundsContainSize(req.size, k);
      BucketAtMostSum(buckets, k, BUCKETS);
      var b := buckets[k];
      assert BucketOk(b, k);
      if total < req.size || b.objects == [] || b.total < req.size {
        if b.total < req.size {
          TooSmallTotalMeansNoHit(b, k, Effective(req), tolerance);
        }
        return None;
      }
      var found := FindBestFit(b.objects, req, tolerance);
      if found.None? {
        return None;
      }
      got := Some(b.objects[found.value]);
      Take(k, found.value);
    }

    /** Takes a buffer out of its bucket. */
    method Take(k: nat, i: nat)
      requires Valid() && k < BUCKETS && i < |buckets[k].objects|
      modifies this
      ensures Valid() && TakesFrom(old(Value()), k, i, old(buckets[k].objects[i]), Value())
    {
      ghost var p := Value();
      var b := buckets[k];
      assert BucketOk(b, k);
      ElementAtMostSum(b.objects, i);
      BucketAtMostSum(buckets, k, BUCKETS);
      var n := |b.objects| - 1;
      var objects := b.objects;
      if i != n {
        objects := objects[i := objects[n]];
      }
      objects := objects[..n];
      assert objects == SwapRemoved(b.objects, i);
      var b' := b.(objects := objects, total := b.total - b.objects[i].size, count := b.count - 1);
      buckets := buckets[k := b'];
      total, count := total - b.objects[i].size, count - 1;
      RemovingKeepsPoolOk(p, budget, k, i, b', Value());
    }
  }

  /** The loop of the constructor: bounds double from the smallest bucket to the largest. */
  method EmptyBuckets() returns (bs: seq<Bucket>)
    ensures |bs| == BUCKETS
    ensures forall k :: 0 <= k < |bs| ==> bs[k] == Bucket(LeftBound(k), RightBound(k), [], 0, 0)
  {
    bs := [];
    var leftBound, rightBound := 0, MIN_BUCKET;
    while rightBound <= MAX_BUCKET
      invariant |bs| <= BUCKETS && leftBound == LeftBound(|bs|) && rightBound == RightBound(|bs|)
      invariant forall k :: 0 <= k < |bs| ==> bs[k] == Bucket(LeftBound(k), RightBound(k), [], 0, 0)
      decreases BUCKETS - |bs|
    {
      BoundsLimit(|bs|);
      bs := bs + [Bucket(leftBound, rightBound, [], 0, 0)];
      leftBound := rightBound + 1;
      rightBound := rightBound * 2;
    }
    BoundsLimit(|bs|);
  }

  lemma {:induction false} NothingInEmptyBuckets(bs: seq<Bucket>, n: nat)
    requires n <= |bs| && forall k :: 0 <= k < |bs| ==> bs[k].total == 0 && bs[k].count == 0
    ensures SumTotals(bs, n) == 0 && SumCounts(bs, n) == 0
    decreases n
  {
    if n > 0 {
      NothingInEmptyBuckets(bs, n - 1);
    }
  }
}
