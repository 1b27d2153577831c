/** Half-open address ranges and alignment arithmetic (shared/utils.h). */
module Ranges {

  datatype Option<+T> = None | Some(value: T)

  const PAGE_SIZE := 4096

  predicate PageMultiple(x: int) { x % PAGE_SIZE == 0 }

  /** A sequence is the concatenation of its three consecutive slices. */
  lemma {:induction false} SplitInThree<T>(s: seq<T>, i: nat, j: nat)
    requires i <= j <= |s|
    ensures s[..i] + s[i..j] + s[j..] == s
  {
  }

  lemma {:induction false} ConcatAssoc<T>(a: seq<T>, b: seq<T>, c: seq<T>)
    ensures a + b + c == a + (b + c)
  {
  }

  lemma {:induction false} RemovedElements<T>(s: seq<T>, i: nat)
    requires i < |s|
    ensures
      var t := s[..i] + s[i + 1..];
      && |t| == |s| - 1
      && (forall k :: 0 <= k < i ==> t[k] == s[k])
      && (forall k :: i <= k < |t| ==> t[k] == s[k + 1])
  {
  }

  /** Replacing the stretch [i, j) of a sequence by one element. */
  lemma {:induction false} SpliceElements<T>(s: seq<T>, i: nat, j: nat, x: T)
    requires i <= j <= |s|
    ensures
      var t := s[..i] + [x] + s[j..];
      && |t| == |s| - (j - i) + 1
      && (forall k :: 0 <= k < i ==> t[k] == s[k])
      && t[i] == x
      && (forall k :: i < k < |t| ==> t[k] == s[k - i - 1 + j])
  {
  }

  lemma {:induction false} SplitAround<T>(s: seq<T>, i: nat)
    requires i < |s|
    ensures s[..i] + [s[i]] + s[i + 1..] == s
  {
  }

  lemma {:induction false} ReplaceAt<T>(s: seq<T>, i: nat, x: T)
    requires i < |s|
    ensures s[i := x] == s[..i] + [x] + s[i + 1..]
  {
  }

  /** Replacing the borders of a stretch and erasing its inside. */
  lemma {:induction false} CutOut<T>(s: seq<T>, pos: nat, begin: nat, end: nat, stop: nat, first: T, last: T)
    requires pos <= begin <= pos + 1 && begin <= end <= stop <= end + 1 && stop <= |s| && pos < |s|
    ensures
      var s1 := if stop == end then s else s[end := last];
      var s2 := if begin == pos then s1 else s1[pos := first];
      s2[..begin] + s2[end..]
      == s[..pos] + (if begin == pos then [] else [first]) + ((if stop == end then [] else [last]) + s[stop..])
  {
  }

  /** `AddressRange`: the addresses a with start <= a < end. */
  datatype Range = Range(start: int, end: int) {
    predicate Nonempty() { start < end }

    predicate Has(a: int) { start <= a < end }

    function Size(): int { end - start }

    predicate Contains(el: Range) {
      el.start >= start && el.start < end && el.end <= end
    }

    predicate Intersects(el: Range) {
      !(el.end <= start || end <= el.start || el.start >= end || start >= el.end)
    }

    /** The set of addresses in the range: the plain specification of every range operation. */
    function Addrs(): set<int> { set a | start <= a < end && Has(a) }
  }

  /** The two C++ predicates mean inclusion and overlap of address sets. */
  lemma {:induction false} RangePredicatesMeanSets(r: Range, el: Range)
    requires r.Nonempty() && el.Nonempty()
    ensures r.Contains(el) <==> el.Addrs() <= r.Addrs()
    ensures r.Intersects(el) <==> r.Addrs() * el.Addrs() != {}
  {
    if el.Addrs() <= r.Addrs() {
      assert el.start in el.Addrs() && el.end - 1 in el.Addrs();
    }
    if r.Intersects(el) {
      var a := if r.start < el.start then el.start else r.start;
      assert a in r.Addrs() * el.Addrs();
    }
  }

  /** `alignUp`: the least multiple of the alignment that is not below the value. */
  function AlignUp(v: int, alignment: int): (r: int)
    requires alignment > 0
    ensures v <= r < v + alignment
    ensures r % alignment == 0
  {
    var x := v + alignment - 1;
    RemainderRemoved(x, alignment);
    x - x % alignment
  }

  lemma {:induction false} RemainderRemoved(x: int, m: int)
    requires m > 0
    ensures (x - x % m) % m == 0
  {
    var q := x / m;
    assert x == m * q + x % m;
    assert x - x % m == m * q;
    MultipleIsDivisible(q, m);
  }

  lemma {:induction false} NonzeroMultipleIsFar(m: int, k: int)
    requires m > 0
    ensures k >= 1 ==> m * k >= m
    ensures k <= -1 ==> m * k <= -m
  {
  }

  lemma {:induction false} MultipleIsDivisible(q: int, m: int)
    requires m > 0
    ensures (m * q) % m == 0
  {
    var r := (m * q) % m;
    var p := (m * q) / m;
    assert m * q == m * p + r;
    assert m * (q - p) == r;
    NonzeroMultipleIsFar(m, q - p);
  }

  /** Two multiples of m closer than m are equal. */
  lemma {:induction false} CloseMultiplesAreEqual(x: int, y: int, m: int)
    requires m > 0
    requires x % m == 0 && y % m == 0
    requires x < y + m && y < x + m
    ensures x == y
  {
    var p, q := x / m, y / m;
    assert x == m * p && y == m * q;
    NonzeroMultipleIsFar(m, p - q);
  }

  /** No multiple of the alignment lies strictly between a value and its alignment. */
  lemma {:induction false} AlignUpIsLeast(v: int, alignment: int, m: int)
    requires alignment > 0
    requires m % alignment == 0 && v <= m
    ensures AlignUp(v, alignment) <= m
  {
    var r := AlignUp(v, alignment);
    if m < r {
      CloseMultiplesAreEqual(m, r, alignment);
      assert false;
    }
  }

  /** Aligning up to a known multiple. */
  lemma {:induction false} AlignsTo(v: int, alignment: int, m: int)
    requires alignment > 0 && m % alignment == 0 && v <= m < v + alignment
    ensures AlignUp(v, alignment) == m
  {
    CloseMultiplesAreEqual(AlignUp(v, alignment), m, alignment);
  }

  lemma {:induction false} MultiplesAdd(x: int, y: int, m: int)
    requires m > 0 && x % m == 0 && y % m == 0
    ensures (x + y) % m == 0
  {
    var p, q := x / m, y / m;
    assert x == m * p && y == m * q;
    assert x + y == m * (p + q);
    MultipleIsDivisible(p + q, m);
  }

  lemma {:induction false} NextMultiple(m: int, alignment: int)
    requires alignment > 0 && m % alignment == 0
    ensures (m + alignment) % alignment == 0
  {
    var q := m / alignment;
    assert m == alignment * q;
    assert m + alignment == alignment * (q + 1);
    MultipleIsDivisible(q + 1, alignment);
  }

  /** Two to the power k. */
  function Pow2(k: nat): (p: int)
    ensures p >= 1
  {
    if k == 0 then 1 else 2 * Pow2(k - 1)
  }

  lemma {:induction false} Pow2Monotone(j: nat, k: nat)
    requires j <= k
    ensures Pow2(j) <= Pow2(k)
    ensures j < k ==> 2 * Pow2(j) <= Pow2(k)
    decreases k - j
  {
    if j < k {
      Pow2Monotone(j, k - 1);
    }
  }
}
