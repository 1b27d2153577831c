/** `destroySubRange` (shared/utils.h): removing a range from the vector at every nesting level. */
module RangeDestruction {
  import opened Ranges
  import opened PartitionedRange

  // ---------- deletion: specification ----------

  /** The part of a vector below x, cut at every nesting level. */
  function Below(subs: seq<Node>, x: int): seq<Node>
    decreases subs, 1
  {
    if subs == [] then [] else BelowOne(subs[0], x) + Below(subs[1..], x)
  }

  function BelowOne(n: Node, x: int): seq<Node>
    decreases n, 0
  {
    if n.desc.end <= x then [n]
    else if n.desc.start < x then [Node(Range(n.desc.start, x), Below(n.subs, x))]
    else []
  }

  /** The part of a vector at or above x, cut at every nesting level. */
  function Above(subs: seq<Node>, x: int): seq<Node>
    decreases subs, 1
  {
    if subs == [] then [] else AboveOne(subs[0], x) + Above(subs[1..], x)
  }

  function AboveOne(n: Node, x: int): seq<Node>
    decreases n, 0
  {
    if x <= n.desc.start then [n]
    else if x < n.desc.end then [Node(Range(x, n.desc.end), Above(n.subs, x))]
    else []
  }

  /** What is left of a vector once a range has been destroyed. */
  function Without(subs: seq<Node>, r: Range): seq<Node> {
    Below(subs, r.start) + Above(subs, r.end)
  }

  lemma {:induction false} BelowConcat(p: seq<Node>, q: seq<Node>, x: int)
    ensures Below(p + q, x) == Below(p, x) + Below(q, x)
  {
    if p == [] {
      assert p + q == q;
    } else {
      assert (p + q)[0] == p[0] && (p + q)[1..] == p[1..] + q;
      BelowConcat(p[1..], q, x);
    }
  }

  lemma {:induction false} AboveConcat(p: seq<Node>, q: seq<Node>, x: int)
    ensures Above(p + q, x) == Above(p, x) + Above(q, x)
  {
    if p == [] {
      assert p + q == q;
    } else {
      assert (p + q)[0] == p[0] && (p + q)[1..] == p[1..] + q;
      AboveConcat(p[1..], q, x);
    }
  }

  /** A vector entirely on one side of x is kept whole or dropped whole. */
  lemma {:induction false} LeftOf(subs: seq<Node>, x: int)
    requires forall i :: 0 <= i < |subs| ==> subs[i].desc.Nonempty() && subs[i].desc.end <= x
    ensures Below(subs, x) == subs && Above(subs, x) == []
  {
    if subs != [] {
      LeftOf(subs[1..], x);
    }
  }

  lemma {:induction false} RightOf(subs: seq<Node>, x: int)
    requires forall i :: 0 <= i < |subs| ==> subs[i].desc.Nonempty() && x <= subs[i].desc.start
    ensures Below(subs, x) == [] && Above(subs, x) == subs
  {
    if subs != [] {
      RightOf(subs[1..], x);
    }
  }

  lemma {:induction false} BelowCovers(subs: seq<Node>, x: int, level: nat, a: int)
    requires ValidAll(subs)
    ensures CoversAt(Below(subs, x), level, a) <==> CoversAt(subs, level, a) && a < x
    decreases subs, 1
  {
    if subs != [] {
      BelowOneCovers(subs[0], x, level, a);
      BelowCovers(subs[1..], x, level, a);
      CoverOfConcat(BelowOne(subs[0], x), Below(subs[1..], x), level, a);
      CoverOfConcat([subs[0]], subs[1..], level, a);
      CoverOfSingle(subs[0], level, a);
      assert subs == [subs[0]] + subs[1..];
    }
  }

  lemma {:induction false} BelowOneCovers(n: Node, x: int, level: nat, a: int)
    requires Valid(n) && n.desc.Nonempty()
    ensures CoversAt(BelowOne(n, x), level, a) <==> CoversIn(n, level, a) && a < x
    decreases n, 0
  {
    if CoversIn(n, level, a) {
      NestedCoverIsInside(n, level, a);
    }
    if n.desc.end <= x {
      CoverOfSingle(n, level, a);
    } else if n.desc.start < x {
      CoverOfSingle(BelowOne(n, x)[0], level, a);
      if level > 0 {
        BelowCovers(n.subs, x, level - 1, a);
      }
    }
  }

  lemma {:induction false} AboveCovers(subs: seq<Node>, x: int, level: nat, a: int)
    requires ValidAll(subs)
    ensures CoversAt(Above(subs, x), level, a) <==> CoversAt(subs, level, a) && x <= a
    decreases subs, 1
  {
    if subs != [] {
      AboveOneCovers(subs[0], x, level, a);
      AboveCovers(subs[1..], x, level, a);
      CoverOfConcat(AboveOne(subs[0], x), Above(subs[1..], x), level, a);
      CoverOfConcat([subs[0]], subs[1..], level, a);
      CoverOfSingle(subs[0], level, a);
      assert subs == [subs[0]] + subs[1..];
    }
  }

  lemma {:induction false} AboveOneCovers(n: Node, x: int, level: nat, a: int)
    requires Valid(n) && n.desc.Nonempty()
    ensures CoversAt(AboveOne(n, x), level, a) <==> CoversIn(n, level, a) && x <= a
    decreases n, 0
  {
    if CoversIn(n, level, a) {
      NestedCoverIsInside(n, level, a);
    }
    if x <= n.desc.start {
      CoverOfSingle(n, level, a);
    } else if x < n.desc.end {
      CoverOfSingle(AboveOne(n, x)[0], level, a);
      if level > 0 {
        AboveCovers(n.subs, x, level - 1, a);
      }
    }
  }

  /** Two valid vectors, one after the other. */
  lemma {:induction false} JoinIsValid(h: seq<Node>, rest: seq<Node>, x: int, m: int, y: int)
    requires ValidAll(h) && ValidAll(rest) && Inside(h, Range(x, m)) && Inside(rest, Range(m, y))
    ensures ValidAll(h + rest)
  {
    var s := h + rest;
    forall i, j | 0 <= i < j < |s| ensures s[i].desc.end <= s[j].desc.start {
      assert s[i] == if i < |h| then h[i] else rest[i - |h|];
      assert s[j] == if j < |h| then h[j] else rest[j - |h|];
    }
  }

  lemma {:induction false} InsideJoin(h: seq<Node>, rest: seq<Node>, bound: Range)
    requires Inside(h, bound) && Inside(rest, bound)
    ensures Inside(h + rest, bound)
  {
  }

  lemma {:induction false} InsideWider(subs: seq<Node>, bound: Range, wider: Range)
    requires Inside(subs, bound) && wider.start <= bound.start && bound.end <= wider.end
    ensures Inside(subs, wider)
  {
  }

  lemma {:induction false} BelowOneIsValid(n: Node, x: int)
    requires Valid(n) && n.desc.Nonempty()
    requires n.desc.start < x < n.desc.end ==>
        ValidAll(Below(n.subs, x)) && Inside(Below(n.subs, x), Range(n.desc.start, x))
    ensures ValidAll(BelowOne(n, x)) && Inside(BelowOne(n, x), n.desc) && Inside(BelowOne(n, x), Range(n.desc.start, x))
  {
  }

  lemma {:induction false} AboveOneIsValid(n: Node, x: int)
    requires Valid(n) && n.desc.Nonempty()
    requires n.desc.start < x < n.desc.end ==>
        ValidAll(Above(n.subs, x)) && Inside(Above(n.subs, x), Range(x, n.desc.end))
    ensures ValidAll(AboveOne(n, x)) && Inside(AboveOne(n, x), n.desc) && Inside(AboveOne(n, x), Range(x, n.desc.end))
  {
  }

  /** A valid vector splits into its first element and a valid rest beyond it. */
  lemma {:induction false} RestIsBeyond(subs: seq<Node>, bound: Range)
    requires ValidAll(subs) && Inside(subs, bound) && subs != []
    ensures Valid(subs[0]) && subs[0].desc.Nonempty() && ValidAll(subs[1..])
    ensures bound.start <= subs[0].desc.start && subs[0].desc.end <= bound.end
    ensures Inside(subs[1..], Range(subs[0].desc.end, bound.end))
  {
  }

  lemma {:induction false} BelowStaysValid(subs: seq<Node>, x: int, bound: Range)
    requires ValidAll(subs) && Inside(subs, bound)
    ensures ValidAll(Below(subs, x))
    ensures Inside(Below(subs, x), bound)
    ensures Inside(Below(subs, x), Range(bound.start, x))
    decreases subs
  {
    if subs != [] {
      var n, rest := subs[0], subs[1..];
      RestIsBeyond(subs, bound);
      BelowStaysValid(rest, x, Range(n.desc.end, bound.end));
      if n.desc.start < x < n.desc.end {
        BelowStaysValid(n.subs, x, n.desc);
      }
      BelowOneIsValid(n, x);
      var h, t := BelowOne(n, x), Below(rest, x);
      JoinIsValid(h, t, n.desc.start, n.desc.end, bound.end);
      InsideWider(h, n.desc, bound);
      InsideWider(t, Range(n.desc.end, bound.end), bound);
      InsideJoin(h, t, bound);
      InsideWider(h, Range(n.desc.start, x), Range(bound.start, x));
      InsideWider(t, Range(n.desc.end, x), Range(bound.start, x));
      InsideJoin(h, t, Range(bound.start, x));
    }
  }

  lemma {:induction false} AboveStaysValid(subs: seq<Node>, x: int, bound: Range)
    requires ValidAll(subs) && Inside(subs, bound)
    ensures ValidAll(Above(subs, x))
    ensures Inside(Above(subs, x), bound)
    ensures Inside(Above(subs, x), Range(x, bound.end))
    decreases subs
  {
    if subs != [] {
      var n, rest := subs[0], subs[1..];
      RestIsBeyond(subs, bound);
      AboveStaysValid(rest, x, Range(n.desc.end, bound.end));
      if n.desc.start < x < n.desc.end {
        AboveStaysValid(n.subs, x, n.desc);
      }
      AboveOneIsValid(n, x);
      var h, t := AboveOne(n, x), Above(rest, x);
      JoinIsValid(h, t, n.desc.start, n.desc.end, bound.end);
      InsideWider(h, n.desc, bound);
      InsideWider(t, Range(n.desc.end, bound.end), bound);
      InsideJoin(h, t, bound);
      InsideWider(h, Range(x, n.desc.end), Range(x, bound.end));
      InsideWider(t, Range(x, bound.end), Range(x, bound.end));
      InsideJoin(h, t, Range(x, bound.end));
    }
  }

  /** Destroying a nonempty range removes exactly its addresses from the coverage at every nesting
      level, and every level stays sorted, disjoint and inside its parent. */
  lemma {:induction false} DestructionIsSetDifference(n: Node, r: Range)
    requires Valid(n) && r.Nonempty()
    ensures Valid(Node(n.desc, Without(n.subs, r)))
    ensures forall level: nat, a ::
              CoversAt(Without(n.subs, r), level, a) <==> CoversAt(n.subs, level, a) && !r.Has(a)
  {
    BelowStaysValid(n.subs, r.start, n.desc);
    AboveStaysValid(n.subs, r.end, n.desc);
    forall level: nat, a
      ensures CoversAt(Without(n.subs, r), level, a) <==> CoversAt(n.subs, level, a) && !r.Has(a)
    {
      BelowCovers(n.subs, r.start, level, a);
      AboveCovers(n.subs, r.end, level, a);
      CoverOfConcat(Below(n.subs, r.start), Above(n.subs, r.end), level, a);
    }
  }

  /** Number of sub-ranges that meet r. */
  function CountIntersecting(subs: seq<Node>, r: Range): (c: nat) {
    if subs == [] then 0
    else (if subs[0].desc.Intersects(r) then 1 else 0) + CountIntersecting(subs[1..], r)
  }

  lemma {:induction false} CountConcat(p: seq<Node>, q: seq<Node>, r: Range)
    ensures CountIntersecting(p + q, r) == CountIntersecting(p, r) + CountIntersecting(q, r)
  {
    if p == [] {
      assert p + q == q;
    } else {
      assert (p + q)[0] == p[0] && (p + q)[1..] == p[1..] + q;
      CountConcat(p[1..], q, r);
    }
  }

  lemma {:induction false} CountExtremes(subs: seq<Node>, r: Range)
    ensures (forall i :: 0 <= i < |subs| ==> !subs[i].desc.Intersects(r)) ==> CountIntersecting(subs, r) == 0
    ensures (forall i :: 0 <= i < |subs| ==> subs[i].desc.Intersects(r)) ==> CountIntersecting(subs, r) == |subs|
  {
    if subs != [] {
      CountExtremes(subs[1..], r);
    }
  }

  lemma {:induction false} BelowMiddle(l: seq<Node>, m: seq<Node>, h: seq<Node>, x: int)
    requires forall i :: 0 <= i < |l| ==> l[i].desc.Nonempty() && l[i].desc.end <= x
    requires forall i :: 0 <= i < |h| ==> h[i].desc.Nonempty() && x <= h[i].desc.start
    ensures Below(l + m + h, x) == l + Below(m, x)
  {
    BelowConcat(l + m, h, x);
    BelowConcat(l, m, x);
    LeftOf(l, x);
    RightOf(h, x);
  }

  lemma {:induction false} AboveMiddle(l: seq<Node>, m: seq<Node>, h: seq<Node>, x: int)
    requires forall i :: 0 <= i < |l| ==> l[i].desc.Nonempty() && l[i].desc.end <= x
    requires forall i :: 0 <= i < |h| ==> h[i].desc.Nonempty() && x <= h[i].desc.start
    ensures Above(l + m + h, x) == Above(m, x) + h
  {
    AboveConcat(l + m, h, x);
    AboveConcat(l, m, x);
    LeftOf(l, x);
    RightOf(h, x);
    assert [] + Above(m, x) == Above(m, x);
  }

  lemma {:induction false} CountMiddle(l: seq<Node>, m: seq<Node>, h: seq<Node>, r: Range)
    requires forall i :: 0 <= i < |l| ==> !l[i].desc.Intersects(r)
    requires forall i :: 0 <= i < |h| ==> !h[i].desc.Intersects(r)
    ensures CountIntersecting(l + m + h, r) == CountIntersecting(m, r)
  {
    CountConcat(l + m, h, r);
    CountConcat(l, m, r);
    CountExtremes(l, r);
    CountExtremes(h, r);
  }

  /** Only the middle of a vector that reaches into r matters. */
  lemma {:induction false} WithoutMiddle(l: seq<Node>, m: seq<Node>, h: seq<Node>, r: Range)
    requires r.Nonempty()
    requires forall i :: 0 <= i < |l| ==> l[i].desc.Nonempty() && l[i].desc.end <= r.start
    requires forall i :: 0 <= i < |h| ==> h[i].desc.Nonempty() && r.end <= h[i].desc.start
    ensures Without(l + m + h, r) == l + Without(m, r) + h
    ensures CountIntersecting(l + m + h, r) == CountIntersecting(m, r)
  {
    BelowMiddle(l, m, h, r.start);
    AboveMiddle(l, m, h, r.end);
    CountMiddle(l, m, h, r);
    var b, a := Below(m, r.start), Above(m, r.end);
    assert (l + b) + (a + h) == l + (b + a) + h;
  }

  // ---------- deletion: the algorithm ----------

  /** `getIntersectedSubRangesPos`: the first sub-range ending after r.start, or the vector's end
      when the bounding range does not meet r at all. */
  method IntersectedPos(n: Node, r: Range) returns (pos: nat)
    requires Ordered(n.subs) && Inside(n.subs, n.desc) && r.Nonempty()
    ensures pos <= |n.subs|
    ensures forall i :: 0 <= i < pos ==> !n.subs[i].desc.Intersects(r)
    ensures pos < |n.subs| ==> r.start < n.subs[pos].desc.end
    ensures pos < |n.subs| ==> forall i :: 0 <= i < pos ==> n.subs[i].desc.end <= r.start
  {
    if !n.desc.Intersects(r) {
      return |n.subs|;
    }
    pos := LowerBoundByEnd(n.subs, r.start);
  }

  lemma {:induction false} NothingToDestroy(subs: seq<Node>, r: Range)
    requires Ordered(subs) && r.Nonempty()
    requires forall i :: 0 <= i < |subs| ==> !subs[i].desc.Intersects(r)
    ensures Without(subs, r) == subs
    ensures CountIntersecting(subs, r) == 0
  {
    var p := InsertPos(subs, r.start);
    var l, h := subs[..p], subs[p..];
    forall i | 0 <= i < |l| ensures l[i].desc.Nonempty() && l[i].desc.end <= r.start {
      assert l[i] == subs[i];
    }
    forall i | 0 <= i < |h| ensures h[i].desc.Nonempty() && r.end <= h[i].desc.start {
      assert h[i] == subs[p + i] && h[0] == subs[p];
    }
    assert l + [] + h == subs;
    WithoutMiddle(l, [], h, r);
  }

  /** Sub-ranges of an element that starts inside r keep only what lies above r. */
  lemma {:induction false} NestedAbove(p: Node, r: Range)
    requires Ordered(p.subs) && Inside(p.subs, p.desc)
    requires r.start <= p.desc.start
    ensures Without(p.subs, r) == Above(p.subs, r.end)
  {
    RightOf(p.subs, r.start);
  }

  /** Sub-ranges of an element that ends inside r keep only what lies below r. */
  lemma {:induction false} NestedBelow(p: Node, r: Range)
    requires Ordered(p.subs) && Inside(p.subs, p.desc)
    requires p.desc.end <= r.end
    ensures Without(p.subs, r) == Below(p.subs, r.start)
  {
    LeftOf(p.subs, r.end);
  }

  /** Destroying a range that lies within one element leaves its neighbours alone. */
  lemma {:induction false} DestroyOnePiece(subs: seq<Node>, pos: nat, r: Range)
    requires Ordered(subs) && r.Nonempty() && pos < |subs|
    requires subs[pos].desc.Contains(r)
    ensures Without(subs, r) ==
        subs[..pos] + (BelowOne(subs[pos], r.start) + AboveOne(subs[pos], r.end)) + subs[pos + 1..]
    ensures CountIntersecting(subs, r) == 1
  {
    var l, m, h := subs[..pos], [subs[pos]], subs[pos + 1..];
    SplitInThree(subs, pos, pos + 1);
    assert m == subs[pos..pos + 1];
    WithoutMiddle(l, m, h, r);
    WithoutSingle(subs[pos], r);
  }

  lemma {:induction false} WithoutSingle(n: Node, r: Range)
    ensures Below([n], r.start) == BelowOne(n, r.start)
    ensures Above([n], r.end) == AboveOne(n, r.end)
    ensures Without([n], r) == BelowOne(n, r.start) + AboveOne(n, r.end)
    ensures CountIntersecting([n], r) == if n.desc.Intersects(r) then 1 else 0
  {
    assert [n][1..] == [];
  }

  /** `destroySubRange`, on the node's vector. */
  method DestroySubRange(n: Node, r: Range) returns (subs: seq<Node>, affected: int)
    requires Valid(n) && r.Nonempty()
    ensures subs == Without(n.subs, r)
    ensures affected == CountIntersecting(n.subs, r)
    decreases n, 1
  {
    var pos := IntersectedPos(n, r);
    if pos == |n.subs| {
      NothingToDestroy(n.subs, r);
      return n.subs, 0;
    }
    var p := n.subs[pos];
    if r == p.desc {
      DestroyOnePiece(n.subs, pos, r);
      subs := n.subs[..pos] + n.subs[pos + 1..];
      return subs, 1;
    }
    if p.desc.Contains(r) {
      subs := DestroyWithin(n, pos, r);
      DestroyOnePiece(n.subs, pos, r);
      return subs, 1;
    }
    subs, affected := DestroyAcross(n, pos, r);
  }

  /** The single-element case of `destroySubRange`: trim on the left, on the right, or split. */
  method DestroyWithin(n: Node, pos: nat, r: Range) returns (subs: seq<Node>)
    requires Valid(n) && r.Nonempty() && pos < |n.subs|
    requires n.subs[pos].desc.Contains(r) && n.subs[pos].desc != r
    ensures subs == n.subs[..pos] + (BelowOne(n.subs[pos], r.start) + AboveOne(n.subs[pos], r.end)) + n.subs[pos + 1..]
    decreases n, 1, 0
  {
    subs := n.subs;
    var p := subs[pos];
    if p.desc.start == r.start {
      var cut := CutFront(n, pos, r);
      subs := subs[pos := cut];
      ReplaceAt(n.subs, pos, cut);
      assert BelowOne(p, r.start) + AboveOne(p, r.end) == [cut];
    } else if p.desc.end == r.end {
      var cut := CutBack(n, pos, r);
      subs := subs[pos := cut];
      ReplaceAt(n.subs, pos, cut);
      assert BelowOne(p, r.start) + AboveOne(p, r.end) == [cut];
    } else {
      var lhs := CutBack(n, pos, Range(r.start, p.desc.end));
      var rhs := CutFront(n, pos, Range(p.desc.start, r.end));
      assert BelowOne(p, r.start) + AboveOne(p, r.end) == [lhs, rhs];
      subs := subs[pos := lhs];
      SplitIsOrdered(n.subs, pos, lhs, r.end);
      var whole := InsertSubRange(Node(n.desc, subs), rhs);
      subs := whole.subs;
      assert subs == n.subs[..pos] + [lhs, rhs] + n.subs[pos + 1..];
    }
  }

  /** Shrinking one element keeps the vector sorted, and the cut-off part goes right after it. */
  lemma {:induction false} SplitIsOrdered(subs: seq<Node>, pos: nat, lhs: Node, x: int)
    requires Ordered(subs) && pos < |subs|
    requires lhs.desc.Nonempty() && lhs.desc.start == subs[pos].desc.start && lhs.desc.end < x < subs[pos].desc.end
    ensures Ordered(subs[pos := lhs])
    ensures InsertPos(subs[pos := lhs], x) == pos + 1
  {
    InsertPosIsUnique(subs[pos := lhs], x, pos + 1);
  }

  /** The multi-range case of `destroySubRange`: trim the first and last element met, erase those
      in between. */
  method DestroyAcross(n: Node, pos: nat, r: Range) returns (subs: seq<Node>, affected: int)
    requires Valid(n) && r.Nonempty() && pos < |n.subs|
    requires r.start < n.subs[pos].desc.end
    requires forall i :: 0 <= i < pos ==> n.subs[i].desc.end <= r.start
    requires !n.subs[pos].desc.Contains(r)
    ensures subs == Without(n.subs, r)
    ensures affected == CountIntersecting(n.subs, r)
    decreases n, 1, 0
  {
    subs := n.subs;
    var begin := pos;
    if subs[begin].desc.start < r.start {
      begin := begin + 1;
    }
    var end := begin;
    while end < |subs| && r.Contains(subs[end].desc)
      invariant begin <= end <= |subs|
      invariant forall i :: begin <= i < end ==> r.Contains(subs[i].desc)
    {
      end := end + 1;
    }
    ghost var stop := if end < |subs| && r.Intersects(subs[end].desc) then end + 1 else end;
    AcrossEdges(n.subs, pos, begin, end, stop, r);
    AcrossBelow(n.subs, pos, begin, r);
    AcrossAbove(n.subs, end, stop, r);
    AcrossCount(n.subs, pos, stop, r);
    affected := end - pos;
    var first, last := n.subs[pos], n.subs[pos];
    if end < |subs| && r.Intersects(subs[end].desc) {
      last := CutFront(n, end, r);
      subs := subs[end := last];
      affected := affected + 1;
    }
    if pos != begin {
      first := CutBack(n, pos, r);
      subs := subs[pos := first];
    }
    subs := subs[..begin] + subs[end..];
    CutOut(n.subs, pos, begin, end, stop, first, last);
  }

  /** Trim an element that starts inside r: its own sub-ranges first, then its start. */
  method CutFront(n: Node, k: nat, r: Range) returns (cut: Node)
    requires k < |n.subs| && Valid(n.subs[k]) && r.Nonempty()
    requires r.start <= n.subs[k].desc.start < r.end < n.subs[k].desc.end
    ensures cut == Node(Range(r.end, n.subs[k].desc.end), Above(n.subs[k].subs, r.end))
    decreases n, 0
  {
    var nested, _ := DestroySubRange(n.subs[k], r);
    NestedAbove(n.subs[k], r);
    cut := Node(Range(r.end, n.subs[k].desc.end), nested);
  }

  /** Trim an element that ends inside r: its own sub-ranges first, then its end. */
  method CutBack(n: Node, k: nat, r: Range) returns (cut: Node)
    requires k < |n.subs| && Valid(n.subs[k]) && r.Nonempty()
    requires n.subs[k].desc.start < r.start < n.subs[k].desc.end <= r.end
    ensures cut == Node(Range(n.subs[k].desc.start, r.start), Below(n.subs[k].subs, r.start))
    decreases n, 0
  {
    var nested, _ := DestroySubRange(n.subs[k], r);
    NestedBelow(n.subs[k], r);
    cut := Node(Range(n.subs[k].desc.start, r.start), nested);
  }

  ghost predicate Crossing(subs: seq<Node>, pos: nat, begin: nat, r: Range) {
    && Ordered(subs) && r.Nonempty()
    && pos <= begin <= pos + 1 && pos < |subs|
    && r.start < subs[pos].desc.end
    && (forall i :: 0 <= i < pos ==> subs[i].desc.end <= r.start)
    && !subs[pos].desc.Contains(r)
    && (begin == pos + 1 <==> subs[pos].desc.start < r.start)
  }

  lemma {:induction false} AcrossStart(subs: seq<Node>, pos: nat, begin: nat, k: nat, r: Range)
    requires Crossing(subs, pos, begin, r) && begin <= k < |subs|
    ensures r.start <= subs[k].desc.start
  {
  }

  lemma {:induction false} AcrossBelow(subs: seq<Node>, pos: nat, begin: nat, r: Range)
    requires Crossing(subs, pos, begin, r)
    ensures Below(subs, r.start) == subs[..pos] +
              (if begin == pos then []
               else [Node(Range(subs[pos].desc.start, r.start), Below(subs[pos].subs, r.start))])
  {
    var l, f, h := subs[..pos], subs[pos..begin], subs[begin..];
    SplitInThree(subs, pos, begin);
    forall i | 0 <= i < |h| ensures h[i].desc.Nonempty() && r.start <= h[i].desc.start {
      AcrossStart(subs, pos, begin, begin + i, r);
    }
    BelowMiddle(l, f, h, r.start);
    if begin != pos {
      assert f == [subs[pos]];
      WithoutSingle(subs[pos], r);
    }
  }

  /** Where the erased stretch stops: everything before `end` ends inside r or earlier, everything
      from `stop` on starts after r. */
  lemma {:induction false} AcrossEdges(subs: seq<Node>, pos: nat, begin: nat, end: nat, stop: nat, r: Range)
    requires Crossing(subs, pos, begin, r)
    requires begin <= end <= |subs|
    requires forall i :: begin <= i < end ==> r.Contains(subs[i].desc)
    requires end < |subs| ==> !r.Contains(subs[end].desc)
    requires stop == if end < |subs| && r.Intersects(subs[end].desc) then end + 1 else end
    ensures forall i :: 0 <= i < end ==> subs[i].desc.end <= r.end
    ensures forall i :: stop <= i < |subs| ==> r.end <= subs[i].desc.start
    ensures forall i :: pos <= i < stop ==> subs[i].desc.Intersects(r)
    ensures end < |subs| ==> r.start <= subs[end].desc.start
    ensures stop == end + 1 ==> subs[end].desc.start < r.end < subs[end].desc.end
  {
    if end < |subs| {
      AcrossStart(subs, pos, begin, end, r);
    }
  }

  lemma {:induction false} AboveWhole(subs: seq<Node>, end: nat, x: int)
    requires end <= |subs|
    requires forall i :: 0 <= i < |subs| ==> subs[i].desc.Nonempty()
    requires forall i :: 0 <= i < end ==> subs[i].desc.end <= x
    requires forall i :: end <= i < |subs| ==> x <= subs[i].desc.start
    ensures Above(subs, x) == subs[end..]
  {
    AboveConcat(subs[..end], subs[end..], x);
    assert subs[..end] + subs[end..] == subs;
    LeftOf(subs[..end], x);
    RightOf(subs[end..], x);
  }

  lemma {:induction false} AboveStraddling(subs: seq<Node>, end: nat, x: int)
    requires end < |subs|
    requires forall i :: 0 <= i < |subs| ==> subs[i].desc.Nonempty()
    requires forall i :: 0 <= i < end ==> subs[i].desc.end <= x
    requires forall i :: end < i < |subs| ==> x <= subs[i].desc.start
    requires subs[end].desc.start < x < subs[end].desc.end
    ensures Above(subs, x) == [Node(Range(x, subs[end].desc.end), Above(subs[end].subs, x))] + subs[end + 1..]
  {
    SplitAround(subs, end);
    AboveMiddle(subs[..end], [subs[end]], subs[end + 1..], x);
    WithoutSingle(subs[end], Range(x, x));
  }

  lemma {:induction false} AcrossAbove(subs: seq<Node>, end: nat, stop: nat, r: Range)
    requires end <= stop <= end + 1 && stop <= |subs|
    requires forall i :: 0 <= i < |subs| ==> subs[i].desc.Nonempty()
    requires forall i :: 0 <= i < end ==> subs[i].desc.end <= r.end
    requires forall i :: stop <= i < |subs| ==> r.end <= subs[i].desc.start
    requires stop == end + 1 ==> subs[end].desc.start < r.end < subs[end].desc.end
    ensures Above(subs, r.end) ==
              (if stop == end then [] else [Node(Range(r.end, subs[end].desc.end), Above(subs[end].subs, r.end))])
              + subs[stop..]
  {
    if stop == end {
      AboveWhole(subs, end, r.end);
    } else {
      AboveStraddling(subs, end, r.end);
    }
  }

  lemma {:induction false} AcrossCount(subs: seq<Node>, pos: nat, stop: nat, r: Range)
    requires pos <= stop <= |subs| && r.Nonempty()
    requires forall i :: 0 <= i < pos ==> subs[i].desc.end <= r.start
    requires forall i :: pos <= i < stop ==> subs[i].desc.Intersects(r)
    requires forall i :: stop <= i < |subs| ==> r.end <= subs[i].desc.start
    ensures CountIntersecting(subs, r) == stop - pos
  {
    var l, g, h := subs[..pos], subs[pos..stop], subs[stop..];
    SplitInThree(subs, pos, stop);
    CountMiddle(l, g, h, r);
    CountExtremes(g, r);
  }
}
