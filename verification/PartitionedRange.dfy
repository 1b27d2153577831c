/** `PartitionedAddressRange` (shared/utils.h): a bounding range holding a sorted vector of
    disjoint sub-ranges, each of which may hold sub-ranges of its own.  The vectors own their
    elements, so nested levels are values; the outermost object is a class. */
module PartitionedRange {
  import opened Ranges

  datatype Node = Node(desc: Range, subs: seq<Node>)

  function Leaf(r: Range): Node { Node(r, []) }

  // ---------- well-formedness and coverage ----------

  ghost predicate Ordered(subs: seq<Node>) {
    && (forall i :: 0 <= i < |subs| ==> subs[i].desc.Nonempty())
    && (forall i, j :: 0 <= i < j < |subs| ==> subs[i].desc.end <= subs[j].desc.start)
  }

  ghost predicate Inside(subs: seq<Node>, bound: Range) {
    forall i :: 0 <= i < |subs| ==> bound.start <= subs[i].desc.start && subs[i].desc.end <= bound.end
  }

  /** Sorted, disjoint and inside the parent, at every level. */
  ghost predicate Valid(n: Node) {
    && Ordered(n.subs)
    && Inside(n.subs, n.desc)
    && forall i :: 0 <= i < |n.subs| ==> Valid(n.subs[i])
  }

  ghost predicate ValidAll(subs: seq<Node>) {
    Ordered(subs) && forall i :: 0 <= i < |subs| ==> Valid(subs[i])
  }

  /** Address a is covered by some range `level` levels below the given vector. */
  ghost predicate CoversAt(subs: seq<Node>, level: nat, a: int)
    decreases level
  {
    exists i :: 0 <= i < |subs| && CoversIn(subs[i], level, a)
  }

  ghost predicate CoversIn(n: Node, level: nat, a: int)
    decreases level, 0
  {
    if level == 0 then n.desc.Has(a) else CoversAt(n.subs, level - 1, a)
  }

  ghost predicate Covered(subs: seq<Node>, a: int) {
    exists i :: 0 <= i < |subs| && subs[i].desc.Has(a)
  }

  lemma {:induction false} CoveredIsLevelZero(subs: seq<Node>, a: int)
    ensures Covered(subs, a) <==> CoversAt(subs, 0, a)
  {
    if Covered(subs, a) {
      var i :| 0 <= i < |subs| && subs[i].desc.Has(a);
      assert CoversIn(subs[i], 0, a);
    }
    if CoversAt(subs, 0, a) {
      var i :| 0 <= i < |subs| && CoversIn(subs[i], 0, a);
      assert subs[i].desc.Has(a);
    }
  }

  lemma {:induction false} CoverOfConcat(p: seq<Node>, q: seq<Node>, level: nat, a: int)
    ensures CoversAt(p + q, level, a) <==> CoversAt(p, level, a) || CoversAt(q, level, a)
  {
    var s := p + q;
    if CoversAt(s, level, a) {
      var i :| 0 <= i < |s| && CoversIn(s[i], level, a);
      if i < |p| {
        assert CoversIn(p[i], level, a);
      } else {
        assert CoversIn(q[i - |p|], level, a);
      }
    }
    if CoversAt(p, level, a) {
      var i :| 0 <= i < |p| && CoversIn(p[i], level, a);
      assert CoversIn(s[i], level, a);
    }
    if CoversAt(q, level, a) {
      var i :| 0 <= i < |q| && CoversIn(q[i], level, a);
      assert CoversIn(s[|p| + i], level, a);
    }
  }

  lemma {:induction false} CoverOfSingle(n: Node, level: nat, a: int)
    ensures CoversAt([n], level, a) <==> CoversIn(n, level, a)
  {
    assert [n][0] == n;
  }

  /** Whatever a nested level covers lies inside the node's own range. */
  lemma {:induction false} NestedCoverIsInside(n: Node, level: nat, a: int)
    requires Valid(n)
    requires CoversIn(n, level, a)
    ensures n.desc.Has(a)
    decreases level
  {
    if level > 0 {
      var i :| 0 <= i < |n.subs| && CoversIn(n.subs[i], level - 1, a);
      NestedCoverIsInside(n.subs[i], level - 1, a);
    }
  }

  // ---------- binary searches (std::lower_bound / std::upper_bound) ----------

  /** First sub-range whose end is beyond x. */
  method LowerBoundByEnd(subs: seq<Node>, x: int) returns (pos: nat)
    requires Ordered(subs)
    ensures pos <= |subs|
    ensures forall i :: 0 <= i < pos ==> subs[i].desc.end <= x
    ensures forall i :: pos <= i < |subs| ==> x < subs[i].desc.end
  {
    var lo, hi := 0, |subs|;
    while lo < hi
      invariant 0 <= lo <= hi <= |subs|
      invariant forall i :: 0 <= i < lo ==> subs[i].desc.end <= x
      invariant forall i :: hi <= i < |subs| ==> x < subs[i].desc.end
    {
      var mid := (lo + hi) / 2;
      if subs[mid].desc.end <= x {
        lo := mid + 1;
      } else {
        hi := mid;
      }
    }
    pos := lo;
  }

  /** First sub-range whose start is beyond x. */
  method UpperBoundByStart(subs: seq<Node>, x: int) returns (pos: nat)
    requires Ordered(subs)
    ensures pos <= |subs|
    ensures forall i :: 0 <= i < pos ==> subs[i].desc.start <= x
    ensures forall i :: pos <= i < |subs| ==> x < subs[i].desc.start
  {
    var lo, hi := 0, |subs|;
    while lo < hi
      invariant 0 <= lo <= hi <= |subs|
      invariant forall i :: 0 <= i < lo ==> subs[i].desc.start <= x
      invariant forall i :: hi <= i < |subs| ==> x < subs[i].desc.start
    {
      var mid := (lo + hi) / 2;
      if x < subs[mid].desc.start {
        hi := mid;
      } else {
        lo := mid + 1;
      }
    }
    pos := lo;
  }

  // ---------- insertion ----------

  /** Number of leading sub-ranges that start at or before x. */
  function InsertPos(subs: seq<Node>, x: int): (p: nat)
    ensures p <= |subs|
    ensures forall i :: 0 <= i < p ==> subs[i].desc.start <= x
    ensures p < |subs| ==> x < subs[p].desc.start
  {
    if subs == [] || x < subs[0].desc.start then 0 else 1 + InsertPos(subs[1..], x)
  }

  function Inserted(subs: seq<Node>, n: Node): seq<Node> {
    var p := InsertPos(subs, n.desc.start);
    subs[..p] + [n] + subs[p..]
  }

  function Widened(desc: Range, r: Range): Range {
    if desc.Contains(r) then desc
    else Range(if r.start < desc.start then r.start else desc.start,
               if r.end > desc.end then r.end else desc.end)
  }

  /** `insertSubRange` on a node. */
  method InsertSubRange(n: Node, sub: Node) returns (n': Node)
    requires Ordered(n.subs)
    ensures n' == Node(Widened(n.desc, sub.desc), Inserted(n.subs, sub))
  {
    var desc := n.desc;
    if !desc.Contains(sub.desc) {
      if sub.desc.start < desc.start {
        desc := desc.(start := sub.desc.start);
      }
      if sub.desc.end > desc.end {
        desc := desc.(end := sub.desc.end);
      }
    }
    var pos := UpperBoundByStart(n.subs, sub.desc.start);
    InsertPosIsUnique(n.subs, sub.desc.start, pos);
    n' := Node(desc, n.subs[..pos] + [sub] + n.subs[pos..]);
  }

  lemma {:induction false} InsertPosIsUnique(subs: seq<Node>, x: int, p: nat)
    requires p <= |subs|
    requires forall i :: 0 <= i < p ==> subs[i].desc.start <= x
    requires p < |subs| ==> x < subs[p].desc.start
    ensures p == InsertPos(subs, x)
  {
    var q := InsertPos(subs, x);
    assert q < |subs| ==> x < subs[q].desc.start;
    assert p < |subs| ==> x < subs[p].desc.start;
  }

  lemma {:induction false} InsertedElements(subs: seq<Node>, n: Node)
    ensures
      var p := InsertPos(subs, n.desc.start);
      var r := Inserted(subs, n);
      && |r| == |subs| + 1
      && (forall i :: 0 <= i < p ==> r[i] == subs[i])
      && r[p] == n
      && (forall i :: p < i < |r| ==> r[i] == subs[i - 1])
      && (forall i :: p <= i < |subs| ==> r[i + 1] == subs[i])
  {
  }

  /** A range that meets no element lies after those that start at or before it and before the others. */
  lemma {:induction false} InsertionSides(subs: seq<Node>, n: Node, i: nat)
    requires Ordered(subs) && n.desc.Nonempty() && i < |subs| && !subs[i].desc.Intersects(n.desc)
    ensures i < InsertPos(subs, n.desc.start) ==> subs[i].desc.end <= n.desc.start
    ensures InsertPos(subs, n.desc.start) <= i ==> n.desc.end <= subs[i].desc.start
  {
    var p := InsertPos(subs, n.desc.start);
    assert p < i ==> subs[p].desc.end <= subs[i].desc.start;
  }

  /** Element i of the vector with n inserted at position p. */
  function ElementAt(subs: seq<Node>, n: Node, p: nat, i: nat): Node
    requires p <= |subs| && i <= |subs|
  {
    if i < p then subs[i] else if i == p then n else subs[i - 1]
  }

  lemma {:induction false} ElementsAscend(subs: seq<Node>, n: Node, p: nat, i: nat, j: nat)
    requires Ordered(subs) && p <= |subs| && i < j <= |subs|
    requires forall k :: 0 <= k < p ==> subs[k].desc.end <= n.desc.start
    requires forall k :: p <= k < |subs| ==> n.desc.end <= subs[k].desc.start
    ensures ElementAt(subs, n, p, i).desc.end <= ElementAt(subs, n, p, j).desc.start
  {
  }

  lemma {:induction false} InsertedIsOrdered(subs: seq<Node>, n: Node)
    requires Ordered(subs) && n.desc.Nonempty()
    requires forall i :: 0 <= i < |subs| ==> !subs[i].desc.Intersects(n.desc)
    ensures Ordered(Inserted(subs, n))
  {
    InsertedElements(subs, n);
    var p := InsertPos(subs, n.desc.start);
    var r := Inserted(subs, n);
    forall i | 0 <= i < |subs|
      ensures (i < p ==> subs[i].desc.end <= n.desc.start) && (p <= i ==> n.desc.end <= subs[i].desc.start)
    {
      InsertionSides(subs, n, i);
    }
    forall i, j | 0 <= i < j < |r| ensures r[i].desc.end <= r[j].desc.start {
      ElementsAscend(subs, n, p, i, j);
      assert r[i] == ElementAt(subs, n, p, i) && r[j] == ElementAt(subs, n, p, j);
    }
    forall i | 0 <= i < |r| ensures r[i].desc.Nonempty() {
      assert r[i] == ElementAt(subs, n, p, i);
    }
  }

  lemma {:induction false} InsertedAreValid(subs: seq<Node>, n: Node)
    requires (forall i :: 0 <= i < |subs| ==> Valid(subs[i])) && Valid(n)
    ensures forall i :: 0 <= i < |Inserted(subs, n)| ==> Valid(Inserted(subs, n)[i])
  {
    InsertedElements(subs, n);
    var p, r := InsertPos(subs, n.desc.start), Inserted(subs, n);
    forall i | 0 <= i < |r| ensures Valid(r[i]) {
      assert r[i] == ElementAt(subs, n, p, i);
    }
  }

  lemma {:induction false} InsertedAreInside(subs: seq<Node>, n: Node, bound: Range)
    requires Inside(subs, bound)
    ensures Inside(Inserted(subs, n), Widened(bound, n.desc))
  {
    InsertedElements(subs, n);
    var p, r, w := InsertPos(subs, n.desc.start), Inserted(subs, n), Widened(bound, n.desc);
    forall i | 0 <= i < |r| ensures w.start <= r[i].desc.start && r[i].desc.end <= w.end {
      assert r[i] == ElementAt(subs, n, p, i);
    }
  }

  /** Inserting a range that meets no existing one keeps the vector sorted and disjoint. */
  lemma {:induction false} InsertedKeepsOrder(subs: seq<Node>, n: Node, bound: Range)
    requires ValidAll(subs) && Valid(n) && n.desc.Nonempty()
    requires Inside(subs, bound)
    requires forall i :: 0 <= i < |subs| ==> !subs[i].desc.Intersects(n.desc)
    ensures ValidAll(Inserted(subs, n))
    ensures Inside(Inserted(subs, n), Widened(bound, n.desc))
  {
    InsertedIsOrdered(subs, n);
    InsertedAreValid(subs, n);
    InsertedAreInside(subs, n, bound);
  }

  /** Insertion adds exactly the addresses of the new range. */
  lemma {:induction false} InsertedCovers(subs: seq<Node>, n: Node, a: int)
    ensures Covered(Inserted(subs, n), a) <==> Covered(subs, a) || n.desc.Has(a)
  {
    InsertedElements(subs, n);
    var p := InsertPos(subs, n.desc.start);
    var r := Inserted(subs, n);
    if Covered(subs, a) {
      var i :| 0 <= i < |subs| && subs[i].desc.Has(a);
      assert r[if i < p then i else i + 1].desc.Has(a);
    }
    if n.desc.Has(a) {
      assert r[p].desc.Has(a);
    }
  }
}
