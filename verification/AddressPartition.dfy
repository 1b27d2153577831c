/** The outermost `PartitionedAddressRange` object (shared/utils.h): searches, set difference and
    merging over its vector, each proved against a specification over plain address sets. */
module AddressPartition {
  import opened Ranges
  import opened PartitionedRange
  import opened RangeDestruction

  // ---------- specification of getSubRangesDiffFrom ----------

  /** The parts of [cur, end) that the vector leaves uncovered, in ascending order. */
  function Gaps(subs: seq<Node>, cur: int, end: int): seq<Range> {
    if subs == [] then (if cur < end then [Range(cur, end)] else [])
    else if subs[0].desc.end <= cur then Gaps(subs[1..], cur, end)
    else if end <= subs[0].desc.start then (if cur < end then [Range(cur, end)] else [])
    else (if cur < subs[0].desc.start then [Range(cur, subs[0].desc.start)] else [])
         + Gaps(subs[1..], subs[0].desc.end, end)
  }

  ghost predicate Ascending(rs: seq<Range>) {
    && (forall i :: 0 <= i < |rs| ==> rs[i].Nonempty())
    && (forall i, j :: 0 <= i < j < |rs| ==> rs[i].end < rs[j].start)
  }

  ghost predicate InSome(rs: seq<Range>, a: int) {
    exists i :: 0 <= i < |rs| && rs[i].Has(a)
  }

  /** The gaps are nonempty, strictly separated and ascending, and their union is exactly the
      requested range minus the coverage. */
  lemma {:induction false} GapsAreTheDifference(subs: seq<Node>, cur: int, end: int)
    requires Ordered(subs)
    ensures Ascending(Gaps(subs, cur, end))
    ensures forall a :: InSome(Gaps(subs, cur, end), a) <==> cur <= a < end && !Covered(subs, a)
  {
    GapsAscend(subs, cur, end);
    forall a ensures InSome(Gaps(subs, cur, end), a) <==> cur <= a < end && !Covered(subs, a) {
      GapsAt(subs, cur, end, a);
    }
  }

  ghost predicate StartFrom(rs: seq<Range>, x: int) { forall i :: 0 <= i < |rs| ==> x <= rs[i].start }

  lemma {:induction false} GapsAscend(subs: seq<Node>, cur: int, end: int)
    requires Ordered(subs)
    ensures Ascending(Gaps(subs, cur, end)) && StartFrom(Gaps(subs, cur, end), cur)
    decreases |subs|
  {
    if subs != [] {
      var s := subs[0];
      GapsAscend(subs[1..], if s.desc.end <= cur then cur else s.desc.end, end);
      if s.desc.end > cur && end > s.desc.start && cur < s.desc.start {
        assert StartFrom(Gaps(subs[1..], s.desc.end, end), s.desc.end);
        PrependGap(Range(cur, s.desc.start), Gaps(subs[1..], s.desc.end, end));
      }
    }
  }

  lemma {:induction false} GapsAt(subs: seq<Node>, cur: int, end: int, a: int)
    requires Ordered(subs)
    ensures InSome(Gaps(subs, cur, end), a) <==> cur <= a < end && !Covered(subs, a)
    decreases |subs|
  {
    if subs == [] {
      GapOfNothing(cur, end, a);
    } else {
      var s, rest := subs[0], subs[1..];
      CoveredHeadOrTail(subs, a);
      if s.desc.end <= cur {
        GapsAt(rest, cur, end, a);
      } else if end <= s.desc.start {
        GapOfNothing(cur, end, a);
        CoverStartsLater(subs, a);
      } else {
        GapsAt(rest, s.desc.end, end, a);
        CoverStartsLater(subs, a);
        InSomeConcat(if cur < s.desc.start then [Range(cur, s.desc.start)] else [], Gaps(rest, s.desc.end, end), a);
        GapOfNothing(cur, s.desc.start, a);
      }
    }
  }

  lemma {:induction false} CoverStartsLater(subs: seq<Node>, a: int)
    requires Ordered(subs) && subs != []
    ensures Covered(subs, a) ==> subs[0].desc.start <= a
    ensures Covered(subs[1..], a) ==> subs[0].desc.end <= a
  {
  }

  lemma {:induction false} InSomeConcat(p: seq<Range>, q: seq<Range>, a: int)
    ensures InSome(p + q, a) <==> InSome(p, a) || InSome(q, a)
  {
    var s := p + q;
    if InSome(p, a) {
      var i :| 0 <= i < |p| && p[i].Has(a);
      assert s[i].Has(a);
    }
    if InSome(q, a) {
      var i :| 0 <= i < |q| && q[i].Has(a);
      assert s[|p| + i].Has(a);
    }
  }

  lemma {:induction false} GapOfNothing(cur: int, end: int, a: int)
    ensures InSome(if cur < end then [Range(cur, end)] else [], a) <==> cur <= a < end
  {
    if cur <= a < end {
      assert [Range(cur, end)][0].Has(a);
    }
  }

  lemma {:induction false} PrependGap(r: Range, rest: seq<Range>)
    requires r.Nonempty() && Ascending(rest) && StartFrom(rest, r.end + 1)
    ensures Ascending([r] + rest) && StartFrom([r] + rest, r.start)
  {
  }

  lemma {:induction false} CoveredHeadOrTail(subs: seq<Node>, a: int)
    requires subs != []
    ensures Covered(subs, a) <==> subs[0].desc.Has(a) || Covered(subs[1..], a)
  {
    if Covered(subs[1..], a) {
      var i :| 0 <= i < |subs[1..]| && subs[1..][i].desc.Has(a);
      assert subs[i + 1].desc.Has(a);
    }
  }

  lemma {:induction false} GapsSkip(l: seq<Node>, m: seq<Node>, cur: int, end: int)
    requires forall i :: 0 <= i < |l| ==> l[i].desc.end <= cur
    ensures Gaps(l + m, cur, end) == Gaps(m, cur, end)
  {
    if l == [] {
      assert l + m == m;
    } else {
      assert (l + m)[0] == l[0] && (l + m)[1..] == l[1..] + m;
      GapsSkip(l[1..], m, cur, end);
    }
  }

  /** Ranges starting at or after the end do not matter. */
  lemma {:induction false} GapsStop(m: seq<Node>, h: seq<Node>, cur: int, end: int)
    requires Ordered(m)
    requires forall i :: 0 <= i < |h| ==> end <= h[i].desc.start && h[i].desc.Nonempty()
    ensures Gaps(m + h, cur, end) == Gaps(m, cur, end)
  {
    if m == [] {
      assert m + h == h;
      GapsAllBeyond(h, cur, end);
    } else {
      assert (m + h)[0] == m[0] && (m + h)[1..] == m[1..] + h;
      GapsStop(m[1..], h, if m[0].desc.end <= cur then cur else m[0].desc.end, end);
    }
  }

  lemma {:induction false} GapsAllBeyond(h: seq<Node>, cur: int, end: int)
    requires forall i :: 0 <= i < |h| ==> end <= h[i].desc.start && h[i].desc.Nonempty()
    ensures Gaps(h, cur, end) == Gaps([], cur, end)
  {
    if h != [] && h[0].desc.end <= cur {
      GapsAllBeyond(h[1..], cur, end);
    }
  }

  // ---------- specification of mergeSubranges ----------

  predicate Touching(a: Node, b: Node) { a.desc.end == b.desc.start }

  /** Start of the last maximal run of touching neighbours. */
  function LastRun(subs: seq<Node>): (k: nat)
    requires subs != []
    ensures k < |subs|
  {
    var n := |subs|;
    if n == 1 || !Touching(subs[n - 2], subs[n - 1]) then n - 1 else LastRun(subs[..n - 1])
  }

  /** The maximal runs of touching neighbours, in order. */
  function Runs(subs: seq<Node>): seq<seq<Node>> {
    if subs == [] then [] else Runs(subs[..LastRun(subs)]) + [subs[LastRun(subs)..]]
  }

  /** A run of one element stays as it is; a longer run becomes one range holding the run. */
  function Collapse(run: seq<Node>): Node
    requires run != []
  {
    if |run| == 1 then run[0] else Node(Range(run[0].desc.start, run[|run| - 1].desc.end), run)
  }

  function Merged(subs: seq<Node>): seq<Node> {
    if subs == [] then [] else Merged(subs[..LastRun(subs)]) + [Collapse(subs[LastRun(subs)..])]
  }

  function Flatten(runs: seq<seq<Node>>): seq<Node> {
    if runs == [] then [] else Flatten(runs[..|runs| - 1]) + runs[|runs| - 1]
  }

  ghost predicate IsRun(run: seq<Node>) {
    run != [] && forall i, j :: 0 <= i < |run| && 0 <= j < |run| && j == i + 1 ==> Touching(run[i], run[j])
  }

  lemma {:induction false} LastRunIsRun(subs: seq<Node>)
    requires subs != []
    ensures IsRun(subs[LastRun(subs)..])
    ensures LastRun(subs) > 0 ==> !Touching(subs[LastRun(subs) - 1], subs[LastRun(subs)])
    decreases |subs|
  {
    var n := |subs|;
    if n > 1 && Touching(subs[n - 2], subs[n - 1]) {
      LastRunIsRun(subs[..n - 1]);
      var k := LastRun(subs);
      var run := subs[k..];
      forall i | 0 <= i < |run| - 1 ensures Touching(run[i], run[i + 1]) {
        if k + i + 1 < n - 1 {
          var shorter := subs[..n - 1][k..];
          assert Touching(shorter[i], shorter[i + 1]);
        }
      }
    }
  }

  /** A run covers one unbroken stretch of addresses. */
  lemma {:induction false} RunCoversStretch(run: seq<Node>, a: int)
    requires Ordered(run) && IsRun(run)
    ensures Covered(run, a) <==> run[0].desc.start <= a < run[|run| - 1].desc.end
    decreases |run|
  {
    var n := |run|;
    if n > 1 {
      var front := run[..n - 1];
      RunCoversStretch(front, a);
      assert run == front + [run[n - 1]];
      CoverOfConcat(front, [run[n - 1]], 0, a);
      CoverOfSingle(run[n - 1], 0, a);
      CoveredIsLevelZero(run, a);
      CoveredIsLevelZero(front, a);
      assert Touching(run[n - 2], run[n - 1]);
    } else {
      assert run[0].desc.Has(a) <==> Covered(run, a);
    }
  }

  /** Each node is one run collapsed. */
  ghost predicate Collapses(runs: seq<seq<Node>>, nodes: seq<Node>) {
    |runs| == |nodes| && forall i :: 0 <= i < |runs| ==> IsRun(runs[i]) && nodes[i] == Collapse(runs[i])
  }

  lemma {:induction false} CollapsesOneMore(runs: seq<seq<Node>>, nodes: seq<Node>, run: seq<Node>)
    requires Collapses(runs, nodes) && IsRun(run)
    ensures Collapses(runs + [run], nodes + [Collapse(run)])
  {
  }

  /** Merging groups the vector into its maximal runs: flattening the groups gives back the original
      ranges in order, each result element is one group collapsed. */
  lemma {:induction false} MergedNestsTheOriginal(subs: seq<Node>)
    ensures Flatten(Runs(subs)) == subs
    ensures Collapses(Runs(subs), Merged(subs))
  {
    RunsFlattened(subs);
    RunsCollapsed(subs);
  }

  lemma {:induction false} FlattenOneMore(runs: seq<seq<Node>>, run: seq<Node>)
    ensures Flatten(runs + [run]) == Flatten(runs) + run
  {
    assert (runs + [run])[..|runs|] == runs;
  }

  lemma {:induction false} RunsFlattened(subs: seq<Node>)
    ensures Flatten(Runs(subs)) == subs
    decreases |subs|
  {
    if subs != [] {
      var k := LastRun(subs);
      var front, run := subs[..k], subs[k..];
      RunsFlattened(front);
      FlattenOneMore(Runs(front), run);
      assert Runs(subs) == Runs(front) + [run];
      assert front + run == subs;
    }
  }

  lemma {:induction false} RunsCollapsed(subs: seq<Node>)
    ensures Collapses(Runs(subs), Merged(subs))
    decreases |subs|
  {
    if subs != [] {
      var k := LastRun(subs);
      LastRunIsRun(subs);
      RunsCollapsed(subs[..k]);
      CollapsesOneMore(Runs(subs[..k]), Merged(subs[..k]), subs[k..]);
    }
  }

  /** The originals behind the merged elements, in order: the children of an element that took several,
      the element itself when it took one. */
  function Originals(nodes: seq<Node>, taken: seq<nat>): seq<Node>
    requires |nodes| == |taken|
  {
    if nodes == [] then []
    else
      var k := |nodes| - 1;
      Originals(nodes[..k], taken[..k]) + if taken[k] == 1 then [nodes[k]] else nodes[k].subs
  }

  /** How many originals each merged element took. */
  function Lengths(runs: seq<seq<Node>>): (r: seq<nat>)
    ensures |r| == |runs|
  {
    if runs == [] then [] else Lengths(runs[..|runs| - 1]) + [|runs[|runs| - 1]|]
  }

  /** Merging loses no element: the merged elements hold the original vector, in order. */
  lemma {:induction false} MergedHoldsTheOriginals(subs: seq<Node>)
    ensures |Merged(subs)| == |Runs(subs)|
    ensures Originals(Merged(subs), Lengths(Runs(subs))) == subs
    decreases |subs|
  {
    if subs != [] {
      var k := LastRun(subs);
      var front, runs, run := Merged(subs[..k]), Runs(subs[..k]), subs[k..];
      MergedHoldsTheOriginals(subs[..k]);
      assert (runs + [run])[..|runs|] == runs;
      assert (front + [Collapse(run)])[..|front|] == front;
      assert (Lengths(runs) + [|run|])[..|runs|] == Lengths(runs);
      assert |run| == 1 ==> [run[0]] == run;
      assert subs[..k] + run == subs;
    }
  }

  ghost predicate Separated(subs: seq<Node>) {
    forall i, j :: 0 <= i < j < |subs| && j == i + 1 ==> !Touching(subs[i], subs[j])
  }

  /** Same first address and same end. */
  ghost predicate SameEnds(p: seq<Node>, q: seq<Node>)
    requires q != []
  {
    p != [] && p[0].desc.start == q[0].desc.start && p[|p| - 1].desc.end == q[|q| - 1].desc.end
  }

  lemma {:induction false} SlicesAreValid(subs: seq<Node>, k: nat)
    requires ValidAll(subs) && k <= |subs|
    ensures ValidAll(subs[..k]) && ValidAll(subs[k..])
  {
  }

  /** Valid, without touching neighbours, and spanning the same stretch. */
  ghost predicate WellMerged(all: seq<Node>, subs: seq<Node>) {
    && ValidAll(all) && Separated(all)
    && if subs == [] then all == [] else SameEnds(all, subs)
  }

  /** Merging keeps the vector sorted and valid and leaves no two neighbours touching. */
  lemma {:induction false} MergedIsSeparated(subs: seq<Node>)
    requires ValidAll(subs)
    ensures WellMerged(Merged(subs), subs)
    decreases |subs|
  {
    if subs != [] {
      var k := LastRun(subs);
      LastRunIsRun(subs);
      SlicesAreValid(subs, k);
      MergedIsSeparated(subs[..k]);
      AppendRun(subs, k, Merged(subs[..k]), subs[k..]);
    }
  }

  /** One more collapsed run, which does not touch what was merged before it. */
  lemma {:induction false} AppendRun(subs: seq<Node>, k: nat, front: seq<Node>, run: seq<Node>)
    requires k < |subs| && Ordered(subs) && (k > 0 ==> !Touching(subs[k - 1], subs[k]))
    requires WellMerged(front, subs[..k]) && run == subs[k..] && IsRun(run) && ValidAll(run)
    ensures WellMerged(front + [Collapse(run)], subs)
  {
    CollapseIsValid(run);
    if k > 0 {
      assert front[|front| - 1].desc.end < Collapse(run).desc.start;
      AppendKeepsOrder(front, Collapse(run));
    }
  }

  lemma {:induction false} AppendKeepsOrder(subs: seq<Node>, n: Node)
    requires ValidAll(subs) && subs != [] && Valid(n) && n.desc.Nonempty()
    requires subs[|subs| - 1].desc.end < n.desc.start && Separated(subs)
    ensures ValidAll(subs + [n]) && Separated(subs + [n])
  {
    assert forall i :: 0 <= i < |subs| ==> subs[i].desc.end <= subs[|subs| - 1].desc.end;
  }

  lemma {:induction false} MergedIsInside(subs: seq<Node>, bound: Range)
    requires ValidAll(subs) && Inside(subs, bound)
    ensures ValidAll(Merged(subs)) && Inside(Merged(subs), bound)
  {
    MergedIsSeparated(subs);
    var m := Merged(subs);
    forall i | 0 <= i < |m| ensures bound.start <= m[i].desc.start && m[i].desc.end <= bound.end {
      assert i > 0 ==> m[0].desc.end <= m[i].desc.start;
      assert i < |m| - 1 ==> m[i].desc.end <= m[|m| - 1].desc.start;
    }
  }

  /** Merging preserves the coverage. */
  lemma {:induction false} MergedPreservesCoverage(subs: seq<Node>, a: int)
    requires ValidAll(subs)
    ensures Covered(Merged(subs), a) <==> Covered(subs, a)
    decreases |subs|
  {
    if subs != [] {
      var k := LastRun(subs);
      var front, run := subs[..k], subs[k..];
      LastRunIsRun(subs);
      SlicesAreValid(subs, k);
      MergedPreservesCoverage(front, a);
      CollapseIsValid(run);
      RunCoversStretch(run, a);
      CoveredAppend(Merged(front), Collapse(run), a);
      CoveredSplit(subs, k, a);
    }
  }

  lemma {:induction false} CoveredAppend(p: seq<Node>, n: Node, a: int)
    ensures Covered(p + [n], a) <==> Covered(p, a) || n.desc.Has(a)
  {
    CoveredConcat(p, [n], a);
    assert [n][0] == n;
  }

  lemma {:induction false} CoveredSplit(subs: seq<Node>, k: nat, a: int)
    requires k <= |subs|
    ensures Covered(subs, a) <==> Covered(subs[..k], a) || Covered(subs[k..], a)
  {
    CoveredConcat(subs[..k], subs[k..], a);
    assert subs == subs[..k] + subs[k..];
  }

  lemma {:induction false} CoveredConcat(p: seq<Node>, q: seq<Node>, a: int)
    ensures Covered(p + q, a) <==> Covered(p, a) || Covered(q, a)
  {
    CoverOfConcat(p, q, 0, a);
    CoveredIsLevelZero(p + q, a);
    CoveredIsLevelZero(p, a);
    CoveredIsLevelZero(q, a);
  }

  lemma {:induction false} CollapseIsValid(run: seq<Node>)
    requires ValidAll(run) && IsRun(run)
    ensures Valid(Collapse(run)) && Collapse(run).desc.Nonempty()
    ensures Collapse(run).desc == Range(run[0].desc.start, run[|run| - 1].desc.end)
  {
  }

  // ---------- the object ----------

  class PartitionedAddressRange {
    var desc: Range
    var subRanges: seq<Node>

    function State(): Node
      reads this
    {
      Node(desc, subRanges)
    }

    ghost predicate Ok()
      reads this
    {
      PartitionedRange.Valid(State())
    }

    constructor (desc: Range)
      ensures State() == Leaf(desc) && Ok()
    {
      this.desc := desc;
      this.subRanges := [];
    }

    method Insert(sub: Node)
      requires Ordered(subRanges)
      modifies this
      ensures State() == Node(Widened(old(desc), sub.desc), Inserted(old(subRanges), sub))
    {
      var n := PartitionedRange.InsertSubRange(Node(desc, subRanges), sub);
      desc, subRanges := n.desc, n.subs;
    }

    /** `findSubRange`: finds the sub-range containing `d` exactly when a linear scan would. */
    method FindSubRange(d: Range) returns (found: Option<nat>)
      requires Ok() && d.Nonempty()
      ensures found.Some? ==> found.value < |subRanges| && subRanges[found.value].desc.Contains(d)
      ensures found.None? <==> forall i :: 0 <= i < |subRanges| ==> !subRanges[i].desc.Contains(d)
    {
      if !desc.Contains(d) {
        return None;
      }
      var pos := LowerBoundByEnd(subRanges, d.start);
      if pos == |subRanges| {
        return None;
      }
      if subRanges[pos].desc.Contains(d) {
        return Some(pos);
      }
      assert forall i :: pos < i < |subRanges| ==> subRanges[pos].desc.end <= subRanges[i].desc.start;
      return None;
    }

    /** `intersectsSubRanges`: agrees with a linear scan. */
    method IntersectsSubRanges(d: Range) returns (b: bool)
      requires Ok() && d.Nonempty()
      ensures b <==> exists i :: 0 <= i < |subRanges| && subRanges[i].desc.Intersects(d)
    {
      var pos := IntersectedPos(State(), d);
      if pos == |subRanges| {
        return false;
      }
      assert forall i :: pos < i < |subRanges| ==> subRanges[pos].desc.end <= subRanges[i].desc.start;
      return subRanges[pos].desc.Intersects(d);
    }

    /** `getIntersectedSubRanges`: the stretch [first, first + |r|) of the vector, holding exactly
        the sub-ranges that meet `d`. */
    method GetIntersectedSubRanges(d: Range) returns (r: seq<Node>, first: nat)
      requires Ok() && d.Nonempty()
      ensures first + |r| <= |subRanges| && r == subRanges[first..first + |r|]
      ensures forall i :: 0 <= i < |subRanges| ==> (subRanges[i].desc.Intersects(d) <==> first <= i < first + |r|)
      ensures |r| > 0 ==> forall i :: 0 <= i < first ==> subRanges[i].desc.end <= d.start
    {
      first := IntersectedPos(State(), d);
      var pos := first;
      r := [];
      while pos < |subRanges| && subRanges[pos].desc.Intersects(d)
        invariant first <= pos <= |subRanges|
        invariant r == subRanges[first..pos]
        invariant forall i :: first <= i < pos ==> subRanges[i].desc.Intersects(d)
      {
        r := r + [subRanges[pos]];
        pos := pos + 1;
      }
      if pos < |subRanges| {
        assert d.end <= subRanges[pos].desc.start;
        assert forall i :: pos < i < |subRanges| ==> subRanges[pos].desc.end <= subRanges[i].desc.start;
      }
    }

    /** `getSubRangesDiffFrom`. */
    method GetSubRangesDiffFrom(lhs: Range) returns (ret: seq<Range>)
      requires Ok() && lhs.Nonempty()
      ensures ret == Gaps(subRanges, lhs.start, lhs.end)
    {
      var inter, first := GetIntersectedSubRanges(lhs);
      if inter == [] {
        NoGapsCut(subRanges, lhs);
        return [lhs];
      }
      GapsOfStretch(subRanges, first, |inter|, lhs);
      ret := GapsAmong(inter, lhs);
    }

    /** `destroySubRange`. */
    method Destroy(r: Range) returns (affected: int)
      requires Ok() && r.Nonempty()
      modifies this
      ensures desc == old(desc) && subRanges == Without(old(subRanges), r)
      ensures affected == CountIntersecting(old(subRanges), r)
      ensures Ok()
    {
      DestructionIsSetDifference(State(), r);
      subRanges, affected := DestroySubRange(State(), r);
    }

    /** `mergeSubranges`. */
    method MergeSubranges()
      requires Ok()
      modifies this
      ensures desc == old(desc) && subRanges == Merged(old(subRanges)) && Ok()
    {
      MergedIsInside(subRanges, desc);
      subRanges := MergeRuns(subRanges);
    }
  }

  /** The loop of `mergeSubranges`: walks the vector from its last element, collapsing each maximal
      run of touching neighbours. */
  method MergeRuns(was: seq<Node>) returns (subs: seq<Node>)
    requires Ordered(was)
    ensures subs == Merged(was)
  {
    subs := was;
    if |subs| < 2 {
      MergedOfShort(was);
      return;
    }
    var r := |subs|;
    ghost var tail: seq<Node> := [];
    ghost var whole := Merged(was);
    assert was[..r] == was;
    while r > 1
      invariant 0 <= r <= |was|
      invariant subs == was[..r] + tail
      invariant whole == Merged(was[..r]) + tail
    {
      var prev := RunStart(was, r);
      MergedUpTo(was, prev, r, tail);
      var merged := CollapseRun(was, prev, r);
      CollapsedTail(was, prev, r, merged, tail);
      if prev < r - 1 {
        subs := subs[..prev] + [merged] + subs[r..];
      }
      tail := [merged] + tail;
      r := prev;
    }
    MergedOfShort(was[..r]);
  }

  /** The backwards scan for the first element of the run that ends just before r. */
  method RunStart(was: seq<Node>, r: nat) returns (prev: nat)
    requires 0 < r <= |was|
    ensures prev < r && prev == LastRun(was[..r])
  {
    prev := r - 1;
    while prev > 0 && Touching(was[prev - 1], was[prev])
      invariant prev < r
      invariant LastRun(was[..r]) == LastRun(was[..prev + 1])
    {
      LastRunStep(was, prev);
      prev := prev - 1;
    }
    LastRunStep(was, prev);
  }

  lemma {:induction false} CollapsedTail<T>(was: seq<T>, prev: nat, r: nat, merged: T, tail: seq<T>)
    requires prev < r <= |was|
    ensures
      var subs := was[..r] + tail;
      && subs[..prev] + [merged] + subs[r..] == was[..prev] + ([merged] + tail)
      && (prev == r - 1 && merged == was[prev] ==> subs == was[..prev] + ([merged] + tail))
  {
  }

  lemma {:induction false} MergedOfShort(subs: seq<Node>)
    requires |subs| < 2
    ensures Merged(subs) == subs
  {
    if |subs| == 1 {
      assert LastRun(subs) == 0 && subs[..0] == [] && subs[0..] == subs;
    }
  }

  lemma {:induction false} MergedUpTo(was: seq<Node>, prev: nat, r: nat, tail: seq<Node>)
    requires prev < r <= |was| && LastRun(was[..r]) == prev
    ensures Merged(was[..r]) + tail == Merged(was[..prev]) + ([Collapse(was[prev..r])] + tail)
  {
    assert was[..r][..prev] == was[..prev] && was[..r][prev..] == was[prev..r];
    ConcatAssoc(Merged(was[..prev]), [Collapse(was[prev..r])], tail);
  }

  method CollapseRun(subs: seq<Node>, from: nat, to: nat) returns (merged: Node)
    requires Ordered(subs) && from < to <= |subs|
    ensures merged == Collapse(subs[from..to])
    ensures from == to - 1 ==> merged == subs[from]
  {
    if from == to - 1 {
      merged := subs[from];
    } else {
      merged := CollapseRange(subs, from, to);
    }
  }

  /** Collects [from, to) of a vector under one new range by repeated `insertSubRange`. */
  method CollapseRange(subs: seq<Node>, from: nat, to: nat) returns (merged: Node)
    requires Ordered(subs) && from < to <= |subs|
    ensures merged == Node(Range(subs[from].desc.start, subs[to - 1].desc.end), subs[from..to])
  {
    merged := Leaf(Range(subs[from].desc.start, subs[to - 1].desc.end));
    for k := from to to
      invariant merged == Node(Range(subs[from].desc.start, subs[to - 1].desc.end), subs[from..k])
    {
      InsertPosIsUnique(merged.subs, subs[k].desc.start, k - from);
      merged := PartitionedRange.InsertSubRange(merged, subs[k]);
    }
  }

  lemma {:induction false} LastRunStep(was: seq<Node>, prev: nat)
    requires prev < |was|
    ensures prev == 0 || !Touching(was[prev - 1], was[prev]) ==> LastRun(was[..prev + 1]) == prev
    ensures prev > 0 && Touching(was[prev - 1], was[prev]) ==> LastRun(was[..prev + 1]) == LastRun(was[..prev])
  {
    if prev > 0 {
      assert was[..prev + 1][..prev] == was[..prev];
    }
  }

  lemma {:induction false} NoGapsCut(subs: seq<Node>, lhs: Range)
    requires Ordered(subs) && lhs.Nonempty()
    requires forall i :: 0 <= i < |subs| ==> !subs[i].desc.Intersects(lhs)
    ensures Gaps(subs, lhs.start, lhs.end) == [lhs]
  {
    var p := InsertPos(subs, lhs.start);
    EarlierEndBefore(subs, lhs, p);
    LaterStartBeyond(subs, lhs, p);
    assert subs[..p] + subs[p..] == subs;
    GapsSkip(subs[..p], subs[p..], lhs.start, lhs.end);
    GapsAllBeyond(subs[p..], lhs.start, lhs.end);
  }

  lemma {:induction false} EarlierEndBefore(subs: seq<Node>, r: Range, p: nat)
    requires Ordered(subs) && r.Nonempty() && p == InsertPos(subs, r.start)
    requires forall i :: 0 <= i < |subs| ==> !subs[i].desc.Intersects(r)
    ensures p <= |subs| && forall i :: 0 <= i < |subs[..p]| ==> subs[..p][i].desc.end <= r.start
  {
  }

  lemma {:induction false} LaterStartBeyond(subs: seq<Node>, r: Range, p: nat)
    requires Ordered(subs) && r.Nonempty() && p == InsertPos(subs, r.start)
    requires forall i :: 0 <= i < |subs| ==> !subs[i].desc.Intersects(r)
    ensures p <= |subs|
    ensures forall i :: 0 <= i < |subs[p..]| ==> r.end <= subs[p..][i].desc.start && subs[p..][i].desc.Nonempty()
  {
    forall i | 0 <= i < |subs[p..]| ensures r.end <= subs[p..][i].desc.start && subs[p..][i].desc.Nonempty() {
      LaterStartsBeyond(subs, r, p, p + i);
    }
  }

  lemma {:induction false} LaterStartsBeyond(subs: seq<Node>, r: Range, p: nat, i: nat)
    requires Ordered(subs) && p <= i < |subs| && r.start < subs[p].desc.start
    requires r.Nonempty() && !subs[i].desc.Intersects(r)
    ensures r.end <= subs[i].desc.start && subs[i].desc.Nonempty()
  {
    assert p < i ==> subs[p].desc.end <= subs[i].desc.start;
  }

  /** The loop of `getSubRangesDiffFrom` over the sub-ranges that meet the argument. */
  method GapsAmong(inter: seq<Node>, lhs: Range) returns (ret: seq<Range>)
    requires Ordered(inter) && inter != [] && lhs.Nonempty()
    requires forall i :: 0 <= i < |inter| ==> inter[i].desc.Intersects(lhs)
    ensures ret == Gaps(inter, lhs.start, lhs.end)
  {
    ghost var all := Gaps(inter, lhs.start, lhs.end);
    ret := [];
    if lhs.start < inter[0].desc.start {
      ret := [Range(lhs.start, inter[0].desc.start)];
    }
    var lastEnd := inter[0].desc.end;
    var k := 1;
    while k < |inter|
      invariant 1 <= k <= |inter|
      invariant lastEnd == inter[k - 1].desc.end
      invariant ret + Gaps(inter[k..], lastEnd, lhs.end) == all
    {
      GapsStep(inter, k, lhs, ret, all);
      var start := inter[k].desc.start;
      if start != lastEnd {
        ret := ret + [Range(lastEnd, start)];
      }
      lastEnd := inter[k].desc.end;
      k := k + 1;
    }
    if lhs.end > lastEnd {
      ret := ret + [Range(lastEnd, lhs.end)];
    }
  }

  lemma {:induction false} GapsStep(inter: seq<Node>, k: nat, lhs: Range, ret: seq<Range>, all: seq<Range>)
    requires Ordered(inter) && 1 <= k < |inter| && inter[k].desc.Intersects(lhs)
    requires ret + Gaps(inter[k..], inter[k - 1].desc.end, lhs.end) == all
    ensures
      var gap := Range(inter[k - 1].desc.end, inter[k].desc.start);
      (if inter[k].desc.start != inter[k - 1].desc.end then ret + [gap] else ret)
      + Gaps(inter[k + 1..], inter[k].desc.end, lhs.end) == all
  {
    assert inter[k..][0] == inter[k] && inter[k..][1..] == inter[k + 1..];
    var gap := Range(inter[k - 1].desc.end, inter[k].desc.start);
    ConcatAssoc(ret, [gap], Gaps(inter[k + 1..], inter[k].desc.end, lhs.end));
  }

  lemma {:induction false} GapsOfStretch(subs: seq<Node>, first: nat, len: nat, lhs: Range)
    requires Ordered(subs) && lhs.Nonempty() && len > 0 && first + len <= |subs|
    requires forall i :: 0 <= i < |subs| ==> (subs[i].desc.Intersects(lhs) <==> first <= i < first + len)
    requires forall i :: 0 <= i < first ==> subs[i].desc.end <= lhs.start
    ensures Gaps(subs, lhs.start, lhs.end) == Gaps(subs[first..first + len], lhs.start, lhs.end)
  {
    var l, m, h := subs[..first], subs[first..first + len], subs[first + len..];
    SplitInThree(subs, first, first + len);
    assert (l + m) + h == l + (m + h);
    forall i | 0 <= i < |h| ensures lhs.end <= h[i].desc.start && h[i].desc.Nonempty() {
      assert subs[first].desc.Intersects(lhs);
      assert subs[first].desc.end <= h[i].desc.start;
    }
    GapsSkip(l, m + h, lhs.start, lhs.end);
    GapsStop(m, h, lhs.start, lhs.end);
  }
}
