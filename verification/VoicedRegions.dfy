/** Voiced regions of a recording: the merge of the detector's raw regions and the share of a line they cover. */
module VoicedRegions {
  import opened Numbers
  import opened StableSort

  const MERGE_GAP: real := 0.5
  const LEAST_SPAN: real := 0.000001

  datatype Region = Region(start: real, end: real)

  predicate Forward(regions: seq<Region>) {
    forall k :: 0 <= k < |regions| ==> regions[k].start <= regions[k].end
  }

  /** Tuple order. */
  predicate NotAfter(x: Region, y: Region) {
    x.start < y.start || (x.start == y.start && x.end <= y.end)
  }

  /** Regions in order with at least half a second between them. */
  predicate Separated(regions: seq<Region>) {
    forall j, k :: 0 <= j < k < |regions| ==> regions[k].start - regions[j].end >= MERGE_GAP
  }

  predicate Within(r: Region, s: Region) {
    s.start <= r.start && r.end <= s.end
  }

  ghost predicate Covers(merged: seq<Region>, r: Region) {
    exists k :: 0 <= k < |merged| && Within(r, merged[k])
  }

  /** From `lo` to `hi` the given regions never leave a pause of half a second. */
  ghost predicate Chained(regions: seq<Region>, lo: real, hi: real) {
    && (exists k :: 0 <= k < |regions| && regions[k].start == lo)
    && (exists k :: 0 <= k < |regions| && regions[k].end == hi)
    && forall t :: lo <= t < hi ==> Voiced(regions, t)
  }

  /** Inside a region, or less than half a second behind one. */
  ghost predicate Voiced(regions: seq<Region>, t: real) {
    exists k :: 0 <= k < |regions| && regions[k].start <= t < regions[k].end + MERGE_GAP
  }

  /** Merging sorted regions keeps every region, bridges only pauses under half a second, and leaves no shorter
      pause. */
  method Merge(regions: seq<Region>) returns (merged: seq<Region>)
    requires Forward(regions)
    ensures Forward(merged) && Separated(merged)
    ensures forall k :: 0 <= k < |regions| ==> Covers(merged, regions[k])
    ensures forall k :: 0 <= k < |merged| ==> Chained(regions, merged[k].start, merged[k].end)
  {
    NotAfterIsTotal();
    SortSorted(regions, NotAfter);
    var sorted := Sort(regions, NotAfter);
    SameMembers(regions, sorted);
    merged := MergeSorted(sorted);
    hide *;
    MergeEnds(regions, sorted, merged);
  }

  method MergeSorted(sorted: seq<Region>) returns (merged: seq<Region>)
    requires Forward(sorted) && Sorted(sorted, NotAfter)
    ensures MergeOk(sorted, merged, |sorted|)
  {
    hide MergeOk, Sorted, Forward;
    merged := [];
    MergeStarts(sorted);
    for k := 0 to |sorted|
      invariant MergeOk(sorted, merged, k)
    {
      MergeStep(sorted, merged, k);
      var r := sorted[k];
      if merged != [] && r.start - merged[|merged| - 1].end < MERGE_GAP {
        var last := merged[|merged| - 1];
        merged := merged[|merged| - 1 := Region(last.start, Most(last.end, r.end))];
      } else {
        merged := merged + [r];
      }
    }
  }

  lemma {:induction false} NotAfterIsTotal()
    ensures TotalPreorder(NotAfter)
  {
  }

  ghost predicate SameRegions(x: seq<Region>, y: seq<Region>) {
    forall r :: r in x <==> r in y
  }

  lemma {:induction false} SameMembers(regions: seq<Region>, sorted: seq<Region>)
    requires multiset(sorted) == multiset(regions) && Forward(regions)
    ensures Forward(sorted)
    ensures SameRegions(regions, sorted)
  {
    forall r ensures r in regions <==> r in sorted {
      assert r in multiset(regions) <==> r in multiset(sorted);
    }
    forall k | 0 <= k < |sorted| ensures sorted[k].start <= sorted[k].end {
      assert sorted[k] in regions;
    }
  }

  ghost predicate MergeOk(sorted: seq<Region>, merged: seq<Region>, n: nat) {
    && n <= |sorted| && Forward(sorted) && Sorted(sorted, NotAfter)
    && Forward(merged) && Separated(merged)
    && (merged == [] <==> n == 0)
    && (n > 0 ==> merged[|merged| - 1].start <= sorted[n - 1].start)
    && (forall k :: 0 <= k < n ==> Covers(merged, sorted[k]))
    && (forall k :: 0 <= k < |merged| ==> Chained(sorted, merged[k].start, merged[k].end))
  }

  function Merged(merged: seq<Region>, r: Region): seq<Region> {
    if merged != [] && r.start - merged[|merged| - 1].end < MERGE_GAP then
      merged[|merged| - 1 := Region(merged[|merged| - 1].start, Most(merged[|merged| - 1].end, r.end))]
    else
      merged + [r]
  }

  lemma {:induction false} MergeStarts(sorted: seq<Region>)
    requires Forward(sorted) && Sorted(sorted, NotAfter)
    ensures MergeOk(sorted, [], 0)
  {
  }

  lemma {:induction false} MergeStep(sorted: seq<Region>, merged: seq<Region>, n: nat)
    requires MergeOk(sorted, merged, n) && n < |sorted|
    ensures MergeOk(sorted, Merged(merged, sorted[n]), n + 1)
  {
    assert n > 0 ==> NotAfter(sorted[n - 1], sorted[n]);
    hide Sorted, Chained, Covers;
    if merged != [] && sorted[n].start - merged[|merged| - 1].end < MERGE_GAP {
      JoinStep(sorted, merged, n);
    } else {
      AppendStep(sorted, merged, n);
    }
  }

  lemma {:induction false} JoinStep(sorted: seq<Region>, merged: seq<Region>, n: nat)
    requires MergeOk(sorted, merged, n) && n < |sorted| && merged != []
    requires sorted[n].start - merged[|merged| - 1].end < MERGE_GAP && merged[|merged| - 1].start <= sorted[n].start
    ensures MergeOk(sorted, Merged(merged, sorted[n]), n + 1)
  {
    hide Sorted, Chained;
    var r, next, last := sorted[n], Merged(merged, sorted[n]), |merged| - 1;
    JoinChained(sorted, merged[last], r);
    assert Within(r, next[last]) && Within(merged[last], next[last]);
    StillCovered(sorted, merged, next, n);
  }

  lemma {:induction false} AppendStep(sorted: seq<Region>, merged: seq<Region>, n: nat)
    requires MergeOk(sorted, merged, n) && n < |sorted|
    requires merged != [] ==> sorted[n].start - merged[|merged| - 1].end >= MERGE_GAP
    ensures MergeOk(sorted, Merged(merged, sorted[n]), n + 1)
  {
    hide Sorted, Chained;
    var r, next, last := sorted[n], Merged(merged, sorted[n]), |merged| - 1;
    assert r.start <= r.end;
    OwnChain(sorted, n);
    assert Within(r, next[|merged|]);
    forall j | 0 <= j < |merged| ensures r.start - merged[j].end >= MERGE_GAP {
      assert j < last ==> merged[last].start - merged[j].end >= MERGE_GAP;
    }
    StillCovered(sorted, merged, next, n);
  }

  lemma {:induction false} StillCovered(sorted: seq<Region>, merged: seq<Region>, next: seq<Region>, n: nat)
    requires n <= |sorted| && forall k :: 0 <= k < n ==> Covers(merged, sorted[k])
    requires |merged| <= |next| && forall j :: 0 <= j < |merged| ==> Within(merged[j], next[j])
    ensures forall k :: 0 <= k < n ==> Covers(next, sorted[k])
  {
    forall k | 0 <= k < n ensures Covers(next, sorted[k]) {
      var j :| 0 <= j < |merged| && Within(sorted[k], merged[j]);
      assert Within(sorted[k], next[j]);
    }
  }

  lemma {:induction false} OwnChain(regions: seq<Region>, n: nat)
    requires n < |regions|
    ensures Chained(regions, regions[n].start, regions[n].end)
  {
    forall t | regions[n].start <= t < regions[n].end ensures Voiced(regions, t) {
    }
  }

  lemma {:induction false} JoinChained(regions: seq<Region>, m: Region, r: Region)
    requires Forward(regions) && Chained(regions, m.start, m.end) && r in regions
    requires m.start <= r.start && r.start - m.end < MERGE_GAP
    ensures Chained(regions, m.start, Most(m.end, r.end))
  {
    var k :| 0 <= k < |regions| && regions[k] == r;
    var e :| 0 <= e < |regions| && regions[e].end == m.end;
    forall t | m.start <= t < Most(m.end, r.end) ensures Voiced(regions, t) {
      if t < m.end {
      } else if r.start <= t {
        assert regions[k].start <= t < regions[k].end + MERGE_GAP;
      } else {
        BehindEnd(regions, m, e, t);
      }
    }
  }

  /** A moment just behind the end of a chain is still close behind the region that ends it. */
  lemma {:induction false} BehindEnd(regions: seq<Region>, m: Region, e: nat, t: real)
    requires e < |regions| && regions[e].end == m.end && m.end <= t < m.end + MERGE_GAP
    requires Forward(regions)
    ensures Voiced(regions, t)
  {
    assert regions[e].start <= t < regions[e].end + MERGE_GAP;
  }

  lemma {:induction false} MergeEnds(regions: seq<Region>, sorted: seq<Region>, merged: seq<Region>)
    requires MergeOk(sorted, merged, |sorted|) && SameRegions(regions, sorted)
    ensures Forward(merged) && Separated(merged)
    ensures forall k :: 0 <= k < |regions| ==> Covers(merged, regions[k])
    ensures forall k :: 0 <= k < |merged| ==> Chained(regions, merged[k].start, merged[k].end)
  {
    hide Chained, Sorted;
    forall k | 0 <= k < |regions| ensures Covers(merged, regions[k]) {
      assert regions[k] in sorted;
      var j :| 0 <= j < |sorted| && sorted[j] == regions[k];
    }
    forall k | 0 <= k < |merged| ensures Chained(regions, merged[k].start, merged[k].end) {
      SameChain(sorted, regions, merged[k].start, merged[k].end);
    }
  }

  lemma {:induction false} SameChain(x: seq<Region>, y: seq<Region>, lo: real, hi: real)
    requires Chained(x, lo, hi) && SameRegions(y, x)
    ensures Chained(y, lo, hi)
  {
    var a :| 0 <= a < |x| && x[a].start == lo;
    var b :| 0 <= b < |x| && x[b].end == hi;
    assert x[a] in y && x[b] in y;
    forall t | lo <= t < hi ensures Voiced(y, t) {
      assert Voiced(x, t);
      var k :| 0 <= k < |x| && x[k].start <= t < x[k].end + MERGE_GAP;
      assert x[k] in y;
    }
  }

  // ---- coverage ----

  function Overlap(start: real, end: real, r: Region): real {
    Most(0.0, Least(end, r.end) - Most(start, r.start))
  }

  function Covered(start: real, end: real, regions: seq<Region>): real {
    if regions == [] then 0.0
    else Covered(start, end, regions[..|regions| - 1]) + Overlap(start, end, regions[|regions| - 1])
  }

  /** Separate regions never count a moment twice, and fill the stretch up to their end only from a single region. */
  lemma {:induction false} CoveredAtMost(start: real, end: real, regions: seq<Region>)
    requires regions != [] && Forward(regions) && Separated(regions)
    ensures var stop := Least(end, regions[|regions| - 1].end);
            var covered := Covered(start, end, regions);
            && 0.0 <= covered <= Most(0.0, stop - start)
            && (covered == stop - start && stop > start
                ==> exists k :: 0 <= k < |regions| && Within(Region(start, stop), regions[k]))
  {
    var n := |regions| - 1;
    var r, before := regions[n], regions[..n];
    if n == 0 {
      assert Covered(start, end, before) == 0.0;
      assert Within(Region(start, Least(end, r.end)), r) <==> r.start <= start;
    } else {
      CoveredAtMost(start, end, before);
      var h := before[n - 1].end;
      assert before[n - 1] == regions[n - 1];
      assert r.start - h >= MERGE_GAP;
      var stop, covered := Least(end, r.end), Covered(start, end, regions);
      if covered == stop - start && stop > start {
        if Overlap(start, end, r) > 0.0 {
          assert r.start <= start;
          assert Within(Region(start, stop), regions[n]);
        } else {
          assert Least(end, h) == stop;
          var k :| 0 <= k < |before| && Within(Region(start, stop), before[k]);
          assert Within(Region(start, stop), regions[k]);
        }
      }
    }
  }

  /** Unmerged regions do not give a share: a line lying in two overlapping regions is covered twice over. */
  lemma {:induction false} OverlappingRegionsCountTwice()
    ensures var regions := [Region(0.0, 1.0), Region(0.0, 1.0)];
            !Separated(regions) && Covered(0.0, 1.0, regions) / Most(1.0 - 0.0, LEAST_SPAN) == 2.0
  {
    var regions := [Region(0.0, 1.0), Region(0.0, 1.0)];
    assert regions[..1] == [Region(0.0, 1.0)] && regions[..1][..0] == [];
    assert Covered(0.0, 1.0, regions[..1]) == 1.0;
    assert regions[1].start - regions[0].end < MERGE_GAP;
  }

  /** The covered share of a line is a true share, and it is whole exactly when one region holds the whole line. */
  method VoicedOverlap(start: real, end: real, regions: seq<Region>) returns (share: real)
    requires Forward(regions) && Separated(regions)
    ensures share == Covered(start, end, regions) / Most(end - start, LEAST_SPAN)
    ensures 0.0 <= share <= 1.0
    ensures end - start >= LEAST_SPAN ==> (share == 1.0 <==> Covers(regions, Region(start, end)))
  {
    var span := Most(end - start, LEAST_SPAN);
    var covered := 0.0;
    for k := 0 to |regions|
      invariant covered == Covered(start, end, regions[..k])
    {
      assert regions[..k + 1][..k] == regions[..k];
      covered := covered + Most(0.0, Least(end, regions[k].end) - Most(start, regions[k].start));
    }
    assert regions[..|regions|] == regions;
    ShareIsWhole(start, end, regions);
    share := covered / span;
    Ratio(covered, span);
  }

  lemma {:induction false} Ratio(covered: real, span: real)
    requires 0.0 <= covered <= span && span > 0.0
    ensures 0.0 <= covered / span <= 1.0 && (covered / span == 1.0 <==> covered == span)
  {
    var q := covered / span;
    assert q * span == covered;
    assert q < 0.0 ==> q * span < 0.0;
    assert q > 1.0 ==> q * span > 1.0 * span;
    assert q < 1.0 ==> q * span < 1.0 * span;
  }

  lemma {:induction false} ShareIsWhole(start: real, end: real, regions: seq<Region>)
    requires Forward(regions) && Separated(regions)
    ensures 0.0 <= Covered(start, end, regions) <= Most(end - start, LEAST_SPAN)
    ensures end - start >= LEAST_SPAN
        ==> (Covered(start, end, regions) == end - start <==> Covers(regions, Region(start, end)))
  {
    if regions != [] {
      CoveredAtMost(start, end, regions);
      if end - start >= LEAST_SPAN && Covers(regions, Region(start, end)) {
        var k :| 0 <= k < |regions| && Within(Region(start, end), regions[k]);
        OneRegion(start, end, regions, k);
      }
    }
  }

  lemma {:induction false} OneRegion(start: real, end: real, regions: seq<Region>, k: nat)
    requires start < end && k < |regions| && Within(Region(start, end), regions[k])
    ensures Covered(start, end, regions) >= end - start
  {
    if k < |regions| - 1 {
      OneRegion(start, end, regions[..|regions| - 1], k);
    } else {
      NeverNegative(start, end, regions[..|regions| - 1]);
    }
  }

  lemma {:induction false} NeverNegative(start: real, end: real, regions: seq<Region>)
    ensures Covered(start, end, regions) >= 0.0
  {
    if regions != [] {
      NeverNegative(start, end, regions[..|regions| - 1]);
    }
  }
}
