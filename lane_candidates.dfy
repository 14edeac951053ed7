// WpfApp1/Script/LaneAnalyzer.cs, candidate lane points: the sample rows
// (BuildSampleYs) and BuildCandidatePolylinesRoi, which finds histogram peaks
// in a band around every sample row and stitches them bottom to top into
// chains of points.

module LaneCandidates {
  import opened Numerics
  import opened Sorting
  import opened Geometry
  import opened LaneScan

  /** The public tuning properties of LaneAnalyzer that the modelled code reads. */
  datatype Tuning = Tuning(
    totalLanes: int,
    egoLane: int,
    roiYStartRatio: real,
    roiXMarginRatio: real,
    sampleBandCount: int,
    sampleYTopRatio: real,
    sampleYBottomRatio: real,
    peakMinGapPx: int,
    expectedWindowPx: int,
    followWindowPx: int,
    useDrivableGate: bool)

  /** The property initialisers. */
  const Defaults := Tuning(5, 3, 0.52, 0.02, 18, 0.30, 0.95, 18, 90, 75, true)

  /** int.MaxValue, the initial best distance of the stitcher. */
  const IntMax := 0x7fff_ffff

  // ----- sample rows -----

  /**
   * The sampled rows' top and bottom: the clamped ratios of the ROI height,
   * cast and clamped into the ROI; an empty or inverted band becomes the
   * whole ROI.
   */
  function SampleBand(roiH: int, tuning: Tuning): (b: (int, int))
    requires roiH >= 1
    ensures 0 <= b.0 <= b.1 <= roiH - 1
    ensures roiH >= 2 ==> b.0 < b.1
  {
    var top := Clamp(TruncToInt(roiH as real * ClampReal(tuning.sampleYTopRatio, 0.05, 0.8)), 0, roiH - 1);
    var bot := Clamp(TruncToInt(roiH as real * ClampReal(tuning.sampleYBottomRatio, 0.6, 0.99)), 0, roiH - 1);
    if bot <= top then (0, roiH - 1) else (top, bot)
  }

  /** The number of sample rows: SampleBandCount clamped into [8, 40]. */
  function SampleCount(tuning: Tuning): int {
    Clamp(tuning.sampleBandCount, 8, 40)
  }

  /** The point i / m of the way from bot to top. */
  function Lerp(bot: int, top: int, i: int, m: int): real
    requires m > 0
  {
    bot as real + (top - bot) as real * (i as real / m as real)
  }

  /** Sample row i of n: a rounded point between the bottom (i = 0) and the top (i = n - 1), clamped into the ROI. */
  function SampleY(i: int, n: int, band: (int, int), roiH: int): (y: int)
    requires roiH >= 1
    ensures 0 <= y <= roiH - 1
  {
    Clamp(RoundHalfEven(Lerp(band.1, band.0, i, Max(1, n - 1))), 0, roiH - 1)
  }

  /** The sample rows: SampleCount rows spread from the band's bottom to its top. */
  function SampleYs(roiH: int, tuning: Tuning): (ys: seq<int>)
    requires roiH >= 1
    ensures |ys| == SampleCount(tuning)
    ensures forall i :: 0 <= i < |ys| ==> 0 <= ys[i] <= roiH - 1
  {
    var n := SampleCount(tuning);
    seq(n, i requires 0 <= i < n => SampleY(i, n, SampleBand(roiH, tuning), roiH))
  }

  /** BuildSampleYs. */
  method BuildSampleYs(roiH: int, tuning: Tuning) returns (ys: seq<int>)
    requires roiH >= 1
    ensures ys == SampleYs(roiH, tuning)
    ensures |ys| == SampleCount(tuning)
    ensures forall i :: 0 <= i < |ys| ==> ys[i] == SampleY(i, |ys|, SampleBand(roiH, tuning), roiH)
  {
    var n := Clamp(tuning.sampleBandCount, 8, 40);
    var band := SampleBand(roiH, tuning);
    var yTop, yBot := band.0, band.1;
    var a := new int[n];
    var i := 0;
    while i < n
      invariant 0 <= i <= n
      invariant forall j :: 0 <= j < i ==> a[j] == SampleY(j, n, band, roiH)
    {
      a[i] := RoundHalfEven(Lerp(yBot, yTop, i, Max(1, n - 1)));
      a[i] := Clamp(a[i], 0, roiH - 1);
      i := i + 1;
    }
    ys := a[..];
    assert forall j :: 0 <= j < n ==> ys[j] == SampleYs(roiH, tuning)[j];
  }

  lemma LerpMonotone(bot: int, top: int, i: int, j: int, m: int)
    requires top <= bot && i <= j && m > 0
    ensures Lerp(bot, top, j, m) <= Lerp(bot, top, i, m)
  {
    var d := (top - bot) as real;
    var t, u := i as real / m as real, j as real / m as real;
    assert u - t == (j - i) as real / m as real;
    assert d * u - d * t == d * (u - t);
  }

  lemma LerpEnds(bot: int, top: int, m: int)
    requires m > 0
    ensures Lerp(bot, top, 0, m) == bot as real && Lerp(bot, top, m, m) == top as real
  {
    assert m as real / m as real == 1.0;
  }

  /**
   * The sample rows run from the bottom of the band to its top without ever
   * going back down: the first is the band's bottom, the last its top.
   */
  lemma SampleYsBottomToTop(roiH: int, tuning: Tuning, i: int, j: int)
    requires roiH >= 1 && 0 <= i <= j < SampleCount(tuning)
    ensures var n, band := SampleCount(tuning), SampleBand(roiH, tuning);
      SampleY(j, n, band, roiH) <= SampleY(i, n, band, roiH) &&
      SampleY(0, n, band, roiH) == band.1 && SampleY(n - 1, n, band, roiH) == band.0
  {
    var n, band := SampleCount(tuning), SampleBand(roiH, tuning);
    var m := Max(1, n - 1);
    LerpMonotone(band.1, band.0, i, j, m);
    RoundMonotone(Lerp(band.1, band.0, j, m), Lerp(band.1, band.0, i, m));
    LerpEnds(band.1, band.0, m);
    RoundOfInt(band.1);
    RoundOfInt(band.0);
  }

  // ----- stitching -----

  /** The sort key of `pts.Sort((a, b) => b.Y.CompareTo(a.Y))`: lowest in the image (largest y) first. */
  function BottomFirst(p: Point): real {
    -(p.y as real)
  }

  /** A stitched chain: non-empty, climbing strictly up the image, each step at most maxStep columns sideways. */
  predicate IsChain(g: seq<Point>, maxStep: int) {
    |g| >= 1 &&
    (forall a, b :: 0 <= a < b < |g| ==> g[b].y < g[a].y) &&
    (forall k :: 0 < k < |g| ==> Abs(g[k].x - g[k - 1].x) <= maxStep)
  }

  /** The points of all groups, group after group. */
  function Flatten(gs: seq<seq<Point>>): seq<Point> {
    if gs == [] then [] else Flatten(gs[..|gs| - 1]) + gs[|gs| - 1]
  }

  lemma FlattenAppend(gs: seq<seq<Point>>, g: seq<Point>)
    ensures Flatten(gs + [g]) == Flatten(gs) + g
  {
    assert (gs + [g])[..|gs|] == gs;
  }

  /** Appending p to group k adds exactly p to the points held. */
  lemma {:induction false} FlattenGrow(gs: seq<seq<Point>>, k: int, p: Point)
    requires 0 <= k < |gs|
    ensures multiset(Flatten(gs[k := gs[k] + [p]])) == multiset(Flatten(gs)) + multiset{p}
  {
    var n := |gs|;
    var gs' := gs[k := gs[k] + [p]];
    if k == n - 1 {
      assert gs'[..n - 1] == gs[..n - 1];
    } else {
      FlattenGrow(gs[..n - 1], k, p);
      assert gs'[..n - 1] == gs[..n - 1][k := gs[k] + [p]];
    }
  }

  /** Every point of a group is among the flattened points. */
  lemma {:induction false} InFlatten(gs: seq<seq<Point>>, k: int, q: Point)
    requires 0 <= k < |gs| && q in gs[k]
    ensures q in Flatten(gs)
  {
    if k < |gs| - 1 {
      InFlatten(gs[..|gs| - 1], k, q);
    }
  }

  /** The last point of a group. */
  function Last(g: seq<Point>): Point
    requires |g| >= 1
  {
    g[|g| - 1]
  }

  /** A group p may extend: its last point is lower in the image and close enough sideways. */
  predicate Eligible(g: seq<Point>, p: Point, maxStep: int) {
    |g| >= 1 && p.y < Last(g).y && Abs(p.x - Last(g).x) <= maxStep && Abs(p.x - Last(g).x) < IntMax
  }

  /**
   * The group p joins among the first k: the eligible one whose last point is
   * nearest sideways, the earliest of equally near ones; -1 when none is
   * eligible.
   */
  function ChooseGroup(gs: seq<seq<Point>>, p: Point, maxStep: int, k: nat): (best: int)
    requires k <= |gs|
    ensures -1 <= best < k
    ensures best >= 0 ==> Eligible(gs[best], p, maxStep)
  {
    if k == 0 then -1
    else
      var b := ChooseGroup(gs, p, maxStep, k - 1);
      if Eligible(gs[k - 1], p, maxStep) && (b < 0 || Abs(p.x - Last(gs[k - 1]).x) < Abs(p.x - Last(gs[b]).x)) then k - 1
      else b
  }

  /**
   * ChooseGroup finds a group exactly when one is eligible, and the one it
   * finds is the nearest, and strictly nearer than every earlier eligible one.
   */
  lemma {:induction false} ChooseGroupNearest(gs: seq<seq<Point>>, p: Point, maxStep: int, k: nat)
    requires k <= |gs|
    ensures var best := ChooseGroup(gs, p, maxStep, k);
      (best < 0 <==> forall j :: 0 <= j < k ==> !Eligible(gs[j], p, maxStep)) &&
      (best >= 0 ==> forall j :: 0 <= j < k && Eligible(gs[j], p, maxStep) ==>
        Abs(p.x - Last(gs[best]).x) <= Abs(p.x - Last(gs[j]).x)) &&
      (best >= 0 ==> forall j :: 0 <= j < best && Eligible(gs[j], p, maxStep) ==>
        Abs(p.x - Last(gs[best]).x) < Abs(p.x - Last(gs[j]).x))
  {
    if k > 0 {
      ChooseGroupNearest(gs, p, maxStep, k - 1);
    }
  }

  /** One round of the stitcher: p extends the group ChooseGroup picks, or starts a group of its own. */
  function AddPoint(gs: seq<seq<Point>>, p: Point, maxStep: int): seq<seq<Point>> {
    var best := ChooseGroup(gs, p, maxStep, |gs|);
    if best < 0 then gs + [[p]] else gs[best := gs[best] + [p]]
  }

  /** The groups the stitcher builds from the first n of pts, taken in order. */
  function StitchAll(pts: seq<Point>, n: nat, maxStep: int): seq<seq<Point>>
    requires n <= |pts|
  {
    if n == 0 then [] else AddPoint(StitchAll(pts, n - 1, maxStep), pts[n - 1], maxStep)
  }

  lemma StitchAllStep(pts: seq<Point>, i: nat, maxStep: int)
    requires i < |pts|
    ensures StitchAll(pts, i + 1, maxStep) == AddPoint(StitchAll(pts, i, maxStep), pts[i], maxStep)
  {
  }

  /**
   * The stitching loop: every point, bottom first, extends the nearest
   * eligible group or starts a new one. Every point ends up in exactly one
   * group, and every group is a chain.
   */
  method Stitch(pts: seq<Point>, maxStep: int) returns (groups: seq<seq<Point>>)
    ensures groups == StitchAll(pts, |pts|, maxStep)
    ensures AllChains(groups, maxStep)
    ensures multiset(Flatten(groups)) == multiset(pts)
  {
    groups := [];
    var i := 0;
    while i < |pts|
      invariant 0 <= i <= |pts|
      invariant groups == StitchAll(pts, i, maxStep)
      invariant AllChains(groups, maxStep)
      invariant multiset(Flatten(groups)) == multiset(pts[..i])
    {
      groups := StitchRound(pts, i, groups, maxStep);
      i := i + 1;
    }
    assert pts[..i] == pts;
  }

  /** Round i of the stitching loop: pts[i] joins the groups built from the points before it. */
  method StitchRound(pts: seq<Point>, i: nat, groups: seq<seq<Point>>, maxStep: int) returns (next: seq<seq<Point>>)
    requires i < |pts|
    requires groups == StitchAll(pts, i, maxStep)
    requires AllChains(groups, maxStep)
    requires multiset(Flatten(groups)) == multiset(pts[..i])
    ensures next == StitchAll(pts, i + 1, maxStep)
    ensures AllChains(next, maxStep)
    ensures multiset(Flatten(next)) == multiset(pts[..i + 1])
  {
    assert pts[..i + 1] == pts[..i] + [pts[i]];
    StitchAllStep(pts, i, maxStep);
    next := StitchPoint(groups, pts[i], maxStep);
  }

  /** The inner scan for p, then a new group or an extended one. */
  method StitchPoint(groups: seq<seq<Point>>, p: Point, maxStep: int) returns (next: seq<seq<Point>>)
    requires AllChains(groups, maxStep)
    ensures next == AddPoint(groups, p, maxStep)
    ensures AllChains(next, maxStep)
    ensures multiset(Flatten(next)) == multiset(Flatten(groups)) + multiset{p}
  {
    var best := NearestGroup(groups, p, maxStep);
    if best < 0 {
      StartGroup(groups, p, maxStep);
      next := groups + [[p]];
    } else {
      JoinGroup(groups, best, p, maxStep);
      next := groups[best := groups[best] + [p]];
    }
  }

  /** Every group is a chain. */
  predicate AllChains(gs: seq<seq<Point>>, maxStep: int) {
    forall k :: 0 <= k < |gs| ==> IsChain(gs[k], maxStep)
  }

  /** A new one-point group keeps every group a chain and adds p to the points held. */
  lemma StartGroup(gs: seq<seq<Point>>, p: Point, maxStep: int)
    requires AllChains(gs, maxStep)
    ensures AllChains(gs + [[p]], maxStep)
    ensures multiset(Flatten(gs + [[p]])) == multiset(Flatten(gs)) + multiset{p}
  {
    FlattenAppend(gs, [p]);
    assert forall k :: 0 <= k < |gs| ==> (gs + [[p]])[k] == gs[k];
  }

  /** Extending an eligible group keeps every group a chain and adds p to the points held. */
  lemma JoinGroup(gs: seq<seq<Point>>, best: int, p: Point, maxStep: int)
    requires AllChains(gs, maxStep) && 0 <= best < |gs| && Eligible(gs[best], p, maxStep)
    ensures AllChains(gs[best := gs[best] + [p]], maxStep)
    ensures multiset(Flatten(gs[best := gs[best] + [p]])) == multiset(Flatten(gs)) + multiset{p}
  {
    FlattenGrow(gs, best, p);
    AppendKeepsChain(gs[best], p, maxStep);
  }

  /** The inner loop of the stitcher: the group ChooseGroup picks for p. */
  method NearestGroup(groups: seq<seq<Point>>, p: Point, maxStep: int) returns (best: int)
    requires forall k :: 0 <= k < |groups| ==> |groups[k]| >= 1
    ensures best == ChooseGroup(groups, p, maxStep, |groups|)
  {
    best := -1;
    var bestDx := IntMax;
    var k := 0;
    while k < |groups|
      invariant 0 <= k <= |groups|
      invariant best == ChooseGroup(groups, p, maxStep, k)
      invariant bestDx == if best < 0 then IntMax else Abs(p.x - Last(groups[best]).x)
    {
      var last := groups[k][|groups[k]| - 1];
      if p.y < last.y {
        var dx := Abs(p.x - last.x);
        if dx < bestDx && dx <= maxStep {
          bestDx := dx;
          best := k;
        }
      }
      k := k + 1;
    }
  }

  lemma AppendKeepsChain(g: seq<Point>, p: Point, maxStep: int)
    requires IsChain(g, maxStep) && Eligible(g, p, maxStep)
    ensures IsChain(g + [p], maxStep)
  {
    var g' := g + [p];
    forall a, b | 0 <= a < b < |g'| ensures g'[b].y < g'[a].y {
      if b == |g| && a < |g| - 1 {
        assert g[|g| - 1].y < g[a].y;
      }
    }
  }

  /** `groups.Where(g => g.Count >= minLen)`: the long enough groups, in order. */
  function KeepLong(gs: seq<seq<Point>>, minLen: int): (r: seq<seq<Point>>)
    ensures forall g :: g in r <==> g in gs && |g| >= minLen
    ensures |r| <= |gs|
  {
    if gs == [] then []
    else KeepLong(gs[..|gs| - 1], minLen) + (if |gs[|gs| - 1]| >= minLen then [gs[|gs| - 1]] else [])
  }

  /** A chain is already in bottom-first order, so the final per-group sort leaves it unchanged. */
  lemma ChainSortedIdentity(g: seq<Point>, maxStep: int)
    requires IsChain(g, maxStep)
    ensures SortBy(g, BottomFirst) == g
  {
    forall a, b | 0 <= a < b < |g| ensures BottomFirst(g[a]) < BottomFirst(g[b]) {
    }
    SortStrictlySortedIsIdentity(g, BottomFirst);
  }

  /** Every point in the flattened groups satisfies what every input point satisfies. */
  predicate PointsIn(pts: seq<Point>, sampleYs: seq<int>, w: int) {
    forall q :: q in pts ==> q.y in sampleYs && 1 <= q.x < w - 2
  }

  /** The rows [y0, y1) of the band around sample row y, in a mask h rows high. */
  function BandRows(h: int, y: int): (r: (int, int))
    requires h >= 1
    ensures 0 <= r.0 <= h - 1 && 0 <= r.1 <= h
  {
    var bandH := Clamp(h / 18, 10, 28);
    var y0 := Clamp(y - bandH / 2, 0, h - 1);
    (y0, Clamp(y0 + bandH, 0, h))
  }

  /** The column counts of a band, as ReduceColumnSumToInt returns them. */
  function ColumnCounts(g: seq<seq<Byte>>, w: nat): (sum: seq<int>)
    requires IsGrid(g, w)
    ensures |sum| == w
  {
    seq(w, x requires 0 <= x < w => ColumnCount(g, w, x, |g|))
  }

  /**
   * The peaks found around sample row y: none when the band is under two
   * rows thick; otherwise FindPeaks on the band's column counts, inside the
   * drivable corridor of the same band when there is a drivable mask.
   */
  function RowPeaks(lane: seq<seq<Byte>>, w: nat, drive: Option<seq<seq<Byte>>>, y: int, tuning: Tuning): seq<int>
    requires IsGrid(lane, w) && |lane| >= 1 && w >= 1
    requires drive.Some? ==> IsGrid(drive.value, w) && |drive.value| == |lane|
  {
    var band := BandRows(|lane|, y);
    if band.1 <= band.0 + 1 then []
    else
      var c := BandCorridor(drive, w, band.0, band.1);
      Peaks(ColumnCounts(lane[band.0..band.1], w), c.0, c.1, 10, Max(10, tuning.peakMinGapPx))
  }

  /** The corridor of rows [y0, y1) of the drivable mask, or the whole width without one. */
  function BandCorridor(drive: Option<seq<seq<Byte>>>, w: nat, y0: int, y1: int): (int, int)
    requires drive.Some? ==> IsGrid(drive.value, w) && 0 <= y0 <= y1 <= |drive.value|
  {
    if drive.Some? && |drive.value| > 0 then HistCorridor(ColumnCounts(drive.value[y0..y1], w), y1 - y0)
    else (0, w - 1)
  }

  /** The columns xs as points on row y. */
  function AtRow(xs: seq<int>, y: int): (ps: seq<Point>)
    ensures |ps| == |xs| && forall j :: 0 <= j < |xs| ==> ps[j] == Point(xs[j], y)
  {
    seq(|xs|, j requires 0 <= j < |xs| => Point(xs[j], y))
  }

  /** rows[i] holds the peaks of sample row ys[i], for each row so far. */
  predicate RowsOf(lane: seq<seq<Byte>>, w: nat, drive: Option<seq<seq<Byte>>>, ys: seq<int>, tuning: Tuning,
                   rows: seq<seq<int>>)
    requires IsGrid(lane, w) && |lane| >= 1 && w >= 1
    requires drive.Some? ==> IsGrid(drive.value, w) && |drive.value| == |lane|
  {
    |rows| <= |ys| &&
    forall i {:trigger RowPeaks(lane, w, drive, ys[i], tuning)} ::
      0 <= i < |rows| ==> rows[i] == RowPeaks(lane, w, drive, ys[i], tuning)
  }

  /** The peaks of every sample row, row by row. */
  function AllRows(lane: seq<seq<Byte>>, w: nat, drive: Option<seq<seq<Byte>>>, ys: seq<int>, tuning: Tuning)
    : (rows: seq<seq<int>>)
    requires IsGrid(lane, w) && |lane| >= 1 && w >= 1
    requires drive.Some? ==> IsGrid(drive.value, w) && |drive.value| == |lane|
    ensures |rows| == |ys|
  {
    seq(|ys|, i requires 0 <= i < |ys| => RowPeaks(lane, w, drive, ys[i], tuning))
  }

  /** The peaks of each row as points on its sample row, row after row. */
  function PointsOfRows(rows: seq<seq<int>>, ys: seq<int>): seq<Point>
    requires |rows| <= |ys|
  {
    if rows == [] then []
    else PointsOfRows(rows[..|rows| - 1], ys) + AtRow(rows[|rows| - 1], ys[|rows| - 1])
  }

  /** Rows that hold every sample row's peaks are AllRows. */
  lemma RowsAreAll(lane: seq<seq<Byte>>, w: nat, drive: Option<seq<seq<Byte>>>, ys: seq<int>, tuning: Tuning,
                   rows: seq<seq<int>>)
    requires IsGrid(lane, w) && |lane| >= 1 && w >= 1
    requires drive.Some? ==> IsGrid(drive.value, w) && |drive.value| == |lane|
    requires RowsOf(lane, w, drive, ys, tuning, rows) && |rows| == |ys|
    ensures rows == AllRows(lane, w, drive, ys, tuning)
  {
    var all := AllRows(lane, w, drive, ys, tuning);
    forall i | 0 <= i < |rows| ensures rows[i] == all[i] {
      assert all[i] == RowPeaks(lane, w, drive, ys[i], tuning);
    }
  }

  /**
   * What BuildCandidatePolylinesRoi returns from the peaks of each sample
   * row: their points, stitched.
   */
  function CandidatePolylines(rows: seq<seq<int>>, ys: seq<int>, tuning: Tuning): seq<seq<Point>>
    requires |rows| <= |ys|
  {
    Stitched(PointsOfRows(rows, ys), tuning)
  }

  /**
   * The points sorted bottom first, stitched, and only the groups of at
   * least max(6, SampleBandCount / 3) points kept.
   */
  function Stitched(pts: seq<Point>, tuning: Tuning): seq<seq<Point>> {
    var order := SortBy(pts, BottomFirst);
    KeepLong(StitchAll(order, |order|, Max(25, tuning.followWindowPx)), Max(6, TruncDiv(tuning.sampleBandCount, 3)))
  }

  /**
   * BuildCandidatePolylinesRoi: the peaks of each sample row's band, as
   * points, stitched bottom to top into chains; only chains of at least
   * max(6, SampleBandCount / 3) points are kept. The ghost rows are the
   * peaks of every sample row (RowsAreAll: they can only be AllRows).
   */
  method BuildCandidatePolylinesRoi(lane: seq<seq<Byte>>, w: nat, drive: Option<seq<seq<Byte>>>,
                                    sampleYs: seq<int>, tuning: Tuning)
    returns (groups: seq<seq<Point>>, ghost rows: seq<seq<int>>)
    requires IsGrid(lane, w) && |lane| >= 1 && w >= 1
    requires drive.Some? ==> IsGrid(drive.value, w) && |drive.value| == |lane|
    ensures |rows| == |sampleYs| && RowsOf(lane, w, drive, sampleYs, tuning, rows)
    ensures groups == CandidatePolylines(rows, sampleYs, tuning)
    ensures forall k :: 0 <= k < |groups| ==>
      IsChain(groups[k], Max(25, tuning.followWindowPx)) &&
      |groups[k]| >= Max(6, TruncDiv(tuning.sampleBandCount, 3)) &&
      PointsIn(groups[k], sampleYs, w)
  {
    var pts;
    pts, rows := BandPeaks(lane, w, drive, sampleYs, tuning);
    groups := StitchPoints(pts, tuning, sampleYs, w);
  }

  /** The stitching half of BuildCandidatePolylinesRoi, from the band points on. */
  method StitchPoints(pts: seq<Point>, tuning: Tuning, ghost sampleYs: seq<int>, w: int) returns (groups: seq<seq<Point>>)
    requires PointsIn(pts, sampleYs, w)
    ensures groups == Stitched(pts, tuning)
    ensures forall k :: 0 <= k < |groups| ==>
      IsChain(groups[k], Max(25, tuning.followWindowPx)) &&
      |groups[k]| >= Max(6, TruncDiv(tuning.sampleBandCount, 3)) &&
      PointsIn(groups[k], sampleYs, w)
  {
    var order := SortBy(pts, BottomFirst);
    assert PointsIn(order, sampleYs, w) by {
      SortedPointsIn(pts, order, sampleYs, w);
    }
    var maxStep := Max(25, tuning.followWindowPx);
    var stitched := Stitch(order, maxStep);
    groups := KeepChains(stitched, maxStep, Max(6, TruncDiv(tuning.sampleBandCount, 3)));
    assert forall k :: 0 <= k < |groups| ==> PointsIn(groups[k], sampleYs, w) by {
      KeptPointsIn(order, stitched, groups, sampleYs, w);
    }
  }

  /** The long enough chains, each given the closing bottom-first sort, which leaves it as it was. */
  method KeepChains(stitched: seq<seq<Point>>, maxStep: int, minLen: int) returns (groups: seq<seq<Point>>)
    requires AllChains(stitched, maxStep)
    ensures groups == KeepLong(stitched, minLen)
    ensures forall k :: 0 <= k < |groups| ==> IsChain(groups[k], maxStep) && |groups[k]| >= minLen
  {
    groups := KeepLong(stitched, minLen);
    assert forall k :: 0 <= k < |groups| ==> groups[k] in stitched;
    groups := SortEachGroup(groups, maxStep);
  }

  /** The closing per-group sort, bottom first: every group is a chain, so each is left as it was. */
  method SortEachGroup(groups: seq<seq<Point>>, maxStep: int) returns (sorted: seq<seq<Point>>)
    requires forall k :: 0 <= k < |groups| ==> IsChain(groups[k], maxStep)
    ensures sorted == groups
  {
    sorted := groups;
    var k := 0;
    while k < |sorted|
      invariant 0 <= k <= |sorted| && sorted == groups
    {
      ChainSortedIdentity(sorted[k], maxStep);
      sorted := sorted[k := SortBy(sorted[k], BottomFirst)];
      k := k + 1;
    }
  }

  /** Sorting keeps the points where they were. */
  lemma SortedPointsIn(pts: seq<Point>, order: seq<Point>, sampleYs: seq<int>, w: int)
    requires PointsIn(pts, sampleYs, w) && multiset(order) == multiset(pts)
    ensures PointsIn(order, sampleYs, w)
  {
    forall q | q in order ensures q in pts {
      assert q in multiset(order);
    }
  }

  /** Groups drawn from a stitching of pts hold only points of pts. */
  lemma KeptPointsIn(pts: seq<Point>, stitched: seq<seq<Point>>, kept: seq<seq<Point>>, sampleYs: seq<int>, w: int)
    requires PointsIn(pts, sampleYs, w)
    requires multiset(Flatten(stitched)) == multiset(pts)
    requires forall g :: g in kept ==> g in stitched
    ensures forall k :: 0 <= k < |kept| ==> PointsIn(kept[k], sampleYs, w)
  {
    forall k | 0 <= k < |kept| ensures PointsIn(kept[k], sampleYs, w) {
      assert kept[k] in stitched;
      var j :| 0 <= j < |stitched| && stitched[j] == kept[k];
      forall q | q in kept[k] ensures q.y in sampleYs && 1 <= q.x < w - 2 {
        InFlatten(stitched, j, q);
        assert q in multiset(Flatten(stitched));
        assert q in multiset(pts);
      }
    }
  }

  /**
   * The band loop of BuildCandidatePolylinesRoi: for each sample row, the
   * column counts of a band of max(10, min(28, h / 18)) rows around it, the
   * drivable corridor when there is a drivable mask, and FindPeaks inside
   * it; every peak becomes the point (peak, row).
   */
  method BandPeaks(lane: seq<seq<Byte>>, w: nat, drive: Option<seq<seq<Byte>>>, sampleYs: seq<int>, tuning: Tuning)
    returns (pts: seq<Point>, ghost rows: seq<seq<int>>)
    requires IsGrid(lane, w) && |lane| >= 1 && w >= 1
    requires drive.Some? ==> IsGrid(drive.value, w) && |drive.value| == |lane|
    ensures |rows| == |sampleYs| && RowsOf(lane, w, drive, sampleYs, tuning, rows)
    ensures pts == PointsOfRows(rows, sampleYs)
    ensures PointsIn(pts, sampleYs, w)
  {
    pts, rows := [], [];
    var s := 0;
    while s < |sampleYs|
      invariant 0 <= s <= |sampleYs| && |rows| == s
      invariant RowsOf(lane, w, drive, sampleYs, tuning, rows)
      invariant pts == PointsOfRows(rows, sampleYs)
      invariant PointsIn(pts, sampleYs, w)
    {
      pts, rows := BandRound(lane, w, drive, sampleYs, tuning, s, pts, rows);
      s := s + 1;
    }
  }

  /** One round of the band loop: the peaks of the next sample row appended as points. */
  method BandRound(lane: seq<seq<Byte>>, w: nat, drive: Option<seq<seq<Byte>>>, sampleYs: seq<int>, tuning: Tuning,
                   s: nat, pts: seq<Point>, ghost rows: seq<seq<int>>)
    returns (next: seq<Point>, ghost rows': seq<seq<int>>)
    requires IsGrid(lane, w) && |lane| >= 1 && w >= 1
    requires drive.Some? ==> IsGrid(drive.value, w) && |drive.value| == |lane|
    requires |rows| == s < |sampleYs| && RowsOf(lane, w, drive, sampleYs, tuning, rows)
    requires pts == PointsOfRows(rows, sampleYs)
    requires PointsIn(pts, sampleYs, w)
    ensures |rows'| == |rows| + 1 && RowsOf(lane, w, drive, sampleYs, tuning, rows')
    ensures next == PointsOfRows(rows', sampleYs)
    ensures PointsIn(next, sampleYs, w)
  {
    var y := sampleYs[s];
    var peaks := BandRowPeaks(lane, w, drive, y, tuning);
    rows' := rows + [peaks];
    assert rows'[..|rows|] == rows;
    next := AddRow(pts, peaks, y, sampleYs, w);
  }

  /** `foreach (var x in peaks) pts.Add(new Point(x, y))`. */
  method AddRow(pts: seq<Point>, peaks: seq<int>, y: int, ghost sampleYs: seq<int>, w: int) returns (r: seq<Point>)
    requires PointsIn(pts, sampleYs, w) && y in sampleYs
    requires forall j :: 0 <= j < |peaks| ==> 1 <= peaks[j] < w - 2
    ensures r == pts + AtRow(peaks, y)
    ensures PointsIn(r, sampleYs, w)
  {
    r := pts;
    var j := 0;
    while j < |peaks|
      invariant 0 <= j <= |peaks|
      invariant r == pts + AtRow(peaks[..j], y)
      invariant PointsIn(r, sampleYs, w)
    {
      r := r + [Point(peaks[j], y)];
      assert AtRow(peaks[..j + 1], y) == AtRow(peaks[..j], y) + [Point(peaks[j], y)];
      j := j + 1;
    }
    assert peaks[..j] == peaks;
  }

  /** One round of the band loop: the band's counts, its corridor, and FindPeaks in it. */
  method BandRowPeaks(lane: seq<seq<Byte>>, w: nat, drive: Option<seq<seq<Byte>>>, y: int, tuning: Tuning)
    returns (peaks: seq<int>)
    requires IsGrid(lane, w) && |lane| >= 1 && w >= 1
    requires drive.Some? ==> IsGrid(drive.value, w) && |drive.value| == |lane|
    ensures peaks == RowPeaks(lane, w, drive, y, tuning)
    ensures forall j :: 0 <= j < |peaks| ==> 1 <= peaks[j] < w - 2
  {
    var h := |lane|;
    var bandH := Clamp(h / 18, 10, 28);
    var y0 := Clamp(y - bandH / 2, 0, h - 1);
    var y1 := Clamp(y0 + bandH, 0, h);
    if y1 <= y0 + 1 {
      return [];
    }
    assert BandRows(h, y) == (y0, y1);
    var hist, left, right := BandHistogram(lane, w, drive, y0, y1);
    peaks := BandFindPeaks(hist, left, right, Max(10, tuning.peakMinGapPx));
  }

  /** The column counts of rows [y0, y1) of the lane mask, and the drivable corridor of the same rows. */
  method BandHistogram(lane: seq<seq<Byte>>, w: nat, drive: Option<seq<seq<Byte>>>, y0: int, y1: int)
    returns (hist: seq<int>, left: int, right: int)
    requires IsGrid(lane, w) && 0 <= y0 <= y1 <= |lane|
    requires drive.Some? ==> IsGrid(drive.value, w) && |drive.value| == |lane|
    ensures hist == ColumnCounts(lane[y0..y1], w)
    ensures (left, right) == BandCorridor(drive, w, y0, y1)
  {
    hist := ReduceColumnSumToInt(lane[y0..y1], w);
    left, right := 0, w - 1;
    if drive.Some? && |drive.value| > 0 {
      var d := ReduceColumnSumToInt(drive.value[y0..y1], w);
      assert d == ColumnCounts(drive.value[y0..y1], w);
      left, right := GetCorridorFromHist(d, y1 - y0);
    }
  }

  /** FindPeaks with the band loop's cap of ten: the peaks it returns lie strictly inside the histogram. */
  method BandFindPeaks(hist: seq<int>, left: int, right: int, minDistance: int) returns (peaks: seq<int>)
    requires |hist| >= 1
    ensures peaks == Peaks(hist, left, right, 10, minDistance)
    ensures forall j :: 0 <= j < |peaks| ==> 1 <= peaks[j] < |hist| - 2
  {
    peaks := FindPeaks(hist, left, right, 10, minDistance);
  }
}
