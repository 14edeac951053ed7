// WpfApp1/Script/LaneAnalyzer.cs, the LaneAnalyzer object: the ROI,
// AnalyzeCore's pipeline from the lane mask to the boundary lines, Analyze
// with its success test and its exception path, and the point-to-lane lookup.
//
// The probability-to-mask conversion (resize, type conversion, threshold and
// morphology of BuildLaneLineMaskFast) and the erosion of the drivable mask
// are OpenCV image operations: Analyze receives the binary lane mask at frame
// size, and the drivable mask as set. FitLineFromPolyline, a floating-point
// least-squares fit, is a parameter.

module LaneAnalysis {
  import opened Numerics
  import opened Geometry
  import opened LaneScan
  import opened LaneCandidates
  import opened LaneBoundaries

  /** A byte grid of exactly h rows of w columns, the shape of an OpenCV Mat of that size. */
  predicate MaskFits(g: seq<seq<Byte>>, w: int, h: int) {
    |g| == h && IsGrid(g, w)
  }

  /** A rectangle lying inside a w x h frame. */
  predicate InFrame(roi: Rect, w: int, h: int) {
    0 <= roi.x && 0 <= roi.y && 0 <= roi.width && 0 <= roi.height &&
    roi.x + roi.width <= w && roi.y + roi.height <= h
  }

  /**
   * The ROI of AnalyzeCore: the frame below RoiYStartRatio of its height,
   * less a margin of RoiXMarginRatio of its width (at most a quarter) on each
   * side. None stands for the exceptions: Math.Clamp with an empty range when
   * the frame is a single row high, and "ROI too small" below 80 x 80.
   */
  function RoiOf(frameW: int, frameH: int, t: Tuning): (roi: Option<Rect>)
    requires frameW >= 1 && frameH >= 1
    ensures roi.Some? ==> (InFrame(roi.value, frameW, frameH) &&
      roi.value.width >= 80 && roi.value.height >= 80 &&
      roi.value.y + roi.value.height == frameH && roi.value.x == frameW - roi.value.Right())
    ensures frameW < 80 || frameH < 80 ==> roi.None?
  {
    if frameH - 2 < 0 then None
    else
      var y0 := Clamp(TruncToInt(frameH as real * t.roiYStartRatio), 0, frameH - 2);
      var xMargin := Clamp(TruncToInt(frameW as real * t.roiXMarginRatio), 0, TruncDiv(frameW, 4));
      var r := Rect(xMargin, y0, frameW - xMargin * 2, frameH - y0);
      if r.width < 80 || r.height < 80 then None else Some(r)
  }

  /** `new Mat(mask, roi)`: the part of a frame mask under the ROI, in ROI coordinates. */
  function Crop(g: seq<seq<Byte>>, w: int, h: int, roi: Rect): (c: seq<seq<Byte>>)
    requires MaskFits(g, w, h) && InFrame(roi, w, h)
    ensures MaskFits(c, roi.width, roi.height)
    ensures forall r, x :: 0 <= r < roi.height && 0 <= x < roi.width ==> c[r][x] == g[roi.y + r][roi.x + x]
  {
    seq(roi.height, r requires 0 <= r < roi.height => g[roi.y + r][roi.x .. roi.x + roi.width])
  }

  /** Bitwise AND of two naturals, lowest bit first: never more than either operand. */
  function BitAnd(a: nat, b: nat): (r: nat)
    ensures r <= a && r <= b
  {
    if a == 0 || b == 0 then 0
    else 2 * BitAnd(a / 2, b / 2) + (if a % 2 == 1 && b % 2 == 1 then 1 else 0)
  }

  function Pow2(k: nat): (p: nat)
    ensures p >= 1
  {
    if k == 0 then 1 else 2 * Pow2(k - 1)
  }

  /** ANDing with a mask of k one-bits keeps any value below 2^k, on either side. */
  lemma {:induction false} BitAndOnes(a: nat, k: nat)
    requires a < Pow2(k)
    ensures BitAnd(a, Pow2(k) - 1) == a && BitAnd(Pow2(k) - 1, a) == a
  {
    if k > 0 && a > 0 {
      BitAndOnes(a / 2, k - 1);
      assert (Pow2(k) - 1) / 2 == Pow2(k - 1) - 1 && (Pow2(k) - 1) % 2 == 1;
    }
  }

  /** One pixel of Cv2.BitwiseAnd: 0 where either mask is 0, the other pixel where one is 255. */
  function And(a: Byte, b: Byte): (r: Byte)
    ensures a == 0 || b == 0 ==> r == 0
    ensures a == 255 ==> r == b
    ensures b == 255 ==> r == a
  {
    assert Pow2(8) == 256;
    BitAndOnes(a, 8);
    BitAndOnes(b, 8);
    BitAnd(a, b)
  }

  /** The drivable gate, `Cv2.BitwiseAnd(laneMask, drive, laneMask)`: lane pixels survive only where the road is. */
  function Gate(lane: seq<seq<Byte>>, drive: seq<seq<Byte>>, w: int): (g: seq<seq<Byte>>)
    requires w >= 0 && MaskFits(lane, w, |lane|) && MaskFits(drive, w, |lane|)
    ensures MaskFits(g, w, |lane|)
    ensures forall r, x :: 0 <= r < |lane| && 0 <= x < w ==> g[r][x] == And(lane[r][x], drive[r][x])
  {
    seq(|lane|, r requires 0 <= r < |lane| => seq(w, x requires 0 <= x < w => And(lane[r][x], drive[r][x])))
  }

  /**
   * candLines: the fitted line of every candidate polyline whose fit is
   * defined (FitLineFromPolyline returns NaN for fewer than two points or a
   * degenerate fit; here that is None), in candidate order.
   */
  function FittedLines(cands: seq<seq<Point>>, fit: seq<Point> -> Option<Line>): (ls: seq<Line>)
    ensures |ls| <= |cands|
    ensures forall l :: l in ls <==> exists c :: c in cands && fit(c) == Some(l)
  {
    if cands == [] then []
    else
      var rest := FittedLines(cands[..|cands| - 1], fit);
      var c := cands[|cands| - 1];
      assert forall d :: d in cands <==> d in cands[..|cands| - 1] || d == c;
      rest + (if fit(c).Some? then [fit(c).value] else [])
  }

  /**
   * The masks AnalyzeCore scans: the lane mask cropped to the ROI and, when
   * the gate is on and a drivable mask of frame size is set, that mask
   * cropped too, with the lane mask gated by it.
   */
  function GatedMasks(laneMask: seq<seq<Byte>>, frameW: int, frameH: int, roi: Rect, t: Tuning,
                      drivable: Option<seq<seq<Byte>>>): (m: (seq<seq<Byte>>, Option<seq<seq<Byte>>>))
    requires MaskFits(laneMask, frameW, frameH) && InFrame(roi, frameW, frameH)
    ensures MaskFits(m.0, roi.width, roi.height)
    ensures m.1.Some? ==> MaskFits(m.1.value, roi.width, roi.height)
    ensures m.1.Some? <==> t.useDrivableGate && drivable.Some? && MaskFits(drivable.value, frameW, frameH)
  {
    var mask := Crop(laneMask, frameW, frameH, roi);
    if t.useDrivableGate && drivable.Some? && MaskFits(drivable.value, frameW, frameH) then
      var d := Crop(drivable.value, frameW, frameH, roi);
      (Gate(mask, d, roi.width), Some(d))
    else
      (mask, None)
  }

  /** LaneAnalysisResult, without its image buffers and the debug-only candidate polylines. */
  datatype AnalysisResult = AnalysisResult(
    roi: Rect,
    sampleYs: seq<int>,
    boundaries: seq<Line>,
    polylines: seq<seq<Point>>,
    vanishingPoint: (real, real))

  /** The number of lanes: TotalLanes clamped into [2, 8]. */
  function Lanes(t: Tuning): (n: int)
    ensures 2 <= n <= 8
  {
    Clamp(t.totalLanes, 2, 8)
  }

  /**
   * The outcome of AnalyzeCore: None on its exceptions, otherwise the ROI,
   * the sample rows, the stage's boundaries and vanishing point, and the
   * boundaries' drawn polylines, all computed from the gated masks' band
   * peaks, stitched into candidates and fitted.
   */
  function AnalysisOf(laneMask: seq<seq<Byte>>, frameW: int, frameH: int, t: Tuning,
                      drivable: Option<seq<seq<Byte>>>, fit: seq<Point> -> Option<Line>): (res: Option<AnalysisResult>)
    requires frameW >= 1 && frameH >= 1 && MaskFits(laneMask, frameW, frameH)
    ensures res.None? <==> RoiOf(frameW, frameH, t).None? || t.sampleBandCount < 0
  {
    var roiOpt := RoiOf(frameW, frameH, t);
    if roiOpt.None? || t.sampleBandCount < 0 then None
    else
      var roi := roiOpt.value;
      var m := GatedMasks(laneMask, frameW, frameH, roi, t, drivable);
      var ys := SampleYs(roi.height, t);
      var cands := CandidatePolylines(AllRows(m.0, roi.width, m.1, ys, t), ys, t);
      Some(ResultOf(roi, BoundaryStage(FittedLines(cands, fit), m.1, roi, t), t))
  }

  /** Every result AnalyzeCore produces is valid, over the ROI it computes. */
  lemma AnalysisValid(laneMask: seq<seq<Byte>>, frameW: int, frameH: int, t: Tuning,
                      drivable: Option<seq<seq<Byte>>>, fit: seq<Point> -> Option<Line>)
    requires frameW >= 1 && frameH >= 1 && MaskFits(laneMask, frameW, frameH)
    ensures var res := AnalysisOf(laneMask, frameW, frameH, t, drivable, fit);
      res.Some? ==> ValidResult(res.value, t) && res.value.roi == RoiOf(frameW, frameH, t).value
  {
    var roiOpt := RoiOf(frameW, frameH, t);
    if roiOpt.Some? && t.sampleBandCount >= 0 {
      var roi := roiOpt.value;
      var m := GatedMasks(laneMask, frameW, frameH, roi, t, drivable);
      var ys := SampleYs(roi.height, t);
      var cs := FittedLines(CandidatePolylines(AllRows(m.0, roi.width, m.1, ys, t), ys, t), fit);
      assert AnalysisOf(laneMask, frameW, frameH, t, drivable, fit) == Some(ResultOf(roi, BoundaryStage(cs, m.1, roi, t), t));
      StageValid(cs, m.1, roi, t);
    }
  }

  /** The stage's lines and vanishing point make a valid result over any candidate lines. */
  lemma StageValid(cs: seq<Line>, drive: Option<seq<seq<Byte>>>, roi: Rect, t: Tuning)
    requires roi.width >= 80 && roi.height >= 80 && t.sampleBandCount >= 0
    requires drive.Some? ==> IsGrid(drive.value, roi.width)
    ensures ValidResult(ResultOf(roi, BoundaryStage(cs, drive, roi, t), t), t)
  {
    BoundaryStageShape(cs, drive, roi, t);
    ResultValid(roi, BoundaryStage(cs, drive, roi, t), t);
  }

  /** The result assembled from a stage's lines and vanishing point. */
  function ResultOf(roi: Rect, st: (seq<Line>, (real, real)), t: Tuning): AnalysisResult
    requires roi.width >= 80 && roi.height >= 80
  {
    AnalysisResult(roi, SampleYs(roi.height, t), st.0, PolylinesOf(st.0, SampleBand(roi.height, t), t.sampleBandCount, roi), st.1)
  }

  /** Lanes + 1 lines spaced at least 6 apart at yRef make a valid result. */
  lemma ResultValid(roi: Rect, st: (seq<Line>, (real, real)), t: Tuning)
    requires roi.width >= 80 && roi.height >= 80 && t.sampleBandCount >= 0
    requires |st.0| == Lanes(t) + 1
    requires forall i :: 1 <= i < |st.0| ==> At(st.0[i], YRef(roi.height) as real) >= At(st.0[i - 1], YRef(roi.height) as real) + 6.0
    ensures ValidResult(ResultOf(roi, st, t), t)
  {
  }

  class LaneAnalyzer {
    var tuning: Tuning
    var drivable: Option<seq<seq<Byte>>>
    var last: Option<AnalysisResult>
    var laneBoundaries: seq<seq<Point>>

    constructor ()
      ensures tuning == Defaults && drivable.None? && last.None? && laneBoundaries == []
    {
      tuning := Defaults;
      drivable := None;
      last := None;
      laneBoundaries := [];
    }

    /** The public tuning setters. */
    method SetTuning(t: Tuning)
      modifies this
      ensures tuning == t
      ensures drivable == old(drivable) && last == old(last) && laneBoundaries == old(laneBoundaries)
    {
      tuning := t;
    }

    /** SetDrivableMask: keeps a copy of the mask (None for null). */
    method SetDrivableMask(mask: Option<seq<seq<Byte>>>)
      modifies this
      ensures drivable == mask
      ensures tuning == old(tuning) && last == old(last) && laneBoundaries == old(laneBoundaries)
    {
      drivable := mask;
    }

    /**
     * AnalyzeCore on a binary lane mask of frame size. None stands for an
     * exception: an unusable ROI, or a negative SampleBandCount, which the
     * polyline lists' capacity rejects. Otherwise there is one boundary per
     * lane edge, each at least 6 pixels right of its neighbour at yRef, and
     * one drawn polyline per boundary inside the ROI.
     */
    method AnalyzeCore(laneMask: seq<seq<Byte>>, frameW: int, frameH: int, fit: seq<Point> -> Option<Line>)
      returns (res: Option<AnalysisResult>)
      requires frameW >= 1 && frameH >= 1 && MaskFits(laneMask, frameW, frameH)
      ensures res == AnalysisOf(laneMask, frameW, frameH, tuning, drivable, fit)
      ensures res.None? <==> RoiOf(frameW, frameH, tuning).None? || tuning.sampleBandCount < 0
      ensures res.Some? ==> ValidResult(res.value, tuning) && res.value.roi == RoiOf(frameW, frameH, tuning).value
    {
      var roiOpt := RoiOf(frameW, frameH, tuning);
      if roiOpt.None? {
        return None;
      }
      var roi := roiOpt.value;
      var mask := Crop(laneMask, frameW, frameH, roi);
      var drive: Option<seq<seq<Byte>>> := None;
      // A mask of the frame's size is never empty, as the frame is at least 80 x 80.
      if tuning.useDrivableGate && drivable.Some? && MaskFits(drivable.value, frameW, frameH) {
        var d := Crop(drivable.value, frameW, frameH, roi);
        drive := Some(d);
        mask := Gate(mask, d, roi.width);
      }

      var sampleYs := BuildSampleYs(roi.height, tuning);
      assert (mask, drive) == GatedMasks(laneMask, frameW, frameH, roi, tuning, drivable);
      var candLines := CandidateLines(mask, roi.width, drive, sampleYs, tuning, fit);

      var enforced, vp := BoundaryLines(candLines, drive, roi, tuning);

      if tuning.sampleBandCount < 0 {
        return None;
      }
      var polylines := BoundaryPolylines(enforced, SampleBand(roi.height, tuning), tuning.sampleBandCount, roi);
      res := Some(AnalysisResult(roi, sampleYs, enforced, polylines, vp));
      AnalysisValid(laneMask, frameW, frameH, tuning, drivable, fit);
    }

    /**
     * Analyze: false without touching anything when there is no mask or the
     * frame size is not positive; otherwise true exactly when AnalyzeCore
     * succeeds, keeping its result and its polylines, and on its exception
     * the result is dropped and the polylines cleared.
     */
    method Analyze(laneMask: Option<seq<seq<Byte>>>, frameW: int, frameH: int, fit: seq<Point> -> Option<Line>)
      returns (ok: bool)
      requires laneMask.Some? && frameW > 0 && frameH > 0 ==> MaskFits(laneMask.value, frameW, frameH)
      modifies this
      ensures tuning == old(tuning) && drivable == old(drivable)
      ensures laneMask.None? || frameW <= 0 || frameH <= 0 ==>
        !ok && last == old(last) && laneBoundaries == old(laneBoundaries)
      ensures laneMask.Some? && frameW > 0 && frameH > 0 ==>
        (ok <==> RoiOf(frameW, frameH, tuning).Some? && tuning.sampleBandCount >= 0)
      ensures laneMask.Some? && frameW > 0 && frameH > 0 ==>
        (ok ==> last == AnalysisOf(laneMask.value, frameW, frameH, tuning, drivable, fit))
      ensures laneMask.Some? && frameW > 0 && frameH > 0 && ok ==>
        last.Some? && ValidResult(last.value, tuning) && laneBoundaries == last.value.polylines
      ensures laneMask.Some? && frameW > 0 && frameH > 0 && !ok ==> last.None? && laneBoundaries == []
    {
      if laneMask.None? {
        return false;
      }
      if frameW <= 0 || frameH <= 0 {
        return false;
      }
      var res := AnalyzeCore(laneMask.value, frameW, frameH, fit);
      if res.None? {
        last := None;
        laneBoundaries := [];
        return false;
      }
      last := res;
      laneBoundaries := res.value.polylines;
      ok := |res.value.boundaries| == Clamp(tuning.totalLanes, 2, 8) + 1;
    }

    /**
     * TryGetLaneNumberForPoint: -1 without a result, with a boundary count
     * other than lanes + 1, or for a point outside the ROI. Otherwise the
     * boundaries' x at the point's row, pushed to be at least 2 apart, split
     * the row into lanes, and the answer is the lane holding the point, the
     * outermost lanes taking everything beyond them.
     */
    method TryGetLaneNumberForPoint(p: Point) returns (lane: int)
      ensures last.None? ==> lane == -1
      ensures last.Some? && |last.value.boundaries| != Lanes(tuning) + 1 ==> lane == -1
      ensures last.Some? && !last.value.roi.Contains(p) ==> lane == -1
      ensures last.Some? && |last.value.boundaries| == Lanes(tuning) + 1 && last.value.roi.Contains(p) ==>
        InLane(Spread(XsAt(last.value.boundaries, (p.y - last.value.roi.y) as real), 2.0),
               (p.x - last.value.roi.x) as real, lane, Lanes(tuning))
    {
      if last.None? {
        return -1;
      }
      var r := last.value;
      var total := Clamp(tuning.totalLanes, 2, 8);
      if |r.boundaries| != total + 1 {
        return -1;
      }
      if !r.roi.Contains(p) {
        return -1;
      }
      var xR := p.x - r.roi.x;
      var yR := p.y - r.roi.y;
      lane := LaneAt(r.boundaries, yR as real, xR as real, total);
    }
  }

  /**
   * The body of the lookup once the point is known to be inside the ROI: the
   * boundaries' x at row y, the safeguard, and the index loop.
   */
  method LaneAt(bs: seq<Line>, y: real, x: real, total: int) returns (lane: int)
    requires total >= 2 && |bs| == total + 1
    ensures InLane(Spread(XsAt(bs, y), 2.0), x, lane, total)
  {
    var xs := new real[total + 1];
    var i := 0;
    while i <= total
      invariant 0 <= i <= total + 1
      invariant forall j :: 0 <= j < i ==> xs[j] == At(bs[j], y)
    {
      var ln := bs[i];
      xs[i] := At(ln, y);
      i := i + 1;
    }
    ghost var xs0 := XsAt(bs, y);
    assert xs[..] == xs0;
    Safeguard(xs);
    var idx := CountAtOrLeft(xs, x);
    SpreadIncreasing(xs0, 2.0, 0, 1);
    lane := Clamp(idx, 1, total);
    LaneOfCount(xs[..], x, idx, total);
  }

  /** The lookup's index loop: how many leading xs lie at or left of x. */
  method CountAtOrLeft(xs: array<real>, x: real) returns (idx: int)
    ensures 0 <= idx <= xs.Length
    ensures forall j :: 0 <= j < idx ==> xs[j] <= x
    ensures idx < xs.Length ==> x < xs[idx]
  {
    idx := 0;
    while idx < xs.Length && x >= xs[idx]
      invariant 0 <= idx <= xs.Length
      invariant forall j :: 0 <= j < idx ==> xs[j] <= x
    {
      idx := idx + 1;
    }
  }

  /**
   * With increasing boundaries, clamping the count of boundaries at or left
   * of x into [1, total] names the lane between two neighbouring boundaries
   * that holds x, the outer lanes extending beyond the outer boundaries.
   */
  lemma LaneOfCount(s: seq<real>, x: real, idx: int, total: int)
    requires total >= 2 && |s| == total + 1 && s[0] < s[1]
    requires 0 <= idx <= |s|
    requires forall j :: 0 <= j < idx ==> s[j] <= x
    requires idx < |s| ==> x < s[idx]
    ensures InLane(s, x, Clamp(idx, 1, total), total)
  {
  }

  /** Lane `lane` of `total` holds x: it lies between the lane's two boundaries, the outer lanes open outwards. */
  predicate InLane(s: seq<real>, x: real, lane: int, total: int) {
    1 <= lane <= total && lane < |s| &&
    (lane == 1 || s[lane - 1] <= x) && (lane == total || x < s[lane])
  }

  /** The ego lane: EgoLane clamped into [1, lanes]. */
  function EgoOf(t: Tuning): (ego: int)
    ensures 1 <= ego <= Lanes(t)
  {
    Clamp(t.egoLane, 1, Lanes(t))
  }

  /**
   * The expected boundary positions: lanes of the drivable corridor's width
   * at yRef (the whole ROI when that corridor is under 35% of it) shared out,
   * at least 40 pixels each, with the ego lane centred in the ROI.
   */
  function StageExpected(drive: Option<seq<seq<Byte>>>, roi: Rect, t: Tuning): (ex: seq<real>)
    requires roi.width >= 80 && roi.height >= 80
    requires drive.Some? ==> IsGrid(drive.value, roi.width)
    ensures |ex| == Lanes(t) + 1
  {
    var laneW := LaneWidth(WideCorridor(RowCorridor(drive, YRef(roi.height), roi.width), roi.width), Lanes(t));
    ExpectedAll(Lanes(t), EgoOf(t), roi.width as real * 0.5, laneW, roi.width)
  }

  /** The ego picks: the left ego boundary's candidate first, then the right one's among the others. */
  function EgoPicks(cs: seq<Line>, ex: seq<real>, ego: int, yRef: real, snapWin: int): (p: (int, int))
    requires 1 <= ego < |ex|
    ensures -1 <= p.0 < |cs| && -1 <= p.1 < |cs|
    ensures p.0 >= 0 && p.1 >= 0 ==> p.0 != p.1
  {
    var cL := PickedLine(cs, {}, yRef, ex[ego - 1], snapWin);
    (cL, PickedLine(cs, if cL >= 0 then {cL} else {}, yRef, ex[ego], snapWin))
  }

  /** The candidate line at index c, none for -1. */
  function Found(cs: seq<Line>, c: int): Option<Line>
    requires c < |cs|
  {
    if c >= 0 then Some(cs[c]) else None
  }

  /**
   * The boundaries before the push: boundary j is the ego line found for it,
   * or else its ideal line through the vanishing point, snapped.
   */
  function Snapped(ex: seq<real>, cs: seq<Line>, yRef: real, vp: (real, real), followWin: int, ego: int,
                   egoL: Option<Line>, egoR: Option<Line>): (bs: seq<Line>)
    ensures |bs| == |ex|
  {
    seq(|ex|, j requires 0 <= j < |ex| =>
      if j == ego - 1 && egoL.Some? then egoL.value
      else if j == ego && egoR.Some? then egoR.value
      else SnapOne(IdealLine(ex[j], yRef, vp), cs, yRef, followWin))
  }

  /** The boundary stage of AnalyzeCore: the enforced boundary lines and the vanishing point. */
  function BoundaryStage(cs: seq<Line>, drive: Option<seq<seq<Byte>>>, roi: Rect, t: Tuning): (r: (seq<Line>, (real, real)))
    requires roi.width >= 80 && roi.height >= 80
    requires drive.Some? ==> IsGrid(drive.value, roi.width)
  {
    var yRef := YRef(roi.height) as real;
    var ex := StageExpected(drive, roi, t);
    var picks := EgoPicks(cs, ex, EgoOf(t), yRef, Max(40, t.expectedWindowPx));
    var egoL, egoR := Found(cs, picks.0), Found(cs, picks.1);
    var vp := VanishingPoint(egoL, egoR, roi.width as real * 0.5, roi.width, roi.height);
    (Enforced(Snapped(ex, cs, yRef, vp, Max(25, t.followWindowPx), EgoOf(t), egoL, egoR), yRef), vp)
  }

  /**
   * The stage yields lanes + 1 lines, each at least 6 right of the one before
   * at yRef, and an ego boundary found among the candidates keeps that
   * candidate's slope (the push only moves intercepts).
   */
  lemma BoundaryStageShape(cs: seq<Line>, drive: Option<seq<seq<Byte>>>, roi: Rect, t: Tuning)
    requires roi.width >= 80 && roi.height >= 80
    requires drive.Some? ==> IsGrid(drive.value, roi.width)
    ensures var bs, yRef := BoundaryStage(cs, drive, roi, t).0, YRef(roi.height) as real;
      |bs| == Lanes(t) + 1 &&
      (forall i :: 1 <= i < |bs| ==> At(bs[i], yRef) >= At(bs[i - 1], yRef) + 6.0)
    ensures var bs := BoundaryStage(cs, drive, roi, t).0;
      var picks := EgoPicks(cs, StageExpected(drive, roi, t), EgoOf(t), YRef(roi.height) as real, Max(40, t.expectedWindowPx));
      (picks.0 >= 0 ==> bs[EgoOf(t) - 1].m == cs[picks.0].m) &&
      (picks.1 >= 0 ==> bs[EgoOf(t)].m == cs[picks.1].m)
  {
    var yRef := YRef(roi.height) as real;
    var ex := StageExpected(drive, roi, t);
    var picks := EgoPicks(cs, ex, EgoOf(t), yRef, Max(40, t.expectedWindowPx));
    var egoL, egoR := Found(cs, picks.0), Found(cs, picks.1);
    var vp := VanishingPoint(egoL, egoR, roi.width as real * 0.5, roi.width, roi.height);
    StageOf(cs, drive, roi, t, ex, vp, Snapped(ex, cs, yRef, vp, Max(25, t.followWindowPx), EgoOf(t), egoL, egoR));
    SnappedEnforced(ex, cs, yRef, vp, Max(25, t.followWindowPx), EgoOf(t), egoL, egoR);
  }

  /** The push keeps the count and the ego lines' slopes, and spaces the lines at least 6 apart at yRef. */
  lemma SnappedEnforced(ex: seq<real>, cs: seq<Line>, yRef: real, vp: (real, real), followWin: int, ego: int,
                        egoL: Option<Line>, egoR: Option<Line>)
    requires 1 <= ego < |ex|
    ensures var out := Enforced(Snapped(ex, cs, yRef, vp, followWin, ego, egoL, egoR), yRef);
      |out| == |ex| &&
      (forall i :: 1 <= i < |out| ==> At(out[i], yRef) >= At(out[i - 1], yRef) + 6.0) &&
      (egoL.Some? ==> out[ego - 1].m == egoL.value.m) &&
      (egoR.Some? ==> out[ego].m == egoR.value.m)
  {
    var snapped := Snapped(ex, cs, yRef, vp, followWin, ego, egoL, egoR);
    EnforcedSpaced(snapped, yRef);
  }

  /** candLines: the candidate polylines of the band peaks, fitted. */
  method CandidateLines(mask: seq<seq<Byte>>, w: nat, drive: Option<seq<seq<Byte>>>, sampleYs: seq<int>, t: Tuning,
                        fit: seq<Point> -> Option<Line>) returns (candLines: seq<Line>)
    requires IsGrid(mask, w) && |mask| >= 1 && w >= 1
    requires drive.Some? ==> IsGrid(drive.value, w) && |drive.value| == |mask|
    ensures candLines == FittedLines(CandidatePolylines(AllRows(mask, w, drive, sampleYs, t), sampleYs, t), fit)
  {
    var candidates, rows := BuildCandidatePolylinesRoi(mask, w, drive, sampleYs, t);
    RowsAreAll(mask, w, drive, sampleYs, t, rows);
    candLines := FittedLines(candidates, fit);
  }

  /**
   * The boundary stage of AnalyzeCore, step by step: lane width from the
   * drivable corridor at yRef, expected positions, ego picks, vanishing
   * point, ideal lines, the snap, the ego lines put back, and the monotonic
   * push.
   */
  method BoundaryLines(candLines: seq<Line>, drive: Option<seq<seq<Byte>>>, roi: Rect, t: Tuning)
    returns (enforced: seq<Line>, vp: (real, real))
    requires roi.width >= 80 && roi.height >= 80
    requires drive.Some? ==> IsGrid(drive.value, roi.width)
    ensures (enforced, vp) == BoundaryStage(candLines, drive, roi, t)
    ensures |enforced| == Lanes(t) + 1
    ensures forall i :: 1 <= i < |enforced| ==>
      At(enforced[i], YRef(roi.height) as real) >= At(enforced[i - 1], YRef(roi.height) as real) + 6.0
  {
    var ego := EgoOf(t);
    var yRef := YRef(roi.height);
    var expectedX := ExpectedPositions(drive, roi, t);
    var boundaries;
    boundaries, vp := StageBoundaries(candLines, expectedX, ego, yRef as real, roi, Max(40, t.expectedWindowPx), Max(25, t.followWindowPx));
    enforced := EnforceMonotonic(boundaries, yRef as real);
    assert (enforced, vp) == BoundaryStage(candLines, drive, roi, t) by {
      StageOf(candLines, drive, roi, t, expectedX, vp, boundaries);
    }
    BoundaryStageShape(candLines, drive, roi, t);
  }

  /**
   * The boundaries before the push, and the vanishing point, for expected
   * positions ex: the ego picks, the vanishing point of the ego lines found,
   * the ideal lines through it snapped, and the ego lines put back.
   */
  ghost predicate Staged(cs: seq<Line>, ex: seq<real>, ego: int, yRef: real, roi: Rect, snapWin: int, followWin: int,
                         vp: (real, real), bs: seq<Line>)
    requires 1 <= ego < |ex|
  {
    var picks := EgoPicks(cs, ex, ego, yRef, snapWin);
    var egoL, egoR := Found(cs, picks.0), Found(cs, picks.1);
    vp == VanishingPoint(egoL, egoR, roi.width as real * 0.5, roi.width, roi.height) &&
    bs == Snapped(ex, cs, yRef, vp, followWin, ego, egoL, egoR)
  }

  /** The ego picks, the vanishing point and the placed boundaries. */
  method StageBoundaries(candLines: seq<Line>, expectedX: seq<real>, ego: int, yRef: real, roi: Rect, snapWin: int, followWin: int)
    returns (boundaries: seq<Line>, vp: (real, real))
    requires 1 <= ego < |expectedX|
    ensures Staged(candLines, expectedX, ego, yRef, roi, snapWin, followWin, vp, boundaries)
  {
    var egoL, egoR := EgoLines(candLines, expectedX, ego, yRef, snapWin);
    vp := VanishingPoint(egoL, egoR, roi.width as real * 0.5, roi.width, roi.height);
    boundaries := PlaceBoundaries(expectedX, candLines, yRef, vp, followWin, ego, egoL, egoR);
  }

  /** BoundaryStage in terms of its expected positions and ego lines. */
  lemma StageOf(cs: seq<Line>, drive: Option<seq<seq<Byte>>>, roi: Rect, t: Tuning,
                ex: seq<real>, vp: (real, real), bs: seq<Line>)
    requires roi.width >= 80 && roi.height >= 80
    requires drive.Some? ==> IsGrid(drive.value, roi.width)
    requires ex == StageExpected(drive, roi, t)
    requires Staged(cs, ex, EgoOf(t), YRef(roi.height) as real, roi, Max(40, t.expectedWindowPx), Max(25, t.followWindowPx), vp, bs)
    ensures BoundaryStage(cs, drive, roi, t) == (Enforced(bs, YRef(roi.height) as real), vp)
  {
  }

  /**
   * The expected boundary positions: the drivable corridor at yRef, widened
   * to the whole ROI when under 35% of it, shared among the lanes.
   */
  method ExpectedPositions(drive: Option<seq<seq<Byte>>>, roi: Rect, t: Tuning) returns (expectedX: seq<real>)
    requires roi.width >= 80 && roi.height >= 80
    requires drive.Some? ==> IsGrid(drive.value, roi.width)
    ensures expectedX == StageExpected(drive, roi, t)
  {
    var total := Lanes(t);
    var corL, corR := GetCorridorLRAtRow(drive, YRef(roi.height), roi.width);
    if (corR - corL) as real < roi.width as real * 0.35 {
      corL, corR := 0, roi.width - 1;
    }
    var laneW := (corR - corL) as real / total as real;
    laneW := MaxReal(laneW, 40.0);
    var centerX := roi.width as real * 0.5;
    expectedX := ExpectedXs(total, EgoOf(t), centerX, laneW, roi.width);
  }

  /** The ego picks: the left ego boundary's nearest free candidate, marked used, then the right one's. */
  method EgoLines(candLines: seq<Line>, expectedX: seq<real>, ego: int, yRef: real, snapWin: int)
    returns (egoL: Option<Line>, egoR: Option<Line>)
    requires 1 <= ego < |expectedX|
    ensures var picks := EgoPicks(candLines, expectedX, ego, yRef, snapWin);
      egoL == Found(candLines, picks.0) && egoR == Found(candLines, picks.1)
  {
    var used: set<int> := {};
    egoL, egoR := None, None;
    var cL := PickNearestCandidate(candLines, used, yRef, expectedX[ego - 1], snapWin);
    if cL >= 0 {
      used := used + {cL};
      egoL := Some(candLines[cL]);
    }
    assert used == if cL >= 0 then {cL} else {};
    var cR := PickNearestCandidate(candLines, used, yRef, expectedX[ego], snapWin);
    if cR >= 0 {
      used := used + {cR};
      egoR := Some(candLines[cR]);
    }
    assert (cL, cR) == EgoPicks(candLines, expectedX, ego, yRef, snapWin);
  }

  /** The ideal lines through the vanishing point, snapped except at the ego boundaries found, which are put back. */
  method PlaceBoundaries(expectedX: seq<real>, candLines: seq<Line>, yRef: real, vp: (real, real), followWin: int,
                         ego: int, egoL: Option<Line>, egoR: Option<Line>) returns (boundaries: seq<Line>)
    requires 1 <= ego < |expectedX|
    ensures boundaries == Snapped(expectedX, candLines, yRef, vp, followWin, ego, egoL, egoR)
  {
    boundaries := IdealBoundaries(expectedX, yRef, vp);
    var keep := (if egoL.Some? then {ego - 1} else {}) + (if egoR.Some? then {ego} else {});
    boundaries := SnapBoundaries(boundaries, candLines, yRef, followWin, keep);
    if egoL.Some? {
      boundaries := boundaries[ego - 1 := egoL.value];
    }
    if egoR.Some? {
      boundaries := boundaries[ego := egoR.value];
    }
    ghost var snapped := Snapped(expectedX, candLines, yRef, vp, followWin, ego, egoL, egoR);
    assert forall j :: 0 <= j < |boundaries| ==> boundaries[j] == snapped[j];
  }

  /**
   * What a successful AnalyzeCore produces: lanes + 1 boundaries, each at
   * least 6 pixels right of the one before at yRef, one polyline of
   * SampleBandCount points per boundary inside the ROI, each point the
   * boundary's x (clamped, rounded) at a sample row, and the sample rows.
   */
  ghost predicate ValidResult(r: AnalysisResult, t: Tuning) {
    r.roi.width >= 80 && r.roi.height >= 80 &&
    |r.boundaries| == Lanes(t) + 1 &&
    (forall i :: 1 <= i < |r.boundaries| ==>
      At(r.boundaries[i], YRef(r.roi.height) as real) >= At(r.boundaries[i - 1], YRef(r.roi.height) as real) + 6.0) &&
    |r.polylines| == |r.boundaries| &&
    (forall j :: 0 <= j < |r.polylines| ==> |r.polylines[j]| == t.sampleBandCount) &&
    (forall j, k :: 0 <= j < |r.polylines| && 0 <= k < |r.polylines[j]| ==> r.roi.Contains(r.polylines[j][k])) &&
    r.polylines == PolylinesOf(r.boundaries, SampleBand(r.roi.height, t), t.sampleBandCount, r.roi) &&
    r.sampleYs == SampleYs(r.roi.height, t) &&
    |r.sampleYs| == SampleCount(t) &&
    (forall i :: 0 <= i < |r.sampleYs| ==> 0 <= r.sampleYs[i] < r.roi.height)
  }
}
