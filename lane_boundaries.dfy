// WpfApp1/Script/LaneAnalyzer.cs, the boundary stage of AnalyzeCore: expected
// boundary positions across the ROI, the ego-line picks, the vanishing point,
// the ideal lines through it, the snap to nearby candidate lines, the
// monotonic push at yRef, and the polylines drawn from the final lines.
// Line values m*y + b are reals; IEEE rounding is not modelled.

module LaneBoundaries {
  import opened Numerics
  import opened Geometry
  import opened LaneScan
  import opened LaneCandidates

  /** A boundary or candidate line in ROI coordinates, x = m*y + b. */
  datatype Line = Line(m: real, b: real)

  /** The line's x at row y. */
  function At(l: Line, y: real): real {
    l.m * y + l.b
  }

  /** The x of every line at row y. */
  function XsAt(ls: seq<Line>, y: real): (xs: seq<real>)
    ensures |xs| == |ls|
    ensures forall i :: 0 <= i < |ls| ==> xs[i] == At(ls[i], y)
  {
    seq(|ls|, i requires 0 <= i < |ls| => At(ls[i], y))
  }

  // ----- the monotonic push -----

  /**
   * The left-to-right push used both by the enforcement loop of AnalyzeCore
   * (gap 6) and by the safeguard of TryGetLaneNumberForPoint (gap 2): every
   * value after the first is raised to at least gap past the pushed value
   * before it.
   */
  function Spread(xs: seq<real>, gap: real): (r: seq<real>)
    ensures |r| == |xs|
  {
    if |xs| <= 1 then xs
    else
      var p := Spread(xs[..|xs| - 1], gap);
      p + [MaxReal(xs[|xs| - 1], p[|p| - 1] + gap)]
  }

  /** One more value of the input adds one more pushed value. */
  lemma SpreadSnoc(xs: seq<real>, gap: real, k: int)
    requires 1 <= k < |xs|
    ensures Spread(xs[..k + 1], gap) == Spread(xs[..k], gap) + [MaxReal(xs[k], Spread(xs[..k], gap)[k - 1] + gap)]
  {
    assert xs[..k + 1][..k] == xs[..k];
  }

  /** The pushed values of a prefix are a prefix of the pushed values. */
  lemma {:induction false} SpreadPrefix(xs: seq<real>, gap: real, k: int)
    requires 0 <= k <= |xs|
    ensures Spread(xs, gap)[..k] == Spread(xs[..k], gap)
    decreases |xs|
  {
    if k < |xs| {
      SpreadPrefix(xs[..|xs| - 1], gap, k);
      assert xs[..|xs| - 1][..k] == xs[..k];
    } else {
      assert xs[..k] == xs;
    }
  }

  /** The first value is never pushed. */
  lemma SpreadFirst(xs: seq<real>, gap: real)
    requires |xs| >= 1
    ensures Spread(xs, gap)[0] == xs[0]
  {
    SpreadPrefix(xs, gap, 1);
    assert Spread(xs, gap)[..1] == xs[..1];
  }

  /**
   * The push, value by value: the first value stays, and every later one is
   * the larger of its input and gap past the value before it.
   */
  lemma SpreadStep(xs: seq<real>, gap: real, i: int)
    requires 1 <= i < |xs|
    ensures Spread(xs, gap)[0] == xs[0]
    ensures Spread(xs, gap)[i] == MaxReal(xs[i], Spread(xs, gap)[i - 1] + gap)
  {
    var r := Spread(xs, gap);
    SpreadFirst(xs, gap);
    SpreadPrefix(xs, gap, i + 1);
    SpreadSnoc(xs, gap, i);
    SpreadPrefix(xs, gap, i);
    assert r[i] == r[..i + 1][i];
    assert r[i - 1] == r[..i][i - 1];
  }

  /** After the push neighbours are at least gap apart, and no value moved left. */
  lemma SpreadSpaced(xs: seq<real>, gap: real)
    ensures var r := Spread(xs, gap);
      (forall i :: 1 <= i < |r| ==> r[i] >= r[i - 1] + gap) &&
      (forall i :: 0 <= i < |r| ==> r[i] >= xs[i])
  {
    var r := Spread(xs, gap);
    if |r| >= 1 {
      SpreadFirst(xs, gap);
    }
    forall i | 1 <= i < |r| ensures r[i] >= r[i - 1] + gap && r[i] >= xs[i] {
      SpreadStep(xs, gap, i);
    }
  }

  /** With a positive gap the pushed values are strictly increasing. */
  lemma {:induction false} SpreadIncreasing(xs: seq<real>, gap: real, i: int, j: int)
    requires gap > 0.0 && 0 <= i < j < |xs|
    ensures Spread(xs, gap)[i] < Spread(xs, gap)[j]
    decreases j - i
  {
    SpreadSpaced(xs, gap);
    if i < j - 1 {
      SpreadIncreasing(xs, gap, i, j - 1);
    }
  }

  /** Values already gap apart are left alone. */
  lemma {:induction false} SpreadKeepsSpaced(xs: seq<real>, gap: real)
    requires forall i :: 1 <= i < |xs| ==> xs[i] >= xs[i - 1] + gap
    ensures Spread(xs, gap) == xs
  {
    if |xs| > 1 {
      SpreadKeepsSpaced(xs[..|xs| - 1], gap);
      assert xs[..|xs| - 1] + [xs[|xs| - 1]] == xs;
    }
  }

  /**
   * The boundaries after the enforcement loop: each intercept raised by how
   * far the push moved the boundary's x at yRef.
   */
  function Enforced(bs: seq<Line>, yRef: real): (out: seq<Line>)
    ensures |out| == |bs|
  {
    var r := Spread(XsAt(bs, yRef), 6.0);
    seq(|bs|, i requires 0 <= i < |bs| => Line(bs[i].m, bs[i].b + (r[i] - At(bs[i], yRef))))
  }

  /**
   * The enforced boundaries keep their slopes, sit at the pushed xs at yRef,
   * and so are each at least 6 right of the one before there.
   */
  lemma EnforcedSpaced(bs: seq<Line>, yRef: real)
    ensures var out := Enforced(bs, yRef);
      (forall i :: 0 <= i < |out| ==> out[i].m == bs[i].m) &&
      XsAt(out, yRef) == Spread(XsAt(bs, yRef), 6.0) &&
      (forall i :: 1 <= i < |out| ==> At(out[i], yRef) >= At(out[i - 1], yRef) + 6.0)
  {
    var out := Enforced(bs, yRef);
    var r := Spread(XsAt(bs, yRef), 6.0);
    forall i | 0 <= i < |out| ensures At(out[i], yRef) == r[i] {
      var m, b := bs[i].m, bs[i].b;
      var my := m * yRef;
      assert At(bs[i], yRef) == my + b;
      assert At(out[i], yRef) == my + (b + (r[i] - (my + b)));
    }
    assert XsAt(out, yRef) == r;
    SpreadSpaced(XsAt(bs, yRef), 6.0);
  }

  /** Boundaries already 6 apart at yRef come out of the enforcement unchanged. */
  lemma EnforcedKeepsSpaced(bs: seq<Line>, yRef: real)
    requires forall i :: 1 <= i < |bs| ==> At(bs[i], yRef) >= At(bs[i - 1], yRef) + 6.0
    ensures Enforced(bs, yRef) == bs
  {
    SpreadKeepsSpaced(XsAt(bs, yRef), 6.0);
  }

  /**
   * The enforcement loop of AnalyzeCore: wherever a boundary's x at yRef is
   * less than 6 past its left neighbour's, its intercept b is raised by the
   * shortfall. Slopes are kept.
   */
  method EnforceMonotonic(boundaries: seq<Line>, yRef: real) returns (out: seq<Line>)
    ensures out == Enforced(boundaries, yRef)
    ensures forall i :: 0 <= i < |out| ==> out[i].m == boundaries[i].m
    ensures XsAt(out, yRef) == Spread(XsAt(boundaries, yRef), 6.0)
  {
    ghost var e := Enforced(boundaries, yRef);
    ghost var xs0 := XsAt(boundaries, yRef);
    ghost var r := Spread(xs0, 6.0);
    var n := |boundaries|;
    var xsRef := new real[n](i requires 0 <= i < n => At(boundaries[i], yRef));
    out := boundaries;
    if n == 0 {
      return;
    }
    SpreadFirst(xs0, 6.0);
    assert out[0] == e[0];
    var i := 1;
    while i < n
      invariant 1 <= i <= n && |out| == n
      invariant forall j :: 0 <= j < i ==> xsRef[j] == r[j] && out[j] == e[j]
      invariant forall j :: i <= j < n ==> xsRef[j] == xs0[j] && out[j] == boundaries[j]
    {
      SpreadStep(xs0, 6.0, i);
      if xsRef[i] < xsRef[i - 1] + 6.0 {
        var delta := (xsRef[i - 1] + 6.0) - xsRef[i];
        out := out[i := Line(out[i].m, out[i].b + delta)];
        xsRef[i] := xsRef[i] + delta;
      }
      i := i + 1;
    }
    assert out == e;
    EnforcedSpaced(boundaries, yRef);
  }

  /** The safeguard of TryGetLaneNumberForPoint: each x is raised to at least 2 past the one before. */
  method Safeguard(xs: array<real>)
    modifies xs
    ensures xs[..] == Spread(old(xs[..]), 2.0)
  {
    ghost var xs0 := xs[..];
    ghost var r := Spread(xs0, 2.0);
    var n := xs.Length;
    if n == 0 {
      return;
    }
    SpreadFirst(xs0, 2.0);
    var i := 1;
    while i < n
      invariant 1 <= i <= n
      invariant forall j :: 0 <= j < i ==> xs[j] == r[j]
      invariant forall j :: i <= j < n ==> xs[j] == xs0[j]
    {
      SpreadStep(xs0, 2.0, i);
      if xs[i] < xs[i - 1] + 2.0 {
        xs[i] := xs[i - 1] + 2.0;
      }
      i := i + 1;
    }
    assert xs[..] == r;
  }

  // ----- expected positions -----

  /** yRef, the reference row near the ROI bottom: 92% of its height, clamped into it. */
  function YRef(roiH: int): (y: int)
    requires roiH >= 1
    ensures 0 <= y <= roiH - 1
  {
    Clamp(TruncToInt(roiH as real * 0.92), 0, roiH - 1)
  }

  /** The corridor used for the lane width: the drivable one unless narrower than 35% of the ROI. */
  function WideCorridor(c: (int, int), roiW: int): (r: (int, int))
    ensures (c.1 - c.0) as real >= roiW as real * 0.35 ==> r == c
    ensures (c.1 - c.0) as real < roiW as real * 0.35 ==> r == (0, roiW - 1)
    ensures (r.1 - r.0) as real >= roiW as real * 0.35 || r == (0, roiW - 1)
  {
    if (c.1 - c.0) as real < roiW as real * 0.35 then (0, roiW - 1) else c
  }

  /** The lane width: the corridor shared among the lanes, at least 40 pixels. */
  function LaneWidth(c: (int, int), total: int): (w: real)
    requires total >= 1
    ensures w >= 40.0
    ensures w >= (c.1 - c.0) as real / total as real
  {
    MaxReal((c.1 - c.0) as real / total as real, 40.0)
  }

  /**
   * expectedX[j]: boundary j of lanes laneW wide, with the ego lane centred
   * in the ROI, clamped into the ROI's columns.
   */
  function ExpectedX(j: int, ego: int, centerX: real, laneW: real, roiW: int): (x: real)
    requires roiW >= 1
    ensures 0.0 <= x <= (roiW - 1) as real
  {
    ClampReal(centerX + (j as real - (ego as real - 0.5)) * laneW, 0.0, (roiW - 1) as real)
  }

  /** The expected positions run left to right. */
  lemma ExpectedXOrdered(j: int, k: int, ego: int, centerX: real, laneW: real, roiW: int)
    requires roiW >= 1 && laneW >= 0.0 && j <= k
    ensures ExpectedX(j, ego, centerX, laneW, roiW) <= ExpectedX(k, ego, centerX, laneW, roiW)
  {
    var d := (k - j) as real * laneW;
    assert (k as real - (ego as real - 0.5)) * laneW == (j as real - (ego as real - 0.5)) * laneW + d;
    assert d >= 0.0;
  }

  /** The expected x of every boundary, left to right. */
  function ExpectedAll(total: int, ego: int, centerX: real, laneW: real, roiW: int): (ex: seq<real>)
    requires total >= 0 && roiW >= 1
    ensures |ex| == total + 1
  {
    seq(total + 1, j requires 0 <= j <= total => ExpectedX(j, ego, centerX, laneW, roiW))
  }

  /** The expectedX loop. */
  method ExpectedXs(total: int, ego: int, centerX: real, laneW: real, roiW: int) returns (ex: seq<real>)
    requires total >= 0 && roiW >= 1
    ensures ex == ExpectedAll(total, ego, centerX, laneW, roiW)
    ensures |ex| == total + 1
    ensures forall j :: 0 <= j <= total ==> ex[j] == ExpectedX(j, ego, centerX, laneW, roiW)
  {
    var a := new real[total + 1];
    var j := 0;
    while j <= total
      invariant 0 <= j <= total + 1
      invariant forall k :: 0 <= k < j ==> a[k] == ExpectedX(k, ego, centerX, laneW, roiW)
    {
      a[j] := centerX + (j as real - (ego as real - 0.5)) * laneW;
      a[j] := ClampReal(a[j], 0.0, (roiW - 1) as real);
      j := j + 1;
    }
    ex := a[..];
    assert forall j :: 0 <= j <= total ==> ex[j] == ExpectedAll(total, ego, centerX, laneW, roiW)[j];
  }

  // ----- picking candidate lines -----

  /** How far line l passes from x at row y. */
  function Dist(l: Line, y: real, x: real): real {
    AbsReal(At(l, y) - x)
  }

  /**
   * The candidate-scan loops: among the first k lines, skipping the indices
   * in skip, the one passing nearest to x at row y, the earliest of equally
   * near ones; -1 when every line is skipped.
   */
  function NearestLine(cs: seq<Line>, skip: set<int>, y: real, x: real, k: nat): (best: int)
    requires k <= |cs|
    ensures -1 <= best < k
    ensures best >= 0 ==> best !in skip
  {
    if k == 0 then -1
    else
      var b := NearestLine(cs, skip, y, x, k - 1);
      if k - 1 !in skip && (b < 0 || Dist(cs[k - 1], y, x) < Dist(cs[b], y, x)) then k - 1 else b
  }

  /**
   * NearestLine finds a line exactly when one is not skipped; no line that is
   * not skipped is nearer, and every earlier one is strictly farther.
   */
  lemma {:induction false} NearestLineIsNearest(cs: seq<Line>, skip: set<int>, y: real, x: real, k: nat)
    requires k <= |cs|
    ensures var best := NearestLine(cs, skip, y, x, k);
      (best < 0 <==> forall i :: 0 <= i < k ==> i in skip) &&
      (best >= 0 ==> forall i :: 0 <= i < k && i !in skip ==> Dist(cs[best], y, x) <= Dist(cs[i], y, x)) &&
      (best >= 0 ==> forall i :: 0 <= i < best && i !in skip ==> Dist(cs[best], y, x) < Dist(cs[i], y, x))
  {
    if k > 0 {
      NearestLineIsNearest(cs, skip, y, x, k - 1);
    }
  }

  /** The scan loop shared by PickNearestCandidate and the snap loop. */
  method ScanNearest(cs: seq<Line>, skip: set<int>, y: real, x: real) returns (best: int)
    ensures best == NearestLine(cs, skip, y, x, |cs|)
  {
    best := -1;
    var bestDx := 0.0;
    var i := 0;
    while i < |cs|
      invariant 0 <= i <= |cs|
      invariant best == NearestLine(cs, skip, y, x, i)
      invariant best >= 0 ==> bestDx == Dist(cs[best], y, x)
    {
      if i !in skip {
        var xi := At(cs[i], y);
        var dx := AbsReal(xi - x);
        if best < 0 || dx < bestDx {
          bestDx := dx;
          best := i;
        }
      }
      i := i + 1;
    }
  }

  /** The pick: the nearest unused candidate at yRef when it passes within snapWin of ex, else -1. */
  function PickedLine(cs: seq<Line>, used: set<int>, yRef: real, ex: real, snapWin: int): (pick: int)
    ensures -1 <= pick < |cs| && (pick >= 0 ==> pick !in used)
  {
    var best := NearestLine(cs, used, yRef, ex, |cs|);
    if best >= 0 && Dist(cs[best], yRef, ex) <= snapWin as real then best else -1
  }

  /**
   * PickNearestCandidate: the nearest unused candidate line at yRef, kept
   * only when it passes within snapWin of the expected x.
   */
  method PickNearestCandidate(cs: seq<Line>, used: set<int>, yRef: real, ex: real, snapWin: int) returns (pick: int)
    ensures pick == PickedLine(cs, used, yRef, ex, snapWin)
    ensures pick == -1 || (0 <= pick < |cs| && pick !in used && Dist(cs[pick], yRef, ex) <= snapWin as real)
    ensures pick >= 0 ==> pick == NearestLine(cs, used, yRef, ex, |cs|)
    ensures pick < 0 ==> forall i :: 0 <= i < |cs| && i !in used ==> Dist(cs[i], yRef, ex) > snapWin as real
  {
    var best := ScanNearest(cs, used, yRef, ex);
    NearestLineIsNearest(cs, used, yRef, ex, |cs|);
    pick := -1;
    if best >= 0 {
      var xBest := At(cs[best], yRef);
      if AbsReal(xBest - ex) <= snapWin as real {
        pick := best;
      } else {
        assert Dist(cs[best], yRef, ex) > snapWin as real;
      }
    }
  }

  // ----- vanishing point and ideal lines -----

  /** TryIntersect: the point where two lines cross, unless their slopes are within 1e-6. */
  function TryIntersect(l: Line, r: Line): (p: Option<(real, real)>)
    ensures p.None? <==> AbsReal(l.m - r.m) < 0.000001
    ensures p.Some? ==> At(l, p.value.1) == p.value.0 && At(r, p.value.1) == p.value.0
  {
    var den := l.m - r.m;
    if AbsReal(den) < 0.000001 then None
    else
      var y := (r.b - l.b) / den;
      assert den * y == r.b - l.b;
      assert r.m * y + r.b == l.m * y + l.b;
      Some((l.m * y + l.b, y))
  }

  /**
   * The vanishing point: 35% of the ROI height above the ROI, over its centre,
   * unless both ego lines were found and cross above 20% of the ROI height
   * within 70% of the ROI width of the centre.
   */
  function VanishingPoint(egoL: Option<Line>, egoR: Option<Line>, centerX: real, roiW: int, roiH: int): (vp: (real, real))
    ensures vp == (centerX, -(roiH as real) * 0.35) ||
      (egoL.Some? && egoR.Some? && At(egoL.value, vp.1) == vp.0 && At(egoR.value, vp.1) == vp.0 &&
       vp.1 < roiH as real * 0.2 && AbsReal(vp.0 - centerX) < roiW as real * 0.7)
  {
    var vp := (centerX, -(roiH as real) * 0.35);
    if egoL.Some? && egoR.Some? then
      var inter := TryIntersect(egoL.value, egoR.value);
      if inter.Some? && inter.value.1 < roiH as real * 0.2 && AbsReal(inter.value.0 - centerX) < roiW as real * 0.7
      then inter.value
      else vp
    else vp
  }

  /** The line through (xRef, yRef) and the vanishing point, its height difference kept at least 1e-6. */
  function IdealLine(xRef: real, yRef: real, vp: (real, real)): Line {
    var dy0 := yRef - vp.1;
    var dy := if AbsReal(dy0) < 0.000001 then 0.000001 else dy0;
    var m := (xRef - vp.0) / dy;
    Line(m, xRef - m * yRef)
  }

  /**
   * The ideal line passes through its expected x at yRef, and through the
   * vanishing point whenever that lies at least 1e-6 away from yRef.
   */
  lemma IdealLineThrough(xRef: real, yRef: real, vp: (real, real))
    ensures At(IdealLine(xRef, yRef, vp), yRef) == xRef
    ensures AbsReal(yRef - vp.1) >= 0.000001 ==> At(IdealLine(xRef, yRef, vp), vp.1) == vp.0
  {
    var l := IdealLine(xRef, yRef, vp);
    if AbsReal(yRef - vp.1) >= 0.000001 {
      var dy := yRef - vp.1;
      assert l.m * dy == xRef - vp.0;
      assert At(l, vp.1) == xRef - l.m * dy;
    }
  }

  /** In an ROI at least 80 rows high, yRef lies well below any accepted vanishing point. */
  lemma YRefBelowVanishingPoint(roiH: int, vpY: real)
    requires roiH >= 80 && vpY < roiH as real * 0.2
    ensures AbsReal(YRef(roiH) as real - vpY) >= 0.000001
  {
    assert roiH as real * 0.92 >= 73.6;
  }

  /** The ideal-boundary loop. */
  method IdealBoundaries(expectedX: seq<real>, yRef: real, vp: (real, real)) returns (bs: seq<Line>)
    ensures |bs| == |expectedX|
    ensures forall j :: 0 <= j < |bs| ==> bs[j] == IdealLine(expectedX[j], yRef, vp)
    ensures forall j :: 0 <= j < |bs| ==> At(bs[j], yRef) == expectedX[j]
    ensures AbsReal(yRef - vp.1) >= 0.000001 ==> forall j :: 0 <= j < |bs| ==> At(bs[j], vp.1) == vp.0
  {
    bs := [];
    var j := 0;
    while j < |expectedX|
      invariant 0 <= j <= |expectedX| && |bs| == j
      invariant forall k :: 0 <= k < j ==> bs[k] == IdealLine(expectedX[k], yRef, vp)
      invariant forall k :: 0 <= k < j ==> At(bs[k], yRef) == expectedX[k]
      invariant AbsReal(yRef - vp.1) >= 0.000001 ==> forall k :: 0 <= k < j ==> At(bs[k], vp.1) == vp.0
    {
      var xRef := expectedX[j];
      var dy := yRef - vp.1;
      if AbsReal(dy) < 0.000001 {
        dy := 0.000001;
      }
      var m := (xRef - vp.0) / dy;
      var b := xRef - m * yRef;
      IdealLineThrough(xRef, yRef, vp);
      bs := bs + [Line(m, b)];
      j := j + 1;
    }
  }

  // ----- snap -----

  /**
   * One boundary of the snap loop: replaced by the candidate line nearest to
   * it at yRef when that one passes within followWin, else kept.
   */
  function SnapOne(l: Line, cs: seq<Line>, yRef: real, followWin: int): (r: Line)
    ensures r == l || (r in cs && Dist(r, yRef, At(l, yRef)) <= followWin as real)
  {
    var best := NearestLine(cs, {}, yRef, At(l, yRef), |cs|);
    if best >= 0 && Dist(cs[best], yRef, At(l, yRef)) <= followWin as real then cs[best] else l
  }

  /** A boundary is snapped exactly when some candidate passes within followWin of it, and then to a nearest one. */
  lemma SnapOneNearest(l: Line, cs: seq<Line>, yRef: real, followWin: int)
    ensures (SnapOne(l, cs, yRef, followWin) == l && forall c :: c in cs ==> Dist(c, yRef, At(l, yRef)) > followWin as real) ||
      (SnapOne(l, cs, yRef, followWin) in cs &&
       forall c :: c in cs ==> Dist(SnapOne(l, cs, yRef, followWin), yRef, At(l, yRef)) <= Dist(c, yRef, At(l, yRef)))
  {
    NearestLineIsNearest(cs, {}, yRef, At(l, yRef), |cs|);
    forall c | c in cs ensures exists i :: 0 <= i < |cs| && cs[i] == c {
    }
  }

  /**
   * The snap loop: every boundary whose index is not in keep (the ego
   * boundaries already found) is snapped; kept ones stay.
   */
  method SnapBoundaries(bs: seq<Line>, cs: seq<Line>, yRef: real, followWin: int, keep: set<int>) returns (out: seq<Line>)
    ensures |out| == |bs|
    ensures forall j :: 0 <= j < |bs| ==> out[j] == if j in keep then bs[j] else SnapOne(bs[j], cs, yRef, followWin)
  {
    out := bs;
    var j := 0;
    while j < |out|
      invariant 0 <= j <= |out| && |out| == |bs|
      invariant forall k :: 0 <= k < j ==> out[k] == if k in keep then bs[k] else SnapOne(bs[k], cs, yRef, followWin)
      invariant forall k :: j <= k < |bs| ==> out[k] == bs[k]
    {
      if j !in keep {
        var ex := At(out[j], yRef);
        assert ex == At(bs[j], yRef);
        var best := ScanNearest(cs, {}, yRef, ex);
        if best >= 0 && Dist(cs[best], yRef, ex) <= followWin as real {
          out := out[j := cs[best]];
        }
      }
      j := j + 1;
    }
  }

  // ----- drawn polylines -----

  /**
   * Point k of a drawn boundary: the k-th of count rows spread between the
   * sampled band's bottom and top, and the line's x there clamped into the
   * ROI and rounded, in frame coordinates.
   */
  function PolyPoint(l: Line, k: int, count: int, band: (int, int), roi: Rect): (p: Point)
    requires roi.width >= 1 && roi.height >= 1
    ensures roi.Contains(p)
  {
    var y := SampleY(k, count, band, roi.height);
    var x := ClampReal(At(l, y as real), 0.0, (roi.width - 1) as real);
    RoundMonotone(0.0, x);
    RoundMonotone(x, (roi.width - 1) as real);
    RoundOfInt(0);
    RoundOfInt(roi.width - 1);
    Point(roi.x + RoundHalfEven(x), roi.y + y)
  }

  /** The drawn polylines: count points along each boundary (none for a negative count). */
  function PolylinesOf(bs: seq<Line>, band: (int, int), count: int, roi: Rect): (pls: seq<seq<Point>>)
    requires roi.width >= 1 && roi.height >= 1
    ensures |pls| == |bs| && forall j :: 0 <= j < |bs| ==> |pls[j]| == Max(0, count)
    ensures forall j, k :: 0 <= j < |pls| && 0 <= k < |pls[j]| ==> roi.Contains(pls[j][k])
  {
    seq(|bs|, j requires 0 <= j < |bs| =>
      seq(Max(0, count), k requires 0 <= k < Max(0, count) => PolyPoint(bs[j], k, count, band, roi)))
  }

  /** The drawing loops: one polyline of count points per boundary. */
  method BoundaryPolylines(bs: seq<Line>, band: (int, int), count: int, roi: Rect) returns (pls: seq<seq<Point>>)
    requires roi.width >= 1 && roi.height >= 1
    ensures pls == PolylinesOf(bs, band, count, roi)
    ensures |pls| == |bs|
    ensures forall j :: 0 <= j < |bs| ==> |pls[j]| == Max(0, count)
    ensures forall j, k :: 0 <= j < |bs| && 0 <= k < |pls[j]| ==> pls[j][k] == PolyPoint(bs[j], k, count, band, roi)
  {
    pls := [];
    var j := 0;
    while j < |bs|
      invariant 0 <= j <= |bs| && |pls| == j
      invariant forall i :: 0 <= i < j ==> |pls[i]| == Max(0, count)
      invariant forall i, k :: 0 <= i < j && 0 <= k < |pls[i]| ==> pls[i][k] == PolyPoint(bs[i], k, count, band, roi)
    {
      var pts := BoundaryPolyline(bs[j], band, count, roi);
      pls := pls + [pts];
      j := j + 1;
    }
    assert forall i :: 0 <= i < |bs| ==> pls[i] == PolylinesOf(bs, band, count, roi)[i];
  }

  /** The inner drawing loop: count points along one boundary. */
  method BoundaryPolyline(l: Line, band: (int, int), count: int, roi: Rect) returns (pts: seq<Point>)
    requires roi.width >= 1 && roi.height >= 1
    ensures |pts| == Max(0, count)
    ensures forall k :: 0 <= k < |pts| ==> pts[k] == PolyPoint(l, k, count, band, roi)
  {
    pts := [];
    var k := 0;
    while k < count
      invariant 0 <= k <= Max(0, count) && |pts| == k
      invariant forall i :: 0 <= i < k ==> pts[i] == PolyPoint(l, i, count, band, roi)
    {
      var y := RoundHalfEven(Lerp(band.1, band.0, k, Max(1, count - 1)));
      y := Clamp(y, 0, roi.height - 1);
      var x := l.m * y as real + l.b;
      x := ClampReal(x, 0.0, (roi.width - 1) as real);
      assert y == SampleY(k, count, band, roi.height);
      assert x == ClampReal(At(l, y as real), 0.0, (roi.width - 1) as real);
      assert Point(roi.x + RoundHalfEven(x), roi.y + y) == PolyPoint(l, k, count, band, roi);
      pts := pts + [Point(roi.x + RoundHalfEven(x), roi.y + y)];
      k := k + 1;
    }
  }
}
