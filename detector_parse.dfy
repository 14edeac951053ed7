// Post-processing of the two detectors' raw outputs (Script/YoloV8Onnx.cs
// ParseOutput_1x84x8400, Script/YolopOnnx.cs ParseDetOut and
// ProbToBinaryMask). Tensor entries are read as reals; the un-letterboxing
// divides by the positive letterbox scale.

module DetectorParse {
  import opened Numerics
  import opened Geometry

  /** A detection as a value: what a parser hands to `new Detection(...)`. */
  datatype Candidate = Candidate(box: Rect, classId: int, score: real)

  datatype Option<T> = None | Some(value: T)

  /** The classes the YOLOv8 parser keeps: car (2), bus (5) and truck (7). */
  predicate IsVehicleClass(c: int) {
    c == 2 || c == 5 || c == 7
  }

  /** `(v - pad) / scale`: from the 640x640 letterboxed frame back to the original frame. */
  function Unletterbox(v: real, pad: int, scale: real): real
    requires scale > 0.0
  {
    (v - pad as real) / scale
  }

  /**
   * The clamp / truncate / size filter both parsers apply to an un-letterboxed
   * corner pair: each corner is clamped into [0, origW-1] x [0, origH-1], the
   * top-left corner and the width and height are cast to int, and a box
   * narrower or shorter than 10 pixels is dropped.
   */
  function ClampedBox(x1: real, y1: real, x2: real, y2: real, origW: int, origH: int): (r: Option<Rect>)
    requires origW >= 1 && origH >= 1
    ensures r.Some? ==> r.value.width >= 10 && r.value.height >= 10
  {
    var cx1 := ClampReal(x1, 0.0, (origW - 1) as real);
    var cy1 := ClampReal(y1, 0.0, (origH - 1) as real);
    var cx2 := ClampReal(x2, 0.0, (origW - 1) as real);
    var cy2 := ClampReal(y2, 0.0, (origH - 1) as real);
    var rw := TruncToInt(cx2 - cx1);
    var rh := TruncToInt(cy2 - cy1);
    if rw < 10 || rh < 10 then None
    else Some(Rect(TruncToInt(cx1), TruncToInt(cy1), rw, rh))
  }

  /** Every box that survives the filter lies inside the original frame, right and bottom edges included. */
  lemma ClampedBoxInFrame(x1: real, y1: real, x2: real, y2: real, origW: int, origH: int)
    requires origW >= 1 && origH >= 1
    requires ClampedBox(x1, y1, x2, y2, origW, origH).Some?
    ensures var b := ClampedBox(x1, y1, x2, y2, origW, origH).value;
      0 <= b.x && b.Right() <= origW - 1 && 0 <= b.y && b.Bottom() <= origH - 1
  {
    var cx1 := ClampReal(x1, 0.0, (origW - 1) as real);
    var cx2 := ClampReal(x2, 0.0, (origW - 1) as real);
    var cy1 := ClampReal(y1, 0.0, (origH - 1) as real);
    var cy2 := ClampReal(y2, 0.0, (origH - 1) as real);
    // both sides were at least 10, so the differences were positive
    assert cx2 - cx1 > 0.0 && cy2 - cy1 > 0.0;
    assert TruncToInt(cx1) as real + TruncToInt(cx2 - cx1) as real <= cx2;
    assert TruncToInt(cy1) as real + TruncToInt(cy2 - cy1) as real <= cy2;
  }

  // ---------------------------------------------------------------------
  // YOLOv8: output [1, 84, N]; column i is (cx, cy, w, h, score_0 .. score_79)
  // ---------------------------------------------------------------------

  const NumClasses := 80

  /**
   * The running (bestCls, bestScore) after looking at classes 0 .. c-1, with a
   * strict `>` and the start value (-1, 0.0).
   */
  datatype Best = Best(cls: int, score: real)

  /** The score of class k in column col: channel 4 + k. */
  function ClassScore(col: seq<real>, k: int): real
    requires |col| == 4 + NumClasses && 0 <= k < NumClasses
  {
    col[4 + k]
  }

  function BestOf(col: seq<real>, c: nat): Best
    requires |col| == 4 + NumClasses && c <= NumClasses
  {
    if c == 0 then Best(-1, 0.0)
    else
      var prev := BestOf(col, c - 1);
      if ClassScore(col, c - 1) > prev.score then Best(c - 1, ClassScore(col, c - 1)) else prev
  }

  /**
   * What the running maximum means: class -1 with score 0 when no score is
   * positive; otherwise the first class holding the maximum score, which is
   * positive.
   */
  lemma {:induction false} BestOfIsFirstStrictMax(col: seq<real>, c: nat)
    requires |col| == 4 + NumClasses && c <= NumClasses
    ensures var b := BestOf(col, c);
      (b.cls == -1 <==> forall k :: 0 <= k < c ==> ClassScore(col, k) <= 0.0) &&
      (b.cls == -1 ==> b.score == 0.0) &&
      (b.cls != -1 ==>
         0 <= b.cls < c && b.score == ClassScore(col, b.cls) && b.score > 0.0 &&
         (forall k :: 0 <= k < c ==> ClassScore(col, k) <= b.score) &&
         (forall k :: 0 <= k < b.cls ==> ClassScore(col, k) < b.score))
  {
    if c > 0 {
      BestOfIsFirstStrictMax(col, c - 1);
      var prev := BestOf(col, c - 1);
      if ClassScore(col, c - 1) > prev.score {
        assert BestOf(col, c) == Best(c - 1, ClassScore(col, c - 1));
      } else {
        assert BestOf(col, c) == prev;
      }
    }
  }

  /** The inner `for (int c = 0; c < 80; c++)` loop. */
  method BestClass(col: seq<real>) returns (bestCls: int, bestScore: real)
    requires |col| == 4 + NumClasses
    ensures Best(bestCls, bestScore) == BestOf(col, NumClasses)
  {
    bestCls := -1;
    bestScore := 0.0;
    var c := 0;
    while c < NumClasses
      invariant 0 <= c <= NumClasses
      invariant Best(bestCls, bestScore) == BestOf(col, c)
    {
      var score := ClassScore(col, c);
      if score > bestScore {
        bestScore := score;
        bestCls := c;
      }
      c := c + 1;
    }
  }

  /** What one column of the YOLOv8 output turns into, if anything. */
  function V8Candidate(col: seq<real>, origW: int, origH: int, scale: real, padX: int, padY: int, conf: real): Option<Candidate>
    requires |col| == 4 + NumClasses
    requires origW >= 1 && origH >= 1 && scale > 0.0
  {
    var best := BestOf(col, NumClasses);
    if !IsVehicleClass(best.cls) then None
    else if best.score < conf then None
    else
      var cx := col[0];
      var cy := col[1];
      var w := col[2];
      var h := col[3];
      var box := ClampedBox(Unletterbox(cx - w / 2.0, padX, scale), Unletterbox(cy - h / 2.0, padY, scale),
                            Unletterbox(cx + w / 2.0, padX, scale), Unletterbox(cy + h / 2.0, padY, scale),
                            origW, origH);
      if box.None? then None else Some(Candidate(box.value, best.cls, best.score))
  }

  predicate WellShapedV8(cols: seq<seq<real>>) {
    forall i :: 0 <= i < |cols| ==> |cols[i]| == 4 + NumClasses
  }

  /** The survivors of the first n columns, in column order. */
  function V8Candidates(cols: seq<seq<real>>, n: nat, origW: int, origH: int, scale: real, padX: int, padY: int, conf: real): (r: seq<Candidate>)
    requires WellShapedV8(cols) && n <= |cols|
    requires origW >= 1 && origH >= 1 && scale > 0.0
    ensures |r| <= n
  {
    if n == 0 then []
    else
      var c := V8Candidate(cols[n - 1], origW, origH, scale, padX, padY, conf);
      V8Candidates(cols, n - 1, origW, origH, scale, padX, padY, conf) + (if c.Some? then [c.value] else [])
  }

  /** dets holds, in order, Detections whose fields are exactly the candidates cs. */
  predicate Holds(dets: seq<Detection>, cs: seq<Candidate>) {
    |dets| == |cs| &&
    forall k :: 0 <= k < |dets| ==>
      dets[k].box == cs[k].box && dets[k].classId == cs[k].classId && dets[k].score == cs[k].score
  }

  /** A detection holding candidate c extends a holding pair. */
  lemma HoldsAppend(dets: seq<Detection>, cs: seq<Candidate>, d: Detection, c: Candidate)
    requires Holds(dets, cs)
    requires d.box == c.box && d.classId == c.classId && d.score == c.score
    ensures Holds(dets + [d], cs + [c])
  {
  }

  /** ParseOutput_1x84x8400. */
  method ParseV8(cols: seq<seq<real>>, origW: int, origH: int, scale: real, padX: int, padY: int, conf: real)
    returns (dets: seq<Detection>)
    requires WellShapedV8(cols)
    requires origW >= 1 && origH >= 1 && scale > 0.0
    ensures Holds(dets, V8Candidates(cols, |cols|, origW, origH, scale, padX, padY, conf))
    ensures forall k :: 0 <= k < |dets| ==> fresh(dets[k]) && dets[k].trackId == -1
    ensures forall a, b :: 0 <= a < b < |dets| ==> dets[a] != dets[b]
  {
    dets := [];
    var i := 0;
    while i < |cols|
      invariant 0 <= i <= |cols|
      invariant Holds(dets, V8Candidates(cols, i, origW, origH, scale, padX, padY, conf))
      invariant forall k :: 0 <= k < |dets| ==> fresh(dets[k]) && dets[k].trackId == -1
      invariant forall a, b :: 0 <= a < b < |dets| ==> dets[a] != dets[b]
    {
      ghost var prev := V8Candidates(cols, i, origW, origH, scale, padX, padY, conf);
      ghost var c := V8Candidate(cols[i], origW, origH, scale, padX, padY, conf);
      assert V8Candidates(cols, i + 1, origW, origH, scale, padX, padY, conf) == prev + (if c.Some? then [c.value] else []);
      var col := cols[i];
      var cx, cy, w, h := col[0], col[1], col[2], col[3];
      var bestCls, bestScore := BestClass(col);
      if IsVehicleClass(bestCls) && bestScore >= conf {
        var x1 := Unletterbox(cx - w / 2.0, padX, scale);
        var y1 := Unletterbox(cy - h / 2.0, padY, scale);
        var x2 := Unletterbox(cx + w / 2.0, padX, scale);
        var y2 := Unletterbox(cy + h / 2.0, padY, scale);
        var box := ClampedBox(x1, y1, x2, y2, origW, origH);
        if box.Some? {
          var d := new Detection(box.value, bestCls, bestScore);
          HoldsAppend(dets, prev, d, c.value);
          dets := dets + [d];
        }
      }
      i := i + 1;
    }
  }

  /**
   * A YOLOv8 survivor has a vehicle class that strictly beat every earlier
   * class and tied or beat every later one, a score at least the confidence
   * threshold, and a box of at least 10x10 inside the frame.
   */
  lemma V8CandidateSound(cols: seq<seq<real>>, origW: int, origH: int, scale: real, padX: int, padY: int, conf: real, k: int)
    requires WellShapedV8(cols)
    requires origW >= 1 && origH >= 1 && scale > 0.0
    requires 0 <= k < |V8Candidates(cols, |cols|, origW, origH, scale, padX, padY, conf)|
    ensures var c := V8Candidates(cols, |cols|, origW, origH, scale, padX, padY, conf)[k];
      IsVehicleClass(c.classId) && c.score >= conf && c.score > 0.0 &&
      c.box.width >= 10 && c.box.height >= 10 &&
      0 <= c.box.x && c.box.Right() <= origW - 1 && 0 <= c.box.y && c.box.Bottom() <= origH - 1 &&
      exists i :: 0 <= i < |cols| &&
        (forall j :: 0 <= j < NumClasses ==> ClassScore(cols[i], j) <= c.score) &&
        (forall j :: 0 <= j < c.classId ==> ClassScore(cols[i], j) < c.score) &&
        ClassScore(cols[i], c.classId) == c.score
  {
    V8CandidatesSound(cols, |cols|, origW, origH, scale, padX, padY, conf, k);
  }

  lemma {:induction false} V8CandidatesSound(cols: seq<seq<real>>, n: nat, origW: int, origH: int, scale: real, padX: int, padY: int, conf: real, k: int)
    requires WellShapedV8(cols) && n <= |cols|
    requires origW >= 1 && origH >= 1 && scale > 0.0
    requires 0 <= k < |V8Candidates(cols, n, origW, origH, scale, padX, padY, conf)|
    ensures var c := V8Candidates(cols, n, origW, origH, scale, padX, padY, conf)[k];
      IsVehicleClass(c.classId) && c.score >= conf && c.score > 0.0 &&
      c.box.width >= 10 && c.box.height >= 10 &&
      0 <= c.box.x && c.box.Right() <= origW - 1 && 0 <= c.box.y && c.box.Bottom() <= origH - 1 &&
      exists i :: 0 <= i < n &&
        (forall j :: 0 <= j < NumClasses ==> ClassScore(cols[i], j) <= c.score) &&
        (forall j :: 0 <= j < c.classId ==> ClassScore(cols[i], j) < c.score) &&
        ClassScore(cols[i], c.classId) == c.score
  {
    var prefix := V8Candidates(cols, n - 1, origW, origH, scale, padX, padY, conf);
    if k < |prefix| {
      V8CandidatesSound(cols, n - 1, origW, origH, scale, padX, padY, conf, k);
    } else {
      var col := cols[n - 1];
      var best := BestOf(col, NumClasses);
      BestOfIsFirstStrictMax(col, NumClasses);
      var cx, cy, w, h := col[0], col[1], col[2], col[3];
      ClampedBoxInFrame(Unletterbox(cx - w / 2.0, padX, scale), Unletterbox(cy - h / 2.0, padY, scale),
                        Unletterbox(cx + w / 2.0, padX, scale), Unletterbox(cy + h / 2.0, padY, scale),
                        origW, origH);
    }
  }

  /** A column whose scores are all non-positive yields nothing, whatever the threshold. */
  lemma V8NonPositiveDropped(col: seq<real>, origW: int, origH: int, scale: real, padX: int, padY: int, conf: real)
    requires |col| == 4 + NumClasses
    requires origW >= 1 && origH >= 1 && scale > 0.0
    requires forall k :: 0 <= k < NumClasses ==> ClassScore(col, k) <= 0.0
    ensures V8Candidate(col, origW, origH, scale, padX, padY, conf) == None
  {
    BestOfIsFirstStrictMax(col, NumClasses);
  }

  // ---------------------------------------------------------------------
  // YOLOP: det_out [1, N, 6]; row i is (x1, y1, x2, y2, score, cls)
  // ---------------------------------------------------------------------

  /** Rows scanned for the normalisation test. */
  const NormScanRows := 200

  predicate WellShapedDet(rows: seq<seq<real>>) {
    forall i :: 0 <= i < |rows| ==> |rows[i]| == 6
  }

  /** The `maxCoord` loop: the maximum of 0 and columns 2 and 3 over the first min(n, 200) rows. */
  method ScanMaxCoord(rows: seq<seq<real>>) returns (maxCoord: real)
    requires WellShapedDet(rows)
    ensures maxCoord >= 0.0
    ensures forall i :: 0 <= i < Min(|rows|, NormScanRows) ==> rows[i][2] <= maxCoord && rows[i][3] <= maxCoord
    ensures maxCoord == 0.0 || exists i :: 0 <= i < Min(|rows|, NormScanRows) && (maxCoord == rows[i][2] || maxCoord == rows[i][3])
  {
    maxCoord := 0.0;
    var i := 0;
    var n := Min(|rows|, NormScanRows);
    while i < n
      invariant 0 <= i <= n
      invariant maxCoord >= 0.0
      invariant forall j :: 0 <= j < i ==> rows[j][2] <= maxCoord && rows[j][3] <= maxCoord
      invariant maxCoord == 0.0 || exists j :: 0 <= j < i && (maxCoord == rows[j][2] || maxCoord == rows[j][3])
    {
      maxCoord := MaxReal(maxCoord, MaxReal(rows[i][2], rows[i][3]));
      i := i + 1;
    }
  }

  /** The coordinates are taken as normalised iff no scanned x2 or y2 exceeds 1.5. */
  predicate Normalized(rows: seq<seq<real>>)
    requires WellShapedDet(rows)
  {
    forall i :: 0 <= i < Min(|rows|, NormScanRows) ==> rows[i][2] <= 1.5 && rows[i][3] <= 1.5
  }

  /** What one row of det_out turns into, if anything. */
  function DetCandidate(row: seq<real>, normalized: bool, origW: int, origH: int, scale: real, padX: int, padY: int, conf: real): Option<Candidate>
    requires |row| == 6
    requires origW >= 1 && origH >= 1 && scale > 0.0
  {
    var score := row[4];
    if score < conf then None
    else
      var f := if normalized then 640.0 else 1.0;
      var box := ClampedBox(Unletterbox(row[0] * f, padX, scale), Unletterbox(row[1] * f, padY, scale),
                            Unletterbox(row[2] * f, padX, scale), Unletterbox(row[3] * f, padY, scale),
                            origW, origH);
      if box.None? then None else Some(Candidate(box.value, TruncToInt(row[5]), score))
  }

  function DetCandidates(rows: seq<seq<real>>, n: nat, normalized: bool, origW: int, origH: int, scale: real, padX: int, padY: int, conf: real): (r: seq<Candidate>)
    requires WellShapedDet(rows) && n <= |rows|
    requires origW >= 1 && origH >= 1 && scale > 0.0
    ensures |r| <= n
  {
    if n == 0 then []
    else
      var c := DetCandidate(rows[n - 1], normalized, origW, origH, scale, padX, padY, conf);
      DetCandidates(rows, n - 1, normalized, origW, origH, scale, padX, padY, conf) + (if c.Some? then [c.value] else [])
  }

  /** ParseDetOut. */
  method ParseDetOut(rows: seq<seq<real>>, origW: int, origH: int, scale: real, padX: int, padY: int, confThres: real)
    returns (list: seq<Detection>)
    requires WellShapedDet(rows)
    requires origW >= 1 && origH >= 1 && scale > 0.0
    ensures Holds(list, DetCandidates(rows, |rows|, Normalized(rows), origW, origH, scale, padX, padY, confThres))
    ensures forall k :: 0 <= k < |list| ==> fresh(list[k]) && list[k].trackId == -1
    ensures forall a, b :: 0 <= a < b < |list| ==> list[a] != list[b]
  {
    var maxCoord := ScanMaxCoord(rows);
    var normalized := maxCoord <= 1.5;
    assert normalized == Normalized(rows);
    list := [];
    var i := 0;
    while i < |rows|
      invariant 0 <= i <= |rows|
      invariant Holds(list, DetCandidates(rows, i, normalized, origW, origH, scale, padX, padY, confThres))
      invariant forall k :: 0 <= k < |list| ==> fresh(list[k]) && list[k].trackId == -1
      invariant forall a, b :: 0 <= a < b < |list| ==> list[a] != list[b]
    {
      ghost var prev := DetCandidates(rows, i, normalized, origW, origH, scale, padX, padY, confThres);
      ghost var c := DetCandidate(rows[i], normalized, origW, origH, scale, padX, padY, confThres);
      assert DetCandidates(rows, i + 1, normalized, origW, origH, scale, padX, padY, confThres) ==
        prev + (if c.Some? then [c.value] else []);
      var x1, y1, x2, y2 := rows[i][0], rows[i][1], rows[i][2], rows[i][3];
      var score := rows[i][4];
      var cls := TruncToInt(rows[i][5]);
      if score >= confThres {
        if normalized {
          x1, y1, x2, y2 := x1 * 640.0, y1 * 640.0, x2 * 640.0, y2 * 640.0;
        }
        var box := ClampedBox(Unletterbox(x1, padX, scale), Unletterbox(y1, padY, scale),
                              Unletterbox(x2, padX, scale), Unletterbox(y2, padY, scale), origW, origH);
        if box.Some? {
          var d := new Detection(box.value, cls, score);
          HoldsAppend(list, prev, d, c.value);
          list := list + [d];
        }
      }
      i := i + 1;
    }
  }

  /** A YOLOP survivor scored at least the threshold and has a box of at least 10x10 inside the frame. */
  lemma {:induction false} DetCandidatesSound(rows: seq<seq<real>>, n: nat, normalized: bool, origW: int, origH: int, scale: real, padX: int, padY: int, conf: real, k: int)
    requires WellShapedDet(rows) && n <= |rows|
    requires origW >= 1 && origH >= 1 && scale > 0.0
    requires 0 <= k < |DetCandidates(rows, n, normalized, origW, origH, scale, padX, padY, conf)|
    ensures var c := DetCandidates(rows, n, normalized, origW, origH, scale, padX, padY, conf)[k];
      c.score >= conf && c.box.width >= 10 && c.box.height >= 10 &&
      0 <= c.box.x && c.box.Right() <= origW - 1 && 0 <= c.box.y && c.box.Bottom() <= origH - 1
  {
    var prefix := DetCandidates(rows, n - 1, normalized, origW, origH, scale, padX, padY, conf);
    if k < |prefix| {
      DetCandidatesSound(rows, n - 1, normalized, origW, origH, scale, padX, padY, conf, k);
    } else {
      var row := rows[n - 1];
      var f := if normalized then 640.0 else 1.0;
      ClampedBoxInFrame(Unletterbox(row[0] * f, padX, scale), Unletterbox(row[1] * f, padY, scale),
                        Unletterbox(row[2] * f, padX, scale), Unletterbox(row[3] * f, padY, scale),
                        origW, origH);
    }
  }

  /** A row scored below the threshold never survives. */
  lemma DetLowScoreDropped(row: seq<real>, normalized: bool, origW: int, origH: int, scale: real, padX: int, padY: int, conf: real)
    requires |row| == 6
    requires origW >= 1 && origH >= 1 && scale > 0.0
    requires row[4] < conf
    ensures DetCandidate(row, normalized, origW, origH, scale, padX, padY, conf) == None
  {
  }

  // ---------------------------------------------------------------------
  // ProbToBinaryMask
  // ---------------------------------------------------------------------

  /** A fresh 0/255 mask of prob's size: 255 exactly where p >= thr. */
  method ProbToBinaryMask(prob: array2<real>, thr: real) returns (mask: array2<int>)
    ensures fresh(mask)
    ensures mask.Length0 == prob.Length0 && mask.Length1 == prob.Length1
    ensures forall y, x :: 0 <= y < mask.Length0 && 0 <= x < mask.Length1 ==>
              mask[y, x] == (if prob[y, x] >= thr then 255 else 0)
  {
    mask := new int[prob.Length0, prob.Length1];
    var y := 0;
    while y < prob.Length0
      invariant 0 <= y <= prob.Length0
      invariant forall y', x :: 0 <= y' < y && 0 <= x < mask.Length1 ==>
                  mask[y', x] == (if prob[y', x] >= thr then 255 else 0)
    {
      var x := 0;
      while x < prob.Length1
        invariant 0 <= x <= prob.Length1
        invariant forall y', x' :: 0 <= y' < y && 0 <= x' < mask.Length1 ==>
                    mask[y', x'] == (if prob[y', x'] >= thr then 255 else 0)
        invariant forall x' :: 0 <= x' < x ==> mask[y, x'] == (if prob[y, x'] >= thr then 255 else 0)
      {
        mask[y, x] := if prob[y, x] >= thr then 255 else 0;
        x := x + 1;
      }
      y := y + 1;
    }
  }
}
