// lane_server.py: process_lane_detection without its OpenCV calls. The lane
// mask (the output of the HLS filter) is given as a grid; the inverse
// perspective transform and cv2.fitLine are uninterpreted function parameters.
// The process-wide `lane_coords_history` list is a field of LaneService.

module LaneServer {
  import opened Numerics

  /** MAX_HISTORY_FRAMES. */
  const MaxHistoryFrames := 5
  /** Fewer nonzero mask pixels than this skip the sliding windows. */
  const MinLanePixels := 100
  const NWindows := 9
  const Margin := 50
  /** minpix: a window recentres only on more pixels than this. */
  const MinPix := 50
  /** A side is fitted only on more collected pixels than this. */
  const MinFitPixels := 100
  const DstOffset: real := 0.2
  /** The eight integers x1, y1, ..., x4, y4 sent back per frame. */
  const CoordCount := 8

  /** A statement that completes with a value or raises (NumPy/OpenCV errors). */
  datatype Outcome<T> = Ok(value: T) | Raises

  /** An entry of cv2.findNonZero: column x, row y. */
  datatype Pixel = Pixel(x: int, y: int)

  /** A float32 point of the perspective transforms, read as reals. */
  datatype PointR = PointR(x: real, y: real)

  /** cv2.fitLine's [vx, vy, x0, y0]: a direction and a point on the line. */
  datatype Line = Line(vx: real, vy: real, x0: real, y0: real)

  /** h rows of w nonnegative values each (a 0/255 mask from cv2.inRange). */
  predicate IsMask(mask: seq<seq<int>>, w: int) {
    w >= 0 && forall y :: 0 <= y < |mask| ==> |mask[y]| == w && forall x :: 0 <= x < w ==> mask[y][x] >= 0
  }

  // ----- cv2.findNonZero -----

  /** The nonzero entries of row y among its first n columns, left to right. */
  function RowNonZero(row: seq<int>, y: int, n: nat): (r: seq<Pixel>)
    requires n <= |row|
    ensures forall a :: 0 <= a < |r| ==> r[a].y == y
  {
    if n == 0 then [] else RowNonZero(row, y, n - 1) + (if row[n - 1] != 0 then [Pixel(n - 1, y)] else [])
  }

  lemma {:induction false} RowNonZeroMembers(row: seq<int>, y: int, n: nat)
    requires n <= |row|
    ensures forall p :: p in RowNonZero(row, y, n) <==> p.y == y && 0 <= p.x < n && row[p.x] != 0
  {
    if n > 0 {
      RowNonZeroMembers(row, y, n - 1);
    }
  }

  /** findNonZero over the first n rows, in row-major order. */
  function NonZeroRows(mask: seq<seq<int>>, n: nat): (r: seq<Pixel>)
    requires n <= |mask|
  {
    if n == 0 then [] else NonZeroRows(mask, n - 1) + RowNonZero(mask[n - 1], n - 1, |mask[n - 1]|)
  }

  lemma {:induction false} NonZeroRowsMembers(mask: seq<seq<int>>, n: nat)
    requires n <= |mask|
    ensures forall p :: p in NonZeroRows(mask, n) <==> 0 <= p.y < n && 0 <= p.x < |mask[p.y]| && mask[p.y][p.x] != 0
  {
    if n > 0 {
      NonZeroRowsMembers(mask, n - 1);
      RowNonZeroMembers(mask[n - 1], n - 1, |mask[n - 1]|);
    }
  }

  /** cv2.findNonZero(mask): exactly the nonzero cells, each with x >= 0. */
  function NonZero(mask: seq<seq<int>>): (r: seq<Pixel>)
    ensures forall p :: p in r <==> 0 <= p.y < |mask| && 0 <= p.x < |mask[p.y]| && mask[p.y][p.x] != 0
    ensures forall a :: 0 <= a < |r| ==> r[a].x >= 0
  {
    NonZeroRowsMembers(mask, |mask|);
    var r := NonZeroRows(mask, |mask|);
    assert forall a :: 0 <= a < |r| ==> r[a] in r;
    r
  }

  /** p comes before q in row-major order: an earlier row, or the same row and a smaller column. */
  predicate RowMajorBefore(p: Pixel, q: Pixel) {
    p.y < q.y || (p.y == q.y && p.x < q.x)
  }

  /** Every entry comes strictly before every later one, row-major. */
  predicate RowMajor(r: seq<Pixel>) {
    forall a, b :: 0 <= a < b < |r| ==> RowMajorBefore(r[a], r[b])
  }

  lemma {:induction false} RowNonZeroOrdered(row: seq<int>, y: int, n: nat)
    requires n <= |row|
    ensures var r := RowNonZero(row, y, n);
      RowMajor(r) && forall a :: 0 <= a < |r| ==> r[a].x < n
  {
    if n > 0 {
      RowNonZeroOrdered(row, y, n - 1);
    }
  }

  lemma {:induction false} NonZeroRowsOrdered(mask: seq<seq<int>>, n: nat)
    requires n <= |mask|
    ensures var r := NonZeroRows(mask, n);
      RowMajor(r) && forall a :: 0 <= a < |r| ==> r[a].y < n
  {
    if n > 0 {
      var prefix := NonZeroRows(mask, n - 1);
      var last := RowNonZero(mask[n - 1], n - 1, |mask[n - 1]|);
      NonZeroRowsOrdered(mask, n - 1);
      RowNonZeroOrdered(mask[n - 1], n - 1, |mask[n - 1]|);
      forall a, b | 0 <= a < |prefix| && 0 <= b < |last|
        ensures RowMajorBefore(prefix[a], last[b])
      {
        assert prefix[a].y < n - 1 && last[b].y == n - 1;
      }
      RowMajorAppend(prefix, last);
    }
  }

  /** Two row-major runs, every entry of the first before every entry of the second, make one run. */
  lemma RowMajorAppend(p: seq<Pixel>, q: seq<Pixel>)
    requires RowMajor(p) && RowMajor(q)
    requires forall a, b :: 0 <= a < |p| && 0 <= b < |q| ==> RowMajorBefore(p[a], q[b])
    ensures RowMajor(p + q)
  {
    var r := p + q;
    forall a, b | 0 <= a < b < |r|
      ensures RowMajorBefore(r[a], r[b])
    {
      if b < |p| {
        assert r[a] == p[a] && r[b] == p[b];
      } else if a < |p| {
        assert r[a] == p[a] && r[b] == q[b - |p|];
      } else {
        assert r[a] == q[a - |p|] && r[b] == q[b - |p|];
      }
    }
  }

  /** cv2.findNonZero scans row by row, left to right: its result is in strict row-major order. */
  lemma NonZeroRowMajor(mask: seq<seq<int>>)
    ensures RowMajor(NonZero(mask))
  {
    NonZeroRowsOrdered(mask, |mask|);
  }

  // ----- histogram over the bottom third and its bases -----

  /** np.sum(mask[from:, x]): the column total over rows from..h-1. */
  function ColumnSum(mask: seq<seq<int>>, w: int, from: int, x: int): (s: int)
    requires IsMask(mask, w) && 0 <= x < w && 0 <= from
    ensures s >= 0
    decreases |mask| - from
  {
    if from >= |mask| then 0 else mask[from][x] + ColumnSum(mask, w, from + 1, x)
  }

  /** `histogram = np.sum(combined_mask[mid_h:, :], axis=0)`. */
  function Histogram(mask: seq<seq<int>>, w: int, from: int): (hist: seq<int>)
    requires IsMask(mask, w) && 0 <= from
    ensures |hist| == w
    ensures forall x :: 0 <= x < w ==> hist[x] == ColumnSum(mask, w, from, x)
  {
    seq(w, x requires 0 <= x < w => ColumnSum(mask, w, from, x))
  }

  /** np.argmax: the first index of the largest value. */
  function FirstArgMax(s: seq<int>): (i: int)
    requires |s| > 0
    ensures 0 <= i < |s|
    ensures forall j :: 0 <= j < |s| ==> s[j] <= s[i]
    ensures forall j :: 0 <= j < i ==> s[j] < s[i]
  {
    if |s| == 1 then 0
    else
      var k := FirstArgMax(s[..|s| - 1]);
      if s[|s| - 1] > s[k] then |s| - 1 else k
  }

  /** Only one index is the first maximum: FirstArgMax is the index the two properties describe. */
  lemma FirstArgMaxUnique(s: seq<int>, i: int)
    requires 0 <= i < |s|
    requires forall j :: 0 <= j < |s| ==> s[j] <= s[i]
    requires forall j :: 0 <= j < i ==> s[j] < s[i]
    ensures FirstArgMax(s) == i
  {
  }

  /**
   * left_x_base and right_x_base: the first maxima of the two halves of the
   * histogram. NumPy raises on the empty left half of a frame one pixel wide.
   */
  function Bases(hist: seq<int>): (r: Outcome<(int, int)>)
    ensures r.Ok? <==> |hist| >= 2
    ensures r.Ok? ==>
      var mid := |hist| / 2;
      0 <= r.value.0 < mid <= r.value.1 < |hist| &&
      (forall j :: 0 <= j < mid ==> hist[j] <= hist[r.value.0]) &&
      (forall j :: 0 <= j < r.value.0 ==> hist[j] < hist[r.value.0]) &&
      (forall j :: mid <= j < |hist| ==> hist[j] <= hist[r.value.1]) &&
      (forall j :: mid <= j < r.value.1 ==> hist[j] < hist[r.value.1])
  {
    var mid := |hist| / 2;
    if mid == 0 then Raises else Ok((FirstArgMax(hist[..mid]), SuffixArgMax(hist, mid)))
  }

  /** `np.argmax(s[from:]) + from`. */
  function SuffixArgMax(s: seq<int>, from: int): (i: int)
    requires 0 <= from < |s|
    ensures from <= i < |s|
    ensures forall j :: from <= j < |s| ==> s[j] <= s[i]
    ensures forall j :: from <= j < i ==> s[j] < s[i]
  {
    var suffix := s[from..];
    var k := FirstArgMax(suffix);
    assert forall j :: from <= j < |s| ==> s[j] == suffix[j - from];
    k + from
  }

  // ----- sliding windows -----

  /** win_y_high of window k (exclusive): windows are h // 9 rows high and stack up from the bottom. */
  function WinHigh(h: int, k: nat): int
  {
    if k == 0 then h else WinHigh(h, k - 1) - h / NWindows
  }

  /** win_y_low of window k: the top of window k is the bottom of window k + 1. */
  function WinLow(h: int, k: nat): int
  {
    WinHigh(h, k + 1)
  }

  /** The closed form the source computes: `h - k * window_height`. */
  lemma {:induction false} WinHighClosed(h: int, k: nat)
    ensures WinHigh(h, k) == h - k * (h / NWindows)
  {
    if k > 0 {
      WinHighClosed(h, k - 1);
      assert k * (h / NWindows) == (k - 1) * (h / NWindows) + h / NWindows;
    }
  }

  /** The nine windows lie inside [0, h), each directly on top of the one before. */
  lemma WindowBand(h: int, k: nat)
    requires h >= 0 && k < NWindows
    ensures 0 <= WinLow(h, k) <= WinHigh(h, k) <= h
  {
    WinHighClosed(h, k);
    WinHighClosed(h, k + 1);
    var wh := h / NWindows;
    MulMonotone(k + 1, NWindows, wh);
    MulMonotone(0, k, wh);
    assert (k + 1) * wh == k * wh + wh;
  }

  /** The window test of one pixel: inside the band and within the margin of the current x. */
  predicate InWindow(p: Pixel, lo: int, hi: int, cur: int) {
    lo <= p.y < hi && cur - Margin <= p.x < cur + Margin
  }

  /** `(...).nonzero()[0]` over the first n pixels: the indices passing the window test, ascending. */
  function Hits(pixels: seq<Pixel>, n: nat, lo: int, hi: int, cur: int): (r: seq<int>)
    requires n <= |pixels|
    ensures forall a :: 0 <= a < |r| ==> 0 <= r[a] < n && InWindow(pixels[r[a]], lo, hi, cur)
    ensures forall a, b :: 0 <= a < b < |r| ==> r[a] < r[b]
    ensures forall i :: 0 <= i < n && InWindow(pixels[i], lo, hi, cur) ==> i in r
  {
    if n == 0 then []
    else
      var r := Hits(pixels, n - 1, lo, hi, cur);
      r + (if InWindow(pixels[n - 1], lo, hi, cur) then [n - 1] else [])
  }

  /** The sum of the x coordinates of the pixels at inds. */
  function SumX(pixels: seq<Pixel>, inds: seq<int>): int
    requires forall a :: 0 <= a < |inds| ==> 0 <= inds[a] < |pixels|
  {
    if inds == [] then 0 else SumX(pixels, inds[..|inds| - 1]) + pixels[inds[|inds| - 1]].x
  }

  /** The next current x: `np.int64(np.mean(...))` of the hits' x when there are more than minpix, else unchanged. */
  function Recentre(pixels: seq<Pixel>, hits: seq<int>, cur: int): int
    requires forall a :: 0 <= a < |hits| ==> 0 <= hits[a] < |pixels|
  {
    if |hits| > MinPix then TruncDiv(SumX(pixels, hits), |hits|) else cur
  }

  /** What one side has collected after k windows, and its current x. */
  datatype Side = Side(inds: seq<int>, cur: int)

  /** One window round for one side: collect window k's hits around the current x, then recentre. */
  function Advance(pixels: seq<Pixel>, h: int, s: Side, k: nat): (r: Side)
    requires forall a :: 0 <= a < |s.inds| ==> 0 <= s.inds[a] < |pixels|
    ensures forall a :: 0 <= a < |r.inds| ==> 0 <= r.inds[a] < |pixels|
  {
    var hits := Hits(pixels, |pixels|, WinLow(h, k), WinHigh(h, k), s.cur);
    Side(s.inds + hits, Recentre(pixels, hits, s.cur))
  }

  /** The specification of one side of the window loop: k rounds from x = base. */
  function Walk(pixels: seq<Pixel>, h: int, base: int, k: nat): (s: Side)
    ensures forall a :: 0 <= a < |s.inds| ==> 0 <= s.inds[a] < |pixels|
  {
    if k == 0 then Side([], base) else Advance(pixels, h, Walk(pixels, h, base, k - 1), k - 1)
  }

  lemma {:induction false} SumXBounds(pixels: seq<Pixel>, inds: seq<int>, lo: int, hi: int)
    requires forall a :: 0 <= a < |inds| ==> 0 <= inds[a] < |pixels| && lo <= pixels[inds[a]].x < hi
    ensures |inds| * lo <= SumX(pixels, inds) && (inds != [] ==> SumX(pixels, inds) < |inds| * hi)
  {
    if inds != [] {
      SumXBounds(pixels, inds[..|inds| - 1], lo, hi);
    }
  }

  lemma MulCancel(a: int, b: int, n: int)
    requires n > 0
    ensures a * n <= b * n ==> a <= b
    ensures a * n < b * n ==> a < b
  {
    if a > b {
      MulMonotone(b + 1, a, n);
      assert (b + 1) * n == b * n + n;
    }
    if a >= b {
      MulMonotone(b, a, n);
    }
  }

  /**
   * A window moves its current x only on more than minpix hits, and then to
   * a value within [cur - margin, cur + margin): the hits' mean stays in the
   * window.
   */
  lemma RecentreWithin(pixels: seq<Pixel>, hits: seq<int>, lo: int, hi: int, cur: int)
    requires forall a :: 0 <= a < |hits| ==> 0 <= hits[a] < |pixels| && InWindow(pixels[hits[a]], lo, hi, cur)
    requires forall a :: 0 <= a < |hits| ==> pixels[hits[a]].x >= 0
    ensures |hits| <= MinPix ==> Recentre(pixels, hits, cur) == cur
    ensures |hits| > MinPix ==> cur - Margin <= Recentre(pixels, hits, cur) < cur + Margin
  {
    if |hits| > MinPix {
      var n := |hits|;
      SumXBounds(pixels, hits, cur - Margin, cur + Margin);
      SumXBounds(pixels, hits, 0, cur + Margin);
      var sum := SumX(pixels, hits);
      var q := TruncDiv(sum, n);
      assert q * n <= sum < q * n + n;
      assert (cur - Margin) * n <= sum && sum < (cur + Margin) * n by {
        assert n * (cur - Margin) == (cur - Margin) * n;
        assert n * (cur + Margin) == (cur + Margin) * n;
      }
      MulCancel(q, cur + Margin, n);
      MulCancel(cur - Margin, q + 1, n);
      assert (q + 1) * n == q * n + n;
    }
  }

  /** No index occurs twice. */
  predicate Distinct(inds: seq<int>) {
    forall a, b :: 0 <= a < b < |inds| ==> inds[a] != inds[b]
  }

  /** Every index names a pixel whose row lies in [lo, hi). */
  predicate RowsIn(pixels: seq<Pixel>, inds: seq<int>, lo: int, hi: int) {
    forall a :: 0 <= a < |inds| ==> 0 <= inds[a] < |pixels| && lo <= pixels[inds[a]].y < hi
  }

  /** Appending one window's hits, all below the earlier rows, to a side's indices keeps them distinct. */
  lemma AppendWindow(pixels: seq<Pixel>, prev: seq<int>, hits: seq<int>, lo: int, hi: int, h: int)
    requires Distinct(prev) && RowsIn(pixels, prev, hi, h)
    requires RowsIn(pixels, hits, lo, hi)
    requires forall a, b :: 0 <= a < b < |hits| ==> hits[a] < hits[b]
    requires lo <= hi <= h
    ensures Distinct(prev + hits) && RowsIn(pixels, prev + hits, lo, h)
  {
    var s := prev + hits;
    forall a, b | 0 <= a < b < |s| ensures s[a] != s[b] {
      if a < |prev| <= b {
        assert pixels[s[a]].y >= hi > pixels[s[b]].y;
      }
    }
  }

  /**
   * Within one side, no pixel index is collected twice, and after k windows
   * every collected pixel lies in rows [WinHigh(h, k), h).
   */
  lemma {:induction false} WalkDistinct(pixels: seq<Pixel>, h: int, base: int, k: nat)
    requires h >= 0 && k <= NWindows
    ensures Distinct(Walk(pixels, h, base, k).inds)
    ensures RowsIn(pixels, Walk(pixels, h, base, k).inds, WinHigh(h, k), h)
  {
    if k > 0 {
      var prev := Walk(pixels, h, base, k - 1);
      var lo, hi := WinLow(h, k - 1), WinHigh(h, k - 1);
      var hits := Hits(pixels, |pixels|, lo, hi, prev.cur);
      assert Walk(pixels, h, base, k).inds == prev.inds + hits;
      WalkDistinct(pixels, h, base, k - 1);
      WindowBand(h, k - 1);
      AppendWindow(pixels, prev.inds, hits, lo, hi, h);
    }
  }

  /** One round of the window loop, with the bounds as the loop computes them, is the next step of Walk. */
  lemma WindowRound(pixels: seq<Pixel>, h: int, base: int, k: nat, lo: int, hi: int, hits: seq<int>, cur: int)
    requires lo == h - (k + 1) * (h / NWindows) && hi == h - k * (h / NWindows)
    requires hits == Hits(pixels, |pixels|, lo, hi, Walk(pixels, h, base, k).cur)
    requires cur == Recentre(pixels, hits, Walk(pixels, h, base, k).cur)
    ensures Side(Walk(pixels, h, base, k).inds + hits, cur) == Walk(pixels, h, base, k + 1)
  {
    WinHighClosed(h, k);
    WinHighClosed(h, k + 1);
  }

  /**
   * The window loop, both sides in one pass as the source runs it: each side
   * collects its hits and recentres, independently of the other.
   */
  method SlidingWindows(pixels: seq<Pixel>, h: int, leftBase: int, rightBase: int)
    returns (leftInds: seq<int>, rightInds: seq<int>)
    ensures leftInds == Walk(pixels, h, leftBase, NWindows).inds
    ensures rightInds == Walk(pixels, h, rightBase, NWindows).inds
  {
    var windowHeight := h / NWindows;
    var leftCur, rightCur := leftBase, rightBase;
    leftInds, rightInds := [], [];
    var window := 0;
    while window < NWindows
      invariant 0 <= window <= NWindows
      invariant Side(leftInds, leftCur) == Walk(pixels, h, leftBase, window)
      invariant Side(rightInds, rightCur) == Walk(pixels, h, rightBase, window)
    {
      var winYLow := h - (window + 1) * windowHeight;
      var winYHigh := h - window * windowHeight;
      leftInds, leftCur := WindowStep(pixels, h, leftBase, window, winYLow, winYHigh, leftInds, leftCur);
      rightInds, rightCur := WindowStep(pixels, h, rightBase, window, winYLow, winYHigh, rightInds, rightCur);
      window := window + 1;
    }
  }

  /** One side's part of a window round: collect the hits around the current x, then recentre on more than 50. */
  method WindowStep(pixels: seq<Pixel>, h: int, base: int, window: nat, winYLow: int, winYHigh: int,
                    inds: seq<int>, cur: int) returns (inds': seq<int>, cur': int)
    requires winYLow == h - (window + 1) * (h / NWindows) && winYHigh == h - window * (h / NWindows)
    requires Side(inds, cur) == Walk(pixels, h, base, window)
    ensures Side(inds', cur') == Walk(pixels, h, base, window + 1)
  {
    var good := Hits(pixels, |pixels|, winYLow, winYHigh, cur);
    ghost var next := Recentre(pixels, good, cur);
    cur' := cur;
    if |good| > MinPix {
      cur' := TruncDiv(SumX(pixels, good), |good|);
    }
    WindowRound(pixels, h, base, window, winYLow, winYHigh, good, next);
    inds' := inds + good;
  }

  /** `all_x[inds], all_y[inds]` as (x, y) points. */
  function Select(pixels: seq<Pixel>, inds: seq<int>): (r: seq<Pixel>)
    requires forall a :: 0 <= a < |inds| ==> 0 <= inds[a] < |pixels|
    ensures |r| == |inds| && forall a :: 0 <= a < |inds| ==> r[a] == pixels[inds[a]]
  {
    seq(|inds|, a requires 0 <= a < |inds| => pixels[inds[a]])
  }

  // ----- line fit and corners -----

  /** A lane side's x at the bottom (y = h) and at the top (y = 0) of the warped frame. */
  datatype Edge = Edge(bottomX: int, topX: int)

  /**
   * Step 5 for one side: a fitted line through more than 100 points, read at
   * y = h and y = 0; otherwise the vertical line at fallbackX. int() of the
   * infinite quotient of a horizontal fit raises.
   */
  function FitSide(points: seq<Pixel>, fit: seq<Pixel> -> Line, h: int, fallbackX: int): (r: Outcome<Edge>)
    ensures |points| <= MinFitPixels ==> r == Ok(Edge(fallbackX, fallbackX))
    ensures r.Raises? ==> |points| > MinFitPixels && fit(points).vy == 0.0
  {
    if |points| > MinFitPixels then
      var l := fit(points);
      if l.vy == 0.0 then Raises
      else Ok(Edge(TruncToInt(l.x0 + (h as real - l.y0) * l.vx / l.vy),
                   TruncToInt(l.x0 + (0.0 - l.y0) * l.vx / l.vy)))
    else Ok(Edge(fallbackX, fallbackX))
  }

  /** The four corners of a lane quadrilateral, by name. */
  datatype Quad = Quad(lb: PointR, lt: PointR, rt: PointR, rb: PointR)

  /** `lane_polygon`: the corners in the order (LB, LT, RT, RB). */
  function Polygon(q: Quad): (r: seq<PointR>)
    ensures |r| == 4 && r[0] == q.lb && r[1] == q.lt && r[2] == q.rt && r[3] == q.rb
  {
    [q.lb, q.lt, q.rt, q.rb]
  }

  /** The two fitted sides as a quadrilateral in the warped frame. */
  function SidesQuad(left: Edge, right: Edge, h: int): (q: Quad)
    ensures q.lb.y == h as real && q.rb.y == h as real && q.lt.y == 0.0 && q.rt.y == 0.0
    ensures q.lb.x == left.bottomX as real && q.lt.x == left.topX as real
    ensures q.rt.x == right.topX as real && q.rb.x == right.bottomX as real
  {
    Quad(PointR(left.bottomX as real, h as real), PointR(left.topX as real, 0.0),
         PointR(right.topX as real, 0.0), PointR(right.bottomX as real, h as real))
  }

  /** `dst_points`, in the order the source lists them: (LT, RT, RB, LB). */
  function DstPoints(w: int, h: int): (r: seq<PointR>)
    ensures |r| == 4
  {
    [PointR(w as real * DstOffset, 0.0), PointR(w as real * (1.0 - DstOffset), 0.0),
     PointR(w as real * (1.0 - DstOffset), h as real), PointR(w as real * DstOffset, h as real)]
  }

  /** The destination rectangle as a named quadrilateral. */
  function DstQuad(w: int, h: int): (q: Quad)
    ensures [q.lt, q.rt, q.rb, q.lb] == DstPoints(w, h)
  {
    Quad(PointR(w as real * DstOffset, h as real), PointR(w as real * DstOffset, 0.0),
         PointR(w as real * (1.0 - DstOffset), 0.0), PointR(w as real * (1.0 - DstOffset), h as real))
  }

  /** cv2.perspectiveTransform with the inverse matrix, point by point. */
  function Unwarp(unwarp: PointR -> PointR, ps: seq<PointR>): (r: seq<PointR>)
    ensures |r| == |ps| && forall a :: 0 <= a < |ps| ==> r[a] == unwarp(ps[a])
  {
    seq(|ps|, a requires 0 <= a < |ps| => unwarp(ps[a]))
  }

  /** The points as x, y integers in turn, each cast with int(). */
  function Flatten(ps: seq<PointR>): (r: seq<int>)
    ensures |r| == 2 * |ps|
    ensures forall a :: 0 <= a < |ps| ==> r[2 * a] == TruncToInt(ps[a].x) && r[2 * a + 1] == TruncToInt(ps[a].y)
  {
    if ps == [] then [] else [TruncToInt(ps[0].x), TruncToInt(ps[0].y)] + Flatten(ps[1..])
  }

  /** Step 7: `current_coords_list`, taking the unwarped points at positions 1, 2, 3, 0. */
  function Emit(u: seq<PointR>): (r: seq<int>)
    requires |u| == 4
    ensures |r| == CoordCount
  {
    Flatten([u[1], u[2], u[3], u[0]])
  }

  /** A quadrilateral given in the (LB, LT, RT, RB) order comes out as LT, RT, RB, LB. */
  lemma EmitPolygon(unwarp: PointR -> PointR, q: Quad)
    ensures Emit(Unwarp(unwarp, Polygon(q))) == Flatten([unwarp(q.lt), unwarp(q.rt), unwarp(q.rb), unwarp(q.lb)])
  {
  }

  // ----- one frame -----

  /**
   * Steps 3 to 7 after the histogram: the windows, the fits and the corners,
   * from the bases; the corners are emitted in the order LT, RT, RB, LB.
   */
  function FittedCoords(pixels: seq<Pixel>, h: int, w: int, bases: (int, int),
                        unwarp: PointR -> PointR, fit: seq<Pixel> -> Line): (r: Outcome<seq<int>>)
    ensures r.Ok? ==> |r.value| == CoordCount
  {
    var leftPts := Select(pixels, Walk(pixels, h, bases.0, NWindows).inds);
    var rightPts := Select(pixels, Walk(pixels, h, bases.1, NWindows).inds);
    var left := FitSide(leftPts, fit, h, TruncToInt(w as real * DstOffset));
    var right := FitSide(rightPts, fit, h, TruncToInt(w as real * (1.0 - DstOffset)));
    if left.Raises? || right.Raises? then Raises
    else Ok(Emit(Unwarp(unwarp, Polygon(SidesQuad(left.value, right.value, h)))))
  }

  /**
   * process_lane_detection up to the smoothing, AS WRITTEN: the fallback
   * unwarps dst_points, listed (LT, RT, RB, LB), but the emission reads its
   * input as (LB, LT, RT, RB).
   */
  function FrameCoordsAsWritten(mask: seq<seq<int>>, w: int, unwarp: PointR -> PointR,
                                fit: seq<Pixel> -> Line): (r: Outcome<seq<int>>)
    requires IsMask(mask, w)
    ensures r.Ok? ==> |r.value| == CoordCount
    ensures |NonZero(mask)| >= MinLanePixels ==> r == FrameCoords(mask, w, unwarp, fit)
  {
    var h := |mask|;
    var pixels := NonZero(mask);
    if |pixels| < MinLanePixels then Ok(Emit(Unwarp(unwarp, DstPoints(w, h))))
    else
      var bases := Bases(Histogram(mask, w, h * 2 / 3));
      if bases.Raises? then Raises else FittedCoords(pixels, h, w, bases.value, unwarp, fit)
  }

  /**
   * process_lane_detection up to the smoothing, with the fallback rectangle
   * handed to the emission in the (LB, LT, RT, RB) order it expects.
   */
  function FrameCoords(mask: seq<seq<int>>, w: int, unwarp: PointR -> PointR,
                       fit: seq<Pixel> -> Line): (r: Outcome<seq<int>>)
    requires IsMask(mask, w)
    ensures r.Ok? ==> |r.value| == CoordCount
  {
    var h := |mask|;
    var pixels := NonZero(mask);
    if |pixels| < MinLanePixels then Ok(Emit(Unwarp(unwarp, Polygon(DstQuad(w, h)))))
    else
      var bases := Bases(Histogram(mask, w, h * 2 / 3));
      if bases.Raises? then Raises else FittedCoords(pixels, h, w, bases.value, unwarp, fit)
  }

  /** With too few lane pixels the as-written output starts at the right top corner: the rectangle comes out rotated. */
  lemma FallbackRotatedAsWritten(mask: seq<seq<int>>, w: int, unwarp: PointR -> PointR, fit: seq<Pixel> -> Line)
    requires IsMask(mask, w) && |NonZero(mask)| < MinLanePixels
    ensures var q := DstQuad(w, |mask|);
      FrameCoordsAsWritten(mask, w, unwarp, fit) ==
      Ok(Flatten([unwarp(q.rt), unwarp(q.rb), unwarp(q.lb), unwarp(q.lt)]))
  {
  }

  /** An empty 100 x 100 mask with the identity transform: the as-written first x is 80, the left top corner's is 20. */
  lemma FallbackCounterexample()
    ensures var mask := seq(100, y => seq(100, x => 0));
      IsMask(mask, 100) &&
      FrameCoordsAsWritten(mask, 100, p => p, pts => Line(0.0, 1.0, 0.0, 0.0)).value[0] == 80 &&
      FrameCoords(mask, 100, p => p, pts => Line(0.0, 1.0, 0.0, 0.0)).value[0] == 20
  {
    var mask := seq(100, y => seq(100, x => 0));
    BlankMask(mask, |mask|);
  }

  /** A mask without a nonzero cell has no lane pixels. */
  lemma {:induction false} BlankMask(mask: seq<seq<int>>, n: nat)
    requires n <= |mask| && forall y, x :: 0 <= y < |mask| && 0 <= x < |mask[y]| ==> mask[y][x] == 0
    ensures NonZeroRows(mask, n) == []
  {
    if n > 0 {
      BlankMask(mask, n - 1);
      BlankRow(mask[n - 1], n - 1, |mask[n - 1]|);
    }
  }

  lemma {:induction false} BlankRow(row: seq<int>, y: int, n: nat)
    requires n <= |row| && forall x :: 0 <= x < |row| ==> row[x] == 0
    ensures RowNonZero(row, y, n) == []
  {
    if n > 0 {
      BlankRow(row, y, n - 1);
    }
  }

  /**
   * With too few lane pixels the frame's corners are the unwarped destination
   * rectangle, emitted as LT, RT, RB, LB.
   */
  lemma FallbackCorners(mask: seq<seq<int>>, w: int, unwarp: PointR -> PointR, fit: seq<Pixel> -> Line)
    requires IsMask(mask, w) && |NonZero(mask)| < MinLanePixels
    ensures var h := |mask| as real;
      FrameCoords(mask, w, unwarp, fit) ==
      Ok(Flatten([unwarp(PointR(w as real * DstOffset, 0.0)), unwarp(PointR(w as real * (1.0 - DstOffset), 0.0)),
                  unwarp(PointR(w as real * (1.0 - DstOffset), h)), unwarp(PointR(w as real * DstOffset, h))]))
  {
    EmitPolygon(unwarp, DstQuad(w, |mask|));
  }

  /**
   * With enough lane pixels, a side that collected at most 100 of them is the
   * vertical line at int(w * 0.2) (left) or int(w * 0.8) (right), from y = h
   * to y = 0; the corners come out as LT, RT, RB, LB.
   */
  lemma FittedCorners(pixels: seq<Pixel>, h: int, w: int, bases: (int, int),
                      unwarp: PointR -> PointR, fit: seq<Pixel> -> Line)
    ensures var leftPts := Select(pixels, Walk(pixels, h, bases.0, NWindows).inds);
      var rightPts := Select(pixels, Walk(pixels, h, bases.1, NWindows).inds);
      var lx := TruncToInt(w as real * DstOffset);
      var rx := TruncToInt(w as real * (1.0 - DstOffset));
      (|leftPts| <= MinFitPixels && |rightPts| <= MinFitPixels ==>
        FittedCoords(pixels, h, w, bases, unwarp, fit) ==
        Ok(Flatten([unwarp(PointR(lx as real, 0.0)), unwarp(PointR(rx as real, 0.0)),
                    unwarp(PointR(rx as real, h as real)), unwarp(PointR(lx as real, h as real))])))
  {
    var leftPts := Select(pixels, Walk(pixels, h, bases.0, NWindows).inds);
    var rightPts := Select(pixels, Walk(pixels, h, bases.1, NWindows).inds);
    var lx := TruncToInt(w as real * DstOffset);
    var rx := TruncToInt(w as real * (1.0 - DstOffset));
    if |leftPts| <= MinFitPixels && |rightPts| <= MinFitPixels {
      EmitPolygon(unwarp, SidesQuad(Edge(lx, lx), Edge(rx, rx), h));
    }
  }

  /**
   * The frame computation as the source runs it, the window loop and the
   * rotated fallback included.
   */
  method ComputeFrameCoords(mask: seq<seq<int>>, w: int, unwarp: PointR -> PointR, fit: seq<Pixel> -> Line)
    returns (r: Outcome<seq<int>>)
    requires IsMask(mask, w)
    ensures r == FrameCoordsAsWritten(mask, w, unwarp, fit)
  {
    var h := |mask|;
    var pixels := NonZero(mask);
    if |pixels| < MinLanePixels {
      return Ok(Emit(Unwarp(unwarp, DstPoints(w, h))));
    }
    var histogram := Histogram(mask, w, h * 2 / 3);
    var bases := Bases(histogram);
    if bases.Raises? {
      return Raises;
    }
    var leftInds, rightInds := SlidingWindows(pixels, h, bases.value.0, bases.value.1);
    var left := FitSide(Select(pixels, leftInds), fit, h, TruncToInt(w as real * DstOffset));
    var right := FitSide(Select(pixels, rightInds), fit, h, TruncToInt(w as real * (1.0 - DstOffset)));
    if left.Raises? || right.Raises? {
      return Raises;
    }
    r := Ok(Emit(Unwarp(unwarp, Polygon(SidesQuad(left.value, right.value, h)))));
  }

  // ----- smoothing history -----

  /** The j-th coordinates of all entries added up. */
  function ColumnTotal(entries: seq<seq<int>>, j: int): int
    requires forall e :: e in entries ==> 0 <= j < |e|
  {
    if entries == [] then 0
    else
      assert entries[|entries| - 1] in entries;
      ColumnTotal(entries[..|entries| - 1], j) + entries[|entries| - 1][j]
  }

  /** `np.mean(history, axis=0).astype(int)`: the element-wise mean, truncated toward zero. */
  function Average(entries: seq<seq<int>>): (r: seq<int>)
    requires |entries| > 0 && forall a :: 0 <= a < |entries| ==> |entries[a]| == |entries[0]|
    ensures |r| == |entries[0]|
  {
    seq(|entries[0]|, j requires 0 <= j < |entries[0]| => TruncDiv(ColumnTotal(entries, j), |entries|))
  }

  lemma {:induction false} ColumnTotalBounds(entries: seq<seq<int>>, j: int, lo: int, hi: int)
    requires forall a :: 0 <= a < |entries| ==> 0 <= j < |entries[a]| && lo <= entries[a][j] <= hi
    ensures |entries| * lo <= ColumnTotal(entries, j) <= |entries| * hi
  {
    if entries != [] {
      ColumnTotalBounds(entries[..|entries| - 1], j, lo, hi);
    }
  }

  /** Every averaged coordinate lies between the smallest and the largest entry's value there. */
  lemma AverageBounded(entries: seq<seq<int>>, j: int, lo: int, hi: int)
    requires |entries| > 0 && forall a :: 0 <= a < |entries| ==> |entries[a]| == |entries[0]|
    requires 0 <= j < |entries[0]|
    requires forall a :: 0 <= a < |entries| ==> lo <= entries[a][j] <= hi
    ensures lo <= Average(entries)[j] <= hi
  {
    var n := |entries|;
    var t := ColumnTotal(entries, j);
    ColumnTotalBounds(entries, j, lo, hi);
    assert n * lo == lo * n && n * hi == hi * n;
    var q := TruncDiv(t, n);
    assert (q + 1) * n == q * n + n && (q - 1) * n == q * n - n;
    if t >= 0 {
      MulCancel(q, hi, n);
      MulCancel(lo, q + 1, n);
    } else {
      MulCancel(q - 1, hi, n);
      MulCancel(lo, q, n);
    }
  }

  /** A history holding one vector only, however often, averages to that vector. */
  lemma AverageOfConstant(entries: seq<seq<int>>, v: seq<int>)
    requires |entries| > 0 && forall a :: 0 <= a < |entries| ==> entries[a] == v
    ensures Average(entries) == v
  {
    forall j | 0 <= j < |v| ensures Average(entries)[j] == v[j] {
      ColumnTotalBounds(entries, j, v[j], v[j]);
      assert |entries| * v[j] == v[j] * |entries|;
      TruncDivOfMultiple(v[j], |entries|);
    }
  }

  /**
   * The history after one append and the `pop(0)` when it holds more than
   * MAX_HISTORY_FRAMES: never more than five entries, the new one last, and
   * the oldest dropped exactly when a sixth would be held.
   */
  function Pushed(history: seq<seq<int>>, coords: seq<int>): (r: seq<seq<int>>)
    ensures |history| <= MaxHistoryFrames ==> 1 <= |r| <= MaxHistoryFrames
    ensures r != [] && r[|r| - 1] == coords
    ensures |history| < MaxHistoryFrames ==> r == history + [coords]
    ensures |history| == MaxHistoryFrames ==> r == history[1..] + [coords]
    ensures forall e :: e in r ==> e in history || e == coords
  {
    var appended := history + [coords];
    if |appended| > MaxHistoryFrames then appended[1..] else appended
  }

  /** The process-wide state of the lane server. */
  class LaneService {
    var history: seq<seq<int>>

    /** The history is within its cap and holds eight coordinates per entry. */
    predicate Valid()
      reads this
    {
      |history| <= MaxHistoryFrames && forall a :: 0 <= a < |history| ==> |history[a]| == CoordCount
    }

    constructor ()
      ensures history == [] && Valid()
    {
      history := [];
    }

    /** Step 8: record this frame's coordinates and return the smoothed ones. */
    method Smooth(coords: seq<int>) returns (avg: seq<int>)
      requires Valid() && |coords| == CoordCount
      modifies this
      ensures Valid()
      ensures history == Pushed(old(history), coords)
      ensures avg == Average(history)
    {
      history := history + [coords];
      if |history| > MaxHistoryFrames {
        history := history[1..];
      }
      if |history| > 0 {
        avg := Average(history);
      } else {
        avg := coords;
      }
    }

    /**
     * process_lane_detection on a decoded frame's lane mask: the frame's
     * coordinates as the source computes them (the fallback rectangle comes
     * out rotated), then the smoothing. A raising frame leaves the history
     * as it was.
     */
    method ProcessLaneDetection(mask: seq<seq<int>>, w: int, unwarp: PointR -> PointR, fit: seq<Pixel> -> Line)
      returns (r: Outcome<seq<int>>)
      requires Valid() && IsMask(mask, w)
      modifies this
      ensures Valid()
      ensures r.Raises? <==> FrameCoordsAsWritten(mask, w, unwarp, fit).Raises?
      ensures r.Raises? ==> history == old(history)
      ensures r.Ok? ==> history == Pushed(old(history), FrameCoordsAsWritten(mask, w, unwarp, fit).value) &&
                        r.value == Average(history)
    {
      var coords := ComputeFrameCoords(mask, w, unwarp, fit);
      if coords.Raises? {
        return Raises;
      }
      var avg := Smooth(coords.value);
      r := Ok(avg);
    }
  }

  /** A steady frame sequence: once the history holds only v, the output is v. */
  lemma SteadyOutput(history: seq<seq<int>>, v: seq<int>)
    requires |v| == CoordCount && |history| <= MaxHistoryFrames
    requires forall a :: 0 <= a < |history| ==> history[a] == v
    ensures Average(Pushed(history, v)) == v
  {
    var r := Pushed(history, v);
    forall a | 0 <= a < |r| ensures r[a] == v {
      assert r[a] in r;
    }
    AverageOfConstant(r, v);
  }
}
