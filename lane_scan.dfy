// WpfApp1/Script/LaneAnalyzer.cs, the scanning helpers: MakeOdd, the column
// count over an 8-bit mask, the two corridor scans and the peak picker.
// A Mat is a sequence of rows of bytes; a missing (null) Mat is None.

module LaneScan {
  import opened Numerics
  import opened Sorting

  datatype Option<T> = None | Some(value: T)

  /** One pixel of a single-channel 8-bit Mat. */
  type Byte = b: int | 0 <= b < 256

  /** A Mat whose rows are all w bytes wide. */
  predicate IsGrid(g: seq<seq<Byte>>, w: int) {
    forall y :: 0 <= y < |g| ==> |g[y]| == w
  }

  /** The kernel size fix-up: 0 for a non-positive k, otherwise the least odd number not below k. */
  function MakeOdd(k: int): (r: int)
    ensures k <= 0 ==> r == 0
    ensures k > 0 ==> r % 2 == 1 && k <= r <= k + 1
  {
    if k <= 0 then 0 else if k % 2 == 1 then k else k + 1
  }

  /** No odd number at or above k lies below MakeOdd(k), and an odd size is kept. */
  lemma MakeOddLeast(k: int, m: int)
    requires k > 0 && m >= k && m % 2 == 1
    ensures MakeOdd(k) <= m
    ensures MakeOdd(m) == m
  {
  }

  // ----- column counts -----

  /** How many of the first n rows have a nonzero byte in column x. */
  function ColumnCount(g: seq<seq<Byte>>, w: int, x: int, n: nat): (c: int)
    requires IsGrid(g, w) && 0 <= x < w && n <= |g|
    ensures 0 <= c <= n
  {
    if n == 0 then 0 else ColumnCount(g, w, x, n - 1) + (if g[n - 1][x] > 0 then 1 else 0)
  }

  /** A column count grows by one exactly over a row that is nonzero there. */
  lemma ColumnCountStep(g: seq<seq<Byte>>, w: int, x: int, n: nat)
    requires IsGrid(g, w) && 0 <= x < w && n < |g|
    ensures ColumnCount(g, w, x, n + 1) == ColumnCount(g, w, x, n) + 1 <==> g[n][x] != 0
    ensures ColumnCount(g, w, x, n + 1) == ColumnCount(g, w, x, n) <==> g[n][x] == 0
  {
  }

  /** ReduceColumnSumToInt: entry x counts the rows whose byte in column x is nonzero. */
  method ReduceColumnSumToInt(g: seq<seq<Byte>>, w: nat) returns (sum: seq<int>)
    requires IsGrid(g, w)
    ensures |sum| == w
    ensures forall x :: 0 <= x < w ==> sum[x] == ColumnCount(g, w, x, |g|) && 0 <= sum[x] <= |g|
  {
    var acc := new int[w](_ => 0);
    var y := 0;
    while y < |g|
      invariant 0 <= y <= |g|
      invariant forall i :: 0 <= i < w ==> acc[i] == ColumnCount(g, w, i, y)
    {
      var row := g[y];
      var x := 0;
      while x < w
        invariant 0 <= x <= w
        invariant forall i :: 0 <= i < x ==> acc[i] == ColumnCount(g, w, i, y + 1)
        invariant forall i :: x <= i < w ==> acc[i] == ColumnCount(g, w, i, y)
      {
        acc[x] := acc[x] + (if row[x] > 0 then 1 else 0);
        x := x + 1;
      }
      y := y + 1;
    }
    sum := acc[..];
  }

  // ----- corridor scans -----

  /** The first index from i on whose value is at least thr, or |s| when there is none. */
  function FirstAtLeast(s: seq<int>, thr: int, i: nat): (r: int)
    requires i <= |s|
    decreases |s| - i
    ensures i <= r <= |s|
  {
    if i == |s| || s[i] >= thr then i else FirstAtLeast(s, thr, i + 1)
  }

  /** FirstAtLeast stops at the first index reaching thr: everything it passes is below thr. */
  lemma {:induction false} FirstAtLeastIsFirst(s: seq<int>, thr: int, i: nat)
    requires i <= |s|
    decreases |s| - i
    ensures var r := FirstAtLeast(s, thr, i);
      (forall j :: i <= j < r ==> s[j] < thr) && (r < |s| ==> s[r] >= thr)
  {
    if i < |s| && s[i] < thr {
      FirstAtLeastIsFirst(s, thr, i + 1);
    }
  }

  /** The last index from i down whose value is at least thr, or -1 when there is none. */
  function LastAtLeast(s: seq<int>, thr: int, i: int): (r: int)
    requires -1 <= i < |s|
    decreases i + 1
    ensures -1 <= r <= i
  {
    if i < 0 || s[i] >= thr then i else LastAtLeast(s, thr, i - 1)
  }

  /** LastAtLeast stops at the last index reaching thr: everything it passes is below thr. */
  lemma {:induction false} LastAtLeastIsLast(s: seq<int>, thr: int, i: int)
    requires -1 <= i < |s|
    decreases i + 1
    ensures var r := LastAtLeast(s, thr, i);
      (forall j :: r < j <= i ==> s[j] < thr) && (r >= 0 ==> s[r] >= thr)
  {
    if i >= 0 && s[i] < thr {
      LastAtLeastIsLast(s, thr, i - 1);
    }
  }

  /**
   * A corridor either is the whole width or spans, from its first to its last
   * column reaching thr, at least a quarter of the width, with every column
   * outside it below thr.
   */
  predicate CorridorShape(s: seq<int>, thr: int, c: (int, int)) {
    c == (0, |s| - 1) ||
    (0 <= c.0 <= c.1 < |s| && s[c.0] >= thr && s[c.1] >= thr &&
     (c.1 - c.0) as real >= |s| as real * 0.25 &&
     (forall j :: 0 <= j < |s| && (j < c.0 || c.1 < j) ==> s[j] < thr))
  }

  /** The corridor threshold of a band of bandH rows: max(3, bandH / 20). */
  function CorridorThreshold(bandH: int): int {
    Max(3, TruncDiv(bandH, 20))
  }

  /**
   * GetCorridorFromHist's result: the first and last columns reaching the
   * threshold, unless they are less than a quarter of the width apart (or
   * there are none), in which case the whole width.
   */
  function HistCorridor(hist: seq<int>, bandH: int): (c: (int, int))
    ensures CorridorShape(hist, CorridorThreshold(bandH), c)
  {
    var thr := CorridorThreshold(bandH);
    var l, r := FirstAtLeast(hist, thr, 0), LastAtLeast(hist, thr, |hist| - 1);
    FirstAtLeastIsFirst(hist, thr, 0);
    LastAtLeastIsLast(hist, thr, |hist| - 1);
    if (r - l) as real < |hist| as real * 0.25 then (0, |hist| - 1) else (l, r)
  }

  /** The fallback is taken exactly when the threshold span is short; otherwise the span is the result. */
  lemma HistCorridorChoice(hist: seq<int>, bandH: int)
    ensures var thr := CorridorThreshold(bandH);
      var l, r := FirstAtLeast(hist, thr, 0), LastAtLeast(hist, thr, |hist| - 1);
      ((r - l) as real >= |hist| as real * 0.25 ==> HistCorridor(hist, bandH) == (l, r)) &&
      (HistCorridor(hist, bandH) != (0, |hist| - 1) ==> (r - l) as real >= |hist| as real * 0.25)
  {
  }

  method GetCorridorFromHist(hist: seq<int>, bandH: int) returns (left: int, right: int)
    ensures (left, right) == HistCorridor(hist, bandH)
  {
    var w := |hist|;
    var thr := Max(3, TruncDiv(bandH, 20));
    left := 0;
    while left < w && hist[left] < thr
      invariant 0 <= left <= w
      invariant FirstAtLeast(hist, thr, left) == FirstAtLeast(hist, thr, 0)
    {
      left := left + 1;
    }
    right := w - 1;
    while right >= 0 && hist[right] < thr
      invariant -1 <= right < w
      invariant LastAtLeast(hist, thr, right) == LastAtLeast(hist, thr, w - 1)
    {
      right := right - 1;
    }
    if (right - left) as real < w as real * 0.25 {
      left, right := 0, w - 1;
    }
  }

  /**
   * GetCorridorLRAtRow's result: the whole width for a missing or empty mask;
   * otherwise the first and last nonzero bytes of row yRef (clamped into the
   * mask) when they are at least a quarter of the width apart.
   */
  function RowCorridor(drive: Option<seq<seq<Byte>>>, yRef: int, w: int): (c: (int, int))
    requires drive.Some? ==> IsGrid(drive.value, w)
    ensures drive.Some? && |drive.value| > 0 && w > 0 ==>
      CorridorShape(drive.value[Clamp(yRef, 0, |drive.value| - 1)], 1, c)
    ensures drive.None? || |drive.value| == 0 || w <= 0 ==> c == (0, w - 1)
  {
    if drive.None? || |drive.value| == 0 || w <= 0 then (0, w - 1)
    else
      var row := drive.value[Clamp(yRef, 0, |drive.value| - 1)];
      var l, r := FirstAtLeast(row, 1, 0), LastAtLeast(row, 1, w - 1);
      FirstAtLeastIsFirst(row, 1, 0);
      LastAtLeastIsLast(row, 1, w - 1);
      if (r - l) as real >= w as real * 0.25 then (l, r) else (0, w - 1)
  }

  method GetCorridorLRAtRow(drive: Option<seq<seq<Byte>>>, yRef: int, w: int) returns (left: int, right: int)
    requires drive.Some? ==> IsGrid(drive.value, w)
    ensures (left, right) == RowCorridor(drive, yRef, w)
  {
    left, right := 0, w - 1;
    if drive.None? || |drive.value| == 0 || w <= 0 {
      return;
    }
    var g := drive.value;
    var y := Clamp(yRef, 0, |g| - 1);
    var row := g[y];
    var l := 0;
    while l < w && row[l] == 0
      invariant 0 <= l <= w
      invariant FirstAtLeast(row, 1, l) == FirstAtLeast(row, 1, 0)
    {
      l := l + 1;
    }
    var r := w - 1;
    while r >= 0 && row[r] == 0
      invariant -1 <= r < w
      invariant LastAtLeast(row, 1, r) == LastAtLeast(row, 1, w - 1)
    {
      r := r - 1;
    }
    if (r - l) as real >= w as real * 0.25 {
      left, right := l, r;
    }
  }

  // ----- peaks -----

  /** A candidate column and its histogram value. */
  datatype Peak = Peak(x: int, v: int)

  /** The peak test at column x: positive and not below either neighbour. */
  predicate IsPeak(hist: seq<int>, x: int)
    requires 1 <= x < |hist| - 1
  {
    hist[x] > 0 && hist[x] >= hist[x - 1] && hist[x] >= hist[x + 1]
  }

  /** The candidates the scan finds among columns [first, stop), left to right. */
  function LocalMaxima(hist: seq<int>, first: int, stop: int): (r: seq<Peak>)
    requires 1 <= first && stop <= |hist| - 1
    decreases stop - first
    ensures |r| <= Max(0, stop - first)
  {
    if stop <= first then []
    else LocalMaxima(hist, first, stop - 1) + (if IsPeak(hist, stop - 1) then [Peak(stop - 1, hist[stop - 1])] else [])
  }

  /** The candidates are exactly the columns of [first, stop) passing the peak test, each with its value. */
  lemma {:induction false} LocalMaximaExact(hist: seq<int>, first: int, stop: int)
    requires 1 <= first && stop <= |hist| - 1
    decreases stop - first
    ensures forall c :: c in LocalMaxima(hist, first, stop) ==> first <= c.x < stop && IsPeak(hist, c.x) && c.v == hist[c.x]
    ensures forall y :: first <= y < stop && IsPeak(hist, y) ==> Peak(y, hist[y]) in LocalMaxima(hist, first, stop)
  {
    if first < stop {
      LocalMaximaExact(hist, first, stop - 1);
    }
  }

  /** The sort key of `peaks.Sort((a, b) => b.v.CompareTo(a.v))`: strongest first. */
  function StrongFirst(p: Peak): real {
    -(p.v as real)
  }

  /** The sort key of `picked.Sort()`. */
  function Ascending(x: int): real {
    x as real
  }

  /** Every entry names a column in (lo, hi - 1) that passes the peak test. */
  predicate PeaksWithin(hist: seq<int>, r: seq<int>, lo: int, hi: int) {
    forall a :: 0 <= a < |r| ==> lo + 1 <= r[a] < hi - 1 && 1 <= r[a] < |hist| - 1 && IsPeak(hist, r[a])
  }

  /** Any two entries are at least minDistance apart. */
  predicate Spaced(r: seq<int>, minDistance: int) {
    forall a, b :: 0 <= a < b < |r| ==> Abs(r[a] - r[b]) >= minDistance
  }

  /** Column x is picked, or lies within minDistance of a picked peak at least as strong. */
  predicate Suppressed(hist: seq<int>, r: seq<int>, x: int, minDistance: int) {
    0 <= x < |hist| &&
    (x in r || exists a :: 0 <= a < |r| && 0 <= r[a] < |hist| && Abs(r[a] - x) < minDistance && hist[r[a]] >= hist[x])
  }

  /** Every candidate in (lo, hi - 1) is picked or suppressed. */
  predicate AllSuppressed(hist: seq<int>, r: seq<int>, lo: int, hi: int, minDistance: int) {
    forall x :: lo + 1 <= x < hi - 1 && 1 <= x < |hist| - 1 && IsPeak(hist, x) ==> Suppressed(hist, r, x, minDistance)
  }

  lemma CountTwo(r: seq<int>, a: int, b: int)
    requires 0 <= a < b < |r| && r[a] == r[b]
    ensures multiset(r)[r[a]] >= 2
  {
    assert r == r[..b] + [r[b]] + r[b + 1..];
    assert r[a] in r[..b];
  }

  lemma {:induction false} CountDistinct(s: seq<int>, v: int)
    requires forall a, b :: 0 <= a < b < |s| ==> s[a] != s[b]
    ensures multiset(s)[v] <= 1
  {
    if s != [] {
      CountDistinct(s[1..], v);
      assert s == [s[0]] + s[1..];
      if s[0] == v {
        assert v !in s[1..];
      }
    }
  }

  /** A sorted permutation of a duplicate-free sequence is strictly ascending. */
  lemma SortedDistinctAscending(s: seq<int>, r: seq<int>)
    requires multiset(r) == multiset(s)
    requires forall a, b :: 0 <= a < b < |s| ==> s[a] != s[b]
    requires SortedBy(r, Ascending)
    ensures forall a, b :: 0 <= a < b < |r| ==> r[a] < r[b]
  {
    forall a, b | 0 <= a < b < |r| ensures r[a] < r[b] {
      assert Ascending(r[a]) <= Ascending(r[b]);
      if r[a] == r[b] {
        CountTwo(r, a, b);
        CountDistinct(s, r[a]);
        assert false;
      }
    }
  }

  /** The picked set's properties survive the final ascending sort. */
  lemma SortPicked(hist: seq<int>, picked: seq<int>, lo: int, hi: int, maxPeaks: int, minDistance: int)
    requires PeaksWithin(hist, picked, lo, hi) && Spaced(picked, minDistance)
    requires |picked| < maxPeaks ==> AllSuppressed(hist, picked, lo, hi, minDistance)
    ensures var r := SortBy(picked, Ascending);
      |r| == |picked| && PeaksWithin(hist, r, lo, hi) && Spaced(r, minDistance) &&
      (|r| < maxPeaks ==> AllSuppressed(hist, r, lo, hi, minDistance)) &&
      (forall a, b :: 0 <= a < b < |r| ==> r[a] <= r[b]) &&
      (minDistance >= 1 ==> forall a, b :: 0 <= a < b < |r| ==> r[a] < r[b])
  {
    var r := SortBy(picked, Ascending);
    SortBySorted(picked, Ascending);
    PermutedWithin(hist, picked, r, lo, hi);
    forall a, b | 0 <= a < b < |r| ensures r[a] <= r[b] {
      assert Ascending(r[a]) <= Ascending(r[b]);
    }
    if minDistance >= 1 {
      SortedDistinctAscending(picked, r);
    }
    forall a, b | 0 <= a < b < |r| ensures Abs(r[a] - r[b]) >= minDistance {
      if r[a] != r[b] {
        PermutedPair(picked, r, a, b, minDistance);
      }
    }
    forall x | |r| < maxPeaks && lo + 1 <= x < hi - 1 && 1 <= x < |hist| - 1 && IsPeak(hist, x)
      ensures Suppressed(hist, r, x, minDistance)
    {
      PermutedSuppressed(hist, picked, r, x, minDistance);
    }
  }

  lemma PermutedWithin(hist: seq<int>, picked: seq<int>, r: seq<int>, lo: int, hi: int)
    requires multiset(r) == multiset(picked) && PeaksWithin(hist, picked, lo, hi)
    ensures PeaksWithin(hist, r, lo, hi)
  {
    forall a | 0 <= a < |r| ensures r[a] in picked {
      assert r[a] in multiset(r);
    }
  }

  lemma PermutedPair(picked: seq<int>, r: seq<int>, a: int, b: int, minDistance: int)
    requires multiset(r) == multiset(picked) && Spaced(picked, minDistance)
    requires 0 <= a < b < |r| && r[a] != r[b]
    ensures Abs(r[a] - r[b]) >= minDistance
  {
    assert r[a] in multiset(r) && r[b] in multiset(r);
    var i :| 0 <= i < |picked| && picked[i] == r[a];
    var j :| 0 <= j < |picked| && picked[j] == r[b];
    if i < j { } else { }
  }

  lemma PermutedSuppressed(hist: seq<int>, picked: seq<int>, r: seq<int>, x: int, minDistance: int)
    requires multiset(r) == multiset(picked) && Suppressed(hist, picked, x, minDistance)
    ensures Suppressed(hist, r, x, minDistance)
  {
    if x in picked {
      assert x in multiset(picked);
    } else {
      var a :| 0 <= a < |picked| && 0 <= picked[a] < |hist| && Abs(picked[a] - x) < minDistance && hist[picked[a]] >= hist[x];
      assert picked[a] in multiset(r);
      var b :| 0 <= b < |r| && r[b] == picked[a];
    }
  }

  /** Column x is at least minDistance from every taken column. */
  predicate Clear(picked: seq<int>, x: int, minDistance: int) {
    forall a :: 0 <= a < |picked| ==> Abs(picked[a] - x) >= minDistance
  }

  /**
   * The greedy loop from candidate i on, with picked taken so far: a
   * candidate whose value is below 1 or that lies within minDistance of a
   * taken column is passed over, any other is taken, and the loop stops as
   * soon as maxPeaks columns are taken.
   */
  function Greedy(sorted: seq<Peak>, picked: seq<int>, i: nat, maxPeaks: int, minDistance: int): seq<int>
    requires i <= |sorted|
    decreases |sorted| - i
  {
    if i == |sorted| then picked
    else if sorted[i].v < 1 || !Clear(picked, sorted[i].x, minDistance) then
      Greedy(sorted, picked, i + 1, maxPeaks, minDistance)
    else if |picked| + 1 >= maxPeaks then picked + [sorted[i].x]
    else Greedy(sorted, picked + [sorted[i].x], i + 1, maxPeaks, minDistance)
  }

  /**
   * What FindPeaks returns: nothing for an empty clamped range; otherwise the
   * local maxima of (lo, hi - 1), sorted strongest first, thinned greedily,
   * and sorted by column.
   */
  function Peaks(hist: seq<int>, left: int, right: int, maxPeaks: int, minDistance: int): seq<int>
    requires |hist| >= 1
  {
    var lo, hi := Clamp(left, 0, |hist| - 1), Clamp(right, 0, |hist| - 1);
    if hi <= lo then [] else PeaksIn(hist, lo, hi, maxPeaks, minDistance)
  }

  /** Peaks over a non-empty clamped range. */
  function PeaksIn(hist: seq<int>, lo: int, hi: int, maxPeaks: int, minDistance: int): seq<int>
    requires 0 <= lo < hi < |hist|
  {
    SortBy(Greedy(SortBy(LocalMaxima(hist, lo + 1, hi - 1), StrongFirst), [], 0, maxPeaks, minDistance), Ascending)
  }

  /**
   * Every peak of (lo, hi - 1) is taken, lies within minDistance of a taken
   * column at least as strong, or is no stronger than any taken column: the
   * cap only ever drops the weakest.
   */
  predicate Dominated(hist: seq<int>, r: seq<int>, lo: int, hi: int, minDistance: int) {
    forall x :: lo + 1 <= x < hi - 1 && 1 <= x < |hist| - 1 && IsPeak(hist, x) ==>
      Suppressed(hist, r, x, minDistance) || forall a :: 0 <= a < |r| && 0 <= r[a] < |hist| ==> hist[r[a]] >= hist[x]
  }

  /**
   * FindPeaks: the columns of (left, right - 1) that pass the peak test,
   * visited strongest first and taken greedily unless within minDistance of
   * one already taken, until maxPeaks are taken; returned in ascending order.
   */
  method FindPeaks(hist: seq<int>, left: int, right: int, maxPeaks: int, minDistance: int) returns (r: seq<int>)
    requires |hist| >= 1
    ensures r == Peaks(hist, left, right, maxPeaks, minDistance)
    ensures var lo, hi := Clamp(left, 0, |hist| - 1), Clamp(right, 0, |hist| - 1);
      (hi <= lo ==> r == []) &&
      PeaksWithin(hist, r, lo, hi) &&
      Spaced(r, minDistance) &&
      |r| <= Max(1, maxPeaks) &&
      (forall a, b :: 0 <= a < b < |r| ==> r[a] <= r[b]) &&
      (minDistance >= 1 ==> forall a, b :: 0 <= a < b < |r| ==> r[a] < r[b]) &&
      (|r| < maxPeaks ==> AllSuppressed(hist, r, lo, hi, minDistance)) &&
      Dominated(hist, r, lo, hi, minDistance)
  {
    var lo := Clamp(left, 0, |hist| - 1);
    var hi := Clamp(right, 0, |hist| - 1);
    if hi <= lo {
      return [];
    }
    r := FindPeaksIn(hist, lo, hi, maxPeaks, minDistance);
  }

  /** The body of FindPeaks once the clamped range is known to be non-empty. */
  method FindPeaksIn(hist: seq<int>, lo: int, hi: int, maxPeaks: int, minDistance: int) returns (r: seq<int>)
    requires 0 <= lo < hi < |hist|
    ensures r == PeaksIn(hist, lo, hi, maxPeaks, minDistance)
    ensures PeaksWithin(hist, r, lo, hi) && Spaced(r, minDistance) && |r| <= Max(1, maxPeaks)
    ensures forall a, b :: 0 <= a < b < |r| ==> r[a] <= r[b]
    ensures minDistance >= 1 ==> forall a, b :: 0 <= a < b < |r| ==> r[a] < r[b]
    ensures |r| < maxPeaks ==> AllSuppressed(hist, r, lo, hi, minDistance)
    ensures Dominated(hist, r, lo, hi, minDistance)
  {
    var peaks := CollectPeaks(hist, lo, hi);
    var sorted := SortBy(peaks, StrongFirst);
    SortBySorted(peaks, StrongFirst);
    SortedCandidates(hist, sorted, lo, hi);
    var picked := PickPeaks(hist, sorted, lo, hi, maxPeaks, minDistance);
    SortPicked(hist, picked, lo, hi, maxPeaks, minDistance);
    r := SortBy(picked, Ascending);
    SortBySorted(picked, Ascending);
    PermutedDominated(hist, picked, r, lo, hi, minDistance);
  }

  lemma PermutedDominated(hist: seq<int>, picked: seq<int>, r: seq<int>, lo: int, hi: int, minDistance: int)
    requires multiset(r) == multiset(picked) && Dominated(hist, picked, lo, hi, minDistance)
    ensures Dominated(hist, r, lo, hi, minDistance)
  {
    forall x | lo + 1 <= x < hi - 1 && 1 <= x < |hist| - 1 && IsPeak(hist, x)
      ensures Suppressed(hist, r, x, minDistance) || forall a :: 0 <= a < |r| && 0 <= r[a] < |hist| ==> hist[r[a]] >= hist[x]
    {
      if Suppressed(hist, picked, x, minDistance) {
        PermutedSuppressed(hist, picked, r, x, minDistance);
      } else {
        forall a | 0 <= a < |r| && 0 <= r[a] < |hist| ensures hist[r[a]] >= hist[x] {
          assert r[a] in multiset(picked);
          var b :| 0 <= b < |picked| && picked[b] == r[a];
        }
      }
    }
  }

  /** The scan loop of FindPeaks over columns lo + 1 .. hi - 2. */
  method CollectPeaks(hist: seq<int>, lo: int, hi: int) returns (peaks: seq<Peak>)
    requires 0 <= lo < hi < |hist|
    ensures peaks == LocalMaxima(hist, lo + 1, hi - 1)
  {
    peaks := [];
    var x := lo + 1;
    while x < hi - 1
      invariant lo + 1 <= x && (x <= hi - 1 || x == lo + 1)
      invariant peaks == LocalMaxima(hist, lo + 1, x)
    {
      var v := hist[x];
      if v <= 0 {
        x := x + 1;
        continue;
      }
      if v >= hist[x - 1] && v >= hist[x + 1] {
        peaks := peaks + [Peak(x, v)];
      }
      x := x + 1;
    }
  }

  /** The strongest-first candidates: each a peak of (lo, hi - 1) with its value, strengths non-increasing. */
  predicate Candidates(hist: seq<int>, sorted: seq<Peak>, lo: int, hi: int) {
    (forall j :: 0 <= j < |sorted| ==>
      lo + 1 <= sorted[j].x < hi - 1 && 1 <= sorted[j].x < |hist| - 1 && IsPeak(hist, sorted[j].x) &&
      sorted[j].v == hist[sorted[j].x]) &&
    (forall j, k :: 0 <= j < k < |sorted| ==> sorted[j].v >= sorted[k].v)
  }

  /**
   * The greedy loop's invariant after i candidates: the taken columns are
   * spaced peaks, every visited candidate is taken or suppressed, and every
   * taken column is at least as strong as every candidate still to come.
   */
  predicate PickState(hist: seq<int>, sorted: seq<Peak>, picked: seq<int>, i: int, lo: int, hi: int, minDistance: int) {
    0 <= i <= |sorted| &&
    PeaksWithin(hist, picked, lo, hi) && Spaced(picked, minDistance) &&
    (forall j :: 0 <= j < i ==> Suppressed(hist, picked, sorted[j].x, minDistance)) &&
    (forall a, j :: 0 <= a < |picked| && i <= j < |sorted| ==> hist[picked[a]] >= sorted[j].v)
  }

  /** Every peak of (lo, hi - 1) occurs among the candidates. */
  predicate CoversPeaks(hist: seq<int>, sorted: seq<Peak>, lo: int, hi: int) {
    forall x :: lo + 1 <= x < hi - 1 && 1 <= x < |hist| - 1 && IsPeak(hist, x) ==>
      exists j :: 0 <= j < |sorted| && sorted[j].x == x
  }

  /** The sorted candidate list, read through the permutation it is. */
  lemma SortedCandidates(hist: seq<int>, sorted: seq<Peak>, lo: int, hi: int)
    requires 0 <= lo < hi < |hist|
    requires multiset(sorted) == multiset(LocalMaxima(hist, lo + 1, hi - 1))
    requires SortedBy(sorted, StrongFirst)
    ensures Candidates(hist, sorted, lo, hi) && CoversPeaks(hist, sorted, lo, hi)
  {
    LocalMaximaExact(hist, lo + 1, hi - 1);
    forall j | 0 <= j < |sorted|
      ensures lo + 1 <= sorted[j].x < hi - 1 && IsPeak(hist, sorted[j].x) && sorted[j].v == hist[sorted[j].x]
    {
      assert sorted[j] in multiset(sorted);
    }
    forall j, k | 0 <= j < k < |sorted| ensures sorted[j].v >= sorted[k].v {
      assert StrongFirst(sorted[j]) <= StrongFirst(sorted[k]);
    }
    forall x | lo + 1 <= x < hi - 1 && 1 <= x < |hist| - 1 && IsPeak(hist, x)
      ensures exists j :: 0 <= j < |sorted| && sorted[j].x == x
    {
      assert Peak(x, hist[x]) in multiset(sorted);
      var j :| 0 <= j < |sorted| && sorted[j] == Peak(x, hist[x]);
    }
  }

  /** A candidate within minDistance of a taken column is passed over. */
  lemma SkipStep(hist: seq<int>, sorted: seq<Peak>, picked: seq<int>, i: int, k: int, lo: int, hi: int, minDistance: int)
    requires Candidates(hist, sorted, lo, hi) && PickState(hist, sorted, picked, i, lo, hi, minDistance)
    requires i < |sorted| && 0 <= k < |picked| && Abs(picked[k] - sorted[i].x) < minDistance
    ensures PickState(hist, sorted, picked, i + 1, lo, hi, minDistance)
  {
    assert hist[picked[k]] >= sorted[i].v;
    assert Suppressed(hist, picked, sorted[i].x, minDistance);
  }

  /** A candidate far from every taken column is taken. */
  lemma TakeStep(hist: seq<int>, sorted: seq<Peak>, picked: seq<int>, i: int, lo: int, hi: int, minDistance: int)
    requires Candidates(hist, sorted, lo, hi) && PickState(hist, sorted, picked, i, lo, hi, minDistance)
    requires i < |sorted| && forall a :: 0 <= a < |picked| ==> Abs(picked[a] - sorted[i].x) >= minDistance
    ensures PickState(hist, sorted, picked + [sorted[i].x], i + 1, lo, hi, minDistance)
  {
    var x := sorted[i].x;
    var next := picked + [x];
    forall j | 0 <= j < i + 1 ensures Suppressed(hist, next, sorted[j].x, minDistance) {
      if j == i {
        assert next[|picked|] == x;
      } else {
        SuppressedGrows(hist, picked, x, sorted[j].x, minDistance);
      }
    }
    forall a, b | 0 <= a < b < |next| ensures Abs(next[a] - next[b]) >= minDistance {
      if b == |picked| {
        assert next[a] == picked[a];
      }
    }
  }

  /** Taking another column never undoes a suppression. */
  lemma SuppressedGrows(hist: seq<int>, picked: seq<int>, x: int, y: int, minDistance: int)
    requires Suppressed(hist, picked, y, minDistance)
    ensures Suppressed(hist, picked + [x], y, minDistance)
  {
    var next := picked + [x];
    if y in picked {
      assert y in next;
    } else {
      var a :| 0 <= a < |picked| && 0 <= picked[a] < |hist| && Abs(picked[a] - y) < minDistance && hist[picked[a]] >= hist[y];
      assert next[a] == picked[a];
    }
  }


  /** Once every candidate is visited, every peak of the range is taken or suppressed. */
  lemma FinishPick(hist: seq<int>, sorted: seq<Peak>, picked: seq<int>, lo: int, hi: int, minDistance: int)
    requires PickState(hist, sorted, picked, |sorted|, lo, hi, minDistance)
    requires CoversPeaks(hist, sorted, lo, hi)
    ensures AllSuppressed(hist, picked, lo, hi, minDistance)
  {
    forall x | lo + 1 <= x < hi - 1 && 1 <= x < |hist| - 1 && IsPeak(hist, x)
      ensures Suppressed(hist, picked, x, minDistance)
    {
      var j :| 0 <= j < |sorted| && sorted[j].x == x;
    }
  }

  /**
   * One round of the greedy loop: candidate i is taken unless it is within
   * minDistance of a column already taken.
   */
  method Consider(hist: seq<int>, sorted: seq<Peak>, picked: seq<int>, i: int, lo: int, hi: int, minDistance: int)
    returns (next: seq<int>, taken: bool)
    requires Candidates(hist, sorted, lo, hi) && PickState(hist, sorted, picked, i, lo, hi, minDistance)
    requires i < |sorted|
    ensures PickState(hist, sorted, next, i + 1, lo, hi, minDistance)
    ensures taken <==> sorted[i].v >= 1 && Clear(picked, sorted[i].x, minDistance)
    ensures next == if taken then picked + [sorted[i].x] else picked
  {
    next, taken := picked, false;
    var p := sorted[i];
    if p.v < 1 {
      assert false;
      return;
    }
    var ok := true;
    var k := 0;
    while k < |picked|
      invariant 0 <= k <= |picked|
      invariant ok && forall a :: 0 <= a < k ==> Abs(picked[a] - p.x) >= minDistance
    {
      if Abs(picked[k] - p.x) < minDistance {
        ok := false;
        break;
      }
      k := k + 1;
    }
    if !ok {
      SkipStep(hist, sorted, picked, i, k, lo, hi, minDistance);
      return;
    }
    TakeStep(hist, sorted, picked, i, lo, hi, minDistance);
    next, taken := picked + [p.x], true;
  }

  /**
   * The greedy loop of FindPeaks over the strongest-first candidates: before
   * the cap is reached every candidate is taken or suppressed by a taken one
   * at least as strong, and a candidate the cap leaves out is no stronger
   * than any taken one.
   */
  method PickPeaks(hist: seq<int>, sorted: seq<Peak>, lo: int, hi: int, maxPeaks: int, minDistance: int)
    returns (picked: seq<int>)
    requires Candidates(hist, sorted, lo, hi) && CoversPeaks(hist, sorted, lo, hi)
    ensures picked == Greedy(sorted, [], 0, maxPeaks, minDistance)
    ensures PeaksWithin(hist, picked, lo, hi) && Spaced(picked, minDistance)
    ensures |picked| <= Max(1, maxPeaks)
    ensures |picked| < maxPeaks ==> AllSuppressed(hist, picked, lo, hi, minDistance)
    ensures Dominated(hist, picked, lo, hi, minDistance)
  {
    ghost var greedy := Greedy(sorted, [], 0, maxPeaks, minDistance);
    picked := [];
    var i := 0;
    while i < |sorted|
      invariant PickState(hist, sorted, picked, i, lo, hi, minDistance)
      invariant |picked| < maxPeaks || |picked| == 0
      invariant Greedy(sorted, picked, i, maxPeaks, minDistance) == greedy
    {
      var taken;
      ghost var before := picked;
      picked, taken := Consider(hist, sorted, picked, i, lo, hi, minDistance);
      GreedyStep(sorted, before, i, maxPeaks, minDistance, picked, taken);
      i := i + 1;
      if taken && |picked| >= maxPeaks {
        break;
      }
    }
    assert PeaksWithin(hist, picked, lo, hi) && Spaced(picked, minDistance);
    if |picked| < maxPeaks {
      assert AllSuppressed(hist, picked, lo, hi, minDistance) by {
        FinishPick(hist, sorted, picked, lo, hi, minDistance);
      }
    }
    assert Dominated(hist, picked, lo, hi, minDistance) by {
      FinishDominated(hist, sorted, picked, i, lo, hi, minDistance);
    }
  }

  /** One round of Greedy: the round's outcome, then the rest of the candidates, or the stop at the cap. */
  lemma GreedyStep(sorted: seq<Peak>, picked: seq<int>, i: nat, maxPeaks: int, minDistance: int, next: seq<int>, taken: bool)
    requires i < |sorted|
    requires taken <==> sorted[i].v >= 1 && Clear(picked, sorted[i].x, minDistance)
    requires next == if taken then picked + [sorted[i].x] else picked
    ensures taken && |next| >= maxPeaks ==> Greedy(sorted, picked, i, maxPeaks, minDistance) == next
    ensures !(taken && |next| >= maxPeaks) ==>
      Greedy(sorted, picked, i, maxPeaks, minDistance) == Greedy(sorted, next, i + 1, maxPeaks, minDistance)
  {
  }

  /** Wherever the loop stops, a candidate not yet visited is no stronger than any taken column. */
  lemma FinishDominated(hist: seq<int>, sorted: seq<Peak>, picked: seq<int>, i: int, lo: int, hi: int, minDistance: int)
    requires Candidates(hist, sorted, lo, hi) && CoversPeaks(hist, sorted, lo, hi)
    requires PickState(hist, sorted, picked, i, lo, hi, minDistance)
    ensures Dominated(hist, picked, lo, hi, minDistance)
  {
    forall x | lo + 1 <= x < hi - 1 && 1 <= x < |hist| - 1 && IsPeak(hist, x)
      ensures Suppressed(hist, picked, x, minDistance) ||
        forall a :: 0 <= a < |picked| && 0 <= picked[a] < |hist| ==> hist[picked[a]] >= hist[x]
    {
      var j :| 0 <= j < |sorted| && sorted[j].x == x;
      if i <= j {
        assert sorted[j].v == hist[x];
      }
    }
  }
}
