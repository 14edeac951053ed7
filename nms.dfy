// Greedy per-class non-maximum suppression and IoU. YoloV8Onnx.cs and
// YolopOnnx.cs hold the same two functions, so one model serves both.

module Nms {
  import opened Numerics
  import opened Geometry
  import opened Sorting

  /** The `1e-6f` added to the IoU denominator. */
  const Eps: real := 0.000001

  /** Intersection area of two rectangles, each side of the intersection clamped at 0. */
  function Intersection(a: Rect, b: Rect): (r: int)
    ensures r >= 0
  {
    var interW := Max(0, Min(a.Right(), b.Right()) - Max(a.x, b.x));
    var interH := Max(0, Min(a.Bottom(), b.Bottom()) - Max(a.y, b.y));
    assert interW * interH >= 0 by { MulNonNeg(interW, interH); }
    interW * interH
  }

  lemma MulNonNeg(a: int, b: int)
    requires a >= 0 && b >= 0
    ensures a * b >= 0
  {
  }

  /** IoU(a, b) = inter / (areaA + areaB - inter + 1e-6), over reals. */
  function IoU(a: Rect, b: Rect): real
  {
    var inter := Intersection(a, b);
    var d := a.Area() + b.Area() - inter;
    IntPlusEpsNonZero(d);
    inter as real / (d as real + Eps)
  }

  lemma IntPlusEpsNonZero(d: int)
    ensures d as real + Eps != 0.0
  {
    if d >= 0 {
      assert d as real + Eps > 0.0;
    } else {
      assert d <= -1;
      assert d as real + Eps < 0.0;
    }
  }

  lemma IoUSymmetric(a: Rect, b: Rect)
    ensures IoU(a, b) == IoU(b, a)
  {
    assert Intersection(a, b) == Intersection(b, a);
  }

  /** Rectangles that do not overlap (one lies wholly left of, or above, the other) have IoU 0. */
  lemma IoUOfDisjoint(a: Rect, b: Rect)
    requires a.Right() <= b.x || b.Right() <= a.x || a.Bottom() <= b.y || b.Bottom() <= a.y
    ensures IoU(a, b) == 0.0
  {
    assert Intersection(a, b) == 0;
  }

  /** For rectangles with non-negative sides the IoU lies in [0, 1). */
  lemma {:induction false} IoUInUnitInterval(a: Rect, b: Rect)
    requires a.width >= 0 && a.height >= 0 && b.width >= 0 && b.height >= 0
    ensures 0.0 <= IoU(a, b) < 1.0
  {
    var interW := Max(0, Min(a.Right(), b.Right()) - Max(a.x, b.x));
    var interH := Max(0, Min(a.Bottom(), b.Bottom()) - Max(a.y, b.y));
    var inter := Intersection(a, b);
    assert inter == interW * interH;
    MulLe(interW, a.width, interH, a.height);
    MulLe(interW, b.width, interH, b.height);
    var d := a.Area() + b.Area() - inter;
    assert d >= inter;
    assert (d as real) + Eps > inter as real;
    DivBelowOne(inter as real, d as real + Eps);
  }

  lemma MulLe(a: int, b: int, c: int, e: int)
    requires 0 <= a <= b && 0 <= c <= e
    ensures a * c <= b * e
  {
    assert a * c <= b * c;
    assert b * c <= b * e;
  }

  lemma DivBelowOne(x: real, y: real)
    requires 0.0 <= x < y
    ensures 0.0 <= x / y < 1.0
  {
  }

  // ---------------------------------------------------------------------
  // Specification of NmsByClass
  // ---------------------------------------------------------------------

  /** The detections of class c, in input order (one GroupBy group). */
  function Group(dets: seq<Detection>, c: int): (g: seq<Detection>)
    ensures |g| <= |dets|
  {
    if dets == [] then []
    else Group(dets[..|dets| - 1], c) + (if dets[|dets| - 1].classId == c then [dets[|dets| - 1]] else [])
  }

  /** The GroupBy keys: the distinct class ids in order of first appearance. */
  function ClassKeys(dets: seq<Detection>): (ks: seq<int>)
  {
    if dets == [] then []
    else
      var ks := ClassKeys(dets[..|dets| - 1]);
      var c := dets[|dets| - 1].classId;
      if c in ks then ks else ks + [c]
  }

  /** OrderByDescending(d => d.Score), a stable sort. */
  function ByScoreDesc(g: seq<Detection>): seq<Detection>
  {
    SortBy(g, (d: Detection) => -d.score)
  }

  /** sorted.Where(d => IoU(best.Box, d.Box) < iouThres) */
  function KeepBelow(s: seq<Detection>, best: Detection, thr: real): (r: seq<Detection>)
    ensures |r| <= |s|
    ensures multiset(r) <= multiset(s)
    ensures forall d :: d in r ==> IoU(best.box, d.box) < thr
  {
    if s == [] then []
    else
      assert s == s[..|s| - 1] + [s[|s| - 1]];
      var last := s[|s| - 1];
      KeepBelow(s[..|s| - 1], best, thr) + (if IoU(best.box, last.box) < thr then [last] else [])
  }

  /** The greedy loop over one score-sorted group: keep the head, drop what overlaps it, repeat. */
  function Greedy(s: seq<Detection>, thr: real): (r: seq<Detection>)
    decreases |s|
  {
    if s == [] then [] else [s[0]] + Greedy(KeepBelow(s[1..], s[0], thr), thr)
  }

  /** What NmsByClass keeps of class c. */
  function KeptOfClass(dets: seq<Detection>, c: int, thr: real): seq<Detection>
  {
    Greedy(ByScoreDesc(Group(dets, c)), thr)
  }

  function NmsFrom(dets: seq<Detection>, ks: seq<int>, thr: real): seq<Detection>
  {
    if ks == [] then [] else KeptOfClass(dets, ks[0], thr) + NmsFrom(dets, ks[1..], thr)
  }

  /** The result of NmsByClass: each group's survivors, groups in first-appearance order. */
  function NmsSpec(dets: seq<Detection>, thr: real): seq<Detection>
  {
    NmsFrom(dets, ClassKeys(dets), thr)
  }

  // ---------------------------------------------------------------------
  // The method, as the source runs it
  // ---------------------------------------------------------------------

  method NmsByClass(dets: seq<Detection>, iouThres: real) returns (result: seq<Detection>)
    ensures result == NmsSpec(dets, iouThres)
  {
    result := [];
    var keys := ClassKeys(dets);
    var k := 0;
    while k < |keys|
      invariant 0 <= k <= |keys|
      invariant result + NmsFrom(dets, keys[k..], iouThres) == NmsSpec(dets, iouThres)
    {
      ghost var before := result;
      ghost var group := KeptOfClass(dets, keys[k], iouThres);
      var sorted := ByScoreDesc(Group(dets, keys[k]));
      result := SuppressInto(result, sorted, iouThres);
      NmsFromStep(dets, keys[k..], iouThres);
      assert keys[k..][1..] == keys[k + 1..];
      AppendAssoc(before, group, NmsFrom(dets, keys[k + 1..], iouThres));
      k := k + 1;
    }
  }

  /**
   * The inner `while (sorted.Count > 0)` loop: appends to `result` the greedy
   * survivors of one score-sorted group.
   */
  method SuppressInto(result0: seq<Detection>, sorted0: seq<Detection>, iouThres: real) returns (result: seq<Detection>)
    ensures result == result0 + Greedy(sorted0, iouThres)
  {
    result := result0;
    var sorted := sorted0;
    while |sorted| > 0
      invariant result + Greedy(sorted, iouThres) == result0 + Greedy(sorted0, iouThres)
      decreases |sorted|
    {
      var best := sorted[0];
      ghost var tail := KeepBelow(sorted[1..], best, iouThres);
      AppendStep(result, best, Greedy(tail, iouThres));
      result := result + [best];
      sorted := sorted[1..];
      sorted := KeepBelow(sorted, best, iouThres);
    }
  }

  lemma AppendStep(r: seq<Detection>, x: Detection, t: seq<Detection>)
    ensures (r + [x]) + t == r + ([x] + t)
  {
  }

  lemma AppendAssoc(a: seq<Detection>, b: seq<Detection>, c: seq<Detection>)
    ensures (a + b) + c == a + (b + c)
  {
  }

  lemma NmsFromStep(dets: seq<Detection>, ks: seq<int>, thr: real)
    requires ks != []
    ensures NmsFrom(dets, ks, thr) == KeptOfClass(dets, ks[0], thr) + NmsFrom(dets, ks[1..], thr)
  {
  }

  // ---------------------------------------------------------------------
  // Properties of one greedy pass
  // ---------------------------------------------------------------------

  ghost predicate ScoreNonIncreasing(s: seq<Detection>) {
    forall i, j :: 0 <= i < j < |s| ==> s[i].score >= s[j].score
  }

  lemma {:induction false} GreedySubMultiset(s: seq<Detection>, thr: real)
    ensures multiset(Greedy(s, thr)) <= multiset(s)
    decreases |s|
  {
    if s != [] {
      var t := KeepBelow(s[1..], s[0], thr);
      GreedySubMultiset(t, thr);
      assert Greedy(s, thr) == [s[0]] + Greedy(t, thr);
      assert multiset(Greedy(s, thr)) == multiset{s[0]} + multiset(Greedy(t, thr));
      assert s == [s[0]] + s[1..];
      assert multiset(s) == multiset{s[0]} + multiset(s[1..]);
    }
  }

  lemma GreedyMembers(s: seq<Detection>, thr: real)
    ensures forall d :: d in Greedy(s, thr) ==> d in s
  {
    GreedySubMultiset(s, thr);
    forall d | d in Greedy(s, thr) ensures d in s {
      assert d in multiset(Greedy(s, thr));
    }
  }

  lemma KeepBelowSorted(s: seq<Detection>, best: Detection, thr: real)
    requires ScoreNonIncreasing(s)
    ensures ScoreNonIncreasing(KeepBelow(s, best, thr))
  {
    if s != [] {
      KeepBelowSorted(s[..|s| - 1], best, thr);
      var r := KeepBelow(s[..|s| - 1], best, thr);
      assert forall d :: d in r ==> d in multiset(s[..|s| - 1]);
      assert forall d :: d in r ==> d.score >= s[|s| - 1].score;
    }
  }

  /** Two survivors of one pass never overlap by the threshold or more. */
  lemma {:induction false} GreedySeparated(s: seq<Detection>, thr: real)
    ensures forall i, j :: 0 <= i < j < |Greedy(s, thr)| ==>
      IoU(Greedy(s, thr)[i].box, Greedy(s, thr)[j].box) < thr
    decreases |s|
  {
    if s != [] {
      var t := KeepBelow(s[1..], s[0], thr);
      GreedySeparated(t, thr);
      GreedyMembers(t, thr);
      var g := Greedy(s, thr);
      assert g == [s[0]] + Greedy(t, thr);
      forall i, j | 0 <= i < j < |g| ensures IoU(g[i].box, g[j].box) < thr {
        if i == 0 {
          assert g[j] in Greedy(t, thr);
        } else {
          assert g[i] == Greedy(t, thr)[i - 1] && g[j] == Greedy(t, thr)[j - 1];
        }
      }
    }
  }

  /** A pass over a score-sorted list keeps its survivors score-sorted. */
  lemma {:induction false} GreedySorted(s: seq<Detection>, thr: real)
    requires ScoreNonIncreasing(s)
    ensures ScoreNonIncreasing(Greedy(s, thr))
    decreases |s|
  {
    if s != [] {
      var t := KeepBelow(s[1..], s[0], thr);
      KeepBelowSorted(s[1..], s[0], thr);
      GreedySorted(t, thr);
      GreedyMembers(t, thr);
      var g := Greedy(s, thr);
      assert g == [s[0]] + Greedy(t, thr);
      forall j | 0 < j < |g| ensures g[0].score >= g[j].score {
        assert g[j] in t;
        assert g[j] in multiset(s[1..]);
      }
    }
  }

  /** Every dropped element overlaps, by the threshold or more, a survivor scored no lower. */
  lemma {:induction false} GreedyDroppedSuppressed(s: seq<Detection>, thr: real)
    requires ScoreNonIncreasing(s)
    ensures forall d :: d in s && d !in Greedy(s, thr) ==>
      exists k :: k in Greedy(s, thr) && k.score >= d.score && IoU(k.box, d.box) >= thr
    decreases |s|
  {
    if s != [] {
      var t := KeepBelow(s[1..], s[0], thr);
      KeepBelowSorted(s[1..], s[0], thr);
      GreedyDroppedSuppressed(t, thr);
      var g := Greedy(s, thr);
      assert g == [s[0]] + Greedy(t, thr);
      forall d | d in s && d !in g
        ensures exists k :: k in g && k.score >= d.score && IoU(k.box, d.box) >= thr
      {
        assert d != s[0];
        assert d in s[1..];
        if d in t {
          var k :| k in Greedy(t, thr) && k.score >= d.score && IoU(k.box, d.box) >= thr;
          assert k in g;
        } else {
          KeepBelowDropped(s[1..], s[0], thr, d);
          assert s[0] in g;
        }
      }
    }
  }

  lemma {:induction false} KeepBelowDropped(s: seq<Detection>, best: Detection, thr: real, d: Detection)
    requires d in s && d !in KeepBelow(s, best, thr)
    ensures IoU(best.box, d.box) >= thr
  {
    var init := s[..|s| - 1];
    var last := s[|s| - 1];
    assert s == init + [last];
    var kb := KeepBelow(init, best, thr);
    assert KeepBelow(s, best, thr) == kb + (if IoU(best.box, last.box) < thr then [last] else []);
    if d == last {
    } else {
      assert d in init;
      assert d !in kb;
      KeepBelowDropped(init, best, thr, d);
    }
  }

  // ---------------------------------------------------------------------
  // From one group to the whole result
  // ---------------------------------------------------------------------

  lemma GroupAppend(a: seq<Detection>, b: seq<Detection>, c: int)
    ensures Group(a + b, c) == Group(a, c) + Group(b, c)
    decreases |b|
  {
    if b == [] {
      assert a + b == a;
    } else {
      var ab := a + b;
      assert ab[..|ab| - 1] == a + b[..|b| - 1];
      assert ab[|ab| - 1] == b[|b| - 1];
      GroupAppend(a, b[..|b| - 1], c);
      var tailPart := if b[|b| - 1].classId == c then [b[|b| - 1]] else [];
      assert Group(b, c) == Group(b[..|b| - 1], c) + tailPart;
      assert Group(ab, c) == Group(a + b[..|b| - 1], c) + (if b[|b| - 1].classId == c then [b[|b| - 1]] else []);
    }
  }

  lemma GroupMembers(dets: seq<Detection>, c: int)
    ensures forall d :: d in Group(dets, c) <==> d in dets && d.classId == c
  {
    if dets != [] {
      GroupMembers(dets[..|dets| - 1], c);
      assert dets == dets[..|dets| - 1] + [dets[|dets| - 1]];
    }
  }

  lemma GroupOfOneClass(s: seq<Detection>, c: int)
    requires forall d :: d in s ==> d.classId == c
    ensures Group(s, c) == s
  {
    if s != [] {
      GroupOfOneClass(s[..|s| - 1], c);
      assert s == s[..|s| - 1] + [s[|s| - 1]];
    }
  }

  lemma GroupOfOtherClass(s: seq<Detection>, c: int)
    requires forall d :: d in s ==> d.classId != c
    ensures Group(s, c) == []
  {
    if s != [] {
      GroupOfOtherClass(s[..|s| - 1], c);
    }
  }

  lemma KeptMembers(dets: seq<Detection>, k: int, thr: real)
    ensures forall d :: d in KeptOfClass(dets, k, thr) ==> d in dets && d.classId == k
  {
    var g := Group(dets, k);
    GroupMembers(dets, k);
    GreedyMembers(ByScoreDesc(g), thr);
    forall d | d in KeptOfClass(dets, k, thr) ensures d in dets && d.classId == k {
      assert d in ByScoreDesc(g);
      assert d in multiset(ByScoreDesc(g));
    }
  }

  lemma ClassKeysProps(dets: seq<Detection>)
    ensures forall i, j :: 0 <= i < j < |ClassKeys(dets)| ==> ClassKeys(dets)[i] != ClassKeys(dets)[j]
    ensures forall c :: c in ClassKeys(dets) <==> exists d :: d in dets && d.classId == c
  {
    if dets != [] {
      var init := dets[..|dets| - 1];
      ClassKeysProps(init);
      assert dets == init + [dets[|dets| - 1]];
      forall c | exists d :: d in dets && d.classId == c
        ensures c in ClassKeys(dets)
      {
        var d :| d in dets && d.classId == c;
        if d in init {
          assert c in ClassKeys(init);
        }
      }
    }
  }

  lemma {:induction false} GroupOfNmsFrom(dets: seq<Detection>, ks: seq<int>, c: int, thr: real)
    requires forall i, j :: 0 <= i < j < |ks| ==> ks[i] != ks[j]
    ensures Group(NmsFrom(dets, ks, thr), c) == if c in ks then KeptOfClass(dets, c, thr) else []
  {
    if ks != [] {
      GroupOfNmsFrom(dets, ks[1..], c, thr);
      GroupAppend(KeptOfClass(dets, ks[0], thr), NmsFrom(dets, ks[1..], thr), c);
      KeptMembers(dets, ks[0], thr);
      if ks[0] == c {
        GroupOfOneClass(KeptOfClass(dets, c, thr), c);
        assert c !in ks[1..];
      } else {
        GroupOfOtherClass(KeptOfClass(dets, ks[0], thr), c);
      }
    }
  }

  /** Restricted to one class, the result is exactly that class's greedy pass. */
  lemma {:induction false} GroupOfNms(dets: seq<Detection>, c: int, thr: real)
    ensures Group(NmsSpec(dets, thr), c) == KeptOfClass(dets, c, thr)
  {
    ClassKeysProps(dets);
    GroupOfNmsFrom(dets, ClassKeys(dets), c, thr);
    if c !in ClassKeys(dets) {
      AbsentClassGroupEmpty(dets, c);
    }
  }

  lemma AbsentClassGroupEmpty(dets: seq<Detection>, c: int)
    requires c !in ClassKeys(dets)
    ensures Group(dets, c) == []
    ensures KeptOfClass(dets, c, 0.0) == []
  {
    ClassKeysProps(dets);
    GroupOtherClassEmpty(dets, c);
  }

  lemma GroupOtherClassEmpty(dets: seq<Detection>, c: int)
    requires forall d :: d in dets ==> d.classId != c
    ensures Group(dets, c) == []
  {
    GroupOfOtherClass(dets, c);
  }

  lemma MultisetGroup(s: seq<Detection>, d: Detection)
    ensures multiset(s)[d] == multiset(Group(s, d.classId))[d]
  {
    if s != [] {
      MultisetGroup(s[..|s| - 1], d);
      assert s == s[..|s| - 1] + [s[|s| - 1]];
    }
  }

  /** Positions i < j of one class in s reappear, in the same order, in Group(s, c). */
  lemma GroupKeepsOrder(s: seq<Detection>, i: int, j: int)
    requires 0 <= i < j < |s| && s[i].classId == s[j].classId
    ensures exists i', j' ::
              0 <= i' < j' < |Group(s, s[i].classId)| &&
              Group(s, s[i].classId)[i'] == s[i] && Group(s, s[i].classId)[j'] == s[j]
  {
    var c := s[i].classId;
    var init := s[..|s| - 1];
    assert s == init + [s[|s| - 1]];
    if j < |s| - 1 {
      GroupKeepsOrder(init, i, j);
      var i', j' :| 0 <= i' < j' < |Group(init, c)| && Group(init, c)[i'] == init[i] && Group(init, c)[j'] == init[j];
      assert Group(s, c)[i'] == s[i] && Group(s, c)[j'] == s[j];
    } else {
      assert init[i] == s[i];
      GroupIndex(init, i);
      var i' :| 0 <= i' < |Group(init, c)| && Group(init, c)[i'] == s[i];
      assert Group(s, c) == Group(init, c) + [s[j]];
      assert Group(s, c)[i'] == s[i];
      assert Group(s, c)[|Group(init, c)|] == s[j];
    }
  }

  lemma GroupIndex(s: seq<Detection>, i: int)
    requires 0 <= i < |s|
    ensures exists i' :: 0 <= i' < |Group(s, s[i].classId)| && Group(s, s[i].classId)[i'] == s[i]
  {
    GroupMembers(s, s[i].classId);
    assert s[i] in Group(s, s[i].classId);
  }

  // ---------------------------------------------------------------------
  // The properties NmsByClass promises
  // ---------------------------------------------------------------------

  /** The output is a sub-multiset of the input, so never longer. */
  lemma {:induction false} NmsSubMultiset(dets: seq<Detection>, thr: real)
    ensures multiset(NmsSpec(dets, thr)) <= multiset(dets)
    ensures |NmsSpec(dets, thr)| <= |dets|
  {
    var r := NmsSpec(dets, thr);
    forall d ensures multiset(r)[d] <= multiset(dets)[d] {
      MultisetGroup(r, d);
      MultisetGroup(dets, d);
      GroupOfNms(dets, d.classId, thr);
      var g := Group(dets, d.classId);
      GreedySubMultiset(ByScoreDesc(g), thr);
      assert multiset(ByScoreDesc(g)) == multiset(g);
      assert multiset(Group(r, d.classId))[d] <= multiset(ByScoreDesc(g))[d];
    }
    SubMultisetByCounts(r, dets);
  }

  lemma SubMultisetByCounts(r: seq<Detection>, s: seq<Detection>)
    requires forall d :: multiset(r)[d] <= multiset(s)[d]
    ensures multiset(r) <= multiset(s)
    ensures |r| <= |s|
  {
    var diff := multiset(s) - multiset(r);
    assert multiset(s) == multiset(r) + diff;
  }

  /** Any two entries of r of the same class overlap by less than thr. */
  ghost predicate SameClassSeparated(r: seq<Detection>, thr: real) {
    forall i, j ::
      0 <= i < |r| && 0 <= j < |r| && i != j && r[i].classId == r[j].classId ==>
      IoU(r[i].box, r[j].box) < thr
  }

  /** Entries of r of the same class appear in non-increasing score order. */
  ghost predicate SameClassScoreOrdered(r: seq<Detection>) {
    forall i, j ::
      0 <= i < j < |r| && r[i].classId == r[j].classId ==>
      r[i].score >= r[j].score
  }

  /** Each detection of dets missing from r overlaps, by thr or more, an entry of r of its class scored no lower. */
  ghost predicate DroppedSuppressed(dets: seq<Detection>, r: seq<Detection>, thr: real) {
    forall d :: d in dets && d !in r ==>
      exists k :: k in r && k.classId == d.classId && k.score >= d.score && IoU(k.box, d.box) >= thr
  }

  /** Two kept detections of the same class overlap by less than the threshold. */
  lemma {:induction false} NmsSameClassSeparated(dets: seq<Detection>, thr: real)
    ensures SameClassSeparated(NmsSpec(dets, thr), thr)
  {
    var r := NmsSpec(dets, thr);
    forall i, j | 0 <= i < |r| && 0 <= j < |r| && i != j && r[i].classId == r[j].classId
      ensures IoU(r[i].box, r[j].box) < thr
    {
      var lo, hi := if i < j then i else j, if i < j then j else i;
      var c := r[lo].classId;
      GroupKeepsOrder(r, lo, hi);
      GroupOfNms(dets, c, thr);
      GreedySeparated(ByScoreDesc(Group(dets, c)), thr);
      var g := Group(r, c);
      var i', j' :| 0 <= i' < j' < |g| && g[i'] == r[lo] && g[j'] == r[hi];
      assert IoU(r[lo].box, r[hi].box) < thr;
      IoUSymmetric(r[lo].box, r[hi].box);
    }
  }

  /** Within a class, kept detections appear in non-increasing score order. */
  lemma {:induction false} NmsSameClassScoreOrder(dets: seq<Detection>, thr: real)
    ensures SameClassScoreOrdered(NmsSpec(dets, thr))
  {
    var r := NmsSpec(dets, thr);
    forall i, j | 0 <= i < j < |r| && r[i].classId == r[j].classId
      ensures r[i].score >= r[j].score
    {
      var c := r[i].classId;
      GroupKeepsOrder(r, i, j);
      GroupOfNms(dets, c, thr);
      ByScoreDescSorted(Group(dets, c));
      GreedySorted(ByScoreDesc(Group(dets, c)), thr);
      var g := Group(r, c);
      var i', j' :| 0 <= i' < j' < |g| && g[i'] == r[i] && g[j'] == r[j];
    }
  }

  lemma ByScoreDescSorted(g: seq<Detection>)
    ensures ScoreNonIncreasing(ByScoreDesc(g))
  {
    SortBySorted(g, (d: Detection) => -d.score);
  }

  /** k scores at least as high as every detection of its class in dets. */
  ghost predicate ClassMaximum(dets: seq<Detection>, k: Detection) {
    forall e :: e in dets && e.classId == k.classId ==> e.score <= k.score
  }

  /** For every class present, a detection of that class with the class's top score is kept. */
  lemma {:induction false} NmsKeepsClassMaximum(dets: seq<Detection>, thr: real, c: int)
    requires exists d :: d in dets && d.classId == c
    ensures exists k :: k in NmsSpec(dets, thr) && k.classId == c && ClassMaximum(dets, k)
  {
    var g := Group(dets, c);
    GroupMembers(dets, c);
    var d :| d in dets && d.classId == c;
    assert d in g;
    var s := ByScoreDesc(g);
    assert d in multiset(s);
    ByScoreDescSorted(g);
    var top := s[0];
    assert Greedy(s, thr)[0] == top;
    GroupOfNms(dets, c, thr);
    GroupMembers(NmsSpec(dets, thr), c);
    assert top in Group(NmsSpec(dets, thr), c);
    forall e | e in dets && e.classId == c ensures e.score <= top.score {
      assert e in g;
      assert e in multiset(s);
      var p :| 0 <= p < |s| && s[p] == e;
    }
  }

  /** Every detection not kept is suppressed by a kept one of its class with no lower score. */
  lemma {:induction false} NmsDroppedSuppressed(dets: seq<Detection>, thr: real)
    ensures DroppedSuppressed(dets, NmsSpec(dets, thr), thr)
  {
    var r := NmsSpec(dets, thr);
    forall d | d in dets && d !in r
      ensures exists k :: k in r && k.classId == d.classId && k.score >= d.score && IoU(k.box, d.box) >= thr
    {
      var c := d.classId;
      var g := Group(dets, c);
      var s := ByScoreDesc(g);
      GroupMembers(dets, c);
      assert d in multiset(s);
      ByScoreDescSorted(g);
      GroupOfNms(dets, c, thr);
      GroupMembers(r, c);
      assert d !in Greedy(s, thr);
      GreedyDroppedSuppressed(s, thr);
      var k :| k in Greedy(s, thr) && k.score >= d.score && IoU(k.box, d.box) >= thr;
      assert k in Group(r, c);
    }
  }
}
