// Models/TrackedObject.cs: one tracked vehicle. The static `_nextId` counter
// becomes an IdCounter object shared by every construction; the centre history
// is a sequence the methods reassign.

module Tracking {
  import opened Numerics
  import opened Geometry

  /** MAX_MISSES_BEFORE_DELETION. */
  const MaxMissesBeforeDeletion := 5

  /** How far back, in milliseconds, the centre history reaches. */
  const HistoryWindowMsec: real := 2000.0

  /** One `(center, timeMsec)` entry of `_centerHistory`. */
  datatype Sample = Sample(center: Point, timeMsec: real)

  /** The value `default` of the history's tuple type. */
  const DefaultSample := Sample(Point(0, 0), 0.0)

  /**
   * RelativeSpeed. `Measured(p1, p2)` stands for sqrt(dx*dx + dy*dy) / (t2 - t1) * 100
   * between the two samples; the square root itself is not modelled.
   */
  datatype Speed = Zero | Measured(p1: Sample, p2: Sample)

  /** GetCenter: (X + Width/2, Y + Height/2) with C#'s truncating integer division. */
  function Center(box: Rect): Point
  {
    Point(box.x + TruncDiv(box.width, 2), box.y + TruncDiv(box.height, 2))
  }

  /** A box at least one pixel wide and high contains its own centre. */
  lemma CenterInside(box: Rect)
    requires box.width >= 1 && box.height >= 1
    ensures box.Contains(Center(box))
  {
  }

  /** `RemoveAll(h => h.timeMsec < cutoff)`: the entries at or after cutoff, in their original order. */
  function KeepRecent(h: seq<Sample>, cutoff: real): (r: seq<Sample>)
    ensures |r| <= |h|
    ensures forall s :: s in r ==> s in h && s.timeMsec >= cutoff
  {
    if h == [] then []
    else
      var last := h[|h| - 1];
      KeepRecent(h[..|h| - 1], cutoff) + (if last.timeMsec >= cutoff then [last] else [])
  }

  /** Nothing at or after the cutoff is removed, as many times as it occurs. */
  lemma {:induction false} KeepRecentKeepsAllRecent(h: seq<Sample>, cutoff: real, s: Sample)
    ensures multiset(KeepRecent(h, cutoff))[s] == if s.timeMsec >= cutoff then multiset(h)[s] else 0
  {
    if h != [] {
      KeepRecentKeepsAllRecent(h[..|h| - 1], cutoff, s);
      assert h == h[..|h| - 1] + [h[|h| - 1]];
    }
  }

  /** a is b with some entries deleted: the retained entries keep their relative order. */
  ghost predicate Subsequence(a: seq<Sample>, b: seq<Sample>)
    decreases |b|
  {
    if a == [] then true
    else if b == [] then false
    else if a[|a| - 1] == b[|b| - 1] then Subsequence(a[..|a| - 1], b[..|b| - 1])
    else Subsequence(a, b[..|b| - 1])
  }

  lemma {:induction false} KeepRecentIsSubsequence(h: seq<Sample>, cutoff: real)
    ensures Subsequence(KeepRecent(h, cutoff), h)
  {
    if h != [] {
      var init := h[..|h| - 1];
      KeepRecentIsSubsequence(init, cutoff);
      var r := KeepRecent(h, cutoff);
      if h[|h| - 1].timeMsec >= cutoff {
        assert r[..|r| - 1] == KeepRecent(init, cutoff);
      } else if r != [] {
        assert r == KeepRecent(init, cutoff);
        assert r[|r| - 1] in r;
        assert r[|r| - 1] != h[|h| - 1];
      }
    }
  }

  /** An entry appended at time t survives pruning at t - 2000 and ends the history. */
  lemma KeepRecentAppendLast(h: seq<Sample>, s: Sample)
    ensures var r := KeepRecent(h + [s], s.timeMsec - HistoryWindowMsec);
      r != [] && r[|r| - 1] == s
  {
    assert (h + [s])[..|h + [s]| - 1] == h;
  }

  /** `FirstOrDefault(h => h.timeMsec <= threshold)`. */
  function FirstAtOrBefore(h: seq<Sample>, threshold: real): Sample
  {
    if h == [] then DefaultSample
    else if h[0].timeMsec <= threshold then h[0]
    else FirstAtOrBefore(h[1..], threshold)
  }

  /** `FirstOrDefault` gives the default or a qualifying entry, and the default when none qualifies. */
  lemma {:induction false} FirstAtOrBeforeFound(h: seq<Sample>, threshold: real)
    ensures var r := FirstAtOrBefore(h, threshold);
      r == DefaultSample || (r in h && r.timeMsec <= threshold)
    ensures (forall s :: s in h ==> s.timeMsec > threshold) ==> FirstAtOrBefore(h, threshold) == DefaultSample
  {
    if h != [] && h[0].timeMsec > threshold {
      FirstAtOrBeforeFound(h[1..], threshold);
      assert forall s :: s in h[1..] ==> s in h;
    }
  }

  /** Some entry is at or before the threshold: the first of them, at index i, is the one FirstOrDefault finds. */
  lemma {:induction false} FirstQualifying(h: seq<Sample>, threshold: real) returns (i: int)
    requires exists k :: 0 <= k < |h| && h[k].timeMsec <= threshold
    ensures 0 <= i < |h| && h[i].timeMsec <= threshold && (forall j :: 0 <= j < i ==> h[j].timeMsec > threshold)
    ensures FirstAtOrBefore(h, threshold) == h[i]
  {
    if h[0].timeMsec <= threshold {
      i := 0;
    } else {
      var k :| 0 <= k < |h| && h[k].timeMsec <= threshold;
      assert h[1..][k - 1] == h[k];
      var i' := FirstQualifying(h[1..], threshold);
      i := i' + 1;
      assert forall j :: 1 <= j < i ==> h[j] == h[1..][j - 1];
    }
  }

  /** CalculateRelativeSpeed over a history. */
  function SpeedOf(h: seq<Sample>): Speed
  {
    if |h| < 2 then Zero
    else
      var p2 := h[|h| - 1];
      var p1 := FirstAtOrBefore(h, p2.timeMsec - 300.0);
      if p1 == DefaultSample then Zero
      else if p2.timeMsec - p1.timeMsec < 100.0 then Zero
      else Measured(p1, p2)
  }

  /**
   * When the speed is measured, the earlier sample is a history entry at
   * least 300 ms older than the last one; so the `deltaMs < 100` guard never
   * decides anything.
   */
  lemma SpeedMeasuredSpan(h: seq<Sample>)
    ensures SpeedOf(h).Measured? ==>
      |h| >= 2 && SpeedOf(h).p2 == h[|h| - 1] && SpeedOf(h).p1 in h &&
      SpeedOf(h).p2.timeMsec - SpeedOf(h).p1.timeMsec >= 300.0
    ensures |h| >= 2 && FirstAtOrBefore(h, h[|h| - 1].timeMsec - 300.0) != DefaultSample ==>
      h[|h| - 1].timeMsec - FirstAtOrBefore(h, h[|h| - 1].timeMsec - 300.0).timeMsec >= 300.0
  {
    if |h| >= 2 {
      FirstAtOrBeforeFound(h, h[|h| - 1].timeMsec - 300.0);
    }
  }

  /**
   * The speed is zero exactly when the history has fewer than two entries,
   * or no entry is 300 ms or more older than the last, or the first such
   * entry equals `default` (centre (0, 0) at time 0), which `Equals(default)`
   * cannot tell from "none found".
   */
  lemma SpeedZeroCases(h: seq<Sample>)
    ensures SpeedOf(h) == Zero <==>
      |h| < 2 ||
      (forall i :: 0 <= i < |h| ==> h[i].timeMsec > h[|h| - 1].timeMsec - 300.0) ||
      (exists i :: 0 <= i < |h| && h[i].timeMsec <= h[|h| - 1].timeMsec - 300.0 && h[i] == DefaultSample &&
         forall j :: 0 <= j < i ==> h[j].timeMsec > h[|h| - 1].timeMsec - 300.0)
  {
    if |h| >= 2 {
      var t := h[|h| - 1].timeMsec - 300.0;
      if exists k :: 0 <= k < |h| && h[k].timeMsec <= t {
        var i := FirstQualifying(h, t);
        SpeedMeasuredSpan(h);
      } else {
        FirstAtOrBeforeFound(h, t);
      }
    }
  }

  /** Source of track ids: the static `_nextId`, which starts at 1. */
  class IdCounter {
    var next: int

    constructor ()
      ensures next == 1
    {
      next := 1;
    }
  }

  class TrackedObject {
    const id: int
    var classId: int
    var lastBox: Rect
    var history: seq<Sample>
    var trackCount: int
    var missedCount: int
    var relativeSpeed: Speed

    /** Takes the next id, then runs Update on the first detection. */
    constructor (ids: IdCounter, detection: Detection, timeMsec: real)
      modifies ids, detection
      ensures id == old(ids.next) && ids.next == old(ids.next) + 1
      ensures classId == detection.classId && lastBox == detection.box && detection.trackId == id
      ensures history == [Sample(Center(detection.box), timeMsec)]
      ensures trackCount == 1 && missedCount == 0 && relativeSpeed == Zero
    {
      id := ids.next;
      classId := detection.classId;
      lastBox := detection.box;
      history := [];
      trackCount := 0;
      missedCount := 0;
      relativeSpeed := Zero;
      new;
      ids.next := ids.next + 1;
      Update(detection, timeMsec);
      assert [Sample(Center(detection.box), timeMsec)] == [] + [Sample(Center(detection.box), timeMsec)];
    }

    /** The object has been seen again: take its box and class, record the centre, prune, recompute speed. */
    method Update(detection: Detection, timeMsec: real)
      modifies this, detection
      ensures lastBox == detection.box && classId == detection.classId && detection.trackId == id
      ensures trackCount == old(trackCount) + 1 && missedCount == 0
      ensures history == KeepRecent(old(history) + [Sample(Center(detection.box), timeMsec)], timeMsec - HistoryWindowMsec)
      ensures history != [] && history[|history| - 1] == Sample(Center(detection.box), timeMsec)
      ensures forall s :: s in history ==> s.timeMsec >= timeMsec - HistoryWindowMsec
      ensures relativeSpeed == SpeedOf(history)
    {
      lastBox := detection.box;
      classId := detection.classId;
      detection.trackId := id;
      var sample := Sample(Center(detection.box), timeMsec);
      history := history + [sample];
      trackCount := trackCount + 1;
      missedCount := 0;
      var oldestValidTime := timeMsec - HistoryWindowMsec;
      KeepRecentAppendLast(old(history), sample);
      history := KeepRecent(history, oldestValidTime);
      CalculateRelativeSpeed();
    }

    /** CalculateRelativeSpeed: the speed over the current history, nothing else changed. */
    method CalculateRelativeSpeed()
      modifies this
      ensures relativeSpeed == SpeedOf(history)
      ensures classId == old(classId) && lastBox == old(lastBox) && history == old(history)
      ensures trackCount == old(trackCount) && missedCount == old(missedCount)
    {
      relativeSpeed := SpeedOf(history);
    }

    /** Not seen in this frame. */
    method Missed()
      modifies this
      ensures missedCount == old(missedCount) + 1
      ensures classId == old(classId) && lastBox == old(lastBox) && history == old(history)
      ensures trackCount == old(trackCount) && relativeSpeed == old(relativeSpeed)
    {
      missedCount := missedCount + 1;
    }

    predicate ShouldBeDeleted()
      reads this
    {
      missedCount > MaxMissesBeforeDeletion
    }
  }

  /**
   * From a freshly updated track, five misses leave it alive and the sixth
   * marks it for deletion.
   */
  method MissUntilDeleted(t: TrackedObject) returns (aliveAfterFive: bool, deletedAfterSix: bool)
    requires t.missedCount == 0
    modifies t
    ensures aliveAfterFive && deletedAfterSix
    ensures t.missedCount == 6
  {
    var k := 0;
    while k < 5
      invariant 0 <= k <= 5 && t.missedCount == k
    {
      t.Missed();
      k := k + 1;
    }
    aliveAfterFive := !t.ShouldBeDeleted();
    t.Missed();
    deletedAfterSix := t.ShouldBeDeleted();
  }
}
