// ViewModels/MainWindowViewModel.cs: the greedy IoU track matcher
// (TrackAndMatch), the once-per-id L/F/R counter (UpdateCounting) and
// GetTypeName. The tracker state lives in one object; `_trackedObjects` is a
// map from id to TrackedObject, and the order in which the dictionary
// enumerates its entries is passed in as a sequence of its keys.

module ViewModel {
  import opened Numerics
  import opened Geometry
  import opened Nms
  import opened Tracking
  import DetectorParse

  /** The `maxIou` a candidate detection has to beat. */
  const MatchIouFloor: real := 0.2

  /** OpenCvSharp Scalar, the value type of `_colorCache`. */
  datatype Scalar = Scalar(v0: real, v1: real, v2: real, v3: real)

  /**
   * The inner `for (int i = 0; i < dets.Count; i++)` loop: the unused detection
   * with the largest IoU against box, provided it beats 0.2; the first such on
   * ties; -1 if none.
   */
  method BestMatch(box: Rect, dets: seq<Detection>, used: set<int>) returns (best: int)
    ensures best == -1 <==> NoMatch(box, dets, used)
    ensures best != -1 ==> IsBestMatch(box, dets, used, best)
  {
    best := -1;
    var maxIou := MatchIouFloor;
    var i := 0;
    while i < |dets|
      invariant 0 <= i <= |dets|
      invariant best == -1 ==> maxIou == MatchIouFloor
      invariant best == -1 <==> forall j :: 0 <= j < i && j !in used ==> IoU(box, dets[j].box) <= MatchIouFloor
      invariant best != -1 ==>
        0 <= best < i && best !in used && maxIou == IoU(box, dets[best].box) && maxIou > MatchIouFloor &&
        (forall j :: 0 <= j < i && j !in used ==> IoU(box, dets[j].box) <= maxIou) &&
        (forall j :: 0 <= j < best && j !in used ==> IoU(box, dets[j].box) < maxIou)
    {
      if i !in used {
        var iou := IoU(box, dets[i].box);
        if iou > maxIou {
          maxIou := iou;
          best := i;
        }
      }
      i := i + 1;
    }
  }

  /** No unused detection overlaps box by IoU above 0.2. */
  predicate NoMatch(box: Rect, dets: seq<Detection>, used: set<int>) {
    forall i :: 0 <= i < |dets| && i !in used ==> IoU(box, dets[i].box) <= MatchIouFloor
  }

  /**
   * best is the unused detection whose IoU against box is the largest, above
   * 0.2, and the first of those on ties.
   */
  predicate IsBestMatch(box: Rect, dets: seq<Detection>, used: set<int>, best: int) {
    0 <= best < |dets| && best !in used && IoU(box, dets[best].box) > MatchIouFloor &&
    (forall i :: 0 <= i < |dets| && i !in used ==> IoU(box, dets[i].box) <= IoU(box, dets[best].box)) &&
    (forall i :: 0 <= i < best && i !in used ==> IoU(box, dets[i].box) < IoU(box, dets[best].box))
  }

  /** A best match rules out "no match", and the best match is unique. */
  lemma BestMatchUnique(box: Rect, dets: seq<Detection>, used: set<int>, b1: int, b2: int)
    requires IsBestMatch(box, dets, used, b1)
    ensures !NoMatch(box, dets, used)
    ensures IsBestMatch(box, dets, used, b2) ==> b1 == b2
  {
    if IsBestMatch(box, dets, used, b2) {
      // Each is at least the other, so neither comes first with a strictly larger IoU.
      assert IoU(box, dets[b1].box) <= IoU(box, dets[b2].box) <= IoU(box, dets[b1].box);
    }
  }

  /** The three counting directions. */
  datatype Direction = Left | Forward | Right

  /** L below 35% of the frame width, R above 65%, F in between. */
  function DirectionOf(cx: int, w: int): (d: Direction)
    ensures d == Left <==> (cx as real) < (w as real) * 0.35
    ensures d == Right <==> !((cx as real) < (w as real) * 0.35) && (cx as real) > (w as real) * 0.65
  {
    if (cx as real) < (w as real) * 0.35 then Left
    else if (cx as real) > (w as real) * 0.65 then Right
    else Forward
  }

  /** `(int)(h * 0.7)`: the counting line. */
  function CountLine(h: int): int
  {
    TruncToInt((h as real) * 0.7)
  }

  /** The counters `_countL`, `_countF`, `_countR` and the set `_countedIds`. */
  datatype Tally = Tally(l: int, f: int, r: int, counted: set<int>)

  predicate Balanced(t: Tally) {
    t.l + t.f + t.r == |t.counted|
  }

  /** What a track seen with centre `center` does to the tally. */
  function CountOne(t: Tally, id: int, center: Point, w: int, lineY: int): Tally
  {
    if id in t.counted then t
    else if center.y > lineY then
      match DirectionOf(center.x, w)
      case Left => t.(l := t.l + 1, counted := t.counted + {id})
      case Right => t.(r := t.r + 1, counted := t.counted + {id})
      case Forward => t.(f := t.f + 1, counted := t.counted + {id})
    else t
  }

  /** One track as UpdateCounting sees it: its id and the centre of its last box. */
  datatype Sighting = Sighting(id: int, center: Point)

  /** The foreach over the tracks, in enumeration order. */
  function CountAll(t: Tally, s: seq<Sighting>, w: int, lineY: int): Tally
  {
    if s == [] then t
    else
      var last := s[|s| - 1];
      CountOne(CountAll(t, s[..|s| - 1], w, lineY), last.id, last.center, w, lineY)
  }

  /** Each counter increment comes with a new id: L + F + R = |countedIds| is preserved. */
  lemma {:induction false} CountAllBalanced(t: Tally, s: seq<Sighting>, w: int, lineY: int)
    requires Balanced(t)
    ensures Balanced(CountAll(t, s, w, lineY))
  {
    if s != [] {
      CountAllBalanced(t, s[..|s| - 1], w, lineY);
    }
  }

  /**
   * Counted ids are never uncounted, the counters never decrease, and an id
   * newly counted belongs to a track whose centre was below the line.
   */
  lemma {:induction false} CountAllGrows(t: Tally, s: seq<Sighting>, w: int, lineY: int)
    ensures var u := CountAll(t, s, w, lineY);
      t.counted <= u.counted && t.l <= u.l && t.f <= u.f && t.r <= u.r
    ensures forall id :: id in CountAll(t, s, w, lineY).counted && id !in t.counted ==>
      exists k :: 0 <= k < |s| && s[k].id == id && s[k].center.y > lineY
  {
    if s != [] {
      var init := s[..|s| - 1];
      CountAllGrows(t, init, w, lineY);
      forall id | id in CountAll(t, s, w, lineY).counted && id !in t.counted
        ensures exists k :: 0 <= k < |s| && s[k].id == id && s[k].center.y > lineY
      {
        if id in CountAll(t, init, w, lineY).counted {
          var k :| 0 <= k < |init| && init[k].id == id && init[k].center.y > lineY;
          assert s[k] == init[k];
        } else {
          assert s[|s| - 1].id == id && s[|s| - 1].center.y > lineY;
        }
      }
    }
  }

  /** An id that is already counted is never counted again: a frame of only such tracks leaves the tally as it was. */
  lemma {:induction false} CountAllOfCountedIsNoop(t: Tally, s: seq<Sighting>, w: int, lineY: int)
    requires forall k :: 0 <= k < |s| ==> s[k].id in t.counted
    ensures CountAll(t, s, w, lineY) == t
  {
    if s != [] {
      CountAllOfCountedIsNoop(t, s[..|s| - 1], w, lineY);
    }
  }

  /** GetTypeName. */
  function GetTypeName(id: int): string
  {
    if id == 2 then "CAR" else if id == 5 then "BUS" else if id == 7 then "TRUCK" else "Vehicle"
  }

  /** Exactly the classes the YOLOv8 parser keeps get a specific name. */
  lemma TypeNameNamesParserClasses(id: int)
    ensures GetTypeName(id) != "Vehicle" <==> DetectorParse.IsVehicleClass(id)
    ensures id == 2 ==> GetTypeName(id) == "CAR"
    ensures id == 5 ==> GetTypeName(id) == "BUS"
    ensures id == 7 ==> GetTypeName(id) == "TRUCK"
  {
  }

  /** order enumerates keys, each exactly once: the order a dictionary hands its keys out in. */
  ghost predicate EnumerationOrder(order: seq<int>, keys: set<int>) {
    (forall i :: 0 <= i < |order| ==> order[i] in keys) &&
    (forall k :: k in keys ==> k in order) &&
    (forall i, j :: 0 <= i < j < |order| ==> order[i] != order[j])
  }

  predicate DistinctDetections(dets: seq<Detection>) {
    forall i, j :: 0 <= i < j < |dets| ==> dets[i] != dets[j]
  }

  /** The tracks in enumeration order, as UpdateCounting reads them: each id with the centre of its last box. */
  function Sightings(order: seq<int>, boxes: map<int, Rect>): seq<Sighting>
    requires forall k :: k in order ==> k in boxes
  {
    if order == [] then []
    else
      var k := order[|order| - 1];
      assert k in order;
      Sightings(order[..|order| - 1], boxes) + [Sighting(k, Center(boxes[k]))]
  }

  /**
   * What the matcher changes in a track: last box, class, hit count
   * (TrackCount), miss count, centre history and relative speed.
   */
  datatype TrackView = TrackView(box: Rect, classId: int, hits: int, misses: int, history: seq<Sample>, speed: Speed)

  function ViewOf(t: TrackedObject): TrackView
    reads t
  {
    TrackView(t.lastBox, t.classId, t.trackCount, t.missedCount, t.history, t.relativeSpeed)
  }

  /**
   * Update on detection d at frame time `time`: its box and class, one more
   * hit, the miss count reset; the centre is appended to the history, which
   * is pruned to the last 2000 ms, and the speed is recomputed over it.
   */
  function Took(v: TrackView, d: Detection, time: real): (r: TrackView)
    ensures r.box == d.box && r.classId == d.classId && r.hits == v.hits + 1 && r.misses == 0
  {
    var h := KeepRecent(v.history + [Sample(Center(d.box), time)], time - HistoryWindowMsec);
    TrackView(d.box, d.classId, v.hits + 1, 0, h, SpeedOf(h))
  }

  /**
   * After Update the history ends with the new centre and holds only earlier
   * entries and that centre, none older than 2000 ms.
   */
  lemma TookHistoryRecent(v: TrackView, d: Detection, time: real)
    ensures var h := Took(v, d, time).history;
      h != [] && h[|h| - 1] == Sample(Center(d.box), time)
    ensures forall s :: s in Took(v, d, time).history ==>
      (s in v.history || s == Sample(Center(d.box), time)) && s.timeMsec >= time - HistoryWindowMsec
  {
    KeepRecentAppendLast(v.history, Sample(Center(d.box), time));
  }

  /** Missed: one more miss, nothing else; history and speed stay as they were. */
  function MissedView(v: TrackView): (r: TrackView)
    ensures r.misses == v.misses + 1 && r.box == v.box && r.classId == v.classId && r.hits == v.hits
    ensures r.history == v.history && r.speed == v.speed
  {
    v.(misses := v.misses + 1)
  }

  /**
   * The first loop of TrackAndMatch after it has visited the ids in done.
   * view0/ids0 are the tracks and detection TrackIds it started from, view/ids
   * the current ones, matches maps a track id to the detection index it took.
   * Each detection index is taken at most once, with IoU above 0.2 against the
   * track's previous box; a taken detection carries the track's id; every
   * visited track either took its detection or missed once; unvisited tracks
   * and untaken detections are as they were.
   */
  ghost predicate MatchOutcome(view0: map<int, TrackView>, view: map<int, TrackView>,
                               ids0: map<int, int>, ids: map<int, int>, dets: seq<Detection>, time: real,
                               used: set<int>, matches: map<int, int>, done: set<int>)
  {
    view.Keys == view0.Keys && ids.Keys == ids0.Keys &&
    matches.Keys <= done <= view0.Keys &&
    (forall k :: k in matches ==> matches[k] in used) &&
    (forall i :: i in used ==> i in ids && ids[i] in matches && matches[ids[i]] == i) &&
    (forall k :: k in matches ==> 0 <= matches[k] < |dets| && matches[k] in ids0) &&
    (forall k :: k in matches ==> IoU(view0[k].box, dets[matches[k]].box) > MatchIouFloor) &&
    (forall a, b :: a in matches && b in matches && a != b ==> matches[a] != matches[b]) &&
    (forall k {:trigger Took(view0[k], dets[matches[k]], time)} :: k in matches ==> view[k] == Took(view0[k], dets[matches[k]], time)) &&
    (forall k :: k in view0 && k !in matches ==> view[k] == if k in done then MissedView(view0[k]) else view0[k]) &&
    (forall k :: k in matches ==> ids[matches[k]] == k) &&
    (forall i :: i in ids0 && i !in used ==> ids[i] == ids0[i])
  }

  /** Before the loop: nothing visited, nothing changed. */
  lemma OutcomeStart(view0: map<int, TrackView>, ids0: map<int, int>, dets: seq<Detection>, time: real)
    ensures MatchOutcome(view0, view0, ids0, ids0, dets, time, {}, map[], {})
  {
  }

  /** The track under id k takes detection best: its view becomes view', the TrackIds become ids'. */
  lemma OutcomeTake(view0: map<int, TrackView>, view: map<int, TrackView>, ids0: map<int, int>, ids: map<int, int>,
                    dets: seq<Detection>, time: real, used: set<int>, matches: map<int, int>, done: set<int>, k: int, best: int,
                    view': map<int, TrackView>, ids': map<int, int>)
    requires MatchOutcome(view0, view, ids0, ids, dets, time, used, matches, done)
    requires k in view0 && k !in done
    requires 0 <= best < |dets| && best in ids0 && best !in used
    requires IoU(view[k].box, dets[best].box) > MatchIouFloor
    requires view' == view[k := Took(view[k], dets[best], time)] && ids' == ids[best := k]
    ensures MatchOutcome(view0, view', ids0, ids', dets, time, used + {best}, matches[k := best], done + {k})
  {
    assert k !in matches;
    assert forall k' :: k' in matches ==> matches[k'] != best;
  }

  /** The track under id k finds nothing: its view becomes view'. */
  lemma OutcomeMiss(view0: map<int, TrackView>, view: map<int, TrackView>, ids0: map<int, int>, ids: map<int, int>,
                    dets: seq<Detection>, time: real, used: set<int>, matches: map<int, int>, done: set<int>, k: int,
                    view': map<int, TrackView>, ids': map<int, int>)
    requires MatchOutcome(view0, view, ids0, ids, dets, time, used, matches, done)
    requires k in view0 && k !in done
    requires view' == view[k := MissedView(view[k])] && ids' == ids
    ensures MatchOutcome(view0, view', ids0, ids', dets, time, used, matches, done + {k})
  {
  }

  /**
   * The view of a track just created from detection d at frame time `time`:
   * the first Update of an empty track, so its box and class, one hit, no
   * miss, the one-entry history of its centre and no speed yet.
   */
  function Fresh(d: Detection, time: real): (r: TrackView)
    ensures r.box == d.box && r.classId == d.classId && r.hits == 1 && r.misses == 0
    ensures r.history == [Sample(Center(d.box), time)] && r.speed == Zero
  {
    TrackView(d.box, d.classId, 1, 0, [Sample(Center(d.box), time)], Zero)
  }

  /** A new track's view is what Update makes of a track with no hits, no misses and no history. */
  lemma FreshIsFirstUpdate(d: Detection, time: real)
    ensures Fresh(d, time) == Took(TrackView(d.box, d.classId, 0, 0, [], Zero), d, time)
  {
    var h := [Sample(Center(d.box), time)];
    assert [] + h == h;
    assert KeepRecent(h, time - HistoryWindowMsec) == KeepRecent([], time - HistoryWindowMsec) + h;
  }

  /**
   * The second loop of TrackAndMatch after it has looked at the detection
   * indices below i. view0/ids0 are the tracks and TrackIds it started from,
   * next0 the id counter then; view/ids/next the current ones. Every index
   * below i outside used has started a new track, under a fresh id that it
   * carries; created lists those ids in creation order and origin maps each
   * back to its detection. Nothing else changed.
   */
  ghost predicate CreateOutcome(view0: map<int, TrackView>, view: map<int, TrackView>,
                                ids0: map<int, int>, ids: map<int, int>, dets: seq<Detection>, time: real, used: set<int>,
                                next0: int, next: int, created: seq<int>, origin: map<int, int>, i: int)
  {
    next0 <= next && ids.Keys == ids0.Keys &&
    (forall k :: k in view0 ==> k in view && view[k] == view0[k] && k < next0) &&
    (forall k :: k in view ==> k in view0 || k in origin) &&
    (forall k :: k in origin ==> k in view && k !in view0) &&
    (forall a :: 0 <= a < |created| ==> created[a] in origin) &&
    (forall k :: k in origin ==> k in created) &&
    (forall a, b :: 0 <= a < b < |created| ==> created[a] < created[b]) &&
    (forall k :: k in origin ==>
      next0 <= k < next && 0 <= origin[k] < i && origin[k] < |dets| && origin[k] !in used &&
      origin[k] in ids && ids[origin[k]] == k && view[k] == Fresh(dets[origin[k]], time)) &&
    (forall j :: 0 <= j < i && j < |dets| && j !in used ==> j in ids && ids[j] in origin && origin[ids[j]] == j) &&
    (forall j :: j in ids0 && (j in used || i <= j) ==> ids[j] == ids0[j])
  }

  lemma CreateStart(view0: map<int, TrackView>, ids0: map<int, int>, dets: seq<Detection>, time: real, used: set<int>, next0: int)
    requires forall k :: k in view0 ==> k < next0
    ensures CreateOutcome(view0, view0, ids0, ids0, dets, time, used, next0, next0, [], map[], 0)
  {
  }

  /** Index i is skipped: it was used by the matcher. */
  lemma CreateSkip(view0: map<int, TrackView>, view: map<int, TrackView>, ids0: map<int, int>, ids: map<int, int>,
                   dets: seq<Detection>, time: real, used: set<int>, next0: int, next: int, created: seq<int>,
                   origin: map<int, int>, i: int)
    requires CreateOutcome(view0, view, ids0, ids, dets, time, used, next0, next, created, origin, i)
    requires i in used
    ensures CreateOutcome(view0, view, ids0, ids, dets, time, used, next0, next, created, origin, i + 1)
  {
  }

  /** Index i starts a track under id next: the views become view', the TrackIds ids'. */
  lemma CreateTake(view0: map<int, TrackView>, view: map<int, TrackView>, ids0: map<int, int>, ids: map<int, int>,
                   dets: seq<Detection>, time: real, used: set<int>, next0: int, next: int, created: seq<int>,
                   origin: map<int, int>, i: int, view': map<int, TrackView>, ids': map<int, int>)
    requires CreateOutcome(view0, view, ids0, ids, dets, time, used, next0, next, created, origin, i)
    requires 0 <= i < |dets| && i in ids0 && i !in used && next !in view
    requires view' == view[next := Fresh(dets[i], time)] && ids' == ids[i := next]
    ensures CreateOutcome(view0, view', ids0, ids', dets, time, used, next0, next + 1, created + [next],
                          origin[next := i], i + 1)
  {
    assert next !in origin;
    var c := created + [next];
    forall a, b | 0 <= a < b < |c| ensures c[a] < c[b] {
      if b == |created| {
        assert c[a] == created[a] && created[a] in origin;
      }
    }
    forall k | k in origin[next := i] ensures k in c {
      if k != next {
        var a :| 0 <= a < |created| && created[a] == k;
        assert c[a] == k;
      }
    }
  }

  /** The tracks that survive the deletion step: those missed at most MAX_MISSES_BEFORE_DELETION times in a row. */
  function Surviving(view: map<int, TrackView>): (r: map<int, TrackView>)
    ensures forall k :: k in r <==> k in view && view[k].misses <= MaxMissesBeforeDeletion
    ensures forall k :: k in r ==> r[k] == view[k]
  {
    map k | k in view && view[k].misses <= MaxMissesBeforeDeletion :: view[k]
  }

  /**
   * What one TrackAndMatch call does to the tracks, from the tracks view0 it
   * started with (next0 the id counter then) to the tracks view it leaves.
   * matches maps each old track that took a detection to its index, origin
   * each new track to the detection that started it.
   */
  ghost predicate TracksOutcome(view0: map<int, TrackView>, view: map<int, TrackView>, dets: seq<Detection>, time: real,
                                matches: map<int, int>, origin: map<int, int>, next0: int)
  {
    // A track takes a detection whose box overlaps its previous one by IoU above 0.2, and no detection goes to two tracks.
    (forall k :: k in matches ==>
      k in view0 && 0 <= matches[k] < |dets| && IoU(view0[k].box, dets[matches[k]].box) > MatchIouFloor) &&
    (forall a, b :: a in matches && b in matches && a != b ==> matches[a] != matches[b]) &&
    // An old track survives iff it took a detection or this miss is at most its fifth in a row.
    (forall k :: k in view0 ==> (k in view <==> k in matches || view0[k].misses + 1 <= MaxMissesBeforeDeletion)) &&
    (forall k :: k in view0 && k in view ==>
      view[k] == if k in matches then Took(view0[k], dets[matches[k]], time) else MissedView(view0[k])) &&
    // New tracks come from detections, under ids never used before.
    (forall k :: k in view ==> k in view0 || k in origin) &&
    (forall k :: k in origin ==>
      k !in view0 && next0 <= k && k in view && 0 <= origin[k] < |dets| && view[k] == Fresh(dets[origin[k]], time))
  }

  /**
   * The centre histories and relative speeds after a frame at time `time`: a
   * track that took a detection appended its centre, dropped entries older
   * than 2000 ms and measured its speed over the new history; one that missed
   * kept both; a new track holds its centre alone and has speed zero.
   */
  lemma FrameHistories(view0: map<int, TrackView>, view: map<int, TrackView>, dets: seq<Detection>, time: real,
                       matches: map<int, int>, origin: map<int, int>, next0: int)
    requires TracksOutcome(view0, view, dets, time, matches, origin, next0)
    ensures forall k :: k in matches && k in view ==>
      view[k].history == KeepRecent(view0[k].history + [Sample(Center(dets[matches[k]].box), time)], time - HistoryWindowMsec)
    ensures forall k :: k in view0 && k in view && k !in matches ==> view[k].history == view0[k].history
    ensures forall k :: k in origin ==> view[k].history == [Sample(Center(dets[origin[k]].box), time)]
    ensures forall k :: k in matches && k in view ==> view[k].speed == SpeedOf(view[k].history)
    ensures forall k :: k in view0 && k in view && k !in matches ==> view[k].speed == view0[k].speed
    ensures forall k :: k in origin ==> view[k].speed == Zero
  {
  }

  /**
   * Every detection ends up carrying (ids, by index) the id of a live track
   * in view: the one it matched or the one it started.
   */
  ghost predicate TagsOutcome(view: map<int, TrackView>, ids: map<int, int>, dets: seq<Detection>,
                              matches: map<int, int>, origin: map<int, int>)
  {
    forall i :: 0 <= i < |dets| ==>
      i in ids && ids[i] in view &&
      ((ids[i] in matches && matches[ids[i]] == i) || (ids[i] in origin && origin[ids[i]] == i))
  }

  /** The tracks part of the three steps of TrackAndMatch. */
  lemma FrameTracks(view0: map<int, TrackView>, view1: map<int, TrackView>, view2: map<int, TrackView>,
                    view3: map<int, TrackView>, ids0: map<int, int>, ids1: map<int, int>, ids2: map<int, int>,
                    dets: seq<Detection>, time: real, used: set<int>, matches: map<int, int>, next0: int, next: int,
                    created: seq<int>, origin: map<int, int>)
    requires MatchOutcome(view0, view1, ids0, ids1, dets, time, used, matches, view0.Keys)
    requires CreateOutcome(view1, view2, ids1, ids2, dets, time, used, next0, next, created, origin, |dets|)
    requires view3 == Surviving(view2)
    ensures TracksOutcome(view0, view3, dets, time, matches, origin, next0)
    ensures forall k :: k in view0 ==> k in view2
    ensures forall k :: k in view2 && k !in view3 ==> k in view0
  {
    forall k | k in matches ensures k in view3 && view3[k] == Took(view0[k], dets[matches[k]], time) {
      assert view2[k] == view1[k] == Took(view0[k], dets[matches[k]], time);
    }
  }

  /** The detections part of the three steps of TrackAndMatch. */
  lemma FrameTags(view0: map<int, TrackView>, view1: map<int, TrackView>, view2: map<int, TrackView>,
                  view3: map<int, TrackView>, ids0: map<int, int>, ids1: map<int, int>, ids2: map<int, int>,
                  dets: seq<Detection>, time: real, used: set<int>, matches: map<int, int>, next0: int, next: int,
                  created: seq<int>, origin: map<int, int>)
    requires forall i :: i in ids0 <==> 0 <= i < |dets|
    requires MatchOutcome(view0, view1, ids0, ids1, dets, time, used, matches, view0.Keys)
    requires CreateOutcome(view1, view2, ids1, ids2, dets, time, used, next0, next, created, origin, |dets|)
    requires view3 == Surviving(view2)
    ensures TagsOutcome(view3, ids2, dets, matches, origin)
  {
    forall i | 0 <= i < |dets|
      ensures i in ids2 && ids2[i] in view3
      ensures (ids2[i] in matches && matches[ids2[i]] == i) || (ids2[i] in origin && origin[ids2[i]] == i)
    {
      assert i in ids1;
      if i in used {
        var k := ids1[i];
        assert ids2[i] == k && k in matches && k in view0;
        assert view2[k] == view1[k] == Took(view0[k], dets[matches[k]], time);
      } else {
        var k := ids2[i];
        assert k in origin && origin[k] == i && view2[k] == Fresh(dets[i], time);
      }
    }
  }

  /** The old ids in their order followed by the new ones in creation order enumerate all tracks. */
  lemma CreatedEnumeration(order: seq<int>, view1: map<int, TrackView>, view2: map<int, TrackView>,
                           ids1: map<int, int>, ids2: map<int, int>, dets: seq<Detection>, time: real, used: set<int>,
                           next0: int, next: int, created: seq<int>, origin: map<int, int>, n: int)
    requires EnumerationOrder(order, view1.Keys)
    requires CreateOutcome(view1, view2, ids1, ids2, dets, time, used, next0, next, created, origin, n)
    ensures EnumerationOrder(order + created, view2.Keys)
  {
    var all := order + created;
    forall a | 0 <= a < |all| ensures all[a] in view2.Keys {
      if a < |order| {
        assert all[a] == order[a] && order[a] in view1;
      } else {
        assert all[a] == created[a - |order|] && created[a - |order|] in origin;
      }
    }
    forall a, b | 0 <= a < b < |all| ensures all[a] != all[b] {
      if a < |order| && |order| <= b {
        assert all[a] in view1 && all[b] == created[b - |order|];
        assert all[b] in origin;
      }
    }
    forall k | k in view2.Keys ensures k in all {
      if k in view1 {
        var a :| 0 <= a < |order| && order[a] == k;
        assert all[a] == k;
      } else {
        var a :| 0 <= a < |created| && created[a] == k;
        assert all[|order| + a] == k;
      }
    }
  }

  /** The detection indices taken by the tracks at positions below a of order, the ones in use at a's turn. */
  ghost function UsedBefore(order: seq<int>, a: int, matches: map<int, int>): set<int>
  {
    set b | 0 <= b < a && b < |order| && order[b] in matches :: matches[order[b]]
  }

  /**
   * The greedy choice of the first j rounds of the matching loop: the track
   * at each position took the best detection among those still unused at its
   * turn (largest IoU against its previous box, above 0.2, the first on ties),
   * or missed because no unused detection overlapped it by IoU above 0.2.
   */
  ghost predicate GreedyChoices(view0: map<int, TrackView>, dets: seq<Detection>, order: seq<int>, j: int,
                                matches: map<int, int>)
  {
    forall a :: 0 <= a < j && a < |order| && order[a] in view0 ==>
      (order[a] in matches ==> IsBestMatch(view0[order[a]].box, dets, UsedBefore(order, a, matches), matches[order[a]])) &&
      (order[a] !in matches ==> NoMatch(view0[order[a]].box, dets, UsedBefore(order, a, matches)))
  }

  /** The first j rounds chose greedily, and used holds the detections they took. */
  ghost predicate GreedySoFar(view0: map<int, TrackView>, dets: seq<Detection>, order: seq<int>, j: int,
                              matches: map<int, int>, used: set<int>)
  {
    GreedyChoices(view0, dets, order, j, matches) && used == UsedBefore(order, j, matches)
  }

  /** A choice for order[j] leaves the choices and the detections in use before it as they were. */
  lemma UsedBeforeKept(order: seq<int>, j: int, matches: map<int, int>, best: int)
    requires 0 <= j < |order| && forall a, b :: 0 <= a < b < |order| ==> order[a] != order[b]
    ensures forall a :: 0 <= a <= j ==> UsedBefore(order, a, matches[order[j] := best]) == UsedBefore(order, a, matches)
  {
    forall a | 0 <= a <= j ensures UsedBefore(order, a, matches[order[j] := best]) == UsedBefore(order, a, matches) {
      forall b | 0 <= b < a ensures order[b] != order[j] {
      }
    }
  }

  /** Round j of the loop, matched: the greedy choices extend by the best match. */
  lemma {:induction false} GreedyTake(view0: map<int, TrackView>, dets: seq<Detection>, order: seq<int>, j: int,
                                      matches: map<int, int>, used: set<int>, best: int)
    requires 0 <= j < |order| && forall a, b :: 0 <= a < b < |order| ==> order[a] != order[b]
    requires order[j] in view0 && order[j] !in matches
    requires GreedyChoices(view0, dets, order, j, matches) && used == UsedBefore(order, j, matches)
    requires IsBestMatch(view0[order[j]].box, dets, used, best)
    ensures GreedyChoices(view0, dets, order, j + 1, matches[order[j] := best])
    ensures used + {best} == UsedBefore(order, j + 1, matches[order[j] := best])
  {
    var m := matches[order[j] := best];
    UsedBeforeKept(order, j, matches, best);
    forall a | 0 <= a < j && order[a] in view0
      ensures order[a] in m <==> order[a] in matches
      ensures order[a] in matches ==> m[order[a]] == matches[order[a]]
    {
    }
    assert UsedBefore(order, j + 1, m) == UsedBefore(order, j, m) + {best} by {
      forall i | i in UsedBefore(order, j + 1, m) ensures i in UsedBefore(order, j, m) + {best} {
        var b :| 0 <= b < j + 1 && b < |order| && order[b] in m && m[order[b]] == i;
        if b < j {
          assert i in UsedBefore(order, j, m);
        }
      }
      assert order[j] in m && m[order[j]] == best;
    }
  }

  /** Round j of the loop, missed: the greedy choices extend by the miss. */
  lemma {:induction false} GreedyMiss(view0: map<int, TrackView>, dets: seq<Detection>, order: seq<int>, j: int,
                                      matches: map<int, int>, used: set<int>)
    requires 0 <= j < |order| && order[j] !in matches
    requires GreedyChoices(view0, dets, order, j, matches) && used == UsedBefore(order, j, matches)
    requires order[j] in view0 ==> NoMatch(view0[order[j]].box, dets, used)
    ensures GreedyChoices(view0, dets, order, j + 1, matches)
    ensures used == UsedBefore(order, j + 1, matches)
  {
    assert UsedBefore(order, j + 1, matches) == UsedBefore(order, j, matches) by {
      forall i | i in UsedBefore(order, j + 1, matches) ensures i in UsedBefore(order, j, matches) {
        var b :| 0 <= b < j + 1 && b < |order| && order[b] in matches && matches[order[b]] == i;
      }
    }
  }

  /** The ids visited by the first j rounds of a loop over order. */
  ghost function Visited(order: seq<int>, j: int): set<int>
  {
    set i | 0 <= i < j && i < |order| :: order[i]
  }

  lemma VisitedStep(order: seq<int>, j: int)
    requires 0 <= j < |order|
    requires forall a, b :: 0 <= a < b < |order| ==> order[a] != order[b]
    ensures order[j] !in Visited(order, j)
    ensures Visited(order, j + 1) == Visited(order, j) + {order[j]}
  {
  }

  lemma VisitedAll(order: seq<int>, keys: set<int>)
    requires EnumerationOrder(order, keys)
    ensures Visited(order, |order|) == keys
  {
    forall k | k in keys ensures k in Visited(order, |order|) {
      var i :| 0 <= i < |order| && order[i] == k;
    }
  }

  /** Once the loop has visited every id of the enumeration, every track has been visited. */
  lemma OutcomeAllVisited(view0: map<int, TrackView>, view: map<int, TrackView>, ids0: map<int, int>, ids: map<int, int>,
                          dets: seq<Detection>, time: real, used: set<int>, matches: map<int, int>, order: seq<int>)
    requires EnumerationOrder(order, view0.Keys)
    requires MatchOutcome(view0, view, ids0, ids, dets, time, used, matches, Visited(order, |order|))
    ensures MatchOutcome(view0, view, ids0, ids, dets, time, used, matches, view0.Keys)
  {
    VisitedAll(order, view0.Keys);
  }

  class MainWindowViewModel {
    var tracks: map<int, TrackedObject>
    var modelCache: map<int, string>
    var colorCache: map<int, Scalar>
    var countL: int
    var countF: int
    var countR: int
    var countedIds: set<int>
    const ids: IdCounter

    /** Every track sits under its own id, and the id counter is past all of them. */
    predicate Valid()
      reads this, ids
    {
      (forall k :: k in tracks ==> tracks[k].id == k && k < ids.next) &&
      Balanced(Tally(countL, countF, countR, countedIds))
    }

    constructor (ids: IdCounter)
      ensures this.ids == ids && tracks == map[] && modelCache == map[] && colorCache == map[]
      ensures countL == 0 && countF == 0 && countR == 0 && countedIds == {}
      ensures Valid()
    {
      this.ids := ids;
      tracks := map[];
      modelCache := map[];
      colorCache := map[];
      countL, countF, countR := 0, 0, 0;
      countedIds := {};
    }

    function Tracked(): set<object>
      reads this
    {
      set k | k in tracks :: tracks[k]
    }

    /** The last box of every track, by id. */
    function Boxes(): map<int, Rect>
      reads this, Tracked()
    {
      map k | k in tracks :: tracks[k].lastBox
    }

    /** What the matcher sees of every track, by id. */
    function View(): map<int, TrackView>
      reads this, Tracked()
    {
      map k | k in tracks :: ViewOf(tracks[k])
    }

    /** The TrackId of every detection, by index. */
    static function TrackIds(dets: seq<Detection>): map<int, int>
      reads DetSet(dets)
    {
      map i | 0 <= i < |dets| :: dets[i].trackId
    }

    /** UpdateCounting: count each id once, when its centre has passed 70% of the frame height. */
    method UpdateCounting(w: int, h: int, order: seq<int>)
      requires Valid() && EnumerationOrder(order, tracks.Keys)
      modifies this
      ensures tracks == old(tracks) && modelCache == old(modelCache) && colorCache == old(colorCache)
      ensures Tally(countL, countF, countR, countedIds) ==
              CountAll(old(Tally(countL, countF, countR, countedIds)), Sightings(order, old(Boxes())), w, CountLine(h))
      ensures Valid()
    {
      var lineY := CountLine(h);
      ghost var t0 := Tally(countL, countF, countR, countedIds);
      ghost var boxes := Boxes();
      var j := 0;
      while j < |order|
        invariant 0 <= j <= |order|
        invariant tracks == old(tracks) && modelCache == old(modelCache) && colorCache == old(colorCache)
        invariant forall k :: k in tracks ==> tracks[k].id == k
        invariant Tally(countL, countF, countR, countedIds) == CountAll(t0, Sightings(order[..j], boxes), w, lineY)
      {
        var track := tracks[order[j]];
        ghost var before := Tally(countL, countF, countR, countedIds);
        assert order[..j + 1][..j] == order[..j];
        assert Sightings(order[..j + 1], boxes) == Sightings(order[..j], boxes) + [Sighting(order[j], Center(boxes[order[j]]))];
        assert track.lastBox == boxes[order[j]] && track.id == order[j];
        CountTrack(track.id, track.lastBox, w, lineY);
        assert Tally(countL, countF, countR, countedIds) == CountOne(before, order[j], Center(boxes[order[j]]), w, lineY);
        j := j + 1;
      }
      assert order[..|order|] == order;
      CountAllBalanced(t0, Sightings(order, boxes), w, lineY);
    }

    /** The body of UpdateCounting's loop, for one track. */
    method CountTrack(id: int, lastBox: Rect, w: int, lineY: int)
      modifies this
      ensures tracks == old(tracks) && modelCache == old(modelCache) && colorCache == old(colorCache)
      ensures Tally(countL, countF, countR, countedIds) ==
              CountOne(old(Tally(countL, countF, countR, countedIds)), id, Center(lastBox), w, lineY)
    {
      if id !in countedIds {
        var center := Center(lastBox);
        if center.y > lineY {
          var dir := DirectionOf(center.x, w);
          if dir == Left {
            countL := countL + 1;
          } else if dir == Right {
            countR := countR + 1;
          } else {
            countF := countF + 1;
          }
          countedIds := countedIds + {id};
        }
      }
    }

    /** The detections as a set of objects, for frames. */
    static function DetSet(dets: seq<Detection>): set<object>
    {
      set i | 0 <= i < |dets| :: dets[i]
    }

    /**
     * Round j of MatchExisting's loop: the track under id order[j] takes its
     * best unused detection, or misses.
     */
    method MatchStep(dets: seq<Detection>, time: real, order: seq<int>, j: int, used0: set<int>,
                     ghost matches0: map<int, int>, ghost view0: map<int, TrackView>, ghost ids0: map<int, int>)
      returns (used: set<int>, ghost matches: map<int, int>)
      requires Valid() && DistinctDetections(dets)
      requires this !in Tracked() && ids !in Tracked() && this !in DetSet(dets) && ids !in DetSet(dets)
      requires 0 <= j < |order| && order[j] in tracks
      requires forall a, b :: 0 <= a < b < |order| ==> order[a] != order[b]
      requires MatchOutcome(view0, View(), ids0, TrackIds(dets), dets, time, used0, matches0, Visited(order, j))
      requires GreedySoFar(view0, dets, order, j, matches0, used0)
      modifies Tracked(), DetSet(dets)
      ensures Valid()
      ensures MatchOutcome(view0, View(), ids0, TrackIds(dets), dets, time, used, matches, Visited(order, j + 1))
      ensures GreedySoFar(view0, dets, order, j + 1, matches, used)
    {
      VisitedStep(order, j);
      var k := order[j];
      used, matches := MatchTrack(dets, time, k, used0, matches0, Visited(order, j), view0, ids0);
      if k in matches {
        GreedyTake(view0, dets, order, j, matches0, used0, matches[k]);
      } else {
        GreedyMiss(view0, dets, order, j, matches0, used0);
      }
    }

    /** The track under id k takes its best unused detection, or misses. */
    method MatchTrack(dets: seq<Detection>, time: real, k: int, used0: set<int>, ghost matches0: map<int, int>,
                      ghost done0: set<int>, ghost view0: map<int, TrackView>, ghost ids0: map<int, int>)
      returns (used: set<int>, ghost matches: map<int, int>)
      requires forall k' :: k' in tracks ==> tracks[k'].id == k'
      requires DistinctDetections(dets)
      requires k in tracks && k !in done0
      requires MatchOutcome(view0, View(), ids0, TrackIds(dets), dets, time, used0, matches0, done0)
      modifies Tracked(), DetSet(dets)
      ensures MatchOutcome(view0, View(), ids0, TrackIds(dets), dets, time, used, matches, done0 + {k})
      ensures k in matches ==>
        matches == matches0[k := matches[k]] && used == used0 + {matches[k]} &&
        IsBestMatch(view0[k].box, dets, used0, matches[k])
      ensures k !in matches ==> matches == matches0 && used == used0 && NoMatch(view0[k].box, dets, used0)
    {
      ghost var view, tids := View(), TrackIds(dets);
      var box := tracks[k].lastBox;
      assert box == view0[k].box && k !in matches0 by {
        assert view[k] == view0[k];
      }
      var best := BestMatch(box, dets, used0);
      if best != -1 {
        TakeStep(dets, time, k, best);
        OutcomeTake(view0, view, ids0, tids, dets, time, used0, matches0, done0, k, best, View(), TrackIds(dets));
        used, matches := used0 + {best}, matches0[k := best];
      } else {
        MissStep(dets, k);
        OutcomeMiss(view0, view, ids0, tids, dets, time, used0, matches0, done0, k, View(), TrackIds(dets));
        used, matches := used0, matches0;
      }
    }

    /** The matched branch: the detection takes the track's id, the track takes the detection (Update). */
    method TakeStep(dets: seq<Detection>, time: real, k: int, best: int)
      requires forall k' :: k' in tracks ==> tracks[k'].id == k'
      requires DistinctDetections(dets)
      requires k in tracks && 0 <= best < |dets|
      modifies tracks[k], dets[best]
      ensures View() == old(View())[k := Took(old(View())[k], dets[best], time)]
      ensures TrackIds(dets) == old(TrackIds(dets))[best := k]
    {
      var track := tracks[k];
      dets[best].trackId := track.id;
      track.Update(dets[best], time);
      assert forall k' :: k' in tracks && k' != k ==> tracks[k'] != track;
    }

    /** The unmatched branch: Missed. */
    method MissStep(dets: seq<Detection>, k: int)
      requires forall k' :: k' in tracks ==> tracks[k'].id == k'
      requires k in tracks
      modifies tracks[k]
      ensures View() == old(View())[k := MissedView(old(View())[k])]
      ensures TrackIds(dets) == old(TrackIds(dets))
    {
      var track := tracks[k];
      track.Missed();
      assert forall k' :: k' in tracks && k' != k ==> tracks[k'] != track;
    }

    /**
     * The first loop of TrackAndMatch: every track, in enumeration order, takes
     * its best unused detection (Update) or is marked missed (Missed).
     */
    method MatchExisting(dets: seq<Detection>, time: real, order: seq<int>)
      returns (used: set<int>, ghost matches: map<int, int>)
      requires Valid() && EnumerationOrder(order, tracks.Keys) && DistinctDetections(dets)
      modifies Tracked(), DetSet(dets)
      ensures Valid()
      ensures MatchOutcome(old(View()), View(), old(TrackIds(dets)), TrackIds(dets), dets, time, used, matches, tracks.Keys)
      ensures GreedyChoices(old(View()), dets, order, |order|, matches)
    {
      ghost var view0, ids0 := View(), TrackIds(dets);
      used, matches := MatchRounds(dets, time, order);
      assert view0.Keys == tracks.Keys;
      OutcomeAllVisited(view0, View(), ids0, TrackIds(dets), dets, time, used, matches, order);
    }

    /** The loop of MatchExisting: one MatchStep per track, in the order given. */
    method MatchRounds(dets: seq<Detection>, time: real, order: seq<int>)
      returns (used: set<int>, ghost matches: map<int, int>)
      requires Valid() && EnumerationOrder(order, tracks.Keys) && DistinctDetections(dets)
      modifies Tracked(), DetSet(dets)
      ensures Valid()
      ensures MatchOutcome(old(View()), View(), old(TrackIds(dets)), TrackIds(dets), dets, time, used, matches, Visited(order, |order|))
      ensures GreedySoFar(old(View()), dets, order, |order|, matches, used)
    {
      ghost var view0, ids0 := View(), TrackIds(dets);
      used := {};
      matches := map[];
      var j := 0;
      OutcomeStart(view0, ids0, dets, time);
      assert Visited(order, 0) == {} && UsedBefore(order, 0, matches) == {};
      while j < |order|
        invariant 0 <= j <= |order|
        invariant this !in Tracked() && ids !in Tracked() && this !in DetSet(dets) && ids !in DetSet(dets)
        invariant Valid() && EnumerationOrder(order, tracks.Keys)
        invariant MatchOutcome(view0, View(), ids0, TrackIds(dets), dets, time, used, matches, Visited(order, j))
        invariant GreedySoFar(view0, dets, order, j, matches, used)
      {
        used, matches := MatchStep(dets, time, order, j, used, matches, view0, ids0);
        j := j + 1;
      }
    }

    /**
     * The second loop of TrackAndMatch: every detection index outside used, in
     * index order, starts a new track under the next id and takes that id.
     * created lists the new ids in order of creation; origin maps each to the
     * detection it came from.
     */
    method CreateTracks(dets: seq<Detection>, time: real, used: set<int>)
      returns (created: seq<int>, ghost origin: map<int, int>)
      requires Valid() && DistinctDetections(dets)
      modifies this, ids, DetSet(dets)
      ensures Valid()
      ensures modelCache == old(modelCache) && colorCache == old(colorCache)
      ensures Tally(countL, countF, countR, countedIds) == old(Tally(countL, countF, countR, countedIds))
      ensures CreateOutcome(old(View()), View(), old(TrackIds(dets)), TrackIds(dets), dets, time, used,
                            old(ids.next), ids.next, created, origin, |dets|)
    {
      ghost var view0, ids0, next0 := View(), TrackIds(dets), ids.next;
      created, origin := [], map[];
      var i := 0;
      CreateStart(view0, ids0, dets, time, used, next0);
      while i < |dets|
        invariant 0 <= i <= |dets|
        invariant this !in DetSet(dets) && ids !in DetSet(dets)
        invariant Valid()
        invariant modelCache == old(modelCache) && colorCache == old(colorCache)
        invariant Tally(countL, countF, countR, countedIds) == old(Tally(countL, countF, countR, countedIds))
        invariant CreateOutcome(view0, View(), ids0, TrackIds(dets), dets, time, used, next0, ids.next, created, origin, i)
      {
        if i !in used {
          ghost var view, tids, next := View(), TrackIds(dets), ids.next;
          var id := StartTrack(dets, time, i);
          CreateTake(view0, view, ids0, tids, dets, time, used, next0, next, created, origin, i, View(), TrackIds(dets));
          created, origin := created + [id], origin[id := i];
        } else {
          CreateSkip(view0, View(), ids0, TrackIds(dets), dets, time, used, next0, ids.next, created, origin, i);
        }
        i := i + 1;
      }
    }

    /** The body of CreateTracks' loop: a new track from detection i, stored under its id. */
    method StartTrack(dets: seq<Detection>, time: real, i: int) returns (id: int)
      requires Valid() && DistinctDetections(dets) && 0 <= i < |dets|
      requires this !in DetSet(dets) && ids !in DetSet(dets)
      modifies this, ids, dets[i]
      ensures Valid()
      ensures modelCache == old(modelCache) && colorCache == old(colorCache)
      ensures Tally(countL, countF, countR, countedIds) == old(Tally(countL, countF, countR, countedIds))
      ensures id == old(ids.next) && ids.next == id + 1 && id !in old(View())
      ensures View() == old(View())[id := Fresh(dets[i], time)]
      ensures TrackIds(dets) == old(TrackIds(dets))[i := id]
    {
      var nt := new TrackedObject(ids, dets[i], time);
      tracks := tracks[nt.id := nt];
      id := nt.id;
    }

    /**
     * The third step of TrackAndMatch: every track that ShouldBeDeleted is
     * removed, and its id with it from the model and colour caches. order is
     * the enumeration order of the tracks.
     */
    method RemoveDeleted(order: seq<int>, ghost dets: seq<Detection>)
      requires Valid() && EnumerationOrder(order, tracks.Keys)
      modifies this
      ensures Valid()
      ensures TrackIds(dets) == old(TrackIds(dets))
      ensures Tally(countL, countF, countR, countedIds) == old(Tally(countL, countF, countR, countedIds))
      ensures View() == Surviving(old(View()))
      ensures forall k :: k in tracks ==> k in old(tracks) && tracks[k] == old(tracks[k]) && !tracks[k].ShouldBeDeleted()
      ensures forall k :: k in modelCache <==> k in old(modelCache) && (k in old(tracks) ==> k in tracks)
      ensures forall k :: k in modelCache ==> modelCache[k] == old(modelCache[k])
      ensures forall k :: k in colorCache <==> k in old(colorCache) && (k in old(tracks) ==> k in tracks)
      ensures forall k :: k in colorCache ==> colorCache[k] == old(colorCache[k])
    {
      ghost var view0 := View();
      RemoveEach(order);
      forall k ensures k in View() <==> k in Surviving(view0) {
        if k in old(tracks) {
          assert view0[k] == old(ViewOf(tracks[k]));
        }
      }
      forall k | k in tracks ensures View()[k] == view0[k] {
        assert tracks[k] == old(tracks[k]);
      }
    }

    /** RemoveDeleted's loop: visit the tracks in order and remove each one that ShouldBeDeleted. */
    method RemoveEach(order: seq<int>)
      requires Valid() && EnumerationOrder(order, tracks.Keys)
      modifies this
      ensures Valid()
      ensures Tally(countL, countF, countR, countedIds) == old(Tally(countL, countF, countR, countedIds))
      ensures forall k :: k in tracks <==> k in old(tracks) && !old(tracks[k].ShouldBeDeleted())
      ensures forall k :: k in tracks ==> tracks[k] == old(tracks[k])
      ensures forall k :: k in modelCache <==> k in old(modelCache) && (k in old(tracks) ==> k in tracks)
      ensures forall k :: k in modelCache ==> modelCache[k] == old(modelCache[k])
      ensures forall k :: k in colorCache <==> k in old(colorCache) && (k in old(tracks) ==> k in tracks)
      ensures forall k :: k in colorCache ==> colorCache[k] == old(colorCache[k])
    {
      var j := 0;
      while j < |order|
        invariant 0 <= j <= |order|
        invariant Valid()
        invariant Tally(countL, countF, countR, countedIds) == old(Tally(countL, countF, countR, countedIds))
        invariant forall k :: k in tracks <==> k in old(tracks) && !(k in Visited(order, j) && old(tracks[k].ShouldBeDeleted()))
        invariant forall k :: k in tracks ==> tracks[k] == old(tracks[k])
        invariant forall k :: k in modelCache <==>
          k in old(modelCache) && !(k in old(tracks) && k in Visited(order, j) && old(tracks[k].ShouldBeDeleted()))
        invariant forall k :: k in modelCache ==> modelCache[k] == old(modelCache[k])
        invariant forall k :: k in colorCache <==>
          k in old(colorCache) && !(k in old(tracks) && k in Visited(order, j) && old(tracks[k].ShouldBeDeleted()))
        invariant forall k :: k in colorCache ==> colorCache[k] == old(colorCache[k])
      {
        VisitedStep(order, j);
        var k := order[j];
        assert k in old(tracks);
        if tracks[k].ShouldBeDeleted() {
          tracks := tracks - {k};
          modelCache := modelCache - {k};
          colorCache := colorCache - {k};
        }
        j := j + 1;
      }
      VisitedAll(order, old(tracks).Keys);
    }

    /**
     * TrackAndMatch for one frame's detections: match existing tracks, start
     * tracks for the unmatched detections, drop tracks missed too often along
     * with their cache entries. order is the enumeration order of the tracks.
     */
    method TrackAndMatch(dets: seq<Detection>, time: real, order: seq<int>)
      returns (ghost matches: map<int, int>, ghost origin: map<int, int>)
      requires Valid() && EnumerationOrder(order, tracks.Keys) && DistinctDetections(dets)
      modifies this, ids, Tracked(), DetSet(dets)
      ensures Valid()
      ensures Tally(countL, countF, countR, countedIds) == old(Tally(countL, countF, countR, countedIds))
      ensures forall k :: k in tracks ==> !tracks[k].ShouldBeDeleted()
      ensures TracksOutcome(old(View()), View(), dets, time, matches, origin, old(ids.next))
      ensures TagsOutcome(View(), TrackIds(dets), dets, matches, origin)
      ensures GreedyChoices(old(View()), dets, order, |order|, matches)
      ensures forall k :: k in modelCache <==> k in old(modelCache) && (k in old(tracks) ==> k in tracks)
      ensures forall k :: k in modelCache ==> modelCache[k] == old(modelCache[k])
      ensures forall k :: k in colorCache <==> k in old(colorCache) && (k in old(tracks) ==> k in tracks)
      ensures forall k :: k in colorCache ==> colorCache[k] == old(colorCache[k])
    {
      ghost var view0, ids0 := View(), TrackIds(dets);
      var created;
      ghost var used, view1, ids1;
      created, used, matches, origin, view1, ids1 := MatchAndCreate(dets, time, order);
      ghost var view2, ids2 := View(), TrackIds(dets);
      RemoveDeleted(order + created, dets);
      FrameTracks(view0, view1, view2, View(), ids0, ids1, ids2, dets, time, used, matches, old(ids.next), ids.next, created, origin);
      FrameTags(view0, view1, view2, View(), ids0, ids1, ids2, dets, time, used, matches, old(ids.next), ids.next, created, origin);
    }

    /** The first two steps of TrackAndMatch: match the existing tracks, then start new ones. */
    method MatchAndCreate(dets: seq<Detection>, time: real, order: seq<int>)
      returns (created: seq<int>, ghost used: set<int>, ghost matches: map<int, int>, ghost origin: map<int, int>,
               ghost view1: map<int, TrackView>, ghost ids1: map<int, int>)
      requires Valid() && EnumerationOrder(order, tracks.Keys) && DistinctDetections(dets)
      modifies this, ids, Tracked(), DetSet(dets)
      ensures Valid()
      ensures modelCache == old(modelCache) && colorCache == old(colorCache)
      ensures Tally(countL, countF, countR, countedIds) == old(Tally(countL, countF, countR, countedIds))
      ensures MatchOutcome(old(View()), view1, old(TrackIds(dets)), ids1, dets, time, used, matches, old(View()).Keys)
      ensures GreedyChoices(old(View()), dets, order, |order|, matches)
      ensures CreateOutcome(view1, View(), ids1, TrackIds(dets), dets, time, used, old(ids.next), ids.next, created, origin, |dets|)
      ensures EnumerationOrder(order + created, tracks.Keys)
    {
      var matchedIdx;
      matchedIdx, matches := MatchExisting(dets, time, order);
      used := matchedIdx;
      view1, ids1 := View(), TrackIds(dets);
      created, origin := CreateTracks(dets, time, matchedIdx);
      CreatedEnumeration(order, view1, View(), ids1, TrackIds(dets), dets, time, used, old(ids.next), ids.next, created, origin, |dets|);
    }
  }
}
