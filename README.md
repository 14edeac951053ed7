# Vehicle counting and lane analysis: a Dafny model of the discrete core

The WpfApp1 application plays a traffic video and runs two ONNX detectors on each frame.
YOLOv8 finds vehicles. YOLOP finds vehicles, the drivable area and lane lines.
The application then tracks the vehicles, counts them once each as they cross a line,
and splits the road into lanes. A small Flask service does its own lane finding
on JPEG frames.

Underneath the glue to OpenCV, ONNX Runtime, WPF and Flask lie these discrete algorithms.
This project states and proves them:

| module (file) | models |
|---|---|
| `Numerics` (numerics.dfy) | .NET `Math.Clamp` and `Math.Round`, and the truncating casts of C# and Python |
| `Geometry` (geometry.dfy) | OpenCvSharp `Point` and `Rect`, and the `Detection` record; `TrackId` is its one mutable field |
| `Sorting` (sorting.dfy) | a reference sort by key; it stands for `List.Sort` and `OrderByDescending` |
| `Nms` (nms.dfy) | `IoU` and the greedy per-class `NmsByClass`, which YoloV8Onnx.cs and YolopOnnx.cs duplicate |
| `DetectorParse` (detector_parse.dfy) | the class, score and size filters of `ParseOutput_1x84x8400` and `ParseDetOut`; `ProbToBinaryMask` |
| `Tracking` (tracked_object.dfy) | the `TrackedObject` life cycle: ids, `Update`, `Missed`, `ShouldBeDeleted`, the speed guards |
| `ViewModel` (view_model.dfy) | `TrackAndMatch`, `UpdateCounting` and `GetTypeName` of `MainWindowViewModel` |
| `LaneServer` (lane_server.dfy) | `process_lane_detection` of lane_server.py, with OpenCV as uninterpreted functions |
| `LaneScan` (lane_scan.dfy) | `MakeOdd`, `ReduceColumnSumToInt`, the corridor scans and `FindPeaks` of LaneAnalyzer.cs |
| `LaneCandidates` (lane_candidates.dfy) | `BuildSampleYs`, and the band peaks and stitching of `BuildCandidatePolylinesRoi` |
| `LaneBoundaries` (lane_boundaries.dfy) | the boundary stage of `AnalyzeCore`, from expected positions to drawn polylines |
| `LaneAnalysis` (lane_analyzer.dfy) | the `LaneAnalyzer` object: the ROI, `AnalyzeCore`, `Analyze` and `TryGetLaneNumberForPoint` |

The model follows the form of the source:

- Objects whose fields change become classes with `modifies` clauses: `TrackedObject`, the view model, the lane service's history and `LaneAnalyzer`.
- Loops become methods with invariants, proved against a specification function. Examples: `NmsByClass` against `NmsSpec`, `SlidingWindows` against `Walk`, `EnforceMonotonic` against `Spread`.
- Pure expressions become functions and lemmas.
- Floating-point values are reals.
- C# `(int)` casts and Python `int()` are `TruncToInt`. `Math.Round` is `RoundHalfEven`.
- A .NET exception or a NumPy error becomes `None` or `Raises`.

## Model

| member | source | states |
|---|---|---|
| Numerics.Clamp | WpfApp1/Script/LaneAnalyzer.cs:254-261 | `Math.Clamp`: the result lies in [lo, hi], is v inside it and the nearer end outside it; the empty range is excluded because .NET throws |
| Numerics.TruncToInt | WpfApp1/Script/LaneAnalyzer.cs:257 | the `(int)` cast lies within 1 of its argument, toward zero |
| Numerics.TruncDiv | WpfApp1/Script/LaneAnalyzer.cs:261 | C# integer division truncates toward zero, unlike Dafny's Euclidean division |
| Numerics.RoundHalfEven | WpfApp1/Script/LaneAnalyzer.cs:528 | `Math.Round` lands within 0.5 of its argument |
| Sorting.SortBySorted | WpfApp1/Script/LaneAnalyzer.cs:678 | the reference sort orders by its key; `SortBy` is a permutation of its input |
| Sorting.SortStrictlySortedIsIdentity | WpfApp1/Script/LaneAnalyzer.cs:606 | sorting a sequence already strictly ordered by the key leaves it unchanged |
| Geometry.Detection.constructor | WpfApp1/Models/Detection.cs:12-23 | a detection carries its box, class and score, and no track id (-1) |
| Nms.Intersection | WpfApp1/Script/YoloV8Onnx.cs:161-168 | the intersection area is never negative: each side is clamped at 0 |
| Nms.IoUSymmetric | WpfApp1/Script/YoloV8Onnx.cs:159-174 | IoU(a, b) == IoU(b, a) |
| Nms.IoUOfDisjoint | WpfApp1/Script/YolopOnnx.cs:185-200 | rectangles apart horizontally or vertically have IoU 0 |
| Nms.IoUInUnitInterval | WpfApp1/Script/YoloV8Onnx.cs:159-174 | for boxes with non-negative sides, IoU lies in [0, 1) |
| Nms.KeepBelow | WpfApp1/Script/YoloV8Onnx.cs:190 | the `Where` keeps a sub-multiset, all of it overlapping `best` by less than the threshold |
| Nms.NmsByClass | WpfApp1/Script/YoloV8Onnx.cs:176-195 | the method's loops compute `NmsSpec`: each class group in first-appearance order, score-sorted, greedily thinned |
| Nms.SuppressInto | WpfApp1/Script/YolopOnnx.cs:210-217 | the `while (sorted.Count > 0)` loop appends exactly the greedy survivors of one group |
| Nms.GreedySubMultiset | WpfApp1/Script/YoloV8Onnx.cs:184-191 | one greedy pass keeps a sub-multiset of its input |
| Nms.GreedySeparated | WpfApp1/Script/YoloV8Onnx.cs:184-191 | two survivors of one pass overlap by less than the threshold |
| Nms.GreedySorted | WpfApp1/Script/YoloV8Onnx.cs:182-191 | a pass over a score-sorted group keeps its survivors score-sorted |
| Nms.GreedyDroppedSuppressed | WpfApp1/Script/YoloV8Onnx.cs:186-190 | every element a pass drops overlaps, at or above the threshold, a survivor scored no lower |
| Nms.GroupOfNms | WpfApp1/Script/YoloV8Onnx.cs:180-192 | restricted to one class, the output is exactly that class's greedy pass |
| Nms.GroupMembers | WpfApp1/Script/YoloV8Onnx.cs:180 | a `GroupBy` group holds exactly the detections of its class |
| Nms.ClassKeysProps | WpfApp1/Script/YoloV8Onnx.cs:180 | the group keys are distinct and are exactly the classes present |
| Nms.NmsSubMultiset | WpfApp1/Script/YolopOnnx.cs:202-221 | the output is a sub-multiset of the input, so never longer |
| Nms.NmsSameClassSeparated | WpfApp1/Script/YoloV8Onnx.cs:184-191 | two kept detections of one class have IoU < iouThres |
| Nms.NmsSameClassScoreOrder | WpfApp1/Script/YoloV8Onnx.cs:182-187 | within a class, kept detections appear in non-increasing score order |
| Nms.NmsKeepsClassMaximum | WpfApp1/Script/YolopOnnx.cs:208-213 | for every class present, a detection with the class's top score is kept |
| Nms.NmsDroppedSuppressed | WpfApp1/Script/YolopOnnx.cs:208-216 | every dropped detection overlaps, at or above the threshold, a kept detection of its class with no lower score |
| DetectorParse.ClampedBox | WpfApp1/Script/YoloV8Onnx.cs:141-151 | corners are clamped into the frame and the box truncated; a box under 10 x 10 is dropped |
| DetectorParse.ClampedBoxInFrame | WpfApp1/Script/YolopOnnx.cs:167-177 | a surviving box has both corners in [0, origW-1] x [0, origH-1] |
| DetectorParse.BestOfIsFirstStrictMax | WpfApp1/Script/YoloV8Onnx.cs:115-126 | with `>` and start (-1, 0), the running best is class -1 when no score is positive, otherwise the first class with the maximum score |
| DetectorParse.BestClass | WpfApp1/Script/YoloV8Onnx.cs:115-126 | the class loop computes that running best |
| DetectorParse.ParseV8 | WpfApp1/Script/YoloV8Onnx.cs:103-157 | the parser returns, in column order, newly allocated and pairwise distinct detections, each with TrackId -1, holding exactly the surviving candidates |
| DetectorParse.V8CandidatesSound | WpfApp1/Script/YoloV8Onnx.cs:115-151 | a survivor has class 2, 5 or 7, is the strict first argmax, scores at least the threshold, and has a box of at least 10 x 10 inside the frame |
| DetectorParse.V8CandidateSound | WpfApp1/Script/YoloV8Onnx.cs:108-153 | the same, for every detection the whole parse returns |
| DetectorParse.V8NonPositiveDropped | WpfApp1/Script/YoloV8Onnx.cs:115-128 | a column whose scores are all non-positive yields nothing, whatever the threshold |
| DetectorParse.ScanMaxCoord | WpfApp1/Script/YolopOnnx.cs:139-141 | `maxCoord` is the maximum of 0 and columns 2 and 3 over the first min(n, 200) rows |
| DetectorParse.ParseDetOut | WpfApp1/Script/YolopOnnx.cs:132-183 | the parser returns, in row order, newly allocated and pairwise distinct detections with TrackId -1, holding exactly the surviving rows, normalised (x640) iff `maxCoord` <= 1.5 |
| DetectorParse.DetCandidatesSound | WpfApp1/Script/YolopOnnx.cs:154-179 | a survivor scores at least the threshold and has a box of at least 10 x 10 inside the frame |
| DetectorParse.DetLowScoreDropped | WpfApp1/Script/YolopOnnx.cs:154 | a row scored below the threshold never survives |
| DetectorParse.ProbToBinaryMask | WpfApp1/Script/YolopOnnx.cs:260-273 | a fresh mask of the input's size, each pixel 255 iff p >= thr, else 0 |
| Tracking.CenterInside | WpfApp1/Models/TrackedObject.cs:62 | the centre (X + W/2, Y + H/2), integer division, lies in a box at least one pixel wide and high |
| Tracking.KeepRecent | WpfApp1/Models/TrackedObject.cs:46-47 | `RemoveAll` keeps only entries at or after the cutoff, each from the history |
| Tracking.KeepRecentKeepsAllRecent | WpfApp1/Models/TrackedObject.cs:46-47 | no entry at or after the cutoff is lost, and every occurrence is kept |
| Tracking.KeepRecentIsSubsequence | WpfApp1/Models/TrackedObject.cs:47 | pruning keeps the relative order of retained entries |
| Tracking.KeepRecentAppendLast | WpfApp1/Models/TrackedObject.cs:41-47 | the entry just appended at t survives pruning at t - 2000 and stays last |
| Tracking.FirstAtOrBeforeFound | WpfApp1/Models/TrackedObject.cs:76-77 | `FirstOrDefault` gives the default, or a history entry at or before the threshold; the default when there is none |
| Tracking.FirstQualifying | WpfApp1/Models/TrackedObject.cs:76-77 | when some entry is at or before the threshold, `FirstOrDefault` returns the entry at the least such index: every earlier entry is later than the threshold |
| Tracking.SpeedMeasuredSpan | WpfApp1/Models/TrackedObject.cs:73-93 | a measured speed runs from a history entry at least 300 ms older than the last entry to the last entry, so the 100 ms guard never decides |
| Tracking.SpeedZeroCases | WpfApp1/Models/TrackedObject.cs:67-93 | the speed is 0 exactly when there are fewer than 2 entries, or no entry is 300 ms or more older than the last, or the first such entry equals `default` (centre (0, 0), time 0), which `Equals(default)` takes for "none found" |
| Tracking.IdCounter.constructor | WpfApp1/Models/TrackedObject.cs:24 | `_nextId` starts at 1 |
| Tracking.TrackedObject.constructor | WpfApp1/Models/TrackedObject.cs:26-31 | the object takes `_nextId`, which grows by 1, then runs Update on the first detection |
| Tracking.TrackedObject.Update | WpfApp1/Models/TrackedObject.cs:34-50 | box, class and the detection's TrackId are set; TrackCount grows by 1; MissedCount is 0; the centre is appended and entries older than t - 2000 pruned; the speed is recomputed |
| Tracking.TrackedObject.CalculateRelativeSpeed | WpfApp1/Models/TrackedObject.cs:65-93 | the speed becomes `SpeedOf` the current history, and no other field changes |
| Tracking.TrackedObject.Missed | WpfApp1/Models/TrackedObject.cs:53-56 | MissedCount grows by exactly 1 and nothing else changes |
| Tracking.MissUntilDeleted | WpfApp1/Models/TrackedObject.cs:53-59 | from no misses (as after an Update), five misses leave the track alive and the sixth makes `ShouldBeDeleted` hold |
| ViewModel.BestMatch | WpfApp1/ViewModels/MainWindowViewModel.cs:251-257 | -1 iff no unused detection has IoU > 0.2; otherwise an unused detection above 0.2 with the largest IoU, strictly larger than at every earlier unused index (the `>` comparison keeps the first) |
| ViewModel.BestMatchUnique | WpfApp1/ViewModels/MainWindowViewModel.cs:251-257 | at most one index satisfies that description, so the greedy choice is determined |
| ViewModel.DirectionOf | WpfApp1/ViewModels/MainWindowViewModel.cs:200 | L iff x < w*0.35, R iff not L and x > w*0.65, F otherwise |
| ViewModel.CountAllBalanced | WpfApp1/ViewModels/MainWindowViewModel.cs:194-205 | countL + countF + countR == \|countedIds\| is preserved by a counting pass |
| ViewModel.CountAllGrows | WpfApp1/ViewModels/MainWindowViewModel.cs:196-202 | counters and counted ids never shrink, and each newly counted id belongs to a track whose centre is below the line |
| ViewModel.CountAllOfCountedIsNoop | WpfApp1/ViewModels/MainWindowViewModel.cs:196 | an id already counted is never counted again |
| ViewModel.TypeNameNamesParserClasses | WpfApp1/ViewModels/MainWindowViewModel.cs:278 | 2 is CAR, 5 BUS and 7 TRUCK, and exactly the classes the YOLOv8 parser keeps get a specific name |
| ViewModel.Took | WpfApp1/Models/TrackedObject.cs:36-43 | a matched track takes the detection's box and class, one more hit, and no misses |
| ViewModel.TookHistoryRecent | WpfApp1/Models/TrackedObject.cs:41-47 | after a match at time t the history ends with the detection's centre at t, and every entry is that sample or an old entry, none older than t - 2000 |
| ViewModel.MissedView | WpfApp1/Models/TrackedObject.cs:53-56 | an unmatched track gets one more miss; box, class, hits, centre history and speed stay as they were |
| ViewModel.Fresh | WpfApp1/Models/TrackedObject.cs:26-31 | a new track has the detection's box and class, one hit, no misses, its centre at frame time t as its only history entry, and speed 0 |
| ViewModel.FreshIsFirstUpdate | WpfApp1/Models/TrackedObject.cs:26-31 | a new track is what the first `Update` at time t makes of an empty track with no hits |
| ViewModel.OutcomeTake | WpfApp1/ViewModels/MainWindowViewModel.cs:259-264 | a matched round adds its detection to the used set and records the match |
| ViewModel.OutcomeMiss | WpfApp1/ViewModels/MainWindowViewModel.cs:265 | an unmatched round records the miss and uses no detection |
| ViewModel.UsedBeforeKept | WpfApp1/ViewModels/MainWindowViewModel.cs:259-264 | a later round does not change which detections the earlier rounds used |
| ViewModel.GreedyTake | WpfApp1/ViewModels/MainWindowViewModel.cs:259-264 | a matched round extends the greedy record by its best choice and adds its detection to the used set |
| ViewModel.GreedyMiss | WpfApp1/ViewModels/MainWindowViewModel.cs:265 | an unmatched round extends the greedy record by a miss and leaves the used set alone |
| ViewModel.Surviving | WpfApp1/ViewModels/MainWindowViewModel.cs:273 | the tracks kept are exactly those with at most 5 misses |
| ViewModel.FrameTracks | WpfApp1/ViewModels/MainWindowViewModel.cs:246-276 | the three steps compose: matched tracks took their detection, unmatched ones missed, new ones were created, then the deleted ones were removed |
| ViewModel.FrameHistories | WpfApp1/ViewModels/MainWindowViewModel.cs:246-276 | after a frame at time t a matched track's history is the old one plus its detection's centre at t, pruned to the last 2000 ms, and its speed is measured over it; a missed track keeps history and speed; a new track holds its centre alone with speed 0 |
| ViewModel.FrameTags | WpfApp1/ViewModels/MainWindowViewModel.cs:259-272 | every detection's TrackId names a live track: the one it matched, or the one it created |
| ViewModel.CreatedEnumeration | WpfApp1/ViewModels/MainWindowViewModel.cs:267-272 | old ids in their order, then new ones in creation order, enumerate the dictionary |
| ViewModel.MainWindowViewModel.constructor | WpfApp1/ViewModels/MainWindowViewModel.cs:41-61 | no tracks, empty caches, zero counters, no counted ids |
| ViewModel.MainWindowViewModel.UpdateCounting | WpfApp1/ViewModels/MainWindowViewModel.cs:191-207 | the tally becomes the counting pass over the tracks in enumeration order, counted once per id below `(int)(h*0.7)`; tracks and caches are unchanged |
| ViewModel.MainWindowViewModel.CountTrack | WpfApp1/ViewModels/MainWindowViewModel.cs:196-203 | one track's step of the counting pass |
| ViewModel.MainWindowViewModel.MatchExisting | WpfApp1/ViewModels/MainWindowViewModel.cs:248-266 | in enumeration order, each existing track took the best detection not used by earlier tracks (IoU > 0.2, largest, first on ties) and was updated from it at frame time t (`Took`), or, when none exceeds 0.2, missed once; each detection is used at most once |
| ViewModel.MainWindowViewModel.MatchRounds | WpfApp1/ViewModels/MainWindowViewModel.cs:250-266 | the loop over the enumeration order: every id in it has had its round at frame time t, and the greedy record covers all rounds |
| ViewModel.OutcomeAllVisited | WpfApp1/ViewModels/MainWindowViewModel.cs:250 | when the rounds have visited the whole enumeration order, they have visited every track |
| ViewModel.MainWindowViewModel.MatchTrack | WpfApp1/ViewModels/MainWindowViewModel.cs:251-265 | one track's round: matched to the best unused detection, which joins the used set, and updated from it at frame time t, or, when no unused detection exceeds IoU 0.2, a miss with nothing else changed |
| ViewModel.MainWindowViewModel.MatchStep | WpfApp1/ViewModels/MainWindowViewModel.cs:250-265 | a round keeps the greedy invariant: every visited track's choice was the best among the detections earlier tracks left unused |
| ViewModel.MainWindowViewModel.TakeStep | WpfApp1/ViewModels/MainWindowViewModel.cs:259-264 | the detection takes the track's id; the track takes the detection's box and class, one more hit and no misses, appends its centre at frame time t to a history pruned to the last 2000 ms, and re-measures its speed over that history (`Took`); no other track changes |
| ViewModel.MainWindowViewModel.MissStep | WpfApp1/ViewModels/MainWindowViewModel.cs:265 | the unmatched track misses once and keeps its box, class, history and speed; no other track and no TrackId changes |
| ViewModel.MainWindowViewModel.CreateTracks | WpfApp1/ViewModels/MainWindowViewModel.cs:267-272 | every unused detection starts a new track under a fresh id, holding its centre at frame time t alone and speed 0 (`Fresh`), and its TrackId is that id |
| ViewModel.MainWindowViewModel.StartTrack | WpfApp1/ViewModels/MainWindowViewModel.cs:270-271 | a new track takes the next id, which was not in use, and is stored under it as `Fresh` of the detection at frame time t |
| ViewModel.MainWindowViewModel.RemoveDeleted | WpfApp1/ViewModels/MainWindowViewModel.cs:273-275 | the tracks become `Surviving`; no kept track should be deleted; the deleted ids leave both caches and nothing else does |
| ViewModel.MainWindowViewModel.TrackAndMatch | WpfApp1/ViewModels/MainWindowViewModel.cs:246-276 | matching, creation and deletion in one frame at time t: the tracks and tags of `FrameTracks`/`FrameTags` (histories and speeds as `FrameHistories` reads them off), no track left that should be deleted, the caches pruned of deleted ids |
| ViewModel.MainWindowViewModel.MatchAndCreate | WpfApp1/ViewModels/MainWindowViewModel.cs:248-272 | the matching and creation steps at frame time t, with the new ids appended to the enumeration order |
| LaneServer.NonZero | WpfApp1/lane_server.py:66 | `findNonZero` lists exactly the nonzero cells |
| LaneServer.NonZeroRowMajor | WpfApp1/lane_server.py:66 | the cells are listed in strict row-major order: row by row, left to right within a row |
| LaneServer.Histogram | WpfApp1/lane_server.py:75-77 | entry x is the sum of column x over rows h*2//3 .. h-1 |
| LaneServer.FirstArgMax | WpfApp1/lane_server.py:83 | `np.argmax` returns an index of the maximum with every earlier value strictly smaller |
| LaneServer.FirstArgMaxUnique | WpfApp1/lane_server.py:83 | that index is the only one with both properties |
| LaneServer.Bases | WpfApp1/lane_server.py:79-84 | for w >= 2 the left base is the first argmax of [0, w//2) and the right base that of [w//2, w); narrower histograms raise |
| LaneServer.SuffixArgMax | WpfApp1/lane_server.py:84 | `np.argmax(s[from:]) + from` is the first maximum at or after `from` |
| LaneServer.WinHighClosed | WpfApp1/lane_server.py:88-100 | window k's top is h - k*(h//9), as the source computes it |
| LaneServer.WindowBand | WpfApp1/lane_server.py:98-100 | the nine half-open windows lie in [0, h), each directly above the one before |
| LaneServer.Hits | WpfApp1/lane_server.py:102-105 | `nonzero()[0]` lists, ascending, exactly the pixel indices in the band and within 50 of the current x |
| LaneServer.RecentreWithin | WpfApp1/lane_server.py:107-110 | the current x changes only on more than 50 hits, to their truncated mean, which lies in [cur-50, cur+50) |
| LaneServer.WalkDistinct | WpfApp1/lane_server.py:98-116 | across the windows, a side collects each pixel index at most once, all from rows inside the windows |
| LaneServer.SlidingWindows | WpfApp1/lane_server.py:87-116 | the window loop collects, for both sides, exactly the indices of `Walk` |
| LaneServer.WindowStep | WpfApp1/lane_server.py:98-110 | one side's part of a window round is the next step of `Walk`: its hits collected, its x recentred on more than 50 |
| LaneServer.Select | WpfApp1/lane_server.py:118-121 | `all_x[inds], all_y[inds]` pick the pixels at the collected indices, in order |
| LaneServer.FitSide | WpfApp1/lane_server.py:125-150 | a side with at most 100 points is the vertical line at the fallback x; a fit raises only on a horizontal direction |
| LaneServer.Polygon | WpfApp1/lane_server.py:153-158 | `lane_polygon` lists the corners as (LB, LT, RT, RB) |
| LaneServer.SidesQuad | WpfApp1/lane_server.py:128-158 | the fitted sides give the corners at y = h (bottom) and y = 0 (top) |
| LaneServer.DstQuad | WpfApp1/lane_server.py:46-51 | `dst_points` lists the destination rectangle as (LT, RT, RB, LB) |
| LaneServer.Flatten | WpfApp1/lane_server.py:162-166 | each point becomes its int-cast x then y |
| LaneServer.EmitPolygon | WpfApp1/lane_server.py:153-166 | a quadrilateral given as (LB, LT, RT, RB) is emitted as LT, RT, RB, LB |
| LaneServer.FrameCoords | WpfApp1/lane_server.py:16-166 | the corrected frame computation: eight coordinates or an error, the fallback rectangle handed to the emission in the (LB, LT, RT, RB) order it reads |
| LaneServer.FrameCoordsAsWritten | WpfApp1/lane_server.py:16-166 | the frame computation as written: eight coordinates or an error, and the same as the corrected one whenever at least 100 lane pixels are found |
| LaneServer.FallbackRotatedAsWritten | WpfApp1/lane_server.py:68-166 | as written, with fewer than 100 lane pixels the output starts at the right top corner: the rectangle is rotated |
| LaneServer.FallbackCounterexample | WpfApp1/lane_server.py:68-166 | on an empty 100 x 100 mask with the identity transform, the first x is 80 as written and 20 corrected |
| LaneServer.FallbackCorners | WpfApp1/lane_server.py:68-69 | with fewer than 100 lane pixels the corners are the unwarped destination rectangle, LT, RT, RB, LB |
| LaneServer.FittedCorners | WpfApp1/lane_server.py:125-166 | sides with at most 100 points give the vertical lines at int(w*0.2) and int(w*0.8), from y = h to y = 0 |
| LaneServer.ComputeFrameCoords | WpfApp1/lane_server.py:16-166 | the frame computation, window loop and rotated fallback included, yields `FrameCoordsAsWritten` |
| LaneServer.Average | WpfApp1/lane_server.py:177-178 | the element-wise mean, truncated toward zero, with the entries' length |
| LaneServer.AverageBounded | WpfApp1/lane_server.py:178 | each averaged coordinate lies between the smallest and the largest entry there |
| LaneServer.AverageOfConstant | WpfApp1/lane_server.py:178 | a history of only Q averages to Q |
| LaneServer.Pushed | WpfApp1/lane_server.py:172-175 | append, then drop the oldest exactly when a sixth entry would be held: at most 5 entries, the last one the current frame |
| LaneServer.LaneService.constructor | WpfApp1/lane_server.py:10 | the history starts empty |
| LaneServer.LaneService.Smooth | WpfApp1/lane_server.py:170-182 | the history becomes `Pushed`, and the output is its average; the history is never empty, so the `else` branch is dead |
| LaneServer.LaneService.ProcessLaneDetection | WpfApp1/lane_server.py:16-182 | raises iff the as-written frame computation raises, leaving the history alone; otherwise that frame's coordinates are pushed and the average of the history returned |
| LaneServer.SteadyOutput | WpfApp1/lane_server.py:172-180 | pushing Q onto a history of only Q returns Q |
| LaneScan.MakeOdd | WpfApp1/Script/LaneAnalyzer.cs:506-510 | 0 for k <= 0, otherwise an odd number in [k, k+1] |
| LaneScan.MakeOddLeast | WpfApp1/Script/LaneAnalyzer.cs:506-510 | no odd number at or above k is smaller, and an odd k is kept |
| LaneScan.ColumnCountStep | WpfApp1/Script/LaneAnalyzer.cs:619-623 | a column's count grows by 1 exactly over a row nonzero there |
| LaneScan.ReduceColumnSumToInt | WpfApp1/Script/LaneAnalyzer.cs:611-627 | w entries; entry x counts the rows with a nonzero byte in column x, so 0 <= sum[x] <= h |
| LaneScan.FirstAtLeastIsFirst | WpfApp1/Script/LaneAnalyzer.cs:635 | the left scan stops at the first value reaching the threshold |
| LaneScan.LastAtLeastIsLast | WpfApp1/Script/LaneAnalyzer.cs:638 | the right scan stops at the last value reaching the threshold |
| LaneScan.HistCorridor | WpfApp1/Script/LaneAnalyzer.cs:629-641 | (0, w-1), or a span at least w*0.25 wide between values at or above max(3, bandH/20), everything outside below it |
| LaneScan.HistCorridorChoice | WpfApp1/Script/LaneAnalyzer.cs:640 | the fallback is taken exactly when the threshold span is shorter than w*0.25 |
| LaneScan.GetCorridorFromHist | WpfApp1/Script/LaneAnalyzer.cs:629-641 | the two scan loops compute `HistCorridor` |
| LaneScan.RowCorridor | WpfApp1/Script/LaneAnalyzer.cs:643-659 | (0, w-1) for a missing or empty mask; otherwise the corridor of nonzero bytes of row yRef, clamped into the mask |
| LaneScan.GetCorridorLRAtRow | WpfApp1/Script/LaneAnalyzer.cs:643-659 | the scan loops compute `RowCorridor` |
| LaneScan.LocalMaximaExact | WpfApp1/Script/LaneAnalyzer.cs:669-675 | the candidates are exactly the columns of [left+1, right-2] with a positive value not below either neighbour |
| LaneScan.CollectPeaks | WpfApp1/Script/LaneAnalyzer.cs:667-675 | the scan loop collects those candidates in column order |
| LaneScan.SortedCandidates | WpfApp1/Script/LaneAnalyzer.cs:678 | after the strongest-first sort, the candidates are still exactly the peaks, in non-increasing strength |
| LaneScan.SortPicked | WpfApp1/Script/LaneAnalyzer.cs:694 | the final ascending sort keeps peaks, spacing and suppression |
| LaneScan.TakeStep | WpfApp1/Script/LaneAnalyzer.cs:684-691 | a candidate far from every taken column is taken, and the spacing still holds |
| LaneScan.SkipStep | WpfApp1/Script/LaneAnalyzer.cs:685-689 | a candidate within minDistance of a taken column is suppressed by one at least as strong |
| LaneScan.FinishPick | WpfApp1/Script/LaneAnalyzer.cs:681-692 | once every candidate is visited, every peak is taken or suppressed |
| LaneScan.Consider | WpfApp1/Script/LaneAnalyzer.cs:683-690 | one candidate's step of the greedy loop |
| LaneScan.PickPeaks | WpfApp1/Script/LaneAnalyzer.cs:680-692 | the greedy loop computes `Greedy` over the strongest-first candidates: spaced peaks, at most max(1, maxPeaks); below the cap every other peak is suppressed, and at the cap every peak not suppressed is no stronger than any taken one |
| LaneScan.GreedyStep | WpfApp1/Script/LaneAnalyzer.cs:683-691 | one round of the loop is one step of `Greedy`: the rest of the candidates, or the stop at the cap |
| LaneScan.FindPeaks | WpfApp1/Script/LaneAnalyzer.cs:661-696 | [] when the clamped right <= left; otherwise `Peaks`: ascending peaks of [left+1, right-2], pairwise at least minDistance apart, strictly ascending for minDistance >= 1, at most max(1, maxPeaks); every peak not taken is within minDistance of a taken one at least as strong, or (only when the cap is hit) no stronger than every taken one |
| LaneCandidates.SampleBand | WpfApp1/Script/LaneAnalyzer.cs:518-522 | 0 <= yTop <= yBot <= roiH-1, with yTop < yBot once roiH >= 2 |
| LaneCandidates.SampleY | WpfApp1/Script/LaneAnalyzer.cs:527-529 | each sample row lies in [0, roiH-1] |
| LaneCandidates.BuildSampleYs | WpfApp1/Script/LaneAnalyzer.cs:515-532 | exactly clamp(SampleBandCount, 8, 40) rows, each the rounded, clamped interpolation from yBot to yTop |
| LaneCandidates.SampleYs | WpfApp1/Script/LaneAnalyzer.cs:515-532 | SampleCount rows, each in [0, roiH-1] |
| LaneCandidates.SampleYsBottomToTop | WpfApp1/Script/LaneAnalyzer.cs:524-530 | the rows run from yBot down to yTop, never increasing, each in [0, roiH-1] |
| LaneCandidates.ChooseGroup | WpfApp1/Script/LaneAnalyzer.cs:582-597 | the chosen group, if any, ends strictly lower and within the step of the point |
| LaneCandidates.ChooseGroupNearest | WpfApp1/Script/LaneAnalyzer.cs:582-597 | no group is chosen iff none is eligible; the chosen one has the smallest dx, strictly smaller than every earlier eligible one |
| LaneCandidates.NearestGroup | WpfApp1/Script/LaneAnalyzer.cs:582-597 | the inner loop over the groups computes `ChooseGroup` |
| LaneCandidates.Stitch | WpfApp1/Script/LaneAnalyzer.cs:576-601 | the loop computes `StitchAll`: each point in turn joins the nearest eligible group (`ChooseGroup`) or starts its own; every group is a chain and the groups hold exactly the input points |
| LaneCandidates.StartGroup | WpfApp1/Script/LaneAnalyzer.cs:599 | a point with no eligible group starts its own, keeping every group a chain and every point accounted for |
| LaneCandidates.JoinGroup | WpfApp1/Script/LaneAnalyzer.cs:600 | a point joining its chosen group keeps every group a chain and every point accounted for |
| LaneCandidates.AppendKeepsChain | WpfApp1/Script/LaneAnalyzer.cs:589-600 | appending an eligible point keeps a group a chain |
| LaneCandidates.KeepLong | WpfApp1/Script/LaneAnalyzer.cs:604 | a group is kept iff it has at least the minimum length |
| LaneCandidates.ChainSortedIdentity | WpfApp1/Script/LaneAnalyzer.cs:606 | sorting a chain bottom-first leaves it unchanged |
| LaneCandidates.BandPeaks | WpfApp1/Script/LaneAnalyzer.cs:545-572 | row i holds the `FindPeaks` output of sample row i's band (`RowPeaks`), and the points are those peaks on their rows, row after row, within the columns [1, w-2) |
| LaneCandidates.KeptPointsIn | WpfApp1/Script/LaneAnalyzer.cs:604 | the groups kept after the length filter still hold only band peak points |
| LaneCandidates.BuildCandidatePolylinesRoi | WpfApp1/Script/LaneAnalyzer.cs:537-609 | returns `CandidatePolylines` of every sample row's peaks: the points sorted bottom first, stitched, the short groups dropped; each group has strictly decreasing y, consecutive dx <= max(25, FollowWindowPx), at least max(6, SampleBandCount/3) points, all on sample rows |
| LaneBoundaries.Spread | WpfApp1/Script/LaneAnalyzer.cs:421-431 | the left-to-right push keeps the length |
| LaneBoundaries.SpreadSpaced | WpfApp1/Script/LaneAnalyzer.cs:422-431 | after the push each x is at least gap right of the one before and never left of where it was |
| LaneBoundaries.SpreadIncreasing | WpfApp1/Script/LaneAnalyzer.cs:212-213 | for a positive gap the pushed xs strictly increase |
| LaneBoundaries.SpreadKeepsSpaced | WpfApp1/Script/LaneAnalyzer.cs:422-431 | xs already spaced by the gap are left unchanged |
| LaneBoundaries.EnforceMonotonic | WpfApp1/Script/LaneAnalyzer.cs:420-431 | the loop computes `Enforced`: the xs at yRef become `Spread(xs, 6)`, slopes and count unchanged |
| LaneBoundaries.EnforcedSpaced | WpfApp1/Script/LaneAnalyzer.cs:420-431 | the enforced boundaries keep their slopes, sit at the pushed xs at yRef, and are each at least 6 right of the one before there |
| LaneBoundaries.EnforcedKeepsSpaced | WpfApp1/Script/LaneAnalyzer.cs:422-431 | boundaries already 6 apart at yRef come out unchanged |
| LaneBoundaries.Safeguard | WpfApp1/Script/LaneAnalyzer.cs:211-213 | the array is rewritten in place to `Spread(xs, 2)` |
| LaneBoundaries.YRef | WpfApp1/Script/LaneAnalyzer.cs:299-300 | yRef lies in [0, roiH-1] |
| LaneBoundaries.WideCorridor | WpfApp1/Script/LaneAnalyzer.cs:304-308 | a corridor narrower than roiW*0.35 becomes the whole width |
| LaneBoundaries.LaneWidth | WpfApp1/Script/LaneAnalyzer.cs:310-311 | at least 40, and at least the corridor width over the lane count |
| LaneBoundaries.ExpectedX | WpfApp1/Script/LaneAnalyzer.cs:319-325 | each expected boundary x lies in [0, roiW-1] |
| LaneBoundaries.ExpectedXOrdered | WpfApp1/Script/LaneAnalyzer.cs:319-325 | expected positions do not decrease from left to right |
| LaneBoundaries.ExpectedXs | WpfApp1/Script/LaneAnalyzer.cs:320-325 | the loop computes `ExpectedAll`: total+1 positions, boundary j at the ego-centred offset j - (ego - 0.5) lane widths, clamped into the ROI |
| LaneBoundaries.NearestLine | WpfApp1/Script/LaneAnalyzer.cs:335-341 | the scan's result is -1 or an index not skipped |
| LaneBoundaries.NearestLineIsNearest | WpfApp1/Script/LaneAnalyzer.cs:332-341 | the scan finds a line iff one is not skipped, and no unskipped line is nearer than the one found |
| LaneBoundaries.ScanNearest | WpfApp1/Script/LaneAnalyzer.cs:335-341 | the loop computes `NearestLine` |
| LaneBoundaries.PickNearestCandidate | WpfApp1/Script/LaneAnalyzer.cs:330-349 | computes `PickedLine`: the nearest unused candidate when it lies within snapWin; -1 exactly when every unused candidate is farther |
| LaneBoundaries.PickedLine | WpfApp1/Script/LaneAnalyzer.cs:330-349 | a pick is -1 or an unused candidate index |
| LaneBoundaries.TryIntersect | WpfApp1/Script/LaneAnalyzer.cs:724-736 | no point iff the slopes differ by less than 1e-6; otherwise the point lies on both lines |
| LaneBoundaries.VanishingPoint | WpfApp1/Script/LaneAnalyzer.cs:361-371 | the default (centerX, -0.35*roiH), or the ego lines' crossing above 0.2*roiH and within 0.7*roiW of the centre |
| LaneBoundaries.IdealLineThrough | WpfApp1/Script/LaneAnalyzer.cs:380-386 | the ideal line passes through (xRef, yRef), and through the vanishing point when the rows differ by at least 1e-6 |
| LaneBoundaries.YRefBelowVanishingPoint | WpfApp1/Script/LaneAnalyzer.cs:382-383 | for an ROI at least 80 high, the 1e-6 guard never fires |
| LaneBoundaries.IdealBoundaries | WpfApp1/Script/LaneAnalyzer.cs:374-389 | one ideal line per expected position, through it at yRef |
| LaneBoundaries.SnapOne | WpfApp1/Script/LaneAnalyzer.cs:399-413 | a boundary is kept or replaced by a candidate within followWin of it at yRef |
| LaneBoundaries.SnapOneNearest | WpfApp1/Script/LaneAnalyzer.cs:401-413 | kept exactly when every candidate is farther than followWin; otherwise replaced by a nearest candidate |
| LaneBoundaries.SnapBoundaries | WpfApp1/Script/LaneAnalyzer.cs:393-414 | the ego boundaries already picked are kept; every other boundary is snapped |
| LaneBoundaries.PolyPoint | WpfApp1/Script/LaneAnalyzer.cs:446-456 | each drawn point lies inside the ROI |
| LaneBoundaries.BoundaryPolylines | WpfApp1/Script/LaneAnalyzer.cs:434-459 | the loops compute `PolylinesOf`: one polyline per boundary, SampleBandCount points each, point k the boundary's rounded x at sample row k |
| LaneBoundaries.PolylinesOf | WpfApp1/Script/LaneAnalyzer.cs:434-459 | as many polylines as boundaries, max(0, count) points each, every point inside the ROI |
| LaneBoundaries.BoundaryPolyline | WpfApp1/Script/LaneAnalyzer.cs:443-458 | one boundary's polyline, point by point |
| LaneAnalysis.RoiOf | WpfApp1/Script/LaneAnalyzer.cs:257-265 | the ROI lies in the frame, reaches its bottom, has equal side margins and is at least 80 x 80; a frame under 80 in either dimension throws |
| LaneAnalysis.Crop | WpfApp1/Script/LaneAnalyzer.cs:267 | the ROI view has the ROI's size and the frame's pixels |
| LaneAnalysis.And | WpfApp1/Script/LaneAnalyzer.cs:284 | one pixel of `BitwiseAnd`: 0 where either is 0, the other pixel where one is 255 |
| LaneAnalysis.Gate | WpfApp1/Script/LaneAnalyzer.cs:271-285 | the gated mask is the pixelwise AND of lane and drivable masks |
| LaneAnalysis.FittedLines | WpfApp1/Script/LaneAnalyzer.cs:293-296 | exactly the defined fits of the candidates, never more lines than candidates |
| LaneAnalysis.Lanes | WpfApp1/Script/LaneAnalyzer.cs:254 | the lane count lies in [2, 8] |
| LaneAnalysis.GatedMasks | WpfApp1/Script/LaneAnalyzer.cs:267-285 | the scanned masks fit the ROI; the drivable crop is present iff the gate is on and a mask of frame size is set |
| LaneAnalysis.AnalysisOf | WpfApp1/Script/LaneAnalyzer.cs:252-475 | the result of AnalyzeCore is absent exactly when the ROI throws or SampleBandCount is negative |
| LaneAnalysis.AnalysisValid | WpfApp1/Script/LaneAnalyzer.cs:252-475 | every result is valid: lanes+1 boundaries spaced at least 6 at yRef, their polylines inside the ROI, the sample rows, over the ROI that `RoiOf` computes |
| LaneAnalysis.StageValid | WpfApp1/Script/LaneAnalyzer.cs:299-475 | the boundary stage over any candidate lines yields a valid result |
| LaneAnalysis.ResultValid | WpfApp1/Script/LaneAnalyzer.cs:461-474 | lanes+1 lines spaced at least 6 at yRef, packed with their polylines and sample rows, make a valid result |
| LaneAnalysis.EgoOf | WpfApp1/Script/LaneAnalyzer.cs:254-255 | the ego lane lies in [1, lanes] |
| LaneAnalysis.StageExpected | WpfApp1/Script/LaneAnalyzer.cs:302-325 | lanes+1 expected positions |
| LaneAnalysis.EgoPicks | WpfApp1/Script/LaneAnalyzer.cs:326-358 | the two ego picks are indices or -1, and never the same candidate |
| LaneAnalysis.Snapped | WpfApp1/Script/LaneAnalyzer.cs:393-418 | one boundary per expected position |
| LaneAnalysis.BoundaryStageShape | WpfApp1/Script/LaneAnalyzer.cs:299-431 | the stage yields lanes+1 lines each at least 6 right of the one before at yRef, and an ego boundary found among the candidates keeps that candidate's slope |
| LaneAnalysis.SnappedEnforced | WpfApp1/Script/LaneAnalyzer.cs:393-431 | the push keeps the count and the ego lines' slopes and spaces the lines at least 6 apart at yRef |
| LaneAnalysis.StageOf | WpfApp1/Script/LaneAnalyzer.cs:299-431 | the staged steps compose into `BoundaryStage` |
| LaneAnalysis.CandidateLines | WpfApp1/Script/LaneAnalyzer.cs:286-296 | the candidate lines are the defined fits of the stitched band-peak polylines of every sample row |
| LaneAnalysis.ExpectedPositions | WpfApp1/Script/LaneAnalyzer.cs:302-325 | the corridor, lane width and expected-x code computes `StageExpected` |
| LaneAnalysis.EgoLines | WpfApp1/Script/LaneAnalyzer.cs:351-358 | the two picks, the first marked used before the second, give the candidates of `EgoPicks` |
| LaneAnalysis.StageBoundaries | WpfApp1/Script/LaneAnalyzer.cs:351-418 | the ego picks, vanishing point and placed boundaries are the staged ones |
| LaneAnalysis.PlaceBoundaries | WpfApp1/Script/LaneAnalyzer.cs:374-418 | ideal lines snapped, the ego lines found put back: `Snapped` |
| LaneAnalysis.LaneAnalyzer.constructor | WpfApp1/Script/LaneAnalyzer.cs:20-63 | default tuning, no drivable mask, no result, no boundaries |
| LaneAnalysis.LaneAnalyzer.SetTuning | WpfApp1/Script/LaneAnalyzer.cs:20-46 | the tuning changes and nothing else |
| LaneAnalysis.LaneAnalyzer.SetDrivableMask | WpfApp1/Script/LaneAnalyzer.cs:65-69 | keeps the given mask; nothing else changes |
| LaneAnalysis.LaneAnalyzer.AnalyzeCore | WpfApp1/Script/LaneAnalyzer.cs:252-475 | returns `AnalysisOf` the masks: None iff the ROI is unusable or SampleBandCount < 0; otherwise a valid result whose boundaries are the boundary stage of the fitted candidates and whose polylines are drawn from them |
| LaneAnalysis.LaneAnalyzer.Analyze | WpfApp1/Script/LaneAnalyzer.cs:74-125 | false with no change for a missing mask or size; otherwise true iff AnalyzeCore succeeds, keeping its result and polylines, else result and polylines cleared |
| LaneAnalysis.LaneAnalyzer.TryGetLaneNumberForPoint | WpfApp1/Script/LaneAnalyzer.cs:192-219 | -1 without a result, with a wrong boundary count or outside the ROI; otherwise the lane in [1, total] between the pushed boundaries at the point's row |
| LaneAnalysis.LaneAt | WpfApp1/Script/LaneAnalyzer.cs:201-218 | the point lies in the returned lane of the boundaries pushed 2 apart, the outer lanes open outwards |
| LaneAnalysis.CountAtOrLeft | WpfApp1/Script/LaneAnalyzer.cs:215-216 | the index loop counts the leading xs at or left of x; the next one, if any, is right of x |
| LaneAnalysis.LaneOfCount | WpfApp1/Script/LaneAnalyzer.cs:215-218 | clamping that count into [1, total] names the lane holding x |
| LaneAnalysis.BoundaryLines | WpfApp1/Script/LaneAnalyzer.cs:299-431 | computes `BoundaryStage`: exactly lanes+1 boundary lines, each at least 6 right of the one before at yRef |

## Left out

- OpenCV image work is left out: `imdecode`, the perspective warps and their matrices, the HLS thresholds, `fitLine`, and `perspectiveTransform`. The transform and the fit are function parameters. The mask is a given grid.
- The lane server's column sum is 255 × count on a 0/255 mask. It is modelled over the mask's values, which has the same argmax.
- The Flask route, JPEG/base64 handling and server start-up are HTTP I/O. The global history is one sequential `LaneService` object, so the unguarded concurrent access is not modelled.
- `BuildLaneLineMaskFast` is left out: Mat type conversion, resize, threshold and open/close morphology. So are the erosion of the drivable mask and the resize in `Analyze`. `Analyze` receives the binary lane mask at frame size, and the drivable mask as set.
- `FitLineFromPolyline`, a floating-point least-squares fit, is a parameter that returns `None` where the source returns NaN.
- `DrawOnFrame`, the debug candidate polylines, `DisposeMats` and the mask buffers of the result are drawing and memory management.
- `PeakMinStrength`, `LaneProbThreshold`, `GateErodeK`, `LaneMaskOpenK` and `LaneMaskCloseK` are not fields of `Tuning`: `PeakMinStrength` is never read, and the rest feed only the left-out image operations.
- Doubles and floats are reals. IEEE rounding, infinities and NaN are not modelled. The `double.MaxValue`/`int.MaxValue` start values are kept only where they can decide an outcome.
- LaneAnalysis.And: models `BitwiseAnd` per pixel on bytes, as a bitwise AND of naturals.
- LaneScan.FindPeaks: requires a non-empty histogram, because `Math.Clamp` throws on an empty one. Its callers always pass a band at least 80 wide.
- LaneScan.FindPeaks: proves strict ascent only for minDistance >= 1. With minDistance <= 0 a column cannot repeat either, but only non-decreasing order is stated.
- LaneScan.FindPeaks: the strongest-first sort is the stable reference sort. `List.Sort` is unstable, so among peaks of equal strength the source may visit them in another order. Then it can take a different one of two tied peaks closer than minDistance, or a different one at the cap. The model returns the columns of the stable order. It does not prove that other tie orders keep the spacing, cap and suppression properties.
- LaneCandidates.BuildSampleYs: requires roiH >= 1. Its only caller has an ROI at least 80 high.
- LaneCandidates.BandPeaks: the single-point "polyline candidates" are flattened straight into the point list that the stitcher sorts.
- `List.Sort` and `OrderByDescending` are modelled by one stable insertion sort. `List.Sort` is unstable, so the source may order equal keys differently.
- LaneCandidates.Stitched: the equality contracts of `Stitched`, `BuildCandidatePolylinesRoi`, `CandidateLines`, `AnalyzeCore` and `Analyze` describe the outcome of the stable bottom-first order only. When two points share a row, the unstable `pts.Sort` of LaneAnalyzer.cs:578 can change the contents of the groups, not just their order. For example, (105,60), (100,50), (110,50) stitch to [[(105,60),(100,50)],[(110,50)]] in the stable order. With the two row-50 points swapped they stitch to [[(105,60),(110,50)],[(100,50)]].
- LaneCandidates.Stitch: these facts hold for every input order, and so for every tie order. Each group is a chain (`IsChain`). `Stitch` groups exactly its input points (the multiset clause). The kept groups meet the length bound. Their points are band peaks (`PointsIn`, which `SortedPointsIn` carries over any permutation). For the peak sort, see the FindPeaks line above.
- Dictionary enumeration order of `_trackedObjects` is a given sequence of keys. Tracks created in a frame follow the old ones.
- `MainWindowViewModel` calls `TrackedObject(int, Rect, double)`, `Update(int, Rect, double)`, `SpeedInKmh` and a 3-argument `Analyze`, none of which exist in the sources. The matcher is modelled against the `TrackedObject(Detection, double)` and `Update(Detection, double)` that do exist.
- `Timer_Tick`, `GetSpecificCarModel`, `SaveToDb`, `DrawOutput`, `OpenVideo` and the `CountText` string are timers, ONNX, MongoDB and UI.
- Tracking.TrackedObject.Update: the speed's sqrt-based distance is float numerics. The model keeps which two history entries it is measured between (`Speed.Measured`), or zero.
- The ONNX sessions, letterboxing, tensor packing, `SegToProbMap` (softmax) and the un-letterbox resizes are foreign numeric code. The parsers take the raw output as rows of reals.
- Nms.IoUInUnitInterval: the `1e-6f` epsilon is an exact real, so only "the denominator is positive" carries over to floats.
- Ratio clamps in float (`Math.Clamp(SampleYTopRatio, 0.05f, 0.8f)`) are computed over reals.
- WpfApp1/Views/MainWindow.xaml.cs, WpfApp1/Scripts/yolo_detector.py and the service wrappers are not part of this model: they are UI, OCR and process I/O.

## Findings

| source | as written | input that shows it | evidently intended | confidence | as-written member | corrected member |
|---|---|---|---|---|---|---|
| WpfApp1/lane_server.py:69 and WpfApp1/lane_server.py:163-166 | the fallback unwarps `dst_points`, listed (LT, RT, RB, LB), but the emission reads positions 1, 2, 3, 0 as if the list were (LB, LT, RT, RB); the fallback quadrilateral comes out as RT, RB, LB, LT | a 100 x 100 frame with no lane pixels and an identity transform: the first x sent is 80 (right top) instead of 20 (left top) | the fallback is emitted LT, RT, RB, LB like the fitted case, so the element-wise smoothing never mixes corners across frames | not executed | LaneServer.FallbackRotatedAsWritten | LaneServer.FallbackCorners |

The methods follow the code as written: `ComputeFrameCoords` and `ProcessLaneDetection` compute `FrameCoordsAsWritten`, fallback rotation included. `FrameCoords` is the corrected definition. `FrameCoordsAsWritten` agrees with it whenever at least 100 lane pixels are found, so only the fallback differs.

