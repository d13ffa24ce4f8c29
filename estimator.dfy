/**
 * The per-frame decision logic of CameraPoseEstimator: update() runs the
 * match pipeline, asks the PnP solver for a pose (warm-started from the last
 * accepted estimate) and passes the result through a fixed sequence of
 * plausibility gates; only an estimate that passes every gate replaces the
 * last one and is offered, inlier by inlier, to the features memory.
 */
module Estimator {
  import opened Types
  import opened Sequences
  import opened MatchFilter
  import opened DepthResolver
  import opened Reconstructor

  /** The values setupParameters (:92-121) stores. */
  datatype Parameters = Parameters(
    pnpReprojectionError: real,
    pnpConfidence: real,
    pnpIterations: real,
    matchingThreshold: real,
    reprojectionErrorDiscardThreshold: real,
    orbMaxPoints: int,
    orbScaleFactor: real,
    orbLevelsNumber: int,
    phoneOrientationDifferenceThreshold_deg: real,
    showImages: bool,
    minimumMatchesNumber: nat,
    enableFeaturesMemory: bool,
    maxPoseHeight: real,
    minPoseHeight: real)

  /**
   * The fewest good matches, and the fewest inliers, an estimate needs: the
   * test `n < 4 || n < minimumMatchesNumber` rejects exactly the counts below
   * this bound.
   */
  function RequiredMatches(p: Parameters): (m: nat)
    ensures 4 <= m && p.minimumMatchesNumber <= m
    ensures m == 4 || m == p.minimumMatchesNumber
  {
    if p.minimumMatchesNumber < 4 then 4 else p.minimumMatchesNumber
  }

  /**
   * The code update() returns once the correspondences are built, in the
   * order of its gates (:350-488): too few good matches, too few inliers, a
   * failed solve, a reprojection error above the discard threshold, a pose
   * above the maximum or below the minimum height, a camera axis too far from
   * the fixed camera's; 0 when every gate passes.
   */
  function GateCode(goodMatches: nat, res: PnPResult, p: Parameters): (code: int)
    ensures code in {-5, 0, 1, 2, 3, 4, 5, 6}
  {
    if goodMatches < 4 || goodMatches < p.minimumMatchesNumber then 1
    else if |res.inliers| < 4 || |res.inliers| < p.minimumMatchesNumber then 2
    else if !res.success then -5
    else if res.meanReprojectionError > p.reprojectionErrorDiscardThreshold then 3
    else if res.worldPose.position.z > p.maxPoseHeight then 4
    else if res.worldPose.position.z < p.minPoseHeight then 5
    else if res.angleFromZ > p.phoneOrientationDifferenceThreshold_deg then 6
    else 0
  }

  /** An estimate is accepted exactly when it passes all six checks. */
  lemma GateAcceptsIff(goodMatches: nat, res: PnPResult, p: Parameters)
    ensures GateCode(goodMatches, res, p) == 0 <==>
              && RequiredMatches(p) <= goodMatches
              && RequiredMatches(p) <= |res.inliers|
              && res.success
              && res.meanReprojectionError <= p.reprojectionErrorDiscardThreshold
              && p.minPoseHeight <= res.worldPose.position.z <= p.maxPoseHeight
              && res.angleFromZ <= p.phoneOrientationDifferenceThreshold_deg
  {
    var m := RequiredMatches(p);
    assert (goodMatches < 4 || goodMatches < p.minimumMatchesNumber) <==> goodMatches < m;
    assert (|res.inliers| < 4 || |res.inliers| < p.minimumMatchesNumber) <==> |res.inliers| < m;
  }

  /**
   * Each rejection code names the first gate that fails: a later check can
   * only be the reason when every earlier one passed.
   */
  lemma GateOrder(goodMatches: nat, res: PnPResult, p: Parameters)
    ensures var code := GateCode(goodMatches, res, p);
            var m := RequiredMatches(p);
            && (code == 1 <==> goodMatches < m)
            && (code == 2 <==> m <= goodMatches && |res.inliers| < m)
            && (code == -5 <==> m <= goodMatches && m <= |res.inliers| && !res.success)
            && (code == 3 <==> m <= goodMatches && m <= |res.inliers| && res.success
                               && res.meanReprojectionError > p.reprojectionErrorDiscardThreshold)
            && (code == 4 <==> m <= goodMatches && m <= |res.inliers| && res.success
                               && res.meanReprojectionError <= p.reprojectionErrorDiscardThreshold
                               && res.worldPose.position.z > p.maxPoseHeight)
            && (code == 5 <==> m <= goodMatches && m <= |res.inliers| && res.success
                               && res.meanReprojectionError <= p.reprojectionErrorDiscardThreshold
                               && res.worldPose.position.z <= p.maxPoseHeight
                               && res.worldPose.position.z < p.minPoseHeight)
            && (code == 6 <==> m <= goodMatches && m <= |res.inliers| && res.success
                               && res.meanReprojectionError <= p.reprojectionErrorDiscardThreshold
                               && p.minPoseHeight <= res.worldPose.position.z <= p.maxPoseHeight
                               && res.angleFromZ > p.phoneOrientationDifferenceThreshold_deg)
  {
    var m := RequiredMatches(p);
    assert (goodMatches < 4 || goodMatches < p.minimumMatchesNumber) <==> goodMatches < m;
    assert (|res.inliers| < 4 || |res.inliers| < p.minimumMatchesNumber) <==> |res.inliers| < m;
  }

  /** FeaturesMemory::Feature: what is remembered of a fixed-side observation. */
  datatype Feature = Feature(keypoint: KeyPoint, descriptor: Descriptor, observerDistance: real,
                             observerDirection: Point3, depth: nat)

  /** The calls the estimator makes into the features memory. */
  datatype MemoryCall = RemoveNonBackground(depthImage: Grid) | SaveFeature(feature: Feature)

  /** The brute-force matcher only produces matches that index its two descriptor lists. */
  ghost predicate MatcherIndexes(lib: Externals)
  {
    forall q, t, k :: 0 <= k < |lib.matchDescriptors(q, t)| ==>
      lib.matchDescriptors(q, t)[k].queryIdx < |q| && lib.matchDescriptors(q, t)[k].trainIdx < |t|
  }

  /** The PnP solver only reports inliers that index its correspondences. */
  ghost predicate SolverInliersIndex(lib: Externals)
  {
    forall q, k :: 0 <= k < |lib.solvePnP(q).inliers| ==> lib.solvePnP(q).inliers[k] < |q.objectPoints|
  }

  /**
   * What one frame must satisfy for update() to stay inside its vectors:
   * every descriptor has its keypoint, and the opaque routines keep their
   * output in range.
   */
  ghost predicate FrameInputs(mobile: seq<KeyPoint>, mobileDescriptors: seq<Descriptor>, fixed: seq<KeyPoint>,
                              fixedDescriptors: seq<Descriptor>, rows: nat, cols: nat, lib: Externals)
  {
    && |mobileDescriptors| <= |mobile| && |fixedDescriptors| <= |fixed|
    && MatcherIndexes(lib) && SolverInliersIndex(lib) && RingSearchInBounds(lib, rows, cols)
  }

  /** The matcher's matches index both keypoint lists. */
  lemma MatchedIndexed(mobile: seq<KeyPoint>, mobileDescriptors: seq<Descriptor>, fixed: seq<KeyPoint>,
                       fixedDescriptors: seq<Descriptor>, lib: Externals)
    requires |mobileDescriptors| <= |mobile| && |fixedDescriptors| <= |fixed| && MatcherIndexes(lib)
    ensures Keypoints(mobile, fixed).IndexesAll(lib.matchDescriptors(mobileDescriptors, fixedDescriptors))
  {
    var matched := lib.matchDescriptors(mobileDescriptors, fixedDescriptors);
    assert WithinLists(matched, |mobileDescriptors|, |fixedDescriptors|);
  }

  /**
   * The depth image is read and written only at the fixed pixels of the
   * filtered matches (:1104-1116, and :1155-1158 for the good matches, which
   * are some of them), so those pixels must lie inside it; a fixed keypoint
   * no filtered match uses may lie anywhere.
   */
  ghost predicate DepthTargetsInImage(p: Parameters, tol: real, mobile: seq<KeyPoint>, mobileDescriptors: seq<Descriptor>,
                                      fixed: seq<KeyPoint>, fixedDescriptors: seq<Descriptor>, rows: nat, cols: nat,
                                      lib: Externals)
    requires FrameInputs(mobile, mobileDescriptors, fixed, fixedDescriptors, rows, cols, lib)
  {
    var kps := Keypoints(mobile, fixed);
    var matched := lib.matchDescriptors(mobileDescriptors, fixedDescriptors);
    MatchedIndexed(mobile, mobileDescriptors, fixed, fixedDescriptors, lib);
    Targetable(FilteredMatches(matched, [], kps, p.matchingThreshold, tol), fixed, rows, cols)
  }

  /**
   * A sufficient condition for line 493, which hands the MOBILE keypoints and
   * descriptors to saveInliersToMemory, where they are indexed with each
   * match's trainIdx, an index into the FIXED lists (:594-595): every fixed
   * index is also a mobile index whose keypoint lies inside the depth image.
   */
  ghost predicate MemoryInputs(p: Parameters, mobile: seq<KeyPoint>, mobileDescriptors: seq<Descriptor>,
                               fixedDescriptors: seq<Descriptor>, rows: nat, cols: nat)
  {
    p.enableFeaturesMemory ==>
      && |fixedDescriptors| <= |mobileDescriptors| <= |mobile|
      && forall k :: 0 <= k < |fixedDescriptors| ==> InBounds(PixelOf(mobile[k].pt), rows, cols)
  }

  /** The matches that survive filtering and depth repair, the repaired depth, and their correspondences. */
  datatype Correspondences = Correspondences(goodMatches: seq<Match>, depth: Grid,
                                             points: seq<Point3>, pixels: seq<Point2>)

  /** Every match indexes the first `nq` mobile and the first `nt` fixed entries. */
  predicate WithinLists(ms: seq<Match>, nq: nat, nt: nat)
  {
    forall k :: 0 <= k < |ms| ==> ms[k].queryIdx < nq && ms[k].trainIdx < nt
  }

  /** Filtering only keeps index pairs the matcher produced, so the filtered matches index the descriptor lists. */
  lemma FilteredWithinLists(ms: seq<Match>, kps: Keypoints, nq: nat, nt: nat, matchingThreshold: real, tol: real)
    requires nq <= |kps.mobile| && nt <= |kps.fixed| && WithinLists(ms, nq, nt)
    ensures kps.IndexesAll(ms)
    ensures WithinLists(FilteredMatches(ms, [], kps, matchingThreshold, tol), nq, nt)
  {
    var small := Keypoints(kps.mobile[..nq], kps.fixed[..nt]);
    assert small.IndexesAll(ms);
    ThresholdedIndexed(ms, [], small, matchingThreshold);
    FilteredMatchesProperties(ms, [], kps, matchingThreshold, tol);
    var r := FilteredMatches(ms, [], kps, matchingThreshold, tol);
    PairsIndexed(r, [] + Threshold(ms, matchingThreshold), small);
    assert WithinLists(r, nq, nt) by {
      forall k | 0 <= k < |r| ensures r[k].queryIdx < nq && r[k].trainIdx < nt {
        assert small.Indexes(r[k]);
      }
    }
  }

  /** The matches that survive the depth repair are filtered ones, so they stay within the lists and the image. */
  lemma GoodMatchesReconstructible(filtered: seq<Match>, kept: seq<bool>, kps: Keypoints, nq: nat, nt: nat,
                                   rows: nat, cols: nat)
    requires |kept| == |filtered| && nq <= |kps.mobile| && nt <= |kps.fixed| && WithinLists(filtered, nq, nt)
    requires Targetable(filtered, kps.fixed, rows, cols)
    ensures WithinLists(Select(filtered, kept), nq, nt)
    ensures Reconstructible(Select(filtered, kept), kps, rows, cols)
  {
    var good := Select(filtered, kept);
    SelectIsSubseq(filtered, kept);
    SubseqMembers(good, filtered);
    forall k | 0 <= k < |good|
      ensures good[k].queryIdx < nq && good[k].trainIdx < nt
      ensures InBounds(PixelOf(kps.fixed[good[k].trainIdx].pt), rows, cols)
    {
      assert good[k] in filtered;
      var j :| 0 <= j < |filtered| && filtered[j] == good[k];
      assert InBounds(TargetOf(filtered[j], kps.fixed), rows, cols);
    }
  }

  /** The 3D points get3dPositionsAndImagePositions computes for the good matches. */
  ghost function ObjectPoints(good: seq<Match>, kps: Keypoints, depth: Grid, rows: nat, cols: nat,
                              cameraMatrix: Matrix3, lib: Externals): (points: seq<Point3>)
    requires IsGrid(depth, rows, cols) && Reconstructible(good, kps, rows, cols)
    ensures |points| == |good|
    ensures forall i :: 0 <= i < |good| ==> points[i] == ObjectPoint(good[i], kps, depth, rows, cols, cameraMatrix, lib)
  {
    seq(|good|, i requires 0 <= i < |good| => ObjectPoint(good[i], kps, depth, rows, cols, cameraMatrix, lib))
  }

  /** The mobile image positions get3dPositionsAndImagePositions computes for the good matches. */
  ghost function ImagePoints(good: seq<Match>, kps: Keypoints): (pixels: seq<Point2>)
    requires kps.IndexesAll(good)
    ensures |pixels| == |good|
    ensures forall i :: 0 <= i < |good| ==> pixels[i] == kps.Origin(good[i])
  {
    seq(|good|, i requires 0 <= i < |good| => kps.Origin(good[i]))
  }

  /** The matches that survive filtering and depth repair, and the repaired depth image. */
  datatype Survivors = Survivors(goodMatches: seq<Match>, depth: Grid)

  /**
   * Lines 286-316 of update(): the matcher's matches, filtered into an empty
   * list and repaired against the depth image.
   */
  ghost function Surviving(p: Parameters, tol: real, mobile: seq<KeyPoint>, mobileDescriptors: seq<Descriptor>,
                           fixed: seq<KeyPoint>, fixedDescriptors: seq<Descriptor>,
                           depth: Grid, rows: nat, cols: nat, lib: Externals): (s: Survivors)
    requires FrameInputs(mobile, mobileDescriptors, fixed, fixedDescriptors, rows, cols, lib)
    requires DepthTargetsInImage(p, tol, mobile, mobileDescriptors, fixed, fixedDescriptors, rows, cols, lib)
    requires IsGrid(depth, rows, cols)
    ensures IsGrid(s.depth, rows, cols)
    ensures WithinLists(s.goodMatches, |mobileDescriptors|, |fixedDescriptors|)
    ensures Reconstructible(s.goodMatches, Keypoints(mobile, fixed), rows, cols)
  {
    var kps := Keypoints(mobile, fixed);
    var matched := lib.matchDescriptors(mobileDescriptors, fixedDescriptors);
    assert WithinLists(matched, |mobileDescriptors|, |fixedDescriptors|);
    FilteredWithinLists(matched, kps, |mobileDescriptors|, |fixedDescriptors|, p.matchingThreshold, tol);
    var filtered := FilteredMatches(matched, [], kps, p.matchingThreshold, tol);
    var run := RepairAll(depth, rows, cols, filtered, fixed, lib);
    GoodMatchesReconstructible(filtered, run.kept, kps, |mobileDescriptors|, |fixedDescriptors|, rows, cols);
    Survivors(Select(filtered, run.kept), run.grid)
  }

  /**
   * Lines 286-325 of update(): the surviving matches turned into 3D-2D
   * correspondences against the repaired depth image.
   */
  ghost function Correspond(p: Parameters, tol: real, mobile: seq<KeyPoint>, mobileDescriptors: seq<Descriptor>,
                            fixed: seq<KeyPoint>, fixedDescriptors: seq<Descriptor>, fixedCameraMatrix: Matrix3,
                            depth: Grid, rows: nat, cols: nat, lib: Externals): (c: Correspondences)
    requires FrameInputs(mobile, mobileDescriptors, fixed, fixedDescriptors, rows, cols, lib)
    requires DepthTargetsInImage(p, tol, mobile, mobileDescriptors, fixed, fixedDescriptors, rows, cols, lib)
    requires IsGrid(depth, rows, cols)
    ensures |c.points| == |c.goodMatches| && |c.pixels| == |c.goodMatches|
    ensures IsGrid(c.depth, rows, cols)
    ensures WithinLists(c.goodMatches, |mobileDescriptors|, |fixedDescriptors|)
  {
    var kps := Keypoints(mobile, fixed);
    var s := Surviving(p, tol, mobile, mobileDescriptors, fixed, fixedDescriptors, depth, rows, cols, lib);
    Correspondences(s.goodMatches, s.depth, ObjectPoints(s.goodMatches, kps, s.depth, rows, cols, fixedCameraMatrix, lib),
                    ImagePoints(s.goodMatches, kps))
  }

  /** What update() asks solvePnPRansac (:377-395): warm-started exactly when an estimate exists. */
  function Query(c: Correspondences, arcoreCameraMatrix: Matrix3, didComputeEstimate: bool, lastPoseEstimate: Pose,
                 p: Parameters): (q: PnPQuery)
    ensures q.objectPoints == c.points && q.imagePoints == c.pixels
    ensures q.useExtrinsicGuess == didComputeEstimate
    ensures didComputeEstimate ==> q.guess == lastPoseEstimate
  {
    PnPQuery(c.points, c.pixels, arcoreCameraMatrix, didComputeEstimate,
             if didComputeEstimate then lastPoseEstimate else IdentityPose,
             p.pnpIterations, p.pnpReprojectionError, p.pnpConfidence)
  }

  /**
   * The feature saveInliersToMemory builds for one inlier (:586-600): the
   * keypoint and descriptor at the match's trainIdx in the lists it is given,
   * the distance and direction from the camera position to the inlier's 3D
   * point, and the depth at the keypoint's pixel.
   */
  function InlierFeature(m: Match, point: Point3, cameraPose: Pose, keypoints: seq<KeyPoint>,
                         descriptors: seq<Descriptor>, depth: Grid, lib: Externals): (f: Feature)
    requires m.trainIdx < |keypoints| && m.trainIdx < |descriptors| && PixelOf(keypoints[m.trainIdx].pt) in depth
    ensures f.keypoint == keypoints[m.trainIdx] && f.descriptor == descriptors[m.trainIdx]
    ensures f.depth == depth[PixelOf(f.keypoint.pt)]
  {
    var keypoint := keypoints[m.trainIdx];
    var position := cameraPose.position;
    Feature(keypoint, descriptors[m.trainIdx], lib.distance(point, position),
            Point3(point.x - position.x, point.y - position.y, point.z - position.z),
            depth[PixelOf(keypoint.pt)])
  }

  /** Every inlier indexes the 3D points and the matches, and its match indexes the keypoint lists given. */
  ghost predicate Saveable(inliers: seq<nat>, points: seq<Point3>, matches: seq<Match>, keypoints: seq<KeyPoint>,
                           descriptors: seq<Descriptor>, depth: Grid)
  {
    forall k :: 0 <= k < |inliers| ==>
      && inliers[k] < |points| && inliers[k] < |matches|
      && matches[inliers[k]].trainIdx < |keypoints| && matches[inliers[k]].trainIdx < |descriptors|
      && PixelOf(keypoints[matches[inliers[k]].trainIdx].pt) in depth
  }

  /** The saveFeature calls of saveInliersToMemory: one per inlier, in inlier order. */
  ghost function InlierRecords(inliers: seq<nat>, points: seq<Point3>, cameraPose: Pose, matches: seq<Match>,
                               keypoints: seq<KeyPoint>, descriptors: seq<Descriptor>, depth: Grid,
                               lib: Externals): (log: seq<MemoryCall>)
    requires Saveable(inliers, points, matches, keypoints, descriptors, depth)
    ensures |log| == |inliers|
    ensures forall k :: 0 <= k < |inliers| ==>
              log[k] == SaveFeature(InlierFeature(matches[inliers[k]], points[inliers[k]], cameraPose,
                                                  keypoints, descriptors, depth, lib))
  {
    seq(|inliers|, k requires 0 <= k < |inliers| =>
      SaveFeature(InlierFeature(matches[inliers[k]], points[inliers[k]], cameraPose, keypoints, descriptors, depth, lib)))
  }

  /** Everything update() computes from one frame once the correspondences are built. */
  datatype Outcome = Outcome(c: Correspondences, res: PnPResult, code: int)

  /** Lines 350-488 of update(): the solver's answer to the warm-started query, and the gate code. */
  ghost function Conclusion(c: Correspondences, arcoreCameraMatrix: Matrix3, didComputeEstimate: bool,
                            lastPoseEstimate: Pose, p: Parameters, lib: Externals): (o: Outcome)
    requires SolverInliersIndex(lib)
    ensures o.c == c
    ensures forall k :: 0 <= k < |o.res.inliers| ==> o.res.inliers[k] < |c.points|
    ensures o.code in {-5, 0, 1, 2, 3, 4, 5, 6}
  {
    var res := lib.solvePnP(Query(c, arcoreCameraMatrix, didComputeEstimate, lastPoseEstimate, p));
    Outcome(c, res, GateCode(|c.goodMatches|, res, p))
  }

  /**
   * An accepted outcome passes every gate: enough good matches, enough
   * inliers, a successful solve, a small enough reprojection error, a height
   * inside the band and a camera axis close enough to the fixed camera's.
   */
  lemma AcceptedIsPlausible(c: Correspondences, arcoreCameraMatrix: Matrix3, didComputeEstimate: bool,
                            lastPoseEstimate: Pose, p: Parameters, lib: Externals)
    requires SolverInliersIndex(lib)
    ensures var o := Conclusion(c, arcoreCameraMatrix, didComputeEstimate, lastPoseEstimate, p, lib);
            o.code == 0 <==>
              && RequiredMatches(p) <= |c.goodMatches|
              && RequiredMatches(p) <= |o.res.inliers|
              && o.res.success
              && o.res.meanReprojectionError <= p.reprojectionErrorDiscardThreshold
              && p.minPoseHeight <= o.res.worldPose.position.z <= p.maxPoseHeight
              && o.res.angleFromZ <= p.phoneOrientationDifferenceThreshold_deg
  {
    var o := Conclusion(c, arcoreCameraMatrix, didComputeEstimate, lastPoseEstimate, p, lib);
    GateAcceptsIff(|c.goodMatches|, o.res, p);
  }

  /**
   * The outcome of update() on one frame: the correspondences, the solver's
   * answer to the warm-started query, and the gate code.
   */
  ghost function Estimate(p: Parameters, tol: real, didComputeEstimate: bool, lastPoseEstimate: Pose,
                          mobile: seq<KeyPoint>, mobileDescriptors: seq<Descriptor>,
                          fixed: seq<KeyPoint>, fixedDescriptors: seq<Descriptor>,
                          arcoreCameraMatrix: Matrix3, fixedCameraMatrix: Matrix3,
                          depth: Grid, rows: nat, cols: nat, lib: Externals): (o: Outcome)
    requires FrameInputs(mobile, mobileDescriptors, fixed, fixedDescriptors, rows, cols, lib)
    requires DepthTargetsInImage(p, tol, mobile, mobileDescriptors, fixed, fixedDescriptors, rows, cols, lib)
    requires IsGrid(depth, rows, cols)
    ensures |o.c.points| == |o.c.goodMatches| && |o.c.pixels| == |o.c.goodMatches|
    ensures IsGrid(o.c.depth, rows, cols) && WithinLists(o.c.goodMatches, |mobileDescriptors|, |fixedDescriptors|)
    ensures forall k :: 0 <= k < |o.res.inliers| ==> o.res.inliers[k] < |o.c.points|
    ensures o.code in {-5, 0, 1, 2, 3, 4, 5, 6}
  {
    Conclusion(Correspond(p, tol, mobile, mobileDescriptors, fixed, fixedDescriptors, fixedCameraMatrix,
                          depth, rows, cols, lib),
               arcoreCameraMatrix, didComputeEstimate, lastPoseEstimate, p, lib)
  }

  /**
   * What lines 493 and 594-598 need to stay in range: with the memory enabled
   * and the estimate accepted, every inlier's match can be looked up at its
   * trainIdx in the mobile lists, at a pixel of the repaired depth image.
   */
  ghost predicate MemorySaveable(p: Parameters, o: Outcome, mobile: seq<KeyPoint>, mobileDescriptors: seq<Descriptor>)
  {
    p.enableFeaturesMemory && o.code == 0 ==>
      Saveable(o.res.inliers, o.c.points, o.c.goodMatches, mobile, mobileDescriptors, o.c.depth)
  }

  /** MemoryInputs is one condition on the frame alone under which every outcome is saveable. */
  lemma InliersSaveable(p: Parameters, o: Outcome, mobile: seq<KeyPoint>, mobileDescriptors: seq<Descriptor>,
                        fixedDescriptors: seq<Descriptor>, rows: nat, cols: nat)
    requires |o.c.points| == |o.c.goodMatches| && IsGrid(o.c.depth, rows, cols)
    requires WithinLists(o.c.goodMatches, |mobileDescriptors|, |fixedDescriptors|)
    requires forall k :: 0 <= k < |o.res.inliers| ==> o.res.inliers[k] < |o.c.points|
    requires p.enableFeaturesMemory && MemoryInputs(p, mobile, mobileDescriptors, fixedDescriptors, rows, cols)
    ensures Saveable(o.res.inliers, o.c.points, o.c.goodMatches, mobile, mobileDescriptors, o.c.depth)
    ensures MemorySaveable(p, o, mobile, mobileDescriptors)
  {
    forall k | 0 <= k < |o.res.inliers|
      ensures PixelOf(mobile[o.c.goodMatches[o.res.inliers[k]].trainIdx].pt) in o.c.depth
    {
      var t := o.c.goodMatches[o.res.inliers[k]].trainIdx;
      assert t < |fixedDescriptors|;
      assert InBounds(PixelOf(mobile[t].pt), rows, cols);
    }
  }

  /** The saveFeature calls of update(): one per inlier for an accepted estimate with the memory enabled. */
  ghost function SavedCalls(p: Parameters, o: Outcome, mobile: seq<KeyPoint>, mobileDescriptors: seq<Descriptor>,
                            lib: Externals): (calls: seq<MemoryCall>)
    requires MemorySaveable(p, o, mobile, mobileDescriptors)
    ensures |calls| == if p.enableFeaturesMemory && o.code == 0 then |o.res.inliers| else 0
    ensures forall k :: 0 <= k < |calls| ==> calls[k].SaveFeature?
  {
    if p.enableFeaturesMemory && o.code == 0 then
      InlierRecords(o.res.inliers, o.c.points, o.res.cameraPose, o.c.goodMatches, mobile, mobileDescriptors,
                    o.c.depth, lib)
    else []
  }

  /**
   * The calls update() makes into the features memory: none when the memory
   * is disabled; otherwise removeNonBackgroundFeatures with the depth image as
   * received, followed, only for an accepted estimate, by one saveFeature per
   * inlier.
   */
  ghost function MemoryCalls(p: Parameters, received: Grid, o: Outcome, mobile: seq<KeyPoint>,
                             mobileDescriptors: seq<Descriptor>, lib: Externals): (calls: seq<MemoryCall>)
    requires MemorySaveable(p, o, mobile, mobileDescriptors)
    ensures !p.enableFeaturesMemory <==> calls == []
    ensures p.enableFeaturesMemory ==>
              |calls| == 1 + (if o.code == 0 then |o.res.inliers| else 0) && calls[0] == RemoveNonBackground(received)
    ensures forall k :: 0 < k < |calls| ==> calls[k].SaveFeature?
  {
    if !p.enableFeaturesMemory then []
    else [RemoveNonBackground(received)] + SavedCalls(p, o, mobile, mobileDescriptors, lib)
  }

  /** The keypoints of the memory's features, in memory order. */
  function MemoryKeypoints(memory: seq<Feature>): (kps: seq<KeyPoint>)
    ensures |kps| == |memory| && forall k :: 0 <= k < |memory| ==> kps[k] == memory[k].keypoint
  {
    seq(|memory|, k requires 0 <= k < |memory| => memory[k].keypoint)
  }

  /** The descriptors of the memory's features, in memory order. */
  function MemoryDescriptors(memory: seq<Feature>): (ds: seq<Descriptor>)
    ensures |ds| == |memory| && forall k :: 0 <= k < |memory| ==> ds[k] == memory[k].descriptor
  {
    seq(|memory|, k requires 0 <= k < |memory| => memory[k].descriptor)
  }

  /**
   * The loop of featuresCallback (:198-207) that appends the memory's
   * features to the freshly extracted ones: the extracted entries come first
   * and keep their indices, so keypoint `k` still pairs with descriptor `k`.
   */
  method AppendMemoryFeatures(keypoints: seq<KeyPoint>, descriptors: seq<Descriptor>, memory: seq<Feature>)
    returns (allKeypoints: seq<KeyPoint>, allDescriptors: seq<Descriptor>)
    ensures allKeypoints == keypoints + MemoryKeypoints(memory)
    ensures allDescriptors == descriptors + MemoryDescriptors(memory)
  {
    allKeypoints, allDescriptors := keypoints, descriptors;
    var i := 0;
    while i < |memory|
      invariant 0 <= i <= |memory|
      invariant allKeypoints == keypoints + MemoryKeypoints(memory)[..i]
      invariant allDescriptors == descriptors + MemoryDescriptors(memory)[..i]
    {
      allKeypoints := allKeypoints + [memory[i].keypoint];
      allDescriptors := allDescriptors + [memory[i].descriptor];
      assert MemoryKeypoints(memory)[..i + 1] == MemoryKeypoints(memory)[..i] + [memory[i].keypoint];
      assert MemoryDescriptors(memory)[..i + 1] == MemoryDescriptors(memory)[..i] + [memory[i].descriptor];
      i := i + 1;
    }
    assert MemoryKeypoints(memory)[..i] == MemoryKeypoints(memory);
    assert MemoryDescriptors(memory)[..i] == MemoryDescriptors(memory);
  }

  /** The fixed keypoints featuresCallback hands to update(): the extracted ones, then the memory's when it is enabled. */
  function FixedKeypoints(p: Parameters, orbKeypoints: seq<KeyPoint>, memory: seq<Feature>): (kps: seq<KeyPoint>)
    ensures |kps| == |orbKeypoints| + (if p.enableFeaturesMemory then |memory| else 0)
    ensures kps[..|orbKeypoints|] == orbKeypoints
    ensures forall k :: |orbKeypoints| <= k < |kps| ==> kps[k] == memory[k - |orbKeypoints|].keypoint
  {
    if p.enableFeaturesMemory then orbKeypoints + MemoryKeypoints(memory) else orbKeypoints
  }

  /** The fixed descriptors featuresCallback hands to update(), aligned with FixedKeypoints. */
  function FixedDescriptors(p: Parameters, orbDescriptors: seq<Descriptor>, memory: seq<Feature>): (ds: seq<Descriptor>)
    ensures |ds| == |orbDescriptors| + (if p.enableFeaturesMemory then |memory| else 0)
    ensures ds[..|orbDescriptors|] == orbDescriptors
    ensures forall k :: |orbDescriptors| <= k < |ds| ==> ds[k] == memory[k - |orbDescriptors|].descriptor
  {
    if p.enableFeaturesMemory then orbDescriptors + MemoryDescriptors(memory) else orbDescriptors
  }

  /**
   * Lines 286-316 of update(): matches the descriptors, filters the matches
   * into an empty list and repairs the depth image in place.
   */
  method FilterAndRepair(p: Parameters, tol: real, mobile: seq<KeyPoint>, mobileDescriptors: seq<Descriptor>,
                         fixed: seq<KeyPoint>, fixedDescriptors: seq<Descriptor>,
                         depthImg: array2<nat>, lib: Externals)
    returns (goodMatches: seq<Match>)
    requires FrameInputs(mobile, mobileDescriptors, fixed, fixedDescriptors, depthImg.Length0, depthImg.Length1, lib)
    requires DepthTargetsInImage(p, tol, mobile, mobileDescriptors, fixed, fixedDescriptors,
                                 depthImg.Length0, depthImg.Length1, lib)
    modifies depthImg
    ensures Survivors(goodMatches, Snapshot(depthImg))
            == Surviving(p, tol, mobile, mobileDescriptors, fixed, fixedDescriptors,
                         old(Snapshot(depthImg)), depthImg.Length0, depthImg.Length1, lib)
  {
    var kps := Keypoints(mobile, fixed);
    var matches := lib.matchDescriptors(mobileDescriptors, fixedDescriptors);
    FilteredWithinLists(matches, kps, |mobileDescriptors|, |fixedDescriptors|, p.matchingThreshold, tol);
    var goodMatchesWithNull, filterStatus := FilterMatches(matches, [], kps, p.matchingThreshold, tol);
    var fixStatus;
    goodMatches, fixStatus := FixMatchesDepthOrDrop(goodMatchesWithNull, fixed, depthImg, lib);
  }

  /**
   * Lines 286-325 of update(): the good matches, the repaired depth image and
   * the 3D-2D correspondences are those Correspond describes for the depth
   * image as received.
   */
  method MatchAndReconstruct(p: Parameters, tol: real, mobile: seq<KeyPoint>, mobileDescriptors: seq<Descriptor>,
                             fixed: seq<KeyPoint>, fixedDescriptors: seq<Descriptor>, fixedCameraMatrix: Matrix3,
                             depthImg: array2<nat>, lib: Externals)
    returns (goodMatches: seq<Match>, points: seq<Point3>, pixels: seq<Point2>)
    requires FrameInputs(mobile, mobileDescriptors, fixed, fixedDescriptors, depthImg.Length0, depthImg.Length1, lib)
    requires DepthTargetsInImage(p, tol, mobile, mobileDescriptors, fixed, fixedDescriptors,
                                 depthImg.Length0, depthImg.Length1, lib)
    modifies depthImg
    ensures Correspondences(goodMatches, Snapshot(depthImg), points, pixels)
            == Correspond(p, tol, mobile, mobileDescriptors, fixed, fixedDescriptors,
                          fixedCameraMatrix, old(Snapshot(depthImg)), depthImg.Length0, depthImg.Length1, lib)
  {
    goodMatches := FilterAndRepair(p, tol, mobile, mobileDescriptors, fixed, fixedDescriptors, depthImg, lib);
    var kps := Keypoints(mobile, fixed);
    var depth := Snapshot(depthImg);
    var reconstructStatus;
    points, pixels, reconstructStatus := Get3dPositionsAndImagePositions(goodMatches, kps, depth, depthImg.Length0,
                                                                         depthImg.Length1, fixedCameraMatrix, lib);
    assert points == ObjectPoints(goodMatches, kps, depth, depthImg.Length0, depthImg.Length1, fixedCameraMatrix, lib);
    assert pixels == ImagePoints(goodMatches, kps);
  }

  /** A ros::Time: seconds and nanoseconds. */
  datatype Time = Time(sec: nat, nsec: nat)

  /** The header of a geometry_msgs::PoseStamped: its time stamp and frame id. */
  datatype Header = Header(stamp: Time, frameId: string)

  /** The frame id an accepted pose is stamped with (:464). */
  const WorldFrame: string := "/world"

  class CameraPoseEstimator {
    var params: Parameters
    /** Origin tolerance of filterMatches; a member whose value is set outside this file. */
    const keypointMinDistThreshold: real
    var didComputeEstimate: bool
    var lastPoseEstimate: Pose
    /** The header of lastPoseEstimate, a PoseStamped in the source. */
    var lastPoseHeader: Header
    var lastEstimateMatchesNumber: nat
    var lastEstimateReprojectionError: real
    /** The calls made into the features memory, oldest first. */
    ghost var memoryLog: seq<MemoryCall>

    /** A new estimator has no estimate yet and has not used the features memory. */
    constructor(params: Parameters, keypointMinDistThreshold: real)
      ensures this.params == params && this.keypointMinDistThreshold == keypointMinDistThreshold
      ensures !didComputeEstimate && memoryLog == []
    {
      this.params := params;
      this.keypointMinDistThreshold := keypointMinDistThreshold;
      didComputeEstimate := false;
      lastPoseEstimate := IdentityPose;
      lastPoseHeader := Header(Time(0, 0), "");
      lastEstimateMatchesNumber := 0;
      lastEstimateReprojectionError := 0.0;
      memoryLog := [];
    }

    /** setupParameters: replaces every parameter and touches nothing else. */
    method SetupParameters(pnpReprojectionError: real, pnpConfidence: real, pnpIterations: real,
                           matchingThreshold: real, reprojectionErrorDiscardThreshold: real, orbMaxPoints: int,
                           orbScaleFactor: real, orbLevelsNumber: int, phoneOrientationDifferenceThreshold_deg: real,
                           showImages: bool, minimumMatchesNumber: nat, enableFeaturesMemory: bool,
                           maxPoseHeight: real, minPoseHeight: real)
      modifies this
      ensures params == Parameters(pnpReprojectionError, pnpConfidence, pnpIterations, matchingThreshold,
                                   reprojectionErrorDiscardThreshold, orbMaxPoints, orbScaleFactor, orbLevelsNumber,
                                   phoneOrientationDifferenceThreshold_deg, showImages, minimumMatchesNumber,
                                   enableFeaturesMemory, maxPoseHeight, minPoseHeight)
      ensures didComputeEstimate == old(didComputeEstimate) && lastPoseEstimate == old(lastPoseEstimate)
      ensures lastPoseHeader == old(lastPoseHeader)
      ensures lastEstimateMatchesNumber == old(lastEstimateMatchesNumber)
      ensures lastEstimateReprojectionError == old(lastEstimateReprojectionError)
      ensures memoryLog == old(memoryLog)
    {
      params := Parameters(pnpReprojectionError, pnpConfidence, pnpIterations, matchingThreshold,
                           reprojectionErrorDiscardThreshold, orbMaxPoints, orbScaleFactor, orbLevelsNumber,
                           phoneOrientationDifferenceThreshold_deg, showImages, minimumMatchesNumber,
                           enableFeaturesMemory, maxPoseHeight, minPoseHeight);
    }

    /** saveInliersToMemory (:574-603): one saveFeature call per inlier, in inlier order. */
    method SaveInliersToMemory(inliers: seq<nat>, goodMatches3dPos: seq<Point3>, cameraPose: Pose,
                               goodMatches: seq<Match>, keypoints: seq<KeyPoint>, descriptors: seq<Descriptor>,
                               depth: Grid, lib: Externals)
      requires Saveable(inliers, goodMatches3dPos, goodMatches, keypoints, descriptors, depth)
      modifies this
      ensures memoryLog == old(memoryLog)
                           + InlierRecords(inliers, goodMatches3dPos, cameraPose, goodMatches, keypoints, descriptors, depth, lib)
      ensures params == old(params) && didComputeEstimate == old(didComputeEstimate)
      ensures lastPoseEstimate == old(lastPoseEstimate) && lastEstimateMatchesNumber == old(lastEstimateMatchesNumber)
      ensures lastPoseHeader == old(lastPoseHeader)
      ensures lastEstimateReprojectionError == old(lastEstimateReprojectionError)
    {
      ghost var records := InlierRecords(inliers, goodMatches3dPos, cameraPose, goodMatches, keypoints, descriptors, depth, lib);
      var i := 0;
      while i < |inliers|
        invariant 0 <= i <= |inliers|
        invariant memoryLog == old(memoryLog) + records[..i]
        invariant params == old(params) && didComputeEstimate == old(didComputeEstimate)
        invariant lastPoseEstimate == old(lastPoseEstimate) && lastEstimateMatchesNumber == old(lastEstimateMatchesNumber)
        invariant lastPoseHeader == old(lastPoseHeader)
        invariant lastEstimateReprojectionError == old(lastEstimateReprojectionError)
      {
        var feature := InlierFeature(goodMatches[inliers[i]], goodMatches3dPos[inliers[i]], cameraPose,
                                     keypoints, descriptors, depth, lib);
        memoryLog := memoryLog + [SaveFeature(feature)];
        assert records[..i + 1] == records[..i] + [records[i]];
        i := i + 1;
      }
      assert records[..|inliers|] == records;
    }

    /**
     * The gates of update() after the solver has run (:388-488), in source
     * order: too few inliers, a failed solve, a reprojection error above the
     * discard threshold, a pose above the maximum or below the minimum height,
     * a camera axis too far from the fixed camera's.
     */
    method CheckSolution(goodMatches: nat, res: PnPResult) returns (r: int)
      requires !(goodMatches < 4 || goodMatches < params.minimumMatchesNumber)
      ensures r == GateCode(goodMatches, res, params)
    {
      var status := 0;
      if !res.success {
        status := -1;
      }
      if |res.inliers| < 4 || |res.inliers| < params.minimumMatchesNumber {
        return 2;
      }
      if status < 0 {
        return -5;
      }
      if res.meanReprojectionError > params.reprojectionErrorDiscardThreshold {
        return 3;
      }
      if res.worldPose.position.z > params.maxPoseHeight {
        return 4;
      }
      if res.worldPose.position.z < params.minPoseHeight {
        return 5;
      }
      if res.angleFromZ > params.phoneOrientationDifferenceThreshold_deg {
        return 6;
      }
      return 0;
    }

    /**
     * Lines 490-498 of update(): an accepted estimate is saved to the memory,
     * inlier by inlier, when the memory is enabled, and replaces the last one.
     */
    method Accept(c: Correspondences, res: PnPResult, mobile: seq<KeyPoint>, mobileDescriptors: seq<Descriptor>,
                  timestamp: Time, lib: Externals)
      requires MemorySaveable(params, Outcome(c, res, 0), mobile, mobileDescriptors)
      modifies this
      ensures params == old(params) && didComputeEstimate
      ensures lastPoseEstimate == res.worldPose && lastEstimateMatchesNumber == |c.goodMatches|
      ensures lastPoseHeader == Header(timestamp, WorldFrame)
      ensures lastEstimateReprojectionError == res.meanReprojectionError
      ensures memoryLog == old(memoryLog) + SavedCalls(params, Outcome(c, res, 0), mobile, mobileDescriptors, lib)
    {
      if params.enableFeaturesMemory {
        SaveInliersToMemory(res.inliers, c.points, res.cameraPose, c.goodMatches, mobile, mobileDescriptors,
                            c.depth, lib);
      }
      lastPoseEstimate := res.worldPose;
      lastPoseHeader := Header(timestamp, WorldFrame);
      lastEstimateMatchesNumber := |c.goodMatches|;
      lastEstimateReprojectionError := res.meanReprojectionError;
      didComputeEstimate := true;
    }

    /**
     * Lines 377-498 of update(), once there are enough good matches: asks the
     * solver, warm-started from the last estimate when there is one, and runs
     * the remaining gates. Only an accepted estimate is saved to the memory and
     * replaces the last one.
     */
    method SolveAndGate(c: Correspondences, mobile: seq<KeyPoint>, mobileDescriptors: seq<Descriptor>,
                        arcoreCameraMatrix: Matrix3, timestamp: Time, lib: Externals)
      returns (r: int)
      requires SolverInliersIndex(lib)
      requires MemorySaveable(params, Conclusion(c, arcoreCameraMatrix, didComputeEstimate, lastPoseEstimate, params, lib),
                              mobile, mobileDescriptors)
      requires !(|c.goodMatches| < 4 || |c.goodMatches| < params.minimumMatchesNumber)
      modifies this
      ensures params == old(params)
      ensures var o := Conclusion(c, arcoreCameraMatrix, old(didComputeEstimate), old(lastPoseEstimate), old(params), lib);
              && r == o.code
              && (r == 0 ==> && lastPoseEstimate == o.res.worldPose
                             && lastPoseHeader == Header(timestamp, WorldFrame)
                             && lastEstimateMatchesNumber == |c.goodMatches|
                             && lastEstimateReprojectionError == o.res.meanReprojectionError)
              && memoryLog == old(memoryLog) + SavedCalls(old(params), o, mobile, mobileDescriptors, lib)
      ensures didComputeEstimate == (old(didComputeEstimate) || r == 0)
      ensures r != 0 ==> && lastPoseEstimate == old(lastPoseEstimate)
                         && lastPoseHeader == old(lastPoseHeader)
                         && lastEstimateMatchesNumber == old(lastEstimateMatchesNumber)
                         && lastEstimateReprojectionError == old(lastEstimateReprojectionError)
    {
      ghost var o := Conclusion(c, arcoreCameraMatrix, didComputeEstimate, lastPoseEstimate, params, lib);
      var guess := if didComputeEstimate then lastPoseEstimate else IdentityPose;
      var res := lib.solvePnP(PnPQuery(c.points, c.pixels, arcoreCameraMatrix, didComputeEstimate, guess,
                                       params.pnpIterations, params.pnpReprojectionError, params.pnpConfidence));
      assert res == o.res;
      r := CheckSolution(|c.goodMatches|, res);
      if r != 0 {
        return;
      }
      assert o == Outcome(c, res, 0);
      Accept(c, res, mobile, mobileDescriptors, timestamp, lib);
    }

    /**
     * Lines 350-498 of update(): with too few good matches it returns 1
     * before solving; otherwise it solves and gates. With the memory enabled,
     * removeNonBackgroundFeatures has been given the depth image as received.
     */
    method ValidateAndStore(c: Correspondences, ghost received: Grid, mobile: seq<KeyPoint>,
                            mobileDescriptors: seq<Descriptor>, arcoreCameraMatrix: Matrix3, timestamp: Time,
                            lib: Externals)
      returns (r: int)
      requires SolverInliersIndex(lib)
      requires MemorySaveable(params, Conclusion(c, arcoreCameraMatrix, didComputeEstimate, lastPoseEstimate, params, lib),
                              mobile, mobileDescriptors)
      modifies this
      ensures params == old(params)
      ensures var o := Conclusion(c, arcoreCameraMatrix, old(didComputeEstimate), old(lastPoseEstimate), old(params), lib);
              && r == o.code
              && (r == 0 ==> && lastPoseEstimate == o.res.worldPose
                             && lastPoseHeader == Header(timestamp, WorldFrame)
                             && lastEstimateMatchesNumber == |c.goodMatches|
                             && lastEstimateReprojectionError == o.res.meanReprojectionError)
              && memoryLog == old(memoryLog) + MemoryCalls(old(params), received, o, mobile, mobileDescriptors, lib)
      ensures didComputeEstimate == (old(didComputeEstimate) || r == 0)
      ensures r != 0 ==> && lastPoseEstimate == old(lastPoseEstimate)
                         && lastPoseHeader == old(lastPoseHeader)
                         && lastEstimateMatchesNumber == old(lastEstimateMatchesNumber)
                         && lastEstimateReprojectionError == old(lastEstimateReprojectionError)
    {
      ghost var o := Conclusion(c, arcoreCameraMatrix, didComputeEstimate, lastPoseEstimate, params, lib);
      ghost var saved := SavedCalls(params, o, mobile, mobileDescriptors, lib);
      ghost var removed := if params.enableFeaturesMemory then [RemoveNonBackground(received)] else [];
      assert MemoryCalls(params, received, o, mobile, mobileDescriptors, lib) == removed + saved;
      AppendAssociates(memoryLog, removed, saved);
      memoryLog := memoryLog + removed;
      if |c.goodMatches| < 4 || |c.goodMatches| < params.minimumMatchesNumber {
        assert saved == [];
        return 1;
      }
      r := SolveAndGate(c, mobile, mobileDescriptors, arcoreCameraMatrix, timestamp, lib);
    }

    /**
     * update() (:254-512). The return code is the gate code of the frame's
     * outcome (AcceptedIsPlausible says what a 0 requires); the estimate
     * fields change only when it is 0, the pose then stamped with `timestamp`
     * in the world frame; the depth image is left repaired; the
     * features memory sees the calls MemoryCalls lists.
     */
    method Update(mobile: seq<KeyPoint>, mobileDescriptors: seq<Descriptor>, fixed: seq<KeyPoint>,
                  fixedDescriptors: seq<Descriptor>, arcoreCameraMatrix: Matrix3, fixedCameraMatrix: Matrix3,
                  depthImg: array2<nat>, timestamp: Time, lib: Externals)
      returns (r: int)
      requires FrameInputs(mobile, mobileDescriptors, fixed, fixedDescriptors, depthImg.Length0, depthImg.Length1, lib)
      requires DepthTargetsInImage(params, keypointMinDistThreshold, mobile, mobileDescriptors, fixed, fixedDescriptors,
                                   depthImg.Length0, depthImg.Length1, lib)
      requires MemorySaveable(params, Estimate(params, keypointMinDistThreshold, didComputeEstimate, lastPoseEstimate,
                                               mobile, mobileDescriptors, fixed, fixedDescriptors, arcoreCameraMatrix,
                                               fixedCameraMatrix, Snapshot(depthImg), depthImg.Length0,
                                               depthImg.Length1, lib),
                              mobile, mobileDescriptors)
      modifies this, depthImg
      ensures params == old(params)
      ensures var o := Estimate(old(params), keypointMinDistThreshold, old(didComputeEstimate), old(lastPoseEstimate),
                                mobile, mobileDescriptors, fixed, fixedDescriptors, arcoreCameraMatrix,
                                fixedCameraMatrix, old(Snapshot(depthImg)), depthImg.Length0, depthImg.Length1, lib);
              && r == o.code
              && Snapshot(depthImg) == o.c.depth
              && (r == 0 ==> && lastPoseEstimate == o.res.worldPose
                             && lastPoseHeader == Header(timestamp, WorldFrame)
                             && lastEstimateMatchesNumber == |o.c.goodMatches|
                             && lastEstimateReprojectionError == o.res.meanReprojectionError)
              && memoryLog == old(memoryLog) + MemoryCalls(old(params), old(Snapshot(depthImg)), o, mobile,
                                                           mobileDescriptors, lib)
      ensures didComputeEstimate == (old(didComputeEstimate) || r == 0)
      ensures r != 0 ==> && lastPoseEstimate == old(lastPoseEstimate)
                         && lastPoseHeader == old(lastPoseHeader)
                         && lastEstimateMatchesNumber == old(lastEstimateMatchesNumber)
                         && lastEstimateReprojectionError == old(lastEstimateReprojectionError)
    {
      var p := params;
      ghost var received := Snapshot(depthImg);
      var goodMatches, points, pixels := MatchAndReconstruct(p, keypointMinDistThreshold, mobile, mobileDescriptors,
                                                             fixed, fixedDescriptors, fixedCameraMatrix, depthImg, lib);
      var c := Correspondences(goodMatches, Snapshot(depthImg), points, pixels);
      r := ValidateAndStore(c, received, mobile, mobileDescriptors, arcoreCameraMatrix, timestamp, lib);
    }

    /**
     * featuresCallback (:134-225) after decoding and feature extraction, whose
     * statuses are inputs: -1 when the messages could not be decoded, -2 when
     * no ORB features were found (both leave every field unchanged); otherwise
     * the memory's features are appended when it is enabled, update() runs on
     * the result, stamped with the mobile message's time, and the code is ten
     * times update()'s, with update()'s new state.
     */
    method FeaturesCallback(decodeStatus: int, mobile: seq<KeyPoint>, mobileDescriptors: seq<Descriptor>,
                            arcoreCameraMatrix: Matrix3, fixedCameraMatrix: Matrix3, depthImg: array2<nat>,
                            orbStatus: int, orbKeypoints: seq<KeyPoint>, orbDescriptors: seq<Descriptor>,
                            memory: seq<Feature>, arcoreStamp: Time, lib: Externals)
      returns (r: int)
      requires 0 <= decodeStatus && 0 <= orbStatus ==>
                 var fixed := FixedKeypoints(params, orbKeypoints, memory);
                 var fixedDescriptors := FixedDescriptors(params, orbDescriptors, memory);
                 && FrameInputs(mobile, mobileDescriptors, fixed, fixedDescriptors, depthImg.Length0, depthImg.Length1, lib)
                 && DepthTargetsInImage(params, keypointMinDistThreshold, mobile, mobileDescriptors, fixed,
                                        fixedDescriptors, depthImg.Length0, depthImg.Length1, lib)
                 && MemorySaveable(params, Estimate(params, keypointMinDistThreshold, didComputeEstimate,
                                                    lastPoseEstimate, mobile, mobileDescriptors, fixed,
                                                    fixedDescriptors, arcoreCameraMatrix, fixedCameraMatrix,
                                                    Snapshot(depthImg), depthImg.Length0, depthImg.Length1, lib),
                                   mobile, mobileDescriptors)
      modifies this, depthImg
      ensures params == old(params)
      ensures decodeStatus < 0 ==> r == -1
      ensures 0 <= decodeStatus && orbStatus < 0 ==> r == -2
      ensures decodeStatus < 0 || orbStatus < 0 ==> unchanged(this) && unchanged(depthImg)
      ensures 0 <= decodeStatus && 0 <= orbStatus ==>
                var o := Estimate(old(params), keypointMinDistThreshold, old(didComputeEstimate),
                                  old(lastPoseEstimate), mobile, mobileDescriptors,
                                  FixedKeypoints(old(params), orbKeypoints, memory),
                                  FixedDescriptors(old(params), orbDescriptors, memory), arcoreCameraMatrix,
                                  fixedCameraMatrix, old(Snapshot(depthImg)), depthImg.Length0, depthImg.Length1, lib);
                && r == 10 * o.code
                && Snapshot(depthImg) == o.c.depth
                && (r == 0 ==> && lastPoseEstimate == o.res.worldPose
                               && lastPoseHeader == Header(arcoreStamp, WorldFrame)
                               && lastEstimateMatchesNumber == |o.c.goodMatches|
                               && lastEstimateReprojectionError == o.res.meanReprojectionError)
                && memoryLog == old(memoryLog) + MemoryCalls(old(params), old(Snapshot(depthImg)), o, mobile,
                                                             mobileDescriptors, lib)
      ensures r in {-50, -2, -1, 0, 10, 20, 30, 40, 50, 60}
      ensures didComputeEstimate == (old(didComputeEstimate) || r == 0)
      ensures r != 0 ==> && lastPoseEstimate == old(lastPoseEstimate)
                         && lastPoseHeader == old(lastPoseHeader)
                         && lastEstimateMatchesNumber == old(lastEstimateMatchesNumber)
                         && lastEstimateReprojectionError == old(lastEstimateReprojectionError)
    {
      if decodeStatus < 0 {
        return -1;
      }
      if orbStatus < 0 {
        return -2;
      }
      var fixed, fixedDescriptors := orbKeypoints, orbDescriptors;
      if params.enableFeaturesMemory {
        fixed, fixedDescriptors := AppendMemoryFeatures(orbKeypoints, orbDescriptors, memory);
      }
      var code := Update(mobile, mobileDescriptors, fixed, fixedDescriptors, arcoreCameraMatrix, fixedCameraMatrix,
                         depthImg, arcoreStamp, lib);
      r := 10 * code;
    }
  }
}
