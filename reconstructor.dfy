/**
 * CameraPoseEstimator::get3dPositionsAndImagePositions: for every match, the
 * 3D position of its fixed-camera keypoint (back-projected with the depth at
 * its pixel and the fixed camera's intrinsics) paired with the 2D position of
 * its mobile keypoint.
 */
module Reconstructor {
  import opened Types

  /** Every match indexes both keypoint lists, and its fixed pixel lies inside the depth image. */
  predicate Reconstructible(ms: seq<Match>, kps: Keypoints, rows: nat, cols: nat)
  {
    forall k :: 0 <= k < |ms| ==> kps.Indexes(ms[k]) && InBounds(PixelOf(kps.Destination(ms[k])), rows, cols)
  }

  /**
   * The 3D point of one match: get3dPoint of the fixed keypoint's truncated
   * coordinates, the depth at its pixel and the entries (0,0), (1,1), (0,2)
   * and (1,2) of the camera matrix, that is fx, fy, cx and cy.
   */
  function ObjectPoint(m: Match, kps: Keypoints, depth: Grid, rows: nat, cols: nat, cameraMatrix: Matrix3,
                       lib: Externals): Point3
    requires kps.Indexes(m) && IsGrid(depth, rows, cols) && InBounds(PixelOf(kps.Destination(m)), rows, cols)
  {
    var d := kps.Destination(m);
    lib.get3dPoint(Trunc(d.x), Trunc(d.y), depth[PixelOf(d)],
                   cameraMatrix[0][0], cameraMatrix[1][1], cameraMatrix[0][2], cameraMatrix[1][2])
  }

  /**
   * get3dPositionsAndImagePositions: both outputs start empty and grow by one
   * entry per match, so they are index-aligned with the matches; entry `i`
   * pairs the 3D point of match `i`'s fixed keypoint with the image position
   * of its mobile keypoint. The depth image is only read. It returns 0.
   */
  method Get3dPositionsAndImagePositions(inputMatches: seq<Match>, kps: Keypoints, depth: Grid,
                                         rows: nat, cols: nat, cameraMatrix: Matrix3, lib: Externals)
    returns (matches3dPos: seq<Point3>, matchesImgPos: seq<Point2>, status: int)
    requires IsGrid(depth, rows, cols) && Reconstructible(inputMatches, kps, rows, cols)
    ensures |matches3dPos| == |inputMatches| && |matchesImgPos| == |inputMatches|
    ensures forall i :: 0 <= i < |inputMatches| ==>
              && matches3dPos[i] == ObjectPoint(inputMatches[i], kps, depth, rows, cols, cameraMatrix, lib)
              && matchesImgPos[i] == kps.Origin(inputMatches[i])
    ensures status == 0
  {
    matches3dPos, matchesImgPos := [], [];
    var i := 0;
    while i < |inputMatches|
      invariant 0 <= i <= |inputMatches|
      invariant |matches3dPos| == i && |matchesImgPos| == i
      invariant forall k :: 0 <= k < i ==>
                  && matches3dPos[k] == ObjectPoint(inputMatches[k], kps, depth, rows, cols, cameraMatrix, lib)
                  && matchesImgPos[k] == kps.Origin(inputMatches[k])
    {
      var kinectPixelPos := kps.fixed[inputMatches[i].trainIdx].pt;
      var arcorePixelPos := kps.mobile[inputMatches[i].queryIdx].pt;
      var pos3d := lib.get3dPoint(Trunc(kinectPixelPos.x), Trunc(kinectPixelPos.y), depth[PixelOf(kinectPixelPos)],
                                  cameraMatrix[0][0], cameraMatrix[1][1], cameraMatrix[0][2], cameraMatrix[1][2]);
      matches3dPos := matches3dPos + [pos3d];
      matchesImgPos := matchesImgPos + [arcorePixelPos];
      i := i + 1;
    }
    status := 0;
  }
}
