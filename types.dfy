/**
 * Value types shared by the pose-estimation pipeline of CameraPoseEstimator:
 * keypoints, descriptor matches, poses, the depth image seen as a value, and
 * the bundle of foreign (OpenCV / tf / libm) routines whose bodies are not
 * part of this model and which therefore enter as function-valued inputs.
 */
module Types {

  datatype Option<T> = None | Some(value: T)

  /** A floating-point image position (cv::Point2f), modelled exactly as reals. */
  datatype Point2 = Point2(x: real, y: real)

  /** A 3D point (cv::Point3f / tf::Vector3), modelled exactly as reals. */
  datatype Point3 = Point3(x: real, y: real, z: real)

  /** An integer image position (cv::Point2i): column x, row y. */
  datatype Pixel = Pixel(x: int, y: int)

  /** cv::KeyPoint: position, size, angle, response, octave and class id. */
  datatype KeyPoint = KeyPoint(pt: Point2, size: real, angle: real, response: real, octave: int, classId: int)

  /** One row of a binary descriptor matrix. */
  type Descriptor = seq<bv8>

  /**
   * cv::DMatch as produced by BFMatcher::match(mobile, fixed): queryIdx
   * indexes the mobile (AR device) side, trainIdx the fixed camera side.
   */
  datatype Match = Match(queryIdx: nat, trainIdx: nat, distance: real)

  datatype Quaternion = Quaternion(x: real, y: real, z: real, w: real)

  /** geometry_msgs::Pose. */
  datatype Pose = Pose(position: Point3, orientation: Quaternion)

  const IdentityPose := Pose(Point3(0.0, 0.0, 0.0), Quaternion(0.0, 0.0, 0.0, 1.0))

  /** A 3x3 camera matrix (cv::Mat of doubles), row-major. */
  type Matrix3 = m: seq<seq<real>> | |m| == 3 && |m[0]| == 3 && |m[1]| == 3 && |m[2]| == 3
    witness [[0.0, 0.0, 0.0], [0.0, 0.0, 0.0], [0.0, 0.0, 0.0]]

  predicate InBounds(p: Pixel, rows: nat, cols: nat)
  {
    0 <= p.y < rows && 0 <= p.x < cols
  }

  /** The contents of a 16-bit depth image as a value: the depth at each pixel. */
  type Grid = map<Pixel, nat>

  /** `g` holds a depth for exactly the pixels of a `rows` by `cols` image. */
  ghost predicate IsGrid(g: Grid, rows: nat, cols: nat)
  {
    forall p {:trigger p in g} :: p in g <==> InBounds(p, rows, cols)
  }

  /** Conversion of a float to an int parameter: C++ truncates toward zero. */
  function Trunc(v: real): (r: int)
    ensures 0.0 <= v ==> 0 <= r && r as real <= v < r as real + 1.0
    ensures v < 0.0 ==> r <= 0 && r as real - 1.0 < v <= r as real
  {
    if 0.0 <= v then v.Floor else -((-v).Floor)
  }

  /**
   * cvRound, used when a cv::Point2f is converted to the cv::Point that
   * Mat::at takes: round to nearest, ties to even.
   */
  function RoundHalfEven(v: real): (r: int)
    ensures -0.5 <= r as real - v <= 0.5
    ensures r as real - v == 0.5 || r as real - v == -0.5 ==> r % 2 == 0
  {
    var f := v.Floor;
    var frac := v - f as real;
    if frac < 0.5 then f
    else if frac > 0.5 then f + 1
    else if f % 2 == 0 then f
    else f + 1
  }

  /** The depth-image pixel read or written by `image.at<uint16_t>(pt)`. */
  function PixelOf(pt: Point2): (px: Pixel)
    ensures -0.5 <= px.x as real - pt.x <= 0.5 && -0.5 <= px.y as real - pt.y <= 0.5
  {
    Pixel(RoundHalfEven(pt.x), RoundHalfEven(pt.y))
  }

  /** What solvePnPRansac is asked: its inputs and the initial-guess setting. */
  datatype PnPQuery = PnPQuery(
    objectPoints: seq<Point3>,
    imagePoints: seq<Point2>,
    cameraMatrix: Matrix3,
    useExtrinsicGuess: bool,
    guess: Pose,
    iterations: real,
    reprojectionError: real,
    confidence: real)

  /**
   * What the estimator derives from one solvePnPRansac call with floating-point
   * code outside this model: the success flag, the inlier indices, the camera
   * pose in the fixed camera frame (after invertPose), the mean reprojection
   * error over the inliers, the pose transformed to the world frame, and the
   * angle between the camera's optical axis and the z axis, in degrees.
   */
  datatype PnPResult = PnPResult(
    success: bool,
    inliers: seq<nat>,
    cameraPose: Pose,
    meanReprojectionError: real,
    worldPose: Pose,
    angleFromZ: real)

  /**
   * The routines called by the core whose bodies are not part of this model:
   * get3dPoint (utils.hpp:24), findNearestNonZeroPixel and
   * findLowestNonZeroInRing (utils.hpp:37-38), std::hypot, tf::Vector3::distance,
   * the brute-force Hamming matcher and the PnP solver with its post-processing.
   */
  datatype Externals = Externals(
    get3dPoint: (int, int, int, real, real, real, real) -> Point3,
    findNearestNonZeroPixel: (Grid, int, int, real) -> Pixel,
    findLowestNonZeroInRing: (Grid, int, int, real, real) -> Pixel,
    hypot: (real, real) -> real,
    distance: (Point3, Point3) -> real,
    matchDescriptors: (seq<Descriptor>, seq<Descriptor>) -> seq<Match>,
    solvePnP: PnPQuery -> PnPResult)

  /** The ring search only ever returns a pixel inside images of the given size. */
  ghost predicate RingSearchInBounds(lib: Externals, rows: nat, cols: nat)
  {
    forall g, x, y, outer, inner ::
      IsGrid(g, rows, cols) ==> InBounds(lib.findLowestNonZeroInRing(g, x, y, outer, inner), rows, cols)
  }

  /** The keypoints a frame's matches index into. */
  datatype Keypoints = Keypoints(mobile: seq<KeyPoint>, fixed: seq<KeyPoint>)
  {
    predicate Indexes(m: Match)
    {
      m.queryIdx < |mobile| && m.trainIdx < |fixed|
    }

    predicate IndexesAll(ms: seq<Match>)
    {
      forall k :: 0 <= k < |ms| ==> Indexes(ms[k])
    }

    /** The mobile-side keypoint position of a match. */
    function Origin(m: Match): Point2
      requires Indexes(m)
    {
      mobile[m.queryIdx].pt
    }

    /** The fixed-side keypoint position of a match. */
    function Destination(m: Match): Point2
      requires Indexes(m)
    {
      fixed[m.trainIdx].pt
    }
  }
}
