# CameraPoseEstimator, modelled in Dafny

This project models the per-frame pose-estimation core of `CameraPoseEstimator`
(open_ptrack_v2, `optar`). The estimator works out where an AR device's camera
is, relative to a fixed RGB-D camera. It matches the device's ORB features
against the fixed camera's and thins out the matches. It repairs the depth
under each match and back-projects the matches to 3D points. A PnP solver then
proposes a pose, warm-started from the last accepted pose, and a fixed
sequence of plausibility gates decides whether to accept it. An accepted pose
replaces the last one, and its inliers may go to a features memory.

The modules follow the source's functions:

- `Types` (types.dfy): keypoints, matches, poses and the depth image as a value (`Grid`, a map from pixel to depth). It also defines the float-to-int conversions the code relies on: truncation for `int` parameters, and round-half-even (cvRound) when a `Point2f` indexes `Mat::at`. `Externals` bundles the routines whose bodies are not part of this model as function-valued inputs: get3dPoint, findNearestNonZeroPixel, findLowestNonZeroInRing, hypot, tf::Vector3::distance, BFMatcher, and solvePnPRansac with its floating-point post-processing.
- `Sequences` (sequences.dfy): generic facts about erasing positions (`Drop`) and keeping flagged elements (`Select`). These need no source citation.
- `MatchFilter` (match_filter.dfy): `filterMatches`, the threshold and then the in-place merge/erase pass. It has spec functions and loop methods proved against them.
- `DepthResolver` (depth_resolver.dfy): `fixMatchesDepthOrDrop`, a loop over an `array2<nat>` depth image that writes in place.
- `Reconstructor` (reconstructor.dfy): `get3dPositionsAndImagePositions`.
- `Estimator` (estimator.dfy): the class `CameraPoseEstimator`. It holds the parameters, the last-estimate fields, and a ghost log `memoryLog` of the calls into the features memory. Its methods are `update`, `featuresCallback`, `saveInliersToMemory` and `setupParameters`. `update` is specified by the ghost function `Estimate`, which chains the match pipeline, the solver query and `GateCode`.
- `TypeString` (type_str.dfy): `type2str`, on a 32-bit two's-complement code.

Descriptor distances, pixel coordinates, poses and reprojection errors are exact reals. Distances are compared squared against the squared tolerance.

Where the documented behaviour and the code disagree, the model follows the code:

- **Merging is not idempotent.** After a contradictory group is erased, the loop index still moves on. The match shifted into the freed slot is never taken as a representative, so contradictory pairs can survive, and a second pass can remove more. `MatchFilter.SkippedSlotKeepsContradictoryPair` exhibits this.
- **Destinations are compared with the representative only.** The test is not pairwise. See `MatchFilter.DestinationTestIsAgainstRepresentativeOnly` and `MatchFilter.RepresentativeTestIsNotTransitive`.
- **The depth write is unconditional.** The zero guard is commented out, so every match's pixel is overwritten with the ring-search value, including pixels that had a nonzero depth. A later match with the same pixel can overwrite an earlier one's repaired depth. A dropped match therefore has final depth 0 only when no later match writes its pixel (`DepthResolver.KeptIffFinalDepthWhenLastWriter`).
- **The matches accumulate into the output list.** `filterMatches` appends to `goodMatches` without clearing it first, so the model takes the list's prior contents as a parameter. `update` passes an empty list.
- **Matching never fails.** `findOrbMatches`, `filterMatches`, `fixMatchesDepthOrDrop` and `get3dPositionsAndImagePositions` always return 0, so `update`'s codes -1 to -4 cannot occur.
- **The parameters can change after construction.** `setupParameters` may be called at any time. Each `update` reads the parameters current at its call.
- **The memory gets the mobile lists.** Line 493 passes the mobile keypoints and descriptors to `saveInliersToMemory`, which indexes them with each match's fixed-side `trainIdx` (lines 594-595). Those lookups run only for an accepted estimate with the memory enabled, and only at the accepted inliers' `trainIdx`. `Update` therefore requires exactly that (`Estimator.MemorySaveable` of the frame's outcome). `Estimator.InliersSaveable` shows one sufficient condition on the frame alone (`Estimator.MemoryInputs`).
- **The warm-start guess.** Without an estimate, the solver gets `useExtrinsicGuess == false`. The source then passes the default-constructed `cv::Vec3d` rotation and translation, which OpenCV zero-fills. That is the identity pose, which is what the model passes.

## Model

| member | source | states |
|---|---|---|
| Types.Trunc | optar/optar/src/noMarker/ardevices_pose_estimator_single_camera_raw/CameraPoseEstimator.cpp:1155-1158 | a float passed as an `int` is truncated toward zero: the result lies within one of the value, on the side of zero |
| Types.RoundHalfEven | optar/optar/src/noMarker/ardevices_pose_estimator_single_camera_raw/CameraPoseEstimator.cpp:1113 | a `Point2f` used as a pixel index is rounded to the nearest integer, ties to even |
| Types.PixelOf | optar/optar/src/noMarker/ardevices_pose_estimator_single_camera_raw/CameraPoseEstimator.cpp:1113 | the pixel `Mat::at` reads for a `Point2f` lies within half a pixel of the point on both axes |
| MatchFilter.Threshold | optar/optar/src/noMarker/ardevices_pose_estimator_single_camera_raw/CameraPoseEstimator.cpp:793-800 | the threshold stage never grows the list, and every match it keeps has distance at most the threshold |
| MatchFilter.ThresholdExact | optar/optar/src/noMarker/ardevices_pose_estimator_single_camera_raw/CameraPoseEstimator.cpp:793-800 | the threshold keeps exactly the matches within the bound: an order-preserving subsequence with each such match's input multiplicity, and a match is kept iff it is an input with distance at most the bound |
| MatchFilter.SameOriginAscending | optar/optar/src/noMarker/ardevices_pose_estimator_single_camera_raw/CameraPoseEstimator.cpp:804-813 | the same-origin group lists positions in strictly ascending order, none below the representative's |
| MatchFilter.SameOriginMembers | optar/optar/src/noMarker/ardevices_pose_estimator_single_camera_raw/CameraPoseEstimator.cpp:806-813 | a position is in the group iff it lies in the scanned range and its mobile keypoint is within the tolerance of the representative's |
| MatchFilter.RepresentativeLeads | optar/optar/src/noMarker/ardevices_pose_estimator_single_camera_raw/CameraPoseEstimator.cpp:808-812 | a non-empty group always starts with the representative itself |
| MatchFilter.SameOrigin | optar/optar/src/noMarker/ardevices_pose_estimator_single_camera_raw/CameraPoseEstimator.cpp:806-813 | every gathered position lies below the scanned bound, so it indexes the list; SameOriginMembers gives the exact membership |
| MatchFilter.SameDestination | optar/optar/src/noMarker/ardevices_pose_estimator_single_camera_raw/CameraPoseEstimator.cpp:817-828 | the predicate haveSameDestination answers: every member's fixed keypoint is within the tolerance of the representative's |
| MatchFilter.MeanDistance | optar/optar/src/noMarker/ardevices_pose_estimator_single_camera_raw/CameraPoseEstimator.cpp:844-847 | the merged distance is the group's sum over its size; a group of one keeps its own distance |
| MatchFilter.MeanBounded | optar/optar/src/noMarker/ardevices_pose_estimator_single_camera_raw/CameraPoseEstimator.cpp:844-848 | the merged distance is the group mean, so a bound on every member's distance bounds it |
| MatchFilter.ResolveGroup | optar/optar/src/noMarker/ardevices_pose_estimator_single_camera_raw/CameraPoseEstimator.cpp:815-857 | one iteration never grows the list, never invents an index pair, and keeps every match indexing the keypoint lists |
| MatchFilter.ResolveLoneMatch | optar/optar/src/noMarker/ardevices_pose_estimator_single_camera_raw/CameraPoseEstimator.cpp:815-816 | a group of at most one match leaves the list unchanged |
| MatchFilter.ResolveContradictoryGroup | optar/optar/src/noMarker/ardevices_pose_estimator_single_camera_raw/CameraPoseEstimator.cpp:817-840 | a group with a far destination is erased entirely: the prefix before i is untouched, the list shrinks by the group size, and every later entry is a non-member from after i |
| MatchFilter.ResolveAgreeingGroup | optar/optar/src/noMarker/ardevices_pose_estimator_single_camera_raw/CameraPoseEstimator.cpp:841-857 | an agreeing group keeps its representative at i with the group's mean distance and erases the other members: the prefix is untouched, the length drops by the group size minus one, and later entries are non-members |
| MatchFilter.MergeFrom | optar/optar/src/noMarker/ardevices_pose_estimator_single_camera_raw/CameraPoseEstimator.cpp:804-858 | the merging loop never grows the list and never invents an index pair |
| MatchFilter.ResolveKeepsDistanceBound | optar/optar/src/noMarker/ardevices_pose_estimator_single_camera_raw/CameraPoseEstimator.cpp:815-857 | one group resolution keeps any upper bound on every distance |
| MatchFilter.MergeKeepsDistanceBound | optar/optar/src/noMarker/ardevices_pose_estimator_single_camera_raw/CameraPoseEstimator.cpp:804-858 | the whole merging loop keeps any upper bound on every distance |
| MatchFilter.FilteredMatchesIndexed | optar/optar/src/noMarker/ardevices_pose_estimator_single_camera_raw/CameraPoseEstimator.cpp:806-822 | every match filterMatches outputs indexes both keypoint lists, so the `at()` calls stay in range |
| MatchFilter.FilteredMatches | optar/optar/src/noMarker/ardevices_pose_estimator_single_camera_raw/CameraPoseEstimator.cpp:773-882 | filterMatches' result is no longer than its inputs together and carries only index pairs of the prior contents and the thresholded matches |
| MatchFilter.FilteredMatchesProperties | optar/optar/src/noMarker/ardevices_pose_estimator_single_camera_raw/CameraPoseEstimator.cpp:793-857 | the output is no longer than the prior contents plus the input, carries only index pairs of thresholded inputs, and, when the prior contents are within the threshold, has every distance within it |
| MatchFilter.GatherSameOrigin | optar/optar/src/noMarker/ardevices_pose_estimator_single_camera_raw/CameraPoseEstimator.cpp:806-813 | the inner loop collects exactly the same-origin group |
| MatchFilter.HaveSameDestination | optar/optar/src/noMarker/ardevices_pose_estimator_single_camera_raw/CameraPoseEstimator.cpp:817-828 | the early-exit loop answers whether every member's destination is within the tolerance of the representative's |
| MatchFilter.AverageDistance | optar/optar/src/noMarker/ardevices_pose_estimator_single_camera_raw/CameraPoseEstimator.cpp:844-847 | the averaging loop yields the mean distance of the group |
| MatchFilter.EraseAll | optar/optar/src/noMarker/ardevices_pose_estimator_single_camera_raw/CameraPoseEstimator.cpp:834-839 | erasing ascending positions one by one, each shifted down by the count already erased, removes exactly those positions |
| MatchFilter.AppendWithinThreshold | optar/optar/src/noMarker/ardevices_pose_estimator_single_camera_raw/CameraPoseEstimator.cpp:793-800 | the loop appends exactly the thresholded matches, in order, after the list's prior contents |
| MatchFilter.ResolveGroupAt | optar/optar/src/noMarker/ardevices_pose_estimator_single_camera_raw/CameraPoseEstimator.cpp:806-857 | one iteration of the outer loop computes the group resolution |
| MatchFilter.FilterMatches | optar/optar/src/noMarker/ardevices_pose_estimator_single_camera_raw/CameraPoseEstimator.cpp:773-882 | filterMatches leaves the prior contents plus the thresholded matches, merged from position 0, and returns 0 |
| MatchFilter.ContradictoryPairErased | optar/optar/src/noMarker/ardevices_pose_estimator_single_camera_raw/CameraPoseEstimator.cpp:815-840 | two matches with one origin and contradictory destinations are both erased |
| MatchFilter.SkippedSlotKeepsContradictoryPair | optar/optar/src/noMarker/ardevices_pose_estimator_single_camera_raw/CameraPoseEstimator.cpp:804-839 | after the leading contradictory pair is erased, the pair shifted into slot 0 is skipped and survives; filtering the output again erases it |
| MatchFilter.DestinationTestIsAgainstRepresentativeOnly | optar/optar/src/noMarker/ardevices_pose_estimator_single_camera_raw/CameraPoseEstimator.cpp:817-857 | three matches whose destinations are each near the first's merge into one with the mean of their distances |
| MatchFilter.RepresentativeTestIsNotTransitive | optar/optar/src/noMarker/ardevices_pose_estimator_single_camera_raw/CameraPoseEstimator.cpp:818-828 | two points can both be within the tolerance of a third while being farther apart than the tolerance |
| DepthResolver.RepairDepthEffect | optar/optar/src/noMarker/ardevices_pose_estimator_single_camera_raw/CameraPoseEstimator.cpp:1104-1123 | a repair changes the keypoint's own pixel and no other, sets it to a depth the image held at some in-bounds pixel, and keeps the match iff that depth is nonzero |
| DepthResolver.RepairDepth | optar/optar/src/noMarker/ardevices_pose_estimator_single_camera_raw/CameraPoseEstimator.cpp:1104-1123 | one iteration keeps the image's size, and the match is kept iff the depth just written at its pixel is nonzero |
| DepthResolver.RingPixel | optar/optar/src/noMarker/ardevices_pose_estimator_single_camera_raw/CameraPoseEstimator.cpp:1108-1110 | the pixel the ring search returns, around the truncated keypoint position, lies inside the image |
| DepthResolver.RepairAll | optar/optar/src/noMarker/ardevices_pose_estimator_single_camera_raw/CameraPoseEstimator.cpp:1100-1125 | the loop yields an image of the same size and one keep flag per match |
| DepthResolver.RepairAllTouchesOnlyTargets | optar/optar/src/noMarker/ardevices_pose_estimator_single_camera_raw/CameraPoseEstimator.cpp:1101-1124 | a pixel that is no match's target keeps its depth |
| DepthResolver.KeptIffDepthAfterOwnRepair | optar/optar/src/noMarker/ardevices_pose_estimator_single_camera_raw/CameraPoseEstimator.cpp:1113-1123 | a match is kept iff the depth at its pixel is nonzero right after its own write |
| DepthResolver.LaterRepairsKeepPixel | optar/optar/src/noMarker/ardevices_pose_estimator_single_camera_raw/CameraPoseEstimator.cpp:1101-1124 | when no later match targets the same pixel, later iterations leave that pixel's depth alone |
| DepthResolver.KeptIffFinalDepthWhenLastWriter | optar/optar/src/noMarker/ardevices_pose_estimator_single_camera_raw/CameraPoseEstimator.cpp:1113-1123 | when no later match targets the same pixel, a match is kept iff the final depth at its pixel is nonzero |
| DepthResolver.RepairAt | optar/optar/src/noMarker/ardevices_pose_estimator_single_camera_raw/CameraPoseEstimator.cpp:1104-1123 | one loop body writes the ring-search depth into the keypoint's pixel and reports whether it is nonzero |
| DepthResolver.FixMatchesDepthOrDrop | optar/optar/src/noMarker/ardevices_pose_estimator_single_camera_raw/CameraPoseEstimator.cpp:1098-1126 | the image ends as the repaired image, the output is the order-preserving subsequence of kept matches, and the function returns 0 |
| Reconstructor.Get3dPositionsAndImagePositions | optar/optar/src/noMarker/ardevices_pose_estimator_single_camera_raw/CameraPoseEstimator.cpp:1140-1166 | both outputs are index-aligned with the input: entry i is get3dPoint of the fixed pixel, its depth and fx, fy, cx, cy, paired with the mobile keypoint's position; returns 0 |
| Reconstructor.ObjectPoint | optar/optar/src/noMarker/ardevices_pose_estimator_single_camera_raw/CameraPoseEstimator.cpp:1155-1158 | the 3D point of one match: get3dPoint of the truncated fixed coordinates, the depth at the fixed pixel, and fx, fy, cx, cy |
| Estimator.RequiredMatches | optar/optar/src/noMarker/ardevices_pose_estimator_single_camera_raw/CameraPoseEstimator.cpp:350 | the test for too few matches rejects exactly the counts below max(4, minimumMatchesNumber) |
| Estimator.GateCode | optar/optar/src/noMarker/ardevices_pose_estimator_single_camera_raw/CameraPoseEstimator.cpp:350-488 | the code after reconstruction is one of -5, 0, 1, 2, 3, 4, 5, 6 |
| Estimator.GateAcceptsIff | optar/optar/src/noMarker/ardevices_pose_estimator_single_camera_raw/CameraPoseEstimator.cpp:350-488 | code 0 iff there are enough good matches and inliers, the solve succeeded, the error is within the discard threshold, the height lies in the allowed band and the angle is within its threshold |
| Estimator.GateOrder | optar/optar/src/noMarker/ardevices_pose_estimator_single_camera_raw/CameraPoseEstimator.cpp:350-488 | each of the codes 1, 2, -5, 3, 4, 5, 6 holds iff its own check fails and every earlier check passes |
| Estimator.ObjectPoints | optar/optar/src/noMarker/ardevices_pose_estimator_single_camera_raw/CameraPoseEstimator.cpp:1150-1160 | one 3D point per good match, each get3dPoint of that match's fixed keypoint |
| Estimator.ImagePoints | optar/optar/src/noMarker/ardevices_pose_estimator_single_camera_raw/CameraPoseEstimator.cpp:1150-1160 | one mobile image position per good match |
| Estimator.Surviving | optar/optar/src/noMarker/ardevices_pose_estimator_single_camera_raw/CameraPoseEstimator.cpp:286-316 | the surviving matches index both descriptor lists and have in-image fixed pixels, and the repaired depth keeps the image's size |
| Estimator.Correspond | optar/optar/src/noMarker/ardevices_pose_estimator_single_camera_raw/CameraPoseEstimator.cpp:286-325 | the 3D points and image positions are aligned with the surviving matches |
| Estimator.Query | optar/optar/src/noMarker/ardevices_pose_estimator_single_camera_raw/CameraPoseEstimator.cpp:377-395 | the solver gets the correspondences, and is warm-started exactly when an estimate exists, from the last pose |
| Estimator.InlierFeature | optar/optar/src/noMarker/ardevices_pose_estimator_single_camera_raw/CameraPoseEstimator.cpp:586-600 | the saved feature carries the keypoint and descriptor at the match's trainIdx, and the depth at that keypoint's pixel |
| Estimator.InlierRecords | optar/optar/src/noMarker/ardevices_pose_estimator_single_camera_raw/CameraPoseEstimator.cpp:583-602 | one saveFeature record per inlier, in inlier order |
| Estimator.Conclusion | optar/optar/src/noMarker/ardevices_pose_estimator_single_camera_raw/CameraPoseEstimator.cpp:377-488 | the solver's inliers index the correspondences, and the code is a gate code |
| Estimator.AcceptedIsPlausible | optar/optar/src/noMarker/ardevices_pose_estimator_single_camera_raw/CameraPoseEstimator.cpp:350-488 | a frame's outcome is 0 iff it has enough good matches and inliers, a successful solve, an error within the threshold, a height within the band and an angle within the threshold |
| Estimator.Estimate | optar/optar/src/noMarker/ardevices_pose_estimator_single_camera_raw/CameraPoseEstimator.cpp:286-488 | the whole frame's outcome: aligned correspondences, inliers that index them, and a gate code |
| Estimator.InliersSaveable | optar/optar/src/noMarker/ardevices_pose_estimator_single_camera_raw/CameraPoseEstimator.cpp:493 | MemoryInputs, a condition on the frame alone, is sufficient: under it every inlier can be looked up in the mobile lists at its trainIdx, so the outcome is MemorySaveable |
| Estimator.SavedCalls | optar/optar/src/noMarker/ardevices_pose_estimator_single_camera_raw/CameraPoseEstimator.cpp:492-493 | saveFeature is called once per inlier, and only for an accepted estimate with the memory enabled |
| Estimator.MemoryCalls | optar/optar/src/noMarker/ardevices_pose_estimator_single_camera_raw/CameraPoseEstimator.cpp:277-281 | with the memory disabled nothing is called; otherwise removeNonBackgroundFeatures on the received depth comes first, then only saveFeature calls |
| Estimator.MemoryKeypoints | optar/optar/src/noMarker/ardevices_pose_estimator_single_camera_raw/CameraPoseEstimator.cpp:202-206 | the memory's keypoints, in memory order |
| Estimator.MemoryDescriptors | optar/optar/src/noMarker/ardevices_pose_estimator_single_camera_raw/CameraPoseEstimator.cpp:202-206 | the memory's descriptors, in memory order |
| Estimator.AppendMemoryFeatures | optar/optar/src/noMarker/ardevices_pose_estimator_single_camera_raw/CameraPoseEstimator.cpp:198-207 | the memory's keypoints and descriptors are appended after the extracted ones, so existing indices are unchanged |
| Estimator.FixedKeypoints | optar/optar/src/noMarker/ardevices_pose_estimator_single_camera_raw/CameraPoseEstimator.cpp:198-207 | the fixed keypoints update receives: the extracted ones at their own indices, then, with the memory enabled, one per memory feature in memory order |
| Estimator.FixedDescriptors | optar/optar/src/noMarker/ardevices_pose_estimator_single_camera_raw/CameraPoseEstimator.cpp:198-207 | the fixed descriptors update receives, aligned the same way with the extracted ones and the memory's |
| Estimator.FilterAndRepair | optar/optar/src/noMarker/ardevices_pose_estimator_single_camera_raw/CameraPoseEstimator.cpp:286-316 | matching, filtering into an empty list and the depth repair produce the matches and image Surviving describes |
| Estimator.MatchAndReconstruct | optar/optar/src/noMarker/ardevices_pose_estimator_single_camera_raw/CameraPoseEstimator.cpp:286-330 | the good matches, the repaired image and the correspondences are those Correspond describes for the received image |
| Estimator.CameraPoseEstimator.constructor | optar/optar/src/noMarker/ardevices_pose_estimator_single_camera_raw/CameraPoseEstimator.cpp:45-62 | a new estimator has no estimate and an empty memory log |
| Estimator.CameraPoseEstimator.SetupParameters | optar/optar/src/noMarker/ardevices_pose_estimator_single_camera_raw/CameraPoseEstimator.cpp:92-121 | every parameter is replaced and nothing else changes |
| Estimator.CameraPoseEstimator.SaveInliersToMemory | optar/optar/src/noMarker/ardevices_pose_estimator_single_camera_raw/CameraPoseEstimator.cpp:574-603 | the memory log grows by exactly one record per inlier, in order, and no other field changes |
| Estimator.CameraPoseEstimator.CheckSolution | optar/optar/src/noMarker/ardevices_pose_estimator_single_camera_raw/CameraPoseEstimator.cpp:396-488 | the post-solve gates return the gate code |
| Estimator.CameraPoseEstimator.Accept | optar/optar/src/noMarker/ardevices_pose_estimator_single_camera_raw/CameraPoseEstimator.cpp:490-498 | an accepted estimate sets the last pose, stamped with the frame's timestamp in the "/world" frame, the good-match count (not the inlier count), the error and the flag, and logs the inliers when the memory is enabled; it requires only that those inliers can be looked up |
| Estimator.CameraPoseEstimator.SolveAndGate | optar/optar/src/noMarker/ardevices_pose_estimator_single_camera_raw/CameraPoseEstimator.cpp:377-498 | the warm-started solve and the gates return the outcome's code; only code 0 changes the estimate fields and logs the inliers |
| Estimator.CameraPoseEstimator.ValidateAndStore | optar/optar/src/noMarker/ardevices_pose_estimator_single_camera_raw/CameraPoseEstimator.cpp:350-498 | with too few good matches it returns 1 before solving; the memory log grows by the outcome's MemoryCalls |
| Estimator.CameraPoseEstimator.Update | optar/optar/src/noMarker/ardevices_pose_estimator_single_camera_raw/CameraPoseEstimator.cpp:254-512 | update returns the frame's gate code and leaves the depth image repaired; only code 0 changes the last-estimate fields, stamping the pose with the frame's timestamp and the "/world" frame id, and sets the flag; the memory sees exactly the frame's MemoryCalls; the mobile lists need to index only an accepted outcome's inliers |
| Estimator.CameraPoseEstimator.FeaturesCallback | optar/optar/src/noMarker/ardevices_pose_estimator_single_camera_raw/CameraPoseEstimator.cpp:134-225 | returns -1 on a decoding failure and -2 on a feature failure, both without changes; otherwise 10 times update's code on the extracted features followed, with the memory enabled, by the memory's, with update's new state, the pose stamped with the mobile message's time: the repaired image, the last-estimate fields set only on 0, and the memory calls |
| TypeString.Depth | optar/optar/src/noMarker/ardevices_pose_estimator_single_camera_raw/CameraPoseEstimator.cpp:888 | the depth field of a code is always in 0..7 |
| TypeString.Channels | optar/optar/src/noMarker/ardevices_pose_estimator_single_camera_raw/CameraPoseEstimator.cpp:889 | the channel field, stored in a uchar, is always below 256 |
| TypeString.DepthName | optar/optar/src/noMarker/ardevices_pose_estimator_single_camera_raw/CameraPoseEstimator.cpp:891-917 | the depth switch's names have 2 to 4 characters; DepthNameRoundTrip pins each code 0..7 to its name, with 7 named "User" |
| TypeString.ChannelChar | optar/optar/src/noMarker/ardevices_pose_estimator_single_camera_raw/CameraPoseEstimator.cpp:920 | the appended character is a byte, and for at most nine channels it is the channel count's decimal digit |
| TypeString.Type2Str | optar/optar/src/noMarker/ardevices_pose_estimator_single_camera_raw/CameraPoseEstimator.cpp:884-923 | the name has 4 to 6 characters, with 'C' next to last |
| TypeString.MakeTypeDecodes | optar/optar/src/noMarker/ardevices_pose_estimator_single_camera_raw/CameraPoseEstimator.cpp:888-889 | for a code packed from a depth and a channel count, the depth field is that depth and the channel field is the count modulo 256 |
| TypeString.NameOfPackedType | optar/optar/src/noMarker/ardevices_pose_estimator_single_camera_raw/CameraPoseEstimator.cpp:891-920 | a packed code with 1 to 9 channels is named by its depth name, 'C' and the channel digit |
| TypeString.DepthNameRoundTrip | optar/optar/src/noMarker/ardevices_pose_estimator_single_camera_raw/CameraPoseEstimator.cpp:891-917 | reading a depth name back recovers its depth code 0..7, and code 7 is named "User" |
| TypeString.DepthNamesDistinct | optar/optar/src/noMarker/ardevices_pose_estimator_single_camera_raw/CameraPoseEstimator.cpp:891-917 | two depth codes share a name iff they are equal |
| TypeString.SameNameIffSameFields | optar/optar/src/noMarker/ardevices_pose_estimator_single_camera_raw/CameraPoseEstimator.cpp:884-923 | two type codes get the same name iff their depth fields and stored channel fields agree |
| TypeString.MinusOneIsUserC0 | optar/optar/src/noMarker/ardevices_pose_estimator_single_camera_raw/CameraPoseEstimator.cpp:888-920 | the code -1 is named "UserC0": its depth bits read 7 and its channel count wraps to 0 |
| TypeString.TenChannelsWriteColon | optar/optar/src/noMarker/ardevices_pose_estimator_single_camera_raw/CameraPoseEstimator.cpp:920 | ten channels give "8UC:" because one character past '9' is appended |

## Left out

- Floating point: distances, coordinates, the group mean (a `float` at line 844) and poses are exact reals, so rounding (including the float accumulation of the mean) is not modelled.
- Integer widths: depth values are unbounded naturals, not `uint16_t`. The model only copies them and compares them with zero, so no wrap-around arises.
- The library routines (get3dPoint, the two ring searches, hypot, tf distance, BFMatcher, solvePnPRansac, projectPoints, pose conversions, tf2 transforms, computeAngleFromZAxis, and the reprojection-error loop at lines 407-423) are inputs. The solver's result reaches the gates already reduced to a success flag, an inlier list, the mean reprojection error, the world pose and the angle.
- Assumptions about those routines are stated as predicates: the ring search returns in-image pixels, the matcher's matches index its descriptor lists, and the solver's inliers index its correspondences. These are not proved facts about the library.
- Keypoints, descriptors, camera matrices and the depth image must agree in size (`FrameInputs`). The fixed pixels of the filtered matches must lie inside the depth image (`DepthTargetsInImage`); other fixed keypoints, such as unmatched memory keypoints, may lie anywhere. The model states these as preconditions and does not model what happens when they fail. In the source, `std::vector::at` throws when out of range (lines 594, 806-822, 1104 and 1153-1154). `cv::Mat::at` (lines 598, 1113, 1116 and 1156) only asserts in debug builds, so an out-of-range pixel there is undefined behaviour.
- readReceivedMessages_features, computeOrbFeatures and findOrbMatches: message decoding and ORB extraction are I/O and library code. Their statuses and outputs are FeaturesCallback's inputs.
- ROS publishing, drawMatches, the debug images, the markers and the timing and logging calls are output I/O.
- computeMobileCameraPose and computeReprojectionError are unused (their call site is commented out) and are pure library/float code.
- The minimum and maximum distance loop at lines 777-789 computes values that only the log line at 790 reads.
- The getters (getLastEstimateMatchesNumber, getLastEstimateReprojectionError, getLastPoseEstimate, getARDeviceId, hasEstimate) only return fields. The model's fields are read directly.
- FeaturesMemory internals: the memory is a ghost log of the calls made to it. In the source, removeNonBackgroundFeatures runs before matching (lines 277-281); the model appends that entry after matching, with the same content (the depth image as received), since matching does not read the memory.
- The constructor's ROS arguments (node handle, transform, sensor name, features memory handle) are not modelled, because they only feed publishing and the opaque world transform. The initial values of the estimate fields are set in the header, which is not part of this model; the model starts with no estimate.
- keypointMinDistThreshold is a member the shown code never assigns. The model takes it as a constructor argument.
- Concurrency: none occurs in this code.
- TypeString.ChannelChar: the int-to-char conversion of `chans + '0'` is modelled as the low eight bits of the sum, 0..255. Whether `char` is signed changes only the interpretation, not the byte.
- Estimator.CameraPoseEstimator.Update: the return codes -1 to -4 are not modelled, because the four steps that would produce them always return 0.
