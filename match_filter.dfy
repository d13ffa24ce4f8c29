/**
 * The match filter/merger of CameraPoseEstimator::filterMatches: a distance
 * threshold, then an in-place pass that merges or discards groups of matches
 * whose mobile-side keypoints lie within a pixel tolerance of each other.
 */
module MatchFilter {
  import opened Types
  import opened Sequences

  function SquaredDistance(p: Point2, q: Point2): real
  {
    (p.x - q.x) * (p.x - q.x) + (p.y - q.y) * (p.y - q.y)
  }

  /** `cv::norm(p - q) <= tol`, stated without a square root. */
  predicate Within(p: Point2, q: Point2, tol: real)
  {
    0.0 <= tol && SquaredDistance(p, q) <= tol * tol
  }

  /** The index pairs (queryIdx, trainIdx) that occur in a match list. */
  function Pairs(ms: seq<Match>): set<(nat, nat)>
  {
    set m | m in ms :: (m.queryIdx, m.trainIdx)
  }

  lemma PairsIndexed(r: seq<Match>, s: seq<Match>, kps: Keypoints)
    requires Pairs(r) <= Pairs(s) && kps.IndexesAll(s)
    ensures kps.IndexesAll(r)
  {
    forall a | 0 <= a < |r| ensures kps.Indexes(r[a]) {
      assert (r[a].queryIdx, r[a].trainIdx) in Pairs(s);
      var m :| m in s && (m.queryIdx, m.trainIdx) == (r[a].queryIdx, r[a].trainIdx);
      var k :| 0 <= k < |s| && s[k] == m;
      assert kps.Indexes(s[k]);
    }
  }

  // ---------------------------------------------------------------------------
  // Stage 1: the distance threshold (CameraPoseEstimator.cpp:793-800)

  /** The matches whose descriptor distance is at most `maxDistance`, in input order. */
  function Threshold(ms: seq<Match>, maxDistance: real): (r: seq<Match>)
    ensures |r| <= |ms|
    ensures forall k :: 0 <= k < |r| ==> r[k].distance <= maxDistance
    decreases |ms|
  {
    if ms == [] then []
    else Threshold(ms[..|ms| - 1], maxDistance)
         + (if ms[|ms| - 1].distance <= maxDistance then [ms[|ms| - 1]] else [])
  }

  /**
   * The threshold keeps exactly the matches within the distance bound: in the
   * input's order and each with the multiplicity it has in the input.
   */
  lemma {:induction false} ThresholdExact(ms: seq<Match>, maxDistance: real)
    ensures IsSubseq(Threshold(ms, maxDistance), ms)
    ensures forall m :: multiset(Threshold(ms, maxDistance))[m]
                     == if m.distance <= maxDistance then multiset(ms)[m] else 0
    ensures forall m :: m in Threshold(ms, maxDistance) <==> m in ms && m.distance <= maxDistance
    decreases |ms|
  {
    if ms != [] {
      var ms' := ms[..|ms| - 1];
      var x := ms[|ms| - 1];
      var r' := Threshold(ms', maxDistance);
      ThresholdExact(ms', maxDistance);
      assert ms == ms' + [x];
      SubseqSnoc(r', ms', x);
      if x.distance <= maxDistance {
        assert Threshold(ms, maxDistance) == r' + [x];
      } else {
        assert Threshold(ms, maxDistance) == r';
      }
    }
  }

  // ---------------------------------------------------------------------------
  // Stage 2: merging matches with the same origin (CameraPoseEstimator.cpp:804-857)

  /**
   * The positions `k` in `[i, j)` whose mobile keypoint lies within `tol` of
   * the mobile keypoint of `gm[i]`, ascending (matchesWithSameOrigin).
   */
  function SameOrigin(gm: seq<Match>, i: nat, j: nat, kps: Keypoints, tol: real): (g: seq<nat>)
    requires kps.IndexesAll(gm) && i < |gm| && j <= |gm|
    ensures AllBelow(g, j)
    decreases j
  {
    if j <= i then []
    else SameOrigin(gm, i, j - 1, kps, tol)
         + (if Within(kps.Origin(gm[i]), kps.Origin(gm[j - 1]), tol) then [j - 1] else [])
  }

  /** The group lists its positions in ascending order, none before the representative. */
  lemma {:induction false} SameOriginAscending(gm: seq<Match>, i: nat, j: nat, kps: Keypoints, tol: real)
    requires kps.IndexesAll(gm) && i < |gm| && j <= |gm|
    ensures var g := SameOrigin(gm, i, j, kps, tol);
            StrictlyIncreasing(g) && forall k :: 0 <= k < |g| ==> i <= g[k]
    decreases j
  {
    if j > i {
      SameOriginAscending(gm, i, j - 1, kps, tol);
    }
  }

  /** The group holds exactly the positions in `[i, j)` whose origin is within `tol` of the representative's. */
  lemma {:induction false} SameOriginMembers(gm: seq<Match>, i: nat, j: nat, kps: Keypoints, tol: real)
    requires kps.IndexesAll(gm) && i < |gm| && j <= |gm|
    ensures forall k: int :: k in SameOrigin(gm, i, j, kps, tol)
              <==> i <= k < j && Within(kps.Origin(gm[i]), kps.Origin(gm[k]), tol)
    decreases j
  {
    if j > i {
      var g' := SameOrigin(gm, i, j - 1, kps, tol);
      var last := if Within(kps.Origin(gm[i]), kps.Origin(gm[j - 1]), tol) then [j - 1] else [];
      assert SameOrigin(gm, i, j, kps, tol) == g' + last;
      SameOriginMembers(gm, i, j - 1, kps, tol);
      forall k: int ensures k in g' + last <==> k in g' || k in last {
      }
    }
  }

  /** Whenever a group has a member, the representative `i` heads it. */
  lemma RepresentativeLeads(gm: seq<Match>, i: nat, kps: Keypoints, tol: real)
    requires kps.IndexesAll(gm) && i < |gm|
    requires |SameOrigin(gm, i, |gm|, kps, tol)| > 0
    ensures SameOrigin(gm, i, |gm|, kps, tol)[0] == i
  {
    var g := SameOrigin(gm, i, |gm|, kps, tol);
    SameOriginMembers(gm, i, |gm|, kps, tol);
    SameOriginAscending(gm, i, |gm|, kps, tol);
    assert g[0] in g;
    assert 0.0 <= tol;
    var o := kps.Origin(gm[i]);
    assert SquaredDistance(o, o) == 0.0;
    assert 0.0 <= tol * tol;
    assert i in g;
  }

  /** Every member's fixed keypoint lies within `tol` of the representative's (haveSameDestination). */
  predicate SameDestination(gm: seq<Match>, i: nat, g: seq<nat>, kps: Keypoints, tol: real)
    requires kps.IndexesAll(gm) && i < |gm| && AllBelow(g, |gm|)
  {
    forall k :: 0 <= k < |g| ==> Within(kps.Destination(gm[i]), kps.Destination(gm[g[k]]), tol)
  }

  function SumDistances(gm: seq<Match>, g: seq<nat>): real
    requires AllBelow(g, |gm|)
    decreases |g|
  {
    if g == [] then 0.0 else SumDistances(gm, g[..|g| - 1]) + gm[g[|g| - 1]].distance
  }

  /** The mean distance of a group (`distanceSum / numToBeMerged`); a group of one keeps its distance. */
  function MeanDistance(gm: seq<Match>, g: seq<nat>): (mean: real)
    requires AllBelow(g, |gm|) && |g| > 0
    ensures |g| == 1 ==> mean == gm[g[0]].distance
  {
    assert |g| == 1 ==> g[..0] == [] && SumDistances(gm, g) == SumDistances(gm, g[..0]) + gm[g[0]].distance;
    SumDistances(gm, g) / |g| as real
  }

  lemma {:induction false} SumBounded(gm: seq<Match>, g: seq<nat>, bound: real)
    requires AllBelow(g, |gm|)
    requires forall k :: 0 <= k < |g| ==> gm[g[k]].distance <= bound
    ensures SumDistances(gm, g) <= |g| as real * bound
    decreases |g|
  {
    if g != [] {
      SumBounded(gm, g[..|g| - 1], bound);
    }
  }

  /** The merged distance is the mean of the members', so a bound on all members bounds it. */
  lemma MeanBounded(gm: seq<Match>, g: seq<nat>, bound: real)
    requires AllBelow(g, |gm|) && |g| > 0
    requires forall k :: 0 <= k < |g| ==> gm[g[k]].distance <= bound
    ensures MeanDistance(gm, g) <= bound
  {
    SumBounded(gm, g, bound);
    var n := |g| as real;
    assert SumDistances(gm, g) / n <= (n * bound) / n;
  }

  /**
   * One iteration of the merging loop at position `i`: a group of one is left
   * alone; a group whose destinations agree with the representative's keeps the
   * representative, now carrying the mean distance, and erases the other
   * members; any other group is erased entirely.
   */
  function ResolveGroup(gm: seq<Match>, i: nat, kps: Keypoints, tol: real): (r: seq<Match>)
    requires kps.IndexesAll(gm) && i < |gm|
    ensures |r| <= |gm| && Pairs(r) <= Pairs(gm) && kps.IndexesAll(r)
  {
    var g := SameOrigin(gm, i, |gm|, kps, tol);
    if |g| <= 1 then gm
    else if SameDestination(gm, i, g, kps, tol) then
      var merged := gm[i := gm[i].(distance := MeanDistance(gm, g))];
      assert Pairs(merged) <= Pairs(gm) by {
        forall m | m in merged ensures (m.queryIdx, m.trainIdx) in Pairs(gm) {
          var a :| 0 <= a < |merged| && merged[a] == m;
          assert (gm[a].queryIdx, gm[a].trainIdx) == (m.queryIdx, m.trainIdx);
        }
      }
      DropMembers(merged, Positions(g[1..]));
      var r := Drop(merged, Positions(g[1..]));
      PairsIndexed(r, gm, kps);
      r
    else
      DropMembers(gm, Positions(g));
      var r := Drop(gm, Positions(g));
      PairsIndexed(r, gm, kps);
      r
  }

  /** A group of one (or none) leaves the list as it is. */
  lemma ResolveLoneMatch(gm: seq<Match>, i: nat, kps: Keypoints, tol: real)
    requires kps.IndexesAll(gm) && i < |gm|
    requires |SameOrigin(gm, i, |gm|, kps, tol)| <= 1
    ensures ResolveGroup(gm, i, kps, tol) == gm
  {
  }

  /**
   * A contradictory group is erased entirely: what precedes `i` is untouched,
   * the list is shorter by the group's size, and everything from `i` on comes
   * from a position outside the group.
   */
  lemma ResolveContradictoryGroup(gm: seq<Match>, i: nat, kps: Keypoints, tol: real)
    requires kps.IndexesAll(gm) && i < |gm|
    requires var g := SameOrigin(gm, i, |gm|, kps, tol);
             |g| > 1 && !SameDestination(gm, i, g, kps, tol)
    ensures var g := SameOrigin(gm, i, |gm|, kps, tol);
            var r := ResolveGroup(gm, i, kps, tol);
            && |r| == |gm| - |g|
            && i <= |r| && r[..i] == gm[..i]
            && forall b :: i <= b < |r| ==>
                 exists k :: i < k < |gm| && k !in g && r[b] == gm[k]
  {
    var g := SameOrigin(gm, i, |gm|, kps, tol);
    RepresentativeLeads(gm, i, kps, tol);
    SameOriginAscending(gm, i, |gm|, kps, tol);
    DropAllFromHead(gm, g);
    assert forall k :: k in g ==> k in Positions(g);
  }

  /**
   * An agreeing group is merged: the representative stays at `i` with the
   * group's mean distance, what precedes it is untouched, the other members are
   * erased and everything after `i` comes from a position outside the group.
   */
  lemma ResolveAgreeingGroup(gm: seq<Match>, i: nat, kps: Keypoints, tol: real)
    requires kps.IndexesAll(gm) && i < |gm|
    requires var g := SameOrigin(gm, i, |gm|, kps, tol);
             |g| > 1 && SameDestination(gm, i, g, kps, tol)
    ensures var g := SameOrigin(gm, i, |gm|, kps, tol);
            var r := ResolveGroup(gm, i, kps, tol);
            && |r| == |gm| - |g| + 1
            && i < |r| && r[..i] == gm[..i]
            && r[i] == gm[i].(distance := MeanDistance(gm, g))
            && forall b :: i < b < |r| ==>
                 exists k :: i < k < |gm| && k !in g && r[b] == gm[k]
  {
    var g := SameOrigin(gm, i, |gm|, kps, tol);
    var mean := MeanDistance(gm, g);
    assert ResolveGroup(gm, i, kps, tol) == Drop(gm[i := gm[i].(distance := mean)], Positions(g[1..]));
    RepresentativeLeads(gm, i, kps, tol);
    SameOriginAscending(gm, i, |gm|, kps, tol);
    assert g[0] == i;
    MergedShape(gm, g, mean);
  }

  /** The list shape after rewriting the head of `g` and dropping the rest of `g`. */
  lemma MergedShape(gm: seq<Match>, g: seq<nat>, mean: real)
    requires StrictlyIncreasing(g) && AllBelow(g, |gm|) && |g| > 0
    ensures var i := g[0];
            var r := Drop(gm[i := gm[i].(distance := mean)], Positions(g[1..]));
            && |r| == |gm| - |g| + 1
            && i < |r| && r[..i] == gm[..i]
            && r[i] == gm[i].(distance := mean)
            && forall b :: i < b < |r| ==>
                 exists k :: i < k < |gm| && k !in g && r[b] == gm[k]
  {
    var i := g[0];
    var merged := gm[i := gm[i].(distance := mean)];
    var r := Drop(merged, Positions(g[1..]));
    DropAllButHead(merged, g);
    assert r[..i] == gm[..i] by {
      assert r[..i] == r[..i + 1][..i] && gm[..i] == merged[..i + 1][..i];
    }
    assert r[i] == r[..i + 1][i];
    forall b | i < b < |r| ensures exists k :: i < k < |gm| && k !in g && r[b] == gm[k] {
      var k :| i < k < |merged| && k !in Positions(g) && r[b] == merged[k];
    }
  }

  /**
   * The merging loop from position `i` on. After an iteration the loop moves
   * to `i + 1` whatever happened, so when a contradictory group was erased the
   * match shifted into slot `i` is never taken as a representative.
   */
  function MergeFrom(gm: seq<Match>, i: nat, kps: Keypoints, tol: real): (r: seq<Match>)
    requires kps.IndexesAll(gm)
    ensures |r| <= |gm| && Pairs(r) <= Pairs(gm)
    decreases |gm| - i
  {
    if i >= |gm| then gm
    else MergeFrom(ResolveGroup(gm, i, kps, tol), i + 1, kps, tol)
  }

  /** One group resolution keeps a bound on every distance. */
  lemma ResolveKeepsDistanceBound(gm: seq<Match>, i: nat, kps: Keypoints, tol: real, bound: real)
    requires kps.IndexesAll(gm) && i < |gm|
    requires forall k :: 0 <= k < |gm| ==> gm[k].distance <= bound
    ensures forall k :: 0 <= k < |ResolveGroup(gm, i, kps, tol)| ==> ResolveGroup(gm, i, kps, tol)[k].distance <= bound
  {
    var g := SameOrigin(gm, i, |gm|, kps, tol);
    var r := ResolveGroup(gm, i, kps, tol);
    if |g| > 1 {
      if SameDestination(gm, i, g, kps, tol) {
        var merged := gm[i := gm[i].(distance := MeanDistance(gm, g))];
        MeanBounded(gm, g, bound);
        assert forall k :: 0 <= k < |merged| ==> merged[k].distance <= bound;
        DropMembers(merged, Positions(g[1..]));
        assert r == Drop(merged, Positions(g[1..]));
      } else {
        DropMembers(gm, Positions(g));
        assert r == Drop(gm, Positions(g));
      }
      forall k | 0 <= k < |r| ensures r[k].distance <= bound {
        assert r[k] in r;
      }
    }
  }

  /** Merging only ever writes group means, so a bound on every distance survives it. */
  lemma {:induction false} MergeKeepsDistanceBound(gm: seq<Match>, i: nat, kps: Keypoints, tol: real, bound: real)
    requires kps.IndexesAll(gm)
    requires forall k :: 0 <= k < |gm| ==> gm[k].distance <= bound
    ensures forall k :: 0 <= k < |MergeFrom(gm, i, kps, tol)| ==> MergeFrom(gm, i, kps, tol)[k].distance <= bound
    decreases |gm| - i
  {
    if i < |gm| {
      ResolveKeepsDistanceBound(gm, i, kps, tol, bound);
      MergeKeepsDistanceBound(ResolveGroup(gm, i, kps, tol), i + 1, kps, tol, bound);
    }
  }

  /** The list filterMatches leaves in goodMatches: the old contents, then the thresholded matches, merged. */
  function FilteredMatches(matches: seq<Match>, prior: seq<Match>, kps: Keypoints,
                           matchingThreshold: real, tol: real): (r: seq<Match>)
    requires kps.IndexesAll(matches) && kps.IndexesAll(prior)
    ensures |r| <= |prior| + |matches| && Pairs(r) <= Pairs(prior + Threshold(matches, matchingThreshold))
  {
    var thresholded := prior + Threshold(matches, matchingThreshold);
    ThresholdedIndexed(matches, prior, kps, matchingThreshold);
    MergeFrom(thresholded, 0, kps, tol)
  }

  /** The matches kept by the threshold index the keypoints the input indexes. */
  lemma ThresholdedIndexed(matches: seq<Match>, prior: seq<Match>, kps: Keypoints, matchingThreshold: real)
    requires kps.IndexesAll(matches) && kps.IndexesAll(prior)
    ensures kps.IndexesAll(prior + Threshold(matches, matchingThreshold))
  {
    var thresholded := prior + Threshold(matches, matchingThreshold);
    ThresholdExact(matches, matchingThreshold);
    forall k | 0 <= k < |thresholded| ensures kps.Indexes(thresholded[k]) {
      if k >= |prior| {
        var m := thresholded[k];
        assert m in Threshold(matches, matchingThreshold);
        assert m in matches;
      }
    }
  }

  /** Every match filterMatches outputs indexes the same keypoints as its inputs. */
  lemma FilteredMatchesIndexed(matches: seq<Match>, prior: seq<Match>, kps: Keypoints,
                               matchingThreshold: real, tol: real)
    requires kps.IndexesAll(matches) && kps.IndexesAll(prior)
    ensures kps.IndexesAll(FilteredMatches(matches, prior, kps, matchingThreshold, tol))
  {
    ThresholdedIndexed(matches, prior, kps, matchingThreshold);
    PairsIndexed(FilteredMatches(matches, prior, kps, matchingThreshold, tol),
                 prior + Threshold(matches, matchingThreshold), kps);
  }

  /**
   * filterMatches never grows the list, never invents an index pair (each
   * output's pair is that of a thresholded input) and, when the matches
   * already in the list are within matchingThreshold (in particular when it
   * starts empty), so is every output's distance.
   */
  lemma FilteredMatchesProperties(matches: seq<Match>, prior: seq<Match>, kps: Keypoints,
                                  matchingThreshold: real, tol: real)
    requires kps.IndexesAll(matches) && kps.IndexesAll(prior)
    ensures var r := FilteredMatches(matches, prior, kps, matchingThreshold, tol);
            && |r| <= |prior| + |matches|
            && Pairs(r) <= Pairs(prior + Threshold(matches, matchingThreshold))
            && ((forall k :: 0 <= k < |prior| ==> prior[k].distance <= matchingThreshold) ==>
                  forall k :: 0 <= k < |r| ==> r[k].distance <= matchingThreshold)
  {
    var thresholded := prior + Threshold(matches, matchingThreshold);
    ThresholdExact(matches, matchingThreshold);
    SubseqMembers(Threshold(matches, matchingThreshold), matches);
    if forall k :: 0 <= k < |prior| ==> prior[k].distance <= matchingThreshold {
      assert forall k :: 0 <= k < |thresholded| ==> thresholded[k].distance <= matchingThreshold by {
        forall k | 0 <= k < |thresholded| ensures thresholded[k].distance <= matchingThreshold {
          if k >= |prior| {
            assert thresholded[k] == Threshold(matches, matchingThreshold)[k - |prior|];
          }
        }
      }
      MergeKeepsDistanceBound(thresholded, 0, kps, tol, matchingThreshold);
    }
  }

  // ---------------------------------------------------------------------------
  // The loops of filterMatches

  /** The inner loop of :808-813 collecting the positions with the same origin. */
  method GatherSameOrigin(gm: seq<Match>, i: nat, kps: Keypoints, tol: real) returns (group: seq<nat>)
    requires kps.IndexesAll(gm) && i < |gm|
    ensures group == SameOrigin(gm, i, |gm|, kps, tol)
  {
    var origin := kps.Origin(gm[i]);
    group := [];
    var j := i;
    while j < |gm|
      invariant i <= j <= |gm|
      invariant group == SameOrigin(gm, i, j, kps, tol)
    {
      if Within(origin, kps.Origin(gm[j]), tol) {
        group := group + [j];
      }
      j := j + 1;
    }
  }

  /** The loop of :817-828 that stops at the first member far from the representative's destination. */
  method HaveSameDestination(gm: seq<Match>, i: nat, group: seq<nat>, kps: Keypoints, tol: real)
    returns (same: bool)
    requires kps.IndexesAll(gm) && i < |gm| && AllBelow(group, |gm|)
    ensures same == SameDestination(gm, i, group, kps, tol)
  {
    same := true;
    var destination := kps.Destination(gm[i]);
    var k := 0;
    while k < |group|
      invariant 0 <= k <= |group|
      invariant forall l :: 0 <= l < k ==> Within(destination, kps.Destination(gm[group[l]]), tol)
    {
      if !Within(destination, kps.Destination(gm[group[k]]), tol) {
        same := false;
        break;
      }
      k := k + 1;
    }
  }

  /** The loop of :844-847 averaging the group's distances. */
  method AverageDistance(gm: seq<Match>, group: seq<nat>) returns (average: real)
    requires AllBelow(group, |gm|) && |group| > 0
    ensures average == MeanDistance(gm, group)
  {
    var sum := 0.0;
    var k := 0;
    while k < |group|
      invariant 0 <= k <= |group|
      invariant sum == SumDistances(gm, group[..k])
    {
      assert group[..k + 1][..k] == group[..k];
      sum := sum + gm[group[k]].distance;
      k := k + 1;
    }
    assert group[..|group|] == group;
    average := sum / |group| as real;
  }

  /**
   * The erase loops of :835-839 and :850-856: erasing the ascending positions
   * one by one, each shifted down by the number already erased.
   */
  method EraseAll(gm: seq<Match>, positions: seq<nat>) returns (r: seq<Match>)
    requires StrictlyIncreasing(positions) && AllBelow(positions, |gm|)
    ensures r == Drop(gm, Positions(positions))
  {
    r := gm;
    DropNothing(gm, Positions(positions[..0]));
    var erased := 0;
    while erased < |positions|
      invariant 0 <= erased <= |positions|
      invariant r == Drop(gm, Positions(positions[..erased]))
    {
      EraseStep(gm, positions, erased);
      var at := positions[erased] - erased;
      r := r[..at] + r[at + 1..];
      erased := erased + 1;
    }
    assert positions[..|positions|] == positions;
  }

  /** The loop of :793-800: appends every match within the threshold to goodMatches. */
  method AppendWithinThreshold(matches: seq<Match>, goodMatchesIn: seq<Match>, matchingThreshold: real)
    returns (goodMatches: seq<Match>)
    ensures goodMatches == goodMatchesIn + Threshold(matches, matchingThreshold)
  {
    goodMatches := goodMatchesIn;
    var n := 0;
    while n < |matches|
      invariant 0 <= n <= |matches|
      invariant goodMatches == goodMatchesIn + Threshold(matches[..n], matchingThreshold)
    {
      assert matches[..n + 1][..n] == matches[..n];
      if matches[n].distance <= matchingThreshold {
        goodMatches := goodMatches + [matches[n]];
      }
      n := n + 1;
    }
    assert matches[..|matches|] == matches;
  }

  /** One iteration of the loop of :804-857, at representative position `i`. */
  method ResolveGroupAt(gm: seq<Match>, i: nat, kps: Keypoints, tol: real) returns (r: seq<Match>)
    requires kps.IndexesAll(gm) && i < |gm|
    ensures r == ResolveGroup(gm, i, kps, tol)
  {
    var group := GatherSameOrigin(gm, i, kps, tol);
    SameOriginAscending(gm, i, |gm|, kps, tol);
    if |group| <= 1 {
      return gm;
    }
    var same := HaveSameDestination(gm, i, group, kps, tol);
    if !same {
      r := EraseAll(gm, group);
    } else {
      var average := AverageDistance(gm, group);
      r := gm[i := gm[i].(distance := average)];
      r := EraseAll(r, group[1..]);
    }
  }

  /**
   * filterMatches: appends the matches within matchingThreshold to
   * goodMatches (which it does not clear), then merges or erases the groups
   * of matches with the same origin. It always returns 0.
   */
  method FilterMatches(matches: seq<Match>, goodMatchesIn: seq<Match>, kps: Keypoints,
                       matchingThreshold: real, keypointMinDistThreshold: real)
    returns (goodMatches: seq<Match>, status: int)
    requires kps.IndexesAll(matches) && kps.IndexesAll(goodMatchesIn)
    ensures status == 0
    ensures goodMatches == FilteredMatches(matches, goodMatchesIn, kps, matchingThreshold, keypointMinDistThreshold)
  {
    goodMatches := AppendWithinThreshold(matches, goodMatchesIn, matchingThreshold);
    ghost var thresholded := goodMatches;
    ThresholdedIndexed(matches, goodMatchesIn, kps, matchingThreshold);
    var i := 0;
    while i < |goodMatches|
      invariant kps.IndexesAll(goodMatches)
      invariant MergeFrom(goodMatches, i, kps, keypointMinDistThreshold)
             == MergeFrom(thresholded, 0, kps, keypointMinDistThreshold)
      decreases |goodMatches| - i
    {
      goodMatches := ResolveGroupAt(goodMatches, i, kps, keypointMinDistThreshold);
      i := i + 1;
    }
    status := 0;
  }

  // ---------------------------------------------------------------------------
  // Two behaviours of the merging loop

  lemma WithinSelf(p: Point2, tol: real)
    requires 0.0 <= tol
    ensures Within(p, p, tol)
  {
    assert SquaredDistance(p, p) == 0.0;
    assert 0.0 <= tol * tol;
  }

  lemma DropFirstTwo<T>(a: T, b: T, y: T, z: T)
    ensures Drop([a, b, y, z], Positions([0, 1])) == [y, z]
  {
    var d := {0, 1};
    PositionsOfPair([0, 1]);
    assert [] + [a] == [a] && [a] + [b] == [a, b] && [a, b] + [y] == [a, b, y] && [a, b, y] + [z] == [a, b, y, z];
    DropSnoc([], a, d);
    DropSnoc([a], b, d);
    DropSnoc([a, b], y, d);
    DropSnoc([a, b, y], z, d);
  }

  lemma DropBothOfTwo<T>(y: T, z: T)
    ensures Drop([y, z], Positions([0, 1])) == []
  {
    var d := {0, 1};
    PositionsOfPair([0, 1]);
    assert [] + [y] == [y] && [y] + [z] == [y, z];
    DropSnoc([], y, d);
    DropSnoc([y], z, d);
  }

  lemma DropLastTwo<T>(a: T, b: T, c: T)
    ensures Drop([a, b, c], Positions([1, 2])) == [a]
  {
    var d := {1, 2};
    PositionsOfPair([1, 2]);
    assert [] + [a] == [a] && [a] + [b] == [a, b] && [a, b] + [c] == [a, b, c];
    DropSnoc([], a, d);
    DropSnoc([a], b, d);
    DropSnoc([a, b], c, d);
  }

  lemma {:induction false} ThresholdKeepsAll(ms: seq<Match>, maxDistance: real)
    requires forall k :: 0 <= k < |ms| ==> ms[k].distance <= maxDistance
    ensures Threshold(ms, maxDistance) == ms
    decreases |ms|
  {
    if ms != [] {
      ThresholdKeepsAll(ms[..|ms| - 1], maxDistance);
      assert ms == ms[..|ms| - 1] + [ms[|ms| - 1]];
    }
  }

  /** A pair with the same origin and contradictory destinations is erased when it heads the list. */
  lemma ContradictoryPairErased(kps: Keypoints, y: Match, z: Match, tol: real)
    requires kps.Indexes(y) && kps.Indexes(z)
    requires Within(kps.Origin(y), kps.Origin(z), tol)
    requires !Within(kps.Destination(y), kps.Destination(z), tol)
    ensures MergeFrom([y, z], 0, kps, tol) == []
  {
    var r := [y, z];
    WithinSelf(kps.Origin(y), tol);
    assert kps.IndexesAll(r) by {
      forall k | 0 <= k < 2 ensures kps.Indexes(r[k]) {
        if k == 0 {} else {}
      }
    }
    assert SameOrigin(r, 0, 1, kps, tol) == [0];
    assert SameOrigin(r, 0, 2, kps, tol) == [0, 1];
    assert !SameDestination(r, 0, [0, 1], kps, tol) by {
      assert !Within(kps.Destination(r[0]), kps.Destination(r[[0, 1][1]]), tol);
    }
    DropBothOfTwo(y, z);
    assert ResolveGroup(r, 0, kps, tol) == [];
  }

  /**
   * The slot-skipping of :835-839 with :804: when the group {0, 1} is
   * erased, the match shifted into slot 0 is never taken as a representative,
   * so a further pair with the same origin and contradictory destinations
   * survives; filtering the result again erases it.
   */
  lemma SkippedSlotKeepsContradictoryPair(kps: Keypoints, a: Match, b: Match, y: Match, z: Match,
                                          matchingThreshold: real, tol: real)
    requires kps.Indexes(a) && kps.Indexes(b) && kps.Indexes(y) && kps.Indexes(z)
    requires a.distance <= matchingThreshold && b.distance <= matchingThreshold
    requires y.distance <= matchingThreshold && z.distance <= matchingThreshold
    requires Within(kps.Origin(a), kps.Origin(b), tol) && !Within(kps.Destination(a), kps.Destination(b), tol)
    requires !Within(kps.Origin(a), kps.Origin(y), tol) && !Within(kps.Origin(a), kps.Origin(z), tol)
    requires Within(kps.Origin(y), kps.Origin(z), tol) && !Within(kps.Destination(y), kps.Destination(z), tol)
    ensures FilteredMatches([a, b, y, z], [], kps, matchingThreshold, tol) == [y, z]
    ensures FilteredMatches([y, z], [], kps, matchingThreshold, tol) == []
  {
    var ms, r := [a, b, y, z], [y, z];
    assert kps.IndexesAll(ms) by {
      forall k | 0 <= k < 4 ensures kps.Indexes(ms[k]) {
        if k == 0 {} else if k == 1 {} else if k == 2 {} else {}
      }
    }
    assert kps.IndexesAll(r) by {
      forall k | 0 <= k < 2 ensures kps.Indexes(r[k]) {
        if k == 0 {} else {}
      }
    }
    assert FilteredMatches(ms, [], kps, matchingThreshold, tol) == MergeFrom(ms, 0, kps, tol) by {
      ThresholdKeepsAll(ms, matchingThreshold);
      assert [] + ms == ms;
    }
    assert FilteredMatches(r, [], kps, matchingThreshold, tol) == MergeFrom(r, 0, kps, tol) by {
      ThresholdKeepsAll(r, matchingThreshold);
      assert [] + r == r;
    }
    assert MergeFrom(ms, 0, kps, tol) == r by {
      LeadingPairErased(kps, a, b, y, z, tol);
      LoneSecond(kps, y, z, tol);
    }
    ContradictoryPairErased(kps, y, z, tol);
  }

  lemma LeadingPairErased(kps: Keypoints, a: Match, b: Match, y: Match, z: Match, tol: real)
    requires kps.Indexes(a) && kps.Indexes(b) && kps.Indexes(y) && kps.Indexes(z)
    requires Within(kps.Origin(a), kps.Origin(b), tol) && !Within(kps.Destination(a), kps.Destination(b), tol)
    requires !Within(kps.Origin(a), kps.Origin(y), tol) && !Within(kps.Origin(a), kps.Origin(z), tol)
    ensures ResolveGroup([a, b, y, z], 0, kps, tol) == [y, z]
  {
    var ms := [a, b, y, z];
    WithinSelf(kps.Origin(a), tol);
    assert kps.IndexesAll(ms) by {
      forall k | 0 <= k < 4 ensures kps.Indexes(ms[k]) {
        if k == 0 {} else if k == 1 {} else if k == 2 {} else {}
      }
    }
    assert SameOrigin(ms, 0, 1, kps, tol) == [0];
    assert SameOrigin(ms, 0, 2, kps, tol) == [0, 1];
    assert SameOrigin(ms, 0, 3, kps, tol) == [0, 1];
    assert SameOrigin(ms, 0, 4, kps, tol) == [0, 1];
    assert !SameDestination(ms, 0, [0, 1], kps, tol) by {
      assert !Within(kps.Destination(ms[0]), kps.Destination(ms[[0, 1][1]]), tol);
    }
    DropFirstTwo(a, b, y, z);
  }

  lemma LoneSecond(kps: Keypoints, y: Match, z: Match, tol: real)
    requires kps.Indexes(y) && kps.Indexes(z)
    ensures MergeFrom([y, z], 1, kps, tol) == [y, z]
  {
    var r := [y, z];
    assert kps.IndexesAll(r) by {
      forall k | 0 <= k < 2 ensures kps.Indexes(r[k]) {
        if k == 0 {} else {}
      }
    }
    assert |SameOrigin(r, 1, 2, kps, tol)| <= 1 by {
      assert |SameOrigin(r, 1, 1, kps, tol)| == 0;
    }
    assert ResolveGroup(r, 1, kps, tol) == r;
    assert MergeFrom(r, 2, kps, tol) == r;
  }

  /**
   * The destination test of :818-828 compares each member with the
   * representative only: three matches with one origin whose destinations
   * are each within `tol` of the first's are merged into one carrying the mean
   * distance, however far apart the second and third destinations are (see
   * RepresentativeTestIsNotTransitive).
   */
  lemma DestinationTestIsAgainstRepresentativeOnly(kps: Keypoints, a: Match, b: Match, c: Match,
                                                   matchingThreshold: real, tol: real)
    requires kps.Indexes(a) && kps.Indexes(b) && kps.Indexes(c)
    requires a.distance <= matchingThreshold && b.distance <= matchingThreshold && c.distance <= matchingThreshold
    requires Within(kps.Origin(a), kps.Origin(b), tol) && Within(kps.Origin(a), kps.Origin(c), tol)
    requires Within(kps.Destination(a), kps.Destination(b), tol) && Within(kps.Destination(a), kps.Destination(c), tol)
    ensures FilteredMatches([a, b, c], [], kps, matchingThreshold, tol)
         == [a.(distance := (a.distance + b.distance + c.distance) / 3.0)]
  {
    var ms := [a, b, c];
    var m := a.(distance := (a.distance + b.distance + c.distance) / 3.0);
    assert kps.IndexesAll(ms) by {
      forall k | 0 <= k < 3 ensures kps.Indexes(ms[k]) {
        if k == 0 {} else if k == 1 {} else {}
      }
    }
    ThresholdKeepsAll(ms, matchingThreshold);
    assert [] + ms == ms;
    AgreeingTripleMerged(kps, a, b, c, tol);
    assert MergeFrom(ms, 0, kps, tol) == MergeFrom([m], 1, kps, tol);
  }

  lemma AgreeingTripleMerged(kps: Keypoints, a: Match, b: Match, c: Match, tol: real)
    requires kps.Indexes(a) && kps.Indexes(b) && kps.Indexes(c)
    requires Within(kps.Origin(a), kps.Origin(b), tol) && Within(kps.Origin(a), kps.Origin(c), tol)
    requires Within(kps.Destination(a), kps.Destination(b), tol) && Within(kps.Destination(a), kps.Destination(c), tol)
    ensures ResolveGroup([a, b, c], 0, kps, tol) == [a.(distance := (a.distance + b.distance + c.distance) / 3.0)]
  {
    var ms := [a, b, c];
    var g := [0, 1, 2];
    var m := a.(distance := (a.distance + b.distance + c.distance) / 3.0);
    TripleIndexed(kps, a, b, c);
    TripleGroup(kps, a, b, c, tol);
    TripleMean(a, b, c);
    assert ResolveGroup(ms, 0, kps, tol) == Drop(ms[0 := m], Positions(g[1..]));
    assert g[1..] == [1, 2] && ms[0 := m] == [m, b, c];
    DropLastTwo(m, b, c);
  }

  lemma TripleMean(a: Match, b: Match, c: Match)
    ensures MeanDistance([a, b, c], [0, 1, 2]) == (a.distance + b.distance + c.distance) / 3.0
  {
    var g := [0, 1, 2];
    assert g[..2] == [0, 1] && [0, 1][..1] == [0] && [0][..0] == [];
    assert SumDistances([a, b, c], g) == a.distance + b.distance + c.distance;
  }

  lemma TripleIndexed(kps: Keypoints, a: Match, b: Match, c: Match)
    requires kps.Indexes(a) && kps.Indexes(b) && kps.Indexes(c)
    ensures kps.IndexesAll([a, b, c])
  {
    var ms := [a, b, c];
    forall k | 0 <= k < 3 ensures kps.Indexes(ms[k]) {
      if k == 0 {} else if k == 1 {} else {}
    }
  }

  lemma TripleGroup(kps: Keypoints, a: Match, b: Match, c: Match, tol: real)
    requires kps.Indexes(a) && kps.Indexes(b) && kps.Indexes(c) && kps.IndexesAll([a, b, c])
    requires Within(kps.Origin(a), kps.Origin(b), tol) && Within(kps.Origin(a), kps.Origin(c), tol)
    requires Within(kps.Destination(a), kps.Destination(b), tol) && Within(kps.Destination(a), kps.Destination(c), tol)
    ensures SameOrigin([a, b, c], 0, 3, kps, tol) == [0, 1, 2]
    ensures SameDestination([a, b, c], 0, [0, 1, 2], kps, tol)
  {
    var ms := [a, b, c];
    WithinSelf(kps.Origin(a), tol);
    WithinSelf(kps.Destination(a), tol);
    assert SameOrigin(ms, 0, 1, kps, tol) == [0];
    assert SameOrigin(ms, 0, 2, kps, tol) == [0, 1];
  }

  /** Closeness to a common representative is not closeness to each other. */
  lemma RepresentativeTestIsNotTransitive()
    ensures Within(Point2(0.0, 0.0), Point2(1.0, 0.0), 1.0)
    ensures Within(Point2(0.0, 0.0), Point2(-1.0, 0.0), 1.0)
    ensures !Within(Point2(1.0, 0.0), Point2(-1.0, 0.0), 1.0)
  {
  }
}
