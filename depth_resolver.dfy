/**
 * The depth resolver of CameraPoseEstimator::fixMatchesDepthOrDrop: for each
 * match, the depth at its fixed-camera pixel is overwritten with the depth at
 * the pixel a ring search around it returns, and the match is kept when the
 * value just written is nonzero.
 */
module DepthResolver {
  import opened Types
  import opened Sequences

  /** The pixels of an image with `rows` rows and `cols` columns. */
  function Pixels(rows: nat, cols: nat): (ps: set<Pixel>)
    ensures forall p {:trigger p in ps} :: p in ps <==> InBounds(p, rows, cols)
  {
    set y, x | 0 <= y < rows && 0 <= x < cols :: Pixel(x, y)
  }

  /** The contents of a depth image. */
  function Snapshot(img: array2<nat>): (g: Grid)
    reads img
    ensures IsGrid(g, img.Length0, img.Length1)
    ensures forall p {:trigger g[p]} :: InBounds(p, img.Length0, img.Length1) ==> g[p] == img[p.y, p.x]
  {
    map p | p in Pixels(img.Length0, img.Length1) :: img[p.y, p.x]
  }

  /** The fixed pixel a match's depth is read and written at. */
  function TargetOf(m: Match, fixed: seq<KeyPoint>): (p: Pixel)
    requires m.trainIdx < |fixed|
  {
    PixelOf(fixed[m.trainIdx].pt)
  }

  /** Every match indexes a fixed keypoint whose pixel lies inside the image. */
  predicate Targetable(ms: seq<Match>, fixed: seq<KeyPoint>, rows: nat, cols: nat)
  {
    forall k :: 0 <= k < |ms| ==> ms[k].trainIdx < |fixed| && InBounds(TargetOf(ms[k], fixed), rows, cols)
  }

  /** The grid after a repair, and whether the match survives it. */
  datatype Repair = Repair(grid: Grid, keep: bool)

  /**
   * One iteration of :1102-1124. The nearest nonzero pixel is searched from
   * the truncated keypoint position within radius 100; its distance to the
   * keypoint bounds a ring in which the lowest nonzero pixel is searched; the
   * depth there is copied to the keypoint's pixel (no matter what that pixel
   * held before), and the match is kept when the copied depth is nonzero.
   */
  function RepairDepth(g: Grid, rows: nat, cols: nat, pt: Point2, lib: Externals): (r: Repair)
    requires IsGrid(g, rows, cols) && InBounds(PixelOf(pt), rows, cols)
    requires RingSearchInBounds(lib, rows, cols)
    ensures IsGrid(r.grid, rows, cols)
    ensures r.keep <==> r.grid[PixelOf(pt)] != 0
  {
    var q := RingPixel(g, rows, cols, pt, lib);
    var v := g[q];
    Repair(g[PixelOf(pt) := v], v != 0)
  }

  /** The pixel whose depth the repair copies (:1108-1110); the ring search keeps it inside the image. */
  function RingPixel(g: Grid, rows: nat, cols: nat, pt: Point2, lib: Externals): (q: Pixel)
    requires IsGrid(g, rows, cols) && RingSearchInBounds(lib, rows, cols)
    ensures InBounds(q, rows, cols) && q in g
  {
    var x, y := Trunc(pt.x), Trunc(pt.y);
    var nearest := lib.findNearestNonZeroPixel(g, x, y, 100.0);
    var nearestDistance := lib.hypot(nearest.x as real - pt.x, nearest.y as real - pt.y);
    lib.findLowestNonZeroInRing(g, x, y, nearestDistance + 10.0, nearestDistance)
  }

  /**
   * A repair changes the keypoint's own pixel and no other, sets it to a depth
   * the image already held somewhere, and keeps the match exactly when that
   * depth is nonzero.
   */
  lemma RepairDepthEffect(g: Grid, rows: nat, cols: nat, pt: Point2, lib: Externals)
    requires IsGrid(g, rows, cols) && InBounds(PixelOf(pt), rows, cols)
    requires RingSearchInBounds(lib, rows, cols)
    ensures var r := RepairDepth(g, rows, cols, pt, lib);
            var p := PixelOf(pt);
            && (forall o :: InBounds(o, rows, cols) && o != p ==> r.grid[o] == g[o])
            && (exists q :: InBounds(q, rows, cols) && r.grid[p] == g[q])
            && (r.keep <==> r.grid[p] != 0)
  {
    var q := RingPixel(g, rows, cols, pt, lib);
    assert InBounds(q, rows, cols);
  }

  /** The depth image and the keep flags after the loop has run over some matches. */
  datatype Run = Run(grid: Grid, kept: seq<bool>)

  /** The state after the loop of :1100-1125 has run over `ms`. */
  function RepairAll(g: Grid, rows: nat, cols: nat, ms: seq<Match>, fixed: seq<KeyPoint>, lib: Externals): (r: Run)
    requires IsGrid(g, rows, cols) && Targetable(ms, fixed, rows, cols)
    requires RingSearchInBounds(lib, rows, cols)
    ensures IsGrid(r.grid, rows, cols) && |r.kept| == |ms|
    decreases |ms|
  {
    if ms == [] then Run(g, [])
    else
      var before := RepairAll(g, rows, cols, ms[..|ms| - 1], fixed, lib);
      var step := RepairDepth(before.grid, rows, cols, fixed[ms[|ms| - 1].trainIdx].pt, lib);
      Run(step.grid, before.kept + [step.keep])
  }

  /** A pixel that is no match's target keeps its depth. */
  lemma {:induction false} RepairAllTouchesOnlyTargets(g: Grid, rows: nat, cols: nat, ms: seq<Match>,
                                                        fixed: seq<KeyPoint>, lib: Externals, o: Pixel)
    requires IsGrid(g, rows, cols) && Targetable(ms, fixed, rows, cols)
    requires RingSearchInBounds(lib, rows, cols)
    requires InBounds(o, rows, cols)
    requires forall k :: 0 <= k < |ms| ==> TargetOf(ms[k], fixed) != o
    ensures RepairAll(g, rows, cols, ms, fixed, lib).grid[o] == g[o]
    decreases |ms|
  {
    if ms != [] {
      var ms' := ms[..|ms| - 1];
      RepairAllTouchesOnlyTargets(g, rows, cols, ms', fixed, lib, o);
      assert TargetOf(ms[|ms| - 1], fixed) != o;
      RepairDepthEffect(RepairAll(g, rows, cols, ms', fixed, lib).grid, rows, cols, fixed[ms[|ms| - 1].trainIdx].pt, lib);
    }
  }

  /** Running over a longer list first runs over its prefix. */
  lemma {:induction false} RepairAllPrefix(g: Grid, rows: nat, cols: nat, ms: seq<Match>,
                                           fixed: seq<KeyPoint>, lib: Externals, n: nat)
    requires IsGrid(g, rows, cols) && Targetable(ms, fixed, rows, cols)
    requires RingSearchInBounds(lib, rows, cols)
    requires n <= |ms|
    ensures Targetable(ms[..n], fixed, rows, cols)
    ensures RepairAll(g, rows, cols, ms, fixed, lib).kept[..n] == RepairAll(g, rows, cols, ms[..n], fixed, lib).kept
    decreases |ms|
  {
    if n < |ms| {
      var ms' := ms[..|ms| - 1];
      RepairAllPrefix(g, rows, cols, ms', fixed, lib, n);
      assert ms'[..n] == ms[..n];
    } else {
      assert ms[..n] == ms;
    }
  }

  /** One more iteration of the loop is one more repair. */
  lemma RepairAllStep(g: Grid, rows: nat, cols: nat, ms: seq<Match>, fixed: seq<KeyPoint>, lib: Externals, i: nat)
    requires IsGrid(g, rows, cols) && Targetable(ms, fixed, rows, cols)
    requires RingSearchInBounds(lib, rows, cols)
    requires i < |ms|
    ensures Targetable(ms[..i], fixed, rows, cols) && Targetable(ms[..i + 1], fixed, rows, cols)
    ensures InBounds(TargetOf(ms[i], fixed), rows, cols)
    ensures var step := RepairDepth(RepairAll(g, rows, cols, ms[..i], fixed, lib).grid, rows, cols,
                                    fixed[ms[i].trainIdx].pt, lib);
            && RepairAll(g, rows, cols, ms[..i + 1], fixed, lib).grid == step.grid
            && RepairAll(g, rows, cols, ms, fixed, lib).kept[i] == step.keep
  {
    RepairAllPrefix(g, rows, cols, ms, fixed, lib, i + 1);
    RepairAllPrefix(g, rows, cols, ms, fixed, lib, i);
    var prefix := ms[..i + 1];
    assert prefix[..i] == ms[..i] && prefix[i] == ms[i];
    assert RepairAll(g, rows, cols, ms, fixed, lib).kept[i]
        == RepairAll(g, rows, cols, ms, fixed, lib).kept[..i + 1][i];
  }

  /**
   * A match is kept exactly when the depth at its pixel is nonzero right after
   * its own repair, that is after the loop has run over the matches up to and
   * including it.
   */
  lemma KeptIffDepthAfterOwnRepair(g: Grid, rows: nat, cols: nat, ms: seq<Match>,
                                   fixed: seq<KeyPoint>, lib: Externals, k: nat)
    requires IsGrid(g, rows, cols) && Targetable(ms, fixed, rows, cols)
    requires RingSearchInBounds(lib, rows, cols)
    requires k < |ms|
    ensures Targetable(ms[..k + 1], fixed, rows, cols)
    ensures var p := TargetOf(ms[k], fixed);
            (RepairAll(g, rows, cols, ms, fixed, lib).kept[k]
             <==> RepairAll(g, rows, cols, ms[..k + 1], fixed, lib).grid[p] != 0)
  {
    RepairAllStep(g, rows, cols, ms, fixed, lib, k);
    RepairDepthEffect(RepairAll(g, rows, cols, ms[..k], fixed, lib).grid, rows, cols, fixed[ms[k].trainIdx].pt, lib);
  }

  /** Repairs of other pixels after `ms[k]`'s own leave the depth at its pixel alone. */
  lemma {:induction false} LaterRepairsKeepPixel(g: Grid, rows: nat, cols: nat, ms: seq<Match>,
                                                 fixed: seq<KeyPoint>, lib: Externals, k: nat)
    requires IsGrid(g, rows, cols) && Targetable(ms, fixed, rows, cols)
    requires RingSearchInBounds(lib, rows, cols)
    requires k < |ms|
    requires forall j :: k < j < |ms| ==> TargetOf(ms[j], fixed) != TargetOf(ms[k], fixed)
    ensures Targetable(ms[..k + 1], fixed, rows, cols)
    ensures var p := TargetOf(ms[k], fixed);
            RepairAll(g, rows, cols, ms, fixed, lib).grid[p] == RepairAll(g, rows, cols, ms[..k + 1], fixed, lib).grid[p]
    decreases |ms|
  {
    if |ms| == k + 1 {
      assert ms[..k + 1] == ms;
    } else {
      var ms' := ms[..|ms| - 1];
      assert ms'[k] == ms[k] && ms'[..k + 1] == ms[..k + 1];
      LaterRepairsKeepPixel(g, rows, cols, ms', fixed, lib, k);
      assert TargetOf(ms[|ms| - 1], fixed) != TargetOf(ms[k], fixed);
      RepairDepthEffect(RepairAll(g, rows, cols, ms', fixed, lib).grid, rows, cols, fixed[ms[|ms| - 1].trainIdx].pt, lib);
    }
  }

  /**
   * When no later match has the same target pixel, the final depth at a
   * match's pixel decides whether it was kept; a later match with the same
   * pixel may overwrite it, so without that condition the final depth says
   * nothing about earlier matches.
   */
  lemma KeptIffFinalDepthWhenLastWriter(g: Grid, rows: nat, cols: nat, ms: seq<Match>,
                                        fixed: seq<KeyPoint>, lib: Externals, k: nat)
    requires IsGrid(g, rows, cols) && Targetable(ms, fixed, rows, cols)
    requires RingSearchInBounds(lib, rows, cols)
    requires k < |ms|
    requires forall j :: k < j < |ms| ==> TargetOf(ms[j], fixed) != TargetOf(ms[k], fixed)
    ensures var p := TargetOf(ms[k], fixed);
            (RepairAll(g, rows, cols, ms, fixed, lib).kept[k]
             <==> RepairAll(g, rows, cols, ms, fixed, lib).grid[p] != 0)
  {
    KeptIffDepthAfterOwnRepair(g, rows, cols, ms, fixed, lib, k);
    LaterRepairsKeepPixel(g, rows, cols, ms, fixed, lib, k);
  }

  /** The body of the loop in fixMatchesDepthOrDrop for the keypoint at `pt`. */
  method RepairAt(img: array2<nat>, pt: Point2, lib: Externals) returns (keep: bool)
    requires InBounds(PixelOf(pt), img.Length0, img.Length1)
    requires RingSearchInBounds(lib, img.Length0, img.Length1)
    modifies img
    ensures var step := RepairDepth(old(Snapshot(img)), img.Length0, img.Length1, pt, lib);
            Snapshot(img) == step.grid && keep == step.keep
  {
    ghost var before := Snapshot(img);
    var q := RingPixel(Snapshot(img), img.Length0, img.Length1, pt, lib);
    var p := PixelOf(pt);
    img[p.y, p.x] := img[q.y, q.x];
    assert Snapshot(img) == before[p := before[q]];
    keep := img[p.y, p.x] != 0;
  }

  /**
   * fixMatchesDepthOrDrop: repairs the depth at every match's fixed pixel in
   * place and returns, in input order, the matches whose repaired depth is
   * nonzero. It always returns 0.
   */
  method FixMatchesDepthOrDrop(inputMatches: seq<Match>, fixedKeypoints: seq<KeyPoint>,
                               img: array2<nat>, lib: Externals)
    returns (outputMatches: seq<Match>, status: int)
    requires Targetable(inputMatches, fixedKeypoints, img.Length0, img.Length1)
    requires RingSearchInBounds(lib, img.Length0, img.Length1)
    modifies img
    ensures var run := RepairAll(old(Snapshot(img)), img.Length0, img.Length1, inputMatches, fixedKeypoints, lib);
            && Snapshot(img) == run.grid
            && outputMatches == Select(inputMatches, run.kept)
    ensures IsSubseq(outputMatches, inputMatches)
    ensures status == 0
  {
    ghost var g0 := Snapshot(img);
    ghost var rows, cols := img.Length0, img.Length1;
    ghost var kept := RepairAll(g0, rows, cols, inputMatches, fixedKeypoints, lib).kept;
    outputMatches := [];
    var i := 0;
    while i < |inputMatches|
      invariant 0 <= i <= |inputMatches|
      invariant Targetable(inputMatches[..i], fixedKeypoints, rows, cols)
      invariant Snapshot(img) == RepairAll(g0, rows, cols, inputMatches[..i], fixedKeypoints, lib).grid
      invariant outputMatches == Select(inputMatches[..i], kept[..i])
    {
      RepairAllStep(g0, rows, cols, inputMatches, fixedKeypoints, lib, i);
      SelectPrefix(inputMatches, kept, i);
      var keep := RepairAt(img, fixedKeypoints[inputMatches[i].trainIdx].pt, lib);
      if keep {
        outputMatches := outputMatches + [inputMatches[i]];
      }
      i := i + 1;
    }
    assert inputMatches[..|inputMatches|] == inputMatches && kept[..|inputMatches|] == kept;
    SelectIsSubseq(inputMatches, kept);
    status := 0;
  }
}
