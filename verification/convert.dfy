/**
 * Track-to-route conversion by Ramer-Douglas-Peucker simplification, and
 * the route-to-track copy (rust-core/src/convert.rs).
 *
 * `Simplify` is the specification of the recursive simplification;
 * `RdpSimplify` is the imperative version (a scanning loop, two recursive
 * calls, and a pop-then-extend join) and is proved equal to it. The lemmas
 * state what the simplification promises: short inputs unchanged, both
 * endpoints kept, an order-preserving subsequence, the collapse to the chord
 * exactly when every interior point is within tolerance, and stability
 * when a simplified route is simplified again.
 */
module Convert {
  import opened Gpx

  /**
   * Perpendicular distance in metres of the first point from the line
   * through the other two. The source computes it in a latitude-cosine
   * scaled plane; that numerical body is not modelled, so the operations
   * take the distance as a parameter and rely on nothing about it.
   */
  type ChordDistance = (Point, Point, Point) -> real

  /** A simplification tolerance in metres; the recursion only terminates for non-negative ones. */
  type Tolerance = t: real | 0.0 <= t

  /** Distance of the j-th point of `s` from the chord joining the first and last points. */
  function Offset(s: seq<Point>, dist: ChordDistance, j: nat): real
    requires 2 <= |s| && j < |s|
  {
    dist(s[j], s[0], s[|s| - 1])
  }

  /** The running candidate of the farthest-point scan: `max_dist` and `max_idx`. */
  datatype Farthest = Farthest(maxDist: real, maxIdx: nat)

  /**
   * The scan's candidate after visiting the interior indices 1 .. n-1 in
   * order, starting from (0.0, 0) and replacing the candidate only when a
   * distance is strictly larger.
   */
  function Scan(s: seq<Point>, dist: ChordDistance, n: nat): Farthest
    requires 2 <= |s| && 1 <= n <= |s| - 1
    decreases n
  {
    if n == 1 then Farthest(0.0, 0)
    else
      var c := Scan(s, dist, n - 1);
      var x := Offset(s, dist, n - 1);
      if x > c.maxDist then Farthest(x, n - 1) else c
  }

  /**
   * `c` is the first index among 1 .. n-1 whose offset is maximal, with
   * that offset, when the maximum is positive; otherwise it is (0.0, 0).
   */
  ghost predicate IsFirstMax(s: seq<Point>, dist: ChordDistance, n: nat, c: Farthest)
    requires 2 <= |s| && 1 <= n <= |s| - 1
  {
    (forall j :: 1 <= j < n ==> Offset(s, dist, j) <= c.maxDist) &&
    if c.maxIdx == 0 then c.maxDist == 0.0
    else
      c.maxIdx < n && 0.0 < c.maxDist && c.maxDist == Offset(s, dist, c.maxIdx) &&
      forall j :: 1 <= j < c.maxIdx ==> Offset(s, dist, j) < c.maxDist
  }

  lemma {:induction false} ScanFindsFirstMax(s: seq<Point>, dist: ChordDistance, n: nat)
    requires 2 <= |s| && 1 <= n <= |s| - 1
    ensures IsFirstMax(s, dist, n, Scan(s, dist, n))
    decreases n
  {
    if n > 1 {
      ScanFindsFirstMax(s, dist, n - 1);
    }
  }

  /** The first strict maximum is unique, so it pins down the scan's result. */
  lemma FirstMaxUnique(s: seq<Point>, dist: ChordDistance, n: nat, c1: Farthest, c2: Farthest)
    requires 2 <= |s| && 1 <= n <= |s| - 1
    requires IsFirstMax(s, dist, n, c1) && IsFirstMax(s, dist, n, c2)
    ensures c1 == c2
  {
  }

  /**
   * The farthest-point scan over all interior points of `s`: the index it
   * reports is 0 (no positive distance, `max_dist` still 0.0) or an interior
   * index 1 .. |s|-2 with a positive distance.
   */
  function FarthestOf(s: seq<Point>, dist: ChordDistance): (c: Farthest)
    requires 2 <= |s|
    ensures c.maxIdx == 0 ==> c.maxDist == 0.0
    ensures c.maxIdx != 0 ==> 1 <= c.maxIdx <= |s| - 2 && 0.0 < c.maxDist
  {
    ScanFindsFirstMax(s, dist, |s| - 1);
    Scan(s, dist, |s| - 1)
  }

  /** The scan over all interior points yields their first strict maximum. */
  lemma FarthestIsFirstMax(s: seq<Point>, dist: ChordDistance)
    requires 2 <= |s|
    ensures IsFirstMax(s, dist, |s| - 1, FarthestOf(s, dist))
  {
    ScanFindsFirstMax(s, dist, |s| - 1);
  }

  /**
   * Join two simplified halves that share their junction point, keeping it
   * once: pop the last point of the left half (nothing to pop when it is
   * empty), then extend it with the right half.
   */
  function Join(left: seq<Point>, right: seq<Point>): seq<Point>
  {
    if left == [] then right else left[..|left| - 1] + right
  }

  /** The join loses exactly one copy of the popped junction point and nothing else. */
  lemma JoinDropsOnlyJunction(left: seq<Point>, right: seq<Point>)
    requires left != []
    ensures multiset(Join(left, right)) + multiset{left[|left| - 1]} == multiset(left) + multiset(right)
  {
    assert left == left[..|left| - 1] + [left[|left| - 1]];
  }

  /** Two halves that share their junction point are recovered from their join. */
  lemma JoinSlices(left: seq<Point>, right: seq<Point>)
    requires left != [] && right != [] && left[|left| - 1] == right[0]
    ensures Join(left, right)[..|left|] == left
    ensures Join(left, right)[|left| - 1..] == right
  {
  }

  /**
   * Ramer-Douglas-Peucker simplification of `s` with the given tolerance in
   * metres: split at the farthest interior point when it lies farther than
   * the tolerance and join the simplified halves, dropping the junction
   * point once; otherwise keep only the two endpoints.
   */
  function Simplify(s: seq<Point>, tolerance: Tolerance, dist: ChordDistance): (r: seq<Point>)
    ensures |s| <= 2 ==> r == s
    ensures 2 <= |s| ==> 2 <= |r| <= |s| && r[0] == s[0] && r[|r| - 1] == s[|s| - 1]
    decreases |s|
  {
    if |s| <= 2 then s
    else
      var c := FarthestOf(s, dist);
      if c.maxDist > tolerance then
        Join(Simplify(s[..c.maxIdx + 1], tolerance, dist), Simplify(s[c.maxIdx..], tolerance, dist))
      else
        [s[0], s[|s| - 1]]
  }

  /** One unfolding of `Simplify` on an input that is split. */
  lemma SimplifySplits(s: seq<Point>, tolerance: Tolerance, dist: ChordDistance)
    requires 3 <= |s| && FarthestOf(s, dist).maxDist > tolerance
    ensures 0 < FarthestOf(s, dist).maxIdx < |s| - 1
    ensures Simplify(s, tolerance, dist)
         == var m := FarthestOf(s, dist).maxIdx;
            Join(Simplify(s[..m + 1], tolerance, dist), Simplify(s[m..], tolerance, dist))
  {
  }

  /** One unfolding of `Simplify` on an input that collapses to its endpoints. */
  lemma SimplifyCollapses(s: seq<Point>, tolerance: Tolerance, dist: ChordDistance)
    requires 3 <= |s| && FarthestOf(s, dist).maxDist <= tolerance
    ensures Simplify(s, tolerance, dist) == [s[0], s[|s| - 1]]
  {
  }

  /**
   * The scanning loop: visit the interior points in order and keep the
   * first one strictly farther than every point before it.
   */
  method FindFarthest(points: seq<Point>, dist: ChordDistance) returns (maxDist: real, maxIdx: nat)
    requires 2 <= |points|
    ensures Farthest(maxDist, maxIdx) == FarthestOf(points, dist)
  {
    var first := points[0];
    var last := points[|points| - 1];
    maxDist := 0.0;
    maxIdx := 0;
    for i := 1 to |points| - 1
      invariant Farthest(maxDist, maxIdx) == Scan(points, dist, i)
    {
      var d := dist(points[i], first, last);
      if d > maxDist {
        maxDist := d;
        maxIdx := i;
      }
    }
  }

  /** `left.pop(); left.extend(right)`: drop the last point, if any, then append. */
  method PopExtend(left: seq<Point>, right: seq<Point>) returns (r: seq<Point>)
    ensures r == Join(left, right)
  {
    r := left;
    if r != [] {
      r := r[..|r| - 1];
    }
    r := r + right;
  }

  /** The two recursive results, joined, are the simplification of the whole. */
  lemma SplitJoins(s: seq<Point>, tolerance: Tolerance, dist: ChordDistance, m: nat, left: seq<Point>, right: seq<Point>)
    requires 3 <= |s| && FarthestOf(s, dist).maxDist > tolerance && m == FarthestOf(s, dist).maxIdx
    requires left == Simplify(s[..m + 1], tolerance, dist) && right == Simplify(s[m..], tolerance, dist)
    ensures 2 <= |left| && Simplify(s, tolerance, dist) == Join(left, right)
  {
    SimplifySplits(s, tolerance, dist);
  }

  /**
   * The simplification as the source runs it: a loop that keeps the first
   * strict maximum, then two recursive calls whose results are joined by
   * popping the left half's last point and extending it with the right half.
   */
  method RdpSimplify(points: seq<Point>, tolerance: Tolerance, dist: ChordDistance) returns (r: seq<Point>)
    ensures r == Simplify(points, tolerance, dist)
    decreases |points|
  {
    if |points| <= 2 {
      return points;
    }
    var first := points[0];
    var last := points[|points| - 1];
    var maxDist, maxIdx := FindFarthest(points, dist);
    if maxDist > tolerance {
      var left := RdpSimplify(points[..maxIdx + 1], tolerance, dist);
      var right := RdpSimplify(points[maxIdx..], tolerance, dist);
      SplitJoins(points, tolerance, dist, maxIdx, left, right);
      r := PopExtend(left, right);
    } else {
      SimplifyCollapses(points, tolerance, dist);
      r := [first, last];
    }
  }

  /** `r` is the subsequence of `s` found at the strictly increasing positions `idx`. */
  ghost predicate SubsequenceAt(r: seq<Point>, s: seq<Point>, idx: seq<nat>)
  {
    |idx| == |r| &&
    (forall k {:trigger idx[k]} :: 0 <= k < |idx| ==> idx[k] < |s| && r[k] == s[idx[k]]) &&
    (forall j, k :: 0 <= j < k < |idx| ==> idx[j] < idx[k])
  }

  /**
   * `r` keeps the points of `s` at positions `idx`, in order, and among
   * them the first and the last point of `s`.
   */
  ghost predicate KeepsEnds(r: seq<Point>, s: seq<Point>, idx: seq<nat>)
  {
    SubsequenceAt(r, s, idx) && 2 <= |idx| && idx[0] == 0 && idx[|idx| - 1] == |s| - 1
  }

  /**
   * Joining what is kept of `s[..m+1]` with what is kept of `s[m..]`,
   * dropping the junction point once, keeps the ends of `s`, and the
   * junction sits at position |left|-1.
   */
  lemma JoinKeepsEnds(s: seq<Point>, m: nat, left: seq<Point>, li: seq<nat>, right: seq<Point>, ri: seq<nat>)
    returns (idx: seq<nat>)
    requires 0 < m < |s| - 1
    requires KeepsEnds(left, s[..m + 1], li) && KeepsEnds(right, s[m..], ri)
    ensures KeepsEnds(Join(left, right), s, idx) && idx[|left| - 1] == m
  {
    var p := |left| - 1;
    TakePositions(left, s[..m + 1], li, p);
    WidenPositions(left[..p], s, m + 1, li[..p]);
    var shifted := ShiftPositions(right, s, m, ri);
    assert li[p - 1] < li[p] == m == shifted[0];
    ConcatPositions(left[..p], li[..p], right, shifted, s);
    idx := li[..p] + shifted;
    assert Join(left, right) == left[..p] + right;
    assert idx[p] == m && idx[0] == li[0] && idx[|idx| - 1] == shifted[|ri| - 1];
  }

  /** Positions in a prefix of `s` are positions in `s`. */
  lemma WidenPositions(r: seq<Point>, s: seq<Point>, n: nat, idx: seq<nat>)
    requires n <= |s| && SubsequenceAt(r, s[..n], idx)
    ensures SubsequenceAt(r, s, idx)
  {
  }

  /** Positions in the suffix `s[m..]`, shifted by m, are positions in `s`. */
  lemma ShiftPositions(r: seq<Point>, s: seq<Point>, m: nat, ri: seq<nat>) returns (idx: seq<nat>)
    requires m <= |s| && SubsequenceAt(r, s[m..], ri)
    ensures SubsequenceAt(r, s, idx)
    ensures |idx| == |ri| && forall k :: 0 <= k < |ri| ==> idx[k] == ri[k] + m
  {
    idx := seq(|ri|, k requires 0 <= k < |ri| => ri[k] + m);
  }

  /** A prefix of a subsequence sits at the matching prefix of the positions. */
  lemma TakePositions(r: seq<Point>, s: seq<Point>, idx: seq<nat>, p: nat)
    requires SubsequenceAt(r, s, idx) && p <= |r|
    ensures SubsequenceAt(r[..p], s, idx[..p])
  {
  }

  /** Two subsequences, the first wholly before the second, concatenate. */
  lemma ConcatPositions(a: seq<Point>, ia: seq<nat>, b: seq<Point>, ib: seq<nat>, s: seq<Point>)
    requires SubsequenceAt(a, s, ia) && SubsequenceAt(b, s, ib)
    requires ia != [] && ib != [] ==> ia[|ia| - 1] < ib[0]
    ensures SubsequenceAt(a + b, s, ia + ib)
  {
    ConcatMatches(a, ia, b, ib, s);
    ConcatIncreasing(ia, ib);
  }

  /** Concatenated positions pick out the concatenated points. */
  lemma ConcatMatches(a: seq<Point>, ia: seq<nat>, b: seq<Point>, ib: seq<nat>, s: seq<Point>)
    requires SubsequenceAt(a, s, ia) && SubsequenceAt(b, s, ib)
    ensures |ia + ib| == |a + b|
    ensures forall k {:trigger (ia + ib)[k]} :: 0 <= k < |ia + ib| ==> (ia + ib)[k] < |s| && (a + b)[k] == s[(ia + ib)[k]]
  {
    var idx := ia + ib;
    forall k | 0 <= k < |idx|
      ensures idx[k] < |s| && (a + b)[k] == s[idx[k]]
    {
      if k < |ia| {
        assert idx[k] == ia[k] && (a + b)[k] == a[k];
      } else {
        assert idx[k] == ib[k - |ia|] && (a + b)[k] == b[k - |ia|];
      }
    }
  }

  /** Two strictly increasing position lists, the first wholly before the second, concatenate. */
  lemma ConcatIncreasing(ia: seq<nat>, ib: seq<nat>)
    requires forall j, k :: 0 <= j < k < |ia| ==> ia[j] < ia[k]
    requires forall j, k :: 0 <= j < k < |ib| ==> ib[j] < ib[k]
    requires ia != [] && ib != [] ==> ia[|ia| - 1] < ib[0]
    ensures forall j, k :: 0 <= j < k < |ia + ib| ==> (ia + ib)[j] < (ia + ib)[k]
  {
    var idx := ia + ib;
    forall j, k | 0 <= j < k < |idx|
      ensures idx[j] < idx[k]
    {
      if k < |ia| {
        assert idx[j] == ia[j] && idx[k] == ia[k];
      } else if j < |ia| {
        assert idx[j] == ia[j] <= ia[|ia| - 1];
        assert ib[0] <= ib[k - |ia|];
      } else {
        assert idx[j] == ib[j - |ia|] && idx[k] == ib[k - |ia|];
      }
    }
  }

  /**
   * The simplified points are an order-preserving subsequence of the input
   * that starts at its first point and ends at its last.
   */
  lemma {:induction false} SimplifyKeepsEnds(s: seq<Point>, tolerance: Tolerance, dist: ChordDistance)
    returns (idx: seq<nat>)
    requires 2 <= |s|
    ensures KeepsEnds(Simplify(s, tolerance, dist), s, idx)
    decreases |s|
  {
    if |s| == 2 {
      idx := [0, 1];
    } else if FarthestOf(s, dist).maxDist > tolerance {
      SimplifySplits(s, tolerance, dist);
      var m := FarthestOf(s, dist).maxIdx;
      var left, right := Simplify(s[..m + 1], tolerance, dist), Simplify(s[m..], tolerance, dist);
      var li := SimplifyKeepsEnds(s[..m + 1], tolerance, dist);
      var ri := SimplifyKeepsEnds(s[m..], tolerance, dist);
      idx := JoinKeepsEnds(s, m, left, li, right, ri);
    } else {
      SimplifyCollapses(s, tolerance, dist);
      idx := [0, |s| - 1];
    }
  }


  /**
   * The simplification collapses to the chord [first, last] exactly when no
   * interior point lies farther than the tolerance.
   */
  lemma SimplifyCollapsesIff(s: seq<Point>, tolerance: Tolerance, dist: ChordDistance)
    requires 2 <= |s|
    ensures (forall j :: 0 < j < |s| - 1 ==> Offset(s, dist, j) <= tolerance)
        <==> Simplify(s, tolerance, dist) == [s[0], s[|s| - 1]]
    ensures |Simplify(s, tolerance, dist)| == 2 <==> Simplify(s, tolerance, dist) == [s[0], s[|s| - 1]]
  {
    if 3 <= |s| {
      FarthestIsFirstMax(s, dist);
      if FarthestOf(s, dist).maxDist > tolerance {
        SimplifySplits(s, tolerance, dist);
        var m := FarthestOf(s, dist).maxIdx;
        assert Offset(s, dist, m) > tolerance;
        assert 3 <= |Simplify(s, tolerance, dist)|;
      }
    }
  }

  /**
   * With a negative tolerance and no interior point off the chord, the
   * source's scan keeps max_idx = 0 and still takes the recursive branch,
   * whose right half `points[max_idx..]` is the whole input again: the
   * recursion makes no progress. This is why `Simplify` requires a
   * non-negative tolerance.
   */
  lemma NegativeToleranceStalls(s: seq<Point>, tolerance: real, dist: ChordDistance)
    requires 3 <= |s| && tolerance < 0.0
    requires forall j :: 0 < j < |s| - 1 ==> Offset(s, dist, j) <= 0.0
    ensures FarthestOf(s, dist) == Farthest(0.0, 0)
    ensures FarthestOf(s, dist).maxDist > tolerance
    ensures s[FarthestOf(s, dist).maxIdx..] == s
  {
    FarthestIsFirstMax(s, dist);
  }

  /**
   * An interior point of a subsequence that keeps both ends is an interior
   * point of the original, at the same distance from the same chord.
   */
  lemma KeptOffsets(out: seq<Point>, s: seq<Point>, idx: seq<nat>, dist: ChordDistance)
    requires 2 <= |s| && KeepsEnds(out, s, idx)
    ensures forall j :: 0 < j < |out| - 1 ==> 0 < idx[j] < |s| - 1 && Offset(out, dist, j) == Offset(s, dist, idx[j])
  {
    forall j | 0 < j < |out| - 1
      ensures 0 < idx[j] < |s| - 1 && Offset(out, dist, j) == Offset(s, dist, idx[j])
    {
      assert idx[0] < idx[j] < idx[|idx| - 1];
    }
  }

  /**
   * If the farthest point of `s` survives in a subsequence that keeps both
   * ends, it is also the farthest point of the subsequence.
   */
  lemma KeptFarthest(out: seq<Point>, s: seq<Point>, idx: seq<nat>, dist: ChordDistance, p: nat)
    requires 2 <= |s| && KeepsEnds(out, s, idx)
    requires 0 < p < |out| - 1 && idx[p] == FarthestOf(s, dist).maxIdx
    ensures FarthestOf(out, dist) == Farthest(FarthestOf(s, dist).maxDist, p)
  {
    var c := FarthestOf(s, dist);
    FarthestIsFirstMax(s, dist);
    KeptOffsets(out, s, idx, dist);
    forall j | 0 < j < p
      ensures Offset(out, dist, j) < c.maxDist
    {
      assert idx[j] < idx[p];
    }
    assert IsFirstMax(out, dist, |out| - 1, Farthest(c.maxDist, p));
    FarthestIsFirstMax(out, dist);
    FirstMaxUnique(out, dist, |out| - 1, FarthestOf(out, dist), Farthest(c.maxDist, p));
  }

  /**
   * Simplifying a split result again splits it at the same point, into the
   * two simplified halves.
   */
  lemma ResimplifySplit(s: seq<Point>, tolerance: Tolerance, dist: ChordDistance)
    requires 3 <= |s| && FarthestOf(s, dist).maxDist > tolerance
    ensures var m := FarthestOf(s, dist).maxIdx;
      var left := Simplify(s[..m + 1], tolerance, dist);
      var right := Simplify(s[m..], tolerance, dist);
      Simplify(Join(left, right), tolerance, dist) == Join(Simplify(left, tolerance, dist), Simplify(right, tolerance, dist))
  {
    var m := FarthestOf(s, dist).maxIdx;
    var left := Simplify(s[..m + 1], tolerance, dist);
    var right := Simplify(s[m..], tolerance, dist);
    SplitPointSurvives(s, tolerance, dist);
    SplitHalvesMeet(s, tolerance, dist);
    JoinSlices(left, right);
    SimplifyAtJunction(Join(left, right), left, right, tolerance, dist);
  }

  /**
   * A list whose farthest point, beyond the tolerance, sits where `left`
   * ends and `right` begins simplifies by splitting there into the two
   * halves.
   */
  lemma SimplifyAtJunction(out: seq<Point>, left: seq<Point>, right: seq<Point>, tolerance: Tolerance, dist: ChordDistance)
    requires 3 <= |out| && 2 <= |left| <= |out|
    requires FarthestOf(out, dist).maxIdx == |left| - 1 && FarthestOf(out, dist).maxDist > tolerance
    requires out[..|left|] == left && out[|left| - 1..] == right
    ensures Simplify(out, tolerance, dist) == Join(Simplify(left, tolerance, dist), Simplify(right, tolerance, dist))
  {
    SimplifySplits(out, tolerance, dist);
  }

  /**
   * The split point is still the farthest point of the joined halves, now
   * at the position where the halves meet.
   */
  lemma SplitPointSurvives(s: seq<Point>, tolerance: Tolerance, dist: ChordDistance)
    requires 3 <= |s| && FarthestOf(s, dist).maxDist > tolerance
    ensures var m := FarthestOf(s, dist).maxIdx;
      var left := Simplify(s[..m + 1], tolerance, dist);
      var right := Simplify(s[m..], tolerance, dist);
      3 <= |Join(left, right)| &&
      FarthestOf(Join(left, right), dist) == Farthest(FarthestOf(s, dist).maxDist, |left| - 1)
  {
    var m := FarthestOf(s, dist).maxIdx;
    var left := Simplify(s[..m + 1], tolerance, dist);
    var right := Simplify(s[m..], tolerance, dist);
    var li := SimplifyKeepsEnds(s[..m + 1], tolerance, dist);
    var ri := SimplifyKeepsEnds(s[m..], tolerance, dist);
    JoinedFarthest(s, dist, left, li, right, ri);
  }

  /** The two simplified halves of a split meet at the split point. */
  lemma SplitHalvesMeet(s: seq<Point>, tolerance: Tolerance, dist: ChordDistance)
    requires 3 <= |s| && FarthestOf(s, dist).maxDist > tolerance
    ensures var m := FarthestOf(s, dist).maxIdx;
      var left := Simplify(s[..m + 1], tolerance, dist);
      var right := Simplify(s[m..], tolerance, dist);
      2 <= |left| && 2 <= |right| && left[|left| - 1] == s[m] == right[0]
  {
    var m := FarthestOf(s, dist).maxIdx;
    var sl, sr := s[..m + 1], s[m..];
    assert sl[|sl| - 1] == s[m] == sr[0];
  }

  /**
   * Halves that keep the ends of `s[..m+1]` and `s[m..]`, where m is the
   * farthest point of `s`, join into a list whose farthest point is the
   * junction.
   */
  lemma JoinedFarthest(s: seq<Point>, dist: ChordDistance, left: seq<Point>, li: seq<nat>, right: seq<Point>, ri: seq<nat>)
    requires 3 <= |s| && 0 < FarthestOf(s, dist).maxIdx
    requires KeepsEnds(left, s[..FarthestOf(s, dist).maxIdx + 1], li)
    requires KeepsEnds(right, s[FarthestOf(s, dist).maxIdx..], ri)
    ensures 3 <= |Join(left, right)|
    ensures FarthestOf(Join(left, right), dist) == Farthest(FarthestOf(s, dist).maxDist, |left| - 1)
  {
    var m := FarthestOf(s, dist).maxIdx;
    var idx := JoinKeepsEnds(s, m, left, li, right, ri);
    KeptFarthest(Join(left, right), s, idx, dist, |left| - 1);
  }

  /** Simplifying an already simplified point list changes nothing. */
  lemma {:induction false} SimplifyIdempotent(s: seq<Point>, tolerance: Tolerance, dist: ChordDistance)
    ensures Simplify(Simplify(s, tolerance, dist), tolerance, dist) == Simplify(s, tolerance, dist)
    decreases |s|
  {
    if |s| <= 2 || FarthestOf(s, dist).maxDist <= tolerance {
      return;
    }
    SimplifySplits(s, tolerance, dist);
    ResimplifySplit(s, tolerance, dist);
    var m := FarthestOf(s, dist).maxIdx;
    SimplifyIdempotent(s[..m + 1], tolerance, dist);
    SimplifyIdempotent(s[m..], tolerance, dist);
  }

  /** Convert a track to a route by simplifying its points; the name is kept. */
  function TrackToRoute(track: Track, tolerance: Tolerance, dist: ChordDistance): (route: Route)
    ensures route.name == track.name
    ensures |track.points| <= 2 ==> route.points == track.points
    ensures 2 <= |track.points| ==>
      2 <= |route.points| <= |track.points| &&
      route.points[0] == track.points[0] &&
      route.points[|route.points| - 1] == track.points[|track.points| - 1]
  {
    Route(track.name, Simplify(track.points, tolerance, dist))
  }

  /** Convert a route to a track: a direct copy of the name and the points. */
  function RouteToTrack(route: Route): (track: Track)
    ensures track.name == route.name && track.points == route.points
  {
    Track(route.name, route.points)
  }

  /**
   * A route of at most two waypoints survives the trip to a track and back
   * unchanged, name and points.
   */
  lemma ShortRouteRoundTrip(route: Route, tolerance: Tolerance, dist: ChordDistance)
    requires |route.points| <= 2
    ensures TrackToRoute(RouteToTrack(route), tolerance, dist) == route
  {
  }

  /**
   * A route produced by `TrackToRoute`, copied back to a track and
   * converted again with the same tolerance, is the same route.
   */
  lemma ReconversionIsStable(track: Track, tolerance: Tolerance, dist: ChordDistance)
    ensures TrackToRoute(RouteToTrack(TrackToRoute(track, tolerance, dist)), tolerance, dist)
         == TrackToRoute(track, tolerance, dist)
  {
    SimplifyIdempotent(track.points, tolerance, dist);
  }
}
