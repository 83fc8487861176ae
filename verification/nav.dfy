/**
 * Navigation computations on a track (rust-core/src/nav.rs): the length of
 * a track as the sum over its consecutive point pairs, the clamp-and-
 * interpolate projection of a position onto one segment, and the scan over
 * all segments that keeps the nearest projection and the distance along the
 * track to it.
 *
 * The great-circle distance and the cosine of the mean latitude are
 * floating-point numerics; they are parameters here and the proofs rely on
 * nothing about them except, where stated, that distances are non-negative.
 */
module Nav {
  import opened Wrappers
  import opened Gpx

  /** A distance in metres between two points (the haversine formula in the source). */
  type Metric = (Point, Point) -> real

  /** Cosine of an angle given in degrees (`to_radians().cos()` in the source). */
  type CosineDeg = real -> real

  ghost predicate NonNegative(h: Metric)
  {
    forall p, q :: 0.0 <= h(p, q)
  }

  /** Result of projecting a position onto a track. */
  datatype ProjectionResult = ProjectionResult(
    point: Point,          // nearest point on the track
    segmentIndex: nat,     // index of the start point of the nearest segment
    distanceM: real,       // distance from the position to `point`
    distanceAlongM: real)  // distance along the track from its start to `point`

  // ---------------------------------------------------------------------
  // Track length
  // ---------------------------------------------------------------------

  /**
   * Sum of the distances between consecutive points: 0 for fewer than two
   * points, never negative when no distance is.
   */
  function TrackLength(points: seq<Point>, h: Metric): (length: real)
    ensures |points| < 2 ==> length == 0.0
    ensures |points| == 2 ==> length == h(points[0], points[1])
    ensures NonNegative(h) ==> 0.0 <= length
    decreases |points|
  {
    if |points| < 2 then 0.0
    else TrackLength(points[..|points| - 1], h) + h(points[|points| - 2], points[|points| - 1])
  }

  /** The windowed sum counted from the front: the first pair, then the rest. */
  function WindowSum(points: seq<Point>, h: Metric): real
    decreases |points|
  {
    if |points| < 2 then 0.0 else h(points[0], points[1]) + WindowSum(points[1..], h)
  }

  /** Counting the pairs from the back or from the front gives the same sum. */
  lemma {:induction false} TrackLengthIsWindowSum(points: seq<Point>, h: Metric)
    ensures TrackLength(points, h) == WindowSum(points, h)
    ensures |points| < 2 ==> TrackLength(points, h) == 0.0
    decreases |points|
  {
    if 3 <= |points| {
      var n := |points|;
      calc {
        TrackLength(points, h);
        TrackLength(points[..n - 1], h) + h(points[n - 2], points[n - 1]);
        { TrackLengthIsWindowSum(points[..n - 1], h); }
        WindowSum(points[..n - 1], h) + h(points[n - 2], points[n - 1]);
        { assert points[..n - 1][1..] == points[1..][..n - 2]; }
        h(points[0], points[1]) + WindowSum(points[1..][..n - 2], h) + h(points[n - 2], points[n - 1]);
        { TrackLengthIsWindowSum(points[1..][..n - 2], h); }
        h(points[0], points[1]) + TrackLength(points[1..][..n - 2], h) + h(points[1..][n - 3], points[1..][n - 2]);
        h(points[0], points[1]) + TrackLength(points[1..], h);
        { TrackLengthIsWindowSum(points[1..], h); }
        WindowSum(points, h);
      }
    }
  }

  /**
   * The length is additive at any shared index k: the part up to and
   * including point k plus the part from point k on is the whole.
   */
  lemma {:induction false} TrackLengthSplit(points: seq<Point>, h: Metric, k: nat)
    requires k < |points|
    ensures TrackLength(points[..k + 1], h) + TrackLength(points[k..], h) == TrackLength(points, h)
    decreases |points|
  {
    var n := |points|;
    if k == n - 1 {
      assert points[..k + 1] == points;
    } else {
      var init := points[..n - 1];
      TrackLengthSplit(init, h, k);
      assert init[..k + 1] == points[..k + 1];
      assert points[k..][..|points[k..]| - 1] == init[k..];
    }
  }

  /** Extending a prefix by one point adds the length of the segment it closes. */
  lemma PrefixStep(points: seq<Point>, h: Metric, i: nat)
    requires i + 1 < |points|
    ensures TrackLength(points[..i + 2], h) == TrackLength(points[..i + 1], h) + h(points[i], points[i + 1])
  {
    assert points[..i + 2][..i + 1] == points[..i + 1];
  }

  /** With non-negative distances, a longer prefix is never shorter. */
  lemma PrefixMonotone(points: seq<Point>, h: Metric, i: nat, j: nat)
    requires NonNegative(h) && i <= j < |points|
    ensures TrackLength(points[..i + 1], h) <= TrackLength(points[..j + 1], h)
  {
    TrackLengthSplit(points[..j + 1], h, i);
    assert points[..j + 1][..i + 1] == points[..i + 1];
  }

  // ---------------------------------------------------------------------
  // Projection onto one segment
  // ---------------------------------------------------------------------

  /** Squared scaled segment length below which a segment counts as a single point (1e-20). */
  const DegenerateThreshold: real := 0.00000000000000000001

  /** `t.clamp(0.0, 1.0)`. */
  function Clamp01(t: real): (c: real)
    ensures 0.0 <= c <= 1.0
    ensures 0.0 <= t <= 1.0 ==> c == t
    ensures t <= 0.0 ==> c == 0.0
    ensures 1.0 <= t ==> c == 1.0
  {
    if t < 0.0 then 0.0 else if t > 1.0 then 1.0 else t
  }

  /** The value a fraction t of the way from x to y. */
  function Lerp(x: real, y: real, t: real): real
  {
    x + t * (y - x)
  }

  /** `v` lies between `x` and `y`, whichever is larger. */
  predicate Between(x: real, v: real, y: real)
  {
    (x <= v <= y) || (y <= v <= x)
  }

  /** A fraction in [0, 1] interpolates between the two ends. */
  lemma LerpBetween(x: real, y: real, t: real)
    requires 0.0 <= t <= 1.0
    ensures Between(x, Lerp(x, y, t), y)
  {
    var d := y - x;
    assert Lerp(x, y, t) == x + t * d;
    if x <= y {
      ScaleDown(t, d);
    } else {
      ScaleDown(t, -d);
      assert t * d == -(t * -d);
    }
  }

  /** A fraction of a non-negative amount lies between 0 and the amount. */
  lemma ScaleDown(t: real, d: real)
    requires 0.0 <= t <= 1.0 && 0.0 <= d
    ensures 0.0 <= t * d <= d
  {
    assert d - t * d == (1.0 - t) * d;
  }

  /**
   * The segment in the local plane at `a`: longitude differences scaled by
   * the cosine of the mean latitude, latitude differences as they are.
   * `dx, dy` is the segment, `px, py` the position.
   */
  datatype Frame = Frame(dx: real, dy: real, px: real, py: real)

  function LocalFrame(p: Point, a: Point, b: Point, cosDeg: CosineDeg): Frame
  {
    var cosLat := cosDeg((a.lat + b.lat) / 2.0);
    Frame((b.lon - a.lon) * cosLat, b.lat - a.lat, (p.lon - a.lon) * cosLat, p.lat - a.lat)
  }

  function SegLenSq(f: Frame): real
  {
    f.dx * f.dx + f.dy * f.dy
  }

  /** Dot product of the position with the segment. */
  function Dot(f: Frame): real
  {
    f.px * f.dx + f.py * f.dy
  }

  /** The segment is too short to project onto. */
  predicate Degenerate(p: Point, a: Point, b: Point, cosDeg: CosineDeg)
  {
    SegLenSq(LocalFrame(p, a, b, cosDeg)) < DegenerateThreshold
  }

  /** The clamped fraction along a non-degenerate segment. */
  function Fraction(p: Point, a: Point, b: Point, cosDeg: CosineDeg): (t: real)
    requires !Degenerate(p, a, b, cosDeg)
    ensures 0.0 <= t <= 1.0
  {
    var f := LocalFrame(p, a, b, cosDeg);
    Clamp01(Dot(f) / SegLenSq(f))
  }

  /** `q` is the point a fraction t in [0, 1] of the way from `a` to `b`. */
  ghost predicate OnSegment(q: Point, a: Point, b: Point)
  {
    exists t :: 0.0 <= t <= 1.0 && q.lat == Lerp(a.lat, b.lat, t) && q.lon == Lerp(a.lon, b.lon, t)
  }

  /**
   * The nearest point of the segment a-b to p: a degenerate segment gives
   * `a` itself; otherwise the clamped fraction interpolates latitude,
   * longitude and, when both ends have one, elevation.
   */
  function ProjectOnSegment(p: Point, a: Point, b: Point, cosDeg: CosineDeg): (q: Point)
    ensures OnSegment(q, a, b)
    ensures Between(a.lat, q.lat, b.lat) && Between(a.lon, q.lon, b.lon)
    ensures Degenerate(p, a, b, cosDeg) ==> q == a
    ensures !Degenerate(p, a, b, cosDeg) ==> (q.ele.Some? <==> a.ele.Some? && b.ele.Some?)
    ensures q.ele.Some? && b.ele.Some? ==> Between(a.ele.value, q.ele.value, b.ele.value)
  {
    if Degenerate(p, a, b, cosDeg) then
      assert Lerp(a.lat, b.lat, 0.0) == a.lat && Lerp(a.lon, b.lon, 0.0) == a.lon;
      a
    else
      var t := Fraction(p, a, b, cosDeg);
      LerpBetween(a.lat, b.lat, t);
      LerpBetween(a.lon, b.lon, t);
      var ele := match (a.ele, b.ele) {
        case (Some(ea), Some(eb)) => LerpBetween(ea, eb, t); Some(Lerp(ea, eb, t))
        case _ => None
      };
      Point(Lerp(a.lat, b.lat, t), Lerp(a.lon, b.lon, t), ele)
  }

  /**
   * The elevation of the projection is present only when the first
   * endpoint has one, and always when both do.
   */
  lemma ProjectedElevation(p: Point, a: Point, b: Point, cosDeg: CosineDeg)
    ensures ProjectOnSegment(p, a, b, cosDeg).ele.Some? ==> a.ele.Some?
    ensures a.ele.Some? && b.ele.Some? ==> ProjectOnSegment(p, a, b, cosDeg).ele.Some?
  {
  }

  /** Squared planar distance from the position to the point a fraction s along the segment. */
  function Gap(f: Frame, s: real): real
  {
    (f.px - s * f.dx) * (f.px - s * f.dx) + (f.py - s * f.dy) * (f.py - s * f.dy)
  }

  /** The part of the gap that depends on s: -2sd + s^2 L. */
  function Quad(len: real, d: real, s: real): real
  {
    -2.0 * s * d + s * s * len
  }

  /** The gap as a quadratic in s. */
  lemma GapExpand(f: Frame, s: real)
    ensures Gap(f, s) == f.px * f.px + f.py * f.py + Quad(SegLenSq(f), Dot(f), s)
  {
  }

  /**
   * The quadratic -2sd + s^2 L with L > 0 is smallest over [0, 1] at the
   * unconstrained minimum d/L clamped into [0, 1].
   */
  lemma ClampedMinimizes(len: real, d: real, s: real)
    requires 0.0 < len && 0.0 <= s <= 1.0
    ensures Quad(len, d, Clamp01(d / len)) <= Quad(len, d, s)
  {
    var u := d / len;
    var t := Clamp01(u);
    assert d == u * len;
    var diff := Quad(len, d, s) - Quad(len, d, t);
    assert diff == (s - t) * (s + t - 2.0 * u) * len;
    if u < 0.0 {
      assert t == 0.0;
      NonNegProduct(s - t, s + t - 2.0 * u, len);
    } else if u > 1.0 {
      assert t == 1.0;
      NonNegProduct(t - s, 2.0 * u - s - t, len);
      assert (s - t) * (s + t - 2.0 * u) == (t - s) * (2.0 * u - s - t);
    } else {
      assert t == u;
      NonNegProduct(s - t, s - t, len);
    }
  }

  lemma NonNegProduct(x: real, y: real, z: real)
    requires (0.0 <= x && 0.0 <= y) || (x <= 0.0 && y <= 0.0)
    requires 0.0 <= z
    ensures 0.0 <= x * y * z
  {
    assert 0.0 <= x * y;
  }

  /**
   * The clamped fraction is the nearest point of the segment in the local
   * plane: no other fraction s in [0, 1] is closer to the position.
   */
  lemma FractionIsNearest(p: Point, a: Point, b: Point, cosDeg: CosineDeg, s: real)
    requires !Degenerate(p, a, b, cosDeg) && 0.0 <= s <= 1.0
    ensures Gap(LocalFrame(p, a, b, cosDeg), Fraction(p, a, b, cosDeg)) <= Gap(LocalFrame(p, a, b, cosDeg), s)
  {
    var f := LocalFrame(p, a, b, cosDeg);
    var t := Fraction(p, a, b, cosDeg);
    GapExpand(f, s);
    GapExpand(f, t);
    ClampedMinimizes(SegLenSq(f), Dot(f), s);
  }

  /** A position at the start of a segment projects onto the start. */
  lemma StartProjectsToStart(a: Point, b: Point, cosDeg: CosineDeg)
    ensures ProjectOnSegment(a, a, b, cosDeg).lat == a.lat
    ensures ProjectOnSegment(a, a, b, cosDeg).lon == a.lon
  {
    if !Degenerate(a, a, b, cosDeg) {
      assert Fraction(a, a, b, cosDeg) == 0.0;
    }
  }

  /** A position at the end of a proper segment projects onto the end. */
  lemma EndProjectsToEnd(a: Point, b: Point, cosDeg: CosineDeg)
    requires !Degenerate(b, a, b, cosDeg)
    ensures ProjectOnSegment(b, a, b, cosDeg).lat == b.lat
    ensures ProjectOnSegment(b, a, b, cosDeg).lon == b.lon
  {
    var f := LocalFrame(b, a, b, cosDeg);
    assert f.px * f.dx + f.py * f.dy == SegLenSq(f);
    assert Fraction(b, a, b, cosDeg) == 1.0;
  }

  // ---------------------------------------------------------------------
  // Projection onto a track
  // ---------------------------------------------------------------------

  /** The projection of the position onto segment i of the track. */
  function SegmentProjection(position: Point, track: seq<Point>, cosDeg: CosineDeg, i: nat): Point
    requires i + 1 < |track|
  {
    ProjectOnSegment(position, track[i], track[i + 1], cosDeg)
  }

  /** Distance from the position to its projection onto segment i. */
  function SegmentDistance(position: Point, track: seq<Point>, h: Metric, cosDeg: CosineDeg, i: nat): real
    requires i + 1 < |track|
  {
    h(position, SegmentProjection(position, track, cosDeg, i))
  }

  /**
   * `r` describes segment k of the track: its projection, the distance to
   * it, and the length of the track up to point k plus the distance from
   * point k to the projection.
   */
  ghost predicate DescribesSegment(position: Point, track: seq<Point>, h: Metric, cosDeg: CosineDeg, r: ProjectionResult)
  {
    var k := r.segmentIndex;
    k + 1 < |track| &&
    r.point == SegmentProjection(position, track, cosDeg, k) &&
    r.distanceM == SegmentDistance(position, track, h, cosDeg, k) &&
    r.distanceAlongM == TrackLength(track[..k + 1], h) + h(track[k], r.point)
  }

  /**
   * `r` describes the nearest of the first n segments, the earliest one
   * among equally near segments.
   */
  ghost predicate NearestAmong(position: Point, track: seq<Point>, h: Metric, cosDeg: CosineDeg, n: nat, r: ProjectionResult)
  {
    DescribesSegment(position, track, h, cosDeg, r) &&
    r.segmentIndex < n &&
    (forall i :: 0 <= i < n && i + 1 < |track| ==> r.distanceM <= SegmentDistance(position, track, h, cosDeg, i)) &&
    (forall i :: 0 <= i < r.segmentIndex ==> r.distanceM < SegmentDistance(position, track, h, cosDeg, i))
  }

  /** A candidate that is no nearer than the best so far leaves the best in place. */
  lemma NearestKept(position: Point, track: seq<Point>, h: Metric, cosDeg: CosineDeg, i: nat, best: ProjectionResult)
    requires i + 1 < |track| && NearestAmong(position, track, h, cosDeg, i, best)
    requires best.distanceM <= SegmentDistance(position, track, h, cosDeg, i)
    ensures NearestAmong(position, track, h, cosDeg, i + 1, best)
  {
  }

  /** A candidate strictly nearer than the best so far (or the first one) becomes the best. */
  lemma NearestReplaced(position: Point, track: seq<Point>, h: Metric, cosDeg: CosineDeg, i: nat,
                        best: Option<ProjectionResult>, candidate: ProjectionResult)
    requires i + 1 < |track| && candidate.segmentIndex == i
    requires DescribesSegment(position, track, h, cosDeg, candidate)
    requires best.None? ==> i == 0
    requires best.Some? ==> NearestAmong(position, track, h, cosDeg, i, best.value) && candidate.distanceM < best.value.distanceM
    ensures NearestAmong(position, track, h, cosDeg, i + 1, candidate)
  {
  }

  /**
   * Project a position onto the nearest segment of a track. None exactly
   * when the track has fewer than two points; otherwise the result
   * describes the nearest segment, the earliest one on a tie.
   */
  method ProjectOnTrack(position: Point, track: seq<Point>, h: Metric, cosDeg: CosineDeg)
    returns (r: Option<ProjectionResult>)
    ensures r.None? <==> |track| < 2
    ensures r.Some? ==> r.value.segmentIndex < |track| - 1
    ensures r.Some? ==> NearestAmong(position, track, h, cosDeg, |track| - 1, r.value)
  {
    if |track| < 2 {
      return None;
    }
    var best: Option<ProjectionResult> := None;
    var cumulative := 0.0;
    for i := 0 to |track| - 1
      invariant cumulative == TrackLength(track[..i + 1], h)
      invariant best.None? <==> i == 0
      invariant best.Some? ==> NearestAmong(position, track, h, cosDeg, i, best.value)
    {
      var a, b := track[i], track[i + 1];
      var segLen := h(a, b);
      var projected := ProjectOnSegment(position, a, b, cosDeg);
      var dist := h(position, projected);
      var along := cumulative + h(a, projected);
      var isBetter := match best {
        case Some(prev) => dist < prev.distanceM
        case None => true
      };
      if isBetter {
        NearestReplaced(position, track, h, cosDeg, i, best, ProjectionResult(projected, i, dist, along));
        best := Some(ProjectionResult(projected, i, dist, along));
      } else {
        NearestKept(position, track, h, cosDeg, i, best.value);
      }
      PrefixStep(track, h, i);
      cumulative := cumulative + segLen;
    }
    return best;
  }

  /**
   * With non-negative distances, the distance along the track to the
   * projection is at least the length up to the start of its segment, and
   * so never negative.
   */
  lemma DistanceAlongBounds(position: Point, track: seq<Point>, h: Metric, cosDeg: CosineDeg, r: ProjectionResult)
    requires NonNegative(h) && DescribesSegment(position, track, h, cosDeg, r)
    ensures TrackLength(track[..r.segmentIndex + 1], h) <= r.distanceAlongM
    ensures 0.0 <= r.distanceAlongM
  {
  }

  /**
   * Only one result describes the nearest segment with the earliest-tie
   * rule: any two agree in every field.
   */
  lemma NearestIsUnique(position: Point, track: seq<Point>, h: Metric, cosDeg: CosineDeg, n: nat, r1: ProjectionResult, r2: ProjectionResult)
    requires NearestAmong(position, track, h, cosDeg, n, r1)
    requires NearestAmong(position, track, h, cosDeg, n, r2)
    ensures r1 == r2
  {
  }
}
