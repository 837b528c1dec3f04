/**
 * Stateless geometry algorithms: Bezier evaluation, chord-length
 * approximation, Douglas-Peucker simplification, point-to-segment distance,
 * ray-casting point-in-polygon, and the hex-colour and coordinate text
 * formats. Distances are squared throughout: comparing squared distances of
 * non-negative lengths decides exactly what comparing the lengths decides.
 */
module GeometryUtils {
  import opened GeometryBase
  import opened Digits

  // ---------------------------------------------------------------------------
  // Curves and interpolation

  /** The point at parameter t of the cubic Bezier curve with control points p0..p3. */
  function CubicBezierPoint(p0: GPointF, p1: GPointF, p2: GPointF, p3: GPointF, t: real): (r: GPointF)
    ensures t == 0.0 ==> r == p0
    ensures t == 1.0 ==> r == p3
  {
    var t2 := t * t;
    var t3 := t2 * t;
    var mt := 1.0 - t;
    var mt2 := mt * mt;
    var mt3 := mt2 * mt;
    GPointF(mt3 * p0.x + 3.0 * mt2 * t * p1.x + 3.0 * mt * t2 * p2.x + t3 * p3.x,
            mt3 * p0.y + 3.0 * mt2 * t * p1.y + 3.0 * mt * t2 * p2.y + t3 * p3.y)
  }

  /** Reversing the control points and the parameter traces the same curve. */
  lemma CubicBezierIsSymmetric(p0: GPointF, p1: GPointF, p2: GPointF, p3: GPointF, t: real)
    ensures CubicBezierPoint(p3, p2, p1, p0, 1.0 - t) == CubicBezierPoint(p0, p1, p2, p3, t)
  {
  }

  /** Linear interpolation: p1 at t = 0 and p2 at t = 1. */
  function Interpolate(p1: GPointF, p2: GPointF, t: real): (r: GPointF)
    ensures t == 0.0 ==> r == p1
    ensures t == 1.0 ==> r == p2
  {
    GPointF(p1.x + (p2.x - p1.x) * t, p1.y + (p2.y - p1.y) * t)
  }

  /** The midpoint, which is interpolation half way and lies equally far from both ends. */
  function Midpoint(p1: GPointF, p2: GPointF): (r: GPointF)
    ensures r == Interpolate(p1, p2, 0.5)
    ensures r.DistanceSquaredTo(p1) == r.DistanceSquaredTo(p2)
  {
    GPointF((p1.x + p2.x) * 0.5, (p1.y + p2.y) * 0.5)
  }

  /** The sample points p(i / segments) for i = 0..k of the chord approximation. */
  function BezierSamples(p0: GPointF, p1: GPointF, p2: GPointF, p3: GPointF, segments: int, k: nat): (r: seq<GPointF>)
    requires segments >= 1
    ensures |r| == k + 1 && r[0] == p0
    ensures k == segments ==> r[k] == p3
  {
    if k == 0 then [p0]
    else
      var t := k as real / segments as real;
      assert k == segments ==> t == 1.0 by {
        if k == segments {
          WholeQuotient(segments);
        }
      }
      BezierSamples(p0, p1, p2, p3, segments, k - 1) + [CubicBezierPoint(p0, p1, p2, p3, t)]
  }

  lemma WholeQuotient(n: int)
    requires n >= 1
    ensures n as real / n as real == 1.0
  {
  }

  /** The summed lengths of consecutive chords of a sample list, measured by `dist`. */
  function ChordLength(dist: (GPointF, GPointF) -> real, samples: seq<GPointF>): (r: real)
    ensures |samples| <= 1 ==> r == 0.0
    ensures |samples| == 2 ==> r == dist(samples[0], samples[1])
  {
    if |samples| <= 1 then 0.0
    else ChordLength(dist, samples[..|samples| - 1]) + dist(samples[|samples| - 2], samples[|samples| - 1])
  }

  /** Chord lengths measured by a non-negative distance are non-negative. */
  lemma {:induction false} ChordLengthIsNonNegative(dist: (GPointF, GPointF) -> real, samples: seq<GPointF>)
    requires forall a, b :: dist(a, b) >= 0.0
    ensures ChordLength(dist, samples) >= 0.0
  {
    if |samples| > 1 {
      ChordLengthIsNonNegative(dist, samples[..|samples| - 1]);
    }
  }

  /**
   * The length of the curve approximated by `segments` chords between the
   * points at t = i / segments; `dist` is the Euclidean distance. A
   * non-positive segment count gives 0.
   */
  method ApproximateBezierLength(p0: GPointF, p1: GPointF, p2: GPointF, p3: GPointF, dist: (GPointF, GPointF) -> real,
                                 segments: int := 10) returns (length: real)
    ensures segments <= 0 ==> length == 0.0
    ensures segments >= 1 ==> length == ChordLength(dist, BezierSamples(p0, p1, p2, p3, segments, segments))
  {
    length := 0.0;
    if segments <= 0 {
      return;
    }
    var prev := p0;
    var i := 1;
    while i <= segments
      invariant 1 <= i <= segments + 1
      invariant prev == BezierSamples(p0, p1, p2, p3, segments, i - 1)[i - 1]
      invariant length == ChordLength(dist, BezierSamples(p0, p1, p2, p3, segments, i - 1))
    {
      var curr := CubicBezierPoint(p0, p1, p2, p3, i as real / segments as real);
      ghost var before := BezierSamples(p0, p1, p2, p3, segments, i - 1);
      ghost var after := BezierSamples(p0, p1, p2, p3, segments, i);
      assert after == before + [curr];
      assert after[..|after| - 1] == before;
      length := length + dist(prev, curr);
      prev := curr;
      i := i + 1;
    }
  }

  // ---------------------------------------------------------------------------
  // Distance from a point to a segment

  /**
   * The parameter of the point of the segment start..end nearest to `point`:
   * the projection onto the line, clamped to [0, 1].
   */
  function ProjectionParameter(point: GPointF, lineStart: GPointF, lineEnd: GPointF): (t: real)
    ensures 0.0 <= t <= 1.0
  {
    var dx := lineEnd.x - lineStart.x;
    var dy := lineEnd.y - lineStart.y;
    var t := Quotient(Dot(point.x - lineStart.x, point.y - lineStart.y, dx, dy), Dot(dx, dy, dx, dy));
    Max(0.0, Min(1.0, t))
  }

  /** The dot product of the vectors (ux, uy) and (vx, vy). */
  function Dot(ux: real, uy: real, vx: real, vy: real): real {
    ux * vx + uy * vy
  }

  /**
   * n / d. The projection only divides by the squared length of a
   * non-degenerate segment, which is positive, so the zero case is never used.
   */
  function Quotient(n: real, d: real): real {
    if d == 0.0 then 0.0 else n / d
  }

  /**
   * The squared distance from `point` to the segment lineStart..lineEnd (the
   * square of `perpendicular_distance`); a degenerate segment is its start point.
   */
  function PerpendicularDistanceSquared(point: GPointF, lineStart: GPointF, lineEnd: GPointF): (r: real)
    ensures r >= 0.0
    ensures lineStart == lineEnd ==> r == point.DistanceSquaredTo(lineStart)
  {
    if lineStart == lineEnd then point.DistanceSquaredTo(lineStart)
    else point.DistanceSquaredTo(Interpolate(lineStart, lineEnd, ProjectionParameter(point, lineStart, lineEnd)))
  }

  /**
   * PerpendicularDistanceSquared is the distance to the nearest point of the
   * segment: no point Interpolate(start, end, s) with s in [0, 1] is nearer,
   * and some point of the segment is exactly that far.
   */
  lemma SegmentDistanceIsMinimal(point: GPointF, lineStart: GPointF, lineEnd: GPointF, s: real)
    requires 0.0 <= s <= 1.0
    ensures PerpendicularDistanceSquared(point, lineStart, lineEnd)
      <= point.DistanceSquaredTo(Interpolate(lineStart, lineEnd, s))
    ensures exists t ::
      0.0 <= t <= 1.0 &&
      PerpendicularDistanceSquared(point, lineStart, lineEnd) == point.DistanceSquaredTo(Interpolate(lineStart, lineEnd, t))
  {
    if lineStart == lineEnd {
      assert Interpolate(lineStart, lineEnd, s) == lineStart;
      assert Interpolate(lineStart, lineEnd, 0.0) == lineStart;
    } else {
      var t := ProjectionParameter(point, lineStart, lineEnd);
      ProjectionIsNearest(point, lineStart, lineEnd, s);
      assert PerpendicularDistanceSquared(point, lineStart, lineEnd)
        == point.DistanceSquaredTo(Interpolate(lineStart, lineEnd, t));
    }
  }

  /** On a non-degenerate segment the clamped projection gives the nearest point. */
  lemma ProjectionIsNearest(point: GPointF, a: GPointF, b: GPointF, s: real)
    requires a != b && 0.0 <= s <= 1.0
    ensures point.DistanceSquaredTo(Interpolate(a, b, ProjectionParameter(point, a, b)))
      <= point.DistanceSquaredTo(Interpolate(a, b, s))
  {
    var t := ProjectionParameter(point, a, b);
    var ww, wd, len := SegmentQuadratic(point, a, b, s, t);
    ClampedMinimisesQuadratic(wd, len, ww, s, t,
      point.DistanceSquaredTo(Interpolate(a, b, s)), point.DistanceSquaredTo(Interpolate(a, b, t)));
  }

  /**
   * The coefficients of the squared distance from `point` to the point at a
   * parameter of the segment, as a quadratic in that parameter, and the
   * projection parameter in their terms.
   */
  lemma SegmentQuadratic(point: GPointF, a: GPointF, b: GPointF, s: real, t: real) returns (ww: real, wd: real, len: real)
    requires a != b && t == ProjectionParameter(point, a, b)
    ensures len > 0.0 && t == Max(0.0, Min(1.0, wd / len))
    ensures point.DistanceSquaredTo(Interpolate(a, b, s)) == ww - 2.0 * s * wd + s * s * len
    ensures point.DistanceSquaredTo(Interpolate(a, b, t)) == ww - 2.0 * t * wd + t * t * len
  {
    ww := Dot(point.x - a.x, point.y - a.y, point.x - a.x, point.y - a.y);
    wd := Dot(point.x - a.x, point.y - a.y, b.x - a.x, b.y - a.y);
    len := Dot(b.x - a.x, b.y - a.y, b.x - a.x, b.y - a.y);
    ProjectionIsClampedQuotient(point, a, b);
    DistanceAlongSegment(point, a, b, s, ww, wd, len);
    DistanceAlongSegment(point, a, b, t, ww, wd, len);
  }

  /** For a non-degenerate segment the parameter is the projection quotient, clamped to [0, 1]. */
  lemma ProjectionIsClampedQuotient(point: GPointF, a: GPointF, b: GPointF)
    requires a != b
    ensures Dot(b.x - a.x, b.y - a.y, b.x - a.x, b.y - a.y) > 0.0
    ensures ProjectionParameter(point, a, b) == Max(0.0, Min(1.0,
      Dot(point.x - a.x, point.y - a.y, b.x - a.x, b.y - a.y) / Dot(b.x - a.x, b.y - a.y, b.x - a.x, b.y - a.y)))
  {
    DotSelfIsPositive(b.x - a.x, b.y - a.y);
  }

  /** A non-zero vector has a positive squared length. */
  lemma DotSelfIsPositive(dx: real, dy: real)
    requires dx != 0.0 || dy != 0.0
    ensures Dot(dx, dy, dx, dy) > 0.0
  {
    if dx != 0.0 {
      calc {
        Dot(dx, dy, dx, dy);
      ==
        dx * dx + dy * dy;
      >=
        dx * dx;
      >
        0.0;
      }
    } else {
      calc {
        Dot(dx, dy, dx, dy);
      ==
        dx * dx + dy * dy;
      >=
        dy * dy;
      >
        0.0;
      }
    }
  }

  /**
   * The squared distance from `point` to the point at parameter s of the
   * segment a..b, expanded in s: with w = point - a and d = b - a it is
   * w.w - 2 s w.d + s^2 d.d.
   */
  lemma DistanceAlongSegment(point: GPointF, a: GPointF, b: GPointF, s: real, ww: real, wd: real, len: real)
    requires ww == Dot(point.x - a.x, point.y - a.y, point.x - a.x, point.y - a.y)
    requires wd == Dot(point.x - a.x, point.y - a.y, b.x - a.x, b.y - a.y)
    requires len == Dot(b.x - a.x, b.y - a.y, b.x - a.x, b.y - a.y)
    ensures point.DistanceSquaredTo(Interpolate(a, b, s)) == ww - 2.0 * s * wd + s * s * len
  {
    var q := Interpolate(a, b, s);
    DistanceIsSquares(point, q);
    OffsetSquares(point.x, point.y, q.x, q.y, a.x, a.y, b.x, b.y, s, ww, wd, len);
  }

  lemma DistanceIsSquares(p: GPointF, q: GPointF)
    ensures p.DistanceSquaredTo(q) == Dot(p.x - q.x, p.y - q.y, p.x - q.x, p.y - q.y)
  {
  }

  /** The expansion on coordinates: (qx, qy) is the point at parameter s from (ax, ay) to (ex, ey). */
  lemma OffsetSquares(px: real, py: real, qx: real, qy: real, ax: real, ay: real, ex: real, ey: real, s: real,
                      ww: real, wd: real, len: real)
    requires qx == ax + (ex - ax) * s && qy == ay + (ey - ay) * s
    requires ww == Dot(px - ax, py - ay, px - ax, py - ay)
    requires wd == Dot(px - ax, py - ay, ex - ax, ey - ay)
    requires len == Dot(ex - ax, ey - ay, ex - ax, ey - ay)
    ensures Dot(px - qx, py - qy, px - qx, py - qy) == ww - 2.0 * s * wd + s * s * len
  {
    ExpandSquares(px - ax, py - ay, ex - ax, ey - ay, s, ww, wd, len);
    SquareOfEqual(px - qx, (px - ax) - s * (ex - ax));
    SquareOfEqual(py - qy, (py - ay) - s * (ey - ay));
  }

  lemma ExpandSquares(wx: real, wy: real, dx: real, dy: real, s: real, ww: real, wd: real, len: real)
    requires ww == Dot(wx, wy, wx, wy) && wd == Dot(wx, wy, dx, dy) && len == Dot(dx, dy, dx, dy)
    ensures (wx - s * dx) * (wx - s * dx) + (wy - s * dy) * (wy - s * dy) == ww - 2.0 * s * wd + s * s * len
  {
    assert (wx - s * dx) * (wx - s * dx) == wx * wx - 2.0 * s * (wx * dx) + s * s * (dx * dx);
    assert (wy - s * dy) * (wy - s * dy) == wy * wy - 2.0 * s * (wy * dy) + s * s * (dy * dy);
    assert 2.0 * s * wd == 2.0 * s * (wx * dx) + 2.0 * s * (wy * dy);
    assert s * s * len == s * s * (dx * dx) + s * s * (dy * dy);
  }

  lemma SquareOfEqual(u: real, v: real)
    requires u == v
    ensures u * u == v * v
  {
  }

  /**
   * On [0, 1] the quadratic ww - 2 s wd + s^2 len (len > 0) is smallest at
   * wd / len clamped to [0, 1].
   */
  lemma ClampedMinimisesQuadratic(wd: real, len: real, ww: real, s: real, t: real, atS: real, atT: real)
    requires len > 0.0 && 0.0 <= s <= 1.0
    requires t == Max(0.0, Min(1.0, wd / len))
    requires atS == ww - 2.0 * s * wd + s * s * len && atT == ww - 2.0 * t * wd + t * t * len
    ensures atT <= atS
  {
    var u := wd / len;
    assert wd == u * len;
    var diff := (ww - 2.0 * s * wd + s * s * len) - (ww - 2.0 * t * wd + t * t * len);
    assert diff == len * ((s - t) * (s + t - 2.0 * u));
    var g := (s - t) * (s + t - 2.0 * u);
    if u < 0.0 {
      assert t == 0.0;
      assert s + t - 2.0 * u >= 0.0;
      assert g >= 0.0;
    } else if u > 1.0 {
      assert t == 1.0;
      assert s - t <= 0.0 && s + t - 2.0 * u <= 0.0;
      assert g >= 0.0;
    } else {
      assert t == u;
      assert g == (s - u) * (s - u);
    }
    assert len * g >= 0.0;
  }

  // ---------------------------------------------------------------------------
  // Douglas-Peucker simplification

  /**
   * The squared distance of points[i] from the chord joining the first and
   * last points (0 for a position outside the list, which the scan never asks for).
   */
  function ChordDistanceSquared(points: seq<GPointF>, i: nat): real {
    if i < |points| then PerpendicularDistanceSquared(points[i], points[0], points[|points| - 1]) else 0.0
  }

  /**
   * `perpendicular_distance(...) > tolerance` decided on the squared distance:
   * the square root of d2 exceeds tol exactly when tol is negative or d2 > tol^2.
   */
  predicate ExceedsTolerance(d2: real, tolerance: real)
    requires d2 >= 0.0
  {
    tolerance < 0.0 || d2 > tolerance * tolerance
  }

  /**
   * The state (max_dist^2, index) of the farthest-point scan after it has
   * measured, with `dist`, the interior points 1..k-1. A later point replaces
   * the maximum only when it is strictly farther, so among equal maxima the
   * first wins; index 0 means no interior point is farther than 0.
   */
  function Farthest(dist: (seq<GPointF>, nat) -> real, points: seq<GPointF>, k: nat): (r: (real, nat))
    requires 1 <= k < |points|
    ensures r.0 >= 0.0
    ensures r.1 == 0 ==> r.0 == 0.0
    ensures r.1 != 0 ==> 1 <= r.1 < k && r.0 == dist(points, r.1)
  {
    if k == 1 then (0.0, 0)
    else
      var prev := Farthest(dist, points, k - 1);
      var d := dist(points, k - 1);
      if d > prev.0 then (d, k - 1) else prev
  }

  /**
   * The scan's maximum is at least every measured distance, and strictly
   * greater than those before its index (the first of equal maxima wins).
   */
  lemma {:induction false} FarthestIsMaximal(dist: (seq<GPointF>, nat) -> real, points: seq<GPointF>, k: nat)
    requires 1 <= k < |points|
    ensures var r := Farthest(dist, points, k);
            forall i :: 1 <= i < k ==> dist(points, i) <= r.0
    ensures var r := Farthest(dist, points, k);
            forall i :: 1 <= i < r.1 ==> dist(points, i) < r.0
    decreases k
  {
    if k > 1 {
      FarthestIsMaximal(dist, points, k - 1);
    }
  }

  /** The loop of `simplify_polyline` that finds the interior point farthest from the chord. */
  method FindFarthest(points: seq<GPointF>) returns (maxDist: real, index: nat)
    requires |points| >= 2
    ensures (maxDist, index) == Farthest(ChordDistanceSquared, points, |points| - 1)
  {
    maxDist, index := 0.0, 0;
    var i := 1;
    while i < |points| - 1
      invariant 1 <= i <= |points| - 1
      invariant (maxDist, index) == Farthest(ChordDistanceSquared, points, i)
    {
      var dist := ChordDistanceSquared(points, i);
      if dist > maxDist {
        maxDist, index := dist, i;
      }
      i := i + 1;
    }
  }

  /** Python's `s[:-1]`: everything but the last element (nothing for an empty list). */
  function DropLast<T>(s: seq<T>): (r: seq<T>)
    ensures |s| >= 1 ==> r == s[..|s| - 1]
    ensures |s| == 0 ==> r == []
  {
    if s == [] then [] else s[..|s| - 1]
  }

  /**
   * Douglas-Peucker simplification with the distance measure `dist`. Up to
   * two points are returned unchanged; otherwise, when the farthest interior
   * point is beyond the tolerance, the list is split there (SplitAndJoin),
   * and when none is, only the two endpoints remain.
   */
  function SimplifyBy(dist: (seq<GPointF>, nat) -> real, points: seq<GPointF>, tolerance: real): (r: seq<GPointF>)
    requires tolerance >= 0.0
    ensures |points| <= 2 ==> r == points
    ensures |points| >= 2 ==> |r| >= 2
    ensures |r| <= |points|
    decreases |points|, 1
  {
    if |points| <= 2 then points
    else
      var far := Farthest(dist, points, |points| - 1);
      if ExceedsTolerance(far.0, tolerance) then SplitAndJoin(dist, points, tolerance, far.1)
      else [points[0], points[|points| - 1]]
  }

  /** Both halves split at an interior index simplified, joined without repeating the split point. */
  function SplitAndJoin(dist: (seq<GPointF>, nat) -> real, points: seq<GPointF>, tolerance: real, index: nat)
    : (r: seq<GPointF>)
    requires tolerance >= 0.0 && 1 <= index < |points| - 1
    ensures 2 <= |r| <= |points|
    decreases |points|, 0
  {
    var firstPart := SimplifyBy(dist, points[..index + 1], tolerance);
    var secondPart := SimplifyBy(dist, points[index..], tolerance);
    DropLast(firstPart) + secondPart
  }

  /** `simplify_polyline`'s result: Douglas-Peucker with the perpendicular distance from the chord. */
  function Simplify(points: seq<GPointF>, tolerance: real): (r: seq<GPointF>)
    requires tolerance >= 0.0
    ensures |points| <= 2 ==> r == points
    ensures |points| >= 2 ==> |r| >= 2
    ensures |r| <= |points|
  {
    SimplifyBy(ChordDistanceSquared, points, tolerance)
  }

  /** Beyond the tolerance the farthest point is interior, and the list is split there. */
  lemma SimplifySplit(dist: (seq<GPointF>, nat) -> real, points: seq<GPointF>, tolerance: real, index: nat)
    requires tolerance >= 0.0 && |points| > 2
    requires ExceedsTolerance(Farthest(dist, points, |points| - 1).0, tolerance)
    requires index == Farthest(dist, points, |points| - 1).1
    ensures 1 <= index < |points| - 1
    ensures SimplifyBy(dist, points, tolerance) == SplitAndJoin(dist, points, tolerance, index)
  {
  }

  /** The split list is the first half simplified without its last point, then the second half simplified. */
  lemma SplitAndJoinParts(dist: (seq<GPointF>, nat) -> real, points: seq<GPointF>, tolerance: real, index: nat)
    requires tolerance >= 0.0 && 1 <= index < |points| - 1
    ensures SplitAndJoin(dist, points, tolerance, index) ==
            DropLast(SimplifyBy(dist, points[..index + 1], tolerance)) + SimplifyBy(dist, points[index..], tolerance)
  {
  }

  /** Within the tolerance only the two endpoints remain. */
  lemma SimplifyWithin(dist: (seq<GPointF>, nat) -> real, points: seq<GPointF>, tolerance: real)
    requires tolerance >= 0.0 && |points| > 2
    requires !ExceedsTolerance(Farthest(dist, points, |points| - 1).0, tolerance)
    ensures SimplifyBy(dist, points, tolerance) == [points[0], points[|points| - 1]]
  {
  }

  /** `simplify_polyline`: the recursion of Simplify around the FindFarthest loop. */
  method SimplifyPolyline(points: seq<GPointF>, tolerance: real := 1.0) returns (r: seq<GPointF>)
    requires tolerance >= 0.0
    ensures r == Simplify(points, tolerance)
    decreases |points|
  {
    if |points| <= 2 {
      return points;
    }
    var maxDist, index := FindFarthest(points);
    if ExceedsTolerance(maxDist, tolerance) {
      SimplifySplit(ChordDistanceSquared, points, tolerance, index);
      var firstPart := SimplifyPolyline(points[..index + 1], tolerance);
      var secondPart := SimplifyPolyline(points[index..], tolerance);
      r := DropLast(firstPart) + secondPart;
    } else {
      SimplifyWithin(ChordDistanceSquared, points, tolerance);
      r := [points[0], points[|points| - 1]];
    }
  }

  /** `idx` lists, in increasing order, the positions in `t` of the elements of `s`. */
  ghost predicate IsEmbedding<T>(idx: seq<nat>, s: seq<T>, t: seq<T>) {
    |idx| == |s| &&
    (forall k :: 0 <= k < |idx| ==> idx[k] < |t| && s[k] == t[idx[k]]) &&
    (forall k, l :: 0 <= k < l < |idx| ==> idx[k] < idx[l])
  }

  /** `s` is an order-preserving subsequence of `t`. */
  ghost predicate IsSubsequence<T>(s: seq<T>, t: seq<T>) {
    exists idx :: IsEmbedding(idx, s, t)
  }

  /** The simplified polyline keeps some of the input points, in their input order. */
  lemma SimplifyIsSubsequence(points: seq<GPointF>, tolerance: real)
    requires tolerance >= 0.0
    ensures IsSubsequence(Simplify(points, tolerance), points)
  {
    var idx := SimplifyEmbedding(ChordDistanceSquared, points, tolerance);
  }

  lemma {:induction false} SimplifyEmbedding(dist: (seq<GPointF>, nat) -> real, points: seq<GPointF>, tolerance: real)
    returns (idx: seq<nat>)
    requires tolerance >= 0.0
    ensures IsEmbedding(idx, SimplifyBy(dist, points, tolerance), points)
    decreases |points|
  {
    if |points| <= 2 {
      idx := seq(|points|, k requires 0 <= k < |points| => k);
    } else {
      var far := Farthest(dist, points, |points| - 1);
      if ExceedsTolerance(far.0, tolerance) {
        var index := far.1;
        SimplifySplit(dist, points, tolerance, index);
        SplitAndJoinParts(dist, points, tolerance, index);
        var idx1 := SimplifyEmbedding(dist, points[..index + 1], tolerance);
        var idx2 := SimplifyEmbedding(dist, points[index..], tolerance);
        idx := EmbeddingOfJoin(points, index, SimplifyBy(dist, points[..index + 1], tolerance),
                               SimplifyBy(dist, points[index..], tolerance), SimplifyBy(dist, points, tolerance), idx1, idx2);
      } else {
        SimplifyWithin(dist, points, tolerance);
        idx := [0, |points| - 1];
      }
    }
  }

  /** The simplified polyline starts and ends where the input does. */
  lemma SimplifyKeepsEnds(points: seq<GPointF>, tolerance: real)
    requires tolerance >= 0.0 && |points| >= 2
    ensures var r := Simplify(points, tolerance);
            r[0] == points[0] && r[|r| - 1] == points[|points| - 1]
  {
    SimplifyByKeepsFirst(ChordDistanceSquared, points, tolerance);
    SimplifyByKeepsLast(ChordDistanceSquared, points, tolerance);
  }

  /** Where the list is split: 0 when it is kept whole or reduced to its two ends, otherwise an interior index. */
  function SplitPoint(dist: (seq<GPointF>, nat) -> real, points: seq<GPointF>, tolerance: real): (r: nat)
    requires tolerance >= 0.0
    ensures r != 0 ==> 1 <= r < |points| - 1
  {
    if |points| <= 2 then 0
    else
      var far := Farthest(dist, points, |points| - 1);
      if ExceedsTolerance(far.0, tolerance) then far.1 else 0
  }

  /** Unsplit results start and end where the input does; split results are the joined halves. */
  lemma SimplifyCases(dist: (seq<GPointF>, nat) -> real, points: seq<GPointF>, tolerance: real)
    requires tolerance >= 0.0 && |points| >= 2
    ensures var r, i := SimplifyBy(dist, points, tolerance), SplitPoint(dist, points, tolerance);
            i == 0 ==> r[0] == points[0] && r[|r| - 1] == points[|points| - 1]
    ensures var i := SplitPoint(dist, points, tolerance);
            i != 0 ==> SimplifyBy(dist, points, tolerance) == SplitAndJoin(dist, points, tolerance, i)
  {
    if |points| > 2 {
      var far := Farthest(dist, points, |points| - 1);
      if ExceedsTolerance(far.0, tolerance) {
        SimplifySplit(dist, points, tolerance, far.1);
      } else {
        SimplifyWithin(dist, points, tolerance);
      }
    }
  }

  lemma {:induction false} SimplifyByKeepsFirst(dist: (seq<GPointF>, nat) -> real, points: seq<GPointF>, tolerance: real)
    requires tolerance >= 0.0 && |points| >= 2
    ensures SimplifyBy(dist, points, tolerance)[0] == points[0]
    decreases |points|
  {
    var i := SplitPoint(dist, points, tolerance);
    SimplifyCases(dist, points, tolerance);
    if i != 0 {
      SimplifyByKeepsFirst(dist, points[..i + 1], tolerance);
      SplitKeepsFirst(dist, points, tolerance, i);
    }
  }

  lemma {:induction false} SimplifyByKeepsLast(dist: (seq<GPointF>, nat) -> real, points: seq<GPointF>, tolerance: real)
    requires tolerance >= 0.0 && |points| >= 2
    ensures var r := SimplifyBy(dist, points, tolerance);
            r[|r| - 1] == points[|points| - 1]
    decreases |points|
  {
    var i := SplitPoint(dist, points, tolerance);
    SimplifyCases(dist, points, tolerance);
    if i != 0 {
      var tail := points[i..];
      assert |tail| >= 2 && tail[|tail| - 1] == points[|points| - 1];
      SimplifyByKeepsLast(dist, tail, tolerance);
      SplitKeepsLast(dist, points, tolerance, i);
    }
  }

  /** The split case keeps the first point once the prefix's simplification does. */
  lemma SplitKeepsFirst(dist: (seq<GPointF>, nat) -> real, points: seq<GPointF>, tolerance: real, index: nat)
    requires tolerance >= 0.0 && 1 <= index < |points| - 1
    requires SimplifyBy(dist, points[..index + 1], tolerance)[0] == points[0]
    ensures SplitAndJoin(dist, points, tolerance, index)[0] == points[0]
  {
    SplitAndJoinParts(dist, points, tolerance, index);
    JoinKeepsEnds(SimplifyBy(dist, points[..index + 1], tolerance), SimplifyBy(dist, points[index..], tolerance));
  }

  /** The split case keeps the last point once the suffix's simplification does. */
  lemma SplitKeepsLast(dist: (seq<GPointF>, nat) -> real, points: seq<GPointF>, tolerance: real, index: nat)
    requires tolerance >= 0.0 && 1 <= index < |points| - 1
    requires var b := SimplifyBy(dist, points[index..], tolerance);
             b[|b| - 1] == points[|points| - 1]
    ensures var r := SplitAndJoin(dist, points, tolerance, index);
            r[|r| - 1] == points[|points| - 1]
  {
    SplitAndJoinParts(dist, points, tolerance, index);
    JoinKeepsEnds(SimplifyBy(dist, points[..index + 1], tolerance), SimplifyBy(dist, points[index..], tolerance));
  }

  /** Joining a list without its last element to another keeps the first's start and the second's end. */
  lemma JoinKeepsEnds<T>(a: seq<T>, b: seq<T>)
    requires |a| >= 2 && |b| >= 1
    ensures var r := DropLast(a) + b;
            r[0] == a[0] && r[|r| - 1] == b[|b| - 1]
  {
  }

  /** Joining an embedding into t[..index+1] (without its last element) and one into t[index..]. */
  lemma EmbeddingOfJoin<T>(t: seq<T>, index: nat, a: seq<T>, b: seq<T>, r: seq<T>, ia: seq<nat>, ib: seq<nat>)
    returns (idx: seq<nat>)
    requires index < |t| && |a| >= 1 && r == DropLast(a) + b
    requires IsEmbedding(ia, a, t[..index + 1]) && IsEmbedding(ib, b, t[index..])
    ensures IsEmbedding(idx, r, t)
  {
    idx := JoinedPositions(ia, ib, index);
    PrefixEmbedding(t, index, a, ia);
    SuffixEmbedding(t, index, b, ib);
    JoinedPositionsPick(t, index, a, b, r, ia, ib);
    JoinedPositionsIncrease(ia, ib, index);
  }

  /** The positions of DropLast(a) + b in t: those of a but the last, then those of b shifted by index. */
  function JoinedPositions(ia: seq<nat>, ib: seq<nat>, index: nat): (idx: seq<nat>)
    requires |ia| >= 1
    ensures |idx| == |ia| - 1 + |ib|
    ensures forall k :: 0 <= k < |ia| - 1 ==> idx[k] == ia[k]
    ensures forall j :: 0 <= j < |ib| ==> idx[|ia| - 1 + j] == ib[j] + index
  {
    var n := |ia| - 1;
    seq(n + |ib|, k requires 0 <= k < n + |ib| => if k < n then ia[k] else ib[k - n] + index)
  }

  lemma JoinedPositionsPick<T>(t: seq<T>, index: nat, a: seq<T>, b: seq<T>, r: seq<T>, ia: seq<nat>, ib: seq<nat>)
    requires index < |t| && |a| >= 1 && |ia| == |a| && |ib| == |b| && r == DropLast(a) + b
    requires forall k :: 0 <= k < |ia| ==> ia[k] <= index && a[k] == t[ia[k]]
    requires forall j :: 0 <= j < |ib| ==> ib[j] + index < |t| && b[j] == t[ib[j] + index]
    ensures var idx := JoinedPositions(ia, ib, index);
            |idx| == |r| && forall k :: 0 <= k < |idx| ==> idx[k] < |t| && r[k] == t[idx[k]]
  {
    var idx, n := JoinedPositions(ia, ib, index), |a| - 1;
    forall k | 0 <= k < |idx|
      ensures idx[k] < |t| && r[k] == t[idx[k]]
    {
      if k < n {
        assert r[k] == a[k];
      } else {
        var j := k - n;
        assert r[k] == b[j] && idx[n + j] == ib[j] + index;
      }
    }
  }

  lemma JoinedPositionsIncrease(ia: seq<nat>, ib: seq<nat>, index: nat)
    requires |ia| >= 1 && ia[|ia| - 1] <= index
    requires forall k, l :: 0 <= k < l < |ia| ==> ia[k] < ia[l]
    requires forall k, l :: 0 <= k < l < |ib| ==> ib[k] < ib[l]
    ensures var idx := JoinedPositions(ia, ib, index);
            forall k, l :: 0 <= k < l < |idx| ==> idx[k] < idx[l]
  {
    var idx, n := JoinedPositions(ia, ib, index), |ia| - 1;
    forall k, l | 0 <= k < l < |idx|
      ensures idx[k] < idx[l]
    {
      if l < n {
        assert idx[k] == ia[k] && idx[l] == ia[l];
      } else if k < n {
        assert idx[l] == ib[l - n] + index;
        assert idx[k] == ia[k] < ia[n];
      } else {
        assert idx[n + (k - n)] == ib[k - n] + index;
        assert idx[n + (l - n)] == ib[l - n] + index;
      }
    }
  }

  /** An embedding into t[..index+1] is one into t whose positions are at most index. */
  lemma PrefixEmbedding<T>(t: seq<T>, index: nat, a: seq<T>, ia: seq<nat>)
    requires index < |t| && IsEmbedding(ia, a, t[..index + 1])
    ensures forall k :: 0 <= k < |ia| ==> ia[k] <= index && a[k] == t[ia[k]]
  {
  }

  /** An embedding into t[index..] is one into t once every position is shifted by index. */
  lemma SuffixEmbedding<T>(t: seq<T>, index: nat, b: seq<T>, ib: seq<nat>)
    requires index < |t| && IsEmbedding(ib, b, t[index..])
    ensures forall j :: 0 <= j < |ib| ==> ib[j] + index < |t| && b[j] == t[ib[j] + index]
  {
  }

  /** When no interior point is farther from the chord than the tolerance, only the endpoints remain. */
  lemma WithinToleranceKeepsEndpoints(points: seq<GPointF>, tolerance: real)
    requires tolerance >= 0.0 && |points| >= 2
    requires forall i :: 1 <= i < |points| - 1 ==> ChordDistanceSquared(points, i) <= tolerance * tolerance
    ensures Simplify(points, tolerance) == [points[0], points[|points| - 1]]
  {
    if |points| > 2 {
      var far := Farthest(ChordDistanceSquared, points, |points| - 1);
      FarthestIsMaximal(ChordDistanceSquared, points, |points| - 1);
      assert far.1 != 0 ==> far.0 <= tolerance * tolerance;
      SimplifyWithin(ChordDistanceSquared, points, tolerance);
    }
  }

  /** The same point three times: every point lies on the (degenerate) chord. */
  const RepeatedPoint: seq<GPointF> := [GPointF(0.0, 0.0), GPointF(0.0, 0.0), GPointF(0.0, 0.0)]

  /**
   * With a negative tolerance and every interior point on the chord (here
   * the chord is a single point), the scan
   * keeps index 0 while the distance 0 still exceeds the tolerance, so the
   * second recursive call of `simplify_polyline` receives points[0:], the
   * unchanged input: the recursion never ends.
   */
  lemma NegativeToleranceRecursesOnInput()
    ensures var far := Farthest(ChordDistanceSquared, RepeatedPoint, |RepeatedPoint| - 1);
            far == (0.0, 0) && ExceedsTolerance(far.0, -1.0) && RepeatedPoint[far.1..] == RepeatedPoint
  {
    assert ChordDistanceSquared(RepeatedPoint, 1) == 0.0;
    assert Farthest(ChordDistanceSquared, RepeatedPoint, 1) == (0.0, 0);
  }

  // ---------------------------------------------------------------------------
  // Bounds outline

  /**
   * The closed outline of a rectangle at height z: four corners in drawing
   * order and the first corner again.
   */
  function CreateBoundsCoordinates(bounds: GRectF, height: real := 0.0): (r: seq<(real, real, real)>)
    ensures |r| == 5 && r[0] == r[4]
    ensures forall k :: 0 <= k < 5 ==> r[k].2 == height
    ensures forall k :: 0 <= k < 5 ==>
      (r[k].0 == bounds.left || r[k].0 == bounds.right) && (r[k].1 == bounds.top || r[k].1 == bounds.bottom)
    ensures forall k :: 0 <= k < 4 ==> r[k].0 == r[k + 1].0 || r[k].1 == r[k + 1].1
    ensures forall cx, cy :: cx in {bounds.left, bounds.right} && cy in {bounds.top, bounds.bottom} ==>
      exists k :: 0 <= k < 4 && r[k] == (cx, cy, height)
  {
    var left, top, right, bottom := bounds.left, bounds.top, bounds.right, bounds.bottom;
    var r := [(left, top, height), (right, top, height), (right, bottom, height), (left, bottom, height),
              (left, top, height)];
    assert r[0] == (left, top, height) && r[1] == (right, top, height);
    assert r[2] == (right, bottom, height) && r[3] == (left, bottom, height);
    r
  }

  // ---------------------------------------------------------------------------
  // Ray-casting point in polygon

  /** The vertex before vertex i, wrapping around: the `j` of the scan. */
  function PreviousVertex(n: nat, i: nat): (j: nat)
    requires i < n
    ensures j < n
    ensures i == 0 ==> j == n - 1
    ensures i > 0 ==> j + 1 == i
  {
    if i == 0 then n - 1 else i - 1
  }

  /** The point lies on the horizontal edge a-b (a and b at the point's height, x within their span). */
  predicate OnHorizontalEdge(point: GPointF, a: GPointF, b: GPointF) {
    a.y == b.y && a.y == point.y && Min(a.x, b.x) <= point.x <= Max(a.x, b.x)
  }

  /** The edge a-b straddles the point's height and meets it to the right of the point. */
  predicate CrossesRay(point: GPointF, a: GPointF, b: GPointF) {
    (a.y > point.y) != (b.y > point.y) &&
    point.x < (b.x - a.x) * (point.y - a.y) / (b.y - a.y) + a.x
  }

  /** At edge i the scan answers true at once: the point is one of its vertices or on it, horizontally. */
  predicate HitsEdge(point: GPointF, polygon: seq<GPointF>, i: nat)
    requires i < |polygon|
  {
    var a := polygon[i];
    var b := polygon[PreviousVertex(|polygon|, i)];
    point == a || point == b || OnHorizontalEdge(point, a, b)
  }

  /** The scan over edges i.. with the parity `inside` of the crossings found so far. */
  function RayScan(point: GPointF, polygon: seq<GPointF>, i: nat, inside: bool): bool
    requires i <= |polygon|
    decreases |polygon| - i
  {
    if i == |polygon| then inside
    else if HitsEdge(point, polygon, i) then true
    else
      var crosses := CrossesRay(point, polygon[i], polygon[PreviousVertex(|polygon|, i)]);
      RayScan(point, polygon, i + 1, if crosses then !inside else inside)
  }

  /** `is_point_in_polygon`: fewer than three vertices is never inside. */
  function PointInPolygon(point: GPointF, polygon: seq<GPointF>): (r: bool)
    ensures |polygon| < 3 ==> !r
  {
    if |polygon| < 3 then false else RayScan(point, polygon, 0, false)
  }

  /** The loop of `is_point_in_polygon`, with its early returns. */
  method IsPointInPolygon(point: GPointF, polygon: seq<GPointF>) returns (r: bool)
    ensures r == PointInPolygon(point, polygon)
  {
    if |polygon| < 3 {
      return false;
    }
    var inside := false;
    var j := |polygon| - 1;
    for i := 0 to |polygon|
      invariant j == if i == 0 then |polygon| - 1 else i - 1
      invariant RayScan(point, polygon, i, inside) == PointInPolygon(point, polygon)
    {
      if point == polygon[i] || point == polygon[j] {
        return true;
      }
      if OnHorizontalEdge(point, polygon[i], polygon[j]) {
        return true;
      }
      if CrossesRay(point, polygon[i], polygon[j]) {
        inside := !inside;
      }
      j := i;
    }
    return inside;
  }

  /** A scan that still has to pass edge v, where the point is hit, answers true. */
  lemma {:induction false} ScanReachesHit(point: GPointF, polygon: seq<GPointF>, i: nat, inside: bool, v: nat)
    requires i <= v < |polygon| && HitsEdge(point, polygon, v)
    ensures RayScan(point, polygon, i, inside)
    decreases v - i
  {
    if i < v && !HitsEdge(point, polygon, i) {
      var crosses := CrossesRay(point, polygon[i], polygon[PreviousVertex(|polygon|, i)]);
      ScanReachesHit(point, polygon, i + 1, if crosses then !inside else inside, v);
    }
  }

  /** A query point equal to a vertex of a polygon with at least three vertices is inside. */
  lemma VertexIsInside(point: GPointF, polygon: seq<GPointF>, v: nat)
    requires 3 <= |polygon| && v < |polygon| && polygon[v] == point
    ensures PointInPolygon(point, polygon)
  {
    ScanReachesHit(point, polygon, 0, false, v);
  }

  /** A query point on the span of a horizontal edge (vertex v-1 to vertex v) is inside. */
  lemma HorizontalEdgeIsInside(point: GPointF, polygon: seq<GPointF>, v: nat)
    requires 3 <= |polygon| && v < |polygon|
    requires OnHorizontalEdge(point, polygon[v], polygon[PreviousVertex(|polygon|, v)])
    ensures PointInPolygon(point, polygon)
  {
    ScanReachesHit(point, polygon, 0, false, v);
  }

  /** The number of edges i.. that cross the ray from the point. */
  function CrossingCount(point: GPointF, polygon: seq<GPointF>, i: nat): nat
    requires i <= |polygon|
    decreases |polygon| - i
  {
    if i == |polygon| then 0
    else
      var rest := CrossingCount(point, polygon, i + 1);
      if CrossesRay(point, polygon[i], polygon[PreviousVertex(|polygon|, i)]) then rest + 1 else rest
  }

  /**
   * The even-odd rule: when no edge is hit, the point is inside exactly when
   * the ray from it crosses an odd number of edges.
   */
  lemma InsideIsOddCrossings(point: GPointF, polygon: seq<GPointF>)
    requires 3 <= |polygon|
    requires forall i :: 0 <= i < |polygon| ==> !HitsEdge(point, polygon, i)
    ensures PointInPolygon(point, polygon) <==> CrossingCount(point, polygon, 0) % 2 == 1
  {
    ScanCountsParity(point, polygon, 0, false);
  }

  lemma {:induction false} ScanCountsParity(point: GPointF, polygon: seq<GPointF>, i: nat, inside: bool)
    requires i <= |polygon|
    requires forall k :: i <= k < |polygon| ==> !HitsEdge(point, polygon, k)
    ensures RayScan(point, polygon, i, inside) <==> (inside <==> CrossingCount(point, polygon, i) % 2 == 0)
    decreases |polygon| - i
  {
    if i < |polygon| {
      var crosses := CrossesRay(point, polygon[i], polygon[PreviousVertex(|polygon|, i)]);
      var next := if crosses then !inside else inside;
      ScanCountsParity(point, polygon, i + 1, next);
      assert !HitsEdge(point, polygon, i);
      assert RayScan(point, polygon, i, inside) == RayScan(point, polygon, i + 1, next);
      var rest := CrossingCount(point, polygon, i + 1);
      assert CrossingCount(point, polygon, i) == if crosses then rest + 1 else rest;
      assert (rest + 1) % 2 == 0 <==> rest % 2 != 0;
    }
  }

  // ---------------------------------------------------------------------------
  // Colour and coordinate text

  /** Python's `int` of a float: truncation toward zero. */
  function Trunc(x: real): (n: int)
    ensures x >= 0.0 ==> n >= 0 && n as real <= x < n as real + 1.0
    ensures x < 0.0 ==> n <= 0 && n as real - 1.0 < x <= n as real
  {
    if x >= 0.0 then x.Floor else -((-x).Floor)
  }

  /**
   * Python's `:02x`: lower-case hexadecimal padded with zeros to two
   * characters, the sign (if any) counted in the width.
   */
  function Hex2(n: int): (s: string)
    ensures 0 <= n < 256 ==> |s| == 2 && AllDigits(s, 16) && DigitsValue(s, 16) == n
    ensures n < 0 ==> |s| >= 2 && s[0] == '-' && AllDigits(s[1..], 16) && DigitsValue(s[1..], 16) == -n
  {
    if n >= 0 then
      TwoDigitsSuffice(n, 16);
      ZeroPadded(n, 16, 2)
    else
      var digits := ZeroPadded(-n, 16, 1);
      assert ("-" + digits)[1..] == digits;
      "-" + digits
  }

  lemma TwoDigitsSuffice(n: nat, base: nat)
    requires 2 <= base <= 16
    ensures n < base * base ==> |DigitString(n, base)| <= 2
  {
    if base <= n < base * base {
      assert n / base < base;
    }
  }

  predicate InUnit(c: real) {
    0.0 <= c <= 1.0
  }

  /**
   * `hex_from_rgba`: "#" and the three channels r, g, b, each int(c * 255)
   * (truncated, not rounded) as two hex digits; alpha is not used.
   */
  function HexFromRgba(rgba: (real, real, real, real)): (s: string)
    ensures |s| >= 1 && s[0] == '#'
    ensures InUnit(rgba.0) && InUnit(rgba.1) && InUnit(rgba.2) ==>
      |s| == 7 &&
      AllDigits(s[1..3], 16) && DigitsValue(s[1..3], 16) == Trunc(rgba.0 * 255.0) &&
      AllDigits(s[3..5], 16) && DigitsValue(s[3..5], 16) == Trunc(rgba.1 * 255.0) &&
      AllDigits(s[5..7], 16) && DigitsValue(s[5..7], 16) == Trunc(rgba.2 * 255.0)
  {
    HexColor(rgba.0, rgba.1, rgba.2)
  }

  /**
   * The colour text for three channels: for channels in [0, 1], "#" and six
   * hex digits, each pair spelling the truncated channel times 255.
   */
  function HexColor(r: real, g: real, b: real): (s: string)
    ensures |s| >= 1 && s[0] == '#'
    ensures InUnit(r) && InUnit(g) && InUnit(b) ==>
      |s| == 7 &&
      AllDigits(s[1..3], 16) && DigitsValue(s[1..3], 16) == Trunc(r * 255.0) &&
      AllDigits(s[3..5], 16) && DigitsValue(s[3..5], 16) == Trunc(g * 255.0) &&
      AllDigits(s[5..7], 16) && DigitsValue(s[5..7], 16) == Trunc(b * 255.0)
  {
    var vr, vg, vb := Trunc(r * 255.0), Trunc(g * 255.0), Trunc(b * 255.0);
    var text := "#" + Hex2(vr) + Hex2(vg) + Hex2(vb);
    if InUnit(r) && InUnit(g) && InUnit(b) then
      HexPairs(Hex2(vr), Hex2(vg), Hex2(vb), vr, vg, vb);
      text
    else
      text
  }

  lemma HexPairs(r: string, g: string, b: string, vr: nat, vg: nat, vb: nat)
    requires |r| == |g| == |b| == 2 && AllDigits(r, 16) && AllDigits(g, 16) && AllDigits(b, 16)
    requires DigitsValue(r, 16) == vr && DigitsValue(g, 16) == vg && DigitsValue(b, 16) == vb
    ensures var s := "#" + r + g + b;
      |s| == 7 &&
      AllDigits(s[1..3], 16) && DigitsValue(s[1..3], 16) == vr &&
      AllDigits(s[3..5], 16) && DigitsValue(s[3..5], 16) == vg &&
      AllDigits(s[5..7], 16) && DigitsValue(s[5..7], 16) == vb
  {
    var s := "#" + r + g + b;
    assert s[1..3] == r && s[3..5] == g && s[5..7] == b;
  }

  lemma HexLayout(r: string, g: string, b: string)
    requires |r| == |g| == |b| == 2 && AllDigits(r, 16) && AllDigits(g, 16) && AllDigits(b, 16)
    ensures var s := "#" + r + g + b;
      |s| == 7 && s[0] == '#' && AllDigits(s[1..], 16) && s[1..3] == r && s[3..5] == g && s[5..7] == b
  {
    var s := "#" + r + g + b;
    assert s[1..3] == r && s[3..5] == g && s[5..7] == b;
    forall k | 0 <= k < 6 ensures DigitValue(s[1..][k]) < 16 {
      if k < 2 { assert s[1..][k] == r[k]; }
      else if k < 4 { assert s[1..][k] == g[k - 2]; }
      else { assert s[1..][k] == b[k - 4]; }
    }
  }

  /** The channel is truncated: half a step below the next value stays on the lower one. */
  lemma HexFromRgbaTruncates()
    ensures HexFromRgba((0.5, 0.5, 0.5, 1.0)) == "#7f7f7f"
  {
    assert Trunc(0.5 * 255.0) == 127;
    assert DigitString(127, 16) == DigitString(7, 16) + [DigitChar(15)];
    assert Hex2(127) == "7f";
  }

  /** Python's round-half-to-even of a non-negative value, as fixed-point formatting rounds. */
  function RoundHalfEven(x: real): (n: nat)
    requires x >= 0.0
    ensures x - 0.5 <= n as real <= x + 0.5
    ensures (n as real - x == 0.5 || x - n as real == 0.5) ==> n % 2 == 0
  {
    var f := x.Floor;
    var frac := x - f as real;
    if frac < 0.5 then f
    else if frac > 0.5 then f + 1
    else if f % 2 == 0 then f
    else f + 1
  }

  /**
   * `f"{value:.{precision}f}"`: a minus sign for a negative value, then the
   * magnitude scaled by 10^precision and rounded, written out by
   * FixedPointBody.
   */
  function FixedPoint(value: real, precision: nat): (s: string)
    ensures |s| >= precision + 1
  {
    var body := FixedPointBody(ScaledMagnitude(value, precision), precision);
    if value < 0.0 then "-" + body else body
  }

  /** The sign comes first, exactly for negative values, and the rest is the unsigned text. */
  lemma FixedPointSign(value: real, precision: nat)
    ensures var s := FixedPoint(value, precision);
      |s| >= 1 && ((value < 0.0) <==> s[0] == '-') &&
      (if value < 0.0 then s[1..] else s) == FixedPointBody(ScaledMagnitude(value, precision), precision)
  {
    var body := FixedPointBody(ScaledMagnitude(value, precision), precision);
    FixedPointBodyShape(ScaledMagnitude(value, precision), precision);
    if value < 0.0 {
      assert ("-" + body)[1..] == body;
    }
  }

  /** |value| * 10^precision rounded half to even: the integer the digits spell. */
  function ScaledMagnitude(value: real, precision: nat): (n: nat)
    ensures Abs(value) * Power(10, precision) as real - 0.5 <= n as real <= Abs(value) * Power(10, precision) as real + 0.5
  {
    RoundHalfEven(Abs(value) * Power(10, precision) as real)
  }

  /**
   * The unsigned part of a fixed-point text: at least one integer digit and,
   * when precision > 0, a '.' followed by exactly `precision` digits; the
   * digits, read without the point, are `magnitude`.
   */
  function FixedPointBody(magnitude: nat, precision: nat): (s: string)
    ensures |s| >= precision + 1
  {
    var digits := ZeroPadded(magnitude, 10, precision + 1);
    if precision == 0 then digits else InsertPoint(digits, precision)
  }

  lemma FixedPointBodyShape(magnitude: nat, precision: nat)
    ensures var s := FixedPointBody(magnitude, precision);
      && s[0] != '-'
      && (precision > 0 ==> s[|s| - precision - 1] == '.')
      && (forall k :: 0 <= k < |s| && (precision == 0 || k != |s| - precision - 1) ==> DigitValue(s[k]) < 10)
      && AllDigits(DropChar(s, '.'), 10) && DigitsValue(DropChar(s, '.'), 10) == magnitude
  {
    var digits := ZeroPadded(magnitude, 10, precision + 1);
    if precision == 0 {
      NoDigitIsPoint(digits);
    } else {
      InsertPointShape(digits, precision);
    }
  }

  /** A digit string with a '.' placed before its last `precision` digits. */
  function InsertPoint(digits: string, precision: nat): (s: string)
    requires |digits| > precision > 0
    ensures |s| == |digits| + 1
  {
    var k := |digits| - precision;
    digits[..k] + "." + digits[k..]
  }

  lemma InsertPointShape(digits: string, precision: nat)
    requires |digits| > precision > 0 && AllDigits(digits, 10)
    ensures var s := InsertPoint(digits, precision);
      && s[|s| - precision - 1] == '.'
      && (forall k :: 0 <= k < |s| && k != |s| - precision - 1 ==> DigitValue(s[k]) < 10)
      && DropChar(s, '.') == digits
  {
    var k := |digits| - precision;
    InsertPointDigits(digits, k);
    DropPointOfInsert(digits, k);
  }

  lemma InsertPointDigits(digits: string, k: nat)
    requires k <= |digits| && AllDigits(digits, 10)
    ensures var s := digits[..k] + "." + digits[k..];
      forall i :: 0 <= i < |s| && i != k ==> DigitValue(s[i]) < 10
  {
    var s := digits[..k] + "." + digits[k..];
    forall i | 0 <= i < |s| && i != k ensures DigitValue(s[i]) < 10 {
      if i < k { assert s[i] == digits[i]; } else { assert s[i] == digits[i - 1]; }
    }
  }

  lemma DropPointOfInsert(digits: string, k: nat)
    requires k <= |digits| && AllDigits(digits, 10)
    ensures DropChar(digits[..k] + "." + digits[k..], '.') == digits
  {
    DropCharOfJoin(digits[..k] + ".", digits[k..], '.');
    DropCharOfJoin(digits[..k], ".", '.');
    NoDigitIsPoint(digits[..k]);
    NoDigitIsPoint(digits[k..]);
    assert DropChar(".", '.') == [] by {
      assert "."[..0] == [];
    }
    assert digits[..k] + digits[k..] == digits;
  }

  /** s with every occurrence of c removed. */
  function DropChar(s: string, c: char): (r: string)
    ensures |r| <= |s|
  {
    if s == [] then []
    else DropChar(s[..|s| - 1], c) + (if s[|s| - 1] == c then [] else [s[|s| - 1]])
  }

  lemma {:induction false} DropCharOfJoin(a: string, b: string, c: char)
    ensures DropChar(a + b, c) == DropChar(a, c) + DropChar(b, c)
    decreases |b|
  {
    if b != [] {
      var init := b[..|b| - 1];
      DropCharOfJoin(a, init, c);
      assert (a + b)[..|a + b| - 1] == a + init;
    } else {
      assert a + b == a;
    }
  }

  lemma {:induction false} NoDigitIsPoint(s: string)
    requires AllDigits(s, 10)
    ensures DropChar(s, '.') == s
    decreases |s|
  {
    if s != [] {
      NoDigitIsPoint(s[..|s| - 1]);
      assert s[..|s| - 1] + [s[|s| - 1]] == s;
    }
  }

  /**
   * What a fixed-point text denotes: its digits, read without sign and
   * point, are within half a unit of |value| * 10^precision, the sign is
   * present exactly for negative values, and precision > 0 puts exactly
   * `precision` digits after the point.
   */
  lemma FixedPointDenotes(value: real, precision: nat)
    ensures var s := FixedPoint(value, precision);
            var unsigned := if value < 0.0 then s[1..] else s;
            (s[0] == '-' <==> value < 0.0) &&
            AllDigits(DropChar(unsigned, '.'), 10) &&
            DigitsValue(DropChar(unsigned, '.'), 10) == ScaledMagnitude(value, precision) &&
            (precision > 0 ==> unsigned[|unsigned| - precision - 1] == '.')
    ensures var s := FixedPoint(value, precision);
            var unsigned := if value < 0.0 then s[1..] else s;
            |unsigned| >= precision + 1 &&
            var whole := IntegerPart(unsigned, precision);
            |whole| >= 1 && (whole[0] == '0' ==> whole == "0")
  {
    FixedPointSign(value, precision);
    FixedPointBodyShape(ScaledMagnitude(value, precision), precision);
    FixedPointBodyWhole(ScaledMagnitude(value, precision), precision);
  }

  /** The digits before the point (all of them when precision is 0). */
  function IntegerPart(unsigned: string, precision: nat): string
    requires |unsigned| >= precision + 1
  {
    if precision > 0 then unsigned[..|unsigned| - precision - 1] else unsigned
  }

  /** The integer part of a fixed-point body has no superfluous leading zero. */
  lemma FixedPointBodyWhole(magnitude: nat, precision: nat)
    ensures var s := FixedPointBody(magnitude, precision);
      var whole := IntegerPart(s, precision);
      |whole| >= 1 && (whole[0] == '0' ==> whole == "0")
  {
    var digits := ZeroPadded(magnitude, 10, precision + 1);
    PaddedLeadingZero(magnitude, precision + 1);
    var s := FixedPointBody(magnitude, precision);
    if precision > 0 {
      var k := |digits| - precision;
      assert s == digits[..k] + "." + digits[k..];
      assert IntegerPart(s, precision) == digits[..k];
    }
  }

  /** A zero-padded numeral starts with '0' only when it is exactly the padding width. */
  lemma PaddedLeadingZero(n: nat, width: nat)
    requires width >= 1
    ensures var d := ZeroPadded(n, 10, width); d[0] == '0' ==> |d| == width
  {
    var ds := DigitString(n, 10);
    if |ds| > width {
      assert ZeroPadded(n, 10, width) == ds;
    }
  }

  /** A character of a numeral: a decimal digit, the sign or the point. */
  predicate NumeralChar(c: char) {
    DigitValue(c) < 10 || c == '-' || c == '.'
  }

  /** Fixed-point text consists of digits, a leading sign and the point. */
  lemma FixedPointChars(value: real, precision: nat)
    ensures var s := FixedPoint(value, precision);
      forall k :: 0 <= k < |s| ==> NumeralChar(s[k])
  {
    var body := FixedPointBody(ScaledMagnitude(value, precision), precision);
    FixedPointBodyShape(ScaledMagnitude(value, precision), precision);
    assert forall k :: 0 <= k < |body| ==> NumeralChar(body[k]);
    if value < 0.0 {
      SignedNumeral(body);
    }
  }

  lemma SignedNumeral(body: string)
    requires forall k :: 0 <= k < |body| ==> NumeralChar(body[k])
    ensures forall k :: 0 <= k < |"-" + body| ==> NumeralChar(("-" + body)[k])
  {
    forall k | 0 <= k < |"-" + body| ensures NumeralChar(("-" + body)[k]) {
      if k > 0 { assert ("-" + body)[k] == body[k - 1]; }
    }
  }

  /** s with every c replaced by d. */
  function ReplaceChar(s: string, c: char, d: char): (r: string)
    ensures |r| == |s|
    ensures forall k :: 0 <= k < |s| ==> r[k] == if s[k] == c then d else s[k]
  {
    seq(|s|, k requires 0 <= k < |s| => if s[k] == c then d else s[k])
  }

  /** `format_coordinate`: fixed-point text, with ',' for '.' when use_comma. */
  function FormatCoordinate(value: real, precision: nat, useComma: bool): (s: string)
    ensures |s| == |FixedPoint(value, precision)|
    ensures useComma ==> forall k :: 0 <= k < |s| ==> s[k] != '.'
    ensures !useComma ==> s == FixedPoint(value, precision)
  {
    var formatted := FixedPoint(value, precision);
    if useComma then ReplaceChar(formatted, '.', ',') else formatted
  }

  /** The comma form is the point form with its separator changed: changing it back recovers it. */
  lemma CommaFormRoundTrip(value: real, precision: nat)
    ensures ReplaceChar(FormatCoordinate(value, precision, true), ',', '.') == FormatCoordinate(value, precision, false)
  {
    var f := FixedPoint(value, precision);
    FixedPointHasNoComma(value, precision);
    ReplaceCharUndone(f, '.', ',');
  }

  lemma FixedPointHasNoComma(value: real, precision: nat)
    ensures forall k :: 0 <= k < |FixedPoint(value, precision)| ==> FixedPoint(value, precision)[k] != ','
  {
    FixedPointChars(value, precision);
  }

  /** Replacing c by d and then d by c restores a text in which d did not occur. */
  lemma ReplaceCharUndone(s: string, c: char, d: char)
    requires forall k :: 0 <= k < |s| ==> s[k] != d
    ensures ReplaceChar(ReplaceChar(s, c, d), d, c) == s
  {
  }
}
