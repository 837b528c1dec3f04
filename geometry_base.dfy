/**
 * Geometric value types of the minimap pipeline: 2D/3D vectors, output-space
 * points, sizes and axis-aligned rectangles, plus the bounding box of a point list.
 * Every operation returns a fresh value; nothing is updated in place.
 */
module GeometryBase {
  import opened Wrappers

  /** Tolerance of every approximate comparison (EPSILON). */
  const Epsilon: real := 0.000001

  function Abs(x: real): real { if x < 0.0 then -x else x }
  function Min(a: real, b: real): real { if b < a then b else a }
  function Max(a: real, b: real): real { if b > a then b else a }

  /** A world-space 2D vector. Equality is component-wise within Epsilon. */
  datatype Vector2 = Vector2(x: real, y: real) {

    predicate ApproxEq(other: Vector2) {
      Abs(x - other.x) < Epsilon && Abs(y - other.y) < Epsilon
    }

    function LengthSquared(): (r: real)
      ensures r >= 0.0
    {
      x * x + y * y
    }

    /** The square of the Euclidean distance the source's `distance_to` returns. */
    function DistanceSquaredTo(other: Vector2): (r: real)
      ensures r >= 0.0
    {
      (x - other.x) * (x - other.x) + (y - other.y) * (y - other.y)
    }

    function Dot(other: Vector2): real {
      x * other.x + y * other.y
    }

    /** The vector rotated a quarter turn counter-clockwise. */
    function Perpendicular(): (r: Vector2)
      ensures r.Dot(this) == 0.0
      ensures r.LengthSquared() == LengthSquared()
    {
      Vector2(-y, x)
    }

    /**
     * The unit vector in the same direction; `length` is this vector's length
     * (the square root the source computes), and a vector shorter than Epsilon
     * gives the zero vector.
     */
    function Normalize(length: real): (r: Vector2)
      requires length >= 0.0 && length * length == LengthSquared()
      ensures length < Epsilon ==> r == Vector2(0.0, 0.0)
      ensures length >= Epsilon ==> r.LengthSquared() == 1.0
      ensures length >= Epsilon ==> r.x * length == x && r.y * length == y
    {
      if length < Epsilon then Vector2(0.0, 0.0)
      else
        var r := Vector2(x / length, y / length);
        assert r.LengthSquared() * (length * length) == LengthSquared();
        r
    }
  }

  /** A 3D vector of the editor's or the game world's space. */
  datatype Vector3 = Vector3(x: real, y: real, z: real) {

    predicate ApproxEq(other: Vector3) {
      Abs(x - other.x) < Epsilon && Abs(y - other.y) < Epsilon && Abs(z - other.z) < Epsilon
    }

    function Add(other: Vector3): Vector3 {
      Vector3(x + other.x, y + other.y, z + other.z)
    }

    function Sub(other: Vector3): (r: Vector3)
      ensures r.Add(other) == this
    {
      Vector3(x - other.x, y - other.y, z - other.z)
    }

    function Scale(s: real): Vector3 {
      Vector3(x * s, y * s, z * s)
    }

    function Dot(other: Vector3): real {
      x * other.x + y * other.y + z * other.z
    }

    /** The cross product, orthogonal to both of its factors. */
    function Cross(other: Vector3): (r: Vector3)
      ensures r.Dot(this) == 0.0 && r.Dot(other) == 0.0
    {
      Vector3(y * other.z - z * other.y, z * other.x - x * other.z, x * other.y - y * other.x)
    }

    function LengthSquared(): (r: real)
      ensures r >= 0.0
    {
      x * x + y * y + z * z
    }

    /**
     * The unit vector in the same direction; `length` is this vector's length.
     * Below Epsilon the zero vector is returned instead of dividing.
     */
    function Normalize(length: real): (r: Vector3)
      requires length >= 0.0 && length * length == LengthSquared()
      ensures length < Epsilon ==> r == Vector3(0.0, 0.0, 0.0)
      ensures length >= Epsilon ==> r.LengthSquared() == 1.0
      ensures length >= Epsilon ==> r.x * length == x && r.y * length == y && r.z * length == z
    {
      if length < Epsilon then Vector3(0.0, 0.0, 0.0)
      else
        var inv := 1.0 / length;
        var r := Vector3(x * inv, y * inv, z * inv);
        assert r.LengthSquared() == LengthSquared() * (inv * inv);
        assert inv * inv * (length * length) == 1.0;
        r
    }

    /** Drops the third component. */
    function ToVector2(): (r: Vector2)
      ensures r.x == x && r.y == y
    {
      Vector2(x, y)
    }
  }

  /** An output-space point (after every transform). */
  datatype GPointF = GPointF(x: real, y: real) {

    predicate ApproxEq(other: GPointF) {
      Abs(x - other.x) < Epsilon && Abs(y - other.y) < Epsilon
    }

    function ToVector2(): Vector2 {
      Vector2(x, y)
    }

    /** The square of the Euclidean distance the source's `distance_to` returns. */
    function DistanceSquaredTo(other: GPointF): (r: real)
      ensures r >= 0.0
    {
      var dx := x - other.x;
      var dy := y - other.y;
      dx * dx + dy * dy
    }
  }

  /**
   * Point distance is symmetric, is zero from a point to itself, and agrees
   * with the distance of the corresponding vectors.
   */
  lemma DistanceSquaredIsMetric(p: GPointF, q: GPointF)
    ensures p.DistanceSquaredTo(q) == q.DistanceSquaredTo(p)
    ensures p.DistanceSquaredTo(p) == 0.0
    ensures p.DistanceSquaredTo(q) == p.ToVector2().DistanceSquaredTo(q.ToVector2())
  {
    var dx, dy := p.x - q.x, p.y - q.y;
    assert (q.x - p.x) * (q.x - p.x) == dx * dx;
    assert (q.y - p.y) * (q.y - p.y) == dy * dy;
  }

  /** Epsilon equality is reflexive and symmetric but not transitive. */
  lemma ApproxEqIsNotTransitive()
    ensures GPointF(0.0, 0.0).ApproxEq(GPointF(0.0000006, 0.0))
    ensures GPointF(0.0000006, 0.0).ApproxEq(GPointF(0.0000012, 0.0))
    ensures !GPointF(0.0, 0.0).ApproxEq(GPointF(0.0000012, 0.0))
  {
  }

  datatype GSizeF = GSizeF(width: real, height: real) {

    function Area(): real {
      width * height
    }

    /** width / height, or 0 when the height is within Epsilon of zero. */
    function AspectRatio(): (r: real)
      ensures Abs(height) < Epsilon ==> r == 0.0
      ensures Abs(height) >= Epsilon ==> r * height == width
    {
      if Abs(height) < Epsilon then 0.0 else width / height
    }
  }

  /**
   * An axis-aligned rectangle. `left <= right` and `top <= bottom` is a soft
   * invariant: an inverted rectangle is representable and has width/height 0.
   */
  datatype GRectF = GRectF(left: real, top: real, right: real, bottom: real) {

    function Width(): (r: real)
      ensures r >= 0.0
      ensures left <= right ==> r == right - left
      ensures left > right ==> r == 0.0
    {
      Max(0.0, right - left)
    }

    function Height(): (r: real)
      ensures r >= 0.0
      ensures top <= bottom ==> r == bottom - top
      ensures top > bottom ==> r == 0.0
    {
      Max(0.0, bottom - top)
    }

    function Size(): (r: GSizeF)
      ensures r.width >= 0.0 && r.height >= 0.0
    {
      GSizeF(Width(), Height())
    }

    /** The midpoint of the rectangle; equidistant from opposite edges. */
    function Center(): (r: GPointF)
      ensures r.x - left == right - r.x && r.y - top == bottom - r.y
    {
      GPointF((left + right) * 0.5, (top + bottom) * 0.5)
    }

    function Area(): (r: real)
      ensures r >= 0.0
    {
      Width() * Height()
    }

    /** Closed containment: points on the boundary are inside; an inverted rectangle contains nothing. */
    predicate ContainsPoint(p: GPointF)
      ensures ContainsPoint(p) ==> IsValid()
    {
      left <= p.x <= right && top <= p.y <= bottom
    }

    /**
     * Closed overlap: sharing a point implies overlapping, and two valid
     * rectangles that overlap share a point (touching edges count).
     */
    predicate Overlaps(other: GRectF)
      ensures forall p :: ContainsPoint(p) && other.ContainsPoint(p) ==> Overlaps(other)
      ensures IsValid() && other.IsValid() && Overlaps(other) ==>
        exists p :: ContainsPoint(p) && other.ContainsPoint(p)
    {
      var corner := GPointF(Max(left, other.left), Max(top, other.top));
      assert (IsValid() && other.IsValid() && left <= other.right && other.left <= right &&
              top <= other.bottom && other.top <= bottom) ==>
             ContainsPoint(corner) && other.ContainsPoint(corner);
      left <= other.right && other.left <= right && top <= other.bottom && other.top <= bottom
    }

    /** The smallest rectangle whose edges enclose both rectangles' edges. */
    function Union(other: GRectF): (r: GRectF)
      ensures r.left <= left && r.left <= other.left && (r.left == left || r.left == other.left)
      ensures r.top <= top && r.top <= other.top && (r.top == top || r.top == other.top)
      ensures r.right >= right && r.right >= other.right && (r.right == right || r.right == other.right)
      ensures r.bottom >= bottom && r.bottom >= other.bottom && (r.bottom == bottom || r.bottom == other.bottom)
    {
      GRectF(Min(left, other.left), Min(top, other.top), Max(right, other.right), Max(bottom, other.bottom))
    }

    /**
     * The common part of two rectangles, or the canonical empty rectangle
     * GRectF(0, 0, 0, 0) when they are disjoint.
     */
    function Intersection(other: GRectF): (r: GRectF)
      ensures !Overlaps(other) ==> r == GRectF(0.0, 0.0, 0.0, 0.0)
      ensures r == GRectF(0.0, 0.0, 0.0, 0.0) || (r.IsValid() &&
        r.left >= left && r.left >= other.left && r.right <= right && r.right <= other.right &&
        r.top >= top && r.top >= other.top && r.bottom <= bottom && r.bottom <= other.bottom)
      ensures IsValid() && other.IsValid() && Overlaps(other) ==>
        forall p :: r.ContainsPoint(p) <==> ContainsPoint(p) && other.ContainsPoint(p)
    {
      var l := Max(left, other.left);
      var t := Max(top, other.top);
      var rt := Min(right, other.right);
      var b := Min(bottom, other.bottom);
      if l > rt || t > b then GRectF(0.0, 0.0, 0.0, 0.0) else GRectF(l, t, rt, b)
    }

    /**
     * Edges in order: exactly when width and height are the plain edge
     * differences.
     */
    predicate IsValid()
      ensures IsValid() <==> Width() == right - left && Height() == bottom - top
    {
      left <= right && top <= bottom
    }

    /** The same rectangle with its edges reordered so that it is valid. */
    function Normalized(): (r: GRectF)
      ensures r.IsValid()
      ensures {r.left, r.right} == {left, right} && {r.top, r.bottom} == {top, bottom}
    {
      GRectF(Min(left, right), Min(top, bottom), Max(left, right), Max(top, bottom))
    }

    /**
     * Scales the rectangle about its center; `sy` defaults to `sx` (the
     * source's `sy=None`).
     */
    function Scale(sx: real, sy: Option<real> := None): (r: GRectF)
      ensures r.Center() == Center()
      ensures r.right - r.left == (right - left) * sx
      ensures r.bottom - r.top == (bottom - top) * sy.GetOr(sx)
    {
      var fy := if sy.None? then sx else sy.value;
      var cx := (left + right) * 0.5;
      var cy := (top + bottom) * 0.5;
      var hw := (right - left) * 0.5 * sx;
      var hh := (bottom - top) * 0.5 * fy;
      GRectF(cx - hw, cy - hh, cx + hw, cy + hh)
    }
  }

  /** Overlap does not depend on the order of the two rectangles. */
  lemma OverlapsIsSymmetric(a: GRectF, b: GRectF)
    ensures a.Overlaps(b) <==> b.Overlaps(a)
  {
  }

  lemma UnionCommutes(a: GRectF, b: GRectF)
    ensures a.Union(b) == b.Union(a)
  {
  }

  lemma UnionContainsBoth(a: GRectF, b: GRectF, p: GPointF)
    ensures a.ContainsPoint(p) || b.ContainsPoint(p) ==> a.Union(b).ContainsPoint(p)
  {
  }

  lemma NormalizedIsIdempotent(a: GRectF)
    ensures a.Normalized().Normalized() == a.Normalized()
  {
  }

  // ---------------------------------------------------------------------------
  // Bounding box of a point list

  function Xs(points: seq<GPointF>): (r: seq<real>)
    ensures |r| == |points| && forall i :: 0 <= i < |points| ==> r[i] == points[i].x
  {
    seq(|points|, i requires 0 <= i < |points| => points[i].x)
  }

  function Ys(points: seq<GPointF>): (r: seq<real>)
    ensures |r| == |points| && forall i :: 0 <= i < |points| ==> r[i] == points[i].y
  {
    seq(|points|, i requires 0 <= i < |points| => points[i].y)
  }

  /** Python's `min` over a generator: scans left to right, keeping the first minimum. */
  function ScanMin(xs: seq<real>): (m: real)
    requires xs != []
    ensures m in xs && forall x :: x in xs ==> m <= x
  {
    if |xs| == 1 then xs[0]
    else
      var init := xs[..|xs| - 1];
      assert xs == init + [xs[|xs| - 1]];
      var m := ScanMin(init);
      if xs[|xs| - 1] < m then xs[|xs| - 1] else m
  }

  /** Python's `max` over a generator: scans left to right, keeping the first maximum. */
  function ScanMax(xs: seq<real>): (m: real)
    requires xs != []
    ensures m in xs && forall x :: x in xs ==> x <= m
  {
    if |xs| == 1 then xs[0]
    else
      var init := xs[..|xs| - 1];
      assert xs == init + [xs[|xs| - 1]];
      var m := ScanMax(init);
      if xs[|xs| - 1] > m then xs[|xs| - 1] else m
  }

  /** A vectorised reduction (as `np.min` performs): the minima of both halves, combined. */
  function PairwiseMin(xs: seq<real>): (m: real)
    requires xs != []
    ensures m in xs && forall x :: x in xs ==> m <= x
  {
    if |xs| == 1 then xs[0]
    else
      var h := |xs| / 2;
      assert xs == xs[..h] + xs[h..];
      Min(PairwiseMin(xs[..h]), PairwiseMin(xs[h..]))
  }

  /** A vectorised reduction (as `np.max` performs): the maxima of both halves, combined. */
  function PairwiseMax(xs: seq<real>): (m: real)
    requires xs != []
    ensures m in xs && forall x :: x in xs ==> x <= m
  {
    if |xs| == 1 then xs[0]
    else
      var h := |xs| / 2;
      assert xs == xs[..h] + xs[h..];
      Max(PairwiseMax(xs[..h]), PairwiseMax(xs[h..]))
  }

  /** Point count above which the source switches to the vectorised reduction. */
  const VectorisedThreshold: nat := 100

  /**
   * The bounding rectangle of a point list: GRectF() for no points, otherwise
   * the tightest rectangle containing all of them.
   */
  function CalculateBounds(points: seq<GPointF>): (r: GRectF)
    ensures points == [] ==> r == GRectF(0.0, 0.0, 0.0, 0.0)
    ensures points != [] ==> r.IsValid() && forall i :: 0 <= i < |points| ==> r.ContainsPoint(points[i])
    ensures points != [] ==> r.left in Xs(points) && r.right in Xs(points) &&
                             r.top in Ys(points) && r.bottom in Ys(points)
  {
    if points == [] then GRectF(0.0, 0.0, 0.0, 0.0)
    else
      var xs, ys := Xs(points), Ys(points);
      var r := if |points| > VectorisedThreshold
        then GRectF(PairwiseMin(xs), PairwiseMin(ys), PairwiseMax(xs), PairwiseMax(ys))
        else GRectF(ScanMin(xs), ScanMin(ys), ScanMax(xs), ScanMax(ys));
      ExtremaContainAll(points, r);
      r
  }

  lemma ExtremaContainAll(points: seq<GPointF>, r: GRectF)
    requires points != []
    requires forall x :: x in Xs(points) ==> r.left <= x <= r.right
    requires forall y :: y in Ys(points) ==> r.top <= y <= r.bottom
    ensures r.IsValid() && forall i :: 0 <= i < |points| ==> r.ContainsPoint(points[i])
  {
    assert Xs(points)[0] in Xs(points) && Ys(points)[0] in Ys(points);
    forall i | 0 <= i < |points| ensures r.ContainsPoint(points[i]) {
      assert Xs(points)[i] in Xs(points) && Ys(points)[i] in Ys(points);
    }
  }

  /** Both reduction paths of CalculateBounds give the same rectangle. */
  lemma BoundsPathsAgree(points: seq<GPointF>)
    requires points != []
    ensures GRectF(PairwiseMin(Xs(points)), PairwiseMin(Ys(points)), PairwiseMax(Xs(points)), PairwiseMax(Ys(points)))
         == GRectF(ScanMin(Xs(points)), ScanMin(Ys(points)), ScanMax(Xs(points)), ScanMax(Ys(points)))
  {
    var xs, ys := Xs(points), Ys(points);
    LeastIsUnique(xs, PairwiseMin(xs), ScanMin(xs));
    LeastIsUnique(ys, PairwiseMin(ys), ScanMin(ys));
    GreatestIsUnique(xs, PairwiseMax(xs), ScanMax(xs));
    GreatestIsUnique(ys, PairwiseMax(ys), ScanMax(ys));
  }

  lemma LeastIsUnique(xs: seq<real>, a: real, b: real)
    requires a in xs && b in xs
    requires forall x :: x in xs ==> a <= x
    requires forall x :: x in xs ==> b <= x
    ensures a == b
  {
  }

  lemma GreatestIsUnique(xs: seq<real>, a: real, b: real)
    requires a in xs && b in xs
    requires forall x :: x in xs ==> x <= a
    requires forall x :: x in xs ==> x <= b
    ensures a == b
  {
  }

  /** The edges of non-empty bounds are the scanned minima and maxima, whichever path ran. */
  lemma BoundsAreScanned(points: seq<GPointF>)
    requires points != []
    ensures CalculateBounds(points) == GRectF(ScanMin(Xs(points)), ScanMin(Ys(points)), ScanMax(Xs(points)), ScanMax(Ys(points)))
  {
    if |points| > VectorisedThreshold {
      BoundsPathsAgree(points);
    }
  }

  lemma CoordinatesOfConcatenation(a: seq<GPointF>, b: seq<GPointF>)
    ensures Xs(a + b) == Xs(a) + Xs(b) && Ys(a + b) == Ys(a) + Ys(b)
  {
  }

  lemma ScanMinOfConcatenation(xs: seq<real>, ys: seq<real>)
    requires xs != [] && ys != []
    ensures ScanMin(xs + ys) == Min(ScanMin(xs), ScanMin(ys))
  {
    var m := Min(ScanMin(xs), ScanMin(ys));
    assert m in xs + ys;
    forall x | x in xs + ys ensures m <= x { }
    LeastIsUnique(xs + ys, ScanMin(xs + ys), m);
  }

  lemma ScanMaxOfConcatenation(xs: seq<real>, ys: seq<real>)
    requires xs != [] && ys != []
    ensures ScanMax(xs + ys) == Max(ScanMax(xs), ScanMax(ys))
  {
    var m := Max(ScanMax(xs), ScanMax(ys));
    assert m in xs + ys;
    forall x | x in xs + ys ensures x <= m { }
    GreatestIsUnique(xs + ys, ScanMax(xs + ys), m);
  }

  /** The bounds of a concatenation are the union of the bounds of its parts. */
  lemma BoundsOfConcatenation(a: seq<GPointF>, b: seq<GPointF>)
    requires a != [] && b != []
    ensures CalculateBounds(a + b) == CalculateBounds(a).Union(CalculateBounds(b))
  {
    BoundsAreScanned(a);
    BoundsAreScanned(b);
    BoundsAreScanned(a + b);
    CoordinatesOfConcatenation(a, b);
    ScanMinOfConcatenation(Xs(a), Xs(b));
    ScanMinOfConcatenation(Ys(a), Ys(b));
    ScanMaxOfConcatenation(Xs(a), Xs(b));
    ScanMaxOfConcatenation(Ys(a), Ys(b));
  }
}
