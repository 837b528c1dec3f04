/**
 * The 2x3 affine transformation matrix of the output pipeline. The implied
 * third row is always [0, 0, 1]. `Affine` holds the six entries and carries
 * the pure algebra; `GMatrix2D` is the mutable object whose `M` field the
 * `append_*`, `invert` and `set_identity` operations reassign.
 */
module GeometryMatrix {
  import opened Wrappers
  import opened GeometryBase

  /**
   * The rows [a, b, tx] and [c, d, ty] of a 2D affine map:
   * (x, y) |-> (a*x + b*y + tx, c*x + d*y + ty).
   */
  datatype Affine = Affine(a: real, b: real, tx: real, c: real, d: real, ty: real) {

    /** The image of a point (the source's `transform`). */
    function Apply(p: GPointF): GPointF {
      GPointF(a * p.x + b * p.y + tx, c * p.x + d * p.y + ty)
    }

    /** The determinant of the linear part; the translation plays no role. */
    function Det(): real {
      a * d - b * c
    }
  }

  const Identity: Affine := Affine(1.0, 0.0, 0.0, 0.0, 1.0, 0.0)

  function Scaling(sx: real, sy: real): Affine {
    Affine(sx, 0.0, 0.0, 0.0, sy, 0.0)
  }

  function Translation(tx: real, ty: real): Affine {
    Affine(1.0, 0.0, tx, 0.0, 1.0, ty)
  }

  /**
   * The product m1 * m2 of the two 3x3 matrices (third rows [0, 0, 1]),
   * cut back to its first two rows: m2 acts on a point first, then m1.
   */
  function Compose(m1: Affine, m2: Affine): (r: Affine)
    ensures forall p :: r.Apply(p) == m1.Apply(m2.Apply(p))
  {
    var r := Affine(m1.a * m2.a + m1.b * m2.c, m1.a * m2.b + m1.b * m2.d, m1.a * m2.tx + m1.b * m2.ty + m1.tx,
                    m1.c * m2.a + m1.d * m2.c, m1.c * m2.b + m1.d * m2.d, m1.c * m2.tx + m1.d * m2.ty + m1.ty);
    assert forall p :: r.Apply(p) == m1.Apply(m2.Apply(p)) by {
      forall p: GPointF ensures r.Apply(p) == m1.Apply(m2.Apply(p)) {
        ProductActsInTurn(m1, m2, r, p);
      }
    }
    r
  }

  lemma ProductActsInTurn(m1: Affine, m2: Affine, r: Affine, p: GPointF)
    requires r == Affine(m1.a * m2.a + m1.b * m2.c, m1.a * m2.b + m1.b * m2.d, m1.a * m2.tx + m1.b * m2.ty + m1.tx,
                         m1.c * m2.a + m1.d * m2.c, m1.c * m2.b + m1.d * m2.d, m1.c * m2.tx + m1.d * m2.ty + m1.ty)
    ensures r.Apply(p) == m1.Apply(m2.Apply(p))
  {
    var q := m2.Apply(p);
    assert m1.Apply(q).x == m1.a * (m2.a * p.x + m2.b * p.y + m2.tx) + m1.b * (m2.c * p.x + m2.d * p.y + m2.ty) + m1.tx;
    assert m1.Apply(q).y == m1.c * (m2.a * p.x + m2.b * p.y + m2.tx) + m1.d * (m2.c * p.x + m2.d * p.y + m2.ty) + m1.ty;
  }

  /** The identity matrix leaves every point where it is. */
  lemma IdentityFixesPoints(p: GPointF)
    ensures Identity.Apply(p) == p
  {
  }

  /** The identity is neutral on both sides of a product. */
  lemma IdentityIsNeutral(m: Affine)
    ensures Compose(Identity, m) == m && Compose(m, Identity) == m
  {
  }

  /**
   * Appending a translation and then a scaling to the identity maps p to
   * (sx*p.x + tx, sy*p.y + ty): the operation appended last acts first.
   */
  lemma AppendedOperationsActFirst(tx: real, ty: real, sx: real, sy: real, p: GPointF)
    ensures Compose(Compose(Identity, Translation(tx, ty)), Scaling(sx, sy)).Apply(p)
         == GPointF(sx * p.x + tx, sy * p.y + ty)
  {
  }

  /** The determinant of a product is the product of the determinants. */
  lemma DetOfCompose(m1: Affine, m2: Affine)
    ensures Compose(m1, m2).Det() == m1.Det() * m2.Det()
  {
    var r := Compose(m1, m2);
    calc {
      r.Det();
      (m1.a * m2.a + m1.b * m2.c) * (m1.c * m2.b + m1.d * m2.d)
        - (m1.a * m2.b + m1.b * m2.d) * (m1.c * m2.a + m1.d * m2.c);
      (m1.a * m1.d - m1.b * m1.c) * (m2.a * m2.d - m2.b * m2.c);
    }
  }

  /** Appending a scaling multiplies the determinant by sx*sy. */
  lemma AppendScalingScalesDet(m: Affine, sx: real, sy: real)
    ensures Compose(m, Scaling(sx, sy)).Det() == m.Det() * (sx * sy)
  {
    DetOfCompose(m, Scaling(sx, sy));
  }

  /** Appending a translation leaves the determinant unchanged. */
  lemma AppendTranslationKeepsDet(m: Affine, tx: real, ty: real)
    ensures Compose(m, Translation(tx, ty)).Det() == m.Det()
  {
  }

  /** The inverse of a non-singular matrix (numpy's `linalg.inv` of the 3x3 matrix). */
  function Inverse(m: Affine): (r: Affine)
    requires m.Det() != 0.0
    ensures forall p :: r.Apply(m.Apply(p)) == p
    ensures forall p :: m.Apply(r.Apply(p)) == p
  {
    var det := m.Det();
    var r := Affine(m.d / det, -m.b / det, (m.b * m.ty - m.d * m.tx) / det,
                    -m.c / det, m.a / det, (m.c * m.tx - m.a * m.ty) / det);
    InverseIsLeftInverse(m, r);
    InverseIsRightInverse(m, r);
    r
  }

  lemma InverseIsLeftInverse(m: Affine, r: Affine)
    requires m.Det() != 0.0
    requires r == Affine(m.d / m.Det(), -m.b / m.Det(), (m.b * m.ty - m.d * m.tx) / m.Det(),
                         -m.c / m.Det(), m.a / m.Det(), (m.c * m.tx - m.a * m.ty) / m.Det())
    ensures forall p :: r.Apply(m.Apply(p)) == p
  {
    var det := m.Det();
    forall p: GPointF ensures r.Apply(m.Apply(p)) == p {
      var q := m.Apply(p);
      assert r.Apply(q).x * det == m.d * q.x - m.b * q.y + (m.b * m.ty - m.d * m.tx);
      assert m.d * q.x - m.b * q.y + (m.b * m.ty - m.d * m.tx) == p.x * det;
      assert r.Apply(q).y * det == -m.c * q.x + m.a * q.y + (m.c * m.tx - m.a * m.ty);
      assert -m.c * q.x + m.a * q.y + (m.c * m.tx - m.a * m.ty) == p.y * det;
    }
  }

  lemma InverseIsRightInverse(m: Affine, r: Affine)
    requires m.Det() != 0.0
    requires r == Affine(m.d / m.Det(), -m.b / m.Det(), (m.b * m.ty - m.d * m.tx) / m.Det(),
                         -m.c / m.Det(), m.a / m.Det(), (m.c * m.tx - m.a * m.ty) / m.Det())
    ensures forall p :: m.Apply(r.Apply(p)) == p
  {
    forall p: GPointF ensures m.Apply(r.Apply(p)) == p {
      RightInverseX(m, r, p);
      RightInverseY(m, r, p);
    }
  }

  lemma RightInverseX(m: Affine, r: Affine, p: GPointF)
    requires m.Det() != 0.0
    requires r == Affine(m.d / m.Det(), -m.b / m.Det(), (m.b * m.ty - m.d * m.tx) / m.Det(),
                         -m.c / m.Det(), m.a / m.Det(), (m.c * m.tx - m.a * m.ty) / m.Det())
    ensures m.Apply(r.Apply(p)).x == p.x
  {
    InverseRowX(m.a, m.b, m.c, m.d, m.tx, m.ty, m.Det(), p.x, p.y);
  }

  lemma RightInverseY(m: Affine, r: Affine, p: GPointF)
    requires m.Det() != 0.0
    requires r == Affine(m.d / m.Det(), -m.b / m.Det(), (m.b * m.ty - m.d * m.tx) / m.Det(),
                         -m.c / m.Det(), m.a / m.Det(), (m.c * m.tx - m.a * m.ty) / m.Det())
    ensures m.Apply(r.Apply(p)).y == p.y
  {
    InverseRowY(m.a, m.b, m.c, m.d, m.tx, m.ty, m.Det(), p.x, p.y);
  }

  /** The first coordinate of the matrix applied after the inverse, entry by entry. */
  lemma InverseRowX(a: real, b: real, c: real, d: real, tx: real, ty: real, k: real, x: real, y: real)
    requires k == a * d - b * c && k != 0.0
    ensures a * (d / k * x + -b / k * y + (b * ty - d * tx) / k)
            + b * (-c / k * x + a / k * y + (c * tx - a * ty) / k) + tx == x
  {
    var qx := d / k * x + -b / k * y + (b * ty - d * tx) / k;
    var qy := -c / k * x + a / k * y + (c * tx - a * ty) / k;
    ScaledBack(d, -b, b * ty - d * tx, x, y, k);
    ScaledBack(-c, a, c * tx - a * ty, x, y, k);
    Distribute(a, b, tx, qx, qy, k);
    AdjugateRow(a, b, c, d, tx, ty, x, y);
    CancelNonZero(a * qx + b * qy + tx, x, k);
  }

  /** The second coordinate of the matrix applied after the inverse, entry by entry. */
  lemma InverseRowY(a: real, b: real, c: real, d: real, tx: real, ty: real, k: real, x: real, y: real)
    requires k == a * d - b * c && k != 0.0
    ensures c * (d / k * x + -b / k * y + (b * ty - d * tx) / k)
            + d * (-c / k * x + a / k * y + (c * tx - a * ty) / k) + ty == y
  {
    var qx := d / k * x + -b / k * y + (b * ty - d * tx) / k;
    var qy := -c / k * x + a / k * y + (c * tx - a * ty) / k;
    ScaledBack(d, -b, b * ty - d * tx, x, y, k);
    ScaledBack(-c, a, c * tx - a * ty, x, y, k);
    Distribute(c, d, ty, qx, qy, k);
    AdjugateColumn(a, b, c, d, tx, ty, x, y);
    CancelNonZero(c * qx + d * qy + ty, y, k);
  }

  /** A row of the inverse, multiplied by the determinant, is the matching adjugate row. */
  lemma ScaledBack(u: real, v: real, w: real, x: real, y: real, k: real)
    requires k != 0.0
    ensures (u / k * x + v / k * y + w / k) * k == u * x + v * y + w
  {
  }

  lemma Distribute(u: real, v: real, w: real, x: real, y: real, k: real)
    ensures (u * x + v * y + w) * k == u * (x * k) + v * (y * k) + w * k
  {
  }

  /** The first row of the matrix times the adjugate gives x times the determinant. */
  lemma AdjugateRow(a: real, b: real, c: real, d: real, tx: real, ty: real, x: real, y: real)
    ensures a * (d * x + -b * y + (b * ty - d * tx)) + b * (-c * x + a * y + (c * tx - a * ty)) + tx * (a * d - b * c)
         == x * (a * d - b * c)
  {
  }

  /** The second row of the matrix times the adjugate gives y times the determinant. */
  lemma AdjugateColumn(a: real, b: real, c: real, d: real, tx: real, ty: real, x: real, y: real)
    ensures c * (d * x + -b * y + (b * ty - d * tx)) + d * (-c * x + a * y + (c * tx - a * ty)) + ty * (a * d - b * c)
         == y * (a * d - b * c)
  {
  }

  lemma CancelNonZero(x: real, y: real, k: real)
    requires k != 0.0 && x * k == y * k
    ensures x == y
  {
    assert (x - y) * k == 0.0;
  }

  /** The image of each point, one per input and in input order. */
  function TransformPoints(m: Affine, points: seq<GPointF>): (r: seq<GPointF>)
    ensures |r| == |points|
    ensures forall i :: 0 <= i < |points| ==> r[i] == m.Apply(points[i])
  {
    if points == [] then [] else [m.Apply(points[0])] + TransformPoints(m, points[1..])
  }

  /** The corners of a rectangle, clockwise from (left, top). */
  function Corners(rect: GRectF): seq<GPointF> {
    [GPointF(rect.left, rect.top), GPointF(rect.right, rect.top),
     GPointF(rect.right, rect.bottom), GPointF(rect.left, rect.bottom)]
  }

  /**
   * The axis-aligned rectangle enclosing the four transformed corners: it is
   * valid, contains each of them, and each of its edges is a corner's coordinate.
   */
  function TransformRect(m: Affine, rect: GRectF): (r: GRectF)
    ensures r.IsValid()
    ensures forall k :: 0 <= k < 4 ==> r.ContainsPoint(m.Apply(Corners(rect)[k]))
    ensures var images := TransformPoints(m, Corners(rect));
            r.left in Xs(images) && r.right in Xs(images) && r.top in Ys(images) && r.bottom in Ys(images)
  {
    CalculateBounds(TransformPoints(m, Corners(rect)))
  }

  /** A translation moves a valid rectangle without changing its shape. */
  lemma TransformRectOfTranslation(tx: real, ty: real, rect: GRectF)
    requires rect.IsValid()
    ensures TransformRect(Translation(tx, ty), rect)
         == GRectF(rect.left + tx, rect.top + ty, rect.right + tx, rect.bottom + ty)
  {
    var images := TranslatedCorners(tx, ty, rect);
    var r := TransformRect(Translation(tx, ty), rect);
    assert r == CalculateBounds(images);
    EnclosingRectOfCorners(images, GRectF(rect.left + tx, rect.top + ty, rect.right + tx, rect.bottom + ty), r);
  }

  lemma TranslatedCorners(tx: real, ty: real, rect: GRectF) returns (images: seq<GPointF>)
    ensures images == TransformPoints(Translation(tx, ty), Corners(rect))
    ensures images == Corners(GRectF(rect.left + tx, rect.top + ty, rect.right + tx, rect.bottom + ty))
  {
    images := TransformPoints(Translation(tx, ty), Corners(rect));
  }

  /** The bounds of the corners of a valid rectangle are that rectangle. */
  lemma EnclosingRectOfCorners(images: seq<GPointF>, rect: GRectF, r: GRectF)
    requires rect.IsValid() && images == Corners(rect)
    requires r == CalculateBounds(images)
    ensures r == rect
  {
    var xs, ys := Xs(images), Ys(images);
    assert xs == [rect.left, rect.right, rect.right, rect.left];
    assert ys == [rect.top, rect.top, rect.bottom, rect.bottom];
    assert r.ContainsPoint(images[0]) && r.ContainsPoint(images[2]);
  }

  /**
   * `invert` as written: a non-singular matrix is replaced by its inverse and
   * True is returned, but the singular branch assigns to an undefined name
   * `result`, so the call fails with a NameError instead of returning.
   */
  function InvertAsWritten(m: Affine): (r: Result<(bool, Affine), string>)
    ensures r.Success? <==> m.Det() != 0.0
    ensures r.Success? ==> r.value.0 && forall p :: r.value.1.Apply(m.Apply(p)) == p
  {
    if m.Det() != 0.0 then Success((true, Inverse(m)))
    else Failure("NameError: name 'result' is not defined")
  }

  /** The zero scaling is singular, and inverting it as written raises instead of returning False. */
  lemma InvertAsWrittenRaisesOnZeroScaling()
    ensures InvertAsWritten(Scaling(0.0, 0.0)).Failure?
  {
  }

  /** A 2-D numpy array: every row has the same length. */
  type Array2D = rows: seq<seq<real>> | forall i, j :: 0 <= i < |rows| && 0 <= j < |rows| ==> |rows[i]| == |rows[j]|

  function Shape(rows: Array2D): (nat, nat) {
    (|rows|, if rows == [] then 0 else |rows[0]|)
  }

  /**
   * The matrix read from a 3x3 array (its first two rows; the third row is
   * ignored) or a 2x3 array; any other shape is rejected.
   */
  function AffineFromArray(rows: Array2D): (r: Result<Affine, string>)
    ensures r.Success? <==> Shape(rows) == (3, 3) || Shape(rows) == (2, 3)
    ensures r.Success? ==> r.value == Affine(rows[0][0], rows[0][1], rows[0][2],
                                             rows[1][0], rows[1][1], rows[1][2])
  {
    if Shape(rows) == (3, 3) || Shape(rows) == (2, 3) then
      Success(Affine(rows[0][0], rows[0][1], rows[0][2], rows[1][0], rows[1][1], rows[1][2]))
    else
      Failure("Incompatible matrix shape")
  }

  /** A 2x3 affine transformation whose matrix the operations below update in place. */
  class GMatrix2D {
    var M: Affine

    /** A new matrix is the identity. */
    constructor()
      ensures M == Identity
    {
      M := Identity;
    }

    /** Post-multiplies by a scaling; `sy` defaults to `sx`. */
    method AppendScaling(sx: real, sy: Option<real> := None)
      modifies this
      ensures M == Compose(old(M), Scaling(sx, sy.GetOr(sx)))
    {
      var fy := if sy.None? then sx else sy.value;
      M := Compose(M, Scaling(sx, fy));
    }

    /** Post-multiplies by a translation. */
    method AppendTranslation(tx: real, ty: real)
      modifies this
      ensures M == Compose(old(M), Translation(tx, ty))
    {
      M := Compose(M, Translation(tx, ty));
    }

    /** The image of a point; an invertible matrix's inverse brings it back. */
    function Transform(p: GPointF): (r: GPointF)
      reads this
      ensures M.Det() != 0.0 ==> Inverse(M).Apply(r) == p
    {
      M.Apply(p)
    }

    /**
     * Replaces the matrix by its inverse and returns true; a singular matrix
     * is reset to the identity and false is returned.
     */
    method Invert() returns (ok: bool)
      modifies this
      ensures ok <==> old(M).Det() != 0.0
      ensures ok ==> forall p :: M.Apply(old(M).Apply(p)) == p && old(M).Apply(M.Apply(p)) == p
      ensures !ok ==> M == Identity
    {
      if M.Det() != 0.0 {
        M := Inverse(M);
        ok := true;
      } else {
        M := Identity;
        ok := false;
      }
    }

    method Copy() returns (r: GMatrix2D)
      ensures fresh(r) && r.M == M
    {
      r := new GMatrix2D();
      r.M := M;
    }

    method SetIdentity()
      modifies this
      ensures M == Identity
    {
      M := Identity;
    }

    /**
     * The determinant of the linear part: the signed area of the image of
     * the unit square, spanned by the images of (1, 0) and (0, 1) seen from
     * the image of the origin.
     */
    function Determinant(): (r: real)
      reads this
      ensures var o, ex, ey := M.Apply(GPointF(0.0, 0.0)), M.Apply(GPointF(1.0, 0.0)), M.Apply(GPointF(0.0, 1.0));
        r == (ex.x - o.x) * (ey.y - o.y) - (ex.y - o.y) * (ey.x - o.x)
    {
      M.Det()
    }

    /** The translation entries: where the origin is mapped. */
    function GetTranslation(): (r: (real, real))
      reads this
      ensures r == (Transform(GPointF(0.0, 0.0)).x, Transform(GPointF(0.0, 0.0)).y)
    {
      (M.tx, M.ty)
    }

    /**
     * The identity with its translation entries set, the same matrix as
     * appending that translation to the identity.
     */
    static method CreateTranslation(tx: real, ty: real) returns (r: GMatrix2D)
      ensures fresh(r)
      ensures r.M == Compose(Identity, Translation(tx, ty))
      ensures r.GetTranslation() == (tx, ty)
    {
      r := new GMatrix2D();
      r.M := r.M.(tx := tx, ty := ty);
      IdentityIsNeutral(Translation(tx, ty));
    }

    /** The identity with its diagonal set; `sy` defaults to `sx`. */
    static method CreateScale(sx: real, sy: Option<real> := None) returns (r: GMatrix2D)
      ensures fresh(r)
      ensures r.M == Compose(Identity, Scaling(sx, sy.GetOr(sx)))
    {
      var fy := if sy.None? then sx else sy.value;
      r := new GMatrix2D();
      r.M := r.M.(a := sx, d := fy);
      IdentityIsNeutral(Scaling(sx, fy));
    }

    /** The product this * other as a new matrix: `other` acts first. */
    method Mul(other: GMatrix2D) returns (r: GMatrix2D)
      ensures fresh(r)
      ensures forall p :: r.M.Apply(p) == M.Apply(other.M.Apply(p))
      ensures r.M == Compose(M, other.M)
    {
      r := new GMatrix2D();
      r.M := Compose(M, other.M);
    }

    /** A new matrix read from a 3x3 or 2x3 array; other shapes are an error. */
    static method FromArray(rows: Array2D) returns (r: Result<GMatrix2D, string>)
      ensures r.Success? <==> AffineFromArray(rows).Success?
      ensures r.Success? ==> fresh(r.value) && r.value.M == AffineFromArray(rows).value
    {
      var parsed := AffineFromArray(rows);
      if parsed.Success? {
        var m := new GMatrix2D();
        m.M := parsed.value;
        r := Success(m);
      } else {
        r := Failure(parsed.error);
      }
    }
  }
}
