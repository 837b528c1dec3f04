/**
 * The curve processor: flattens the splines of selected curve objects into
 * M/L/C path segments, collects their anchor points and style settings,
 * computes bounds, shifts everything by a normalisation offset, floors the
 * dimensions and simplifies runs of line points.
 */
module CurveProcessor {
  import opened Wrappers
  import opened GeometryBase
  import opened ObjectProperties
  import GeometryUtils

  // ---------------------------------------------------------------------------
  // Data model

  /** A path segment: its command ("M", "L", "C" or anything else) and its points. */
  datatype Segment = Segment(kind: string, points: seq<GPointF>)

  type Spline = seq<Segment>

  /** The splines of one curve object. */
  type ObjectCurves = seq<Spline>

  type Rgba = (real, real, real, real)

  /**
   * The two rows of an object's world matrix that give x and y: the model
   * keeps the projection to the plane the minimap is drawn in.
   */
  datatype WorldMatrix = WorldMatrix(xRow: (real, real, real, real), yRow: (real, real, real, real)) {
    /** `matrix @ v`, keeping x and y. */
    function Project(v: Vector3): GPointF {
      GPointF(xRow.0 * v.x + xRow.1 * v.y + xRow.2 * v.z + xRow.3,
              yRow.0 * v.x + yRow.1 * v.y + yRow.2 * v.z + yRow.3)
    }
  }

  /** A control point of a Bezier spline: the anchor and its two handles. */
  datatype BezierPoint = BezierPoint(co: Vector3, handleLeft: Vector3, handleRight: Vector3)

  /** A spline of a curve object; every type other than Bezier is read as a poly spline. */
  datatype SplineSource =
    | BezierSpline(bezierPoints: seq<BezierPoint>, cyclic: bool)
    | PolySpline(points: seq<Vector3>, cyclic: bool)

  /** A selected editor object. */
  datatype CurveObject = CurveObject(name: string, objType: string, matrix: WorldMatrix,
                                     splines: seq<SplineSource>, props: PropertyMap)

  /** The style of one exported object. */
  datatype CurveSettings = CurveSettings(name: string, fillPreset: string, useFill: bool, fillColor: Rgba,
                                         useStroke: bool, strokeColor: Rgba, strokeWidth: real)

  /**
   * The curve-data dictionary. `bounds` and `center` are optional because the
   * consumers check for their keys; `curvesInfo` is present only on valid data.
   */
  datatype CurveData = CurveData(valid: bool, curves: seq<ObjectCurves>, bounds: Option<GRectF>,
                                 center: Option<GPointF>, message: string,
                                 curvesInfo: Option<seq<CurveSettings>>)

  /** A Bezier control point after the world transform. */
  datatype ProjectedBezier = ProjectedBezier(co: GPointF, hl: GPointF, hr: GPointF)

  // ---------------------------------------------------------------------------
  // Bezier splines

  function ProjectBezier(matrix: WorldMatrix, p: BezierPoint): ProjectedBezier {
    ProjectedBezier(matrix.Project(p.co), matrix.Project(p.handleLeft), matrix.Project(p.handleRight))
  }

  /** Every control point of a spline under the world transform, in order. */
  function ProjectBeziers(matrix: WorldMatrix, spline: seq<BezierPoint>): (r: seq<ProjectedBezier>)
    ensures |r| == |spline| && forall i :: 0 <= i < |spline| ==> r[i] == ProjectBezier(matrix, spline[i])
  {
    seq(|spline|, i requires 0 <= i < |spline| => ProjectBezier(matrix, spline[i]))
  }

  /** Every point of a poly spline under the world transform, in order. */
  function ProjectPoints(matrix: WorldMatrix, spline: seq<Vector3>): (r: seq<GPointF>)
    ensures |r| == |spline| && forall i :: 0 <= i < |spline| ==> r[i] == matrix.Project(spline[i])
  {
    seq(|spline|, i requires 0 <= i < |spline| => matrix.Project(spline[i]))
  }

  /**
   * The open part of a Bezier spline's path: a move to the first anchor, then
   * for each further point a cubic from the previous point's right handle
   * through this point's left handle to this anchor.
   */
  function OpenBezierSegments(pts: seq<ProjectedBezier>): (r: Spline)
    ensures |r| == |pts|
    ensures pts != [] ==> r[0] == Segment("M", [pts[0].co])
    ensures forall i :: 1 <= i < |pts| ==> r[i] == Segment("C", [pts[i - 1].hr, pts[i].hl, pts[i].co])
  {
    if |pts| <= 1 then (if pts == [] then [] else [Segment("M", [pts[0].co])])
    else
      var n := |pts|;
      OpenBezierSegments(pts[..n - 1]) + [Segment("C", [pts[n - 2].hr, pts[n - 1].hl, pts[n - 1].co])]
  }

  /** The whole path of a Bezier spline: the open part and, when cyclic, one closing cubic. */
  function BezierSegments(pts: seq<ProjectedBezier>, cyclic: bool): (r: Spline)
    ensures pts == [] ==> r == []
    ensures pts != [] ==> |r| == |pts| + (if cyclic then 1 else 0)
    ensures forall i :: 0 <= i < |pts| ==> r[i] == OpenBezierSegments(pts)[i]
    ensures pts != [] && cyclic ==>
      r[|r| - 1] == Segment("C", [pts[|pts| - 1].hr, pts[0].hl, pts[0].co])
  {
    if pts == [] then []
    else OpenBezierSegments(pts) + (if cyclic then [Segment("C", [pts[|pts| - 1].hr, pts[0].hl, pts[0].co])] else [])
  }

  /** The anchors of a point list, in order. */
  function Anchors(pts: seq<ProjectedBezier>): (r: seq<GPointF>)
    ensures |r| == |pts| && forall i :: 0 <= i < |pts| ==> r[i] == pts[i].co
  {
    seq(|pts|, i requires 0 <= i < |pts| => pts[i].co)
  }

  /**
   * `_process_bezier_spline`: appends the spline's segments to `splinePoints`
   * and its anchors (once each, never the closing repeat) to `allPoints`.
   */
  method ProcessBezierSpline(spline: seq<BezierPoint>, cyclic: bool, matrix: WorldMatrix,
                             splinePoints: Spline, allPoints: seq<GPointF>)
    returns (newSplinePoints: Spline, newAllPoints: seq<GPointF>)
    ensures newSplinePoints == splinePoints + BezierSegments(ProjectBeziers(matrix, spline), cyclic)
    ensures newAllPoints == allPoints + Anchors(ProjectBeziers(matrix, spline))
  {
    if spline == [] {
      return splinePoints, allPoints;
    }
    var transformed := TransformBeziers(matrix, spline);
    newSplinePoints, newAllPoints := AppendOpenBezier(transformed, splinePoints, allPoints);
    if cyclic {
      var first, last := transformed[0], transformed[|transformed| - 1];
      newSplinePoints := newSplinePoints + [Segment("C", [last.hr, first.hl, first.co])];
    }
  }

  /** The first pass of `_process_bezier_spline`: every point, with its handles, projected. */
  method TransformBeziers(matrix: WorldMatrix, spline: seq<BezierPoint>) returns (transformed: seq<ProjectedBezier>)
    ensures transformed == ProjectBeziers(matrix, spline)
  {
    ghost var pts := ProjectBeziers(matrix, spline);
    transformed := [];
    for i := 0 to |spline|
      invariant transformed == pts[..i]
    {
      transformed := transformed + [ProjectBezier(matrix, spline[i])];
    }
    assert pts[..|spline|] == pts;
  }

  /**
   * The second pass of `_process_bezier_spline`: a move to the first anchor,
   * then a cubic to each further anchor.
   */
  method AppendOpenBezier(pts: seq<ProjectedBezier>, splinePoints: Spline, allPoints: seq<GPointF>)
    returns (newSplinePoints: Spline, newAllPoints: seq<GPointF>)
    requires pts != []
    ensures newSplinePoints == splinePoints + OpenBezierSegments(pts)
    ensures newAllPoints == allPoints + Anchors(pts)
  {
    var first := pts[0];
    newSplinePoints := splinePoints + [Segment("M", [first.co])];
    newAllPoints := allPoints + [first.co];
    for i := 1 to |pts|
      invariant newSplinePoints == splinePoints + OpenBezierSegments(pts[..i])
      invariant newAllPoints == allPoints + Anchors(pts[..i])
    {
      var prev, curr := pts[i - 1], pts[i];
      newSplinePoints := newSplinePoints + [Segment("C", [prev.hr, curr.hl, curr.co])];
      newAllPoints := newAllPoints + [curr.co];
      BezierPrefixStep(pts, i);
    }
    assert pts[..|pts|] == pts;
  }

  /** One more point of a Bezier spline adds one cubic to its open path and one anchor. */
  lemma BezierPrefixStep(pts: seq<ProjectedBezier>, i: nat)
    requires 1 <= i < |pts|
    ensures OpenBezierSegments(pts[..i + 1]) ==
            OpenBezierSegments(pts[..i]) + [Segment("C", [pts[i - 1].hr, pts[i].hl, pts[i].co])]
    ensures Anchors(pts[..i + 1]) == Anchors(pts[..i]) + [pts[i].co]
  {
    assert pts[..i + 1][..i] == pts[..i];
  }

  // ---------------------------------------------------------------------------
  // Poly splines

  /** A poly spline's open path: a move to the first point and a line to each further point. */
  function OpenPolySegments(pts: seq<GPointF>): (r: Spline)
    ensures |r| == |pts|
    ensures pts != [] ==> r[0] == Segment("M", [pts[0]])
    ensures forall i :: 1 <= i < |pts| ==> r[i] == Segment("L", [pts[i]])
  {
    if |pts| <= 1 then (if pts == [] then [] else [Segment("M", [pts[0]])])
    else OpenPolySegments(pts[..|pts| - 1]) + [Segment("L", [pts[|pts| - 1]])]
  }

  /** The whole path of a poly spline: the open part and, when cyclic, a line back to the first point. */
  function PolySegments(pts: seq<GPointF>, cyclic: bool): (r: Spline)
    ensures pts == [] ==> r == []
    ensures pts != [] ==> |r| == |pts| + (if cyclic then 1 else 0)
    ensures forall i :: 0 <= i < |pts| ==> r[i] == OpenPolySegments(pts)[i]
    ensures pts != [] && cyclic ==> r[|r| - 1] == Segment("L", [pts[0]])
  {
    if pts == [] then [] else OpenPolySegments(pts) + (if cyclic then [Segment("L", [pts[0]])] else [])
  }

  /** One more point of a poly spline adds one line to its open path. */
  lemma PolyPrefixStep(pts: seq<GPointF>, i: nat)
    requires 1 <= i < |pts|
    ensures OpenPolySegments(pts[..i + 1]) == OpenPolySegments(pts[..i]) + [Segment("L", [pts[i]])]
    ensures pts[..i + 1] == pts[..i] + [pts[i]]
  {
    assert pts[..i + 1][..i] == pts[..i];
  }

  /**
   * `_process_poly_spline`: appends the spline's segments to `splinePoints`
   * and each of its points once to `allPoints`.
   */
  method ProcessPolySpline(spline: seq<Vector3>, cyclic: bool, matrix: WorldMatrix,
                           splinePoints: Spline, allPoints: seq<GPointF>)
    returns (newSplinePoints: Spline, newAllPoints: seq<GPointF>)
    ensures newSplinePoints == splinePoints + PolySegments(ProjectPoints(matrix, spline), cyclic)
    ensures newAllPoints == allPoints + ProjectPoints(matrix, spline)
  {
    if spline == [] {
      return splinePoints, allPoints;
    }
    var transformed := TransformPoints(matrix, spline);
    newSplinePoints, newAllPoints := AppendOpenPoly(transformed, splinePoints, allPoints);
    if cyclic {
      newSplinePoints := newSplinePoints + [Segment("L", [transformed[0]])];
    }
  }

  /** The first pass of `_process_poly_spline`: every point projected. */
  method TransformPoints(matrix: WorldMatrix, spline: seq<Vector3>) returns (transformed: seq<GPointF>)
    ensures transformed == ProjectPoints(matrix, spline)
  {
    ghost var pts := ProjectPoints(matrix, spline);
    transformed := [];
    for i := 0 to |spline|
      invariant transformed == pts[..i]
    {
      transformed := transformed + [matrix.Project(spline[i])];
    }
    assert pts[..|spline|] == pts;
  }

  /** The second pass of `_process_poly_spline`: a move to the first point, then a line to each further point. */
  method AppendOpenPoly(pts: seq<GPointF>, splinePoints: Spline, allPoints: seq<GPointF>)
    returns (newSplinePoints: Spline, newAllPoints: seq<GPointF>)
    requires pts != []
    ensures newSplinePoints == splinePoints + OpenPolySegments(pts)
    ensures newAllPoints == allPoints + pts
  {
    var first := pts[0];
    newSplinePoints := splinePoints + [Segment("M", [first])];
    newAllPoints := allPoints + [first];
    for i := 1 to |pts|
      invariant newSplinePoints == splinePoints + OpenPolySegments(pts[..i])
      invariant newAllPoints == allPoints + pts[..i]
    {
      var pt := pts[i];
      newSplinePoints := newSplinePoints + [Segment("L", [pt])];
      newAllPoints := newAllPoints + [pt];
      PolyPrefixStep(pts, i);
    }
    assert pts[..|pts|] == pts;
  }

  // ---------------------------------------------------------------------------
  // Selected curves

  /** The segments and the anchor points one spline contributes. */
  function SplineOutput(s: SplineSource, matrix: WorldMatrix): (r: (Spline, seq<GPointF>))
    ensures r.0 == [] <==> r.1 == []
  {
    match s
    case BezierSpline(bps, cyclic) =>
      var pts := ProjectBeziers(matrix, bps);
      (BezierSegments(pts, cyclic), Anchors(pts))
    case PolySpline(ps, cyclic) =>
      var pts := ProjectPoints(matrix, ps);
      (PolySegments(pts, cyclic), pts)
  }

  /** The splines of an object with at least one segment, and all the object's anchor points. */
  function ObjectOutput(splines: seq<SplineSource>, matrix: WorldMatrix): (r: (ObjectCurves, seq<GPointF>))
    ensures forall k :: 0 <= k < |r.0| ==> r.0[k] != []
    ensures r.0 == [] <==> r.1 == []
  {
    if splines == [] then ([], [])
    else
      var prev := ObjectOutput(splines[..|splines| - 1], matrix);
      var out := SplineOutput(splines[|splines| - 1], matrix);
      (prev.0 + (if out.0 != [] then [out.0] else []), prev.1 + out.1)
  }

  /** The style settings read from an object's properties, with the exporter's defaults. */
  function SettingsOf(obj: CurveObject): (r: CurveSettings)
    ensures r.name == obj.name
    ensures ReadsString(obj.props, "scaleform_fill_preset", "ACCESSIBLE", r.fillPreset)
    ensures ReadsBool(obj.props, "scaleform_use_fill", true, r.useFill)
    ensures ReadsReal(obj.props, "scaleform_fill_color_r", 0.6, r.fillColor.0)
    ensures ReadsReal(obj.props, "scaleform_fill_color_g", 0.6, r.fillColor.1)
    ensures ReadsReal(obj.props, "scaleform_fill_color_b", 0.6, r.fillColor.2)
    ensures ReadsReal(obj.props, "scaleform_fill_color_a", 1.0, r.fillColor.3)
    ensures ReadsBool(obj.props, "scaleform_use_stroke", false, r.useStroke)
    ensures ReadsReal(obj.props, "scaleform_stroke_color_r", 0.25, r.strokeColor.0)
    ensures ReadsReal(obj.props, "scaleform_stroke_color_g", 0.25, r.strokeColor.1)
    ensures ReadsReal(obj.props, "scaleform_stroke_color_b", 0.25, r.strokeColor.2)
    ensures ReadsReal(obj.props, "scaleform_stroke_color_a", 1.0, r.strokeColor.3)
    ensures ReadsReal(obj.props, "scaleform_stroke_width", 0.5, r.strokeWidth)
  {
    var p := obj.props;
    CurveSettings(
      obj.name,
      GetString(p, "scaleform_fill_preset", "ACCESSIBLE"),
      GetBool(p, "scaleform_use_fill", true),
      (GetReal(p, "scaleform_fill_color_r", 0.6), GetReal(p, "scaleform_fill_color_g", 0.6),
       GetReal(p, "scaleform_fill_color_b", 0.6), GetReal(p, "scaleform_fill_color_a", 1.0)),
      GetBool(p, "scaleform_use_stroke", false),
      (GetReal(p, "scaleform_stroke_color_r", 0.25), GetReal(p, "scaleform_stroke_color_g", 0.25),
       GetReal(p, "scaleform_stroke_color_b", 0.25), GetReal(p, "scaleform_stroke_color_a", 1.0)),
      GetReal(p, "scaleform_stroke_width", 0.5))
  }

  /** An object without any custom property gets the default style. */
  lemma DefaultSettings(obj: CurveObject)
    requires obj.props == map[]
    ensures SettingsOf(obj) == CurveSettings(obj.name, "ACCESSIBLE", true, (0.6, 0.6, 0.6, 1.0),
                                             false, (0.25, 0.25, 0.25, 1.0), 0.5)
  {
  }

  /**
   * The object yields at least one anchor point; by
   * ObjectPointsComeFromSplines, exactly when one of its splines has a point.
   */
  predicate HasPoints(obj: CurveObject) {
    ObjectOutput(obj.splines, obj.matrix).1 != []
  }

  /**
   * The curves, anchor points and styles gathered from a list of curve
   * objects; an object contributes only when it has points, and then one
   * curves entry and one style entry.
   */
  function Collected(objects: seq<CurveObject>): (r: (seq<ObjectCurves>, seq<GPointF>, seq<CurveSettings>))
    ensures |r.0| == |r.2|
    ensures forall k :: 0 <= k < |r.0| ==> r.0[k] != []
  {
    if objects == [] then ([], [], [])
    else
      var prev := Collected(objects[..|objects| - 1]);
      var obj := objects[|objects| - 1];
      var out := ObjectOutput(obj.splines, obj.matrix);
      if out.1 != [] then (prev.0 + [out.0], prev.1 + out.1, prev.2 + [SettingsOf(obj)])
      else prev
  }

  /** An object's anchor points are those of its splines but the last, then the last one's. */
  lemma ObjectPointsStep(splines: seq<SplineSource>, matrix: WorldMatrix)
    requires splines != []
    ensures ObjectOutput(splines, matrix).1 ==
            ObjectOutput(splines[..|splines| - 1], matrix).1 + SplineOutput(splines[|splines| - 1], matrix).1
  {
  }

  /** An object has anchor points exactly when one of its splines has. */
  lemma {:induction false} ObjectPointsComeFromSplines(splines: seq<SplineSource>, matrix: WorldMatrix)
    ensures ObjectOutput(splines, matrix).1 != [] <==>
            exists k :: 0 <= k < |splines| && SplineOutput(splines[k], matrix).1 != []
  {
    if splines != [] {
      var init := splines[..|splines| - 1];
      var last := |splines| - 1;
      ObjectPointsComeFromSplines(init, matrix);
      ObjectPointsStep(splines, matrix);
      if ObjectOutput(splines, matrix).1 != [] {
        if SplineOutput(splines[last], matrix).1 == [] {
          var k :| 0 <= k < |init| && SplineOutput(init[k], matrix).1 != [];
          assert splines[k] == init[k];
        }
      } else {
        forall k | 0 <= k < |splines|
          ensures SplineOutput(splines[k], matrix).1 == []
        {
          if k < last {
            assert splines[k] == init[k];
          }
        }
      }
    }
  }

  /** The points gathered from objects but the last, then the last object's when it has any. */
  lemma CollectedPointsStep(objects: seq<CurveObject>)
    requires objects != []
    ensures var obj := objects[|objects| - 1];
            Collected(objects).1 ==
            Collected(objects[..|objects| - 1]).1 + ObjectOutput(obj.splines, obj.matrix).1
  {
  }

  /** Gathered points come from some object that has points. */
  lemma {:induction false} CollectedPointsHaveSource(objects: seq<CurveObject>)
    ensures Collected(objects).1 != [] ==> exists k :: 0 <= k < |objects| && HasPoints(objects[k])
  {
    if objects != [] {
      var init := objects[..|objects| - 1];
      CollectedPointsStep(objects);
      if Collected(objects).1 != [] && !HasPoints(objects[|objects| - 1]) {
        CollectedPointsHaveSource(init);
        var k :| 0 <= k < |init| && HasPoints(init[k]);
        assert objects[k] == init[k];
      }
    }
  }

  /** An object with points makes the gathered points non-empty. */
  lemma {:induction false} SourceGivesCollectedPoints(objects: seq<CurveObject>, k: nat)
    requires k < |objects| && HasPoints(objects[k])
    ensures Collected(objects).1 != []
  {
    var init := objects[..|objects| - 1];
    var obj := objects[|objects| - 1];
    CollectedPointsStep(objects);
    var before, own := Collected(init).1, ObjectOutput(obj.splines, obj.matrix).1;
    if k == |objects| - 1 {
      assert |before + own| >= |own| > 0;
    } else {
      assert init[k] == objects[k];
      SourceGivesCollectedPoints(init, k);
      assert |before + own| >= |before| > 0;
    }
  }

  /** Points are gathered exactly when some object has a spline with points. */
  lemma CollectedPointsComeFromObjects(objects: seq<CurveObject>)
    ensures Collected(objects).1 != [] <==> exists k :: 0 <= k < |objects| && HasPoints(objects[k])
  {
    CollectedPointsHaveSource(objects);
    if k :| 0 <= k < |objects| && HasPoints(objects[k]) {
      SourceGivesCollectedPoints(objects, k);
    }
  }

  /** The selected objects whose type is "CURVE", in order. */
  function CurveObjects(objects: seq<CurveObject>): (r: seq<CurveObject>)
    ensures forall k :: 0 <= k < |r| ==> r[k].objType == "CURVE" && r[k] in objects
    ensures forall o :: o in objects && o.objType == "CURVE" ==> o in r
  {
    if objects == [] then []
    else
      var prev := CurveObjects(objects[..|objects| - 1]);
      var last := objects[|objects| - 1];
      assert forall o :: o in objects ==> o in objects[..|objects| - 1] || o == last;
      if last.objType == "CURVE" then prev + [last] else prev
  }

  // ---------------------------------------------------------------------------
  // Order-preserving filters

  /** `ks` lists positions below `n` in strictly increasing order. */
  ghost predicate IncreasingIndices(ks: seq<nat>, n: nat) {
    (forall k :: 0 <= k < |ks| ==> ks[k] < n) &&
    (forall k, l :: 0 <= k < l < |ks| ==> ks[k] < ks[l])
  }

  /**
   * `out` is the image under `image`, in order, of exactly those elements of
   * `xs` (at positions `ks`) that satisfy `keep`.
   */
  ghost predicate Selects<T, U>(xs: seq<T>, keep: T -> bool, image: T -> U, ks: seq<nat>, out: seq<U>) {
    IncreasingIndices(ks, |xs|) && |out| == |ks| &&
    (forall k :: 0 <= k < |ks| ==> out[k] == image(xs[ks[k]])) &&
    (forall i :: 0 <= i < |xs| ==> (keep(xs[i]) <==> i in ks))
  }

  /** Nothing is selected from nothing. */
  lemma SelectsNothing<T, U>(xs: seq<T>, keep: T -> bool, image: T -> U)
    requires xs == []
    ensures Selects(xs, keep, image, [], [])
  {
  }

  /**
   * Filtering one more element: it is appended (as its image) exactly when
   * kept, and the positions extend by its own.
   */
  lemma SelectsStep<T, U>(xs: seq<T>, keep: T -> bool, image: T -> U, ks: seq<nat>, prev: seq<U>, out: seq<U>)
    returns (ks': seq<nat>)
    requires xs != [] && Selects(xs[..|xs| - 1], keep, image, ks, prev)
    requires out == prev + (if keep(xs[|xs| - 1]) then [image(xs[|xs| - 1])] else [])
    ensures ks' == if keep(xs[|xs| - 1]) then ks + [|xs| - 1] else ks
    ensures Selects(xs, keep, image, ks', out)
  {
    var n := |xs| - 1;
    var init := xs[..n];
    ks' := if keep(xs[n]) then ks + [n] else ks;
    forall k | 0 <= k < |ks'|
      ensures out[k] == image(xs[ks'[k]])
    {
      if k < |ks| {
        assert xs[ks[k]] == init[ks[k]];
      }
    }
    forall i | 0 <= i < |xs|
      ensures keep(xs[i]) <==> i in ks'
    {
      if i < n {
        assert xs[i] == init[i];
        assert i != n;
      }
    }
  }

  /** Whether a spline contributes segments, under the object's matrix. */
  function HasSegments(matrix: WorldMatrix): SplineSource -> bool {
    s => SplineOutput(s, matrix).0 != []
  }

  /** A spline's segments under the object's matrix. */
  function SegmentsOf(matrix: WorldMatrix): SplineSource -> Spline {
    s => SplineOutput(s, matrix).0
  }

  /**
   * The splines an object keeps are exactly those with segments, in their
   * order, each with its own segment list.
   */
  lemma {:induction false} ObjectOutputKeepsSplines(splines: seq<SplineSource>, matrix: WorldMatrix)
    ensures exists ks :: Selects(splines, HasSegments(matrix), SegmentsOf(matrix), ks, ObjectOutput(splines, matrix).0)
  {
    if splines == [] {
      SelectsNothing(splines, HasSegments(matrix), SegmentsOf(matrix));
      assert Selects(splines, HasSegments(matrix), SegmentsOf(matrix), [], ObjectOutput(splines, matrix).0);
    } else {
      var init := splines[..|splines| - 1];
      ObjectOutputKeepsSplines(init, matrix);
      var ks :| Selects(init, HasSegments(matrix), SegmentsOf(matrix), ks, ObjectOutput(init, matrix).0);
      var ks' := SelectsStep(splines, HasSegments(matrix), SegmentsOf(matrix), ks,
                             ObjectOutput(init, matrix).0, ObjectOutput(splines, matrix).0);
    }
  }

  /** An object's kept splines. */
  function CurvesOf(obj: CurveObject): ObjectCurves {
    ObjectOutput(obj.splines, obj.matrix).0
  }

  /**
   * The gathered curves and styles are those of exactly the objects with
   * points, in object order, one entry each and at the same positions.
   */
  lemma {:induction false} CollectedGathers(objects: seq<CurveObject>)
    ensures exists ks ::
      Selects(objects, HasPoints, CurvesOf, ks, Collected(objects).0) &&
      Selects(objects, HasPoints, SettingsOf, ks, Collected(objects).2)
  {
    if objects == [] {
      SelectsNothing(objects, HasPoints, CurvesOf);
      SelectsNothing(objects, HasPoints, SettingsOf);
      assert Selects(objects, HasPoints, CurvesOf, [], Collected(objects).0) &&
             Selects(objects, HasPoints, SettingsOf, [], Collected(objects).2);
    } else {
      var init := objects[..|objects| - 1];
      CollectedGathers(init);
      var ks :|
        Selects(init, HasPoints, CurvesOf, ks, Collected(init).0) &&
        Selects(init, HasPoints, SettingsOf, ks, Collected(init).2);
      var ks1 := SelectsStep(objects, HasPoints, CurvesOf, ks, Collected(init).0, Collected(objects).0);
      var ks2 := SelectsStep(objects, HasPoints, SettingsOf, ks, Collected(init).2, Collected(objects).2);
      assert ks1 == ks2;
    }
  }

  /** Whether an object is of type "CURVE". */
  predicate IsCurveType(obj: CurveObject) {
    obj.objType == "CURVE"
  }

  /** The object itself. */
  function Itself(obj: CurveObject): CurveObject {
    obj
  }

  /** The curve objects are exactly the selected objects of type "CURVE", in selection order. */
  lemma {:induction false} CurveObjectsSelects(objects: seq<CurveObject>)
    ensures exists ks :: Selects(objects, IsCurveType, Itself, ks, CurveObjects(objects))
  {
    if objects == [] {
      SelectsNothing(objects, IsCurveType, Itself);
      assert Selects(objects, IsCurveType, Itself, [], CurveObjects(objects));
    } else {
      var init := objects[..|objects| - 1];
      CurveObjectsSelects(init);
      var ks :| Selects(init, IsCurveType, Itself, ks, CurveObjects(init));
      var ks' := SelectsStep(objects, IsCurveType, Itself, ks, CurveObjects(init), CurveObjects(objects));
    }
  }

  const NoCurveObjectsMessage := "No valid curve objects selected."
  const NoCurveDataMessage := "No valid curve data found in selected objects."

  /**
   * `get_selected_curves`: invalid with a message when no curve object is
   * selected or none has points; otherwise the gathered curves and styles,
   * the bounds of all anchor points and their centre.
   */
  function SelectedCurves(objects: seq<CurveObject>): (r: CurveData)
    ensures !r.valid ==> r.curves == [] && r.curvesInfo == None &&
                         r.bounds == Some(GRectF(0.0, 0.0, 0.0, 0.0)) && r.center == Some(GPointF(0.0, 0.0)) &&
                         (r.message == NoCurveObjectsMessage || r.message == NoCurveDataMessage)
    ensures !r.valid ==> (r.message == NoCurveObjectsMessage <==> CurveObjects(objects) == [])
    ensures !r.valid ==> (r.message == NoCurveObjectsMessage <==> forall o :: o in objects ==> o.objType != "CURVE")
    ensures r.valid ==> r.message == "" && r.bounds.Some? && r.curvesInfo.Some? &&
                        |r.curvesInfo.value| == |r.curves| && r.center == Some(r.bounds.value.Center())
    ensures r.valid <==> exists o :: o in objects && o.objType == "CURVE" && HasPoints(o)
    ensures r.valid ==> forall p :: p in Collected(CurveObjects(objects)).1 ==> r.bounds.value.ContainsPoint(p)
    ensures r.valid ==> r.curves == Collected(CurveObjects(objects)).0 &&
                        r.curvesInfo == Some(Collected(CurveObjects(objects)).2) &&
                        r.bounds == Some(CalculateBounds(Collected(CurveObjects(objects)).1))
  {
    var selected := CurveObjects(objects);
    CollectedPointsComeFromObjects(selected);
    if selected == [] then
      CurveData(false, [], Some(GRectF(0.0, 0.0, 0.0, 0.0)), Some(GPointF(0.0, 0.0)), NoCurveObjectsMessage, None)
    else
      var gathered := Collected(selected);
      if gathered.1 != [] then
        var bounds := CalculateBounds(gathered.1);
        CurveData(true, gathered.0, Some(bounds), Some(bounds.Center()), "", Some(gathered.2))
      else
        CurveData(false, [], Some(GRectF(0.0, 0.0, 0.0, 0.0)), Some(GPointF(0.0, 0.0)), NoCurveDataMessage, None)
  }

  /**
   * A successful result lists, in selection order, the kept splines and the
   * style of exactly those selected curve objects that have points, the two
   * lists aligned entry by entry.
   */
  lemma SelectedCurvesAreGathered(objects: seq<CurveObject>)
    ensures var r := SelectedCurves(objects);
      r.valid ==> exists ks ::
        Selects(CurveObjects(objects), HasPoints, CurvesOf, ks, r.curves) &&
        Selects(CurveObjects(objects), HasPoints, SettingsOf, ks, r.curvesInfo.value)
  {
    CollectedGathers(CurveObjects(objects));
  }

  /** One spline of an object, dispatched on its type, into a fresh segment list. */
  method ProcessSpline(spline: SplineSource, matrix: WorldMatrix, objectPoints: seq<GPointF>)
    returns (splinePoints: Spline, newObjectPoints: seq<GPointF>)
    ensures splinePoints == SplineOutput(spline, matrix).0
    ensures newObjectPoints == objectPoints + SplineOutput(spline, matrix).1
  {
    match spline {
      case BezierSpline(bps, cyclic) =>
        splinePoints, newObjectPoints := ProcessBezierSpline(bps, cyclic, matrix, [], objectPoints);
      case PolySpline(ps, cyclic) =>
        splinePoints, newObjectPoints := ProcessPolySpline(ps, cyclic, matrix, [], objectPoints);
    }
    assert [] + splinePoints == splinePoints;
  }

  /** The inner loop of `get_selected_curves`: every spline of one object, in order. */
  method ProcessObjectSplines(obj: CurveObject) returns (objectCurves: ObjectCurves, objectPoints: seq<GPointF>)
    ensures (objectCurves, objectPoints) == ObjectOutput(obj.splines, obj.matrix)
  {
    objectCurves, objectPoints := [], [];
    for k := 0 to |obj.splines|
      invariant (objectCurves, objectPoints) == ObjectOutput(obj.splines[..k], obj.matrix)
    {
      ghost var prev := ObjectOutput(obj.splines[..k], obj.matrix);
      ghost var out := SplineOutput(obj.splines[k], obj.matrix);
      var splinePoints;
      splinePoints, objectPoints := ProcessSpline(obj.splines[k], obj.matrix, objectPoints);
      assert splinePoints == out.0 && objectPoints == prev.1 + out.1;
      if splinePoints != [] {
        objectCurves := objectCurves + [splinePoints];
      }
      assert objectCurves == prev.0 + (if out.0 != [] then [out.0] else []);
      ObjectOutputStep(obj.splines, k, obj.matrix);
    }
    assert obj.splines[..|obj.splines|] == obj.splines;
  }

  lemma ObjectOutputStep(splines: seq<SplineSource>, k: nat, matrix: WorldMatrix)
    requires k < |splines|
    ensures var prev := ObjectOutput(splines[..k], matrix);
            var out := SplineOutput(splines[k], matrix);
            ObjectOutput(splines[..k + 1], matrix) == (prev.0 + (if out.0 != [] then [out.0] else []), prev.1 + out.1)
  {
    assert splines[..k + 1][..k] == splines[..k];
  }

  lemma CollectedStep(objects: seq<CurveObject>, i: nat)
    requires i < |objects|
    ensures var prev := Collected(objects[..i]);
            var obj := objects[i];
            var out := ObjectOutput(obj.splines, obj.matrix);
            Collected(objects[..i + 1]) ==
              if out.1 != [] then (prev.0 + [out.0], prev.1 + out.1, prev.2 + [SettingsOf(obj)]) else prev
  {
    assert objects[..i + 1][..i] == objects[..i];
  }

  /** The loop of `get_selected_curves` over the selected curve objects. */
  method GetSelectedCurves(objects: seq<CurveObject>) returns (r: CurveData)
    ensures r == SelectedCurves(objects)
  {
    var selected := CurveObjects(objects);
    if selected == [] {
      return CurveData(false, [], Some(GRectF(0.0, 0.0, 0.0, 0.0)), Some(GPointF(0.0, 0.0)),
                       NoCurveObjectsMessage, None);
    }
    var allCurves: seq<ObjectCurves> := [];
    var allPoints: seq<GPointF> := [];
    var curvesInfo: seq<CurveSettings> := [];
    for i := 0 to |selected|
      invariant (allCurves, allPoints, curvesInfo) == Collected(selected[..i])
    {
      var obj := selected[i];
      var objectCurves, objectPoints := ProcessObjectSplines(obj);
      if objectPoints != [] {
        allCurves := allCurves + [objectCurves];
        allPoints := allPoints + objectPoints;
        curvesInfo := curvesInfo + [SettingsOf(obj)];
      }
      CollectedStep(selected, i);
    }
    assert selected[..|selected|] == selected;
    if allPoints != [] {
      var bounds := CalculateBounds(allPoints);
      r := CurveData(true, allCurves, Some(bounds), Some(bounds.Center()), "", Some(curvesInfo));
    } else {
      r := CurveData(false, [], Some(GRectF(0.0, 0.0, 0.0, 0.0)), Some(GPointF(0.0, 0.0)), NoCurveDataMessage, None);
    }
  }

  // ---------------------------------------------------------------------------
  // Normalisation

  /** A normalised curve object: its shifted splines and its style, if known. */
  datatype NormalizedCurve = NormalizedCurve(splines: ObjectCurves, style: Option<CurveSettings>)

  /** The point subtracted from every coordinate: the centre, or the top-left corner of the bounds. */
  function NormalizationOffset(center: GPointF, bounds: GRectF, centerAtOrigin: bool): GPointF {
    if centerAtOrigin then center else GPointF(bounds.left, bounds.top)
  }

  function ShiftPoint(p: GPointF, offset: GPointF): GPointF {
    GPointF(p.x - offset.x, p.y - offset.y)
  }

  function ShiftSegment(seg: Segment, offset: GPointF): (r: Segment)
    ensures r.kind == seg.kind && |r.points| == |seg.points|
    ensures forall i :: 0 <= i < |seg.points| ==> r.points[i] == ShiftPoint(seg.points[i], offset)
  {
    Segment(seg.kind, seq(|seg.points|, i requires 0 <= i < |seg.points| => ShiftPoint(seg.points[i], offset)))
  }

  function ShiftSpline(spline: Spline, offset: GPointF): (r: Spline)
    ensures |r| == |spline| && forall j :: 0 <= j < |spline| ==> r[j] == ShiftSegment(spline[j], offset)
  {
    seq(|spline|, j requires 0 <= j < |spline| => ShiftSegment(spline[j], offset))
  }

  function ShiftObject(obj: ObjectCurves, offset: GPointF): (r: ObjectCurves)
    ensures |r| == |obj| && forall j :: 0 <= j < |obj| ==> r[j] == ShiftSpline(obj[j], offset)
  {
    seq(|obj|, j requires 0 <= j < |obj| => ShiftSpline(obj[j], offset))
  }

  /** The style paired with object i: `curves_info[i]` when that entry exists. */
  function StyleAt(data: CurveData, i: nat): Option<CurveSettings> {
    if data.curvesInfo.Some? && i < |data.curvesInfo.value| then Some(data.curvesInfo.value[i]) else None
  }

  /**
   * `normalize_curves`: nothing when the data, its centre or its bounds are
   * missing; otherwise every object shifted by the normalisation offset and
   * paired with its style.
   */
  function Normalized(data: Option<CurveData>, centerAtOrigin: bool): (r: seq<NormalizedCurve>)
    ensures data.None? || data.value.center.None? || data.value.bounds.None? ==> r == []
    ensures data.Some? && data.value.center.Some? && data.value.bounds.Some? ==>
      var offset := NormalizationOffset(data.value.center.value, data.value.bounds.value, centerAtOrigin);
      |r| == |data.value.curves| &&
      forall i :: 0 <= i < |r| ==>
        r[i].style == StyleAt(data.value, i) && r[i].splines == ShiftObject(data.value.curves[i], offset)
  {
    if data.None? || data.value.center.None? || data.value.bounds.None? then []
    else
      var d := data.value;
      var offset := NormalizationOffset(d.center.value, d.bounds.value, centerAtOrigin);
      seq(|d.curves|, i requires 0 <= i < |d.curves| => NormalizedCurve(ShiftObject(d.curves[i], offset), StyleAt(d, i)))
  }

  /** Two object curve lists have the same splines, segment commands and point counts. */
  predicate SameShape(a: ObjectCurves, b: ObjectCurves) {
    |a| == |b| &&
    forall j :: 0 <= j < |a| ==> (|a[j]| == |b[j]| &&
      forall k :: 0 <= k < |a[j]| ==> a[j][k].kind == b[j][k].kind && |a[j][k].points| == |b[j][k].points|)
  }

  /** Shifting keeps every segment's command and point count. */
  lemma ShiftKeepsShape(obj: ObjectCurves, offset: GPointF)
    ensures SameShape(ShiftObject(obj, offset), obj)
  {
  }

  /** Shifting by the opposite offset undoes a shift: no coordinate is lost. */
  lemma ShiftRoundTrip(obj: ObjectCurves, offset: GPointF)
    ensures ShiftObject(ShiftObject(obj, offset), GPointF(-offset.x, -offset.y)) == obj
  {
    var back := GPointF(-offset.x, -offset.y);
    var r := ShiftObject(ShiftObject(obj, offset), back);
    forall j | 0 <= j < |obj| ensures r[j] == obj[j] {
      forall k | 0 <= k < |obj[j]| ensures r[j][k] == obj[j][k] {
        var seg := obj[j][k];
        assert r[j][k].points == seg.points;
      }
    }
  }

  /** The segment loop of `normalize_curves` for one spline. */
  method NormalizeSpline(spline: Spline, offset: GPointF) returns (r: Spline)
    ensures r == ShiftSpline(spline, offset)
  {
    r := [];
    for k := 0 to |spline|
      invariant r == ShiftSpline(spline[..k], offset)
    {
      var seg := spline[k];
      r := r + [Segment(seg.kind, seq(|seg.points|, i requires 0 <= i < |seg.points| => ShiftPoint(seg.points[i], offset)))];
    }
    assert spline[..|spline|] == spline;
  }

  /** The loops of `normalize_curves` over objects and their splines. */
  method NormalizeCurves(data: Option<CurveData>, centerAtOrigin: bool := false) returns (r: seq<NormalizedCurve>)
    ensures r == Normalized(data, centerAtOrigin)
  {
    if data.None? || data.value.center.None? || data.value.bounds.None? {
      return [];
    }
    var d := data.value;
    var offset := NormalizationOffset(d.center.value, d.bounds.value, centerAtOrigin);
    r := [];
    for i := 0 to |d.curves|
      invariant |r| == i
      invariant forall m :: 0 <= m < i ==> r[m] == NormalizedCurve(ShiftObject(d.curves[m], offset), StyleAt(d, m))
    {
      var splines: ObjectCurves := [];
      for j := 0 to |d.curves[i]|
        invariant splines == ShiftObject(d.curves[i][..j], offset)
      {
        var normalized := NormalizeSpline(d.curves[i][j], offset);
        splines := splines + [normalized];
      }
      assert d.curves[i][..|d.curves[i]|] == d.curves[i];
      var style := if d.curvesInfo.Some? && i < |d.curvesInfo.value| then Some(d.curvesInfo.value[i]) else None;
      r := r + [NormalizedCurve(splines, style)];
    }
  }

  // ---------------------------------------------------------------------------
  // Dimensions

  datatype Dimensions = Dimensions(widthOrig: real, heightOrig: real, widthSvg: real, heightSvg: real,
                                   center: GPointF)

  const MinDimension: real := 0.1

  /**
   * `calculate_dimensions`: width and height of the bounds floored at 0.1,
   * the same for the original and the SVG size; all 0.1 and centre (0, 0)
   * when the data, its bounds or its centre are missing.
   */
  function CalculateDimensions(data: Option<CurveData>): (r: Dimensions)
    ensures r.widthOrig >= MinDimension && r.heightOrig >= MinDimension
    ensures r.widthSvg == r.widthOrig && r.heightSvg == r.heightOrig
    ensures data.None? || data.value.bounds.None? || data.value.center.None? ==>
      r == Dimensions(MinDimension, MinDimension, MinDimension, MinDimension, GPointF(0.0, 0.0))
    ensures data.Some? && data.value.bounds.Some? && data.value.center.Some? ==>
      var b := data.value.bounds.value;
      r.center == data.value.center.value &&
      r.widthOrig >= b.Width() && (b.Width() >= MinDimension ==> r.widthOrig == b.Width()) &&
      (b.Width() < MinDimension ==> r.widthOrig == MinDimension) &&
      r.heightOrig >= b.Height() && (b.Height() >= MinDimension ==> r.heightOrig == b.Height()) &&
      (b.Height() < MinDimension ==> r.heightOrig == MinDimension)
  {
    if data.None? || data.value.bounds.None? || data.value.center.None? then
      Dimensions(MinDimension, MinDimension, MinDimension, MinDimension, GPointF(0.0, 0.0))
    else
      var b := data.value.bounds.value;
      var width := Max(MinDimension, b.Width());
      var height := Max(MinDimension, b.Height());
      Dimensions(width, height, width, height, data.value.center.value)
  }

  // ---------------------------------------------------------------------------
  // Simplification of line runs

  /** The state of the segment loop of `simplify_curves`: the output so far and the pending run. */
  datatype RunState = RunState(out: Spline, buffer: seq<GPointF>)

  function LinesThrough(pts: seq<GPointF>): (r: Spline)
    ensures |r| == |pts| && forall i :: 0 <= i < |pts| ==> r[i] == Segment("L", [pts[i]])
  {
    seq(|pts|, i requires 0 <= i < |pts| => Segment("L", [pts[i]]))
  }

  /**
   * `_add_simplified_points`: nothing for a run of at most one point,
   * otherwise a line to every point of the simplified run after its first
   * (which the caller has already placed); the run's last point is always
   * reached.
   */
  function SimplifiedLines(points: seq<GPointF>, tolerance: real): (r: Spline)
    requires tolerance >= 0.0
    ensures |points| <= 1 ==> r == []
    ensures |points| >= 2 ==> 1 <= |r| <= |points| - 1 && r[|r| - 1] == Segment("L", [points[|points| - 1]])
    ensures forall i :: 0 <= i < |r| ==> r[i].kind == "L"
  {
    if |points| <= 1 then []
    else
      var simplified := GeometryUtils.Simplify(points, tolerance);
      GeometryUtils.SimplifyKeepsEnds(points, tolerance);
      LinesThrough(simplified[1..])
  }

  /** `_add_simplified_points`, appending to the caller's spline. */
  method AddSimplifiedPoints(points: seq<GPointF>, simplifiedSpline: Spline, tolerance: real) returns (r: Spline)
    requires tolerance >= 0.0
    ensures r == simplifiedSpline + SimplifiedLines(points, tolerance)
  {
    if |points| <= 1 {
      return simplifiedSpline;
    }
    var simplified := GeometryUtils.SimplifyPolyline(points, tolerance);
    r := AppendLinesAfterFirst(simplifiedSpline, simplified);
  }

  /** The loop of `_add_simplified_points`: a line to every point after the first. */
  method AppendLinesAfterFirst(spline: Spline, points: seq<GPointF>) returns (r: Spline)
    requires |points| >= 1
    ensures r == spline + LinesThrough(points[1..])
  {
    r := spline;
    for i := 1 to |points|
      invariant r == spline + LinesThrough(points[1..i])
    {
      r := r + [Segment("L", [points[i]])];
      assert points[1..i + 1] == points[1..i] + [points[i]];
    }
    assert points[1..|points|] == points[1..];
  }

  /** Emits the pending run, if any, and empties it. */
  function Flush(st: RunState, tolerance: real): (r: RunState)
    requires tolerance >= 0.0
    ensures r.buffer == []
  {
    if st.buffer != [] then RunState(st.out + SimplifiedLines(st.buffer, tolerance), []) else st
  }

  /** Every segment carries the point(s) the loop reads. */
  predicate WellFormed(spline: Spline) {
    forall k :: 0 <= k < |spline| ==> |spline[k].points| >= 1
  }

  /**
   * One segment of the loop. A move flushes the run and starts a new one at
   * its point; a line extends the run; a cubic flushes the run, is copied,
   * and leaves the run empty (`keepCurveEnd` false, the code as written) or
   * starting at the cubic's end point (`keepCurveEnd` true); any other
   * command is dropped.
   */
  function Step(st: RunState, seg: Segment, tolerance: real, keepCurveEnd: bool): RunState
    requires tolerance >= 0.0 && |seg.points| >= 1
  {
    if seg.kind == "M" then
      var f := Flush(st, tolerance);
      RunState(f.out + [seg], [seg.points[0]])
    else if seg.kind == "L" then
      RunState(st.out, st.buffer + [seg.points[0]])
    else if seg.kind == "C" then
      var f := Flush(st, tolerance);
      RunState(f.out + [seg], if keepCurveEnd then [seg.points[|seg.points| - 1]] else [])
    else st
  }

  /** The loop state after the whole spline. */
  function Run(spline: Spline, tolerance: real, keepCurveEnd: bool): RunState
    requires tolerance >= 0.0 && WellFormed(spline)
  {
    if spline == [] then RunState([], [])
    else Step(Run(spline[..|spline| - 1], tolerance, keepCurveEnd), spline[|spline| - 1], tolerance, keepCurveEnd)
  }

  /** A spline simplified: the loop, then the final flush. */
  function SimplifySplineWith(spline: Spline, tolerance: real, keepCurveEnd: bool): Spline
    requires tolerance >= 0.0 && WellFormed(spline)
  {
    Flush(Run(spline, tolerance, keepCurveEnd), tolerance).out
  }

  /** The segment loop of `simplify_curves` as written: a cubic leaves the run empty. */
  function SimplifySplineAsWritten(spline: Spline, tolerance: real): (r: Spline)
    requires tolerance >= 0.0 && WellFormed(spline)
    ensures |r| <= |spline|
    ensures NonLines(r) == MovesAndCurves(spline)
  {
    SimplifyNeverLonger(spline, tolerance, false);
    SimplifyKeepsMovesAndCurves(spline, tolerance, false);
    SimplifySplineWith(spline, tolerance, false)
  }

  /** The segment loop of `simplify_curves` with a run after a cubic starting at the cubic's end. */
  function SimplifySpline(spline: Spline, tolerance: real): (r: Spline)
    requires tolerance >= 0.0 && WellFormed(spline)
    ensures |r| <= |spline|
    ensures NonLines(r) == MovesAndCurves(spline)
  {
    SimplifyNeverLonger(spline, tolerance, true);
    SimplifyKeepsMovesAndCurves(spline, tolerance, true);
    SimplifySplineWith(spline, tolerance, true)
  }

  lemma RunPrefix(spline: Spline, k: nat, tolerance: real, keepCurveEnd: bool)
    requires tolerance >= 0.0 && WellFormed(spline) && k < |spline|
    ensures WellFormed(spline[..k]) && WellFormed(spline[..k + 1])
    ensures Run(spline[..k + 1], tolerance, keepCurveEnd) ==
            Step(Run(spline[..k], tolerance, keepCurveEnd), spline[k], tolerance, keepCurveEnd)
  {
    assert spline[..k + 1][..k] == spline[..k];
  }

  /** The pending run never holds more points than segments remain unaccounted for. */
  function Pending(st: RunState): nat {
    if st.buffer == [] then 0 else |st.buffer| - 1
  }

  lemma {:induction false} RunIsBounded(spline: Spline, tolerance: real, keepCurveEnd: bool)
    requires tolerance >= 0.0 && WellFormed(spline)
    ensures |Run(spline, tolerance, keepCurveEnd).out| + Pending(Run(spline, tolerance, keepCurveEnd)) <= |spline|
    decreases |spline|
  {
    if spline != [] {
      var init := spline[..|spline| - 1];
      RunIsBounded(init, tolerance, keepCurveEnd);
    }
  }

  /** Simplifying a spline never adds segments. */
  lemma SimplifyNeverLonger(spline: Spline, tolerance: real, keepCurveEnd: bool)
    requires tolerance >= 0.0 && WellFormed(spline)
    ensures |SimplifySplineWith(spline, tolerance, keepCurveEnd)| <= |spline|
  {
    RunIsBounded(spline, tolerance, keepCurveEnd);
  }

  /** The segments of s other than lines, in order. */
  function NonLines(s: Spline): (r: Spline)
    ensures |r| <= |s|
  {
    if s == [] then [] else NonLines(s[..|s| - 1]) + (if s[|s| - 1].kind != "L" then [s[|s| - 1]] else [])
  }

  /** The moves and cubics of s, in order. */
  function MovesAndCurves(s: Spline): Spline {
    if s == [] then []
    else
      var last := s[|s| - 1];
      MovesAndCurves(s[..|s| - 1]) + (if last.kind == "M" || last.kind == "C" then [last] else [])
  }

  lemma {:induction false} NonLinesOfJoin(a: Spline, b: Spline)
    ensures NonLines(a + b) == NonLines(a) + NonLines(b)
    decreases |b|
  {
    if b == [] {
      assert a + b == a;
    } else {
      var init, seg := b[..|b| - 1], b[|b| - 1];
      var tail := if seg.kind != "L" then [seg] else [];
      NonLinesOfJoin(a, init);
      assert (a + b)[..|a + b| - 1] == a + init && (a + b)[|a + b| - 1] == seg;
      assert NonLines(a + b) == NonLines(a + init) + tail;
      assert NonLines(b) == NonLines(init) + tail;
      assert (NonLines(a) + NonLines(init)) + tail == NonLines(a) + (NonLines(init) + tail);
    }
  }

  lemma {:induction false} NonLinesOfLines(s: Spline)
    requires forall i :: 0 <= i < |s| ==> s[i].kind == "L"
    ensures NonLines(s) == []
    decreases |s|
  {
    if s != [] {
      NonLinesOfLines(s[..|s| - 1]);
    }
  }

  lemma FlushAddsOnlyLines(st: RunState, tolerance: real)
    requires tolerance >= 0.0
    ensures NonLines(Flush(st, tolerance).out) == NonLines(st.out)
  {
    if st.buffer != [] {
      var lines := SimplifiedLines(st.buffer, tolerance);
      NonLinesOfJoin(st.out, lines);
      NonLinesOfLines(lines);
    }
  }

  /** One segment of the loop adds to the non-line segments exactly the moves and cubics. */
  lemma StepKeepsStructure(st: RunState, seg: Segment, tolerance: real, keepCurveEnd: bool)
    requires tolerance >= 0.0 && |seg.points| >= 1
    ensures NonLines(Step(st, seg, tolerance, keepCurveEnd).out) ==
            NonLines(st.out) + (if seg.kind == "M" || seg.kind == "C" then [seg] else [])
  {
    if seg.kind == "M" || seg.kind == "C" {
      FlushAddsOnlyLines(st, tolerance);
      NonLinesOfJoin(Flush(st, tolerance).out, [seg]);
      assert NonLines([seg]) == [seg] by {
        assert [seg][..0] == [];
      }
    }
  }

  lemma {:induction false} RunKeepsStructure(spline: Spline, tolerance: real, keepCurveEnd: bool)
    requires tolerance >= 0.0 && WellFormed(spline)
    ensures NonLines(Run(spline, tolerance, keepCurveEnd).out) == MovesAndCurves(spline)
    decreases |spline|
  {
    if spline != [] {
      var init := spline[..|spline| - 1];
      var seg := spline[|spline| - 1];
      RunKeepsStructure(init, tolerance, keepCurveEnd);
      StepKeepsStructure(Run(init, tolerance, keepCurveEnd), seg, tolerance, keepCurveEnd);
    }
  }

  /**
   * Simplification changes only lines: the non-line segments of the result
   * are exactly the input's moves and cubics, in order (other commands are
   * dropped).
   */
  lemma SimplifyKeepsMovesAndCurves(spline: Spline, tolerance: real, keepCurveEnd: bool)
    requires tolerance >= 0.0 && WellFormed(spline)
    ensures NonLines(SimplifySplineWith(spline, tolerance, keepCurveEnd)) == MovesAndCurves(spline)
  {
    RunKeepsStructure(spline, tolerance, keepCurveEnd);
    FlushAddsOnlyLines(Run(spline, tolerance, keepCurveEnd), tolerance);
  }

  /** The two versions differ only after a cubic: without cubics they agree. */
  lemma {:induction false} VersionsAgreeWithoutCurves(spline: Spline, tolerance: real)
    requires tolerance >= 0.0 && WellFormed(spline)
    requires forall k :: 0 <= k < |spline| ==> spline[k].kind != "C"
    ensures Run(spline, tolerance, false) == Run(spline, tolerance, true)
    decreases |spline|
  {
    if spline != [] {
      VersionsAgreeWithoutCurves(spline[..|spline| - 1], tolerance);
    }
  }

  /** Without lines, every segment is copied and the run never holds more than one point. */
  lemma {:induction false} RunWithoutLines(spline: Spline, tolerance: real, keepCurveEnd: bool)
    requires tolerance >= 0.0 && WellFormed(spline)
    requires forall k :: 0 <= k < |spline| ==> spline[k].kind == "M" || spline[k].kind == "C"
    ensures Run(spline, tolerance, keepCurveEnd).out == spline
    ensures |Run(spline, tolerance, keepCurveEnd).buffer| <= 1
    decreases |spline|
  {
    if spline != [] {
      var init := spline[..|spline| - 1];
      var last := spline[|spline| - 1];
      RunWithoutLines(init, tolerance, keepCurveEnd);
      StepWithoutLine(Run(init, tolerance, keepCurveEnd), last, tolerance, keepCurveEnd);
      assert init + [last] == spline;
    }
  }

  /** A move or a cubic after a run of at most one point is copied and leaves at most one point. */
  lemma StepWithoutLine(st: RunState, seg: Segment, tolerance: real, keepCurveEnd: bool)
    requires tolerance >= 0.0 && |seg.points| >= 1 && |st.buffer| <= 1
    requires seg.kind == "M" || seg.kind == "C"
    ensures Step(st, seg, tolerance, keepCurveEnd).out == st.out + [seg]
    ensures |Step(st, seg, tolerance, keepCurveEnd).buffer| <= 1
  {
    assert Flush(st, tolerance).out == st.out;
  }

  /** A spline of moves and cubics only is returned unchanged by both versions of the loop. */
  lemma SplineWithoutLinesIsKept(spline: Spline, tolerance: real, keepCurveEnd: bool)
    requires tolerance >= 0.0 && WellFormed(spline)
    requires forall k :: 0 <= k < |spline| ==> spline[k].kind == "M" || spline[k].kind == "C"
    ensures SimplifySplineWith(spline, tolerance, keepCurveEnd) == spline
  {
    RunWithoutLines(spline, tolerance, keepCurveEnd);
  }

  /**
   * The processor's own splines never reach the dropped-line case: a
   * flattened Bezier spline (moves and cubics) is kept whole by both
   * versions, and on a flattened poly spline (no cubics) they agree.
   */
  lemma ProcessorSplinesSimplifyAlike(bps: seq<ProjectedBezier>, ps: seq<GPointF>, cyclic: bool, tolerance: real)
    requires tolerance >= 0.0
    ensures WellFormed(BezierSegments(bps, cyclic)) && WellFormed(PolySegments(ps, cyclic))
    ensures SimplifySplineAsWritten(BezierSegments(bps, cyclic), tolerance) == BezierSegments(bps, cyclic)
    ensures SimplifySpline(BezierSegments(bps, cyclic), tolerance) == BezierSegments(bps, cyclic)
    ensures SimplifySplineAsWritten(PolySegments(ps, cyclic), tolerance) == SimplifySpline(PolySegments(ps, cyclic), tolerance)
  {
    var b := BezierSegments(bps, cyclic);
    var p := PolySegments(ps, cyclic);
    assert forall k :: 0 <= k < |b| ==> (b[k].kind == "M" || b[k].kind == "C") && |b[k].points| >= 1 by {
      forall k | 0 <= k < |b|
        ensures (b[k].kind == "M" || b[k].kind == "C") && |b[k].points| >= 1
      {
        var open := OpenBezierSegments(bps);
        if k == 0 {
          assert b[k] == open[0] == Segment("M", [bps[0].co]);
        } else if k < |bps| {
          assert b[k] == open[k] == Segment("C", [bps[k - 1].hr, bps[k].hl, bps[k].co]);
        } else {
          assert k == |b| - 1;
        }
      }
    }
    assert forall k :: 0 <= k < |p| ==> p[k].kind != "C" && |p[k].points| >= 1 by {
      forall k | 0 <= k < |p|
        ensures p[k].kind != "C" && |p[k].points| >= 1
      {
        if k < |ps| {
          assert p[k] == OpenPolySegments(ps)[k];
        }
      }
    }
    SplineWithoutLinesIsKept(b, tolerance, false);
    SplineWithoutLinesIsKept(b, tolerance, true);
    VersionsAgreeWithoutCurves(p, tolerance);
  }

  /**
   * In a spline that starts with a move, the corrected loop always has a
   * pending run, and right after a line that run has at least two points
   * and ends at the line's point.
   */
  lemma {:induction false} RunAfterLine(spline: Spline, tolerance: real)
    requires tolerance >= 0.0 && WellFormed(spline) && |spline| >= 1 && spline[0].kind == "M"
    ensures Run(spline, tolerance, true).buffer != []
    ensures spline[|spline| - 1].kind == "L" ==>
      var b := Run(spline, tolerance, true).buffer;
      |b| >= 2 && b[|b| - 1] == spline[|spline| - 1].points[0]
    decreases |spline|
  {
    if |spline| >= 2 {
      var init := spline[..|spline| - 1];
      assert init[0] == spline[0];
      RunAfterLine(init, tolerance);
    } else {
      assert spline[..0] == [];
    }
  }

  /** With the run seeded at a cubic's end, a spline ending in a line keeps that final line. */
  lemma SimplifyKeepsFinalLine(spline: Spline, tolerance: real)
    requires tolerance >= 0.0 && WellFormed(spline) && |spline| >= 1 && spline[0].kind == "M"
    requires spline[|spline| - 1].kind == "L"
    ensures var r := SimplifySpline(spline, tolerance);
            |r| >= 1 && r[|r| - 1] == Segment("L", [spline[|spline| - 1].points[0]])
  {
    RunAfterLine(spline, tolerance);
  }

  /** The sample path move, cubic, line. */
  function MoveCurveLine(): (s: Spline)
    ensures WellFormed(s)
  {
    [Segment("M", [GPointF(0.0, 0.0)]),
     Segment("C", [GPointF(1.0, 1.0), GPointF(2.0, 1.0), GPointF(3.0, 0.0)]),
     Segment("L", [GPointF(4.0, 0.0)])]
  }

  lemma MoveCurveLineRunAsWritten()
    ensures Run(MoveCurveLine(), 0.1, false) == RunState(MoveCurveLine()[..2], [GPointF(4.0, 0.0)])
  {
    var s := MoveCurveLine();
    assert s[..1][..0] == [] && s[..2][..1] == s[..1] && s[..3][..2] == s[..2] && s[..3] == s;
    assert Run(s[..1], 0.1, false) == RunState([s[0]], [GPointF(0.0, 0.0)]);
    assert SimplifiedLines([GPointF(0.0, 0.0)], 0.1) == [];
    assert Run(s[..2], 0.1, false) == RunState([s[0], s[1]], []);
  }

  lemma MoveCurveLineRunCorrected()
    ensures Run(MoveCurveLine(), 0.1, true) == RunState(MoveCurveLine()[..2], [GPointF(3.0, 0.0), GPointF(4.0, 0.0)])
  {
    var s := MoveCurveLine();
    assert s[..1][..0] == [] && s[..2][..1] == s[..1] && s[..3][..2] == s[..2] && s[..3] == s;
    assert Run(s[..1], 0.1, true) == RunState([s[0]], [GPointF(0.0, 0.0)]);
    assert SimplifiedLines([GPointF(0.0, 0.0)], 0.1) == [];
    assert Run(s[..2], 0.1, true) == RunState([s[0], s[1]], [GPointF(3.0, 0.0)]);
  }

  /**
   * The loop as written loses a line that directly follows a cubic: the run
   * after the cubic holds only the line's point, and a run of one point
   * emits nothing.
   */
  lemma AsWrittenDropsLineAfterCurve()
    ensures SimplifySplineAsWritten(MoveCurveLine(), 0.1) == MoveCurveLine()[..2]
  {
    MoveCurveLineRunAsWritten();
    assert SimplifiedLines([GPointF(4.0, 0.0)], 0.1) == [];
  }

  /** The corrected loop keeps that line: its run starts at the cubic's end point. */
  lemma CorrectedKeepsLineAfterCurve()
    ensures SimplifySpline(MoveCurveLine(), 0.1) == MoveCurveLine()
  {
    MoveCurveLineRunCorrected();
    var s := MoveCurveLine();
    var run := [GPointF(3.0, 0.0), GPointF(4.0, 0.0)];
    assert GeometryUtils.Simplify(run, 0.1) == run;
    assert SimplifiedLines(run, 0.1) == [s[2]];
    assert s[..2] + [s[2]] == s;
  }

  /** The segment loop of `simplify_curves` for one spline, with the run after a cubic seeded. */
  method SimplifySplineSegments(spline: Spline, tolerance: real) returns (r: Spline)
    requires tolerance >= 0.0 && WellFormed(spline)
    ensures r == SimplifySpline(spline, tolerance)
  {
    var simplifiedSpline: Spline := [];
    var pointsToSimplify: seq<GPointF> := [];
    for k := 0 to |spline|
      invariant RunState(simplifiedSpline, pointsToSimplify) == Run(spline[..k], tolerance, true)
    {
      RunPrefix(spline, k, tolerance, true);
      var seg := spline[k];
      if seg.kind == "M" {
        if pointsToSimplify != [] {
          simplifiedSpline := AddSimplifiedPoints(pointsToSimplify, simplifiedSpline, tolerance);
          pointsToSimplify := [];
        }
        simplifiedSpline := simplifiedSpline + [seg];
        pointsToSimplify := pointsToSimplify + [seg.points[0]];
      } else if seg.kind == "L" {
        pointsToSimplify := pointsToSimplify + [seg.points[0]];
      } else if seg.kind == "C" {
        if pointsToSimplify != [] {
          simplifiedSpline := AddSimplifiedPoints(pointsToSimplify, simplifiedSpline, tolerance);
        }
        simplifiedSpline := simplifiedSpline + [seg];
        pointsToSimplify := [seg.points[|seg.points| - 1]];
      }
    }
    assert spline[..|spline|] == spline;
    if pointsToSimplify != [] {
      simplifiedSpline := AddSimplifiedPoints(pointsToSimplify, simplifiedSpline, tolerance);
    }
    r := simplifiedSpline;
  }

  /** Every spline of valid data is well formed. */
  predicate CurvesWellFormed(curves: seq<ObjectCurves>) {
    forall i, j :: 0 <= i < |curves| && 0 <= j < |curves[i]| ==> WellFormed(curves[i][j])
  }

  /**
   * `simplify_curves`: missing or invalid data unchanged; otherwise the same
   * data with every spline simplified and nothing but the curves changed.
   */
  function SimplifiedCurves(data: Option<CurveData>, tolerance: real): (r: Option<CurveData>)
    requires tolerance >= 0.0
    requires data.Some? && data.value.valid ==> CurvesWellFormed(data.value.curves)
    ensures data.None? || !data.value.valid ==> r == data
    ensures data.Some? && data.value.valid ==>
      r.Some? && r.value == data.value.(curves := r.value.curves) &&
      |r.value.curves| == |data.value.curves| &&
      forall i :: 0 <= i < |data.value.curves| ==>
        |r.value.curves[i]| == |data.value.curves[i]| &&
        forall j :: 0 <= j < |data.value.curves[i]| ==>
          r.value.curves[i][j] == SimplifySpline(data.value.curves[i][j], tolerance)
  {
    if data.None? || !data.value.valid then data
    else
      var curves := data.value.curves;
      Some(data.value.(curves := seq(|curves|, i requires 0 <= i < |curves| =>
        seq(|curves[i]|, j requires 0 <= j < |curves[i]| => SimplifySpline(curves[i][j], tolerance)))))
  }

  /** The loops of `simplify_curves` over objects and splines. */
  method SimplifyCurves(data: Option<CurveData>, tolerance: real := 0.1) returns (r: Option<CurveData>)
    requires tolerance >= 0.0
    requires data.Some? && data.value.valid ==> CurvesWellFormed(data.value.curves)
    ensures r == SimplifiedCurves(data, tolerance)
  {
    if data.None? || !data.value.valid {
      return data;
    }
    var curves := data.value.curves;
    var simplifiedCurves: seq<ObjectCurves> := [];
    for i := 0 to |curves|
      invariant |simplifiedCurves| == i
      invariant forall m :: 0 <= m < i ==> (|simplifiedCurves[m]| == |curves[m]| &&
        forall j :: 0 <= j < |curves[m]| ==> simplifiedCurves[m][j] == SimplifySpline(curves[m][j], tolerance))
    {
      var simplifiedObj: ObjectCurves := [];
      for j := 0 to |curves[i]|
        invariant |simplifiedObj| == j
        invariant forall n :: 0 <= n < j ==> simplifiedObj[n] == SimplifySpline(curves[i][n], tolerance)
      {
        var simplifiedSpline := SimplifySplineSegments(curves[i][j], tolerance);
        simplifiedObj := simplifiedObj + [simplifiedSpline];
      }
      simplifiedCurves := simplifiedCurves + [simplifiedObj];
    }
    ghost var expected := SimplifiedCurves(data, tolerance);
    assert expected == Some(data.value.(curves := expected.value.curves));
    forall i | 0 <= i < |curves| ensures simplifiedCurves[i] == expected.value.curves[i] {
      assert |simplifiedCurves[i]| == |expected.value.curves[i]|;
      forall j | 0 <= j < |curves[i]| ensures simplifiedCurves[i][j] == expected.value.curves[i][j] {
      }
    }
    assert simplifiedCurves == expected.value.curves;
    r := Some(data.value.(curves := simplifiedCurves));
  }
}
