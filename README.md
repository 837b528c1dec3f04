# MLOScaleformTool minimap core, modelled in Dafny

MLOScaleformTool is an editor add-on that turns selected curve objects into
an SVG outline for a game's Scaleform minimap. This project models the
logic behind that pipeline:

1. the geometric value types: vectors, points, sizes, rectangles and the
   bounding box of a point list;
2. the 2x3 affine matrix whose `append_*` operations post-multiply, so the
   appended transform acts on a point first;
3. the stateless geometry algorithms:
   - cubic Bezier evaluation and chord-length approximation;
   - Douglas–Peucker simplification;
   - point-to-segment distance;
   - ray-casting point-in-polygon;
   - colour and coordinate text;
4. the curve processor:
   - flattening Bezier and poly splines into `M`/`L`/`C` segments;
   - collecting the selected objects, their anchor points and their style;
   - bounds and centre;
   - normalisation offsets;
   - dimensions floored at 0.1;
   - simplification of runs of line points;
5. the minimap calculator: world→minimap with a flipped Y and clamping, the
   way back, and the editor→Scaleform axis remap;
6. the TTL cache, with these features:
   - per-entry lifetimes;
   - renewal on a hit;
   - a size bound enforced by dropping expired entries first and then the
     oldest quarter;
   - hit and miss counters;
7. the SVG writer: the document frame, one `path` per drawable spline, and
   the path-data string. The path data follows the SVG 1.1 path grammar of
   section 8.3: moveto (8.3.2), lineto (8.3.4) and cubic Bézier curveto
   (8.3.6);
8. the helpers that write style keys into an object's custom properties
   and reset the scene's stored values.

Coordinates are `real`, so every equality below is exact arithmetic over
the reals. Editor objects are datatypes:
- a curve object has a name, a type, a world matrix (its 2D projection),
  splines and a property map;
- custom properties are a string-keyed map of tagged values;
- the cache clock is an explicit `now` argument.

Code that changes state in place is modelled imperatively:
- the matrix (`GMatrix2D`), the cache (`Cache`) and the property owner are
  classes whose methods update their fields;
- the list-appending loops of the processor and the SVG writer are methods
  with loops, each proved equal to a specification function.

Modules, one per file:
- `Wrappers`: Option and Result;
- `Digits`: positional digit strings;
- `ObjectProperties`: custom-property maps;
- `GeometryBase`;
- `GeometryMatrix`;
- `GeometryUtils`;
- `CurveProcessor`;
- `MinimapCalculator`;
- `TtlCache`;
- `SvgExporter`;
- `Helpers`.

## Model

| member | source | states |
|---|---|---|
| GeometryBase.Vector2.LengthSquared | geometry/base.py:54-56 | the squared length is never negative |
| GeometryBase.Vector2.DistanceSquaredTo | geometry/base.py:58-62 | the squared distance is never negative |
| GeometryBase.Vector2.Perpendicular | geometry/base.py:75-77 | the rotated vector is orthogonal to the original and has the same length |
| GeometryBase.Vector2.Normalize | geometry/base.py:64-69 | the zero vector when the length is below EPSILON; otherwise a unit vector pointing along the input, each component times the length giving back the input's |
| GeometryBase.Vector3.Sub | geometry/base.py:114-120 | subtraction is undone by adding back: (a - b) + b == a |
| GeometryBase.Vector3.Cross | geometry/base.py:150-164 | the cross product is orthogonal to both operands |
| GeometryBase.Vector3.LengthSquared | geometry/base.py:170-172 | the squared length is never negative |
| GeometryBase.Vector3.Normalize | geometry/base.py:174-180 | the zero vector when the length is below EPSILON; otherwise a unit vector pointing along the input, each component times the length giving back the input's |
| GeometryBase.Vector3.ToVector2 | geometry/base.py:182-184 | keeps x and y and drops z |
| GeometryBase.GPointF.DistanceSquaredTo | geometry/base.py:241-253 | the squared distance between points is never negative |
| GeometryBase.DistanceSquaredIsMetric | geometry/base.py:237-253 | point distance is symmetric, zero from a point to itself, and equal to the distance of the points as Vector2 |
| GeometryBase.ApproxEqIsNotTransitive | geometry/base.py:226-231 | epsilon equality of points is not transitive: three concrete points where a≈b and b≈c but not a≈c |
| GeometryBase.GSizeF.AspectRatio | geometry/base.py:282-286 | 0 for a height below EPSILON, otherwise a ratio r with r * height == width |
| GeometryBase.GRectF.Width | geometry/base.py:315-317 | never negative; right - left for an ordered rectangle, 0 for an inverted one |
| GeometryBase.GRectF.Height | geometry/base.py:319-321 | never negative; bottom - top for an ordered rectangle, 0 for an inverted one |
| GeometryBase.GRectF.Size | geometry/base.py:323-325 | both components of the size are non-negative |
| GeometryBase.GRectF.Center | geometry/base.py:327-329 | the centre is equidistant from left and right and from top and bottom |
| GeometryBase.GRectF.Area | geometry/base.py:331-333 | the area is never negative |
| GeometryBase.GRectF.ContainsPoint | geometry/base.py:335-346 | closed containment; a rectangle that contains any point is valid, so an inverted one contains nothing |
| GeometryBase.GRectF.Overlaps | geometry/base.py:348-359 | closed overlap: two rectangles sharing a point overlap, and two valid overlapping rectangles share a point |
| GeometryBase.GRectF.IsValid | geometry/base.py:399-401 | edges in order exactly when width and height equal the plain edge differences rather than being clamped to 0 |
| GeometryBase.GRectF.Union | geometry/base.py:361-376 | left/top are the smaller and right/bottom the larger of the two rectangles' edges, each taken from one of them |
| GeometryBase.GRectF.Intersection | geometry/base.py:378-397 | exactly GRectF(0,0,0,0) for rectangles that do not overlap; otherwise a valid rectangle inside both; for valid overlapping inputs a point is inside it iff it is inside both |
| GeometryBase.GRectF.Normalized | geometry/base.py:403-410 | always valid, with the same pair of horizontal and of vertical edges |
| GeometryBase.GRectF.Scale | geometry/base.py:412-434 | the centre is unchanged, width scales by sx and height by sy, which defaults to sx |
| GeometryBase.OverlapsIsSymmetric | geometry/base.py:348-359 | overlap is symmetric |
| GeometryBase.UnionCommutes | geometry/base.py:361-376 | union is commutative |
| GeometryBase.UnionContainsBoth | geometry/base.py:335-376 | a point of either rectangle is in their union |
| GeometryBase.NormalizedIsIdempotent | geometry/base.py:403-410 | normalising twice equals normalising once |
| GeometryBase.CalculateBounds | geometry/base.py:441-472 | GRectF() for no points; otherwise a valid rectangle containing every point, each edge being some point's coordinate |
| GeometryBase.BoundsPathsAgree | geometry/base.py:455-472 | the vectorised branch (more than 100 points) gives the same rectangle as the scanning branch |
| GeometryBase.BoundsAreScanned | geometry/base.py:451-472 | non-empty bounds are the scanned minima and maxima whichever branch runs |
| GeometryBase.BoundsOfConcatenation | geometry/base.py:441-472 | the bounds of two non-empty point lists together are the union of their bounds |
| GeometryMatrix.Compose | geometry/matrix.py:212-222 | the product applied to a point is the first matrix applied to the second's image: the right operand acts first |
| GeometryMatrix.IdentityFixesPoints | geometry/matrix.py:30-34 | the identity maps every point to itself |
| GeometryMatrix.IdentityIsNeutral | geometry/matrix.py:30-34 | the identity is neutral on both sides of the product |
| GeometryMatrix.AppendedOperationsActFirst | geometry/matrix.py:36-48 | after append_translation(tx,ty) then append_scaling(sx,sy), a point maps to (sx*x + tx, sy*y + ty) |
| GeometryMatrix.DetOfCompose | geometry/matrix.py:138-140 | the determinant of a product is the product of the determinants |
| GeometryMatrix.AppendScalingScalesDet | geometry/matrix.py:36-42 | appending a scaling multiplies the determinant by sx*sy |
| GeometryMatrix.AppendTranslationKeepsDet | geometry/matrix.py:44-48 | appending a translation leaves the determinant unchanged |
| GeometryMatrix.Inverse | geometry/matrix.py:105-120 | for a non-zero determinant, a matrix that undoes the original on both sides |
| GeometryMatrix.InverseIsLeftInverse | geometry/matrix.py:112-119 | the adjugate-over-determinant matrix undoes the original |
| GeometryMatrix.InverseIsRightInverse | geometry/matrix.py:112-119 | the original undoes the adjugate-over-determinant matrix |
| GeometryMatrix.TransformPoints | geometry/matrix.py:71-83 | one image per input point, in order, each the matrix applied to that point; empty input gives empty output |
| GeometryMatrix.TransformRect | geometry/matrix.py:85-103 | a valid rectangle containing the four transformed corners, each edge being a coordinate of one of those images |
| GeometryMatrix.TransformRectOfTranslation | geometry/matrix.py:85-103 | a translated valid rectangle is the rectangle shifted by the translation |
| GeometryMatrix.InvertAsWritten | geometry/matrix.py:105-125 | the code as written: success (returning true with an inverse) iff the determinant is non-zero, an error otherwise |
| GeometryMatrix.InvertAsWrittenRaisesOnZeroScaling | geometry/matrix.py:121-123 | the zero scaling reaches the error branch |
| GeometryMatrix.AffineFromArray | geometry/matrix.py:167-176 | accepted iff the array is 3x3 or 2x3, and then built from its first two rows |
| GeometryMatrix.GMatrix2D.constructor | geometry/matrix.py:32-34 | a new matrix is the identity |
| GeometryMatrix.GMatrix2D.AppendScaling | geometry/matrix.py:36-42 | the new matrix is the old one times the scaling (sy defaulting to sx) |
| GeometryMatrix.GMatrix2D.AppendTranslation | geometry/matrix.py:44-48 | the new matrix is the old one times the translation |
| GeometryMatrix.GMatrix2D.Transform | geometry/matrix.py:64-69 | the image of a point, which the inverse of an invertible matrix maps back to the point |
| GeometryMatrix.GMatrix2D.Determinant | geometry/matrix.py:138-140 | the signed area of the image of the unit square, spanned by the images of (1,0) and (0,1) seen from the image of the origin |
| GeometryMatrix.GMatrix2D.GetTranslation | geometry/matrix.py:149-151 | the translation entries are where the matrix maps the origin |
| GeometryMatrix.GMatrix2D.Invert | geometry/matrix.py:105-125 | true iff the determinant is non-zero, the matrix then being the two-sided inverse of the old one; a singular matrix becomes the identity and false is returned |
| GeometryMatrix.GMatrix2D.Copy | geometry/matrix.py:127-131 | a fresh matrix with the same entries |
| GeometryMatrix.GMatrix2D.SetIdentity | geometry/matrix.py:133-136 | the matrix becomes the identity |
| GeometryMatrix.GMatrix2D.CreateTranslation | geometry/matrix.py:178-184 | equals the identity with the translation appended, and get_translation returns (tx, ty) |
| GeometryMatrix.GMatrix2D.CreateScale | geometry/matrix.py:186-193 | equals the identity with the scaling appended, sy defaulting to sx |
| GeometryMatrix.GMatrix2D.Mul | geometry/matrix.py:212-222 | a fresh matrix applying `other` first and this second |
| GeometryMatrix.GMatrix2D.FromArray | geometry/matrix.py:166-176 | a fresh matrix for a 3x3 or 2x3 array, an error for any other shape |
| GeometryUtils.CubicBezierPoint | geometry/utils.py:22-46 | p0 at t = 0 and p3 at t = 1 |
| GeometryUtils.CubicBezierIsSymmetric | geometry/utils.py:36-46 | reversing the control points and t traces the same curve |
| GeometryUtils.Interpolate | geometry/utils.py:186-201 | p1 at t = 0 and p2 at t = 1 |
| GeometryUtils.Midpoint | geometry/utils.py:172-183 | equals interpolation at 0.5 and is equidistant from both points |
| GeometryUtils.BezierSamples | geometry/utils.py:63-70 | k + 1 samples starting at p0, ending at p3 when k is the segment count |
| GeometryUtils.ChordLength | geometry/utils.py:63-72 | 0 for at most one sample; the one chord for two samples |
| GeometryUtils.ChordLengthIsNonNegative | geometry/utils.py:63-72 | the accumulated length is never negative |
| GeometryUtils.ApproximateBezierLength | geometry/utils.py:49-72 | 0 for no segments; otherwise the sum of the chord lengths between consecutive samples at i/segments |
| GeometryUtils.ProjectionParameter | geometry/utils.py:138-148 | the projection parameter is clamped to [0, 1]: the distance is to the segment, not the line |
| GeometryUtils.PerpendicularDistanceSquared | geometry/utils.py:121-155 | never negative; for a degenerate segment it is the distance to its start point |
| GeometryUtils.SegmentDistanceIsMinimal | geometry/utils.py:121-155 | the result is the squared distance from the point to the segment: no point of the segment is nearer, and some point of it is at exactly that distance |
| GeometryUtils.ProjectionIsNearest | geometry/utils.py:138-155 | for a non-degenerate segment, the point at the clamped projection parameter is at least as near as every point of the segment |
| GeometryUtils.Farthest | geometry/utils.py:93-106 | the scan result: index 0 with distance 0 when nothing exceeds 0, otherwise an interior index and its distance |
| GeometryUtils.FarthestIsMaximal | geometry/utils.py:100-106 | the distance found is the largest interior distance, and the smallest index wins on ties (strict >) |
| GeometryUtils.FindFarthest | geometry/utils.py:93-106 | the scanning loop computes exactly the farthest interior point and its distance |
| GeometryUtils.SimplifyBy | geometry/utils.py:75-118 | for tolerance >= 0 and any distance measure: at most 2 points are returned unchanged; longer input gives at least 2 points and never more than it has |
| GeometryUtils.Simplify | geometry/utils.py:75-118 | with tolerance >= 0: at most 2 points are returned unchanged; longer input gives at least 2 points and never more than it has |
| GeometryUtils.SimplifyPolyline | geometry/utils.py:75-118 | the recursive method computes Simplify |
| GeometryUtils.SimplifyIsSubsequence | geometry/utils.py:97-118 | the result is an order-preserving subsequence of the input |
| GeometryUtils.SimplifyKeepsEnds | geometry/utils.py:97-118 | the result keeps the input's first and last point |
| GeometryUtils.SimplifyWithin | geometry/utils.py:109-118 | when the farthest distance does not exceed the tolerance the result is [first, last] |
| GeometryUtils.WithinToleranceKeepsEndpoints | geometry/utils.py:100-118 | when no interior point is farther than the tolerance, the result is exactly [first, last] |
| GeometryUtils.NegativeToleranceRecursesOnInput | geometry/utils.py:93-112 | with tolerance -1 and all points equal, the index stays 0 while 0 exceeds the tolerance, so the second call receives the whole input |
| GeometryUtils.CreateBoundsCoordinates | geometry/utils.py:204-222 | five corners, first == last, all at z = height, consecutive corners sharing an x or a y, every corner of the rectangle present |
| GeometryUtils.PointInPolygon | geometry/utils.py:260-296 | false for fewer than 3 vertices |
| GeometryUtils.IsPointInPolygon | geometry/utils.py:260-296 | the loop with its early returns computes PointInPolygon |
| GeometryUtils.VertexIsInside | geometry/utils.py:278-281 | a query point equal to a vertex is inside |
| GeometryUtils.HorizontalEdgeIsInside | geometry/utils.py:283-286 | a query point on the span of a horizontal edge is inside |
| GeometryUtils.InsideIsOddCrossings | geometry/utils.py:288-296 | away from vertices and horizontal edges, inside iff the ray crosses an odd number of edges |
| GeometryUtils.Trunc | geometry/utils.py:322 | Python's int(): truncation toward zero |
| GeometryUtils.Hex2 | geometry/utils.py:323 | `:02x` of 0..255 is two hex digits spelling the value; a negative value gets a minus sign |
| GeometryUtils.HexColor | geometry/utils.py:322-323 | the colour text starts with "#"; for channels in [0,1] it is "#" and three lower-case hex pairs spelling int(c*255) for r, g and b |
| GeometryUtils.HexFromRgba | geometry/utils.py:312-323 | the colour text starts with "#"; for channels in [0,1] it is seven characters, the three hex pairs spelling int(c*255) for r, g and b; alpha is not read |
| GeometryUtils.HexFromRgbaTruncates | geometry/utils.py:322 | 0.5 becomes 7f (127), not 80: int() truncates rather than rounds |
| GeometryUtils.RoundHalfEven | geometry/utils.py:338 | the nearest integer, ties to the even one |
| GeometryUtils.FixedPoint | geometry/utils.py:338 | at least one character more than the precision (FixedPointSign, FixedPointDenotes and FixedPointChars give the rest) |
| GeometryUtils.FixedPointSign | geometry/utils.py:338 | the fixed-point text starts with '-' exactly for negative values |
| GeometryUtils.FixedPointDenotes | geometry/utils.py:338 | the digits of the fixed-point text, read without the point, spell the value times 10^precision rounded half to even; the integer part is "0" or starts with a non-zero digit |
| GeometryUtils.FixedPointChars | geometry/utils.py:338 | the fixed-point text holds only digits, one '.', and a leading '-' |
| GeometryUtils.FormatCoordinate | geometry/utils.py:326-339 | without use_comma, the fixed-point text; with it, text of the same length containing no '.' |
| GeometryUtils.CommaFormRoundTrip | geometry/utils.py:338-339 | replacing ',' by '.' in the comma form gives back the point form |
| Digits.DigitStringRoundTrip | geometry/utils.py:323 | the digit string of n, read back in the same base, is n |
| Digits.ZeroPadded | geometry/utils.py:323 | zero padding to a width keeps the value and reaches the width |
| Digits.LeadingZerosAddNothing | geometry/utils.py:323 | leading zeros do not change a digit string's value |
| CurveProcessor.ProjectBeziers | core/processor.py:43-55 | each Bezier point's anchor and handles projected through the world matrix, in order |
| CurveProcessor.ProjectPoints | core/processor.py:102-106 | each poly point projected through the world matrix, in order |
| CurveProcessor.OpenBezierSegments | core/processor.py:57-73 | one M to the first anchor, then a C [prev.hr, curr.hl, curr.co] per following point |
| CurveProcessor.BezierSegments | core/processor.py:40-83 | nothing for no points; otherwise the open segments plus, when cyclic, exactly one closing C [last.hr, first.hl, first.co] |
| CurveProcessor.ProcessBezierSpline | core/processor.py:26-83 | appends the spline's segments to the caller's segment list and exactly its anchors (never the closing segment's) to the point list |
| CurveProcessor.OpenPolySegments | core/processor.py:108-117 | one M to the first point, then an L per following point |
| CurveProcessor.PolySegments | core/processor.py:99-121 | nothing for no points; otherwise the open segments plus, when cyclic, a closing L to the first point |
| CurveProcessor.ProcessPolySpline | core/processor.py:86-121 | appends the spline's segments and exactly its n projected points |
| CurveProcessor.SplineOutput | core/processor.py:392-403 | a spline yields segments exactly when it yields anchor points |
| CurveProcessor.ProcessSpline | core/processor.py:392-403 | dispatches on the spline type and appends exactly SplineOutput's points to the object's point list, into a fresh segment list |
| CurveProcessor.ObjectOutput | core/processor.py:392-407 | every kept spline is non-empty, and an object has segments iff it has points |
| CurveProcessor.ObjectOutputKeepsSplines | core/processor.py:392-407 | the kept splines are exactly those whose segment list is non-empty, in spline order, each as its own segment list |
| CurveProcessor.DefaultSettings | core/processor.py:415-433 | an object without custom properties gets the default style: preset ACCESSIBLE, fill on at 0.6 grey, stroke off at 0.25 grey, stroke width 0.5 |
| CurveProcessor.SettingsOf | core/processor.py:415-433 | the name is copied; each style field is its key's stored value of the matching type, or the key's default when the key is absent |
| CurveProcessor.Collected | core/processor.py:386-434 | one style per kept object, as many styles as curve entries, and no kept object is empty |
| CurveProcessor.CollectedGathers | core/processor.py:386-434 | curves and styles are those of exactly the objects with points, in object order, entry k of both lists coming from the same object |
| CurveProcessor.CollectedPointsComeFromObjects | core/processor.py:409-412 | points are collected iff some object has points |
| CurveProcessor.CurveObjects | core/processor.py:359-361 | only objects of type CURVE, and every selected CURVE object is present |
| CurveProcessor.CurveObjectsSelects | core/processor.py:359-361 | exactly the selected objects of type CURVE, in selection order, each once per occurrence |
| CurveProcessor.SelectedCurves | core/processor.py:340-460 | invalid, with empty curves and zero bounds, when no curve object has points: the message is "No valid curve objects selected." exactly when no selected object is a curve, and "No valid curve data found in selected objects." otherwise; otherwise valid, the curves and styles being those gathered from the curve objects, bounds equal to calculate_bounds of all their points (so containing every one) and centre the bounds' centre |
| CurveProcessor.SelectedCurvesAreGathered | core/processor.py:340-434 | a valid result lists the curves and styles of exactly the curve objects with points, in selection order and aligned entry by entry |
| CurveProcessor.GetSelectedCurves | core/processor.py:340-460 | the object loop computes SelectedCurves |
| CurveProcessor.ShiftSegment | core/processor.py:167-176 | the command and point count are kept, each point moved by the offset |
| CurveProcessor.ShiftKeepsShape | core/processor.py:159-187 | normalising keeps every segment's type and the number of splines, segments and points |
| CurveProcessor.ShiftRoundTrip | core/processor.py:159-187 | shifting by the negated offset gives back the original curves |
| CurveProcessor.Normalized | core/processor.py:124-191 | nothing when data, centre or bounds are missing; otherwise every object shifted by the centre (center_at_origin) or (left, top), paired with its style when one exists |
| CurveProcessor.NormalizeCurves | core/processor.py:124-191 | the nested loops compute Normalized |
| CurveProcessor.CalculateDimensions | core/processor.py:194-223 | width and height are at least 0.1 with the SVG size equal to the original; all 0.1 and centre (0,0) for missing input; otherwise the bounds' extent when that reaches 0.1 and exactly 0.1 when it does not |
| CurveProcessor.SimplifiedLines | core/processor.py:319-337 | nothing for a run of at most one point; otherwise only L segments, at most one fewer than the run, ending at the run's last point |
| CurveProcessor.AddSimplifiedPoints | core/processor.py:319-337 | appends SimplifiedLines to the caller's spline |
| CurveProcessor.SimplifyNeverLonger | core/processor.py:264-304 | a simplified spline never has more segments than the input |
| CurveProcessor.SimplifyKeepsMovesAndCurves | core/processor.py:264-304 | the M and C segments pass through unchanged and in order; everything added is an L |
| CurveProcessor.VersionsAgreeWithoutCurves | core/processor.py:279-295 | on splines without cubics the loop as written and the corrected loop agree |
| CurveProcessor.SimplifyKeepsFinalLine | core/processor.py:264-304 | with the corrected loop, a spline starting with M and ending in an L keeps that final line |
| CurveProcessor.AsWrittenDropsLineAfterCurve | core/processor.py:282-295 | as written, the spline M, C, L loses its final L |
| CurveProcessor.CorrectedKeepsLineAfterCurve | core/processor.py:282-295 | with the run seeded at the cubic's end point, M, C, L is kept whole |
| CurveProcessor.SimplifySplineAsWritten | core/processor.py:259-306 | the loop as written: never longer than the input, the M and C segments kept in order |
| CurveProcessor.SimplifySpline | core/processor.py:259-306 | the corrected loop: never longer than the input, the M and C segments kept in order |
| CurveProcessor.SplineWithoutLinesIsKept | core/processor.py:264-304 | a spline of moves and cubics only comes back unchanged from both versions |
| CurveProcessor.ProcessorSplinesSimplifyAlike | core/processor.py:264-304 | a flattened Bezier spline is kept whole by both versions, and on a flattened poly spline the two versions agree |
| CurveProcessor.SimplifySplineSegments | core/processor.py:259-306 | the segment loop computes the corrected spline simplification |
| CurveProcessor.SimplifiedCurves | core/processor.py:226-316 | missing or invalid data is returned unchanged; otherwise only the curves change, every spline simplified in place |
| CurveProcessor.SimplifyCurves | core/processor.py:226-316 | the object and spline loops compute SimplifiedCurves |
| MinimapCalculator.InverseOrZero | core/calculator.py:53-54 | 1/x for a non-zero span (same sign), 0 for a zero span |
| MinimapCalculator.NewCalculator | core/calculator.py:25-54 | stores the bounds and the minimap size and derives consistent spans and inverses |
| MinimapCalculator.Calculator.WorldToMinimap | core/calculator.py:56-94 | with non-negative minimap sizes, the result lies in [0, width] x [0, height] |
| MinimapCalculator.ZeroSpanPinsCoordinate | core/calculator.py:53-54 | a zero world width pins x to 0, and a zero world height pins y to the minimap height |
| MinimapCalculator.CornersFlipY | core/calculator.py:78-90 | world (min_x, min_y) maps to (0, height) and (max_x, max_y) to (width, 0): Y is flipped |
| MinimapCalculator.WorldRoundTrip | core/calculator.py:78-90 | for positions inside the world bounds, with non-empty spans and a positive minimap size, the way back gives (x, y, 0) |
| MinimapCalculator.Calculator.MinimapToWorld | core/calculator.py:175-210 | undefined (a division by zero in the source) exactly when a minimap size is 0; otherwise z is 0 |
| MinimapCalculator.MinimapRoundTrip | core/calculator.py:175-210 | for minimap points inside the minimap, mapping back to the world and forward again gives the same point |
| MinimapCalculator.BlenderToScaleform | core/calculator.py:96-134 | for a non-zero scale, the editor y and z are recovered from the result: y = x/scale + width/2 and z = -y/scale - height/2 |
| MinimapCalculator.BlenderToScaleformCentres | core/calculator.py:122-130 | the point (y, z) = (w/2, -h/2) maps to the origin, whatever x is |
| MinimapCalculator.BlenderToScaleformIgnoresX | core/calculator.py:122-130 | the editor x coordinate does not affect the result |
| MinimapCalculator.BlenderToScaleformDifference | core/calculator.py:122-130 | differences map as Y -> X and -Z -> Y, scaled by the SVG scale |
| MinimapCalculator.Calculator.GenerateScaleformData | core/calculator.py:136-173 | one entry per position, in order: world_x/y/z copied and x/y from world_to_minimap, all inside the minimap |
| TtlCache.CacheItem.Refresh | utils/cache.py:47-49 | the timestamp becomes now and nothing else changes; a refreshed item is live |
| TtlCache.CacheItem.IsExpired | utils/cache.py:38-45 | with a non-negative lifetime, an item is never expired at or before its timestamp |
| TtlCache.ExpiryIsStrict | utils/cache.py:38-45 | an item is still live at exactly timestamp + lifetime and expired any time later |
| TtlCache.Unexpired | utils/cache.py:123-126 | keeps exactly the entries not expired at now, unchanged |
| TtlCache.EvictionCount | utils/cache.py:128-131 | max(1, n // 4): at least one, a quarter (rounded down) from 4 entries on |
| TtlCache.Lookup | utils/cache.py:74-98 | None for an absent or expired key; a value only for a live key, and then its stored value |
| TtlCache.StoredNoneLooksLikeMiss | utils/cache.py:195-197 | storing None under a key reads back the same as not storing it |
| TtlCache.HitRatio | utils/cache.py:169-170 | 0 with no requests; otherwise hits / (hits + misses), in [0, 1] |
| TtlCache.OldestExists | utils/cache.py:130-135 | a non-empty store has an entry with the oldest timestamp |
| TtlCache.Cache.constructor | utils/cache.py:60-72 | an empty store, zero counters, the given size bound and lifetime |
| TtlCache.Cache.Get | utils/cache.py:74-98 | absent: miss, nothing else changes; expired: deleted and a miss; live: refreshed to now and a hit; the new store is AfterGet of the old; returns Lookup |
| TtlCache.Cache.Set | utils/cache.py:100-114 | the key maps to the value with the given or default lifetime; below the bound nothing else changes; at or above it (even when overwriting a present key) the store is the cleanup of the old store with the key set (WrittenThrough); with max_size >= 1 the size bound is preserved |
| TtlCache.Cache.Cleanup | utils/cache.py:116-135 | CleanedUp: every expired entry is removed; if still full, max(1, n//4) entries are removed (all when fewer), none newer than any that stays, and nothing else |
| TtlCache.Cache.Clear | utils/cache.py:137-145 | the store is empty; counters and settings unchanged |
| TtlCache.Cache.Remove | utils/cache.py:147-160 | true iff the key was present; afterwards the key is absent and nothing else changed |
| TtlCache.Cache.GetStats | utils/cache.py:162-179 | size, bound and counters as stored; hit ratio in [0, 1] with hits/(hits+misses) when there were requests; percentage = ratio * 100 |
| TtlCache.Cache.GetOrCompute | utils/cache.py:181-202 | on a hit the result is the cached value, the entry is refreshed to now and nothing else in the store changes; otherwise the result is compute's value, and the store is what get left (expired entry deleted, live None entry refreshed) passed through set: cleaned up first when full, then the key written; a live entry counts one hit and an absent or expired one one miss, the other counter unchanged |
| SvgExporter.Token | core/exporter.py:124-141 | a token exactly for M, L and C, starting with its command letter and a space |
| SvgExporter.KnownKinds | core/exporter.py:124-141 | the command letters of the spline's M/L/C segments in order; empty iff there are none |
| SvgExporter.PathData | core/exporter.py:107-144 | the path data is empty iff the spline has no M/L/C segment |
| SvgExporter.PathCommandsAreSegmentKinds | core/exporter.py:122-144 | the command letters of the path data are exactly the M/L/C segment types in order: unknown types are skipped and coordinates contain no command letter |
| SvgExporter.GeneratePathData | core/exporter.py:107-144 | the segment loop computes PathData |
| SvgExporter.CoordinateIsCommandFree | core/exporter.py:127-140 | a formatted coordinate contains no path command letter |
| SvgExporter.BezierSplinesAreDrawable | core/processor.py:57-83 | every segment of a flattened Bezier spline carries the points the writer reads |
| SvgExporter.PolySplinesAreDrawable | core/processor.py:108-121 | every segment of a flattened poly spline carries the points the writer reads |
| SvgExporter.StyleOf | core/exporter.py:61-86 | the object's own style wins over the settings; fill/stroke are "none" when disabled, and stroke width is "0" when the stroke is off |
| SvgExporter.SvgSize | core/exporter.py:43-44 | max(0.1, dim) * svg_scale |
| SvgExporter.SplinePaths | core/exporter.py:89-94 | only path lines with the object's style and non-empty data, at most one per spline |
| SvgExporter.SplinePathsSelect | core/exporter.py:89-94 | the path lines are those of exactly the splines with non-empty path data, in spline order, each carrying its own spline's path data |
| SvgExporter.MarkerLines | core/exporter.py:97-100 | one circle per coordinate, in order |
| SvgExporter.GenerateSvgContent | core/exporter.py:25-104 | the appending loops build exactly the document SvgDocument describes |
| SvgExporter.SvgDocument | core/exporter.py:25-104 | the document starts with the XML declaration and always ends with the closing group and svg tags |
| SvgExporter.EmptyDataShowsNotice | core/exporter.py:52-54 | with no curves the body opens with the dashed rectangle and the "No curve data" text, sized to the unscaled document |
| SvgExporter.DocumentCounts | core/exporter.py:52-101 | the body holds one path per spline with non-empty path data, and one marker circle per coordinate exactly when markers are shown |
| Helpers.WithFillPreset | utils/helpers.py:52-68 | for a known preset, exactly the preset name and the four fill colour keys are added |
| Helpers.UnknownPresetChangesNothing | utils/helpers.py:62 | a name that is no preset (such as CUSTOM) leaves the properties unchanged |
| Helpers.FillPresetKeepsOtherKeys | utils/helpers.py:62-68 | no key but the five preset keys changes |
| Helpers.FillPresetIsIdempotent | utils/helpers.py:62-68 | applying a preset twice equals applying it once |
| Helpers.FillPresetReadBack | utils/helpers.py:62-68 | the processor then reads the preset name and the preset's colour back |
| Helpers.WithStrokeSettings | utils/helpers.py:70-88 | exactly the six stroke keys are added |
| Helpers.StrokeKeepsOtherKeys | utils/helpers.py:83-88 | no key but the six stroke keys changes |
| Helpers.StrokeReadBack | utils/helpers.py:83-88 | the processor then reads the flag, the colour and the width back as written |
| Helpers.ResetScene | utils/helpers.py:128-148 | the reset adds exactly the valid flag, the twelve stored numbers and the count |
| Helpers.ResetSceneValues | utils/helpers.py:135-148 | afterwards the valid flag is false, every listed number is 0.0 and the count is 0 |
| Helpers.ResetKeepsOtherKeys | utils/helpers.py:135-148 | no key but the listed ones changes |
| Helpers.ResetIsIdempotent | utils/helpers.py:135-148 | resetting twice equals resetting once |
| Helpers.ApplyFillPreset | utils/helpers.py:52-68 | the object's properties become WithFillPreset of the old ones |
| Helpers.ApplyStrokeSettings | utils/helpers.py:70-88 | the object's properties become WithStrokeSettings of the old ones |
| Helpers.ResetSceneProperties | utils/helpers.py:128-148 | the scene's properties become ResetScene of the old ones |
| ObjectProperties.GetReal | core/processor.py:417-432 | the stored value when present, the default when the key is absent |
| ObjectProperties.GetBool | core/processor.py:418-425 | the stored boolean or the default when absent; a stored number reads true exactly when its numeric value is non-zero |
| ObjectProperties.GetString | core/processor.py:417 | the stored string, or the default when absent |

## Left out

- Floating point: every number is a `real`. The model does not capture the float32 storage of the matrix, numpy's arithmetic or IEEE rounding. All equalities are exact only over the reals.
- Square roots: lengths and distances are stated as squares. `Vector2.Normalize` and `Vector3.Normalize` take the length as a parameter whose square is the squared length. `ApproximateBezierLength` takes the distance function as a parameter. `simplify_polyline` compares the squared distance with the squared tolerance, which orders the same as the distances for a non-negative tolerance.
- GeometryUtils.Simplify: requires tolerance >= 0. With a negative tolerance the source can recurse forever (see Findings), so no result is specified there.
- GeometryUtils.SimplifyBy: the distance measure is a parameter of the recursion. `Simplify` instantiates it with the squared point-to-segment distance.
- GeometryMatrix.GMatrix2D.Invert: models the evidently intended behaviour, not the code as written (see Findings). numpy's singularity test is modelled as an exactly zero determinant.
- Trigonometry and angles are not modelled, because the reals have no sine, cosine or atan2 here. This covers:
  - `append_rotation`, `rotate_degrees`, `create_rotation`, `create_rotation_degrees`;
  - `get_rotation`, `get_rotation_degrees`, `get_scale`;
  - `angle_between_points`, `deg_to_rad`;
  - `create_arrow_coordinates`.
- `to_array`, `__eq__`, `__hash__` and `__repr__` of the value types are not modelled: they are numpy or Python object plumbing.
- Python's `str` of a float (in the `scale(...)` attribute, the stroke width and the marker radius) is the parameter `repr`. The fixed-point format `:.Nf` is modelled with round-half-to-even on the exact value.
- SvgExporter.GenerateSvgContent: like `SvgDocument`, `EmptyDataShowsNotice` and `NoDataNotice`, it requires a non-zero `svg_scale` when there are no curves, and drawable segments (`CurvesDrawable`: at least one point for M and L, three for C). These exclude two error paths of the source. With no curves and a zero scale, core/exporter.py:53-54 raises ZeroDivisionError. A C segment with fewer than three points, or an M or L segment without a point, raises IndexError in `generate_path_data` (core/exporter.py:128-141). The add-on does not reach either path: `svg_scale` is declared with `min=0.01` (ui/properties.py:56), and the processor's own splines are drawable (`SvgExporter.BezierSplinesAreDrawable`, `SvgExporter.PolySplinesAreDrawable`).
- SvgExporter.NoDataNotice: the text position is written as (width / scale) / 2 where the source computes width / (2 * scale). The two are equal over the reals.
- The file writers `export_svg_file` and `export_minimap_data` (I/O, `os.path`, JSON) are not modelled.
- `force_refresh_curve_data` is not modelled: it clears global caches and re-reads the editor selection.
- The cache lookups inside the processor and the calculator are not modelled; the model always computes the fresh result. Those caches can return stale or approximate results, which the model therefore never shows:
  - the calculator's keys round positions to 3 decimals (core/calculator.py:70, 115 and 189), so a position whose coordinates print the same to three decimals as an earlier one's gets the earlier result. Each hit refreshes the entry's timestamp (utils/cache.py:93-94), so that result is served for as long as it is requested at least once every 600 seconds, with no upper bound;
  - `get_selected_curves` keys on the object names and the hash of a tuple of generators (core/processor.py:372-373), never on spline points or style properties, so an edited curve can be served stale. Each hit refreshes the entry's timestamp, so the stale result lasts for as long as it is requested at least once every 60 seconds, with no upper bound.
- The cache class itself is modelled on its own, with abstract keys.
- Cache-key construction from `str()`/`hash()` is not modelled, and neither are `hash_object_data`/`hash_curve_data`. Both depend on per-process hashing.
- The module-level caches `clear_all_caches`, `get_cache_stats` and `compute_with_cache` are not modelled.
- ObjectProperties.GetReal: a custom property stored as a string, an int or a bool reads as the default (string) or as a real (int, bool). In the source `obj.get` returns the stored value itself: a string colour channel makes `hex_from_rgba` raise on `int(c * 255)`, and the stroke width is interpolated with `str()` into the SVG, so a string is written verbatim and an int or bool width prints as `2` or `True` where the model prints the real form `2.0` or `1.0`. The model's style fields are numbers and cannot carry that rendering; the add-on's own property writers (ui/operators.py, utils/helpers.py) store floats, so only a hand-edited property reaches these cases.
- ObjectProperties.GetString: a custom property of another type reads as the default preset name, where the source passes the raw value on.
- GeometryMatrix.GMatrix2D.FromArray: copies the six entries. The source stores the caller's array (or a view of its first two rows) by reference (geometry/matrix.py:170-173), so a later change to that array changes the matrix. Aliasing of numpy arrays is not modelled.
- utils/helpers.py:24-50 holds copies of `hex_from_rgba` and `format_coordinate` identical to geometry/utils.py:312-339. They are modelled once, by `GeometryUtils.HexFromRgba` and `GeometryUtils.FormatCoordinate`.
- `time.time()` is not modelled: it is the `now` argument of each cache operation that reads the clock. `gc.collect()` in `clear` has no observable effect here.
- TtlCache.Cache.Cleanup: states which entries are evicted (the oldest) but not the order `sorted` breaks ties in among equal timestamps.
- Editor access is not modelled, and neither are `Vector2.from_blender_vector`, `Vector3.from_blender_vector` and `to_blender_vector`:
  - selection, `obj.get` and `matrix_world @ co` are replaced by a datatype of curve objects;
  - each object carries the x and y rows of its world matrix and a property map.
- CurveProcessor.SimplifyCurves: requires every segment to carry at least one point, which the source's `seg["points"][0]` needs for M and L segments. It is also demanded of segments of an unknown type, which the source would skip.
- CurveProcessor.SimplifiedCurves: the function `SimplifyCurves` computes; it carries the same point requirement on every segment.
- CurveProcessor.SimplifyCurves: models the corrected line-run handling after a cubic (see Findings). The code as written is `SimplifySplineAsWritten`.
- CurveProcessor.SimplifiedCurves: models the same corrected line-run handling after a cubic as `SimplifyCurves`.
- MinimapCalculator.Calculator.MinimapToWorld: a zero minimap size, where the source raises a division error, is the `None` result.
- The UI modules, add-on registration, `get_addon_preferences`, `get_enum_items` and `copy_to_clipboard` are not modelled. They are editor integration with no logic of their own.
- The docstrings of `hex_from_rgba` (geometry/utils.py:320 and utils/helpers.py:32) give `"#FF0000"` in upper case as the example. The code writes lower-case `:02x` after truncating with `int()`, and the model follows the code (`GeometryUtils.HexFromRgbaTruncates`).
- The docstring of `get_or_compute` (utils/cache.py:184) promises to compute the value only if it is not present. A stored `None` is present and is still recomputed, because `get` returns it exactly as it reports a miss (`TtlCache.StoredNoneLooksLikeMiss`); the model follows the code.

## Findings

| source | as written | input that shows it | evidently intended | confidence | as-written member | corrected member |
|---|---|---|---|---|---|---|
| geometry/matrix.py:121-125 | the singular branch assigns to `result.M` and returns `result`, but no `result` exists in `invert`, so a singular matrix raises NameError instead of returning False | `GMatrix2D().append_scaling(0)` then `invert()` | reset to the identity and return False, as the comment and docstring say | not executed | GeometryMatrix.InvertAsWritten | GeometryMatrix.GMatrix2D.Invert |
| core/processor.py:282-295, 335-337 | a `C` segment leaves `points_to_simplify` empty, so a following run of `L` points has no anchor: a single `L` after a cubic is dropped, and in longer runs the first `L` point becomes the unemitted anchor. The processor's own splines never mix `C` and `L` (`CurveProcessor.ProcessorSplinesSimplifyAlike`), so only curve data from elsewhere reaches this case | the spline M(0,0), C(...,(3,0)), L(4,0) simplifies to M, C | the run after a cubic starts at the cubic's end point, so every line is kept or simplified | not executed | CurveProcessor.AsWrittenDropsLineAfterCurve | CurveProcessor.CorrectedKeepsLineAfterCurve |
| geometry/utils.py:93-112 | with a negative tolerance and every interior distance 0, `index` stays 0 and the second recursive call receives `points[0:]`, the unchanged input: unbounded recursion | `simplify_polyline([p, p, p], -1)` | a non-negative tolerance (the defaults are 0.1 for simplify_curves and 1.0 for simplify_polyline) | not executed | GeometryUtils.NegativeToleranceRecursesOnInput | GeometryUtils.Simplify |
